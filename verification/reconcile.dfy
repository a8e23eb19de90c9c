// The two Reconcile drivers, internal/controller/certsync.go and internal/controller/issuer.go,
// as functions from what a run reads to what it leaves behind.
module Reconcile {
  import opened Common
  import opened Canonical
  import opened Library
  import Pem
  import opened Normalize
  import opened Chain
  import opened Objects
  import opened Keystore
  import opened SecretStore
  import opened Conditions
  import opened Payload

  /******* What a run sees *******/

  // The libraries and the known roots.
  datatype Env = Env(lib: Crypto, formats: Formats, roots: seq<string>)

  // Faults of the calls that record drift: on the Secret, and on the Certificate's status.
  datatype MarkFault = MarkFault(secret: WriteFault, status: bool)

  datatype Faults = Faults(
    readOwn: bool,
    writes: string -> WriteFault,
    postWrite: bool,
    softMark: MarkFault,
    mark: MarkFault,
    clear: MarkFault,
    ready: bool)

  // Everything a run learns after the fetch. The texts of error messages are free.
  datatype Circumstances = Circumstances(
    now: string,
    chance: Chance,
    namespaces: Option<seq<Namespace>>,
    filter: NamespaceFilter,
    faults: Faults,
    softMessage: string,
    message: string)

  // The store, and the Certificate's conditions as the run holds them and as the API server has them.
  datatype Run = Run(secrets: Store, local: Conditions, server: Conditions)

  datatype Ending = Ignored | Marked(reason: string) | PostWriteFailed | Synced

  datatype Report = Report(ending: Ending, targets: seq<string>, results: seq<WriteResult>, failed: Option<string>)

  const NOTHING_WRITTEN := (ending: Ending) => Report(ending, [], [], None)

  /******* Conditions and markers *******/

  // A merge patch of the status: an empty difference sends nothing.
  function SetCondition(run: Run, c: Condition, fails: bool): Run {
    var local := Replaced(run.local, c);
    run.(local := local, server := if fails || local == run.local then run.server else local)
  }

  function MarkCert(run: Run, cert: Certificate, reason: string, message: string, now: string, fault: MarkFault): Run {
    var (secrets, ok) := Mark(run.secrets, cert.Own(), reason, message, now, fault.secret);
    if !ok then run.(secrets := secrets)
    else SetCondition(run.(secrets := secrets), Condition(ExternalIssuerSynced, false, reason, message), fault.status)
  }

  function ClearCert(run: Run, cert: Certificate, reason: string, message: string, fault: MarkFault): Run {
    var (secrets, ok) := Clear(run.secrets, cert.Own(), fault.secret);
    if !ok then run.(secrets := secrets)
    else SetCondition(run.(secrets := secrets), Condition(ExternalIssuerSynced, true, reason, message), fault.status)
  }

  /******* Checking the data before it is written *******/

  function PrivateKeyParses(lib: Crypto, keyPEM: string): bool {
    match Pem.First(keyPEM)
    case None => false
    case Some(b) => lib.pkcs8(b.bytes) || lib.pkcs1(b.bytes) || lib.ec(b.bytes)
  }

  // VerifySecretData accepts.
  predicate DataVerified(env: Env, data: Data) {
    && LeadingCert(env.lib, Lookup(data, TLS_CRT)).Some?
    && (Lookup(data, TLS_KEY) != "" ==> PrivateKeyParses(env.lib, Lookup(data, TLS_KEY)))
    && (Lookup(data, KEYSTORE_JKS) != "" ==>
          env.formats.jksLoad(Lookup(data, KEYSTORE_JKS), Lookup(data, KEYSTORE_PASSWORD)).Some?)
  }

  // The first block of tls.crt is there and parses.
  ghost predicate CertificateReads(env: Env, data: Data) {
    var b := Pem.First(Lookup(data, "tls.crt"));
    b.Some? && env.lib.parse(b.value.bytes).Some?
  }

  // tls.key is empty, or its first block is there and one of the three parsers reads it.
  ghost predicate KeyReads(env: Env, data: Data) {
    var b := Pem.First(Lookup(data, "tls.key"));
    Lookup(data, "tls.key") == "" ||
    (b.Some? && (env.lib.pkcs8(b.value.bytes) || env.lib.pkcs1(b.value.bytes) || env.lib.ec(b.value.bytes)))
  }

  // keystore.jks is empty or opens with the stored password.
  ghost predicate KeystoreOpens(env: Env, data: Data) {
    Lookup(data, "keystore.jks") == "" ||
    env.formats.jksLoad(Lookup(data, "keystore.jks"), Lookup(data, "keystore.password")).Some?
  }

  ghost predicate Consumable(env: Env, data: Data) {
    CertificateReads(env, data) && KeyReads(env, data) && KeystoreOpens(env, data)
  }

  // The check before a write accepts exactly what its consumers can read.
  lemma VerifiedIsConsumable(env: Env, data: Data)
    ensures DataVerified(env, data) <==> Consumable(env, data)
  {
    hide Pem.First;
  }

  /******* Assembling the Secret *******/

  // The Secret without its key store, and what the key store is built from.
  datatype Assembled = Assembled(template: Secret, leaf: string, key: string, chain: string)

  function CertAnnotations(lib: Crypto, certPEM: string): Annotations {
    match LeadingCert(lib, certPEM)
    case None => map[]
    case Some(leaf) =>
      map[CommonName := leaf.info.commonName, NotBefore := leaf.info.notBefore, NotAfter := leaf.info.notAfter]
        + if leaf.info.dnsNames != [] then map[AltNames := Join(leaf.info.dnsNames, ",")] else map[]
  }

  lemma CertAnnotationsKeys(lib: Crypto, certPEM: string)
    ensures CertAnnotations(lib, certPEM).Keys <= {CommonName, AltNames, NotBefore, NotAfter}
  {
    hide LeadingCert, Join;
  }

  const SECRET_TYPE_TLS := "kubernetes.io/tls"

  // The annotations both drivers begin with.
  function BaseAnnotations(cert: Certificate, group: string, hash: string, refKey: AnnotationKey, ref: string,
                           now: string, chain: string): Annotations {
    map[IssuerName := cert.issuerName, IssuerKind := cert.issuerKind, IssuerGroup := group, SourceHashKey := hash,
        refKey := ref, LastSyncTime := now, ChainKey := chain]
  }

  ghost function TlsBundle(env: Env, leaf: string, chain: string): string {
    Completed(env.lib, Normalized(leaf + chain), env.roots)
  }

  ghost function SyncAssembled(env: Env, cert: Certificate, annotation: string, ref: string,
                               leaf: string, chain: string, key: string, extra: Annotations, now: string): Assembled {
    var tls := TlsBundle(env, leaf, chain);
    var annotations := BaseAnnotations(cert, cert.issuerGroup, env.lib.digest(SourcePreimage(leaf, key, chain)),
                                       Custom(annotation), ref, now, Composition(env.lib, tls));
    var (ksLeaf, ksChain) := SplitBundle(tls);
    Assembled(
      Secret(SECRET_TYPE_TLS, map[TLS_CRT := tls, TLS_KEY := key],
             annotations + CertAnnotations(env.lib, leaf) + extra, map[], []),
      ksLeaf, key, ksChain)
  }

  function GroupOrDefault(group: string): string {
    if group == "" then "cert-manager.io" else group
  }

  // tls.crt is the payload's certificate alone; the completed chain goes to ca.crt.
  ghost function ManagerAssembled(env: Env, cert: Certificate, ref: string, parsed: Extracted, now: string): Assembled {
    var completed := Completed(env.lib, parsed.certificate + parsed.chain, env.roots);
    var chain := SplitBundle(completed).1;
    var hash := env.lib.digest(SourcePreimage(parsed.certificate, parsed.privateKey, parsed.chain));
    var annotations := BaseAnnotations(cert, GroupOrDefault(cert.issuerGroup), hash, SecretNameKey, ref, now,
                                       Composition(env.lib, completed));
    var data := map[TLS_CRT := parsed.certificate, TLS_KEY := parsed.privateKey];
    Assembled(
      Secret(SECRET_TYPE_TLS, if chain != "" then data[CA_CRT := chain] else data,
             annotations + CertAnnotations(env.lib, parsed.certificate), map[], []),
      parsed.certificate, parsed.privateKey, chain)
  }

  /******* From the assembled Secret to the end of the run *******/

  function Existing(secrets: Store, key: ObjectKey): Option<Secret> {
    if key in secrets then Some(secrets[key]) else None
  }

  // Reuse reads the Certificate's own namespace only.
  ghost function KeystoreOutcome(env: Env, secrets: Store, cert: Certificate, asm: Assembled, chance: Chance): Outcome {
    ReusedOrBuilt(env.lib, env.formats, asm.leaf, asm.key, asm.chain, Existing(secrets, cert.Own()),
                  Lookup(asm.template.annotations, SourceHashKey), chance)
  }

  function WithKeystore(template: Secret, outcome: Outcome): Secret {
    match outcome
    case Ready(jks, p12, password) =>
      template.(data := template.data[KEYSTORE_JKS := jks][KEYSTORE_P12 := p12][KEYSTORE_PASSWORD := password])
    case _ => template
  }

  lemma KeystoreFields(template: Secret, outcome: Outcome)
    requires outcome.Ready?
    ensures
      var data := WithKeystore(template, outcome).data;
      && Lookup(data, KEYSTORE_JKS) == outcome.jks
      && Lookup(data, KEYSTORE_P12) == outcome.p12
      && Lookup(data, KEYSTORE_PASSWORD) == outcome.password
  {
    assert KEYSTORE_JKS[9] != KEYSTORE_P12[9] && |KEYSTORE_PASSWORD| != |KEYSTORE_P12|
      && |KEYSTORE_PASSWORD| != |KEYSTORE_JKS|;
  }

  // The key store changes neither annotations nor the three TLS fields.
  lemma KeystoreKeepsTls(template: Secret, outcome: Outcome)
    ensures
      var t := WithKeystore(template, outcome);
      && t.kind == template.kind && t.annotations == template.annotations
      && Lookup(t.data, TLS_CRT) == Lookup(template.data, TLS_CRT)
      && Lookup(t.data, TLS_KEY) == Lookup(template.data, TLS_KEY)
      && Lookup(t.data, CA_CRT) == Lookup(template.data, CA_CRT)
  {
    assert |TLS_CRT| == |TLS_KEY| == 7 && |CA_CRT| == 6;
    assert |KEYSTORE_JKS| == |KEYSTORE_P12| == 12 && |KEYSTORE_PASSWORD| == 17;
  }

  // The names in a Secret's data but for the key store's.
  function Fields(data: Data): set<string> {
    data.Keys - {"keystore.jks", "keystore.p12", "keystore.password"}
  }

  lemma KeystoreKeepsFields(template: Secret, outcome: Outcome)
    ensures Fields(WithKeystore(template, outcome).data) == Fields(template.data)
  {
  }

  lemma NoKeystoreAdded(template: Secret, outcome: Outcome)
    requires !outcome.Ready?
    ensures WithKeystore(template, outcome) == template
  {
  }

  // A missing key store is recorded, and the run goes on.
  function SoftMarked(run: Run, cert: Certificate, outcome: Outcome, c: Circumstances): Run {
    match outcome
    case Failed => MarkCert(run, cert, "KeystoreBuildFailed", c.softMessage, c.now, c.faults.softMark)
    case Skipped => MarkCert(run, cert, "KeystoreSkipped", c.softMessage, c.now, c.faults.softMark)
    case Ready(_, _, _) => run
  }

  function EndMarked(run: Run, cert: Certificate, reason: string, c: Circumstances): Run {
    MarkCert(run, cert, reason, c.message, c.now, c.faults.mark)
  }

  ghost function Deliver(env: Env, run: Run, cert: Certificate, asm: Assembled, c: Circumstances,
                         marksPostWrite: bool): (Run, Report) {
    if c.faults.readOwn then
      (EndMarked(run, cert, "SecretReadFailed", c), NOTHING_WRITTEN(Marked("SecretReadFailed")))
    else
      var outcome := KeystoreOutcome(env, run.secrets, cert, asm, c.chance);
      var soft := SoftMarked(run, cert, outcome, c);
      var template := WithKeystore(asm.template, outcome);
      if !DataVerified(env, template.data) then
        (EndMarked(soft, cert, "SecretVerifyFailed", c), NOTHING_WRITTEN(Marked("SecretVerifyFailed")))
      else if IsClusterKind(cert.issuerKind) && c.namespaces.None? then
        (EndMarked(soft, cert, "NamespaceListFailed", c), NOTHING_WRITTEN(Marked("NamespaceListFailed")))
      else
        Publish(env, soft, cert, template, c, marksPostWrite)
  }

  function TargetsOf(cert: Certificate, c: Circumstances): seq<string> {
    Targets(cert, if c.namespaces.Some? then c.namespaces.value else [], c.filter)
  }

  ghost function Publish(env: Env, run: Run, cert: Certificate, template: Secret, c: Circumstances,
                         marksPostWrite: bool): (Run, Report) {
    var targets := TargetsOf(cert, c);
    var (secrets, results) := FanOut(env.lib, run.secrets, cert, template, targets, c.faults.writes);
    FanOutAt(env.lib, run.secrets, cert, template, targets, c.faults.writes);
    var wrote := run.(secrets := secrets);
    var failed := FirstFailed(targets, results);
    if failed.Some? then
      (EndMarked(wrote, cert, "SecretWriteFailed", c), Report(Marked("SecretWriteFailed"), targets, results, failed))
    else if c.faults.postWrite then
      if marksPostWrite then
        (EndMarked(wrote, cert, "SignCRFailed", c), Report(Marked("SignCRFailed"), targets, results, None))
      else
        (wrote, Report(PostWriteFailed, targets, results, None))
    else
      var cleared := ClearCert(wrote, cert, "Synced", c.message, c.faults.clear);
      (SetCondition(cleared, Condition(ConditionType.Ready, true, "Synced", c.message), c.faults.ready),
       Report(Synced, targets, results, None))
  }

  /******* The drivers *******/

  datatype SyncSource =
    | NotAnnotated | Deleting | FinalizerFails
    | SyncFetchFails(reason: string)
    | Fetched(leaf: string, chain: string, key: string, extra: Annotations)

  datatype ManagerSource =
    | NoReference | UnknownKind | SourceFails | ConfigFails
    | Document(doc: Option<Document>, keys: PayloadKeys)

  datatype Input =
    | Sync(cert: Certificate, annotation: string, ref: string, fetch: SyncSource, c: Circumstances)
    | Manage(cert: Certificate, ref: string, source: ManagerSource, c: Circumstances)

  // CertSyncer.Reconcile
  ghost function SyncReconciled(env: Env, run: Run, i: Input): (Run, Report)
    requires i.Sync?
  {
    match i.fetch
    case NotAnnotated => (run, NOTHING_WRITTEN(Ignored))
    case Deleting => (run, NOTHING_WRITTEN(Ignored))
    case FinalizerFails => (run, NOTHING_WRITTEN(Ignored))
    case SyncFetchFails(reason) => (EndMarked(run, i.cert, reason, i.c), NOTHING_WRITTEN(Marked(reason)))
    case Fetched(leaf, chain, key, extra) =>
      Deliver(env, run, i.cert, SyncAssembled(env, i.cert, i.annotation, i.ref, leaf, chain, key, extra, i.c.now), i.c,
        false)
  }

  // IssuerReconciler.Reconcile
  ghost function ManagerReconciled(env: Env, run: Run, i: Input): (Run, Report)
    requires i.Manage?
  {
    match i.source
    case NoReference => (EndMarked(run, i.cert, "MissingSecretRef", i.c), NOTHING_WRITTEN(Marked("MissingSecretRef")))
    case UnknownKind => (EndMarked(run, i.cert, "InvalidSpec", i.c), NOTHING_WRITTEN(Marked("InvalidSpec")))
    case SourceFails => (EndMarked(run, i.cert, "SourceMissing", i.c), NOTHING_WRITTEN(Marked("SourceMissing")))
    case ConfigFails => (EndMarked(run, i.cert, "InvalidSpec", i.c), NOTHING_WRITTEN(Marked("InvalidSpec")))
    case Document(doc, keys) =>
      match Extract(doc, keys)
      case Failure(_) => (EndMarked(run, i.cert, "InvalidPayload", i.c), NOTHING_WRITTEN(Marked("InvalidPayload")))
      case Success(parsed) =>
        if !ChainAccepted(env.lib, parsed.certificate, parsed.chain) then
          (EndMarked(run, i.cert, "ChainInvalid", i.c), NOTHING_WRITTEN(Marked("ChainInvalid")))
        else
          Deliver(env, run, i.cert, ManagerAssembled(env, i.cert, i.ref, parsed, i.c.now), i.c, true)
  }

  ghost function Reconciled(env: Env, run: Run, i: Input): (Run, Report) {
    if i.Sync? then SyncReconciled(env, run, i) else ManagerReconciled(env, run, i)
  }

  /******* The cluster between runs *******/

  datatype World = World(secrets: Store, status: map<ObjectKey, Conditions>)

  function CertKey(cert: Certificate): ObjectKey {
    ObjectKey(cert.namespace, cert.name)
  }

  function StatusOf(status: map<ObjectKey, Conditions>, key: ObjectKey): Conditions {
    if key in status then status[key] else []
  }

  // One whole reconcile: the Certificate is read, the driver runs, its patches stay.
  ghost function Step(env: Env, w: World, i: Input): (World, Report) {
    var conditions := StatusOf(w.status, CertKey(i.cert));
    var (run, report) := Reconciled(env, Run(w.secrets, conditions, conditions), i);
    (World(run.secrets, w.status[CertKey(i.cert) := run.server]), report)
  }
}
