// The drivers as the source runs them: step by step, against the objects of the cluster. Each method is
// proved to do what the function of the same step in SecretStore and Reconcile says.
module Controller {
  import opened Common
  import opened Canonical
  import opened Library
  import opened Normalize
  import opened Chain
  import opened Objects
  import opened Keystore
  import opened SecretStore
  import opened Conditions
  import opened Payload
  import opened Reconcile
  import Pem

  method ExtractPayload(lib: Crypto, doc: Option<Payload.Document>,
                        keys: PayloadKeys) returns (r: Result<Extracted, ExtractError>)
    requires Injective(lib.fingerprint)
    ensures r == Extract(doc, keys)
  {
    hide Normalized;
    if doc.None? { return Failure(InvalidJson); }
    var certKey := keys.CertificateOrDefault();
    var keyKey := keys.PrivateKeyOrDefault();
    var chainKey := keys.CertificateChainOrDefault();
    if !Present(doc.value, certKey) { return Failure(MissingField(certKey)); }
    if !Present(doc.value, keyKey) { return Failure(MissingField(keyKey)); }
    var certificate := NormalizePEM(lib.fingerprint, MustUnquote(doc.value[certKey]));
    var privateKey := NormalizePEM(lib.fingerprint, MustUnquote(doc.value[keyKey]));
    var chain := "";
    if Present(doc.value, chainKey) {
      chain := NormalizePEM(lib.fingerprint, MustUnquote(doc.value[chainKey]));
    }
    return Success(Extracted(certificate, privateKey, chain));
  }

  method AssembleSync(env: Env, cert: Certificate, annotation: string, ref: string, leaf: string, chain: string,
                      key: string, extra: Annotations, now: string) returns (asm: Assembled)
    requires Injective(env.lib.fingerprint)
    ensures asm == SyncAssembled(env, cert, annotation, ref, leaf, chain, key, extra, now)
  {
    hide Normalized, Completed, Composition, SplitBundle, SourcePreimage, CertAnnotations;
    var tls := NormalizePEM(env.lib.fingerprint, leaf + chain);
    tls := CompleteChain(env.lib, tls, env.roots);
    var annotations: Annotations := map[];
    annotations := annotations[IssuerName := cert.issuerName];
    annotations := annotations[IssuerKind := cert.issuerKind];
    annotations := annotations[IssuerGroup := cert.issuerGroup];
    var hash := SourceHash(env.lib.digest, leaf, key, chain);
    annotations := annotations[SourceHashKey := hash];
    annotations := annotations[Custom(annotation) := ref];
    annotations := annotations[LastSyncTime := now];
    var composition := ChainComposition(env.lib, tls);
    annotations := annotations[ChainKey := composition];
    annotations := annotations + CertAnnotations(env.lib, leaf) + extra;
    var ksLeaf, ksChain := SplitLeafAndChain(tls);
    asm := Assembled(Secret(SECRET_TYPE_TLS, map[TLS_CRT := tls, TLS_KEY := key], annotations, map[], []), ksLeaf, key,
      ksChain);
  }

  method AssembleManaged(env: Env, cert: Certificate, ref: string, parsed: Extracted,
                         now: string) returns (asm: Assembled)
    requires Injective(env.lib.fingerprint)
    ensures asm == ManagerAssembled(env, cert, ref, parsed, now)
  {
    hide Normalized, Completed, Composition, SplitBundle, SourcePreimage, CertAnnotations;
    var completed := CompleteChain(env.lib, parsed.certificate + parsed.chain, env.roots);
    var _, chain := SplitLeafAndChain(completed);
    var hash := SourceHash(env.lib.digest, parsed.certificate, parsed.privateKey, parsed.chain);
    var annotations: Annotations := map[
      IssuerName := cert.issuerName,
      IssuerKind := cert.issuerKind,
      IssuerGroup := GroupOrDefault(cert.issuerGroup),
      SourceHashKey := hash,
      SecretNameKey := ref,
      LastSyncTime := now];
    var data: Data := map[TLS_CRT := parsed.certificate, TLS_KEY := parsed.privateKey];
    if |chain| > 0 {
      data := data[CA_CRT := chain];
    }
    var composition := ChainComposition(env.lib, completed);
    annotations := annotations[ChainKey := composition] + CertAnnotations(env.lib, parsed.certificate);
    asm := Assembled(Secret(SECRET_TYPE_TLS, data, annotations, map[], []), parsed.certificate, parsed.privateKey,
      chain);
  }

  datatype DataError = BadCertificate | BadKey | BadKeystore

  method VerifySecretData(env: Env, data: Data) returns (r: Option<DataError>)
    ensures r.None? <==> DataVerified(env, data)
    ensures r.None? <==> CertificateReads(env, data) && KeyReads(env, data) && KeystoreOpens(env, data)
    ensures r == Some(BadCertificate) <==> !CertificateReads(env, data)
    ensures r == Some(BadKey) <==> CertificateReads(env, data) && !KeyReads(env, data)
    ensures r == Some(BadKeystore) <==> CertificateReads(env, data) && KeyReads(env, data) && !KeystoreOpens(env, data)
  {
    VerifiedIsConsumable(env, data);
    hide Pem.First;
    var leaf := LeadingCert(env.lib, Lookup(data, TLS_CRT));
    if leaf.None? { return Some(BadCertificate); }
    var key := Lookup(data, TLS_KEY);
    if |key| > 0 && !PrivateKeyParses(env.lib, key) { return Some(BadKey); }
    var jks := Lookup(data, KEYSTORE_JKS);
    if |jks| > 0 && env.formats.jksLoad(jks, Lookup(data, KEYSTORE_PASSWORD)).None? { return Some(BadKeystore); }
    return None;
  }

  method SecretUpToDate(lib: Crypto, existing: Secret, desired: Secret) returns (r: bool)
    ensures r <==> UpToDate(lib, existing, desired)
  {
    hide DataPreimage;
    if existing.kind != desired.kind { return false; }
    if Lookup(existing.annotations, SecretHashKey) != Lookup(desired.annotations, SecretHashKey) { return false; }
    if Lookup(existing.annotations, SourceHashKey) != Lookup(desired.annotations, SourceHashKey) { return false; }
    var hash := HashSecretData(lib.digest, existing.data);
    if hash != Lookup(existing.annotations, SecretHashKey) { return false; }
    var left := desired.annotations.Keys;
    while left != {}
      invariant left <= desired.annotations.Keys
      invariant forall k :: k in desired.annotations.Keys - left ==>
        Lookup(existing.annotations, k) == desired.annotations[k]
      decreases left
    {
      var k :| k in left;
      if Lookup(existing.annotations, k) != desired.annotations[k] { return false; }
      left := left - {k};
    }
    return true;
  }

  class Cluster {
    var secrets: Store
    var status: map<ObjectKey, Conditions>

    constructor ()
      ensures secrets == map[] && status == map[]
    {
      secrets, status := map[], map[];
    }

    // The cluster as the functions see it.
    ghost function Now(): World
      reads this
    {
      World(secrets, status)
    }

    method WriteSecret(lib: Crypto, key: ObjectKey, desired: Secret, fault: WriteFault) returns (r: WriteResult)
      modifies this`secrets
      ensures (secrets, r) == Write(lib, old(secrets), key, desired, fault)
    {
      hide DataPreimage, UpToDate;
      var hash := HashSecretData(lib.digest, desired.data);
      var stamped := desired.(annotations := desired.annotations[SecretHashKey := hash]);
      if fault.GetFails? { return WriteFailed; }
      if key !in secrets {
        if fault.CreateFails? { return WriteFailed; }
        secrets := secrets[key := stamped];
        return Created;
      }
      var existing := secrets[key];
      var same := SecretUpToDate(lib, existing, stamped);
      if same { return Unchanged; }
      existing := existing.(data := stamped.data, kind := stamped.kind, annotations := stamped.annotations,
                                labels := stamped.labels);
      if |stamped.owners| > 0 {
        existing := existing.(owners := stamped.owners);
      }
      if fault.PatchFails? { return WriteFailed; }
      secrets := secrets[key := existing];
      return Patched;
    }

    method MarkSecretDrift(key: ObjectKey, reason: string, message: string, now: string,
                           fault: WriteFault) returns (ok: bool)
      modifies this`secrets
      ensures (secrets, ok) == Mark(old(secrets), key, reason, message, now, fault)
    {
      if fault.GetFails? { return false; }
      if key !in secrets { return true; }
      var secret := secrets[key];
      if Lookup(secret.annotations, DriftReason) == reason
        && Lookup(secret.annotations, DriftMessage) == message { return true; }
      secret := secret.(annotations := secret.annotations[DriftReason := reason]);
      secret := secret.(annotations := secret.annotations[DriftMessage := message]);
      secret := secret.(annotations := secret.annotations[DriftAt := now]);
      if fault.PatchFails? { return false; }
      secrets := secrets[key := secret];
      return true;
    }

    method ClearSecretDrift(key: ObjectKey, fault: WriteFault) returns (ok: bool)
      modifies this`secrets
      ensures (secrets, ok) == Clear(old(secrets), key, fault)
    {
      if fault.GetFails? { return false; }
      if key !in secrets { return true; }
      var secret := secrets[key];
      if DriftReason !in secret.annotations { return true; }
      secret := secret.(annotations := secret.annotations - {DriftReason});
      secret := secret.(annotations := secret.annotations - {DriftMessage});
      secret := secret.(annotations := secret.annotations - {DriftAt});
      assert secret.annotations == Unmarked(secrets[key].annotations);
      if fault.PatchFails? { return false; }
      secrets := secrets[key := secret];
      return true;
    }

    // A run in progress: the store, the conditions it holds, the conditions the API server has.
    ghost function RunOf(cert: Certificate, local: Conditions): Run
      reads this
    {
      Run(secrets, local, StatusOf(status, CertKey(cert)))
    }

    // Only this Certificate's status may differ from what it was.
    twostate predicate OthersKept(cert: Certificate)
      reads this
    {
      forall k :: k != CertKey(cert) ==> StatusOf(status, k) == StatusOf(old(status), k)
    }

    method PatchStatus(cert: Certificate, local: Conditions, c: Condition, fails: bool) returns (local': Conditions)
      modifies this`status
      ensures RunOf(cert, local') == SetCondition(old(RunOf(cert, local)), c, fails)
      ensures OthersKept(cert)
    {
      local' := AppendOrReplace(local, c);
      if local' != local && !fails {
        status := status[CertKey(cert) := local'];
      }
    }

    method MarkCertDrift(cert: Certificate, local: Conditions, reason: string, message: string, now: string,
                         fault: MarkFault)
        returns (local': Conditions)
      modifies this
      ensures RunOf(cert, local') == MarkCert(old(RunOf(cert, local)), cert, reason, message, now, fault)
      ensures OthersKept(cert)
    {
      hide Mark, SetCondition;
      var ok := MarkSecretDrift(cert.Own(), reason, message, now, fault.secret);
      if !ok { return local; }
      local' := PatchStatus(cert, local, Condition(ExternalIssuerSynced, false, reason, message), fault.status);
    }

    method ClearCertDrift(cert: Certificate, local: Conditions, reason: string, message: string, fault: MarkFault)
        returns (local': Conditions)
      modifies this
      ensures RunOf(cert, local') == ClearCert(old(RunOf(cert, local)), cert, reason, message, fault)
      ensures OthersKept(cert)
    {
      hide Clear, SetCondition;
      var ok := ClearSecretDrift(cert.Own(), fault.secret);
      if !ok { return local; }
      local' := PatchStatus(cert, local, Condition(ExternalIssuerSynced, true, reason, message), fault.status);
    }

    // Every target is tried; the first failure is remembered.
    method WriteTargets(lib: Crypto, cert: Certificate, template: Secret, targets: seq<string>,
                        faults: string -> WriteFault)
        returns (results: seq<WriteResult>, failed: Option<string>)
      modifies this`secrets
      ensures (secrets, results) == FanOut(lib, old(secrets), cert, template, targets, faults)
      ensures |results| == |targets| && failed == FirstFailed(targets, results)
    {
      hide Write;
      results, failed := [], None;
      for i := 0 to |targets|
        invariant (secrets, results) == FanOut(lib, old(secrets), cert, template, targets[..i], faults)
        invariant |results| == i && failed == FirstFailed(targets[..i], results)
      {
        assert targets[..i + 1][..i] == targets[..i];
        var ns := targets[i];
        var desired := template.(owners := []);
        if ns == cert.namespace {
          desired := desired.(owners := [OwnerRef(cert.name, cert.uid)]);
        }
        var r := WriteSecret(lib, ObjectKey(ns, cert.secretName), desired, faults(ns));
        FirstFailedStep(targets[..i], results, ns, r);
        if r.WriteFailed? && failed.None? {
          failed := Some(ns);
        }
        assert targets[..i + 1] == targets[..i] + [ns];
        results := results + [r];
      }
      assert targets[..|targets|] == targets;
    }

    method PublishSecret(env: Env, cert: Certificate, local: Conditions, template: Secret, c: Circumstances,
                         marksPostWrite: bool, targets: seq<string>) returns (local': Conditions, report: Report)
      requires targets == TargetsOf(cert, c)
      modifies this
      ensures (RunOf(cert, local'), report) == Publish(env, old(RunOf(cert, local)), cert, template, c, marksPostWrite)
      ensures OthersKept(cert)
    {
      hide FanOut, MarkCert, ClearCert, SetCondition;
      var results, failed := WriteTargets(env.lib, cert, template, targets, c.faults.writes);
      if failed.Some? {
        local' := MarkCertDrift(cert, local, "SecretWriteFailed", c.message, c.now, c.faults.mark);
        return local', Report(Marked("SecretWriteFailed"), targets, results, failed);
      }
      if c.faults.postWrite {
        if !marksPostWrite { return local, Report(PostWriteFailed, targets, results, None); }
        local' := MarkCertDrift(cert, local, "SignCRFailed", c.message, c.now, c.faults.mark);
        return local', Report(Marked("SignCRFailed"), targets, results, None);
      }
      local' := ClearCertDrift(cert, local, "Synced", c.message, c.faults.clear);
      local' := PatchStatus(cert, local', Condition(ConditionType.Ready, true, "Synced", c.message), c.faults.ready);
      return local', Report(Synced, targets, results, None);
    }

    method DeliverSecret(env: Env, cert: Certificate, local: Conditions, asm: Assembled, c: Circumstances,
                         marksPostWrite: bool)
        returns (local': Conditions, report: Report)
      requires Injective(env.lib.fingerprint)
      modifies this
      ensures (RunOf(cert, local'), report) == Deliver(env, old(RunOf(cert, local)), cert, asm, c, marksPostWrite)
      ensures OthersKept(cert)
    {
      hide Publish, MarkCert, ReusedOrBuilt, DataVerified;
      local' := local;
      if c.faults.readOwn {
        local' := MarkCertDrift(cert, local, "SecretReadFailed", c.message, c.now, c.faults.mark);
        return local', NOTHING_WRITTEN(Marked("SecretReadFailed"));
      }
      var outcome := BuildKeystore(env.lib, env.formats, asm.leaf, asm.key, asm.chain, Existing(secrets, cert.Own()),
                                   Lookup(asm.template.annotations, SourceHashKey), c.chance);
      var template := asm.template;
      match outcome {
        case Failed =>
          local' := MarkCertDrift(cert, local, "KeystoreBuildFailed", c.softMessage, c.now, c.faults.softMark);
        case Skipped =>
          local' := MarkCertDrift(cert, local, "KeystoreSkipped", c.softMessage, c.now, c.faults.softMark);
        case Ready(jks, p12, password) =>
          template := template.(data := template.data[KEYSTORE_JKS := jks]);
          template := template.(data := template.data[KEYSTORE_P12 := p12]);
          template := template.(data := template.data[KEYSTORE_PASSWORD := password]);
      }
      var broken := VerifySecretData(env, template.data);
      if broken.Some? {
        local' := MarkCertDrift(cert, local', "SecretVerifyFailed", c.message, c.now, c.faults.mark);
        return local', NOTHING_WRITTEN(Marked("SecretVerifyFailed"));
      }
      var targets := TargetNamespaces(cert, c.namespaces, c.filter);
      if targets.None? {
        local' := MarkCertDrift(cert, local', "NamespaceListFailed", c.message, c.now, c.faults.mark);
        return local', NOTHING_WRITTEN(Marked("NamespaceListFailed"));
      }
      local', report := PublishSecret(env, cert, local', template, c, marksPostWrite, targets.value);
    }

    method MarkedEnd(cert: Certificate, local: Conditions, reason: string,
                     c: Circumstances) returns (local': Conditions, report: Report)
      modifies this
      ensures RunOf(cert, local') == EndMarked(old(RunOf(cert, local)), cert, reason, c)
      ensures report == NOTHING_WRITTEN(Marked(reason))
      ensures OthersKept(cert)
    {
      local' := MarkCertDrift(cert, local, reason, c.message, c.now, c.faults.mark);
      report := NOTHING_WRITTEN(Marked(reason));
    }

    // CertSyncer.Reconcile
    method SyncReconcile(env: Env, i: Input, local: Conditions) returns (local': Conditions, report: Report)
      requires i.Sync? && Injective(env.lib.fingerprint)
      modifies this
      ensures (RunOf(i.cert, local'), report) == SyncReconciled(env, old(RunOf(i.cert, local)), i)
      ensures OthersKept(i.cert)
    {
      hide Deliver, SyncAssembled, EndMarked;
      match i.fetch {
        case NotAnnotated => return local, NOTHING_WRITTEN(Ignored);
        case Deleting => return local, NOTHING_WRITTEN(Ignored);
        case FinalizerFails => return local, NOTHING_WRITTEN(Ignored);
        case SyncFetchFails(reason) =>
          local', report := MarkedEnd(i.cert, local, reason, i.c);
        case Fetched(leaf, chain, key, extra) =>
          var asm := AssembleSync(env, i.cert, i.annotation, i.ref, leaf, chain, key, extra, i.c.now);
          local', report := DeliverSecret(env, i.cert, local, asm, i.c, false);
      }
    }

    // IssuerReconciler.Reconcile
    method ManagerReconcile(env: Env, i: Input, local: Conditions) returns (local': Conditions, report: Report)
      requires i.Manage? && Injective(env.lib.fingerprint)
      modifies this
      ensures (RunOf(i.cert, local'), report) == ManagerReconciled(env, old(RunOf(i.cert, local)), i)
      ensures OthersKept(i.cert)
    {
      hide Deliver, ManagerAssembled, EndMarked, Extract, ChainAccepted;
      match i.source {
        case NoReference => local', report := MarkedEnd(i.cert, local, "MissingSecretRef", i.c);
        case UnknownKind => local', report := MarkedEnd(i.cert, local, "InvalidSpec", i.c);
        case SourceFails => local', report := MarkedEnd(i.cert, local, "SourceMissing", i.c);
        case ConfigFails => local', report := MarkedEnd(i.cert, local, "InvalidSpec", i.c);
        case Document(doc, keys) =>
          var parsed := ExtractPayload(env.lib, doc, keys);
          if parsed.Failure? {
            local', report := MarkedEnd(i.cert, local, "InvalidPayload", i.c);
            return;
          }
          var verdict := VerifyChain(env.lib, parsed.value.certificate, parsed.value.chain);
          if !verdict.Accepted? {
            local', report := MarkedEnd(i.cert, local, "ChainInvalid", i.c);
            return;
          }
          var asm := AssembleManaged(env, i.cert, i.ref, parsed.value, i.c.now);
          local', report := DeliverSecret(env, i.cert, local, asm, i.c, true);
      }
    }

    // One reconcile of either driver is one step of the world.
    method Reconcile(env: Env, i: Input) returns (report: Report)
      requires Injective(env.lib.fingerprint)
      modifies this
      ensures
        var (w, r) := Step(env, old(Now()), i);
        && report == r && secrets == w.secrets
        && forall k :: StatusOf(status, k) == StatusOf(w.status, k)
    {
      hide SyncReconciled, ManagerReconciled;
      var local := StatusOf(status, CertKey(i.cert));
      if i.Sync? {
        local, report := SyncReconcile(env, i, local);
      } else {
        local, report := ManagerReconcile(env, i, local);
      }
    }
  }

  lemma {:induction false} FirstFailedStep(targets: seq<string>, results: seq<WriteResult>, ns: string, r: WriteResult)
    requires |targets| == |results|
    ensures
      var before := FirstFailed(targets, results);
      FirstFailed(targets + [ns], results + [r]) ==
        if before.Some? then before else if r.WriteFailed? then Some(ns) else None
  {
    if targets != [] {
      FirstFailedStep(targets[1..], results[1..], ns, r);
      assert (targets + [ns])[1..] == targets[1..] + [ns] && (results + [r])[1..] == results[1..] + [r];
    }
  }
}
