// What the Secrets hold after a synced run, whether they were created, patched or left as they were.
module Contents {
  import opened Common
  import opened Canonical
  import opened Library
  import opened Pem
  import opened Chain
  import opened Objects
  import opened Keystore
  import opened SecretStore
  import opened Payload
  import opened Reconcile
  import opened Runs
  import opened FanOutRuns
  import opened Coherent

  // Every target carries the template's payload.
  ghost predicate Carried(lib: Crypto, secrets: Store, cert: Certificate, template: Secret, targets: seq<string>) {
    forall ns :: ns in targets ==>
      var key := ObjectKey(ns, cert.secretName);
      key in secrets && SamePayload(secrets[key], Stamped(lib, template), Stamped(lib, template).annotations.Keys)
  }

  lemma SyncedCarries(env: Env, w: World, i: Input)
    requires AssembledOf(env, i).Some? && PlainExtras(i)
    requires NoCollisions(env.lib, w.secrets, i.cert, TemplateOf(env, w.secrets, i, AssembledOf(env, i).value),
      TargetsOf(i.cert, i.c))
    requires Step(env, w, i).1.ending.Synced?
    ensures Carried(env.lib, Step(env, w, i).0.secrets, i.cert,
      TemplateOf(env, w.secrets, i, AssembledOf(env, i).value),
                    TargetsOf(i.cert, i.c))
  {
    hide AssembledOf, Step, TemplateOf, SamePayload, Stamped, NoCollisions, TargetsOf, Publishes, PayloadKept, Failing,
      PlainExtras;
    StepUnderFailures(env, w, i);
  }

  // What both drivers promise of the annotations: the three by which cert-manager trusts the Secret, the hash of
  // the source, the reference, the second of the sync, and what the leaf says of itself.
  ghost predicate Annotated(lib: Crypto, a: Annotations, cert: Certificate, group: string, hash: string,
                            refKey: AnnotationKey, ref: string, now: string, leafPEM: string) {
    && Lookup(a, IssuerName) == cert.issuerName
    && Lookup(a, IssuerKind) == cert.issuerKind
    && Lookup(a, IssuerGroup) == group
    && Lookup(a, SourceHashKey) == hash
    && Lookup(a, refKey) == ref
    && Lookup(a, LastSyncTime) == now
    && (LeadingCert(lib, leafPEM).Some? ==> SaysOfLeaf(a, LeadingCert(lib, leafPEM).value.info))
  }

  ghost predicate SaysOfLeaf(a: Annotations, leaf: CertInfo) {
    && Lookup(a, CommonName) == leaf.commonName
    && Lookup(a, NotBefore) == leaf.notBefore
    && Lookup(a, NotAfter) == leaf.notAfter
    && (leaf.dnsNames != [] ==> Lookup(a, AltNames) == Join(leaf.dnsNames, ","))
  }

  ghost predicate HasLeafKeys(a: Annotations, leaf: CertInfo) {
    {CommonName, NotBefore, NotAfter} <= a.Keys && (leaf.dnsNames != [] ==> AltNames in a)
  }

  // The keys this is about are there.
  ghost predicate HasKeys(lib: Crypto, a: Annotations, refKey: AnnotationKey, leafPEM: string) {
    && {IssuerName, IssuerKind, IssuerGroup, SourceHashKey, refKey, LastSyncTime, ChainKey} <= a.Keys
    && (LeadingCert(lib, leafPEM).Some? ==> HasLeafKeys(a, LeadingCert(lib, leafPEM).value.info))
  }

  // The keys all of this is about.
  function PromisedKeys(refKey: AnnotationKey): set<AnnotationKey> {
    {IssuerName, IssuerKind, IssuerGroup, SourceHashKey, refKey, LastSyncTime, ChainKey, CommonName, AltNames,
      NotBefore, NotAfter}
  }

  lemma AnnotatedToo(lib: Crypto, template: Annotations, a: Annotations, cert: Certificate, group: string, hash: string,
                     refKey: AnnotationKey, ref: string, now: string, leafPEM: string)
    requires HasKeys(lib, template, refKey, leafPEM)
    requires Annotated(lib, template, cert, group, hash, refKey, ref, now, leafPEM)
    requires forall k :: k in template && k in PromisedKeys(refKey) ==> Lookup(a, k) == template[k]
    ensures Annotated(lib, a, cert, group, hash, refKey, ref, now, leafPEM)
    ensures Lookup(a, ChainKey) == Lookup(template, ChainKey)
  {
    hide LeadingCert, Join;
    var keys := {IssuerName, IssuerKind, IssuerGroup, SourceHashKey, refKey, LastSyncTime, ChainKey};
    assert forall k :: k in keys ==> k in template && k in PromisedKeys(refKey);
  }

  // Annotations that a source adds on top, away from these keys.
  lemma ExtrasOnTop(lib: Crypto, template: Annotations, extra: Annotations, refKey: AnnotationKey, leafPEM: string)
    requires HasKeys(lib, template, refKey, leafPEM) && extra.Keys !! PromisedKeys(refKey)
    ensures HasKeys(lib, template + extra, refKey, leafPEM)
    ensures forall k :: k in template && k in PromisedKeys(refKey) ==> Lookup(template + extra, k) == template[k]
    ensures forall k :: k in extra ==> Lookup(template + extra, k) == extra[k]
  {
    hide LeadingCert;
  }

  lemma LeafAnnotations(lib: Crypto, leafPEM: string)
    ensures
      var a := CertAnnotations(lib, leafPEM);
      && a.Keys <= {CommonName, AltNames, NotBefore, NotAfter}
      && (LeadingCert(lib, leafPEM).Some? ==>
            HasLeafKeys(a, LeadingCert(lib, leafPEM).value.info) && SaysOfLeaf(a, LeadingCert(lib, leafPEM).value.info))
  {
    hide LeadingCert, Join;
  }

  // Annotations put on top of others that say nothing of the leaf.
  lemma LeafAnnotationsOnTop(lib: Crypto, base: Annotations, leafPEM: string)
    ensures
      var a := base + CertAnnotations(lib, leafPEM);
      && (forall k :: k in base && k !in {CommonName, AltNames, NotBefore, NotAfter} ==> k in a && a[k] == base[k])
      && (LeadingCert(lib, leafPEM).Some? ==>
            HasLeafKeys(a, LeadingCert(lib, leafPEM).value.info) && SaysOfLeaf(a, LeadingCert(lib, leafPEM).value.info))
  {
    hide LeadingCert, Join, CertAnnotations;
    LeafAnnotations(lib, leafPEM);
  }

  // A Secret with a stamped template's payload reads like the stamped template.
  lemma StampedReads(lib: Crypto, template: Secret, s: Secret)
    requires SamePayload(s, Stamped(lib, template), Stamped(lib, template).annotations.Keys)
    ensures s.kind == template.kind && s.data == template.data
    ensures Lookup(s.annotations, SecretHashKey) == lib.digest(DataPreimage(s.data))
    ensures forall k :: k in template.annotations && k != SecretHashKey ==>
      Lookup(s.annotations, k) == template.annotations[k]
  {
    hide DataPreimage;
    var d := Stamped(lib, template);
    forall k | k in template.annotations && k != SecretHashKey
      ensures Lookup(s.annotations, k) == template.annotations[k] {
      assert k in d.annotations.Keys;
    }
    assert SecretHashKey in d.annotations.Keys;
  }

  lemma BaseReads(lib: Crypto, cert: Certificate, group: string, hash: string, refKey: AnnotationKey, ref: string,
                  now: string, chain: string, leafPEM: string)
    requires refKey.Custom? || refKey == SecretNameKey
    ensures
      var a := BaseAnnotations(cert, group, hash, refKey, ref, now, chain) + CertAnnotations(lib, leafPEM);
      && HasKeys(lib, a, refKey, leafPEM)
      && Annotated(lib, a, cert, group, hash, refKey, ref, now, leafPEM)
      && Lookup(a, ChainKey) == chain
  {
    hide LeadingCert, Join, CertAnnotations, HasLeafKeys, SaysOfLeaf;
    LeafAnnotationsOnTop(lib, BaseAnnotations(cert, group, hash, refKey, ref, now, chain), leafPEM);
  }

  // What CertSyncer's template says and holds, whatever its source adds to the annotations elsewhere.
  lemma SyncTemplateReads(env: Env, i: Input)
    requires i.Sync? && i.fetch.Fetched? && i.fetch.extra.Keys !! PromisedKeys(Custom(i.annotation))
    ensures AssembledOf(env, i).Some?
    ensures
      var template, t := AssembledOf(env, i).value.template, Texts(i.fetch.leaf, i.fetch.key, i.fetch.chain);
      var a := template.annotations;
      && HasKeys(env.lib, a, Custom(i.annotation), t.leaf)
      && Annotated(env.lib, a, i.cert, i.cert.issuerGroup, HashOf(env, t), Custom(i.annotation), i.ref, i.c.now, t.leaf)
      && Lookup(a, ChainKey) == Composition(env.lib, TlsBundle(env, t.leaf, t.chain))
      && forall k :: k in i.fetch.extra ==> Lookup(a, k) == i.fetch.extra[k]
  {
    hide TlsBundle, SplitBundle, Composition, SourcePreimage, CertAnnotations, HasKeys, Annotated;
    var t := Texts(i.fetch.leaf, i.fetch.key, i.fetch.chain);
    var chain := Composition(env.lib, TlsBundle(env, t.leaf, t.chain));
    var base := BaseAnnotations(i.cert, i.cert.issuerGroup, HashOf(env, t), Custom(i.annotation), i.ref, i.c.now,
      chain);
    var a := base + CertAnnotations(env.lib, t.leaf);
    BaseReads(env.lib, i.cert, i.cert.issuerGroup, HashOf(env, t), Custom(i.annotation), i.ref, i.c.now, chain, t.leaf);
    ExtrasOnTop(env.lib, a, i.fetch.extra, Custom(i.annotation), t.leaf);
    assert AssembledOf(env, i).value.template.annotations == a + i.fetch.extra;
    AnnotatedToo(env.lib, a, a + i.fetch.extra, i.cert, i.cert.issuerGroup, HashOf(env, t), Custom(i.annotation),
      i.ref, i.c.now, t.leaf);
  }

  // After a synced run a target holds this template's payload.
  lemma SyncedReads(env: Env, w: World, i: Input, ns: string)
    requires AssembledOf(env, i).Some? && PlainExtras(i)
    requires NoCollisions(env.lib, w.secrets, i.cert, TemplateOf(env, w.secrets, i, AssembledOf(env, i).value),
      TargetsOf(i.cert, i.c))
    requires Step(env, w, i).1.ending.Synced? && ns in TargetsOf(i.cert, i.c)
    ensures ObjectKey(ns, i.cert.secretName) in Step(env, w, i).0.secrets
    ensures
      var s, t := Step(env, w, i).0.secrets[ObjectKey(ns, i.cert.secretName)], AssembledOf(env, i).value.template;
      && s.kind == t.kind
      && Lookup(s.annotations, SecretHashKey) == env.lib.digest(DataPreimage(s.data))
      && (forall k :: k in t.annotations && k != SecretHashKey ==> Lookup(s.annotations, k) == t.annotations[k])
      && Lookup(s.data, TLS_CRT) == Lookup(t.data, TLS_CRT) && Lookup(s.data, TLS_KEY) == Lookup(t.data, TLS_KEY)
      && Lookup(s.data, CA_CRT) == Lookup(t.data, CA_CRT)
  {
    hide Step, DataPreimage, KeystoreOutcome, AssembledOf, NoCollisions, TargetsOf, SamePayload, WithKeystore;
    SyncedCarries(env, w, i);
    var (t, s) := (AssembledOf(env, i).value.template, Step(env, w, i).0.secrets[ObjectKey(ns, i.cert.secretName)]);
    KeystoreKeepsTls(t, KeystoreOutcome(env, w.secrets, i.cert, AssembledOf(env, i).value, i.c.chance));
    StampedReads(env.lib, TemplateOf(env, w.secrets, i, AssembledOf(env, i).value), s);
  }

  lemma SyncTemplateData(env: Env, i: Input)
    requires i.Sync? && i.fetch.Fetched?
    ensures AssembledOf(env, i).Some?
    ensures
      var t := AssembledOf(env, i).value.template;
      && t.kind == "kubernetes.io/tls"
      && Lookup(t.data, TLS_CRT) == TlsBundle(env, i.fetch.leaf, i.fetch.chain)
      && Lookup(t.data, TLS_KEY) == i.fetch.key
  {
    hide TlsBundle, SplitBundle, Composition, SourcePreimage, CertAnnotations;
    assert TLS_CRT[4] != TLS_KEY[4];
  }

  // CertSyncer: tls.crt is the completed bundle, tls.key the fetched key, the chain annotation describes tls.crt, and
  // what the source adds to the annotations is there too.
  lemma SyncedSyncContents(env: Env, w: World, i: Input, ns: string)
    requires i.Sync? && i.fetch.Fetched? && PlainExtras(i) && i.fetch.extra.Keys !! PromisedKeys(Custom(i.annotation))
    requires NoCollisions(env.lib, w.secrets, i.cert, TemplateOf(env, w.secrets, i, AssembledOf(env, i).value),
      TargetsOf(i.cert, i.c))
    requires Step(env, w, i).1.ending.Synced? && ns in TargetsOf(i.cert, i.c)
    ensures ObjectKey(ns, i.cert.secretName) in Step(env, w, i).0.secrets
    ensures
      var s := Step(env, w, i).0.secrets[ObjectKey(ns, i.cert.secretName)];
      var t := Texts(i.fetch.leaf, i.fetch.key, i.fetch.chain);
      && Annotated(env.lib, s.annotations, i.cert, i.cert.issuerGroup, HashOf(env, t), Custom(i.annotation), i.ref,
            i.c.now, t.leaf)
      && s.kind == "kubernetes.io/tls"
      && Lookup(s.annotations, SecretHashKey) == env.lib.digest(DataPreimage(s.data))
      && Lookup(s.data, TLS_CRT) == TlsBundle(env, t.leaf, t.chain) && Lookup(s.data, TLS_KEY) == t.key
      && Lookup(s.annotations, ChainKey) == Composition(env.lib, Lookup(s.data, TLS_CRT))
      && forall k :: k in i.fetch.extra && k != SecretHashKey ==> Lookup(s.annotations, k) == i.fetch.extra[k]
  {
    hide Step, TlsBundle, Composition, HashOf, DataPreimage, AssembledOf, TemplateOf, NoCollisions, TargetsOf,
      Annotated, HasKeys;
    var t := Texts(i.fetch.leaf, i.fetch.key, i.fetch.chain);
    SyncTemplateReads(env, i);
    SyncTemplateData(env, i);
    SyncedReads(env, w, i, ns);
    var a := AssembledOf(env, i).value.template.annotations;
    var b := Step(env, w, i).0.secrets[ObjectKey(ns, i.cert.secretName)].annotations;
    AnnotatedToo(env.lib, a, b, i.cert, i.cert.issuerGroup, HashOf(env, t), Custom(i.annotation), i.ref, i.c.now,
      t.leaf);
    ExtrasThere(env, i);
  }

  lemma ExtrasThere(env: Env, i: Input)
    requires i.Sync? && i.fetch.Fetched?
    ensures AssembledOf(env, i).Some? && i.fetch.extra.Keys <= AssembledOf(env, i).value.template.annotations.Keys
  {
    hide TlsBundle, SplitBundle, Composition, SourcePreimage, CertAnnotations;
  }

  lemma ManagerTemplateReads(env: Env, i: Input, parsed: Extracted)
    requires i.Manage? && i.source.Document? && Extract(i.source.doc, i.source.keys) == Success(parsed)
      && AssembledOf(env, i).Some?
    ensures
      var a := AssembledOf(env, i).value.template.annotations;
      var t := Texts(parsed.certificate, parsed.privateKey, parsed.chain);
      var completed := Completed(env.lib, t.leaf + t.chain, env.roots);
      && HasKeys(env.lib, a, SecretNameKey, t.leaf)
      && Annotated(env.lib, a, i.cert, GroupOrDefault(i.cert.issuerGroup), HashOf(env, t), SecretNameKey, i.ref,
            i.c.now, t.leaf)
      && Lookup(a, ChainKey) == Composition(env.lib, completed)
  {
    hide Completed, SplitBundle, Composition, SourcePreimage, CertAnnotations, Extract, ChainAccepted, Annotated,
      HasKeys;
    var t := Texts(parsed.certificate, parsed.privateKey, parsed.chain);
    var chain := Composition(env.lib, Completed(env.lib, t.leaf + t.chain, env.roots));
    var group := GroupOrDefault(i.cert.issuerGroup);
    BaseReads(env.lib, i.cert, group, HashOf(env, t), SecretNameKey, i.ref, i.c.now, chain, t.leaf);
    var base := BaseAnnotations(i.cert, group, HashOf(env, t), SecretNameKey, i.ref, i.c.now, chain);
    assert AssembledOf(env, i).value.template.annotations == base + CertAnnotations(env.lib, t.leaf);
  }

  lemma ManagerTemplateData(env: Env, i: Input, parsed: Extracted)
    requires i.Manage? && i.source.Document? && Extract(i.source.doc, i.source.keys) == Success(parsed)
      && AssembledOf(env, i).Some?
    ensures
      var t := AssembledOf(env, i).value.template;
      && t.kind == "kubernetes.io/tls"
      && Lookup(t.data, TLS_CRT) == parsed.certificate && Lookup(t.data, TLS_KEY) == parsed.privateKey
      && Lookup(t.data, CA_CRT) == SplitBundle(Completed(env.lib, parsed.certificate + parsed.chain, env.roots)).1
  {
    hide Completed, SplitBundle, Composition, SourcePreimage, CertAnnotations, Extract, ChainAccepted;
    assert TLS_CRT[4] != TLS_KEY[4] && |CA_CRT| == 6 && |TLS_CRT| == |TLS_KEY| == 7;
  }

  // IssuerReconciler: tls.crt and tls.key are the payload's, ca.crt the completed chain behind the leaf, if any.
  lemma SyncedManagerContents(env: Env, w: World, i: Input, parsed: Extracted, ns: string)
    requires i.Manage? && i.source.Document? && Extract(i.source.doc, i.source.keys) == Success(parsed)
      && AssembledOf(env, i).Some?
    requires NoCollisions(env.lib, w.secrets, i.cert, TemplateOf(env, w.secrets, i, AssembledOf(env, i).value),
      TargetsOf(i.cert, i.c))
    requires Step(env, w, i).1.ending.Synced? && ns in TargetsOf(i.cert, i.c)
    ensures ObjectKey(ns, i.cert.secretName) in Step(env, w, i).0.secrets
    ensures
      var s := Step(env, w, i).0.secrets[ObjectKey(ns, i.cert.secretName)];
      var t := Texts(parsed.certificate, parsed.privateKey, parsed.chain);
      var completed := Completed(env.lib, t.leaf + t.chain, env.roots);
      var group := if i.cert.issuerGroup == "" then "cert-manager.io" else i.cert.issuerGroup;
      && Annotated(env.lib, s.annotations, i.cert, group, HashOf(env, t), SecretNameKey, i.ref, i.c.now, t.leaf)
      && s.kind == "kubernetes.io/tls"
      && Lookup(s.annotations, SecretHashKey) == env.lib.digest(DataPreimage(s.data))
      && Lookup(s.data, TLS_CRT) == t.leaf && Lookup(s.data, TLS_KEY) == t.key
      && Lookup(s.data, CA_CRT) == SplitBundle(completed).1
      && Lookup(s.annotations, ChainKey) == Composition(env.lib, completed)
  {
    hide Step, Completed, SplitBundle, Composition, HashOf, DataPreimage, AssembledOf, TemplateOf, Extract,
      NoCollisions, TargetsOf, Annotated, HasKeys;
    ManagerTemplateReads(env, i, parsed);
    ManagerTemplateData(env, i, parsed);
    assert PlainExtras(i);
    SyncedReads(env, w, i, ns);
    var a := AssembledOf(env, i).value.template.annotations;
    var b := Step(env, w, i).0.secrets[ObjectKey(ns, i.cert.secretName)].annotations;
    AnnotatedToo(env.lib, a, b, i.cert, GroupOrDefault(i.cert.issuerGroup),
                 HashOf(env, Texts(parsed.certificate, parsed.privateKey, parsed.chain)), SecretNameKey, i.ref,
                   i.c.now, parsed.certificate);
  }

  // Beside the key store's there are tls.crt and tls.key, and ca.crt exactly where IssuerReconciler has a chain for it.
  lemma SyncedFields(env: Env, w: World, i: Input, ns: string)
    requires AssembledOf(env, i).Some? && PlainExtras(i)
    requires NoCollisions(env.lib, w.secrets, i.cert, TemplateOf(env, w.secrets, i, AssembledOf(env, i).value),
      TargetsOf(i.cert, i.c))
    requires Step(env, w, i).1.ending.Synced? && ns in TargetsOf(i.cert, i.c)
    ensures ObjectKey(ns, i.cert.secretName) in Step(env, w, i).0.secrets
    ensures
      var s := Step(env, w, i).0.secrets[ObjectKey(ns, i.cert.secretName)];
      Fields(s.data) == {"tls.crt", "tls.key"} + if i.Manage? && Lookup(s.data, "ca.crt") != "" then {"ca.crt"} else {}
  {
    hide Step, DataPreimage, KeystoreOutcome, AssembledOf, NoCollisions, TargetsOf, SamePayload, WithKeystore, Fields;
    SyncedCarries(env, w, i);
    SyncedReads(env, w, i, ns);
    var (t, s) := (AssembledOf(env, i).value.template, Step(env, w, i).0.secrets[ObjectKey(ns, i.cert.secretName)]);
    KeystoreKeepsFields(t, KeystoreOutcome(env, w.secrets, i.cert, AssembledOf(env, i).value, i.c.chance));
    StampedReads(env.lib, TemplateOf(env, w.secrets, i, AssembledOf(env, i).value), s);
    TemplateFields(env, i);
  }

  lemma TemplateFields(env: Env, i: Input)
    requires AssembledOf(env, i).Some?
    ensures
      var data := AssembledOf(env, i).value.template.data;
      Fields(data) == {"tls.crt", "tls.key"} + if i.Manage? && Lookup(data, "ca.crt") != "" then {"ca.crt"} else {}
  {
    hide TlsBundle, Completed, SplitBundle, Composition, SourcePreimage, CertAnnotations, BaseAnnotations, Extract,
      ChainAccepted;
    assert |TLS_CRT| == |TLS_KEY| == 7 && |CA_CRT| == 6;
    assert |KEYSTORE_JKS| == |KEYSTORE_P12| == 12 && |KEYSTORE_PASSWORD| == 17;
  }

  /******* The stored key store and the stored certificates *******/

  // After any runs of CertSyncer and one more that ends synced: where a target holds key stores, both open with the
  // stored password, and to exactly the certificates of the stored tls.crt and the stored key, when they all parse.
  lemma StoredKeystoreAgrees(env: Env, w: World, inputs: seq<Input>, i: Input, ns: string)
    requires Readable(env.formats) && Injective(env.lib.digest) && PrintedRoots(env.roots)
    requires forall j :: j in inputs ==> PlainSync(j)
    requires forall k :: k in w.secrets ==> CoherentSecret(env, SyncView(env), w.secrets[k])
    requires PlainSync(i) && i.fetch.Fetched? && PlainExtras(i)
    requires Step(env, Exec(env, w, inputs), i).1.ending.Synced? && ns in TargetsOf(i.cert, i.c)
    ensures ObjectKey(ns, i.cert.secretName) in Step(env, Exec(env, w, inputs), i).0.secrets
    ensures
      var data := Step(env, Exec(env, w, inputs), i).0.secrets[ObjectKey(ns, i.cert.secretName)].data;
      var jks := env.formats.jksLoad(Lookup(data, KEYSTORE_JKS), Lookup(data, KEYSTORE_PASSWORD));
      var ds := DecodeAll(Lookup(data, TLS_CRT));
      var p12 := env.formats.p12Decode(Lookup(data, KEYSTORE_P12), Lookup(data, KEYSTORE_PASSWORD));
      HasKeystore(data) && ds != [] && AllCertificates(ds) && AllParse(env.lib, ds) ==>
        && jks.Some? && EntriesAgree(env.lib, ds, Lookup(data, TLS_KEY), jks.value)
        && First(Lookup(data, TLS_KEY)).Some?
        && p12 == Some(P12(First(Lookup(data, TLS_KEY)).value.bytes, ds[0].bytes, Ders(ds[1..])))
  {
    hide Exec, Step, SyncView, Readable, Injective, PrintedRoots, CoherentSecret, PlainExtras, TargetsOf, HasKeystore,
      DecodeAll, AllCertificates, AllParse, EntriesAgree, TlsBundle, HashOf;
    KeystoresCoherent(env, w, inputs);
    SyncedHolds(env, Exec(env, w, inputs), i, ns);
    var data := Step(env, Exec(env, w, inputs), i).0.secrets[ObjectKey(ns, i.cert.secretName)].data;
    var ds := DecodeAll(Lookup(data, TLS_CRT));
    if HasKeystore(data) && ds != [] && AllCertificates(ds) && AllParse(env.lib, ds) {
      HeldAgrees(env, Step(env, Exec(env, w, inputs), i).0.secrets[ObjectKey(ns, i.cert.secretName)],
                 Texts(i.fetch.leaf, i.fetch.key, i.fetch.chain));
    }
  }

  lemma SyncedHolds(env: Env, before: World, i: Input, ns: string)
    requires Readable(env.formats) && Injective(env.lib.digest)
    requires forall k :: k in before.secrets ==> CoherentSecret(env, SyncView(env), before.secrets[k])
    requires PlainSync(i) && i.fetch.Fetched? && PlainExtras(i)
    requires Step(env, before, i).1.ending.Synced? && ns in TargetsOf(i.cert, i.c)
    ensures ObjectKey(ns, i.cert.secretName) in Step(env, before, i).0.secrets
    ensures
      var s := Step(env, before, i).0.secrets[ObjectKey(ns, i.cert.secretName)];
      var t := Texts(i.fetch.leaf, i.fetch.key, i.fetch.chain);
      && CoherentSecret(env, SyncView(env), s) && Lookup(s.annotations, SourceHashKey) == HashOf(env, t)
      && Lookup(s.data, TLS_CRT) == TlsBundle(env, t.leaf, t.chain) && Lookup(s.data, TLS_KEY) == t.key
  {
    hide Step, SyncView, Readable, Injective, CoherentSecret, PlainExtras, TargetsOf, TemplateOf, NoCollisions,
      AssembledOf, TlsBundle, DataPreimage, HashOf, Fits;
    SyncFits(env, i);
    CoherentStep(env, SyncView(env), before, i);
    SyncTemplateData(env, i);
    NeverCollide(env.lib, before.secrets, i.cert, TemplateOf(env, before.secrets, i, AssembledOf(env, i).value),
      TargetsOf(i.cert, i.c));
    SyncedReads(env, before, i, ns);
    SyncTemplateHash(env, i);
  }

  lemma NeverCollide(lib: Crypto, store: Store, cert: Certificate, template: Secret, targets: seq<string>)
    requires Injective(lib.digest)
    ensures NoCollisions(lib, store, cert, template, targets)
  {
    hide DataPreimage;
  }

  lemma SyncTemplateHash(env: Env, i: Input)
    requires PlainSync(i) && i.fetch.Fetched?
    ensures AssembledOf(env, i).Some?
    ensures
      var a := AssembledOf(env, i).value.template.annotations;
      SourceHashKey in a && a[SourceHashKey] == HashOf(env, Texts(i.fetch.leaf, i.fetch.key, i.fetch.chain))
  {
    hide TlsBundle, SplitBundle, Composition, SourcePreimage, CertAnnotations;
    LeafAnnotations(env.lib, i.fetch.leaf);
  }

  lemma HeldAgrees(env: Env, s: Secret, t: Texts)
    requires PrintedRoots(env.roots) && CoherentSecret(env, SyncView(env), s)
    requires Lookup(s.annotations, SourceHashKey) == HashOf(env, t) && HasKeystore(s.data)
    requires Lookup(s.data, TLS_CRT) == TlsBundle(env, t.leaf, t.chain) && Lookup(s.data, TLS_KEY) == t.key
    requires var ds := DecodeAll(Lookup(s.data, TLS_CRT)); ds != [] && AllCertificates(ds) && AllParse(env.lib, ds)
    ensures
      var jks := env.formats.jksLoad(Lookup(s.data, KEYSTORE_JKS), Lookup(s.data, KEYSTORE_PASSWORD));
      var p12 := env.formats.p12Decode(Lookup(s.data, KEYSTORE_P12), Lookup(s.data, KEYSTORE_PASSWORD));
      var ds := DecodeAll(Lookup(s.data, TLS_CRT));
      && jks.Some? && EntriesAgree(env.lib, ds, t.key, jks.value)
      && First(t.key).Some? && p12 == Some(P12(First(t.key).value.bytes, ds[0].bytes, Ders(ds[1..])))
  {
    hide DecodeAll, AllCertificates, AllParse, EntriesAgree, TlsBundle, HasKeystore, JksEntries, P12Content,
      PrintedRoots, SplitBundle, HashOf;
    assert HoldsSource(env, SyncView(env), s.data, t);
    var (leaf, chain) := SplitBundle(TlsBundle(env, t.leaf, t.chain));
    KeystoreAgreesWithTlsCrt(env, t.leaf, t.chain, t.key, JksEntries(env.lib, leaf, t.key, chain).value);
    P12AgreesWithBundle(env.lib, DecodeAll(Lookup(s.data, TLS_CRT)), t.key,
                        P12Content(env.lib, leaf, t.key, chain).value);
  }
}
