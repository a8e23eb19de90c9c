// Reusing a stored key store is as good as building it again.
module Coherent {
  import opened Common
  import opened Canonical
  import opened Library
  import opened Pem
  import Base64
  import opened Normalize
  import opened Chain
  import opened Objects
  import opened Keystore
  import opened SecretStore
  import opened Payload
  import opened Reconcile
  import opened Runs

  /******* Sources and what their key stores hold *******/

  // The three texts the source hash is taken of.
  datatype Texts = Texts(leaf: string, key: string, chain: string)

  ghost function HashOf(env: Env, t: Texts): string {
    env.lib.digest(SourcePreimage(t.leaf, t.key, t.chain))
  }

  ghost function SourceOf(i: Input): Option<Texts> {
    if i.Sync? then
      match i.fetch
      case Fetched(leaf, chain, key, _) => Some(Texts(leaf, key, chain))
      case _ => None
    else
      match i.source
      case Document(doc, keys) =>
        (match Extract(doc, keys)
         case Failure(_) => None
         case Success(parsed) => Some(Texts(parsed.certificate, parsed.privateKey, parsed.chain)))
      case _ => None
  }

  // What the two key stores built from these texts hold.
  ghost function KeystoreContents(lib: Crypto, leaf: string, key: string, chain: string): Option<(Entries, P12)> {
    var entries, content := JksEntries(lib, leaf, key, chain), P12Content(lib, leaf, key, chain);
    if entries.Some? && content.Some? then Some((entries.value, content.value)) else None
  }

  // What the key stores of a source are expected to hold.
  type View = Texts -> Option<(Entries, P12)>

  // CertSyncer builds them from the bundle it writes to tls.crt.
  ghost function SyncView(env: Env): View {
    (t: Texts) =>
      var (leaf, chain) := SplitBundle(TlsBundle(env, t.leaf, t.chain));
      KeystoreContents(env.lib, leaf, t.key, chain)
  }

  // IssuerReconciler builds them from the payload's certificate and the completed chain behind it.
  ghost function ManagerView(env: Env): View {
    (t: Texts) =>
      var chain := SplitBundle(Completed(env.lib, t.leaf + t.chain, env.roots)).1;
      KeystoreContents(env.lib, t.leaf, t.key, chain)
  }

  // A run that builds what the view expects, and whose source does not overrule the source hash.
  ghost predicate Fits(env: Env, v: View, i: Input) {
    AssembledOf(env, i).Some? ==>
      var asm := AssembledOf(env, i).value;
      && SourceOf(i).Some?
      && Lookup(asm.template.annotations, SourceHashKey) == HashOf(env, SourceOf(i).value)
      && !HasKeystore(asm.template.data)
      && KeystoreContents(env.lib, asm.leaf, asm.key, asm.chain) == v(SourceOf(i).value)
  }

  ghost predicate PlainSync(i: Input) {
    i.Sync? && (i.fetch.Fetched? ==> SourceHashKey !in i.fetch.extra)
  }

  lemma SyncFits(env: Env, i: Input)
    requires PlainSync(i)
    ensures Fits(env, SyncView(env), i)
  {
    hide Composition, SplitBundle, TlsBundle, LeadingCert, SourcePreimage, Join, KeystoreContents;
    TlsHasNoKeystore();
  }

  lemma ManagerFits(env: Env, i: Input)
    requires i.Manage?
    ensures Fits(env, ManagerView(env), i)
  {
    hide Composition, SplitBundle, Completed, LeadingCert, SourcePreimage, Join, KeystoreContents, Extract,
      ChainAccepted;
    TlsHasNoKeystore();
  }

  lemma TlsHasNoKeystore()
    ensures KEYSTORE_JKS != TLS_CRT && KEYSTORE_JKS != TLS_KEY && KEYSTORE_JKS != CA_CRT
  {
    assert |TLS_CRT| == |TLS_KEY| == 7 && |CA_CRT| == 6 && |KEYSTORE_JKS| == 12;
  }

  /******* Coherent Secrets *******/

  ghost predicate HasKeystore(data: Data) {
    Lookup(data, KEYSTORE_JKS) != "" && Lookup(data, KEYSTORE_P12) != "" && Lookup(data, KEYSTORE_PASSWORD) != ""
  }

  // Opened with the stored password, the stored key stores hold what is expected of this source.
  ghost predicate HoldsSource(env: Env, v: View, data: Data, t: Texts) {
    v(t).Some? && Denotes(env.formats, data, v(t).value.0, v(t).value.1)
  }

  // Whatever source the source-hash annotation names, a key store that is there holds that source.
  ghost predicate CoherentSecret(env: Env, v: View, s: Secret) {
    forall t :: Lookup(s.annotations, SourceHashKey) == HashOf(env, t) && HasKeystore(s.data) ==>
      HoldsSource(env, v, s.data, t)
  }

  ghost function Coherently(env: Env, v: View): Property {
    (k: ObjectKey, s: Secret) => CoherentSecret(env, v, s)
  }

  // Reused from a coherent Secret or built afresh: what the run stores holds its own source.
  lemma TemplateHoldsSource(env: Env, v: View, secrets: Store, i: Input)
    requires Readable(env.formats) && Fits(env, v, i) && AssembledOf(env, i).Some?
    requires i.cert.Own() in secrets ==> CoherentSecret(env, v, secrets[i.cert.Own()])
    ensures
      var template := TemplateOf(env, secrets, i, AssembledOf(env, i).value);
      HasKeystore(template.data) ==> HoldsSource(env, v, template.data, SourceOf(i).value)
  {
    hide AssembledOf, SourceOf, HashOf, JksEntries, P12Content, Built, WithKeystore;
    var asm := AssembledOf(env, i).value;
    var outcome := KeystoreOutcome(env, secrets, i.cert, asm, i.c.chance);
    if outcome.Ready? {
      KeystoreFields(asm.template, outcome);
      var existing := Existing(secrets, i.cert.Own());
      if Reusable(existing, Lookup(asm.template.annotations, SourceHashKey)) {
        assert HoldsSource(env, v, existing.value.data, SourceOf(i).value);
      } else {
        BuiltOpens(env.lib, env.formats, asm.leaf, asm.key, asm.chain, existing, i.c.chance);
      }
    } else {
      NoKeystoreAdded(asm.template, outcome);
    }
  }

  lemma CoherentStep(env: Env, v: View, w: World, i: Input)
    requires Readable(env.formats) && Injective(env.lib.digest) && Fits(env, v, i)
    requires forall k :: k in w.secrets ==> CoherentSecret(env, v, w.secrets[k])
    ensures forall k :: k in Step(env, w, i).0.secrets ==> CoherentSecret(env, v, Step(env, w, i).0.secrets[k])
  {
    hide AssembledOf, DataVerified, Step, TemplateOf, CoherentSecret, MarkerBlind, Established, Fits;
    var p := Coherently(env, v);
    CoherentBlind(env, v);
    if AssembledOf(env, i).Some? {
      CoherentEstablished(env, v, w.secrets, i);
    }
    StepKeeps(p, {}, env, w, i);
    var after := Step(env, w, i).0.secrets;
    assert forall k :: k in after ==> p(k, after[k]);
  }

  lemma CoherentBlind(env: Env, v: View)
    ensures MarkerBlind(Coherently(env, v))
  {
    hide Unmarked, AllOrNoMarkers, HoldsSource, HasKeystore;
    var p := Coherently(env, v);
    forall k: ObjectKey, s: Secret, a | p(k, s) && Unmarked(a) == Unmarked(s.annotations)
      ensures p(k, s.(annotations := a)) {
      UnmarkedLookup(a, s.annotations, SourceHashKey);
    }
  }

  // The hash names one source only, so one source decides whether a Secret is coherent.
  lemma CoherentFor(env: Env, v: View, s: Secret, t: Texts)
    requires Injective(env.lib.digest)
    requires Lookup(s.annotations, SourceHashKey) == HashOf(env, t)
    ensures CoherentSecret(env, v, s) <==> (HasKeystore(s.data) ==> HoldsSource(env, v, s.data, t))
  {
    hide SourcePreimage, HoldsSource, HasKeystore;
    forall t': Texts | HashOf(env, t') == HashOf(env, t) ensures t' == t {
      SourcePreimageInjective(t.leaf, t.key, t.chain, t'.leaf, t'.key, t'.chain);
    }
  }

  lemma CoherentEstablished(env: Env, v: View, secrets: Store, i: Input)
    requires Readable(env.formats) && Injective(env.lib.digest) && Fits(env, v, i) && AssembledOf(env, i).Some?
    requires forall k :: k in secrets ==> CoherentSecret(env, v, secrets[k])
    ensures Established(Coherently(env, v), env.lib, i.cert, TemplateOf(env, secrets, i, AssembledOf(env, i).value), {})
  {
    hide AssembledOf, SourceOf, HashOf, HoldsSource, HasKeystore, CoherentSecret, KeystoreOutcome, Injective, Readable,
      KeystoreContents, DataPreimage;
    TemplateHoldsSource(env, v, secrets, i);
    var template := TemplateOf(env, secrets, i, AssembledOf(env, i).value);
    forall s: Secret | s.data == template.data
      && Lookup(s.annotations, SourceHashKey) == Lookup(template.annotations, SourceHashKey)
      ensures CoherentSecret(env, v, s)
    {
      CoherentFor(env, v, s, SourceOf(i).value);
    }
  }

  /******* Coherence over whole runs *******/

  // Over all runs that build what the view expects, of whichever driver.
  lemma {:induction false} RunsCoherent(env: Env, v: View, w: World, inputs: seq<Input>)
    requires Readable(env.formats) && Injective(env.lib.digest)
    requires forall i :: i in inputs ==> Fits(env, v, i)
    requires forall k :: k in w.secrets ==> CoherentSecret(env, v, w.secrets[k])
    ensures forall k :: k in Exec(env, w, inputs).secrets ==> CoherentSecret(env, v, Exec(env, w, inputs).secrets[k])
  {
    hide CoherentSecret, Step, Readable, Injective, Fits;
    if inputs != [] {
      var n := |inputs| - 1;
      RunsCoherent(env, v, w, inputs[..n]);
      CoherentStep(env, v, Exec(env, w, inputs[..n]), inputs[n]);
    }
  }

  // In every state CertSyncer reaches, a stored key store holds the source its Secret is annotated with.
  lemma KeystoresCoherent(env: Env, w: World, inputs: seq<Input>)
    requires Readable(env.formats) && Injective(env.lib.digest)
    requires forall i :: i in inputs ==> PlainSync(i)
    requires forall k :: k in w.secrets ==> CoherentSecret(env, SyncView(env), w.secrets[k])
    ensures forall k :: k in Exec(env, w, inputs).secrets ==>
      CoherentSecret(env, SyncView(env), Exec(env, w, inputs).secrets[k])
  {
    hide CoherentSecret, Exec, Readable, Injective, Fits, PlainSync, SyncView;
    forall i | i in inputs ensures Fits(env, SyncView(env), i) {
      SyncFits(env, i);
    }
    RunsCoherent(env, SyncView(env), w, inputs);
  }

  // The same in every state IssuerReconciler reaches.
  lemma ManagerKeystoresCoherent(env: Env, w: World, inputs: seq<Input>)
    requires Readable(env.formats) && Injective(env.lib.digest)
    requires forall i :: i in inputs ==> i.Manage?
    requires forall k :: k in w.secrets ==> CoherentSecret(env, ManagerView(env), w.secrets[k])
    ensures forall k :: k in Exec(env, w, inputs).secrets ==>
      CoherentSecret(env, ManagerView(env), Exec(env, w, inputs).secrets[k])
  {
    hide CoherentSecret, Exec, Readable, Injective, Fits, ManagerView;
    forall i | i in inputs ensures Fits(env, ManagerView(env), i) {
      ManagerFits(env, i);
    }
    RunsCoherent(env, ManagerView(env), w, inputs);
  }

  // Both drivers expect the same of this source.
  ghost predicate ViewsAgree(env: Env, t: Texts) {
    SyncView(env)(t) == ManagerView(env)(t)
  }

  // And in every state any interleaving of both reaches, as long as they agree on the payloads.
  lemma MixedKeystoresCoherent(env: Env, w: World, inputs: seq<Input>)
    requires Readable(env.formats) && Injective(env.lib.digest)
    requires forall i :: i in inputs ==>
      PlainSync(i) || (i.Manage? && (SourceOf(i).Some? ==> ViewsAgree(env, SourceOf(i).value)))
    requires forall k :: k in w.secrets ==> CoherentSecret(env, SyncView(env), w.secrets[k])
    ensures forall k :: k in Exec(env, w, inputs).secrets ==>
      CoherentSecret(env, SyncView(env), Exec(env, w, inputs).secrets[k])
  {
    hide CoherentSecret, Exec, Readable, Injective, Fits, SyncView, ManagerView, SourceOf, ViewsAgree;
    forall i | i in inputs ensures Fits(env, SyncView(env), i) {
      if i.Manage? {
        AgreedFits(env, i);
      } else {
        SyncFits(env, i);
      }
    }
    RunsCoherent(env, SyncView(env), w, inputs);
  }

  lemma AgreedFits(env: Env, i: Input)
    requires i.Manage? && (SourceOf(i).Some? ==> ViewsAgree(env, SourceOf(i).value))
    ensures Fits(env, SyncView(env), i)
  {
    hide SyncView, ManagerView, AssembledOf, SourceOf, KeystoreContents, HasKeystore, HashOf;
    ManagerFits(env, i);
  }

  // No further: a Secret with a key store that IssuerReconciler wrote is what CertSyncer expects exactly when the two
  // agree on its source.
  lemma MixedOnlyIfAgree(env: Env, s: Secret, t: Texts)
    requires Injective(env.lib.digest)
    requires Lookup(s.annotations, SourceHashKey) == HashOf(env, t) && HasKeystore(s.data)
    requires CoherentSecret(env, ManagerView(env), s)
    ensures ManagerView(env)(t).Some?
    ensures CoherentSecret(env, SyncView(env), s) <==> ViewsAgree(env, t)
  {
    hide CoherentSecret, SyncView, ManagerView, HashOf;
    CoherentFor(env, ManagerView(env), s, t);
    CoherentFor(env, SyncView(env), s, t);
  }

  // So reuse, from whatever Secret it happens, opens to exactly what a fresh build of the same source opens to; salt,
  // creation time and password are all that can differ.
  lemma ReuseIsRebuild(env: Env, v: View, w: World, inputs: seq<Input>, k: ObjectKey, t: Texts,
                       leaf: string, chain: string, existing: Option<Secret>, chance: Chance)
    requires Readable(env.formats) && Injective(env.lib.digest)
    requires forall i :: i in inputs ==> Fits(env, v, i)
    requires forall k :: k in w.secrets ==> CoherentSecret(env, v, w.secrets[k])
    requires
      var secrets := Exec(env, w, inputs).secrets;
      k in secrets && Reusable(Some(secrets[k]), HashOf(env, t))
    requires KeystoreContents(env.lib, leaf, t.key, chain) == v(t)
    requires Built(env.lib, env.formats, leaf, t.key, chain, existing, chance).Ready?
    ensures
      var data := Exec(env, w, inputs).secrets[k].data;
      var rebuilt := Built(env.lib, env.formats, leaf, t.key, chain, existing, chance);
      && env.formats.jksLoad(data[KEYSTORE_JKS], data[KEYSTORE_PASSWORD])
           == env.formats.jksLoad(rebuilt.jks, rebuilt.password)
      && env.formats.p12Decode(data[KEYSTORE_P12], data[KEYSTORE_PASSWORD])
           == env.formats.p12Decode(rebuilt.p12, rebuilt.password)
  {
    hide HashOf, JksEntries, P12Content, Built, Exec, Fits;
    RunsCoherent(env, v, w, inputs);
    var s := Exec(env, w, inputs).secrets[k];
    assert HoldsSource(env, v, s.data, t);
    BuiltOpens(env.lib, env.formats, leaf, t.key, chain, existing, chance);
  }

  /******* The key store and tls.crt *******/

  // The key store built beside tls.crt carries exactly the certificates of tls.crt, when all its blocks are
  // certificates that parse.
  lemma KeystoreAgreesWithTlsCrt(env: Env, leaf: string, chain: string, key: string, entries: Entries)
    requires PrintedRoots(env.roots)
    requires
      var ds := DecodeAll(TlsBundle(env, leaf, chain));
      ds != [] && AllCertificates(ds) && AllParse(env.lib, ds)
    requires
      var (ksLeaf, ksChain) := SplitBundle(TlsBundle(env, leaf, chain));
      JksEntries(env.lib, ksLeaf, key, ksChain) == Some(entries)
    ensures
      var ds := DecodeAll(TlsBundle(env, leaf, chain));
      && DistinctDers(ds) && TlsBundle(env, leaf, chain) == EncodeAll(ds)
      && EntriesAgree(env.lib, ds, key, entries)
  {
    hide DecodeAll, EncodeAll, JksEntries, SplitBundle, TlsBundle, EntriesAgree, DistinctDers;
    TlsBundlePrinted(env, leaf, chain);
    KeystoreAgreesWithBundle(env.lib, DecodeAll(TlsBundle(env, leaf, chain)), key, entries);
  }

  // A bundle with a block in it is the printed form of pairwise distinct blocks.
  lemma TlsBundlePrinted(env: Env, leaf: string, chain: string)
    requires PrintedRoots(env.roots) && DecodeAll(TlsBundle(env, leaf, chain)) != []
    ensures
      var ds := DecodeAll(TlsBundle(env, leaf, chain));
      DistinctDers(ds) && WellFormed(ds) && TlsBundle(env, leaf, chain) == EncodeAll(ds)
  {
    hide Decode, DecodeAll, Encode, EncodeAll, SplitGlue;
    var raw := leaf + chain;
    var g := SplitGlue(raw);
    if DecodeAll(g) == [] {
      FallbackIsOriginal(raw);
    } else {
      var ds := Dedup(DecodeAll(g));
      DecodeAllWellFormed(g);
      DedupProperties(DecodeAll(g));
      var extra := CompletionAppends(env.lib, ds, env.roots);
      DecodeAllEncodeAll(ds + extra);
    }
  }

  // A rebuild beside an unchanged tls.crt and tls.key keeps the stored password exactly when tls.crt is a single
  // certificate: CertSyncer passes the leaf alone, and it is compared with the whole of tls.crt.
  lemma PasswordKeptWithoutChain(env: Env, leaf: string, chain: string, key: string, existing: Secret, chance: Chance)
    requires PrintedRoots(env.roots)
    requires Lookup(existing.data, TLS_CRT) == TlsBundle(env, leaf, chain) && Lookup(existing.data, TLS_KEY) == key
    requires Lookup(existing.data, KEYSTORE_PASSWORD) != ""
    requires
      var (ksLeaf, ksChain) := SplitBundle(TlsBundle(env, leaf, chain));
      Built(env.lib, env.formats, ksLeaf, key, ksChain, Some(existing), chance).Ready?
    ensures
      var (ksLeaf, ksChain) := SplitBundle(TlsBundle(env, leaf, chain));
      var rebuilt := Built(env.lib, env.formats, ksLeaf, key, ksChain, Some(existing), chance);
      if |DecodeAll(TlsBundle(env, leaf, chain))| == 1 then rebuilt.password == Lookup(existing.data, KEYSTORE_PASSWORD)
      else chance.random.Some? && rebuilt.password == Base64.Encode(chance.random.value)
  {
    hide DecodeAll, EncodeAll, SplitBundle, TlsBundle, P12Content, LeadingCert, First, ChainDer, AddTrusted;
    LeafIsBundle(env, leaf, chain);
  }

  lemma LeafIsBundle(env: Env, leaf: string, chain: string)
    requires PrintedRoots(env.roots)
    requires LeadingCert(env.lib, SplitBundle(TlsBundle(env, leaf, chain)).0).Some?
    ensures
      var tls := TlsBundle(env, leaf, chain);
      SplitBundle(tls).0 == tls <==> |DecodeAll(tls)| == 1
  {
    hide Decode, DecodeAll, Encode, EncodeAll, TlsBundle, ValidLabel;
    DecodeEmpty();
    var tls := TlsBundle(env, leaf, chain);
    var ds := DecodeAll(tls);
    var c := Certificates(ds)[0];
    TlsBundlePrinted(env, leaf, chain);
    CertificateLabel();
    EncodeAllOne(c);
    DecodeAllEncodeAll([c]);
    assert c in Certificates(ds) && c in ds;
    assert |ds| == 1 ==> ds == [c];
  }
}
