// Runs at which the code does what its texts rule out.
module Inputs {
  import opened Common
  import opened Library
  import opened Pem
  import Base64
  import opened Normalize
  import opened Chain
  import opened Canonical
  import opened Objects
  import opened Keystore
  import opened SecretStore
  import opened Conditions
  import opened Reconcile
  import opened Runs
  import opened FanOutRuns
  import opened Coherent
  import opened Deliveries
  import opened SecondReconcile
  import opened Endings

  /******* A source of one certificate *******/

  const LEAF := Block(CERTIFICATE, [0])
  const KEY := Block(PRIVATE_KEY, [1])

  function PlainEnv(formats: Formats): Env {
    Env(PlainLibrary(), formats, [])
  }

  const NO_FAULTS := Faults(false, (ns: string) => NoFault, false, MarkFault(NoFault, false), MarkFault(NoFault, false),
                            MarkFault(NoFault, false), false)

  ghost predicate OfOneLeaf(i: Input) {
    i.Sync? && i.fetch.Fetched? && i.fetch.leaf == Encode(LEAF) && i.fetch.chain == "" && i.fetch.extra == map[]
  }

  lemma OneLeafAssembled(formats: Formats, i: Input)
    requires OfOneLeaf(i)
    ensures
      && AssembledOf(PlainEnv(formats), i).Some?
      && (var asm := AssembledOf(PlainEnv(formats), i).value;
          && (asm.leaf, asm.key, asm.chain) == (Encode(LEAF), i.fetch.key, "")
          && asm.template.data == map[TLS_CRT := asm.leaf, TLS_KEY := asm.key]
          && asm.template.kind == SECRET_TYPE_TLS
          && Lookup(asm.template.annotations, SourceHashKey) != "")
  {
    hide Encode, Completed, Normalized, SplitBundle, SourcePreimage, Composition, CertAnnotations, BaseAnnotations;
    SingleLeaf(PlainLibrary(), LEAF);
    OneLeafHash(formats, i);
  }

  lemma OneLeafHash(formats: Formats, i: Input)
    requires OfOneLeaf(i)
    ensures
      && AssembledOf(PlainEnv(formats), i).Some?
      && Lookup(AssembledOf(PlainEnv(formats), i).value.template.annotations, SourceHashKey) != ""
  {
    hide SyncAssembled, SourcePreimage, Encode, SyncView;
    SyncFits(PlainEnv(formats), i);
  }

  lemma PlainDigest()
    ensures forall s, t :: PlainLibrary().digest(s) == PlainLibrary().digest(t) ==> s == t
  {
    forall s: string, t: string | "#" + s == "#" + t ensures s == t {
      assert ("#" + s)[1..] == s && ("#" + t)[1..] == t;
    }
  }

  // A fault-free run into an empty store creates its one target.
  lemma CreatesOne(env: Env, run: Run, cert: Certificate, asm: Assembled, c: Circumstances, marks: bool, ns: string)
    requires FaultFree(c.faults) && run.secrets == map[] && TargetsOf(cert, c) == [ns]
    requires !(IsClusterKind(cert.issuerKind) && c.namespaces.None?)
    requires DataVerified(env, Template(env, run.secrets, cert, asm, c).data)
    ensures
      var report := Deliver(env, run, cert, asm, c, marks).1;
      report.ending.Synced? && report.results == [Created]
  {
    hide KeystoreOutcome, DataVerified, TargetsOf, ClearCert, WithKeystore, FanOut, IsClusterKind, SetCondition,
      SoftMarked;
    SoftMarksNothing(run, cert, KeystoreOutcome(env, run.secrets, cert, asm, c.chance), c);
    CreatedAlone(env.lib, cert, Template(env, run.secrets, cert, asm, c), c.faults.writes, ns);
  }

  lemma SoftMarksNothing(run: Run, cert: Certificate, outcome: Outcome, c: Circumstances)
    requires run.secrets == map[]
    ensures SoftMarked(run, cert, outcome, c).secrets == map[]
  {
  }

  lemma CreatedAlone(lib: Crypto, cert: Certificate, template: Secret, faults: string -> WriteFault, ns: string)
    requires faults(ns).NoFault?
    ensures FanOut(lib, map[], cert, template, [ns], faults).1 == [Created]
    ensures FirstFailed([ns], [Created]).None?
  {
    hide Stamped;
    assert [ns][..0] == [];
  }

  /******* The own namespace left out *******/

  // A cluster issuer whose Allow list holds namespace b only, for a Certificate in namespace a; the same source and
  // second each time, only the draw differs.
  function ExcludedInput(draw: byte): Input {
    Sync(Certificate("a", "web", "1", "tls", "ca", "ClusterIssuer", ""), "source", "ref",
         Fetched(Encode(LEAF), "", Encode(KEY), map[]),
         Circumstances("now", Chance(Some([draw]), 0, 0, false, false),
                       Some([Namespace("a", false), Namespace("b", false)]), NamespaceFilter(["b"], []),
                       NO_FAULTS, "", ""))
  }

  lemma ExcludedTargets(draw: byte)
    ensures TargetsOf(ExcludedInput(draw).cert, ExcludedInput(draw).c) == ["b"]
  {
    hide Encode;
    var list, filter := [Namespace("a", false), Namespace("b", false)], NamespaceFilter(["b"], []);
    assert "a"[0] != "b"[0];
    assert list[..1] == [Namespace("a", false)] && list[..1][..0] == [];
    assert SelectedNames(list[..1], filter) == [];
    assert IsClusterKind("ClusterIssuer");
  }

  lemma ExcludedAssembled(formats: Formats, draw: byte)
    ensures AssembledOf(PlainEnv(formats), ExcludedInput(draw)) == AssembledOf(PlainEnv(formats), ExcludedInput(0))
    ensures OfOneLeaf(ExcludedInput(draw)) && ExcludedInput(draw).fetch.key == Encode(KEY)
    ensures PlainExtras(ExcludedInput(draw)) && FaultFree(ExcludedInput(draw).c.faults)
    ensures ExcludedInput(draw).c.namespaces.Some? && ProperChance(ExcludedInput(draw).c.chance)
  {
    hide Encode, SyncAssembled;
  }

  // It can be built, and with nothing to reuse it is.
  lemma ExcludedBuild(formats: Formats, draw: byte)
    ensures
      var env, i := PlainEnv(formats), ExcludedInput(draw);
      && AssembledOf(env, i).Some?
      && (var asm := AssembledOf(env, i).value;
          && FreshBuild(env, map[], i.cert, asm, i.c.chance).Ready?
          && FreshBuild(env, map[], i.cert, asm, i.c.chance).password == Base64.Encode([draw])
          && KeystoreOutcome(env, map[], i.cert, asm, i.c.chance) == FreshBuild(env, map[], i.cert, asm, i.c.chance))
  {
    hide Encode, AssembledOf, JksEntries, P12Content, Base64.Encode;
    ExcludedAssembled(formats, draw);
    OneLeafAssembled(formats, ExcludedInput(draw));
    SingleContents(PlainLibrary(), LEAF, KEY);
    EncodeEnds(KEY);
  }

  // A key store of one certificate and its key.
  lemma SingleContents(lib: Crypto, leaf: Block, key: Block)
    requires leaf.kind == CERTIFICATE && ParseCert(lib, leaf.bytes).Some?
    requires key.kind == PRIVATE_KEY && lib.pkcs8(key.bytes)
    ensures JksEntries(lib, Encode(leaf), Encode(key), "").Some? && P12Content(lib, Encode(leaf), Encode(key), "").Some?
  {
    hide Encode, First, LeadingCert, ChainDer, JksEntries, P12Content, AddTrusted, ValidLabel;
    KeyLabel();
    FirstEncode(key);
    LeadingEncoded(lib, leaf);
    NothingKept(lib);
    ContentsRead(lib, Encode(leaf), Encode(key), "", ParseCert(lib, leaf.bytes).value, []);
  }

  lemma ExcludedVerified(formats: Formats)
    requires Readable(formats)
    ensures
      var env, i := PlainEnv(formats), ExcludedInput(0);
      AssembledOf(env, i).Some? && DataVerified(env, Template(env, map[], i.cert, AssembledOf(env, i).value, i.c).data)
  {
    hide Encode, AssembledOf, KeystoreOutcome, JksEntries, P12Content, WithKeystore, LeadingCert, PrivateKeyParses,
      Base64.Encode, ExcludedInput;
    var env, i := PlainEnv(formats), ExcludedInput(0);
    ExcludedAssembled(formats, 0);
    OneLeafAssembled(formats, i);
    ExcludedBuild(formats, 0);
    var asm := AssembledOf(env, i).value;
    var outcome := KeystoreOutcome(env, map[], i.cert, asm, i.c.chance);
    KeystoreKeepsTls(asm.template, outcome);
    KeystoreFields(asm.template, outcome);
    BuiltOpens(env.lib, formats, asm.leaf, asm.key, asm.chain, None, i.c.chance);
    LeadingEncoded(env.lib, LEAF);
    PlainKeyParses(KEY);
    assert TLS_CRT[4] != TLS_KEY[4];
  }

  lemma PlainKeyParses(key: Block)
    requires key.kind == PRIVATE_KEY
    ensures PrivateKeyParses(PlainLibrary(), Encode(key))
  {
    hide Encode, First;
    KeyLabel();
    FirstEncode(key);
  }

  lemma ExcludedFirst(formats: Formats)
    requires Readable(formats)
    ensures
      var (env, w, i) := (PlainEnv(formats), World(map[], map[]), ExcludedInput(0));
      SyncedWell(env, w, i) && Step(env, w, i).1.results == [Created]
  {
    hide AssembledOf, KeystoreOutcome, DataVerified, TargetsOf, FreshBuild, Base64.Encode, WithKeystore, Deliver, Step,
      FaultFree, ProperChance, PlainExtras, ExcludedInput, PlainLibrary, Encode, OfOneLeaf;
    var (env, w, i) := (PlainEnv(formats), World(map[], map[]), ExcludedInput(0));
    ExcludedAssembled(formats, 0);
    OneLeafAssembled(formats, i);
    ExcludedVerified(formats);
    ExcludedTargets(0);
    StepDelivers(env, w, i);
    CreatesOne(env, RunOf(w, i), i.cert, AssembledOf(env, i).value, i.c, i.Manage?, "b");
  }

  lemma ExcludedDiffers(formats: Formats)
    requires Readable(formats)
    ensures
      var (env, w, i, i') := (PlainEnv(formats), World(map[], map[]), ExcludedInput(0), ExcludedInput(1));
      && AssembledOf(env, i).Some? && AssembledOf(env, i').Some?
      && !SteadyRuns(env, w, i, i') && FreshDiffers(env, w, i, i')
  {
    hide AssembledOf, KeystoreOutcome, FreshBuild, TemplateOf, Base64.Encode, DataPreimage, TargetsOf, Encode, Step;
    ExcludedAssembled(formats, 1);
    ExcludedBuild(formats, 0);
    ExcludedBuild(formats, 1);
    ExcludedTargets(0);
    Base64.DecodeEncode([0]);
    Base64.DecodeEncode([1]);
    PlainDigest();
    assert "a"[0] != "b"[0];
  }

  // The second run finds no key store to reuse, draws another password and patches the target, in the same second.
  lemma ExcludedNamespaceRewrites(formats: Formats)
    requires Readable(formats)
    ensures
      var (env, w, i, i') := (PlainEnv(formats), World(map[], map[]), ExcludedInput(0), ExcludedInput(1));
      var (w', report) := Step(env, w, i);
      report.results == [Created] && Step(env, w', i').1.results == [Patched]
  {
    hide AssembledOf, Step, FreshDiffers, SyncedWell, FaultFree, TargetsOf, Encode, SteadyRuns, Readable, OfOneLeaf;
    var (env, w, i, i') := (PlainEnv(formats), World(map[], map[]), ExcludedInput(0), ExcludedInput(1));
    ExcludedFirst(formats);
    ExcludedAssembled(formats, 1);
    ExcludedTargets(0);
    ExcludedDiffers(formats);
    SameAssembled(env, i, i');
    SecondReconcileWrites(env, w, i, i');
    var results := Step(env, Step(env, w, i).0, i').1.results;
    assert |results| == 1;
  }

  lemma SameAssembled(env: Env, i: Input, i': Input)
    requires i.Sync? == i'.Sync? && i.cert == i'.cert && i.c.namespaces == i'.c.namespaces && i.c.filter == i'.c.filter
    requires AssembledOf(env, i).Some? && AssembledOf(env, i') == AssembledOf(env, i)
    ensures SameSource(env, i, i') && SyncTime(env, i) == SyncTime(env, i')
  {
    hide AssembledOf, KeystoreOutcome;
    AssembledPlain(env, i);
    OutcomeAtTime(env, map[], i.cert, AssembledOf(env, i).value, SyncTime(env, i), i.c.chance);
  }

  /******* No private key *******/

  // A source without a private key; the call after the write may fail.
  function KeylessInput(postWrite: bool): Input {
    Sync(Certificate("a", "web", "1", "tls", "ca", "Issuer", ""), "source", "ref",
         Fetched(Encode(LEAF), "", "", map[]),
         Circumstances("now", Chance(None, 0, 0, false, false), None, NamespaceFilter([], []),
                       NO_FAULTS.(postWrite := postWrite), "no key", ""))
  }

  lemma KeylessPlain(postWrite: bool)
    ensures
      var i := KeylessInput(postWrite);
      && OfOneLeaf(i) && i.fetch.key == "" && PlainExtras(i) && ProperChance(i.c.chance)
      && (!postWrite ==> FaultFree(i.c.faults))
      && !IsClusterKind(i.cert.issuerKind) && TargetsOf(i.cert, i.c) == [i.cert.namespace]
  {
    hide Encode;
    assert |"Issuer"| < |"ClusterIssuer"|;
  }

  lemma KeylessOutcome(env: Env, secrets: Store, cert: Certificate, asm: Assembled, chance: Chance)
    requires env.lib == PlainLibrary() && (asm.leaf, asm.key) == (Encode(LEAF), "")
    requires asm.template.data == map[TLS_CRT := asm.leaf, TLS_KEY := asm.key]
    requires cert.Own() in secrets ==> secrets[cert.Own()].data == map[]
    ensures KeystoreOutcome(env, secrets, cert, asm, chance).Skipped? && DataVerified(env, asm.template.data)
  {
    hide Encode, LeadingCert, PrivateKeyParses;
    LeadingEncoded(env.lib, LEAF);
    assert TLS_CRT[4] != TLS_KEY[4] && |TLS_CRT| == |TLS_KEY| == 7 && |KEYSTORE_JKS| == 12;
  }

  lemma KeylessFirst(formats: Formats)
    ensures
      var (env, w, i) := (PlainEnv(formats), World(map[], map[]), KeylessInput(false));
      SyncedWell(env, w, i) && Step(env, w, i).1.results == [Created]
      && KeystoreOutcome(env, w.secrets, i.cert, AssembledOf(env, i).value, i.c.chance).Skipped?
  {
    hide AssembledOf, KeystoreOutcome, DataVerified, TargetsOf, WithKeystore, Deliver, Step, FaultFree, ProperChance,
      PlainExtras, KeylessInput, PlainLibrary, Encode, OfOneLeaf, IsClusterKind;
    var (env, w, i) := (PlainEnv(formats), World(map[], map[]), KeylessInput(false));
    KeylessPlain(false);
    OneLeafAssembled(formats, i);
    var asm := AssembledOf(env, i).value;
    KeylessOutcome(env, w.secrets, i.cert, asm, i.c.chance);
    NoKeystoreAdded(asm.template, Skipped);
    StepDelivers(env, w, i);
    CreatesOne(env, RunOf(w, i), i.cert, asm, i.c, i.Manage?, i.cert.namespace);
  }

  // The same run again, in the same second: the fan-out is quiet, and the Secret is patched all the same, to say that
  // there is no key store and to take that back.
  lemma KeylessMarksAgain(formats: Formats)
    requires Readable(formats)
    ensures
      var (env, w, i) := (PlainEnv(formats), World(map[], map[]), KeylessInput(false));
      AssembledOf(env, i).Some? && SecondQuiet(env, w, i, i) && !SecondUntouched(env, w, i, i)
  {
    hide AssembledOf, KeystoreOutcome, TargetsOf, Step, FaultFree, PlainLibrary, Encode, SyncedWell, SecondQuiet,
      SecondUntouched, Readable, OfOneLeaf, Kept;
    var (env, w, i) := (PlainEnv(formats), World(map[], map[]), KeylessInput(false));
    KeylessPlain(false);
    OneLeafAssembled(formats, i);
    KeylessFirst(formats);
    SameAssembled(env, i, i);
    OwnAfterwards(env, w, i);
    SecondReconcileWritesNothing(env, w, i, i);
  }

  const OPAQUE := Secret("Opaque", map[], map[], map[], [])

  // A Secret of another type is patched.
  lemma OpaquePatched(lib: Crypto, secrets: Store, cert: Certificate, template: Secret, faults: string -> WriteFault)
    requires cert.Own() in secrets && secrets[cert.Own()].kind != template.kind && faults(cert.namespace).NoFault?
    ensures
      var (after, results) := FanOut(lib, secrets, cert, template, [cert.namespace], faults);
      results == [Patched] && FirstFailed([cert.namespace], results).None? && cert.Own() in after
  {
    hide DataPreimage;
    assert [cert.namespace][..0] == [];
  }

  lemma KeylessRun(env: Env, run: Run, cert: Certificate, asm: Assembled, c: Circumstances)
    requires !IsClusterKind(cert.issuerKind) && !c.faults.readOwn && c.faults.postWrite
      && c.faults.writes(cert.namespace).NoFault?
    requires KeystoreOutcome(env, run.secrets, cert, asm, c.chance).Skipped? && DataVerified(env, asm.template.data)
    requires cert.Own() in run.secrets && run.secrets[cert.Own()].kind != asm.template.kind
    ensures
      var (after, report) := Deliver(env, run, cert, asm, c, false);
      report.ending.PostWriteFailed? && cert.Own() in after.secrets
  {
    hide IsClusterKind, DataVerified, KeystoreOutcome, FanOut, SoftMarked, EndMarked, ClearCert, SameButMarkers;
    var outcome := KeystoreOutcome(env, run.secrets, cert, asm, c.chance);
    SoftKeepsPayload(run, cert, outcome, c);
    var soft := SoftMarked(run, cert, outcome, c);
    KindKept(run.secrets, soft.secrets, cert.Own());
    OpaquePatched(env.lib, soft.secrets, cert, asm.template, c.faults.writes);
  }

  lemma KindKept(before: Store, after: Store, own: ObjectKey)
    requires SameButMarkers(before, after, own) && own in before
    ensures own in after && after[own].kind == before[own].kind
  {
    hide Unmarked;
  }

  lemma KeylessSays(lib: Crypto, run: Run, after: Run, cert: Certificate, template: Secret, c: Circumstances)
    requires SaysSoft(lib, run, after, cert, template, Skipped, c)
    requires cert.Own() in run.secrets && run.secrets[cert.Own()].kind != template.kind
      && !IsClusterKind(cert.issuerKind)
    requires cert.Own() in after.secrets
    ensures Find(after.server, ExternalIssuerSynced)
      == [Condition(ExternalIssuerSynced, false, "KeystoreSkipped", c.softMessage)]
    ensures after.secrets[cert.Own()].annotations.Keys !! DRIFT_KEYS
  {
    hide DataPreimage, Find, IsClusterKind;
  }

  // Over a Secret of another type, and the call after the write fails: the Certificate goes on saying that there is no
  // key store, and its Secret says nothing.
  lemma MarkOutlivesSecret(formats: Formats)
    ensures
      var (env, i) := (PlainEnv(formats), KeylessInput(true));
      var run := Run(map[i.cert.Own() := OPAQUE], [], []);
      var (after, report) := Reconciled(env, run, i);
      && report.ending.PostWriteFailed?
      && Find(after.server, ExternalIssuerSynced)
           == [Condition(ExternalIssuerSynced, false, "KeystoreSkipped", "no key")]
      && i.cert.Own() in after.secrets && after.secrets[i.cert.Own()].annotations.Keys !! DRIFT_KEYS
  {
    hide AssembledOf, Reconciled, Deliver, DataVerified, KeystoreOutcome, SaysSoft, Find, Encode, Replaced;
    var (env, i) := (PlainEnv(formats), KeylessInput(true));
    var run := Run(map[i.cert.Own() := OPAQUE], [], []);
    KeylessPlain(true);
    OneLeafAssembled(formats, i);
    KeylessOutcome(env, run.secrets, i.cert, AssembledOf(env, i).value, i.c.chance);
    assert SECRET_TYPE_TLS[0] != OPAQUE.kind[0];
    KeylessRun(env, run, i.cert, AssembledOf(env, i).value, i.c);
    ReconciledCases(env, run, i);
    EndingSays(env, run, i);
    KeylessSays(env.lib, run, Reconciled(env, run, i).0, i.cert, AssembledOf(env, i).value.template, i.c);
  }
}
