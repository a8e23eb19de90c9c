// When the next reconcile of the same source writes, and when it does not.
module SecondReconcile {
  import opened Common
  import opened Canonical
  import opened Library
  import opened Chain
  import opened Payload
  import opened Objects
  import opened Keystore
  import opened SecretStore
  import opened Reconcile
  import opened Runs
  import opened FanOutRuns
  import opened Deliveries

  /******* The next reconcile of the same source *******/

  // When the template says it was synced.
  ghost function SyncTime(env: Env, i: Input): string
    requires AssembledOf(env, i).Some?
  {
    Lookup(AssembledOf(env, i).value.template.annotations, LastSyncTime)
  }

  // The same Certificate, source, issuer configuration and namespaces; the time may be another.
  ghost predicate SameSource(env: Env, i: Input, i': Input) {
    && i.Sync? == i'.Sync? && i.cert == i'.cert
    && i.c.namespaces == i'.c.namespaces && i.c.filter == i'.c.filter
    && AssembledOf(env, i).Some? && AssembledOf(env, i').Some?
    && AssembledOf(env, i').value == AtTime(AssembledOf(env, i).value, SyncTime(env, i'))
  }

  lemma SyncedAtTime(env: Env, cert: Certificate, annotation: string, ref: string,
                     leaf: string, chain: string, key: string, extra: Annotations, now: string, now': string)
    ensures
      var asm' := SyncAssembled(env, cert, annotation, ref, leaf, chain, key, extra, now');
      var time := if LastSyncTime in extra then extra[LastSyncTime] else now';
      && asm' == AtTime(SyncAssembled(env, cert, annotation, ref, leaf, chain, key, extra, now), time)
      && Lookup(asm'.template.annotations, LastSyncTime) == time
  {
    hide TlsBundle, SplitBundle, Composition, SourcePreimage, CertAnnotations;
    hide BaseAnnotations;
    CertAnnotationsKeys(env.lib, leaf);
    var hash := env.lib.digest(SourcePreimage(leaf, key, chain));
    var text := Composition(env.lib, TlsBundle(env, leaf, chain));
    BaseAtTime(cert, cert.issuerGroup, hash, Custom(annotation), ref, now, now', text);
    OverlaidAtTime(BaseAnnotations(cert, cert.issuerGroup, hash, Custom(annotation), ref, now, text),
                   CertAnnotations(env.lib, leaf), extra, now');
  }

  lemma BaseAtTime(cert: Certificate, group: string, hash: string, refKey: AnnotationKey, ref: string,
                   now: string, now': string, chain: string)
    requires refKey != LastSyncTime
    ensures BaseAnnotations(cert, group, hash, refKey, ref, now', chain)
      == BaseAnnotations(cert, group, hash, refKey, ref, now, chain)[LastSyncTime := now']
  {
  }

  lemma OverlaidAtTime(base: Annotations, leaf: Annotations, extra: Annotations, now: string)
    requires LastSyncTime !in leaf
    ensures
      var time := if LastSyncTime in extra then extra[LastSyncTime] else now;
      base[LastSyncTime := now] + leaf + extra == (base + leaf + extra)[LastSyncTime := time]
  {
  }

  lemma ManagedAtTime(env: Env, cert: Certificate, ref: string, parsed: Extracted, now: string, now': string)
    ensures
      var asm' := ManagerAssembled(env, cert, ref, parsed, now');
      && asm' == AtTime(ManagerAssembled(env, cert, ref, parsed, now), now')
      && Lookup(asm'.template.annotations, LastSyncTime) == now'
  {
    hide Completed, SplitBundle, Composition, SourcePreimage, CertAnnotations, BaseAnnotations;
    CertAnnotationsKeys(env.lib, parsed.certificate);
    var hash := env.lib.digest(SourcePreimage(parsed.certificate, parsed.privateKey, parsed.chain));
    var group := GroupOrDefault(cert.issuerGroup);
    var text := Composition(env.lib, Completed(env.lib, parsed.certificate + parsed.chain, env.roots));
    var base := BaseAnnotations(cert, group, hash, SecretNameKey, ref, now, text);
    BaseAtTime(cert, group, hash, SecretNameKey, ref, now, now', text);
    OverlaidAtTime(base, CertAnnotations(env.lib, parsed.certificate), map[], now');
    assert forall a: Annotations :: a + map[] == a;
  }

  // Inputs that differ in nothing else are of the same source, and the time is the run's own unless the source
  // overrules it.
  lemma SameInputs(env: Env, i: Input, c: Circumstances)
    requires AssembledOf(env, i).Some? && c.namespaces == i.c.namespaces && c.filter == i.c.filter
    ensures SameSource(env, i, i.(c := c))
    ensures
      SyncTime(env, i) == if i.Sync? && LastSyncTime in i.fetch.extra then i.fetch.extra[LastSyncTime] else i.c.now
  {
    hide SyncAssembled, ManagerAssembled, Extract, ChainAccepted;
    if i.Sync? {
      var f := i.fetch;
      SyncedAtTime(env, i.cert, i.annotation, i.ref, f.leaf, f.chain, f.key, f.extra, i.c.now, c.now);
      SyncedAtTime(env, i.cert, i.annotation, i.ref, f.leaf, f.chain, f.key, f.extra, i.c.now, i.c.now);
    } else {
      var parsed := Extract(i.source.doc, i.source.keys).value;
      ManagedAtTime(env, i.cert, i.ref, parsed, i.c.now, c.now);
      ManagedAtTime(env, i.cert, i.ref, parsed, i.c.now, i.c.now);
    }
  }

  lemma AssembledPlain(env: Env, i: Input)
    requires AssembledOf(env, i).Some?
    ensures
      var template := AssembledOf(env, i).value.template;
      PlainData(template.data) && LastSyncTime in template.annotations
  {
    hide TlsBundle, SplitBundle, Completed, Composition, SourcePreimage, Extract, ChainAccepted, CertAnnotations;
    assert |TLS_CRT| == |TLS_KEY| == 7 && |CA_CRT| == 6 && |KEYSTORE_JKS| == 12 && |KEYSTORE_PASSWORD| == 17;
  }

  // A reconcile without API faults that ended synced, whatever came of its key store.
  ghost predicate SyncedWell(env: Env, w: World, i: Input) {
    && AssembledOf(env, i).Some? && PlainExtras(i) && FaultFree(i.c.faults) && ProperChance(i.c.chance)
    && Lookup(AssembledOf(env, i).value.template.annotations, SourceHashKey) != ""
    && NoCollisions(env.lib, w.secrets, i.cert, TemplateOf(env, w.secrets, i, AssembledOf(env, i).value),
          TargetsOf(i.cert, i.c))
    && Step(env, w, i).1.ending.Synced?
  }

  // What it leaves behind.
  lemma AfterSynced(env: Env, w: World, i: Input)
    requires SyncedWell(env, w, i)
    ensures
      var (w', _) := Step(env, w, i);
      var template := TemplateOf(env, w.secrets, i, AssembledOf(env, i).value);
      && DataVerified(env, template.data)
      && !(IsClusterKind(i.cert.issuerKind) && i.c.namespaces.None?)
      && Delivered(env.lib, w'.secrets, i.cert, template, TargetsOf(i.cert, i.c))
      && template.annotations.Keys !! DRIFT_KEYS
      && (i.cert.Own() in w'.secrets ==> DriftReason !in w'.secrets[i.cert.Own()].annotations)
      && (i.cert.namespace !in TargetsOf(i.cert, i.c) ==> PayloadKept(w.secrets, w'.secrets, i.cert.Own()))
  {
    hide DataVerified, KeystoreOutcome, Delivered, NoCollisions, AssembledOf, Deliver, Reconciled, TargetsOf,
      PayloadKept, Failing, SamePayload, IsClusterKind;
    var asm := AssembledOf(env, i).value;
    var conditions := StatusOf(w.status, CertKey(i.cert));
    var run := Run(w.secrets, conditions, conditions);
    ReconciledCases(env, run, i);
    AssembledUnmarked(env, i);
    TemplateUnmarked(env, w.secrets, i);
    SyncedDelivers(env, run, i.cert, asm, i.c, i.Manage?);
    StepUnderFailures(env, w, i);
  }

  ghost function RunOf(w: World, i: Input): Run {
    var conditions := StatusOf(w.status, CertKey(i.cert));
    Run(w.secrets, conditions, conditions)
  }

  lemma StepDelivers(env: Env, w: World, i: Input)
    requires AssembledOf(env, i).Some?
    ensures
      var (run', report) := Deliver(env, RunOf(w, i), i.cert, AssembledOf(env, i).value, i.c, i.Manage?);
      var (w', report') := Step(env, w, i);
      w'.secrets == run'.secrets && report' == report
  {
    hide AssembledOf, Deliver, Reconciled;
    ReconciledCases(env, RunOf(w, i), i);
  }

  lemma SameTargets(env: Env, i: Input, i': Input)
    requires SameSource(env, i, i')
    ensures TargetsOf(i'.cert, i'.c) == TargetsOf(i.cert, i.c)
  {
    hide Targets, AssembledOf;
  }

  lemma OutcomeAtTime(env: Env, secrets: Store, cert: Certificate, asm: Assembled, now: string, chance: Chance)
    ensures KeystoreOutcome(env, secrets, cert, AtTime(asm, now), chance)
      == KeystoreOutcome(env, secrets, cert, asm, chance)
    ensures LastSyncTime in asm.template.annotations && asm.template.annotations[LastSyncTime] == now ==>
      AtTime(asm, now) == asm
  {
    hide JksEntries, P12Content, Built;
    var a := asm.template.annotations;
    assert LastSyncTime in a && a[LastSyncTime] == now ==> a[LastSyncTime := now] == a;
  }

  lemma SameKeystore(template: Secret, template': Secret, outcome: Outcome)
    requires template.data == template'.data
    ensures WithKeystore(template, outcome).data == WithKeystore(template', outcome).data
  {
  }

  // The two runs have the same key store, or both have none.
  ghost predicate SteadyRuns(env: Env, w: World, i: Input, i': Input)
    requires AssembledOf(env, i).Some?
  {
    Steady(env, w.secrets, i.cert, AssembledOf(env, i).value, TargetsOf(i.cert, i.c), i.c.chance, i'.c.chance)
  }

  // What the second run makes of the store the first leaves.
  ghost predicate SecondQuiet(env: Env, w: World, i: Input, i': Input) {
    Quiet(Step(env, Step(env, w, i).0, i').1, TargetsOf(i.cert, i.c))
  }

  ghost predicate SecondUntouched(env: Env, w: World, i: Input, i': Input)
    requires AssembledOf(env, i').Some?
  {
    Untouched(env, RunOf(Step(env, w, i).0, i'), i'.cert, AssembledOf(env, i').value, i'.c, i'.Manage?)
  }

  lemma UntouchedStep(env: Env, w: World, i: Input, i': Input)
    requires SameSource(env, i, i') && SecondUntouched(env, w, i, i')
    ensures SecondQuiet(env, w, i, i') && Step(env, Step(env, w, i).0, i').0.secrets == Step(env, w, i).0.secrets
  {
    hide Step, AssembledOf, Deliver, SoftMarked, KeystoreOutcome, Quiet, TargetsOf;
    SameTargets(env, i, i');
    StepDelivers(env, Step(env, w, i).0, i');
  }

  // The same time, and a key store that stays what it is: the fan-out creates and patches nothing, although every fresh
  // key store would differ. With a key store, or without a Secret in the own namespace, no Secret is touched at all.
  lemma SecondReconcileWritesNothing(env: Env, w: World, i: Input, i': Input)
    requires Readable(env.formats) && SameSource(env, i, i') && SyncedWell(env, w, i) && FaultFree(i'.c.faults)
    requires SyncTime(env, i) == SyncTime(env, i') && SteadyRuns(env, w, i, i')
    ensures Step(env, Step(env, w, i).0, i').1.ending.Synced? && SecondQuiet(env, w, i, i')
    ensures
      SecondUntouched(env, w, i, i') <==>
        || KeystoreOutcome(env, w.secrets, i.cert, AssembledOf(env, i).value, i.c.chance).Ready?
        || i.cert.Own() !in Step(env, w, i).0.secrets
  {
    hide DataVerified, KeystoreOutcome, Delivered, AssembledOf, Deliver, FaultFree, PayloadKept, Quiet, Step,
      IsClusterKind, Kept, NextBuild, FreshBuild, ProperChance, TargetsOf, NoCollisions, Readable, Untouched,
      WithKeystore, PlainData;
    var asm, w' := AssembledOf(env, i).value, Step(env, w, i).0;
    AfterSynced(env, w, i);
    AssembledPlain(env, i);
    AssembledUnmarked(env, i);
    NextOutcome(env, w.secrets, w'.secrets, i.cert, asm, i.c, i'.c.chance);
    OutcomeAtTime(env, w'.secrets, i.cert, asm, SyncTime(env, i'), i'.c.chance);
    NoKeystoreAdded(asm.template, Failed);
    NoKeystoreAdded(asm.template, Skipped);
    SameTargets(env, i, i');
    StepDelivers(env, w', i');
    IdleRun(env, RunOf(w', i'), i.cert, asm, i'.c, i'.Manage?);
  }

  // Where the first run built its key store, the second would build another one from the same store; and the hash tells
  // the Secrets of the two runs apart.
  ghost predicate FreshDiffers(env: Env, w: World, i: Input, i': Input)
    requires AssembledOf(env, i).Some? && AssembledOf(env, i').Some?
  {
    var asm, w' := AssembledOf(env, i).value, Step(env, w, i).0;
    var first := FreshBuild(env, w.secrets, i.cert, asm, i.c.chance);
    && (first.Ready? ==> first != FreshBuild(env, w.secrets, i.cert, asm, i'.c.chance))
    && NoCollision(env.lib, TemplateOf(env, w.secrets, i, asm).data,
                   TemplateOf(env, w'.secrets, i', AssembledOf(env, i').value).data)
  }

  // Another time, or another key store, makes the next template differ from what was delivered.
  lemma NextTemplate(env: Env, w: World, i: Input, i': Input)
    requires Readable(env.formats) && SameSource(env, i, i') && SyncedWell(env, w, i)
    requires
      || SyncTime(env, i) != SyncTime(env, i')
      || (!SteadyRuns(env, w, i, i') && FreshDiffers(env, w, i, i'))
    ensures
      var template := TemplateOf(env, w.secrets, i, AssembledOf(env, i).value);
      var template' := TemplateOf(env, Step(env, w, i).0.secrets, i', AssembledOf(env, i').value);
      DataVerified(env, template'.data) && Changed(env.lib, template, template')
  {
    hide DataVerified, Delivered, AssembledOf, FaultFree, PayloadKept, Step, IsClusterKind, Kept, ProperChance, Built,
      ReusedOrBuilt, WithKeystore, NoCollision, NoCollisions, TargetsOf, Readable, PlainData;
    var asm, asm', w' := AssembledOf(env, i).value, AssembledOf(env, i').value, Step(env, w, i).0;
    AfterSynced(env, w, i);
    AssembledPlain(env, i);
    NextOutcome(env, w.secrets, w'.secrets, i.cert, asm, i.c, i'.c.chance);
    OutcomeAtTime(env, w'.secrets, i.cert, asm, SyncTime(env, i'), i'.c.chance);
    var first := KeystoreOutcome(env, w.secrets, i.cert, asm, i.c.chance);
    var next := KeystoreOutcome(env, w'.secrets, i.cert, asm', i'.c.chance);
    var own := Existing(w.secrets, i.cert.Own());
    KeystoreKeepsTls(asm.template, first);
    KeystoreKeepsTls(asm'.template, next);
    SameKeystore(asm.template, asm'.template, first);
    FreshVerified(env, asm, asm', first, own, i'.c.chance);
    FreshVerified(env, asm, asm', first, None, i'.c.chance);
    BuiltUnlessKept(env, w.secrets, i.cert, asm, i.c.chance);
    if !SteadyRuns(env, w, i, i') && FreshDiffers(env, w, i, i') {
      TemplatesDiffer(asm.template, asm'.template, first, next);
    }
  }

  lemma BuiltUnlessKept(env: Env, secrets: Store, cert: Certificate, asm: Assembled, chance: Chance)
    ensures !Kept(secrets, cert, asm) ==>
      KeystoreOutcome(env, secrets, cert, asm, chance) == FreshBuild(env, secrets, cert, asm, chance)
  {
    hide Built;
  }

  // So the targets are patched again.
  lemma SecondReconcileWrites(env: Env, w: World, i: Input, i': Input)
    requires Readable(env.formats) && SameSource(env, i, i') && SyncedWell(env, w, i) && FaultFree(i'.c.faults)
    requires TargetsOf(i.cert, i.c) != []
    requires
      || SyncTime(env, i) != SyncTime(env, i')
      || (!SteadyRuns(env, w, i, i') && FreshDiffers(env, w, i, i'))
    ensures Rewritten(Step(env, Step(env, w, i).0, i').1, TargetsOf(i.cert, i.c))
  {
    hide DataVerified, KeystoreOutcome, Delivered, AssembledOf, Deliver, FaultFree, PayloadKept, Step, IsClusterKind,
      SteadyRuns, ProperChance, FreshDiffers, WithKeystore, NoCollisions, TargetsOf, Readable, Rewritten, SyncTime,
      Changed;
    var w' := Step(env, w, i).0;
    AfterSynced(env, w, i);
    NextTemplate(env, w, i, i');
    SameTargets(env, i, i');
    StepDelivers(env, w', i');
    StaleRun(env, RunOf(w', i'), i.cert, AssembledOf(env, i').value,
             TemplateOf(env, w.secrets, i, AssembledOf(env, i).value), i'.c, i'.Manage?);
  }

  // Of the same source, the fan-out of the next reconcile writes nothing if and only if the time is the same and the
  // key store stays what it is: the Secret in the own namespace held a reusable one before, or the first run had one
  // and wrote it there, or neither run has one.
  lemma SecondReconcileQuiet(env: Env, w: World, i: Input, i': Input)
    requires Readable(env.formats) && SameSource(env, i, i') && SyncedWell(env, w, i) && FaultFree(i'.c.faults)
    requires TargetsOf(i.cert, i.c) != [] && FreshDiffers(env, w, i, i')
    ensures
      var asm, targets := AssembledOf(env, i).value, TargetsOf(i.cert, i.c);
      SecondQuiet(env, w, i, i') <==>
        && SyncTime(env, i) == SyncTime(env, i')
        && (|| Kept(w.secrets, i.cert, asm)
            || if KeystoreOutcome(env, w.secrets, i.cert, asm, i.c.chance).Ready? then i.cert.namespace in targets
               else !NextBuild(env, w.secrets, i.cert, asm, targets, i'.c.chance).Ready?)
  {
    hide AssembledOf, SyncedWell, FaultFree, FreshDiffers, Step, TargetsOf, SyncTime, NextBuild, Kept, KeystoreOutcome;
    if SyncTime(env, i) == SyncTime(env, i') && SteadyRuns(env, w, i, i') {
      SecondReconcileWritesNothing(env, w, i, i');
    } else {
      SecondReconcileWrites(env, w, i, i');
    }
  }

  // No Secret is created or patched at all, markers included, if and only if the time is the same and the Secret in the
  // own namespace held a reusable key store before, or the first run had one and wrote it there, or neither run has one
  // and the own namespace gets no Secret to say so.
  lemma SecondReconcileUntouched(env: Env, w: World, i: Input, i': Input)
    requires Readable(env.formats) && SameSource(env, i, i') && SyncedWell(env, w, i) && FaultFree(i'.c.faults)
    requires TargetsOf(i.cert, i.c) != [] && FreshDiffers(env, w, i, i')
    ensures
      var asm, targets := AssembledOf(env, i).value, TargetsOf(i.cert, i.c);
      SecondUntouched(env, w, i, i') <==>
        && SyncTime(env, i) == SyncTime(env, i')
        && (|| Kept(w.secrets, i.cert, asm)
            || if KeystoreOutcome(env, w.secrets, i.cert, asm, i.c.chance).Ready? then i.cert.namespace in targets
               else
                 && !NextBuild(env, w.secrets, i.cert, asm, targets, i'.c.chance).Ready?
                 && i.cert.namespace !in targets && i.cert.Own() !in w.secrets)
  {
    hide AssembledOf, SyncedWell, FaultFree, FreshDiffers, Step, TargetsOf, SyncTime, NextBuild, KeystoreOutcome,
      SecondQuiet, SecondUntouched, PayloadKept;
    OwnAfterwards(env, w, i);
    if SyncTime(env, i) == SyncTime(env, i') && SteadyRuns(env, w, i, i') {
      SecondReconcileWritesNothing(env, w, i, i');
      KeptIsReady(env, w.secrets, i.cert, AssembledOf(env, i).value, i.c.chance);
    } else {
      SecondReconcileQuiet(env, w, i, i');
      if SecondUntouched(env, w, i, i') {
        UntouchedStep(env, w, i, i');
      }
    }
  }

  lemma KeptIsReady(env: Env, secrets: Store, cert: Certificate, asm: Assembled, chance: Chance)
    ensures Kept(secrets, cert, asm) ==> KeystoreOutcome(env, secrets, cert, asm, chance).Ready?
  {
    hide Built;
  }

  lemma OwnAfterwards(env: Env, w: World, i: Input)
    requires SyncedWell(env, w, i)
    ensures
      i.cert.Own() in Step(env, w, i).0.secrets <==>
        i.cert.namespace in TargetsOf(i.cert, i.c) || i.cert.Own() in w.secrets
  {
    hide AssembledOf, Step, TargetsOf, UpToDate, DataVerified, NoCollisions, FaultFree, KeystoreOutcome, IsClusterKind,
      Unmarked;
    AfterSynced(env, w, i);
  }

  // Nothing goes wrong in a build but what the source brings along.
  predicate Works(chance: Chance) {
    chance.random.Some? && !chance.jksFails && !chance.p12Fails
  }

  // A private key and certificates of which both key stores can be made.
  ghost predicate Buildable(lib: Crypto, asm: Assembled) {
    && asm.key != ""
    && JksEntries(lib, asm.leaf, asm.key, asm.chain).Some? && P12Content(lib, asm.leaf, asm.key, asm.chain).Some?
  }

  lemma WorkingBuild(env: Env, asm: Assembled, existing: Option<Secret>, chance: Chance)
    requires Works(chance)
    ensures Built(env.lib, env.formats, asm.leaf, asm.key, asm.chain, existing, chance).Ready?
      <==> Buildable(env.lib, asm)
  {
    hide JksEntries, P12Content;
  }

  // Where builds fail for the source's sake only, the source and the store before decide both questions.
  lemma SecondReconcileDecided(env: Env, w: World, i: Input, i': Input)
    requires Readable(env.formats) && SameSource(env, i, i') && SyncedWell(env, w, i) && FaultFree(i'.c.faults)
    requires TargetsOf(i.cert, i.c) != [] && FreshDiffers(env, w, i, i') && Works(i.c.chance) && Works(i'.c.chance)
    ensures
      var asm, ours := AssembledOf(env, i).value, i.cert.namespace in TargetsOf(i.cert, i.c);
      var kept, built := Kept(w.secrets, i.cert, asm), Buildable(env.lib, asm);
      && (SecondQuiet(env, w, i, i') <==> SyncTime(env, i) == SyncTime(env, i') && (kept || ours || !built))
      && (SecondUntouched(env, w, i, i') <==>
            && SyncTime(env, i) == SyncTime(env, i')
            && (kept || (built && ours) || (!built && !ours && i.cert.Own() !in w.secrets)))
  {
    hide AssembledOf, SyncedWell, FaultFree, FreshDiffers, Step, TargetsOf, SyncTime, Buildable, Works, SecondQuiet,
      SecondUntouched, Built, Reusable;
    var asm := AssembledOf(env, i).value;
    SecondReconcileQuiet(env, w, i, i');
    SecondReconcileUntouched(env, w, i, i');
    BuiltUnlessKept(env, w.secrets, i.cert, asm, i.c.chance);
    KeptIsReady(env, w.secrets, i.cert, asm, i.c.chance);
    WorkingBuild(env, asm, Existing(w.secrets, i.cert.Own()), i.c.chance);
    WorkingBuild(env, asm, Existing(w.secrets, i.cert.Own()), i'.c.chance);
    WorkingBuild(env, asm, None, i'.c.chance);
  }

  /******* Another time *******/

  // last-sync-time is one of the annotations compared, so in any other second every target is written again.
  lemma LaterSecondRewrites(env: Env, w: World, i: Input)
    requires AssembledOf(env, i).Some? && FaultFree(i.c.faults)
    requires Step(env, w, i).1.ending.Synced? && Distinct(TargetsOf(i.cert, i.c))
    requires forall ns :: ns in TargetsOf(i.cert, i.c) ==>
      var key := ObjectKey(ns, i.cert.secretName);
      key in w.secrets && LastSyncTime in AssembledOf(env, i).value.template.annotations &&
      Lookup(w.secrets[key].annotations, LastSyncTime) != AssembledOf(env, i).value.template.annotations[LastSyncTime]
    ensures
      var report := Step(env, w, i).1;
      |report.results| == |TargetsOf(i.cert, i.c)| && forall j :: 0 <= j < |report.results| ==>
        report.results[j].Patched?
  {
    hide AssembledOf, Reconciled, DataVerified, KeystoreOutcome, UpToDate;
    var asm := AssembledOf(env, i).value;
    var conditions := StatusOf(w.status, CertKey(i.cert));
    var run := Run(w.secrets, conditions, conditions);
    ReconciledCases(env, run, i);
    var outcome := KeystoreOutcome(env, w.secrets, i.cert, asm, i.c.chance);
    SoftRewrites(env, run, i.cert, asm, outcome, i.c);
  }

  lemma SoftRewrites(env: Env, run: Run, cert: Certificate, asm: Assembled, outcome: Outcome, c: Circumstances)
    requires FaultFree(c.faults) && Distinct(TargetsOf(cert, c))
    requires forall ns :: ns in TargetsOf(cert, c) ==>
      var key := ObjectKey(ns, cert.secretName);
      key in run.secrets && LastSyncTime in asm.template.annotations &&
      Lookup(run.secrets[key].annotations, LastSyncTime) != asm.template.annotations[LastSyncTime]
    ensures
      var soft, template := SoftMarked(run, cert, outcome, c), WithKeystore(asm.template, outcome);
      var results := FanOut(env.lib, soft.secrets, cert, template, TargetsOf(cert, c), c.faults.writes).1;
      |results| == |TargetsOf(cert, c)| && forall j :: 0 <= j < |results| ==> results[j].Patched?
  {
    hide FanOut, TargetsOf, DataPreimage, SoftMarked, Unmarked;
    var soft, template := SoftMarked(run, cert, outcome, c), WithKeystore(asm.template, outcome);
    var targets := TargetsOf(cert, c);
    SoftKeepsPayload(run, cert, outcome, c);
    FanOutDistinct(env.lib, soft.secrets, cert, template, targets, c.faults.writes);
    forall ns | ns in targets ensures WriteTo(env.lib, soft.secrets, cert, template, ns, c.faults.writes).1.Patched? {
      var key := ObjectKey(ns, cert.secretName);
      assert key in run.secrets;
      if key == cert.Own() {
        UnmarkedLookup(soft.secrets[key].annotations, run.secrets[key].annotations, LastSyncTime);
      }
    }
    assert forall j :: 0 <= j < |targets| ==> targets[j] in targets;
  }
}
