// What the end of a run says about drift, on the Certificate and on the Secret in its namespace.
module Endings {
  import opened Common
  import opened Library
  import opened Chain
  import opened Payload
  import opened Objects
  import opened Keystore
  import opened SecretStore
  import opened Conditions
  import opened Reconcile
  import opened Runs
  import opened FanOutRuns

  // All calls that record drift, or its end, succeed.
  ghost predicate MarkersSucceed(f: Faults) {
    f.softMark == f.mark == f.clear == MarkFault(NoFault, false) && !f.ready
  }

  ghost predicate InStep(run: Run) {
    run.local == run.server
  }

  // The drift condition is False for this reason, Ready is as it was, and the own Secret, if there, says the same.
  ghost predicate SaysDrift(before: Run, after: Run, cert: Certificate, reason: string, message: string) {
    && Find(after.server, ExternalIssuerSynced) == [Condition(ExternalIssuerSynced, false, reason, message)]
    && Find(after.server, ConditionType.Ready) == Find(before.server, ConditionType.Ready)
    && (cert.Own() in after.secrets ==>
          && Lookup(after.secrets[cert.Own()].annotations, DriftReason) == reason
          && Lookup(after.secrets[cert.Own()].annotations, DriftMessage) == message)
  }

  // Both conditions are True, and the own Secret has no marker.
  ghost predicate SaysSynced(after: Run, cert: Certificate, message: string) {
    && Find(after.server, ExternalIssuerSynced) == [Condition(ExternalIssuerSynced, true, "Synced", message)]
    && Find(after.server, ConditionType.Ready) == [Condition(ConditionType.Ready, true, "Synced", message)]
    && (cert.Own() in after.secrets ==> after.secrets[cert.Own()].annotations.Keys !! DRIFT_KEYS)
  }

  // What the run says of a key store it went on without.
  function SoftReason(outcome: Outcome): string
    requires !outcome.Ready?
  {
    if outcome.Failed? then "KeystoreBuildFailed" else "KeystoreSkipped"
  }

  // The own Secret is a target, and it is missing or not what the run wants it to be.
  ghost predicate OwnStale(lib: Crypto, secrets: Store, cert: Certificate, template: Secret, targets: seq<string>) {
    var own := cert.Own();
    && cert.namespace in targets
    && !(own in secrets && UpToDate(lib, secrets[own], Stamped(lib, Desired(cert, template, cert.namespace))))
  }

  // A run that failed after writing records no failure of its own. A missing key store stays recorded on the
  // Certificate; on the Secret it does so exactly when the fan-out had no reason to write it.
  ghost predicate SaysSoft(lib: Crypto, before: Run, after: Run, cert: Certificate, template: Secret, outcome: Outcome,
                           c: Circumstances) {
    var own, stale := cert.Own(), OwnStale(lib, before.secrets, cert, template, TargetsOf(cert, c));
    && Find(after.server, ConditionType.Ready) == Find(before.server, ConditionType.Ready)
    && Find(after.server, ExternalIssuerSynced)
         == (if outcome.Ready? then Find(before.server, ExternalIssuerSynced)
             else [Condition(ExternalIssuerSynced, false, SoftReason(outcome), c.softMessage)])
    && (own in after.secrets ==>
          var a := after.secrets[own].annotations;
          && (stale ==> a.Keys !! DRIFT_KEYS)
          && (!stale ==> own in before.secrets)
          && (!stale && outcome.Ready? ==> after.secrets[own] == before.secrets[own])
          && (!outcome.Ready? ==> (!stale <==> Lookup(a, DriftReason) == SoftReason(outcome)))
          && (!stale && !outcome.Ready? ==> Lookup(a, DriftMessage) == c.softMessage))
  }

  lemma MarkCertSays(run: Run, cert: Certificate, reason: string, message: string, now: string, fault: MarkFault)
    requires InStep(run) && fault == MarkFault(NoFault, false)
    ensures
      var after := MarkCert(run, cert, reason, message, now, fault);
      InStep(after) && SaysDrift(run, after, cert, reason, message) && after.secrets.Keys == run.secrets.Keys
  {
    MarkProperties(run.secrets, cert.Own(), reason, message, now, NoFault);
    ReplacedFinds(run.local, Condition(ExternalIssuerSynced, false, reason, message));
  }

  lemma SoftMarkedSays(run: Run, cert: Certificate, outcome: Outcome, c: Circumstances)
    requires InStep(run) && c.faults.softMark == MarkFault(NoFault, false)
    ensures
      var soft := SoftMarked(run, cert, outcome, c);
      && InStep(soft) && Find(soft.server, ConditionType.Ready) == Find(run.server, ConditionType.Ready)
      && (outcome.Ready? ==> soft == run)
      && (!outcome.Ready? ==> SaysDrift(run, soft, cert, SoftReason(outcome), c.softMessage))
      && soft.secrets.Keys == run.secrets.Keys
  {
    hide MarkCert, SaysDrift;
    if !outcome.Ready? {
      MarkCertSays(run, cert, SoftReason(outcome), c.softMessage, c.now, c.faults.softMark);
    }
  }

  lemma ClearedSays(run: Run, cert: Certificate, c: Circumstances)
    requires InStep(run) && MarkersSucceed(c.faults)
    requires cert.Own() in run.secrets ==> AllOrNoMarkers(run.secrets[cert.Own()].annotations)
    ensures
      var cleared := ClearCert(run, cert, "Synced", c.message, c.faults.clear);
      var after := SetCondition(cleared, Condition(ConditionType.Ready, true, "Synced", c.message), c.faults.ready);
      InStep(after) && SaysSynced(after, cert, c.message)
  {
    ClearProperties(run.secrets, cert.Own(), NoFault);
    var drift := Condition(ExternalIssuerSynced, true, "Synced", c.message);
    var ready := Condition(ConditionType.Ready, true, "Synced", c.message);
    ReplacedFinds(run.local, drift);
    ReplacedFinds(Replaced(run.local, drift), ready);
  }

  ghost predicate MarkersOf(secrets: Store) {
    forall k :: k in secrets ==> AllOrNoMarkers(secrets[k].annotations)
  }

  lemma PublishSays(env: Env, run: Run, cert: Certificate, template: Secret, c: Circumstances, marks: bool)
    requires InStep(run) && MarkersSucceed(c.faults) && MarkersOf(run.secrets)
    requires template.annotations.Keys !! DRIFT_KEYS
    ensures
      var (after, report) := Publish(env, run, cert, template, c, marks);
      && InStep(after)
      && (report.ending.Marked? ==> SaysDrift(run, after, cert, report.ending.reason, c.message))
      && (report.ending.Synced? ==> SaysSynced(after, cert, c.message))
  {
    hide MarkCert, ClearCert, FanOut, SetCondition, SaysDrift, SaysSynced;
    var targets := TargetsOf(cert, c);
    FanOutAt(env.lib, run.secrets, cert, template, targets, c.faults.writes);
    var secrets := FanOut(env.lib, run.secrets, cert, template, targets, c.faults.writes).0;
    var wrote := run.(secrets := secrets);
    FanOutMarkers(env, run.secrets, cert, template, targets, c.faults.writes);
    MarkCertSays(wrote, cert, "SecretWriteFailed", c.message, c.now, c.faults.mark);
    MarkCertSays(wrote, cert, "SignCRFailed", c.message, c.now, c.faults.mark);
    ClearedSays(wrote, cert, c);
    DriftSince(run, wrote, MarkCert(wrote, cert, "SecretWriteFailed", c.message, c.now, c.faults.mark), cert,
      "SecretWriteFailed", c.message);
    DriftSince(run, wrote, MarkCert(wrote, cert, "SignCRFailed", c.message, c.now, c.faults.mark), cert,
      "SignCRFailed", c.message);
  }

  lemma FanOutMarkers(env: Env, secrets: Store, cert: Certificate, template: Secret, targets: seq<string>,
                      faults: string -> WriteFault)
    requires MarkersOf(secrets) && template.annotations.Keys !! DRIFT_KEYS
    ensures MarkersOf(FanOut(env.lib, secrets, cert, template, targets, faults).0)
  {
    hide FanOut;
    var p: Property := (k: ObjectKey, s: Secret) => AllOrNoMarkers(s.annotations);
    FanOutKeeps(p, {}, env.lib, secrets, cert, template, targets, faults);
    var after := FanOut(env.lib, secrets, cert, template, targets, faults).0;
    assert forall k :: k in after ==> p(k, after[k]);
  }

  // Only the Ready condition of the state before matters.
  lemma DriftSince(before: Run, between: Run, after: Run, cert: Certificate, reason: string, message: string)
    requires SaysDrift(between, after, cert, reason, message)
    requires Find(between.server, ConditionType.Ready) == Find(before.server, ConditionType.Ready)
    ensures SaysDrift(before, after, cert, reason, message)
  {
  }

  // The own Secret after a fan-out in which its write did not fail.
  lemma OwnAfterFanOut(lib: Crypto, secrets: Store, cert: Certificate, template: Secret, targets: seq<string>,
                       faults: string -> WriteFault)
    requires |FanOut(lib, secrets, cert, template, targets, faults).1| == |targets|
    requires FirstFailed(targets, FanOut(lib, secrets, cert, template, targets, faults).1).None?
    requires template.annotations.Keys !! DRIFT_KEYS
    ensures
      var after, own := FanOut(lib, secrets, cert, template, targets, faults).0, cert.Own();
      own in after ==>
        && (OwnStale(lib, secrets, cert, template, targets) ==> after[own].annotations.Keys !! DRIFT_KEYS)
        && (!OwnStale(lib, secrets, cert, template, targets) ==> own in secrets && after[own] == secrets[own])
  {
    hide UpToDate, Stamped, FanOut;
    FanOutAt(lib, secrets, cert, template, targets, faults);
    FirstFailedIsFirst(targets, FanOut(lib, secrets, cert, template, targets, faults).1);
    StampedKeys(lib, Desired(cert, template, cert.namespace));
    if cert.namespace in targets {
      var j :| 0 <= j < |targets| && targets[j] == cert.namespace;
      assert !WriteTo(lib, secrets, cert, template, cert.namespace, faults).1.WriteFailed?;
    }
  }

  lemma PublishSoft(env: Env, run: Run, cert: Certificate, outcome: Outcome, template: Secret, c: Circumstances,
                    marks: bool)
    requires InStep(run) && MarkersSucceed(c.faults) && template.annotations.Keys !! DRIFT_KEYS
    requires Publish(env, SoftMarked(run, cert, outcome, c), cert, template, c, marks).1.ending.PostWriteFailed?
    ensures SaysSoft(env.lib, run, Publish(env, SoftMarked(run, cert, outcome, c), cert, template, c, marks).0, cert,
      template, outcome, c)
  {
    hide SoftMarked, FanOut, TargetsOf, UpToDate, Stamped, MarkCert, ClearCert, SameButMarkers;
    var soft := SoftMarked(run, cert, outcome, c);
    SoftMarkedSays(run, cert, outcome, c);
    SoftKeepsPayload(run, cert, outcome, c);
    FanOutAt(env.lib, soft.secrets, cert, template, TargetsOf(cert, c), c.faults.writes);
    OwnAfterFanOut(env.lib, soft.secrets, cert, template, TargetsOf(cert, c), c.faults.writes);
    StaleToo(env.lib, run.secrets, soft.secrets, cert, template, TargetsOf(cert, c));
    assert !outcome.Ready? ==> SoftReason(outcome) != "";
  }

  lemma StaleToo(lib: Crypto, before: Store, after: Store, cert: Certificate, template: Secret, targets: seq<string>)
    requires SameButMarkers(before, after, cert.Own()) && template.annotations.Keys !! DRIFT_KEYS
    ensures OwnStale(lib, after, cert, template, targets) <==> OwnStale(lib, before, cert, template, targets)
  {
    hide UpToDate, Unmarked, Stamped;
    var own, desired := cert.Own(), Stamped(lib, Desired(cert, template, cert.namespace));
    StampedKeys(lib, Desired(cert, template, cert.namespace));
    if own in before {
      MarkersKeepUpToDate(lib, before[own], after[own], desired);
    }
  }

  lemma DeliverSays(env: Env, run: Run, cert: Certificate, asm: Assembled, c: Circumstances, marks: bool)
    requires InStep(run) && MarkersSucceed(c.faults) && MarkersOf(run.secrets)
    requires asm.template.annotations.Keys !! DRIFT_KEYS
    ensures
      var (after, report) := Deliver(env, run, cert, asm, c, marks);
      var outcome := KeystoreOutcome(env, run.secrets, cert, asm, c.chance);
      && InStep(after)
      && (report.ending.Marked? ==> SaysDrift(run, after, cert, report.ending.reason, c.message))
      && (report.ending.PostWriteFailed? ==>
            SaysSoft(env.lib, run, after, cert, WithKeystore(asm.template, outcome), outcome, c))
      && (report.ending.Synced? ==> SaysSynced(after, cert, c.message))
  {
    hide MarkCert, Publish, SetCondition, SaysDrift, SaysSoft, SaysSynced, KeystoreOutcome, DataVerified, SoftMarked,
      AllOrNoMarkers;
    var outcome := KeystoreOutcome(env, run.secrets, cert, asm, c.chance);
    var soft, template := SoftMarked(run, cert, outcome, c), WithKeystore(asm.template, outcome);
    SoftMarkedSays(run, cert, outcome, c);
    SoftMarkers(run, cert, outcome, c);
    PublishSays(env, soft, cert, template, c, marks);
    MarkCertSays(run, cert, "SecretReadFailed", c.message, c.now, c.faults.mark);
    MarkCertSays(soft, cert, "SecretVerifyFailed", c.message, c.now, c.faults.mark);
    MarkCertSays(soft, cert, "NamespaceListFailed", c.message, c.now, c.faults.mark);
    var (after, report) := Deliver(env, run, cert, asm, c, marks);
    if !c.faults.readOwn && report.ending.Marked? {
      DriftSince(run, soft, after, cert, report.ending.reason, c.message);
    }
    if report.ending.PostWriteFailed? {
      PublishSoft(env, run, cert, outcome, template, c, marks);
    }
  }

  lemma SoftMarkers(run: Run, cert: Certificate, outcome: Outcome, c: Circumstances)
    requires MarkersOf(run.secrets)
    ensures MarkersOf(SoftMarked(run, cert, outcome, c).secrets)
  {
    hide SoftMarked;
    var p: Property := (k: ObjectKey, s: Secret) => AllOrNoMarkers(s.annotations);
    SoftMarkedKeeps(p, {}, run, cert, outcome, c);
    var after := SoftMarked(run, cert, outcome, c).secrets;
    assert forall k :: k in after ==> p(k, after[k]);
  }

  // What the Certificate and its Secret say once a run is over.
  ghost predicate Says(env: Env, before: Run, after: Run, i: Input, report: Report) {
    match report.ending
    case Ignored => after == before
    case Marked(reason) => SaysDrift(before, after, i.cert, reason, i.c.message)
    case Synced => SaysSynced(after, i.cert, i.c.message)
    case PostWriteFailed =>
      && AssembledOf(env, i).Some?
      && (var asm := AssembledOf(env, i).value;
          var outcome := KeystoreOutcome(env, before.secrets, i.cert, asm, i.c.chance);
          SaysSoft(env.lib, before, after, i.cert, WithKeystore(asm.template, outcome), outcome, i.c))
  }

  // A run that ends marked leaves the reason on both sides and Ready alone; a run that ends synced leaves both
  // conditions True and no marker, even if it marked a missing key store on the way; after a failure that is not
  // marked, what is said of the key store is as SaysSoft has it; and a run that does nothing says nothing.
  lemma EndingSays(env: Env, run: Run, i: Input)
    requires InStep(run) && MarkersSucceed(i.c.faults) && PlainExtras(i)
    requires forall k :: k in run.secrets ==> AllOrNoMarkers(run.secrets[k].annotations)
    ensures
      var (after, report) := Reconciled(env, run, i);
      Says(env, run, after, i, report) && InStep(after)
  {
    hide AssembledOf, Deliver, Reconciled, MarkCert, SaysDrift, SaysSynced, SaysSoft, KeystoreOutcome, WithKeystore;
    ReconciledCases(env, run, i);
    var report := Reconciled(env, run, i).1;
    if AssembledOf(env, i).Some? {
      AssembledUnmarked(env, i);
      DeliverSays(env, run, i.cert, AssembledOf(env, i).value, i.c, i.Manage?);
      NeverIgnored(env, run, i.cert, AssembledOf(env, i).value, i.c, i.Manage?);
    } else if report.ending.Marked? {
      MarkCertSays(run, i.cert, report.ending.reason, i.c.message, i.c.now, i.c.faults.mark);
    }
  }

  lemma NeverIgnored(env: Env, run: Run, cert: Certificate, asm: Assembled, c: Circumstances, marks: bool)
    ensures !Deliver(env, run, cert, asm, c, marks).1.ending.Ignored?
  {
    hide MarkCert, ClearCert, FanOut, KeystoreOutcome, DataVerified, SoftMarked, TargetsOf;
  }

  // The same, after any sequence of reconciles: the next one ends saying what it did.
  lemma RunEndingSays(env: Env, w: World, inputs: seq<Input>, i: Input)
    requires MarkersSucceed(i.c.faults) && PlainExtras(i) && forall j :: j in inputs ==> PlainExtras(j)
    requires forall k :: k in w.secrets ==> AllOrNoMarkers(w.secrets[k].annotations)
    ensures
      var before := Exec(env, w, inputs);
      var (after, report) := Step(env, before, i);
      var conditions, conditions' := StatusOf(before.status, CertKey(i.cert)), StatusOf(after.status, CertKey(i.cert));
      Says(env, Run(before.secrets, conditions, conditions), Run(after.secrets, conditions', conditions'), i, report)
  {
    hide Reconciled, Exec, AllOrNoMarkers, Says;
    MarkersAllOrNone(env, w, inputs);
    var before := Exec(env, w, inputs);
    var conditions := StatusOf(before.status, CertKey(i.cert));
    EndingSays(env, Run(before.secrets, conditions, conditions), i);
  }

  /******* When taking the mark back fails *******/

  // The Secrets as the fan-out leaves them, a mark for a missing key store included.
  ghost function FannedOut(env: Env, run: Run, cert: Certificate, asm: Assembled, c: Circumstances): Store {
    var outcome := KeystoreOutcome(env, run.secrets, cert, asm, c.chance);
    FanOut(env.lib, SoftMarked(run, cert, outcome, c).secrets, cert, WithKeystore(asm.template, outcome),
           TargetsOf(cert, c), c.faults.writes).0
  }

  // A run without a key store whose other marker calls succeed ends synced with the mark still there if and only if
  // clearSecretDrift fails: on the Certificate, and on the Secret unless the fan-out had a reason to write it.
  lemma SyncedWithoutKeystore(env: Env, run: Run, cert: Certificate, asm: Assembled, c: Circumstances, marks: bool)
    requires InStep(run) && asm.template.annotations.Keys !! DRIFT_KEYS
    requires c.faults.softMark == MarkFault(NoFault, false) && !c.faults.clear.status && !c.faults.ready
    requires !KeystoreOutcome(env, run.secrets, cert, asm, c.chance).Ready?
    requires Deliver(env, run, cert, asm, c, marks).1.ending.Synced?
    ensures
      var outcome := KeystoreOutcome(env, run.secrets, cert, asm, c.chance);
      var after := Deliver(env, run, cert, asm, c, marks).0;
      var cleared := Clear(FannedOut(env, run, cert, asm, c), cert.Own(), c.faults.clear.secret).1;
      && Find(after.server, ExternalIssuerSynced)
           == [if cleared then Condition(ExternalIssuerSynced, true, "Synced", c.message)
               else Condition(ExternalIssuerSynced, false, SoftReason(outcome), c.softMessage)]
      && (!cleared && cert.Own() in after.secrets ==>
            (Lookup(after.secrets[cert.Own()].annotations, DriftReason) == SoftReason(outcome) <==>
               !OwnStale(env.lib, run.secrets, cert, WithKeystore(asm.template, outcome), TargetsOf(cert, c))))
  {
    hide FanOut, TargetsOf, MarkCert, KeystoreOutcome, DataVerified, SoftMarked, Clear, SetCondition, OwnStale,
      IsClusterKind, SameButMarkers, WithKeystore, Find, Replaced;
    var outcome := KeystoreOutcome(env, run.secrets, cert, asm, c.chance);
    var soft, template := SoftMarked(run, cert, outcome, c), WithKeystore(asm.template, outcome);
    SoftMarkedSays(run, cert, outcome, c);
    SoftKeepsPayload(run, cert, outcome, c);
    WithKeystoreUnmarked(asm.template, outcome);
    FanOutAt(env.lib, soft.secrets, cert, template, TargetsOf(cert, c), c.faults.writes);
    OwnAfterFanOut(env.lib, soft.secrets, cert, template, TargetsOf(cert, c), c.faults.writes);
    StaleToo(env.lib, run.secrets, soft.secrets, cert, template, TargetsOf(cert, c));
    var wrote := soft.(secrets := FannedOut(env, run, cert, asm, c));
    ClearedConditions(wrote, cert, c);
    assert SoftReason(outcome) != "";
  }

  lemma WithKeystoreUnmarked(template: Secret, outcome: Outcome)
    ensures WithKeystore(template, outcome).annotations == template.annotations
  {
  }

  lemma ClearedConditions(run: Run, cert: Certificate, c: Circumstances)
    requires InStep(run) && !c.faults.clear.status && !c.faults.ready
    ensures
      var cleared := ClearCert(run, cert, "Synced", c.message, c.faults.clear);
      var after := SetCondition(cleared, Condition(ConditionType.Ready, true, "Synced", c.message), c.faults.ready);
      var (secrets, ok) := Clear(run.secrets, cert.Own(), c.faults.clear.secret);
      && after.secrets == secrets && (!ok ==> secrets == run.secrets)
      && Find(after.server, ExternalIssuerSynced)
           == if ok then [Condition(ExternalIssuerSynced, true, "Synced", c.message)]
              else Find(run.server, ExternalIssuerSynced)
  {
    var drift := Condition(ExternalIssuerSynced, true, "Synced", c.message);
    var ready := Condition(ConditionType.Ready, true, "Synced", c.message);
    ReplacedFinds(run.local, drift);
    ReplacedFinds(run.local, ready);
    ReplacedFinds(Replaced(run.local, drift), ready);
  }

  /******* Which failure ends a run how *******/

  // The kinds of failure of a run that has assembled its Secret, in the order in which they are met.
  lemma DeliverEnds(env: Env, run: Run, cert: Certificate, asm: Assembled, c: Circumstances, marks: bool)
    requires asm.template.annotations.Keys !! DRIFT_KEYS
    ensures
      var template := WithKeystore(asm.template, KeystoreOutcome(env, run.secrets, cert, asm, c.chance));
      Deliver(env, run, cert, asm, c, marks).1.ending ==
        if c.faults.readOwn then Marked("SecretReadFailed")
        else if !Consumable(env, template.data) then Marked("SecretVerifyFailed")
        else if EndsInClusterIssuer(cert.issuerKind) && c.namespaces.None? then Marked("NamespaceListFailed")
        else if Failing(env, run.secrets, cert, template, c) != {} then Marked("SecretWriteFailed")
        else if c.faults.postWrite then if marks then Marked("SignCRFailed") else PostWriteFailed
        else Synced
  {
    hide KeystoreOutcome, DataVerified, Consumable, SoftMarked, WithKeystore, EndMarked, Publish, Failing,
      SameButMarkers, IsClusterKind, EndsInClusterIssuer;
    var outcome := KeystoreOutcome(env, run.secrets, cert, asm, c.chance);
    var soft, template := SoftMarked(run, cert, outcome, c), WithKeystore(asm.template, outcome);
    VerifiedIsConsumable(env, template.data);
    TargetsExactly(cert, [], c.filter);
    WithKeystoreUnmarked(asm.template, outcome);
    SoftKeepsPayload(run, cert, outcome, c);
    MarkersKeepFailing(env, run.secrets, soft.secrets, cert.Own(), cert, template, c);
    PublishEnds(env, soft, cert, template, c, marks);
  }

  lemma PublishEnds(env: Env, run: Run, cert: Certificate, template: Secret, c: Circumstances, marks: bool)
    ensures
      Publish(env, run, cert, template, c, marks).1.ending ==
        if Failing(env, run.secrets, cert, template, c) != {} then Marked("SecretWriteFailed")
        else if c.faults.postWrite then if marks then Marked("SignCRFailed") else PostWriteFailed
        else Synced
  {
    hide FanOut, WriteTo, EndMarked, ClearCert, SetCondition, TargetsOf;
    var targets, failing := TargetsOf(cert, c), Failing(env, run.secrets, cert, template, c);
    FanOutAt(env.lib, run.secrets, cert, template, targets, c.faults.writes);
    var results := FanOut(env.lib, run.secrets, cert, template, targets, c.faults.writes).1;
    FirstFailedIsFirst(targets, results);
    if failing != {} {
      var ns :| ns in failing;
      var j :| 0 <= j < |targets| && targets[j] == ns;
      assert results[j].WriteFailed?;
    } else {
      forall j | 0 <= j < |results| ensures !results[j].WriteFailed? {
        assert targets[j] !in failing;
      }
    }
  }

  // Every end of either driver, by what made it.
  lemma StepEnds(env: Env, w: World, i: Input)
    requires PlainExtras(i)
    ensures
      var ending := Step(env, w, i).1.ending;
      && (i.Sync? && (i.fetch.NotAnnotated? || i.fetch.Deleting? || i.fetch.FinalizerFails?) ==> ending == Ignored)
      && (i.Sync? && i.fetch.SyncFetchFails? ==> ending == Marked(i.fetch.reason))
      && (i.Manage? && i.source.NoReference? ==> ending == Marked("MissingSecretRef"))
      && (i.Manage? && i.source.UnknownKind? ==> ending == Marked("InvalidSpec"))
      && (i.Manage? && i.source.SourceFails? ==> ending == Marked("SourceMissing"))
      && (i.Manage? && i.source.ConfigFails? ==> ending == Marked("InvalidSpec"))
      && (i.Manage? && i.source.Document? ==>
            var r := Extract(i.source.doc, i.source.keys);
            && (r.Failure? ==> ending == Marked("InvalidPayload"))
            && (r.Success? && !ChainAccepted(env.lib, r.value.certificate, r.value.chain) ==>
                  ending == Marked("ChainInvalid")))
      && (AssembledOf(env, i).Some? <==>
            || (i.Sync? && i.fetch.Fetched?)
            || (i.Manage? && i.source.Document? &&
                  var r := Extract(i.source.doc, i.source.keys);
                  r.Success? && ChainAccepted(env.lib, r.value.certificate, r.value.chain)))
    ensures AssembledOf(env, i).Some? ==>
      var template := TemplateOf(env, w.secrets, i, AssembledOf(env, i).value);
      var ending, faults := Step(env, w, i).1.ending, i.c.faults;
      ending ==
        if faults.readOwn then Marked("SecretReadFailed")
        else if !Consumable(env, template.data) then Marked("SecretVerifyFailed")
        else if EndsInClusterIssuer(i.cert.issuerKind) && i.c.namespaces.None? then Marked("NamespaceListFailed")
        else if Failing(env, w.secrets, i.cert, template, i.c) != {} then Marked("SecretWriteFailed")
        else if faults.postWrite then if i.Manage? then Marked("SignCRFailed") else PostWriteFailed
        else Synced
  {
    hide Deliver, SyncAssembled, ManagerAssembled, Extract, ChainAccepted, EndMarked, KeystoreOutcome, WithKeystore,
      Consumable, Failing, EndsInClusterIssuer;
    if AssembledOf(env, i).Some? {
      var conditions := StatusOf(w.status, CertKey(i.cert));
      AssembledUnmarked(env, i);
      DeliverEnds(env, Run(w.secrets, conditions, conditions), i.cert, AssembledOf(env, i).value, i.c, i.Manage?);
    }
  }

  /******* When the marker calls fail *******/

  // A failing call on the Secret leaves everything as it was; a failing call on the status leaves what the API server
  // has of the Certificate.
  lemma MarkCertUnderFaults(run: Run, cert: Certificate, reason: string, message: string, now: string, fault: MarkFault)
    ensures
      var after := MarkCert(run, cert, reason, message, now, fault);
      && (fault.secret.GetFails? ==> after == run)
      && (fault.secret.PatchFails? ==> after.secrets == run.secrets)
      && (fault.status ==> after.server == run.server)
    ensures
      var after := ClearCert(run, cert, reason, message, fault);
      && (fault.secret.GetFails? ==> after == run)
      && (fault.secret.PatchFails? ==> after.secrets == run.secrets)
      && (fault.status ==> after.server == run.server)
  {
  }

  // A mark on the own Secret, if there is one and it does not say the same already, carries the time of the run.
  lemma MarksCarryTime(run: Run, cert: Certificate, reason: string, c: Circumstances, outcome: Outcome)
    requires cert.Own() in run.secrets && c.faults.mark.secret.NoFault? && c.faults.softMark.secret.NoFault?
    ensures
      var a, b := run.secrets[cert.Own()].annotations, EndMarked(run, cert, reason, c).secrets[cert.Own()].annotations;
      Lookup(a, DriftReason) != reason || Lookup(a, DriftMessage) != c.message ==>
        Lookup(b, DriftReason) == reason && Lookup(b, DriftMessage) == c.message && Lookup(b, DriftAt) == c.now
    ensures !outcome.Ready? ==>
      var a := run.secrets[cert.Own()].annotations;
      var b := SoftMarked(run, cert, outcome, c).secrets[cert.Own()].annotations;
      Lookup(a, DriftReason) != SoftReason(outcome) || Lookup(a, DriftMessage) != c.softMessage ==>
        && Lookup(b, DriftReason) == SoftReason(outcome) && Lookup(b, DriftMessage) == c.softMessage
        && Lookup(b, DriftAt) == c.now
  {
    hide Replaced;
    MarkReads(run.secrets, cert.Own(), reason, c.message, c.now);
    if !outcome.Ready? {
      MarkReads(run.secrets, cert.Own(), SoftReason(outcome), c.softMessage, c.now);
    }
  }
}
