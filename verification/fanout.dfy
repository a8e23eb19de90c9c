// A whole run under arbitrary failures of its writes.
module FanOutRuns {
  import opened Common
  import opened Canonical
  import opened Library
  import opened Objects
  import opened Keystore
  import opened SecretStore
  import opened Reconcile
  import opened Runs

  // The same Secret, or none, in both stores, but for its drift markers.
  ghost predicate PayloadKept(before: Store, after: Store, key: ObjectKey) {
    && (key in before <==> key in after)
    && (key in before ==>
          after[key].(annotations := Unmarked(after[key].annotations))
            == before[key].(annotations := Unmarked(before[key].annotations)))
  }

  lemma MarkersKeepPayload(before: Store, between: Store, after: Store, own: ObjectKey, k: ObjectKey)
    requires SameButMarkers(between, after, own)
    ensures Agree(between, before, k) ==> PayloadKept(before, after, k)
  {
    hide Unmarked;
  }

  lemma MarkersKeepAnnotations(between: Store, after: Store, own: ObjectKey, k: ObjectKey, s: Secret,
                               keys: set<AnnotationKey>)
    requires SameButMarkers(between, after, own) && keys !! DRIFT_KEYS
    requires k in between && SamePayload(between[k], s, keys)
    ensures k in after && SamePayload(after[k], s, keys)
  {
    hide Unmarked;
    assert Unmarked(after[k].annotations) == Unmarked(between[k].annotations);
    forall key | key in keys ensures Lookup(after[k].annotations, key) == Lookup(s.annotations, key) {
      UnmarkedLookup(after[k].annotations, between[k].annotations, key);
    }
  }

  lemma EndKeepsOthers(run: Run, cert: Certificate, reason: string, c: Circumstances)
    ensures SameButMarkers(run.secrets, EndMarked(run, cert, reason, c).secrets, cert.Own())
    ensures SameButMarkers(run.secrets, ClearCert(run, cert, reason, c.message, c.faults.clear).secrets, cert.Own())
    ensures SameButMarkers(run.secrets, run.secrets, cert.Own())
  {
    hide SameButMarkers;
    MarkProperties(run.secrets, cert.Own(), reason, c.message, c.now, c.faults.mark.secret);
    ClearProperties(run.secrets, cert.Own(), c.faults.clear.secret);
    SameStore(run.secrets, cert.Own());
  }

  lemma SameStore(s: Store, key: ObjectKey)
    ensures SameButMarkers(s, s, key)
  {
  }

  // The targets whose write fails.
  ghost function Failing(env: Env, secrets: Store, cert: Certificate, template: Secret, c: Circumstances): set<string> {
    set ns | ns in TargetsOf(cert, c) && WriteTo(env.lib, secrets, cert, template, ns, c.faults.writes).1.WriteFailed?
  }

  // The first namespace of the list that is in the set.
  ghost predicate IsFirst(ns: string, failing: set<string>, targets: seq<string>) {
    exists i :: 0 <= i < |targets| && targets[i] == ns && ns in failing
      && forall j :: 0 <= j < i ==> targets[j] !in failing
  }

  // For any set of failing targets: every other target carries the desired payload, a failing target and what is
  // no target keep theirs, the namespace reported is the first failing one in list order, and the run ends as
  // SecretWriteFailed exactly when a target failed.
  lemma RunUnderFailures(env: Env, run: Run, cert: Certificate, template: Secret, c: Circumstances,
                         marksPostWrite: bool)
    requires template.annotations.Keys !! DRIFT_KEYS
    requires NoCollisions(env.lib, run.secrets, cert, template, TargetsOf(cert, c))
    ensures
      var after := Publish(env, run, cert, template, c, marksPostWrite).0.secrets;
      var targets, failing := TargetsOf(cert, c), Failing(env, run.secrets, cert, template, c);
      && (forall ns :: ns in targets && ns !in failing ==>
            ObjectKey(ns, cert.secretName) in after &&
            SamePayload(after[ObjectKey(ns, cert.secretName)], Stamped(env.lib, template),
              Stamped(env.lib, template).annotations.Keys))
      && (forall k: ObjectKey :: k.name != cert.secretName || k.namespace !in targets || k.namespace in failing ==>
            PayloadKept(run.secrets, after, k))
    ensures
      var report := Publish(env, run, cert, template, c, marksPostWrite).1;
      var failing := Failing(env, run.secrets, cert, template, c);
      (report.ending == Marked("SecretWriteFailed") <==> failing != {}) && (report.failed.Some? <==> failing != {})
    ensures
      var report := Publish(env, run, cert, template, c, marksPostWrite).1;
      report.failed.Some? ==>
        IsFirst(report.failed.value, Failing(env, run.secrets, cert, template, c), TargetsOf(cert, c))
  {
    hide FanOut, WriteTo, Stamped, EndMarked, ClearCert, SetCondition, SameButMarkers, PayloadKept, SamePayload,
      NoCollisions, TargetsOf, Agree;
    var targets := TargetsOf(cert, c);
    FanOutUnderFailures(env.lib, run.secrets, cert, template, targets, c.faults.writes);
    var (secrets, results) := FanOut(env.lib, run.secrets, cert, template, targets, c.faults.writes);
    var failing := Failing(env, run.secrets, cert, template, c);
    assert failing == set ns | ns in targets
      && WriteTo(env.lib, run.secrets, cert, template, ns, c.faults.writes).1.WriteFailed?;
    var report := Publish(env, run, cert, template, c, marksPostWrite).1;
    assert report.failed == FirstFailed(targets, results);
    var wrote := run.(secrets := secrets);
    EndKeepsOthers(wrote, cert, "SecretWriteFailed", c);
    EndKeepsOthers(wrote, cert, "SignCRFailed", c);
    EndKeepsOthers(wrote, cert, "Synced", c);
    StampedKeys(env.lib, template);
    var after := Publish(env, run, cert, template, c, marksPostWrite).0;
    assert SameButMarkers(secrets, after.secrets, cert.Own()) by {
      PublishMarks(env, run, cert, template, c, marksPostWrite);
    }
    forall k: ObjectKey | k.name != cert.secretName || k.namespace !in targets || k.namespace in failing
      ensures PayloadKept(run.secrets, after.secrets, k)
    {
      assert k.name == cert.secretName ==> k == ObjectKey(k.namespace, cert.secretName);
      MarkersKeepPayload(run.secrets, secrets, after.secrets, cert.Own(), k);
    }
    forall ns | ns in targets && ns !in failing {
      MarkersKeepAnnotations(secrets, after.secrets, cert.Own(), ObjectKey(ns, cert.secretName),
        Stamped(env.lib, template),
                             Stamped(env.lib, template).annotations.Keys);
    }
    assert "SignCRFailed"[1] != "SecretWriteFailed"[1];
  }

  lemma PublishMarks(env: Env, run: Run, cert: Certificate, template: Secret, c: Circumstances, marksPostWrite: bool)
    ensures SameButMarkers(FanOut(env.lib, run.secrets, cert, template, TargetsOf(cert, c), c.faults.writes).0,
                           Publish(env, run, cert, template, c, marksPostWrite).0.secrets, cert.Own())
  {
    hide FanOut, EndMarked, ClearCert, SameButMarkers, TargetsOf;
    var targets := TargetsOf(cert, c);
    FanOutAt(env.lib, run.secrets, cert, template, targets, c.faults.writes);
    var wrote := run.(secrets := FanOut(env.lib, run.secrets, cert, template, targets, c.faults.writes).0);
    EndKeepsOthers(wrote, cert, "SecretWriteFailed", c);
    EndKeepsOthers(wrote, cert, "SignCRFailed", c);
    EndKeepsOthers(wrote, cert, "Synced", c);
  }

  lemma StampedKeys(lib: Crypto, template: Secret)
    requires template.annotations.Keys !! DRIFT_KEYS
    ensures Stamped(lib, template).annotations.Keys !! DRIFT_KEYS
  {
  }

  /******* The whole reconcile *******/

  // Markers do not decide what a write does.
  lemma MarkersKeepUpToDate(lib: Crypto, before: Secret, after: Secret, desired: Secret)
    requires after.(annotations := Unmarked(after.annotations)) == before.(annotations := Unmarked(before.annotations))
    requires desired.annotations.Keys !! DRIFT_KEYS
    ensures UpToDate(lib, after, desired) <==> UpToDate(lib, before, desired)
  {
    hide DataPreimage, Unmarked;
    forall k | k !in DRIFT_KEYS ensures Lookup(after.annotations, k) == Lookup(before.annotations, k) {
      UnmarkedLookup(after.annotations, before.annotations, k);
    }
  }

  lemma MarkersKeepFailing(env: Env, before: Store, after: Store, own: ObjectKey, cert: Certificate, template: Secret,
                           c: Circumstances)
    requires SameButMarkers(before, after, own) && template.annotations.Keys !! DRIFT_KEYS
    ensures Failing(env, after, cert, template, c) == Failing(env, before, cert, template, c)
  {
    hide UpToDate, Unmarked, Stamped, TargetsOf;
    forall ns
      ensures WriteTo(env.lib, after, cert, template, ns, c.faults.writes).1
        == WriteTo(env.lib, before, cert, template, ns, c.faults.writes).1
    {
      var key, desired := ObjectKey(ns, cert.secretName), Stamped(env.lib, Desired(cert, template, ns));
      StampedKeys(env.lib, Desired(cert, template, ns));
      if key in before {
        MarkersKeepUpToDate(env.lib, before[key], after[key], desired);
      }
    }
  }

  lemma SoftKeepsPayload(run: Run, cert: Certificate, outcome: Outcome, c: Circumstances)
    ensures SameButMarkers(run.secrets, SoftMarked(run, cert, outcome, c).secrets, cert.Own())
  {
    hide SameButMarkers, Mark;
    SameStore(run.secrets, cert.Own());
    MarkProperties(run.secrets, cert.Own(), "KeystoreBuildFailed", c.softMessage, c.now, c.faults.softMark.secret);
    MarkProperties(run.secrets, cert.Own(), "KeystoreSkipped", c.softMessage, c.now, c.faults.softMark.secret);
  }

  lemma MarkersKeepNoCollisions(lib: Crypto, before: Store, after: Store, own: ObjectKey, cert: Certificate,
                                template: Secret, targets: seq<string>)
    requires SameButMarkers(before, after, own) && NoCollisions(lib, before, cert, template, targets)
    ensures NoCollisions(lib, after, cert, template, targets)
  {
    hide Unmarked, NoCollision;
    forall k | k in after ensures k in before && after[k].data == before[k].data {
    }
  }

  lemma MarkersThenPayload(before: Store, between: Store, after: Store, own: ObjectKey, k: ObjectKey)
    requires SameButMarkers(before, between, own) && PayloadKept(between, after, k)
    ensures PayloadKept(before, after, k)
  {
    hide Unmarked;
  }

  // The run gets as far as writing.
  ghost predicate Publishes(env: Env, secrets: Store, i: Input)
    requires AssembledOf(env, i).Some?
  {
    && !i.c.faults.readOwn
    && DataVerified(env, TemplateOf(env, secrets, i, AssembledOf(env, i).value).data)
    && !(IsClusterKind(i.cert.issuerKind) && i.c.namespaces.None?)
  }

  lemma ReasonsDiffer()
    ensures "SecretWriteFailed" !in ["SecretReadFailed", "SecretVerifyFailed", "NamespaceListFailed"]
  {
    assert "SecretWriteFailed"[6] == 'W' && "SecretReadFailed"[6] == 'R' && "SecretVerifyFailed"[6] == 'V';
  }

  // What became of the Secrets that were there before the run.
  ghost predicate PublishedUnder(env: Env, before: Store, after: Store, cert: Certificate, template: Secret,
                                 c: Circumstances) {
    var targets, failing, d := TargetsOf(cert, c), Failing(env, before, cert, template, c), Stamped(env.lib, template);
    && (forall ns :: ns in targets && ns !in failing ==>
          ObjectKey(ns, cert.secretName) in after
            && SamePayload(after[ObjectKey(ns, cert.secretName)], d, d.annotations.Keys))
    && (forall k: ObjectKey :: k.name != cert.secretName || k.namespace !in targets || k.namespace in failing ==>
          PayloadKept(before, after, k))
  }

  lemma DeliverUnderFailures(env: Env, run: Run, cert: Certificate, template: Secret, outcome: Outcome,
                             c: Circumstances, marks: bool)
    requires template.annotations.Keys !! DRIFT_KEYS
    requires NoCollisions(env.lib, run.secrets, cert, template, TargetsOf(cert, c))
    ensures
      var (run', report) := Publish(env, SoftMarked(run, cert, outcome, c), cert, template, c, marks);
      var failing := Failing(env, run.secrets, cert, template, c);
      && PublishedUnder(env, run.secrets, run'.secrets, cert, template, c)
      && (report.ending == Marked("SecretWriteFailed") <==> failing != {})
      && (report.failed.Some? <==> failing != {})
      && (report.failed.Some? ==> IsFirst(report.failed.value, failing, TargetsOf(cert, c)))
  {
    hide SoftMarked, Publish, NoCollisions, TargetsOf, SameButMarkers, PayloadKept, SamePayload, Failing, Stamped,
      IsFirst;
    var soft := SoftMarked(run, cert, outcome, c);
    SoftKeepsPayload(run, cert, outcome, c);
    MarkersKeepNoCollisions(env.lib, run.secrets, soft.secrets, cert.Own(), cert, template, TargetsOf(cert, c));
    RunUnderFailures(env, soft, cert, template, c, marks);
    MarkersKeepFailing(env, run.secrets, soft.secrets, cert.Own(), cert, template, c);
    var after := Publish(env, soft, cert, template, c, marks).0.secrets;
    forall k: ObjectKey | PayloadKept(soft.secrets, after, k) ensures PayloadKept(run.secrets, after, k) {
      MarkersThenPayload(run.secrets, soft.secrets, after, cert.Own(), k);
    }
  }

  // One reconcile from any store: if it gets to writing, every target that does not fail carries its payload,
  // everything else keeps its own, and the first failing namespace is reported; it ends SecretWriteFailed exactly when
  // it got there and a target failed. A mark for a missing key store on the way changes none of this.
  lemma StepUnderFailures(env: Env, w: World, i: Input)
    requires AssembledOf(env, i).Some? && PlainExtras(i)
    requires NoCollisions(env.lib, w.secrets, i.cert, TemplateOf(env, w.secrets, i, AssembledOf(env, i).value),
      TargetsOf(i.cert, i.c))
    ensures
      var template := TemplateOf(env, w.secrets, i, AssembledOf(env, i).value);
      var (w', report) := Step(env, w, i);
      var failing := Failing(env, w.secrets, i.cert, template, i.c);
      && (Publishes(env, w.secrets, i) ==> PublishedUnder(env, w.secrets, w'.secrets, i.cert, template, i.c))
      && (!Publishes(env, w.secrets, i) ==> forall k :: PayloadKept(w.secrets, w'.secrets, k))
      && (report.ending == Marked("SecretWriteFailed") <==> Publishes(env, w.secrets, i) && failing != {})
      && (report.failed.Some? <==> Publishes(env, w.secrets, i) && failing != {})
      && (report.failed.Some? ==> IsFirst(report.failed.value, failing, TargetsOf(i.cert, i.c)))
      && (report.ending.Synced? ==> Publishes(env, w.secrets, i) && failing == {})
  {
    hide AssembledOf, Reconciled, KeystoreOutcome, DataVerified, NoCollisions, TargetsOf, Publish, SoftMarked,
      WithKeystore, PublishedUnder, PayloadKept, Failing, EndMarked, SameButMarkers, IsFirst, IsClusterKind,
      PlainExtras;
    var asm := AssembledOf(env, i).value;
    var conditions := StatusOf(w.status, CertKey(i.cert));
    var run := Run(w.secrets, conditions, conditions);
    ReconciledCases(env, run, i);
    TemplateUnmarked(env, w.secrets, i);
    var outcome := KeystoreOutcome(env, w.secrets, i.cert, asm, i.c.chance);
    var template := TemplateOf(env, w.secrets, i, asm);
    ReasonsDiffer();
    if Publishes(env, w.secrets, i) {
      DeliverUnderFailures(env, run, i.cert, template, outcome, i.c, i.Manage?);
    } else {
      NotPublished(env, run, i.cert, asm, i.c, i.Manage?);
    }
  }

  // A run that does not get to writing leaves at most markers behind.
  lemma NotPublished(env: Env, run: Run, cert: Certificate, asm: Assembled, c: Circumstances, marks: bool)
    requires
      || c.faults.readOwn
      || !DataVerified(env, WithKeystore(asm.template, KeystoreOutcome(env, run.secrets, cert, asm, c.chance)).data)
      || (IsClusterKind(cert.issuerKind) && c.namespaces.None?)
    ensures
      var (run', report) := Deliver(env, run, cert, asm, c, marks);
      && report.ending in [Marked("SecretReadFailed"), Marked("SecretVerifyFailed"), Marked("NamespaceListFailed")]
      && report.failed.None?
      && forall k :: PayloadKept(run.secrets, run'.secrets, k)
  {
    hide KeystoreOutcome, DataVerified, SoftMarked, WithKeystore, EndMarked, SameButMarkers, PayloadKept, IsClusterKind;
    var soft := SoftMarked(run, cert, KeystoreOutcome(env, run.secrets, cert, asm, c.chance), c);
    SoftKeepsPayload(run, cert, KeystoreOutcome(env, run.secrets, cert, asm, c.chance), c);
    EndKeepsOthers(run, cert, "SecretReadFailed", c);
    EndKeepsOthers(soft, cert, "SecretVerifyFailed", c);
    EndKeepsOthers(soft, cert, "NamespaceListFailed", c);
    SameStore(run.secrets, cert.Own());
    var after := Deliver(env, run, cert, asm, c, marks).0.secrets;
    forall k: ObjectKey ensures PayloadKept(run.secrets, after, k) {
      if c.faults.readOwn {
        MarkersAlone(run.secrets, after, cert.Own(), k);
      } else {
        MarkersAlone(soft.secrets, after, cert.Own(), k);
        MarkersThenPayload(run.secrets, soft.secrets, after, cert.Own(), k);
      }
    }
  }

  lemma MarkersAlone(before: Store, after: Store, own: ObjectKey, k: ObjectKey)
    requires SameButMarkers(before, after, own)
    ensures PayloadKept(before, after, k)
  {
    hide Unmarked;
  }

  /******* Owner references *******/

  // What a Secret this run created or patched has for owners: in the Certificate's own namespace the Certificate and
  // nothing else; elsewhere what it had, so none where it was not there.
  ghost predicate OwnedAfter(before: Store, after: Store, cert: Certificate, ns: string) {
    var key := ObjectKey(ns, cert.secretName);
    && key in after
    && after[key].owners ==
         if ns == cert.namespace then [OwnerRef(cert.name, cert.uid)]
         else if key in before then before[key].owners else []
  }

  lemma WriteOwners(lib: Crypto, store: Store, cert: Certificate, template: Secret, ns: string,
                    faults: string -> WriteFault)
    ensures
      var (after, result) := WriteTo(lib, store, cert, template, ns, faults);
      result.Created? || result.Patched? ==> OwnedAfter(store, after, cert, ns)
  {
    hide DataPreimage, UpToDate;
  }

  lemma MarkersKeepOwned(before: Store, between: Store, after: Store, own: ObjectKey, cert: Certificate, ns: string)
    ensures SameButMarkers(between, after, own) && OwnedAfter(before, between, cert, ns) ==>
      OwnedAfter(before, after, cert, ns)
    ensures SameButMarkers(before, between, own) && OwnedAfter(between, after, cert, ns) ==>
      OwnedAfter(before, after, cert, ns)
  {
    hide Unmarked;
  }

  ghost predicate AllOwned(before: Store, after: Store, cert: Certificate, report: Report) {
    |report.results| == |report.targets| &&
    forall j :: 0 <= j < |report.results| && (report.results[j].Created? || report.results[j].Patched?) ==>
      OwnedAfter(before, after, cert, report.targets[j])
  }

  lemma PublishOwners(env: Env, run: Run, cert: Certificate, template: Secret, c: Circumstances, marks: bool)
    ensures
      var (run', report) := Publish(env, run, cert, template, c, marks);
      AllOwned(run.secrets, run'.secrets, cert, report)
  {
    hide FanOut, WriteTo, EndMarked, ClearCert, SetCondition, SameButMarkers, OwnedAfter, TargetsOf, Agree;
    var targets := TargetsOf(cert, c);
    FanOutAt(env.lib, run.secrets, cert, template, targets, c.faults.writes);
    var (secrets, results) := FanOut(env.lib, run.secrets, cert, template, targets, c.faults.writes);
    var (run', report) := Publish(env, run, cert, template, c, marks);
    PublishMarks(env, run, cert, template, c, marks);
    forall j | 0 <= j < |results| && (results[j].Created? || results[j].Patched?)
      ensures OwnedAfter(run.secrets, run'.secrets, cert, targets[j])
    {
      assert targets[j] in targets;
      WriteOwners(env.lib, run.secrets, cert, template, targets[j], c.faults.writes);
      var alone := WriteTo(env.lib, run.secrets, cert, template, targets[j], c.faults.writes).0;
      AgreeOwned(run.secrets, alone, secrets, cert, targets[j]);
      MarkersKeepOwned(run.secrets, secrets, run'.secrets, cert.Own(), cert, targets[j]);
    }
  }

  lemma AgreeOwned(before: Store, alone: Store, after: Store, cert: Certificate, ns: string)
    requires OwnedAfter(before, alone, cert, ns) && Agree(after, alone, ObjectKey(ns, cert.secretName))
    ensures OwnedAfter(before, after, cert, ns)
  {
  }

  lemma StepOwners(env: Env, w: World, i: Input)
    ensures
      var (w', report) := Step(env, w, i);
      |report.results| == |report.targets| &&
      forall j :: 0 <= j < |report.results| && (report.results[j].Created? || report.results[j].Patched?) ==>
        OwnedAfter(w.secrets, w'.secrets, i.cert, report.targets[j])
  {
    hide AssembledOf, Reconciled, KeystoreOutcome, DataVerified, TargetsOf, Publish, SoftMarked, WithKeystore,
      EndMarked, SameButMarkers, OwnedAfter, IsClusterKind;
    var conditions := StatusOf(w.status, CertKey(i.cert));
    var run := Run(w.secrets, conditions, conditions);
    ReconciledCases(env, run, i);
    if AssembledOf(env, i).Some? {
      var asm := AssembledOf(env, i).value;
      var outcome := KeystoreOutcome(env, w.secrets, i.cert, asm, i.c.chance);
      var soft, template := SoftMarked(run, i.cert, outcome, i.c), WithKeystore(asm.template, outcome);
      PublishOwners(env, soft, i.cert, template, i.c, i.Manage?);
      SoftKeepsPayload(run, i.cert, outcome, i.c);
      var after := Publish(env, soft, i.cert, template, i.c, i.Manage?).0.secrets;
      forall ns | OwnedAfter(soft.secrets, after, i.cert, ns) ensures OwnedAfter(w.secrets, after, i.cert, ns) {
        MarkersKeepOwned(w.secrets, soft.secrets, after, i.cert.Own(), i.cert, ns);
      }
    }
  }

  /******* What a reconcile never touches *******/

  lemma MarkersElsewhere(before: Store, after: Store, cert: Certificate, k: ObjectKey)
    requires SameButMarkers(before, after, cert.Own()) && k != ObjectKey(cert.namespace, cert.secretName)
    ensures Agree(after, before, k)
  {
    hide Unmarked;
  }

  lemma DeliverTouches(env: Env, run: Run, cert: Certificate, asm: Assembled, c: Circumstances, marks: bool,
                       k: ObjectKey)
    requires k != ObjectKey(cert.namespace, cert.secretName)
    requires k.name == cert.secretName ==> k.namespace !in TargetsOf(cert, c)
    ensures Agree(Deliver(env, run, cert, asm, c, marks).0.secrets, run.secrets, k)
  {
    hide KeystoreOutcome, DataVerified, SoftMarked, WithKeystore, EndMarked, Publish, SameButMarkers, IsClusterKind,
      FanOut, TargetsOf;
    var outcome := KeystoreOutcome(env, run.secrets, cert, asm, c.chance);
    var soft, template := SoftMarked(run, cert, outcome, c), WithKeystore(asm.template, outcome);
    var after := Deliver(env, run, cert, asm, c, marks).0.secrets;
    SoftKeepsPayload(run, cert, outcome, c);
    MarkersElsewhere(run.secrets, soft.secrets, cert, k);
    EndKeepsOthers(run, cert, "SecretReadFailed", c);
    EndKeepsOthers(soft, cert, "SecretVerifyFailed", c);
    EndKeepsOthers(soft, cert, "NamespaceListFailed", c);
    FanOutAt(env.lib, soft.secrets, cert, template, TargetsOf(cert, c), c.faults.writes);
    var written := FanOut(env.lib, soft.secrets, cert, template, TargetsOf(cert, c), c.faults.writes).0;
    PublishMarks(env, soft, cert, template, c, marks);
    if SameButMarkers(written, after, cert.Own()) {
      MarkersElsewhere(written, after, cert, k);
    } else if SameButMarkers(soft.secrets, after, cert.Own()) {
      MarkersElsewhere(soft.secrets, after, cert, k);
    } else {
      MarkersElsewhere(run.secrets, after, cert, k);
    }
  }

  // A run leaves alone every Secret but the one its Certificate names in its own namespace and those of that name in
  // the target namespaces; and every other Certificate's conditions.
  lemma StepTouches(env: Env, w: World, i: Input, k: ObjectKey)
    ensures
      var after := Step(env, w, i).0;
      && (k != ObjectKey(i.cert.namespace, i.cert.secretName)
          && (k.name == i.cert.secretName ==> k.namespace !in TargetsOf(i.cert, i.c)) ==>
            (k in after.secrets <==> k in w.secrets) && (k in w.secrets ==> after.secrets[k] == w.secrets[k]))
      && (k != ObjectKey(i.cert.namespace, i.cert.name) ==> StatusOf(after.status, k) == StatusOf(w.status, k))
  {
    hide AssembledOf, Reconciled, Deliver, TargetsOf, EndMarked, SameButMarkers;
    var conditions := StatusOf(w.status, CertKey(i.cert));
    var run := Run(w.secrets, conditions, conditions);
    ReconciledCases(env, run, i);
    if k != ObjectKey(i.cert.namespace, i.cert.secretName)
      && (k.name == i.cert.secretName ==> k.namespace !in TargetsOf(i.cert, i.c)) {
      if AssembledOf(env, i).Some? {
        DeliverTouches(env, run, i.cert, AssembledOf(env, i).value, i.c, i.Manage?, k);
      } else {
        var report := Reconciled(env, run, i).1;
        if report.ending.Marked? {
          EndKeepsOthers(run, i.cert, report.ending.reason, i.c);
          MarkersElsewhere(run.secrets, EndMarked(run, i.cert, report.ending.reason, i.c).secrets, i.cert, k);
        }
      }
    }
  }
}
