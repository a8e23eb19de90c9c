// When a run delivers its template, when it finds nothing to do, and when what is there is stale.
module Deliveries {
  import opened Common
  import opened Canonical
  import opened Library
  import opened Chain
  import opened Objects
  import opened Keystore
  import opened SecretStore
  import opened Reconcile
  import opened FanOutRuns

  ghost predicate FaultFree(f: Faults) {
    && !f.readOwn && !f.postWrite && !f.ready
    && (forall ns :: f.writes(ns).NoFault?)
    && f.softMark == f.mark == f.clear == MarkFault(NoFault, false)
  }

  // What rand.Read delivers is not empty.
  ghost predicate ProperChance(chance: Chance) {
    chance.random.Some? ==> chance.random.value != []
  }

  // Every target carries the template as it is now.
  ghost predicate Delivered(lib: Crypto, secrets: Store, cert: Certificate, template: Secret, targets: seq<string>) {
    forall ns :: ns in targets ==>
      var key := ObjectKey(ns, cert.secretName);
      && key in secrets && secrets[key].data == template.data
      && UpToDate(lib, secrets[key], Stamped(lib, Desired(cert, template, ns)))
  }

  lemma FanOutDelivers(lib: Crypto, store: Store, cert: Certificate, template: Secret, targets: seq<string>,
                       faults: string -> WriteFault)
    requires NoCollisions(lib, store, cert, template, targets)
    requires |FanOut(lib, store, cert, template, targets, faults).1| == |targets|
    requires FirstFailed(targets, FanOut(lib, store, cert, template, targets, faults).1).None?
    ensures Delivered(lib, FanOut(lib, store, cert, template, targets, faults).0, cert, template, targets)
  {
    hide UpToDate, DataPreimage, FanOut, Write, Stamped, NoCollision;
    var (store', results) := FanOut(lib, store, cert, template, targets, faults);
    FanOutAt(lib, store, cert, template, targets, faults);
    FirstFailedIsFirst(targets, results);
    forall ns | ns in targets
      ensures
        var key := ObjectKey(ns, cert.secretName);
        && key in store' && store'[key].data == template.data
        && UpToDate(lib, store'[key], Stamped(lib, Desired(cert, template, ns)))
    {
      var i :| 0 <= i < |targets| && targets[i] == ns;
      assert !results[i].WriteFailed?;
      TargetWritten(lib, store, cert, template, ns, faults);
      WrittenIsUpToDate(lib, store, ObjectKey(ns, cert.secretName), Desired(cert, template, ns), faults(ns));
      StampedData(lib, template);
    }
  }

  lemma StampedData(lib: Crypto, template: Secret)
    ensures Stamped(lib, template).data == template.data
  {
    hide DataPreimage;
  }

  // Markers do not make a Secret stale, as the template has none.
  lemma MarkersKeepDelivered(lib: Crypto, before: Store, after: Store, own: ObjectKey, cert: Certificate,
                             template: Secret, targets: seq<string>)
    requires Delivered(lib, before, cert, template, targets) && SameButMarkers(before, after, own)
    requires template.annotations.Keys !! DRIFT_KEYS
    ensures Delivered(lib, after, cert, template, targets)
  {
    hide UpToDate, Unmarked, Stamped;
    forall ns | ns in targets
      ensures
        var key := ObjectKey(ns, cert.secretName);
        && key in after && after[key].data == template.data
        && UpToDate(lib, after[key], Stamped(lib, Desired(cert, template, ns)))
    {
      var key := ObjectKey(ns, cert.secretName);
      assert key in before;
      StampedKeys(lib, Desired(cert, template, ns));
      MarkersKeepUpToDate(lib, before[key], after[key], Stamped(lib, Desired(cert, template, ns)));
    }
  }

  // Nothing to do, nothing done.
  lemma {:induction false} FanOutIdle(lib: Crypto, store: Store, cert: Certificate, template: Secret,
                                      targets: seq<string>, faults: string -> WriteFault)
    requires Delivered(lib, store, cert, template, targets)
    requires forall ns :: ns in targets ==> faults(ns).NoFault?
    ensures
      var (store', results) := FanOut(lib, store, cert, template, targets, faults);
      store' == store && |results| == |targets| && forall i :: 0 <= i < |results| ==> results[i].Unchanged?
  {
    hide UpToDate, Stamped;
    if targets != [] {
      var n := |targets| - 1;
      FanOutIdle(lib, store, cert, template, targets[..n], faults);
      assert targets[n] in targets;
    }
  }

  ghost function Template(env: Env, secrets: Store, cert: Certificate, asm: Assembled, c: Circumstances): Secret {
    WithKeystore(asm.template, KeystoreOutcome(env, secrets, cert, asm, c.chance))
  }

  // A synced fan-out delivered its template and left no marker.
  lemma PublishDelivers(env: Env, run: Run, cert: Certificate, template: Secret, c: Circumstances, marks: bool)
    requires Publish(env, run, cert, template, c, marks).1.ending.Synced? && c.faults.clear.secret.NoFault?
    requires template.annotations.Keys !! DRIFT_KEYS
    requires NoCollisions(env.lib, run.secrets, cert, template, TargetsOf(cert, c))
    ensures
      var after := Publish(env, run, cert, template, c, marks).0.secrets;
      && Delivered(env.lib, after, cert, template, TargetsOf(cert, c))
      && (cert.Own() in after ==> DriftReason !in after[cert.Own()].annotations)
  {
    hide Delivered, FanOut, NoCollisions, MarkCert, TargetsOf, SameButMarkers;
    var targets := TargetsOf(cert, c);
    FanOutAt(env.lib, run.secrets, cert, template, targets, c.faults.writes);
    FanOutDelivers(env.lib, run.secrets, cert, template, targets, c.faults.writes);
    var secrets := FanOut(env.lib, run.secrets, cert, template, targets, c.faults.writes).0;
    ClearProperties(secrets, cert.Own(), NoFault);
    MarkersKeepDelivered(env.lib, secrets, Clear(secrets, cert.Own(), NoFault).0, cert.Own(), cert, template, targets);
  }

  // So did a synced run, whether or not it had a key store.
  lemma SyncedDelivers(env: Env, run: Run, cert: Certificate, asm: Assembled, c: Circumstances, marks: bool)
    requires Deliver(env, run, cert, asm, c, marks).1.ending.Synced? && c.faults.clear.secret.NoFault?
    requires asm.template.annotations.Keys !! DRIFT_KEYS
    requires NoCollisions(env.lib, run.secrets, cert, Template(env, run.secrets, cert, asm, c), TargetsOf(cert, c))
    ensures
      var template, after := Template(env, run.secrets, cert, asm, c), Deliver(env, run, cert, asm, c, marks).0.secrets;
      && DataVerified(env, template.data)
      && !(IsClusterKind(cert.issuerKind) && c.namespaces.None?)
      && Delivered(env.lib, after, cert, template, TargetsOf(cert, c))
      && (cert.Own() in after ==> DriftReason !in after[cert.Own()].annotations)
  {
    hide DataVerified, KeystoreOutcome, Delivered, Publish, NoCollisions, MarkCert, TargetsOf, SoftMarked,
      SameButMarkers, IsClusterKind;
    var outcome, template :=
      KeystoreOutcome(env, run.secrets, cert, asm, c.chance), Template(env, run.secrets, cert, asm, c);
    var soft := SoftMarked(run, cert, outcome, c);
    SoftKeepsPayload(run, cert, outcome, c);
    MarkersKeepNoCollisions(env.lib, run.secrets, soft.secrets, cert.Own(), cert, template, TargetsOf(cert, c));
    PublishDelivers(env, soft, cert, template, c, marks);
  }

  // As many writes as targets, and none of them wrote.
  ghost predicate Quiet(report: Report, targets: seq<string>) {
    |report.results| == |targets| && forall j :: 0 <= j < |report.results| ==> report.results[j].Unchanged?
  }

  // The run creates and patches no Secret: not to mark a missing key store, not in the fan-out, not to clear a mark.
  // Each of these calls shows in the store.
  ghost predicate Untouched(env: Env, run: Run, cert: Certificate, asm: Assembled, c: Circumstances, marks: bool) {
    var soft := SoftMarked(run, cert, KeystoreOutcome(env, run.secrets, cert, asm, c.chance), c);
    var (run', report) := Deliver(env, run, cert, asm, c, marks);
    soft.secrets == run.secrets && Quiet(report, TargetsOf(cert, c)) && run'.secrets == run.secrets
  }

  // Where the template is delivered already, the fan-out writes nothing. No Secret is touched at all if and only if
  // there is a key store, or no Secret in the own namespace to say that there is none.
  lemma IdleRun(env: Env, run: Run, cert: Certificate, asm: Assembled, c: Circumstances, marks: bool)
    requires FaultFree(c.faults) && asm.template.annotations.Keys !! DRIFT_KEYS
    requires
      var template := Template(env, run.secrets, cert, asm, c);
      && DataVerified(env, template.data)
      && Delivered(env.lib, run.secrets, cert, template, TargetsOf(cert, c))
    requires !(IsClusterKind(cert.issuerKind) && c.namespaces.None?)
    requires cert.Own() in run.secrets ==> DriftReason !in run.secrets[cert.Own()].annotations
    ensures
      var (run', report) := Deliver(env, run, cert, asm, c, marks);
      && report.ending.Synced? && Quiet(report, TargetsOf(cert, c))
      && (Untouched(env, run, cert, asm, c, marks) <==>
            KeystoreOutcome(env, run.secrets, cert, asm, c.chance).Ready? || cert.Own() !in run.secrets)
  {
    hide DataVerified, KeystoreOutcome, Delivered, FanOut, MarkCert, TargetsOf, SameButMarkers, IsClusterKind,
      SoftMarked, Clear;
    var outcome, template :=
      KeystoreOutcome(env, run.secrets, cert, asm, c.chance), Template(env, run.secrets, cert, asm, c);
    var soft := SoftMarked(run, cert, outcome, c);
    SoftKeepsPayload(run, cert, outcome, c);
    MarkersKeepDelivered(env.lib, run.secrets, soft.secrets, cert.Own(), cert, template, TargetsOf(cert, c));
    FanOutIdle(env.lib, soft.secrets, cert, template, TargetsOf(cert, c), c.faults.writes);
    FirstFailedIsFirst(TargetsOf(cert, c),
      FanOut(env.lib, soft.secrets, cert, template, TargetsOf(cert, c), c.faults.writes).1);
    SoftMarkShows(run, cert, outcome, c);
    MarkersShow(soft.secrets, cert.Own(), "", "", "");
  }

  // A missing key store is marked on the own Secret, if there is one.
  lemma SoftMarkShows(run: Run, cert: Certificate, outcome: Outcome, c: Circumstances)
    requires c.faults.softMark.secret.NoFault?
    requires cert.Own() in run.secrets ==> DriftReason !in run.secrets[cert.Own()].annotations
    ensures SoftMarked(run, cert, outcome, c).secrets != run.secrets <==> !outcome.Ready? && cert.Own() in run.secrets
  {
    MarkersShow(run.secrets, cert.Own(), "KeystoreBuildFailed", c.softMessage, c.now);
    MarkersShow(run.secrets, cert.Own(), "KeystoreSkipped", c.softMessage, c.now);
  }

  /******* The key store of the next run *******/

  // The same Secret at another time.
  function AtTime(asm: Assembled, now: string): Assembled {
    asm.(template := asm.template.(annotations := asm.template.annotations[LastSyncTime := now]))
  }

  // The assembled Secret has no key store yet.
  ghost predicate PlainData(data: Data) {
    Lookup(data, KEYSTORE_JKS) == "" && Lookup(data, KEYSTORE_PASSWORD) == ""
  }

  // With its own namespace among the targets, the next run of the same source reuses the stored key store; where there
  // is none, it builds as if there were no Secret.
  lemma OutcomeDelivered(env: Env, secrets: Store, secrets': Store, cert: Certificate, asm: Assembled, c: Circumstances,
                         chance: Chance)
    requires Readable(env.formats) && ProperChance(c.chance)
    requires Lookup(asm.template.annotations, SourceHashKey) != "" && PlainData(asm.template.data)
    requires Delivered(env.lib, secrets', cert, Template(env, secrets, cert, asm, c), TargetsOf(cert, c))
    requires cert.namespace in TargetsOf(cert, c)
    ensures
      var first, next :=
        KeystoreOutcome(env, secrets, cert, asm, c.chance), KeystoreOutcome(env, secrets', cert, asm, chance);
      next == if first.Ready? then first
              else Built(env.lib, env.formats, asm.leaf, asm.key, asm.chain, None, chance)
  {
    hide JksEntries, P12Content, DataPreimage, TargetsOf, Stamped, WithKeystore;
    var outcome := KeystoreOutcome(env, secrets, cert, asm, c.chance);
    var stored, hash := secrets'[cert.Own()], Lookup(asm.template.annotations, SourceHashKey);
    if outcome.Ready? {
      OutcomeNotEmpty(env, secrets, cert, asm, c.chance);
      KeystoreFields(asm.template, outcome);
      StampedSourceHash(env.lib, cert, asm.template, outcome);
      assert Reusable(Some(stored), hash);
    } else {
      NoKeystoreAdded(asm.template, outcome);
      assert !Reusable(Some(stored), hash);
    }
  }

  // What a build makes of a Secret does not depend on its markers.
  lemma OutcomeKept(env: Env, secrets: Store, secrets': Store, cert: Certificate, asm: Assembled, chance: Chance)
    requires PayloadKept(secrets, secrets', cert.Own())
    ensures KeystoreOutcome(env, secrets', cert, asm, chance) == KeystoreOutcome(env, secrets, cert, asm, chance)
  {
    hide JksEntries, P12Content, Unmarked;
    if cert.Own() in secrets {
      var a, b := secrets[cert.Own()], secrets'[cert.Own()];
      assert a.data == b.data;
      UnmarkedLookup(a.annotations, b.annotations, SourceHashKey);
    }
  }

  lemma StampedSourceHash(lib: Crypto, cert: Certificate, template: Secret, outcome: Outcome)
    ensures Lookup(Stamped(lib, Desired(cert, WithKeystore(template, outcome), cert.namespace)).annotations,
      SourceHashKey)
      == Lookup(template.annotations, SourceHashKey)
  {
    hide DataPreimage;
  }

  lemma OutcomeNotEmpty(env: Env, secrets: Store, cert: Certificate, asm: Assembled, chance: Chance)
    requires Readable(env.formats) && ProperChance(chance)
    requires KeystoreOutcome(env, secrets, cert, asm, chance).Ready?
    ensures
      var outcome := KeystoreOutcome(env, secrets, cert, asm, chance);
      outcome.jks != "" && outcome.p12 != "" && outcome.password != ""
  {
    hide Built, JksEntries, P12Content;
    var existing := Existing(secrets, cert.Own());
    if !Reusable(existing, Lookup(asm.template.annotations, SourceHashKey)) {
      BuiltOpens(env.lib, env.formats, asm.leaf, asm.key, asm.chain, existing, chance);
    }
  }

  ghost function FreshBuild(env: Env, secrets: Store, cert: Certificate, asm: Assembled, chance: Chance): Outcome {
    Built(env.lib, env.formats, asm.leaf, asm.key, asm.chain, Existing(secrets, cert.Own()), chance)
  }

  // What the next run builds where the first had no key store to leave behind.
  ghost function NextBuild(env: Env, secrets: Store, cert: Certificate, asm: Assembled, targets: seq<string>,
                           chance: Chance): Outcome
  {
    var existing := if cert.namespace in targets then None else Existing(secrets, cert.Own());
    Built(env.lib, env.formats, asm.leaf, asm.key, asm.chain, existing, chance)
  }

  // The Secret in the own namespace holds a key store of this source.
  predicate Kept(secrets: Store, cert: Certificate, asm: Assembled) {
    Reusable(Existing(secrets, cert.Own()), Lookup(asm.template.annotations, SourceHashKey))
  }

  // Both runs have the same key store, or both have none.
  ghost predicate Steady(env: Env, secrets: Store, cert: Certificate, asm: Assembled, targets: seq<string>,
                         chance: Chance, chance': Chance)
  {
    || Kept(secrets, cert, asm)
    || if KeystoreOutcome(env, secrets, cert, asm, chance).Ready? then cert.namespace in targets
       else !NextBuild(env, secrets, cert, asm, targets, chance').Ready?
  }

  lemma NextOutcome(env: Env, secrets: Store, secrets': Store, cert: Certificate, asm: Assembled, c: Circumstances,
                    chance: Chance)
    requires Readable(env.formats) && ProperChance(c.chance)
    requires Lookup(asm.template.annotations, SourceHashKey) != "" && PlainData(asm.template.data)
    requires Delivered(env.lib, secrets', cert, Template(env, secrets, cert, asm, c), TargetsOf(cert, c))
    requires cert.namespace !in TargetsOf(cert, c) ==> PayloadKept(secrets, secrets', cert.Own())
    ensures
      var first, next :=
        KeystoreOutcome(env, secrets, cert, asm, c.chance), KeystoreOutcome(env, secrets', cert, asm, chance);
      && (Kept(secrets, cert, asm) ==> first.Ready?)
      && (first.Ready? ==> first.jks != "")
      && next ==
           if Kept(secrets, cert, asm) || (first.Ready? && cert.namespace in TargetsOf(cert, c)) then first
           else if first.Ready? then FreshBuild(env, secrets, cert, asm, chance)
           else NextBuild(env, secrets, cert, asm, TargetsOf(cert, c), chance)
  {
    hide JksEntries, P12Content, TargetsOf, Delivered, PayloadKept, Built;
    if KeystoreOutcome(env, secrets, cert, asm, c.chance).Ready? {
      OutcomeNotEmpty(env, secrets, cert, asm, c.chance);
    }
    if cert.namespace in TargetsOf(cert, c) {
      OutcomeDelivered(env, secrets, secrets', cert, asm, c, chance);
    } else {
      OutcomeKept(env, secrets, secrets', cert, asm, chance);
    }
  }

  // Two outcomes that differ, one of them a key store, make the Secrets differ.
  lemma TemplatesDiffer(template: Secret, template': Secret, first: Outcome, next: Outcome)
    requires first != next && (first.Ready? || next.Ready?)
    requires (first.Ready? ==> first.jks != "") && (next.Ready? ==> next.jks != "")
    requires template.data == template'.data && PlainData(template.data)
    ensures WithKeystore(template, first).data != WithKeystore(template', next).data
  {
    hide WithKeystore;
    if first.Ready? {
      KeystoreFields(template, first);
    } else {
      NoKeystoreAdded(template, first);
    }
    if next.Ready? {
      KeystoreFields(template', next);
    } else {
      NoKeystoreAdded(template', next);
    }
  }

  // Where the Secret of one run verified, that of another with a fresh build beside the same certificate and key does.
  lemma FreshVerified(env: Env, asm: Assembled, asm': Assembled, first: Outcome, existing: Option<Secret>,
                      chance: Chance)
    requires Readable(env.formats) && DataVerified(env, WithKeystore(asm.template, first).data)
    requires asm'.template.data == asm.template.data && PlainData(asm.template.data)
    ensures
      var next := Built(env.lib, env.formats, asm.leaf, asm.key, asm.chain, existing, chance);
      DataVerified(env, WithKeystore(asm'.template, next).data) && (next.Ready? ==> next.jks != "")
  {
    hide JksEntries, P12Content, WithKeystore, LeadingCert, PrivateKeyParses;
    var next := Built(env.lib, env.formats, asm.leaf, asm.key, asm.chain, existing, chance);
    KeystoreKeepsTls(asm.template, first);
    KeystoreKeepsTls(asm'.template, next);
    if next.Ready? {
      KeystoreFields(asm'.template, next);
      BuiltOpens(env.lib, env.formats, asm.leaf, asm.key, asm.chain, existing, chance);
    } else {
      NoKeystoreAdded(asm'.template, next);
    }
  }

  /******* A template that changed *******/

  // It is not what was delivered: another time, or other data.
  ghost predicate Changed(lib: Crypto, template: Secret, template': Secret) {
    && LastSyncTime in template.annotations && LastSyncTime in template'.annotations
    && (template.annotations[LastSyncTime] != template'.annotations[LastSyncTime]
        || (template.data != template'.data && NoCollision(lib, template.data, template'.data)))
  }

  lemma ChangedIsStale(lib: Crypto, s: Secret, cert: Certificate, template: Secret, template': Secret, ns: string)
    requires UpToDate(lib, s, Stamped(lib, Desired(cert, template, ns))) && Changed(lib, template, template')
    ensures !UpToDate(lib, s, Stamped(lib, Desired(cert, template', ns)))
  {
    hide DataPreimage;
    var d, d' := Stamped(lib, Desired(cert, template, ns)), Stamped(lib, Desired(cert, template', ns));
    assert LastSyncTime in d.annotations && LastSyncTime in d'.annotations;
    if lib.digest(DataPreimage(template.data)) == lib.digest(DataPreimage(template'.data))
      && template.data != template'.data {
      assert DataPreimage(template.data) != DataPreimage(template'.data) by {
        if DataPreimage(template.data) == DataPreimage(template'.data) {
          DataPreimageInjective(template.data, template'.data);
        }
      }
    }
  }

  lemma {:induction false} FanOutFirst(lib: Crypto, store: Store, cert: Certificate, template: Secret,
                                       targets: seq<string>, faults: string -> WriteFault)
    requires targets != []
    ensures
      var results := FanOut(lib, store, cert, template, targets, faults).1;
      results != [] && results[0] == WriteTo(lib, store, cert, template, targets[0], faults).1
  {
    hide WriteTo;
    var n := |targets| - 1;
    if n > 0 {
      FanOutFirst(lib, store, cert, template, targets[..n], faults);
    } else {
      assert targets[..n] == [];
    }
  }

  // All targets are there and stale: the first is patched, and where none is listed twice every one of them.
  ghost predicate Rewritten(report: Report, targets: seq<string>) {
    && |report.results| == |targets| && report.results != [] && report.results[0].Patched?
    && (Distinct(targets) ==> forall j :: 0 <= j < |report.results| ==> report.results[j].Patched?)
  }

  lemma FanOutStale(lib: Crypto, store: Store, cert: Certificate, template: Secret, template': Secret,
                    targets: seq<string>, faults: string -> WriteFault)
    requires Delivered(lib, store, cert, template, targets) && Changed(lib, template, template') && targets != []
    requires forall ns :: ns in targets ==> faults(ns).NoFault?
    ensures
      var results := FanOut(lib, store, cert, template', targets, faults).1;
      && |results| == |targets| && results[0].Patched?
      && (Distinct(targets) ==> forall j :: 0 <= j < |results| ==> results[j].Patched?)
  {
    hide UpToDate, Stamped, FanOut, Changed;
    FanOutAt(lib, store, cert, template', targets, faults);
    FanOutFirst(lib, store, cert, template', targets, faults);
    forall ns | ns in targets ensures WriteTo(lib, store, cert, template', ns, faults).1.Patched? {
      var key := ObjectKey(ns, cert.secretName);
      assert key in store;
      ChangedIsStale(lib, store[key], cert, template, template', ns);
    }
    if Distinct(targets) {
      FanOutDistinct(lib, store, cert, template', targets, faults);
      assert forall j :: 0 <= j < |targets| ==> targets[j] in targets;
    }
  }

  lemma StaleRun(env: Env, run: Run, cert: Certificate, asm: Assembled, template: Secret, c: Circumstances, marks: bool)
    requires FaultFree(c.faults) && template.annotations.Keys !! DRIFT_KEYS && TargetsOf(cert, c) != []
    requires Delivered(env.lib, run.secrets, cert, template, TargetsOf(cert, c))
    requires
      var template' := Template(env, run.secrets, cert, asm, c);
      DataVerified(env, template'.data) && Changed(env.lib, template, template')
    requires !(IsClusterKind(cert.issuerKind) && c.namespaces.None?)
    ensures Rewritten(Deliver(env, run, cert, asm, c, marks).1, TargetsOf(cert, c))
  {
    hide DataVerified, KeystoreOutcome, Delivered, Changed, FanOut, MarkCert, ClearCert, TargetsOf, SameButMarkers,
      IsClusterKind, SoftMarked;
    var targets, outcome := TargetsOf(cert, c), KeystoreOutcome(env, run.secrets, cert, asm, c.chance);
    var soft, template' := SoftMarked(run, cert, outcome, c), Template(env, run.secrets, cert, asm, c);
    SoftKeepsPayload(run, cert, outcome, c);
    MarkersKeepDelivered(env.lib, run.secrets, soft.secrets, cert.Own(), cert, template, targets);
    FanOutStale(env.lib, soft.secrets, cert, template, template', targets, c.faults.writes);
  }
}
