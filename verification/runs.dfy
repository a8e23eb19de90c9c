// What every reconcile keeps, and what holds in every state that any run of both drivers reaches.
module Runs {
  import opened Common
  import opened Library
  import opened Normalize
  import opened Chain
  import opened Objects
  import opened Keystore
  import opened SecretStore
  import opened Payload
  import opened Reconcile

  /******* Runs *******/

  // Whole reconciles of either driver, one after the other, in any order.
  ghost function Exec(env: Env, w: World, inputs: seq<Input>): World {
    if inputs == [] then w
    else Step(env, Exec(env, w, inputs[..|inputs| - 1]), inputs[|inputs| - 1]).0
  }

  // What the driver assembles, if it gets that far.
  ghost function AssembledOf(env: Env, i: Input): Option<Assembled> {
    if i.Sync? then
      match i.fetch
      case Fetched(leaf, chain, key, extra) =>
        Some(SyncAssembled(env, i.cert, i.annotation, i.ref, leaf, chain, key, extra, i.c.now))
      case _ => None
    else
      match i.source
      case Document(doc, keys) =>
        (match Extract(doc, keys)
         case Failure(_) => None
         case Success(parsed) =>
           if ChainAccepted(env.lib, parsed.certificate, parsed.chain)
           then Some(ManagerAssembled(env, i.cert, i.ref, parsed, i.c.now)) else None)
      case _ => None
  }

  // The Secret a run tries to write everywhere.
  ghost function TemplateOf(env: Env, secrets: Store, i: Input, asm: Assembled): Secret {
    WithKeystore(asm.template, KeystoreOutcome(env, secrets, i.cert, asm, i.c.chance))
  }

  lemma ReconciledCases(env: Env, run: Run, i: Input)
    ensures
      var asm := AssembledOf(env, i);
      var (run', report) := Reconciled(env, run, i);
      || (asm.Some? && (run', report) == Deliver(env, run, i.cert, asm.value, i.c, i.Manage?))
      || (asm.None? && run' == run && report == Report(Ignored, [], [], None))
      || (asm.None? && report.ending.Marked? && report.results == [] && report.targets == []
          && run' == EndMarked(run, i.cert, report.ending.reason, i.c))
  {
    hide SyncAssembled, ManagerAssembled, Deliver, Extract, ChainAccepted, MarkCert;
  }

  /******* Properties of single Secrets *******/

  // A property of each Secret, in the place where it is stored.
  type Property = (ObjectKey, Secret) -> bool

  ghost predicate Everywhere(p: Property, present: set<ObjectKey>, secrets: Store) {
    present <= secrets.Keys && forall k :: k in secrets ==> p(k, secrets[k])
  }

  // Putting markers on or taking them off does not break it.
  ghost predicate MarkerBlind(p: Property) {
    forall k, s, a ::
      (p(k, s) && Unmarked(a) == Unmarked(s.annotations) && (AllOrNoMarkers(s.annotations) ==> AllOrNoMarkers(a))) ==>
        p(k, s.(annotations := a))
  }

  // Writing the template, anew where nothing is present or over a Secret that has the property, establishes it.
  ghost predicate Established(p: Property, lib: Crypto, cert: Certificate, template: Secret, present: set<ObjectKey>) {
    forall ns ::
      var k, d := ObjectKey(ns, cert.secretName), Stamped(lib, Desired(cert, template, ns));
      (k !in present ==> p(k, d)) && forall e :: p(k, e) ==> p(k, Overwritten(e, d))
  }

  lemma MarkersKeep(p: Property, present: set<ObjectKey>, before: Store, after: Store, key: ObjectKey)
    requires Everywhere(p, present, before) && MarkerBlind(p) && SameButMarkers(before, after, key)
    requires key in before && AllOrNoMarkers(before[key].annotations) ==> AllOrNoMarkers(after[key].annotations)
    ensures Everywhere(p, present, after)
  {
    hide Unmarked, AllOrNoMarkers;
    if key in before {
      assert after[key] == before[key].(annotations := after[key].annotations);
    }
  }

  lemma MarkCertKeeps(p: Property, present: set<ObjectKey>, run: Run, cert: Certificate, reason: string,
                      message: string, now: string, fault: MarkFault)
    requires Everywhere(p, present, run.secrets) && MarkerBlind(p)
    ensures Everywhere(p, present, MarkCert(run, cert, reason, message, now, fault).secrets)
  {
    hide MarkerBlind;
    MarkProperties(run.secrets, cert.Own(), reason, message, now, fault.secret);
    MarkersKeep(p, present, run.secrets, Mark(run.secrets, cert.Own(), reason, message, now, fault.secret).0,
      cert.Own());
  }

  lemma ClearCertKeeps(p: Property, present: set<ObjectKey>, run: Run, cert: Certificate, reason: string,
                       message: string, fault: MarkFault)
    requires Everywhere(p, present, run.secrets) && MarkerBlind(p)
    ensures Everywhere(p, present, ClearCert(run, cert, reason, message, fault).secrets)
  {
    hide MarkerBlind;
    ClearProperties(run.secrets, cert.Own(), fault.secret);
    MarkersKeep(p, present, run.secrets, Clear(run.secrets, cert.Own(), fault.secret).0, cert.Own());
  }

  lemma {:induction false} FanOutKeeps(p: Property, present: set<ObjectKey>, lib: Crypto, store: Store,
                                       cert: Certificate, template: Secret, targets: seq<string>,
                                       faults: string -> WriteFault)
    requires Everywhere(p, present, store) && Established(p, lib, cert, template, present)
    ensures Everywhere(p, present, FanOut(lib, store, cert, template, targets, faults).0)
  {
    hide UpToDate, Stamped, Overwritten;
    if targets != [] {
      FanOutKeeps(p, present, lib, store, cert, template, targets[..|targets| - 1], faults);
    }
  }

  lemma PublishKeeps(p: Property, present: set<ObjectKey>, env: Env, run: Run, cert: Certificate, template: Secret,
                     c: Circumstances, marksPostWrite: bool)
    requires Everywhere(p, present, run.secrets) && MarkerBlind(p) && Established(p, env.lib, cert, template, present)
    ensures Everywhere(p, present, Publish(env, run, cert, template, c, marksPostWrite).0.secrets)
  {
    hide MarkerBlind, Established, Everywhere, MarkCert, ClearCert, FanOut;
    var targets := TargetsOf(cert, c);
    FanOutKeeps(p, present, env.lib, run.secrets, cert, template, targets, c.faults.writes);
    FanOutAt(env.lib, run.secrets, cert, template, targets, c.faults.writes);
    var wrote := run.(secrets := FanOut(env.lib, run.secrets, cert, template, targets, c.faults.writes).0);
    MarkCertKeeps(p, present, wrote, cert, "SecretWriteFailed", c.message, c.now, c.faults.mark);
    MarkCertKeeps(p, present, wrote, cert, "SignCRFailed", c.message, c.now, c.faults.mark);
    ClearCertKeeps(p, present, wrote, cert, "Synced", c.message, c.faults.clear);
  }

  lemma SoftMarkedKeeps(p: Property, present: set<ObjectKey>, run: Run, cert: Certificate, outcome: Outcome,
                        c: Circumstances)
    requires Everywhere(p, present, run.secrets) && MarkerBlind(p)
    ensures Everywhere(p, present, SoftMarked(run, cert, outcome, c).secrets)
  {
    hide MarkerBlind, Everywhere, MarkCert;
    MarkCertKeeps(p, present, run, cert, "KeystoreBuildFailed", c.softMessage, c.now, c.faults.softMark);
    MarkCertKeeps(p, present, run, cert, "KeystoreSkipped", c.softMessage, c.now, c.faults.softMark);
  }

  // A run writes nothing but its template, and that only once the data is verified.
  lemma DeliverKeeps(p: Property, present: set<ObjectKey>, env: Env, run: Run, cert: Certificate, asm: Assembled,
                     c: Circumstances, marksPostWrite: bool)
    requires Everywhere(p, present, run.secrets) && MarkerBlind(p)
    requires
      var template := WithKeystore(asm.template, KeystoreOutcome(env, run.secrets, cert, asm, c.chance));
      DataVerified(env, template.data) ==> Established(p, env.lib, cert, template, present)
    ensures Everywhere(p, present, Deliver(env, run, cert, asm, c, marksPostWrite).0.secrets)
  {
    hide MarkerBlind, Established, Everywhere, MarkCert, KeystoreOutcome, WithKeystore, DataVerified, SoftMarked,
      Publish;
    var outcome := KeystoreOutcome(env, run.secrets, cert, asm, c.chance);
    var template := WithKeystore(asm.template, outcome);
    var soft := SoftMarked(run, cert, outcome, c);
    SoftMarkedKeeps(p, present, run, cert, outcome, c);
    MarkCertKeeps(p, present, run, cert, "SecretReadFailed", c.message, c.now, c.faults.mark);
    MarkCertKeeps(p, present, soft, cert, "SecretVerifyFailed", c.message, c.now, c.faults.mark);
    MarkCertKeeps(p, present, soft, cert, "NamespaceListFailed", c.message, c.now, c.faults.mark);
    if DataVerified(env, template.data) {
      PublishKeeps(p, present, env, soft, cert, template, c, marksPostWrite);
    }
  }

  lemma StepKeeps(p: Property, present: set<ObjectKey>, env: Env, w: World, i: Input)
    requires Everywhere(p, present, w.secrets) && MarkerBlind(p)
    requires AssembledOf(env, i).Some? ==>
      var template := TemplateOf(env, w.secrets, i, AssembledOf(env, i).value);
      DataVerified(env, template.data) ==> Established(p, env.lib, i.cert, template, present)
    ensures Everywhere(p, present, Step(env, w, i).0.secrets)
  {
    hide MarkerBlind, Established, Everywhere, AssembledOf, Deliver, Reconciled, MarkCert, DataVerified;
    var conditions := StatusOf(w.status, CertKey(i.cert));
    var run := Run(w.secrets, conditions, conditions);
    ReconciledCases(env, run, i);
    if AssembledOf(env, i).Some? {
      DeliverKeeps(p, present, env, run, i.cert, AssembledOf(env, i).value, i.c, i.Manage?);
    } else {
      var report := Reconciled(env, run, i).1;
      if report.ending.Marked? {
        MarkCertKeeps(p, present, run, i.cert, report.ending.reason, i.c.message, i.c.now, i.c.faults.mark);
      }
    }
  }

  /******* The three markers are all there or all absent *******/

  // A source's extra annotations stay away from the markers.
  ghost predicate PlainExtras(i: Input) {
    i.Sync? && i.fetch.Fetched? ==> i.fetch.extra.Keys !! DRIFT_KEYS
  }

  lemma AssembledUnmarked(env: Env, i: Input)
    requires PlainExtras(i) && AssembledOf(env, i).Some?
    ensures AssembledOf(env, i).value.template.annotations.Keys !! DRIFT_KEYS
  {
    hide Completed, Normalized, Composition, SplitBundle, Extract, ChainAccepted, CertAnnotations, TlsBundle;
    if i.Sync? {
      CertAnnotationsKeys(env.lib, i.fetch.leaf);
    } else {
      CertAnnotationsKeys(env.lib, Extract(i.source.doc, i.source.keys).value.certificate);
    }
  }

  lemma TemplateUnmarked(env: Env, secrets: Store, i: Input)
    requires PlainExtras(i) && AssembledOf(env, i).Some?
    ensures TemplateOf(env, secrets, i, AssembledOf(env, i).value).annotations.Keys !! DRIFT_KEYS
  {
    hide AssembledOf, KeystoreOutcome;
    AssembledUnmarked(env, i);
  }

  lemma MarkersStep(env: Env, w: World, i: Input)
    requires PlainExtras(i)
    requires forall k :: k in w.secrets ==> AllOrNoMarkers(w.secrets[k].annotations)
    ensures forall k :: k in Step(env, w, i).0.secrets ==> AllOrNoMarkers(Step(env, w, i).0.secrets[k].annotations)
  {
    hide AssembledOf, DataVerified, Step, TemplateOf;
    var p: Property := (k: ObjectKey, s: Secret) => AllOrNoMarkers(s.annotations);
    if AssembledOf(env, i).Some? {
      TemplateUnmarked(env, w.secrets, i);
    }
    StepKeeps(p, {}, env, w, i);
    var after := Step(env, w, i).0.secrets;
    assert forall k :: k in after ==> p(k, after[k]);
  }

  lemma {:induction false} MarkersAllOrNone(env: Env, w: World, inputs: seq<Input>)
    requires forall i :: i in inputs ==> PlainExtras(i)
    requires forall k :: k in w.secrets ==> AllOrNoMarkers(w.secrets[k].annotations)
    ensures forall k :: k in Exec(env, w, inputs).secrets ==>
      AllOrNoMarkers(Exec(env, w, inputs).secrets[k].annotations)
  {
    hide AllOrNoMarkers, Step;
    if inputs != [] {
      var n := |inputs| - 1;
      MarkersAllOrNone(env, w, inputs[..n]);
      MarkersStep(env, Exec(env, w, inputs[..n]), inputs[n]);
    }
  }

  /******* Owner references stay inside a namespace *******/

  // `home` is the namespace of the Certificate a uid stands for.
  ghost predicate OwnedAtHome(home: string -> string, k: ObjectKey, s: Secret) {
    forall o :: o in s.owners ==> home(o.uid) == k.namespace
  }

  lemma OwnersStep(env: Env, home: string -> string, w: World, i: Input)
    requires home(i.cert.uid) == i.cert.namespace
    requires forall k :: k in w.secrets ==> OwnedAtHome(home, k, w.secrets[k])
    ensures forall k :: k in Step(env, w, i).0.secrets ==> OwnedAtHome(home, k, Step(env, w, i).0.secrets[k])
  {
    hide AssembledOf, DataVerified, Step, TemplateOf;
    var p: Property := (k: ObjectKey, s: Secret) => OwnedAtHome(home, k, s);
    StepKeeps(p, {}, env, w, i);
    var after := Step(env, w, i).0.secrets;
    assert forall k :: k in after ==> p(k, after[k]);
  }

  lemma {:induction false} OwnersNeverCross(env: Env, home: string -> string, w: World, inputs: seq<Input>)
    requires forall i :: i in inputs ==> home(i.cert.uid) == i.cert.namespace
    requires forall k :: k in w.secrets ==> OwnedAtHome(home, k, w.secrets[k])
    ensures forall k :: k in Exec(env, w, inputs).secrets ==> OwnedAtHome(home, k, Exec(env, w, inputs).secrets[k])
  {
    hide OwnedAtHome, Step;
    if inputs != [] {
      var n := |inputs| - 1;
      OwnersNeverCross(env, home, w, inputs[..n]);
      OwnersStep(env, home, Exec(env, w, inputs[..n]), inputs[n]);
    }
  }

  // A run of a Certificate never takes an owner from a Secret in another namespace.
  lemma ForeignOwnersStay(env: Env, w: World, i: Input, key: ObjectKey)
    requires key in w.secrets && key.namespace != i.cert.namespace
    ensures key in Step(env, w, i).0.secrets
    ensures Step(env, w, i).0.secrets[key].owners == w.secrets[key].owners
  {
    hide AssembledOf, DataVerified, TemplateOf, Step;
    var owners := w.secrets[key].owners;
    var p: Property := (k: ObjectKey, s: Secret) => k == key ==> s.owners == owners;
    StepKeeps(p, w.secrets.Keys, env, w, i);
    assert p(key, Step(env, w, i).0.secrets[key]);
  }
}
