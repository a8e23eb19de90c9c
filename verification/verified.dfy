// Only verified, self-describing Secrets are stored.
module Verified {
  import opened Common
  import opened Canonical
  import opened Objects
  import opened SecretStore
  import opened Reconcile
  import opened Runs

  // The Secret's own hash is that of its data, and its consumers can read it: the first block of tls.crt parses,
  // tls.key is empty or its first block is a key, keystore.jks is empty or opens with the stored password.
  ghost predicate SelfDescribing(env: Env, s: Secret) {
    && Lookup(s.annotations, SecretHashKey) == env.lib.digest(DataPreimage(s.data))
    && CertificateReads(env, s.data) && KeyReads(env, s.data) && KeystoreOpens(env, s.data)
  }

  ghost predicate AllSelfDescribing(env: Env, keys: set<ObjectKey>, secrets: Store) {
    forall k :: k in keys ==> k in secrets && SelfDescribing(env, secrets[k])
  }

  // The Secrets a run created or patched.
  ghost function WrittenIn(cert: Certificate, report: Report): set<ObjectKey>
    requires |report.targets| == |report.results|
  {
    set j | 0 <= j < |report.results| && (report.results[j].Created? || report.results[j].Patched?)
      :: ObjectKey(report.targets[j], cert.secretName)
  }

  ghost function SelfDescribingIn(env: Env, keys: set<ObjectKey>): Property {
    (k: ObjectKey, s: Secret) => k in keys ==> SelfDescribing(env, s)
  }

  lemma SelfDescribingBlind(env: Env, keys: set<ObjectKey>)
    ensures MarkerBlind(SelfDescribingIn(env, keys))
  {
    hide CertificateReads, KeyReads, KeystoreOpens, DataPreimage, Unmarked;
    forall s: Secret, a | Unmarked(a) == Unmarked(s.annotations)
      ensures Lookup(a, SecretHashKey) == Lookup(s.annotations, SecretHashKey)
    {
      UnmarkedLookup(a, s.annotations, SecretHashKey);
    }
  }

  lemma AllSelfDescribingIn(env: Env, keys: set<ObjectKey>, secrets: Store)
    ensures Everywhere(SelfDescribingIn(env, keys), keys, secrets) <==> AllSelfDescribing(env, keys, secrets)
  {
    hide SelfDescribing;
  }

  lemma WriteSelfDescribing(env: Env, store: Store, cert: Certificate, template: Secret, ns: string,
                            faults: string -> WriteFault)
    requires DataVerified(env, template.data)
    ensures
      var (store', result) := WriteTo(env.lib, store, cert, template, ns, faults);
      var key := ObjectKey(ns, cert.secretName);
      && (result.Created? || result.Patched? ==> key in store' && SelfDescribing(env, store'[key]))
      && (result.Unchanged? || result.WriteFailed? ==> store' == store)
  {
    hide DataVerified, DataPreimage, UpToDate, CertificateReads, KeyReads, KeystoreOpens;
    VerifiedIsConsumable(env, template.data);
  }

  lemma FanOutSelfDescribing(env: Env, keys: set<ObjectKey>, store: Store, cert: Certificate, template: Secret,
                             targets: seq<string>, faults: string -> WriteFault)
    requires AllSelfDescribing(env, keys, store) && DataVerified(env, template.data)
    ensures
      var (store', results) := FanOut(env.lib, store, cert, template, targets, faults);
      |results| == |targets| &&
      AllSelfDescribing(env, keys + WrittenIn(cert, Report(Synced, targets, results, None)), store')
  {
    hide DataVerified, SelfDescribing, WriteTo, FanOut;
    FanOutAt(env.lib, store, cert, template, targets, faults);
    var (store', results) := FanOut(env.lib, store, cert, template, targets, faults);
    var written := WrittenIn(cert, Report(Synced, targets, results, None));
    forall k | k in keys + written ensures k in store' && SelfDescribing(env, store'[k]) {
      if k in written {
        var j :| 0 <= j < |results| && (results[j].Created? || results[j].Patched?)
          && k == ObjectKey(targets[j], cert.secretName);
        assert targets[j] in targets;
        WriteSelfDescribing(env, store, cert, template, targets[j], faults);
        assert results[j] == WriteTo(env.lib, store, cert, template, targets[j], faults).1;
      } else if k.name == cert.secretName && k.namespace in targets {
        assert k == ObjectKey(k.namespace, cert.secretName);
        WriteSelfDescribing(env, store, cert, template, k.namespace, faults);
      }
    }
  }

  lemma PublishSelfDescribing(env: Env, keys: set<ObjectKey>, run: Run, cert: Certificate, template: Secret,
                              c: Circumstances, marksPostWrite: bool)
    requires AllSelfDescribing(env, keys, run.secrets) && DataVerified(env, template.data)
    ensures
      var (run', report) := Publish(env, run, cert, template, c, marksPostWrite);
      |report.results| == |report.targets| && AllSelfDescribing(env, keys + WrittenIn(cert, report), run'.secrets)
  {
    hide DataVerified, AllSelfDescribing, SelfDescribingIn, MarkerBlind, Everywhere, FanOut, MarkCert, ClearCert;
    var targets := TargetsOf(cert, c);
    FanOutAt(env.lib, run.secrets, cert, template, targets, c.faults.writes);
    FanOutSelfDescribing(env, keys, run.secrets, cert, template, targets, c.faults.writes);
    var (secrets, results) := FanOut(env.lib, run.secrets, cert, template, targets, c.faults.writes);
    var all := keys + WrittenIn(cert, Report(Synced, targets, results, None));
    var (wrote, p) := (run.(secrets := secrets), SelfDescribingIn(env, all));
    SelfDescribingBlind(env, all);
    AllSelfDescribingIn(env, all, secrets);
    MarkCertKeeps(p, all, wrote, cert, "SecretWriteFailed", c.message, c.now, c.faults.mark);
    MarkCertKeeps(p, all, wrote, cert, "SignCRFailed", c.message, c.now, c.faults.mark);
    ClearCertKeeps(p, all, wrote, cert, "Synced", c.message, c.faults.clear);
    AllSelfDescribingIn(env, all, Publish(env, run, cert, template, c, marksPostWrite).0.secrets);
  }

  lemma DeliverSelfDescribing(env: Env, keys: set<ObjectKey>, run: Run, cert: Certificate, asm: Assembled,
                              c: Circumstances, marksPostWrite: bool)
    requires AllSelfDescribing(env, keys, run.secrets)
    ensures
      var (run', report) := Deliver(env, run, cert, asm, c, marksPostWrite);
      |report.results| == |report.targets| && AllSelfDescribing(env, keys + WrittenIn(cert, report), run'.secrets)
  {
    hide DataVerified, AllSelfDescribing, SelfDescribingIn, MarkerBlind, Everywhere, MarkCert, KeystoreOutcome,
      WithKeystore, SoftMarked, Publish;
    var outcome := KeystoreOutcome(env, run.secrets, cert, asm, c.chance);
    var (soft, p) := (SoftMarked(run, cert, outcome, c), SelfDescribingIn(env, keys));
    SelfDescribingBlind(env, keys);
    AllSelfDescribingIn(env, keys, run.secrets);
    SoftMarkedKeeps(p, keys, run, cert, outcome, c);
    AllSelfDescribingIn(env, keys, soft.secrets);
    if DataVerified(env, WithKeystore(asm.template, outcome).data) {
      PublishSelfDescribing(env, keys, soft, cert, WithKeystore(asm.template, outcome), c, marksPostWrite);
    }
    MarkCertKeeps(p, keys, run, cert, "SecretReadFailed", c.message, c.now, c.faults.mark);
    MarkCertKeeps(p, keys, soft, cert, "SecretVerifyFailed", c.message, c.now, c.faults.mark);
    MarkCertKeeps(p, keys, soft, cert, "NamespaceListFailed", c.message, c.now, c.faults.mark);
    var (run', report) := Deliver(env, run, cert, asm, c, marksPostWrite);
    AllSelfDescribingIn(env, keys, run'.secrets);
    assert report.results == [] ==> keys + WrittenIn(cert, report) == keys;
  }

  lemma StepSelfDescribing(env: Env, keys: set<ObjectKey>, w: World, i: Input)
    requires AllSelfDescribing(env, keys, w.secrets)
    ensures
      var (w', report) := Step(env, w, i);
      |report.results| == |report.targets| && AllSelfDescribing(env, keys + WrittenIn(i.cert, report), w'.secrets)
  {
    hide AllSelfDescribing, SelfDescribingIn, MarkerBlind, Everywhere, MarkCert, AssembledOf, Deliver, Reconciled;
    var conditions := StatusOf(w.status, CertKey(i.cert));
    var run := Run(w.secrets, conditions, conditions);
    ReconciledCases(env, run, i);
    var (run', report) := Reconciled(env, run, i);
    if AssembledOf(env, i).Some? {
      DeliverSelfDescribing(env, keys, run, i.cert, AssembledOf(env, i).value, i.c, i.Manage?);
    } else {
      SelfDescribingBlind(env, keys);
      AllSelfDescribingIn(env, keys, run.secrets);
      if report.ending.Marked? {
        MarkCertKeeps(SelfDescribingIn(env, keys), keys, run, i.cert, report.ending.reason, i.c.message, i.c.now,
          i.c.faults.mark);
      }
      AllSelfDescribingIn(env, keys, run'.secrets);
      assert keys + WrittenIn(i.cert, report) == keys;
    }
  }

  // The Secrets that some run so far created or patched.
  ghost function Written(env: Env, w: World, inputs: seq<Input>): set<ObjectKey> {
    if inputs == [] then {}
    else
      var n := |inputs| - 1;
      var before := Exec(env, w, inputs[..n]);
      var report := Step(env, before, inputs[n]).1;
      StepSelfDescribing(env, {}, before, inputs[n]);
      Written(env, w, inputs[..n]) + WrittenIn(inputs[n].cert, report)
  }

  // From any world, after any sequence of reconciles of both drivers under any faults, every Secret they
  // wrote is there, describes itself and passes verification.
  lemma {:induction false} WrittenAreSelfDescribing(env: Env, w: World, inputs: seq<Input>)
    ensures AllSelfDescribing(env, Written(env, w, inputs), Exec(env, w, inputs).secrets)
  {
    hide SelfDescribing, Step;
    if inputs != [] {
      var n := |inputs| - 1;
      WrittenAreSelfDescribing(env, w, inputs[..n]);
      StepSelfDescribing(env, Written(env, w, inputs[..n]), Exec(env, w, inputs[..n]), inputs[n]);
    }
  }
}
