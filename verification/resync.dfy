// internal/controller/resync.go: the drift sweep, a group of at most eight reconciles in flight.
module Resync {
  import opened Common

  const LIMIT := 8
  const ISSUER_GROUP := "secret-manager.cert-manager.io"

  // The issuer group of each listed Certificate, in list order.
  type Listing = seq<string>

  predicate Ours(certs: Listing, i: nat) {
    i < |certs| && certs[i] == ISSUER_GROUP
  }

  // `next` is the loop's position; `finished` the reconciles that returned, with or without an error, in order.
  datatype Pool = Pool(next: nat, inFlight: set<nat>, finished: seq<nat>, returned: bool)

  datatype Action = Skip | Launch | Finish(i: nat, failed: bool) | Return

  function Step(certs: Listing, p: Pool, a: Action): Option<Pool> {
    match a
    case Skip =>
      if p.next < |certs| && !Ours(certs, p.next) then Some(p.(next := p.next + 1)) else None
    case Launch =>
      if Ours(certs, p.next) && |p.inFlight| < LIMIT
      then Some(p.(next := p.next + 1, inFlight := p.inFlight + {p.next})) else None
    case Finish(i, _) =>
      if i in p.inFlight then Some(p.(inFlight := p.inFlight - {i}, finished := p.finished + [i])) else None
    case Return =>
      if p.next == |certs| && p.inFlight == {} && !p.returned then Some(p.(returned := true)) else None
  }

  const EMPTY := Pool(0, {}, [], false)

  function Sweep(certs: Listing, actions: seq<Action>): Option<Pool> {
    if actions == [] then Some(EMPTY)
    else
      match Sweep(certs, actions[..|actions| - 1])
      case None => None
      case Some(p) => Step(certs, p, actions[|actions| - 1])
  }

  // Every Certificate of our group up to the loop's position is in flight or finished, once; nothing else is.
  ghost predicate Accounted(certs: Listing, p: Pool) {
    && p.next <= |certs|
    && |p.inFlight| <= LIMIT
    && Distinct(p.finished)
    && (forall i: nat :: i in p.inFlight || i in p.finished <==> Ours(certs, i) && i < p.next)
    && (forall i: nat :: !(i in p.inFlight && i in p.finished))
    && (p.returned ==> p.next == |certs| && p.inFlight == {})
  }

  // Launches and skips still to come weigh two, a reconcile in flight one, the return one.
  function Remaining(certs: Listing, p: Pool): int {
    2 * (|certs| - p.next) + |p.inFlight| + if p.returned then 0 else 1
  }

  lemma StepAccounted(certs: Listing, p: Pool, a: Action)
    requires Accounted(certs, p) && Step(certs, p, a).Some?
    ensures Accounted(certs, Step(certs, p, a).value)
    ensures 0 <= Remaining(certs, Step(certs, p, a).value) < Remaining(certs, p)
  {
    var q := Step(certs, p, a).value;
    if a.Finish? {
      assert |q.inFlight| == |p.inFlight| - 1;
    } else if a.Launch? {
      assert p.next !in p.inFlight;
      assert |q.inFlight| == |p.inFlight| + 1;
    }
  }

  // Over every interleaving, whichever reconciles fail: never more than eight in flight, and once the sweep
  // has returned each listed Certificate of our group has been reconciled exactly once and no other at all.
  // No interleaving is longer than 2n + 1 actions.
  lemma {:induction false} SweepReconcilesEachOnce(certs: Listing, actions: seq<Action>)
    requires Sweep(certs, actions).Some?
    ensures
      var p := Sweep(certs, actions).value;
      && |p.inFlight| <= 8
      && (p.returned ==>
            Distinct(p.finished) &&
            forall i: nat :: i in p.finished <==> i < |certs| && certs[i] == "secret-manager.cert-manager.io")
      && Accounted(certs, p)
      && |actions| + Remaining(certs, p) <= 2 * |certs| + 1
  {
    if actions != [] {
      var n := |actions| - 1;
      SweepReconcilesEachOnce(certs, actions[..n]);
      StepAccounted(certs, Sweep(certs, actions[..n]).value, actions[n]);
    }
  }

  // Until the sweep has returned, something can happen: no interleaving gets stuck.
  lemma SweepNeverStuck(certs: Listing, p: Pool) returns (a: Action)
    requires Accounted(certs, p) && !p.returned
    ensures Step(certs, p, a).Some?
  {
    if p.inFlight != {} {
      var i :| i in p.inFlight;
      a := Finish(i, false);
    } else if p.next == |certs| {
      a := Return;
    } else if Ours(certs, p.next) {
      a := Launch;
    } else {
      a := Skip;
    }
  }

  // The sweep itself: launching blocks while eight are in flight; which reconciles finish when is open.
  method Drift(certs: Listing) returns (finished: seq<nat>)
    ensures Distinct(finished)
    ensures forall i: nat :: i in finished <==> i < |certs| && certs[i] == "secret-manager.cert-manager.io"
  {
    finished := [];
    var inFlight: set<nat> := {};
    for next := 0 to |certs|
      invariant Accounted(certs, Pool(next, inFlight, finished, false))
    {
      if certs[next] != ISSUER_GROUP { continue; }
      var room := *;
      while |inFlight| >= LIMIT || (room && inFlight != {})
        invariant Accounted(certs, Pool(next, inFlight, finished, false))
        decreases inFlight
      {
        var i :| i in inFlight;
        StepAccounted(certs, Pool(next, inFlight, finished, false), Finish(i, false));
        inFlight, finished := inFlight - {i}, finished + [i];
        room := *;
      }
      StepAccounted(certs, Pool(next, inFlight, finished, false), Launch);
      inFlight := inFlight + {next};
    }
    while inFlight != {}
      invariant Accounted(certs, Pool(|certs|, inFlight, finished, false))
      decreases inFlight
    {
      var i :| i in inFlight;
      StepAccounted(certs, Pool(|certs|, inFlight, finished, false), Finish(i, false));
      inFlight, finished := inFlight - {i}, finished + [i];
    }
  }
}
