// internal/controller/clientcache.go: one mutex around look-up and build, as interleaved calls; and the keys
// under which internal/controller/tencentcert/issuer.go shares its clients.
module ClientCache {
  import opened Common
  import opened Canonical

  /******* One call, undisturbed *******/

  class Cache<K(==), V> {
    var items: map<K, V>

    constructor ()
      ensures items == map[]
    {
      items := map[];
    }

    // `built` is what build() returns if it is called; the flag says whether it was.
    method GetOrCreate(key: K, built: Option<V>) returns (r: Option<V>, called: bool)
      modifies this
      ensures called <==> key !in old(items)
      ensures r == if key in old(items) then Some(old(items)[key]) else built
      ensures items == if key !in old(items) && built.Some? then old(items)[key := built.value] else old(items)
    {
      if key in items { return Some(items[key]), false; }
      if built.None? { return None, true; }
      items := items[key := built.value];
      return built, true;
    }
  }

  /******* Interleaved calls *******/

  datatype Phase<V> = Waiting | Locked | Building | Returned(r: Option<V>)

  datatype Call<K, V> = Call(key: K, phase: Phase<V>)

  // `builds` records every build that succeeded.
  datatype State<K, V> = State(items: map<K, V>, owner: Option<nat>, calls: map<nat, Call<K, V>>, builds: seq<(K, V)>)

  datatype Action<K, V> =
    | Enter(id: nat, key: K)
    | Lock(id: nat)
    | Find(id: nat)
    | Miss(id: nat)
    | Succeed(id: nat, v: V)
    | Fail(id: nat)

  predicate In<K, V(==)>(s: State<K, V>, id: nat, phase: Phase<V>) {
    id in s.calls && s.calls[id].phase == phase
  }

  function Moved<K, V>(s: State<K, V>, id: nat, phase: Phase<V>): State<K, V>
    requires id in s.calls
  {
    s.(calls := s.calls[id := s.calls[id].(phase := phase)])
  }

  // None when the action is not possible. The mutex is held from Lock to the return.
  function Next<K(==), V(==)>(s: State<K, V>, a: Action<K, V>): Option<State<K, V>> {
    match a
    case Enter(id, key) =>
      if id in s.calls then None else Some(s.(calls := s.calls[id := Call(key, Waiting)]))
    case Lock(id) =>
      if In(s, id, Waiting) && s.owner.None? then Some(Moved(s, id, Locked).(owner := Some(id))) else None
    case Find(id) =>
      if In(s, id, Locked) && s.calls[id].key in s.items
      then Some(Moved(s, id, Returned(Some(s.items[s.calls[id].key]))).(owner := None)) else None
    case Miss(id) =>
      if In(s, id, Locked) && s.calls[id].key !in s.items then Some(Moved(s, id, Building)) else None
    case Succeed(id, v) =>
      if In(s, id, Building)
      then Some(Moved(s, id, Returned(Some(v))).(
        owner := None,
        items := s.items[s.calls[id].key := v],
        builds := s.builds + [(s.calls[id].key, v)])) else None
    case Fail(id) =>
      if In(s, id, Building) then Some(Moved(s, id, Returned(None)).(owner := None)) else None
  }

  function Start<K, V>(): State<K, V> {
    State(map[], None, map[], [])
  }

  function Behaviour<K(==), V(==)>(actions: seq<Action<K, V>>): Option<State<K, V>> {
    if actions == [] then Some(Start())
    else
      match Behaviour(actions[..|actions| - 1])
      case None => None
      case Some(s) => Next(s, actions[|actions| - 1])
  }

  // The mutex is held by exactly the call that is inside, and a call that builds missed.
  ghost predicate MutexHeld<K(!new), V(!new)>(s: State<K, V>) {
    && (forall id :: id in s.calls && (s.calls[id].phase.Locked? || s.calls[id].phase.Building?) ==>
          s.owner == Some(id))
    && (forall id :: id in s.calls && s.calls[id].phase.Building? ==> s.calls[id].key !in s.items)
  }

  // The cache holds what was built, and each key was built once.
  ghost predicate HoldsBuilds<K(!new), V(!new)>(s: State<K, V>) {
    && (forall i :: 0 <= i < |s.builds| ==> s.builds[i].0 in s.items && s.items[s.builds[i].0] == s.builds[i].1)
    && (forall i, j :: 0 <= i < j < |s.builds| ==> s.builds[i].0 != s.builds[j].0)
    && (forall k :: k in s.items ==> BuiltFor(s.builds, k))
  }

  ghost predicate BuiltFor<K(!new), V(!new)>(builds: seq<(K, V)>, k: K) {
    exists i :: 0 <= i < |builds| && builds[i].0 == k
  }

  lemma BuiltForMore<K(!new), V(!new)>(builds: seq<(K, V)>, b: (K, V), k: K)
    ensures BuiltFor(builds + [b], k) <==> BuiltFor(builds, k) || b.0 == k
  {
    var more := builds + [b];
    assert more[|builds|] == b;
    assert forall i :: 0 <= i < |builds| ==> more[i] == builds[i];
  }

  // Whoever got a value got the cached one.
  ghost predicate ReturnsCached<K(!new), V(!new)>(s: State<K, V>) {
    forall id :: id in s.calls && s.calls[id].phase.Returned? && s.calls[id].phase.r.Some? ==>
      s.calls[id].key in s.items && s.items[s.calls[id].key] == s.calls[id].phase.r.value
  }

  ghost predicate Consistent<K(!new), V(!new)>(s: State<K, V>) {
    MutexHeld(s) && HoldsBuilds(s) && ReturnsCached(s)
  }

  lemma NextMutexHeld<K(!new), V(!new)>(s: State<K, V>, a: Action<K, V>)
    requires MutexHeld(s) && Next(s, a).Some?
    ensures MutexHeld(Next(s, a).value)
    ensures a.Succeed? ==> a.id in s.calls && s.calls[a.id].key !in s.items
  {
  }

  lemma NextReturnsCached<K(!new), V(!new)>(s: State<K, V>, a: Action<K, V>)
    requires MutexHeld(s) && ReturnsCached(s) && Next(s, a).Some?
    ensures ReturnsCached(Next(s, a).value)
  {
  }

  lemma BuildsExtended<K(!new), V(!new)>(s: State<K, V>, t: State<K, V>, k: K, v: V)
    requires HoldsBuilds(s) && k !in s.items && t.items == s.items[k := v] && t.builds == s.builds + [(k, v)]
    ensures HoldsBuilds(t)
  {
    assert t.builds[|s.builds|] == (k, v);
    assert forall i :: 0 <= i < |s.builds| ==> t.builds[i] == s.builds[i];
    hide BuiltFor;
    forall k' | k' in t.items ensures BuiltFor(t.builds, k') {
      BuiltForMore(s.builds, (k, v), k');
    }
  }

  lemma NextConsistent<K(!new), V(!new)>(s: State<K, V>, a: Action<K, V>)
    requires Consistent(s) && Next(s, a).Some?
    ensures Consistent(Next(s, a).value)
    ensures a.Fail? ==> Next(s, a).value.items == s.items && Next(s, a).value.builds == s.builds
  {
    hide MutexHeld, ReturnsCached;
    NextMutexHeld(s, a);
    NextReturnsCached(s, a);
    if a.Succeed? {
      BuildsExtended(s, Next(s, a).value, s.calls[a.id].key, a.v);
    }
  }

  // In every reachable state: at most one successful build per key, every value returned for a key is the one
  // built for it, and the cache holds nothing else.
  lemma {:induction false} BuiltAtMostOnce<K(!new), V(!new)>(actions: seq<Action<K, V>>)
    requires Behaviour(actions).Some?
    ensures
      var s := Behaviour(actions).value;
      && Consistent(s)
      && (forall i, j :: 0 <= i < |s.builds| && 0 <= j < |s.builds| && s.builds[i].0 == s.builds[j].0 ==> i == j)
      && (forall id :: id in s.calls && s.calls[id].phase.Returned? && s.calls[id].phase.r.Some? ==>
            exists i :: 0 <= i < |s.builds| && s.builds[i] == (s.calls[id].key, s.calls[id].phase.r.value))
  {
    if actions != [] {
      BuiltAtMostOnce(actions[..|actions| - 1]);
      NextConsistent(Behaviour(actions[..|actions| - 1]).value, actions[|actions| - 1]);
    }
    var s := Behaviour(actions).value;
    forall id | id in s.calls && s.calls[id].phase.Returned? && s.calls[id].phase.r.Some?
      ensures exists i :: 0 <= i < |s.builds| && s.builds[i] == (s.calls[id].key, s.calls[id].phase.r.value)
    {
      var i :| 0 <= i < |s.builds| && s.builds[i].0 == s.calls[id].key;
      assert s.builds[i] == (s.calls[id].key, s.calls[id].phase.r.value);
    }
  }

  // How far a call is from its return.
  function Left<V>(p: Phase<V>): nat {
    match p case Waiting => 3 case Locked => 2 case Building => 1 case Returned(_) => 0
  }

  // The mutex, when held, is held by a call that is inside.
  ghost predicate OwnerInside<K(!new), V(!new)>(s: State<K, V>) {
    s.owner.Some? ==>
      var id := s.owner.value;
      id in s.calls && (s.calls[id].phase.Locked? || s.calls[id].phase.Building?)
  }

  lemma {:induction false} OwnerAlwaysInside<K(!new), V(!new)>(actions: seq<Action<K, V>>)
    requires Behaviour(actions).Some?
    ensures OwnerInside(Behaviour(actions).value)
  {
    if actions != [] {
      OwnerAlwaysInside(actions[..|actions| - 1]);
    }
  }

  // No call waits forever for its turn: in every reachable state with a call that has not returned, some call can go on
  // and comes closer to its return; a build may fail or succeed.
  lemma CallsGoOn<K(!new), V(!new)>(actions: seq<Action<K, V>>, waiting: nat, v: V) returns (a: Action<K, V>, id: nat)
    requires Behaviour(actions).Some?
    requires var s := Behaviour(actions).value; waiting in s.calls && !s.calls[waiting].phase.Returned?
    ensures
      var s := Behaviour(actions).value;
      && id in s.calls && Next(s, a).Some? && id in Next(s, a).value.calls && !a.Enter?
      && Left(Next(s, a).value.calls[id].phase) < Left(s.calls[id].phase)
      && (forall k :: k in s.calls && k != id ==> Next(s, a).value.calls[k] == s.calls[k])
    ensures
      var s := Behaviour(actions).value;
      s.calls[id].phase.Building? ==> Next(s, Fail(id)).Some? && Next(s, Succeed(id, v)).Some?
  {
    var s := Behaviour(actions).value;
    OwnerAlwaysInside(actions);
    id := if s.owner.Some? then s.owner.value else waiting;
    BuiltAtMostOnce(actions);
    var call := s.calls[id];
    a := if call.phase.Waiting? then Lock(id)
         else if call.phase.Building? then Fail(id)
         else if call.key in s.items then Find(id) else Miss(id);
  }

  // A failed build leaves nothing behind but its own return: the mutex is free and the next call can take it.
  lemma FailureReleases<K(!new), V(!new)>(s: State<K, V>, id: nat)
    requires Next(s, Fail(id)).Some?
    ensures
      var t := Next(s, Fail(id)).value;
      && t.owner.None? && t.items == s.items && t.builds == s.builds && t.calls[id].phase == Returned(None)
      && forall w :: w in s.calls && s.calls[w].phase.Waiting? ==> Next(t, Lock(w)).Some?
  {
  }

  /******* Keys of Tencent clients *******/

  // `secretName` is None without a secretRef.
  datatype IssuerSpec = IssuerSpec(region: string, endpoint: string, secretName: Option<string>)

  datatype ClientKey = ClientKey(region: string, endpoint: string, credFingerprint: string)

  const AMBIENT := "ambient"

  predicate IsAmbient(spec: IssuerSpec) {
    spec.secretName.None? || spec.secretName.value == ""
  }

  function CredFingerprint(digest: string -> string, spec: IssuerSpec, id: string, key: string): string {
    if IsAmbient(spec) then AMBIENT else digest(CredentialPreimage(id, key))
  }

  function KeyOf(digest: string -> string, spec: IssuerSpec, id: string, key: string): ClientKey {
    ClientKey(spec.region, spec.endpoint, CredFingerprint(digest, spec, id, key))
  }

  // Two fetches share a client exactly when region and endpoint agree and they are both ambient or both static
  // with the same id and key; digests have 64 characters, and these two pre-images do not collide.
  lemma ClientShared(digest: string -> string, spec: IssuerSpec, id: string, key: string, spec': IssuerSpec,
                     id': string, key': string)
    requires |digest(CredentialPreimage(id, key))| == 64 == |digest(CredentialPreimage(id', key'))|
    requires digest(CredentialPreimage(id, key)) == digest(CredentialPreimage(id', key')) ==>
      CredentialPreimage(id, key) == CredentialPreimage(id', key')
    ensures
      var ambient := spec.secretName.None? || spec.secretName == Some("");
      var ambient' := spec'.secretName.None? || spec'.secretName == Some("");
      KeyOf(digest, spec, id, key) == KeyOf(digest, spec', id', key') <==>
        && spec.region == spec'.region && spec.endpoint == spec'.endpoint
        && ((ambient && ambient') || (!ambient && !ambient' && id == id' && key == key'))
  {
    hide CredentialPreimage;
    assert |AMBIENT| == 7;
    if CredentialPreimage(id, key) == CredentialPreimage(id', key') {
      CredentialPreimageInjective(id, key, id', key');
    }
  }
}
