// internal/controller/issuer.go: WriteSecret, secretUpToDate, the drift markers and the fan-out,
// against a store of Secrets in which a failed call changes nothing.
module SecretStore {
  import opened Common
  import opened Canonical
  import opened Library
  import opened Objects

  /******* WriteSecret *******/

  // Which API call of one WriteSecret fails, should it be made.
  datatype WriteFault = NoFault | GetFails | CreateFails | PatchFails

  datatype WriteResult = Created | Patched | Unchanged | WriteFailed

  ghost function Stamped(lib: Crypto, desired: Secret): Secret {
    desired.(annotations := desired.annotations[SecretHashKey := lib.digest(DataPreimage(desired.data))])
  }

  // The gates of secretUpToDate, cheapest first.
  ghost predicate UpToDate(lib: Crypto, existing: Secret, desired: Secret) {
    && existing.kind == desired.kind
    && Lookup(existing.annotations, SecretHashKey) == Lookup(desired.annotations, SecretHashKey)
    && Lookup(existing.annotations, SourceHashKey) == Lookup(desired.annotations, SourceHashKey)
    && lib.digest(DataPreimage(existing.data)) == Lookup(existing.annotations, SecretHashKey)
    && forall k :: k in desired.annotations ==> Lookup(existing.annotations, k) == desired.annotations[k]
  }

  // An existing Secret keeps its owners when the desired one names none.
  function Overwritten(existing: Secret, desired: Secret): Secret {
    desired.(owners := if desired.owners != [] then desired.owners else existing.owners)
  }

  ghost function Write(lib: Crypto, store: Store, key: ObjectKey, desired: Secret,
                       fault: WriteFault): (Store, WriteResult) {
    var d := Stamped(lib, desired);
    if fault.GetFails? then (store, WriteFailed)
    else if key !in store then
      if fault.CreateFails? then (store, WriteFailed) else (store[key := d], Created)
    else if UpToDate(lib, store[key], d) then (store, Unchanged)
    else if fault.PatchFails? then (store, WriteFailed)
    else (store[key := Overwritten(store[key], d)], Patched)
  }

  // The slow form: always create or patch.
  ghost function Overwrite(lib: Crypto, store: Store, key: ObjectKey, desired: Secret): Store {
    var d := Stamped(lib, desired);
    store[key := if key in store then Overwritten(store[key], d) else d]
  }

  // What a consumer of the Secret and cert-manager read of it; an absent annotation reads as an empty one.
  ghost predicate SamePayload(a: Secret, b: Secret, keys: set<AnnotationKey>) {
    && a.kind == b.kind
    && a.data == b.data
    && forall k :: k in keys ==> Lookup(a.annotations, k) == Lookup(b.annotations, k)
  }

  ghost predicate NoCollision(lib: Crypto, data: Data, data': Data) {
    lib.digest(DataPreimage(data)) == lib.digest(DataPreimage(data')) ==> DataPreimage(data) == DataPreimage(data')
  }

  // From any store at all, a write without faults leaves what the slow form leaves: type, data and every
  // desired annotation, whether it created, patched or skipped; and it leaves every other Secret alone. The one
  // difference is an annotation desired to be empty that the stored Secret lacks: a skip leaves it absent.
  lemma WriteRefinesOverwrite(lib: Crypto, store: Store, key: ObjectKey, desired: Secret)
    requires key in store ==> NoCollision(lib, store[key].data, desired.data)
    ensures
      var (fast, result) := Write(lib, store, key, desired, NoFault);
      var slow := Overwrite(lib, store, key, desired);
      && !result.WriteFailed?
      && fast.Keys == slow.Keys
      && SamePayload(fast[key], slow[key], Stamped(lib, desired).annotations.Keys)
      && SamePayload(fast[key], Stamped(lib, desired), Stamped(lib, desired).annotations.Keys)
      && (forall k :: k in fast && k != key ==> fast[k] == slow[k] == store[k])
    ensures
      var (fast, result) := Write(lib, store, key, desired, NoFault);
      var slow := Overwrite(lib, store, key, desired);
      forall k :: k in slow[key].annotations ==>
        && (k in fast[key].annotations <==> !(result.Unchanged? && k !in store[key].annotations))
        && (k in fast[key].annotations ==> fast[key].annotations[k] == slow[key].annotations[k])
        && (k !in fast[key].annotations ==> slow[key].annotations[k] == "")
  {
    hide DataPreimage;
    if key in store && UpToDate(lib, store[key], Stamped(lib, desired)) {
      DataPreimageInjective(store[key].data, desired.data);
    }
  }

  // Such an annotation: the common name of a certificate without one, which the stored Secret says nothing of.
  lemma EmptyStaysAbsent(lib: Crypto, key: ObjectKey, desired: Secret)
    requires CommonName in desired.annotations && desired.annotations[CommonName] == ""
    ensures
      var d := Stamped(lib, desired);
      var store: Store := map[key := d.(annotations := d.annotations - {CommonName})];
      var (fast, result) := Write(lib, store, key, desired, NoFault);
      && result.Unchanged? && CommonName !in fast[key].annotations
      && CommonName in Overwrite(lib, store, key, desired)[key].annotations
  {
    hide DataPreimage;
  }

  // A skip does not look at the owners: they are those of the slow form exactly when nothing is skipped, when
  // the desired Secret names none, or when the stored Secret has them already.
  lemma OwnersRefineOverwrite(lib: Crypto, store: Store, key: ObjectKey, desired: Secret)
    ensures
      var (fast, _) := Write(lib, store, key, desired, NoFault);
      var slow := Overwrite(lib, store, key, desired);
      && key in fast
      && (fast[key].owners == slow[key].owners <==>
            (key in store && UpToDate(lib, store[key], Stamped(lib, desired)) ==>
               desired.owners == [] || store[key].owners == desired.owners))
  {
    hide DataPreimage, UpToDate;
  }

  // A store where the two forms part.
  lemma SkipKeepsOwners(lib: Crypto, key: ObjectKey, desired: Secret, owner: OwnerRef)
    requires desired.owners == [owner]
    ensures
      var store: Store := map[key := Stamped(lib, desired).(owners := [])];
      var (fast, result) := Write(lib, store, key, desired, NoFault);
      result.Unchanged? && fast[key].owners != Overwrite(lib, store, key, desired)[key].owners
  {
    hide DataPreimage;
  }

  // Whatever the write did, writing the same again finds nothing to do.
  lemma WrittenIsUpToDate(lib: Crypto, store: Store, key: ObjectKey, desired: Secret, fault: WriteFault)
    ensures
      var (store', result) := Write(lib, store, key, desired, fault);
      !result.WriteFailed? ==> key in store' && UpToDate(lib, store'[key], Stamped(lib, desired))
  {
    hide DataPreimage;
  }

  // A create or a patch always shows in the store.
  lemma WriteShows(lib: Crypto, store: Store, key: ObjectKey, desired: Secret, fault: WriteFault)
    ensures
      var (store', result) := Write(lib, store, key, desired, fault);
      result.Created? || result.Patched? <==> store' != store
  {
    hide DataPreimage, UpToDate;
    WrittenIsUpToDate(lib, store, key, desired, fault);
  }

  // What one write does, call by call, where the hash tells the two contents apart. It skips exactly a Secret that has
  // the desired type and data, its own hash, and every desired annotation; a patch takes over everything but, where
  // none is desired, the owners.
  lemma WriteExactly(lib: Crypto, store: Store, key: ObjectKey, desired: Secret, fault: WriteFault)
    requires key in store ==> NoCollision(lib, store[key].data, desired.data)
    ensures
      var hash := lib.digest(DataPreimage(desired.data));
      var annotations := desired.annotations[SecretHashKey := hash];
      var (store', result) := Write(lib, store, key, desired, fault);
      if fault.GetFails? then result.WriteFailed? && store' == store
      else if key !in store then
        if fault.CreateFails? then result.WriteFailed? && store' == store
        else result.Created? && store' == store[key :=
               Secret(desired.kind, desired.data, annotations, desired.labels, desired.owners)]
      else
        var s := store[key];
        if s.kind == desired.kind && s.data == desired.data
           && Lookup(s.annotations, SourceHashKey) == Lookup(annotations, SourceHashKey)
           && (forall k :: k in annotations ==> Lookup(s.annotations, k) == annotations[k])
        then result.Unchanged? && store' == store
        else if fault.PatchFails? then result.WriteFailed? && store' == store
        else result.Patched? && store' == store[key :=
               Secret(desired.kind, desired.data, annotations, desired.labels,
                      if desired.owners != [] then desired.owners else s.owners)]
  {
    hide DataPreimage;
    if key in store {
      var d := Stamped(lib, desired);
      assert SecretHashKey in d.annotations;
      if UpToDate(lib, store[key], d) {
        DataPreimageInjective(store[key].data, desired.data);
      }
    }
  }

  /******* Drift markers *******/

  function Unmarked(a: Annotations): Annotations {
    a - DRIFT_KEYS
  }

  lemma UnmarkedLookup(a: Annotations, b: Annotations, k: AnnotationKey)
    requires Unmarked(a) == Unmarked(b) && k !in DRIFT_KEYS
    ensures Lookup(a, k) == Lookup(b, k)
  {
    assert k in a <==> k in Unmarked(a);
    assert k in b <==> k in Unmarked(b);
  }

  ghost predicate AllOrNoMarkers(a: Annotations) {
    (DriftReason in a <==> DriftMessage in a) && (DriftMessage in a <==> DriftAt in a)
  }

  // MarkSecretDrift; the flag says whether the calls succeeded.
  function Mark(store: Store, key: ObjectKey, reason: string, message: string, now: string,
                fault: WriteFault): (Store, bool) {
    if fault.GetFails? then (store, false)
    else if key !in store then (store, true)
    else
      var a := store[key].annotations;
      if Lookup(a, DriftReason) == reason && Lookup(a, DriftMessage) == message then (store, true)
      else if fault.PatchFails? then (store, false)
      else (store[key :=
        store[key].(annotations := a[DriftReason := reason][DriftMessage := message][DriftAt := now])], true)
  }

  // clearSecretDrift
  function Clear(store: Store, key: ObjectKey, fault: WriteFault): (Store, bool) {
    if fault.GetFails? then (store, false)
    else if key !in store then (store, true)
    else if DriftReason !in store[key].annotations then (store, true)
    else if fault.PatchFails? then (store, false)
    else (store[key := store[key].(annotations := Unmarked(store[key].annotations))], true)
  }

  // The two stores differ in nothing but the drift markers of one Secret.
  ghost predicate SameButMarkers(before: Store, after: Store, key: ObjectKey) {
    && before.Keys == after.Keys
    && (forall k :: k in before && k != key ==> after[k] == before[k])
    && (key in before ==>
          after[key].(annotations := Unmarked(after[key].annotations))
            == before[key].(annotations := Unmarked(before[key].annotations)))
  }

  lemma MarkProperties(store: Store, key: ObjectKey, reason: string, message: string, now: string, fault: WriteFault)
    ensures
      var (store', ok) := Mark(store, key, reason, message, now, fault);
      && SameButMarkers(store, store', key)
      && (ok && key in store ==>
            Lookup(store'[key].annotations, DriftReason) == reason
              && Lookup(store'[key].annotations, DriftMessage) == message)
      && (key in store && AllOrNoMarkers(store[key].annotations) ==> AllOrNoMarkers(store'[key].annotations))
  {
    var (store', ok) := Mark(store, key, reason, message, now, fault);
    if key in store {
      assert Unmarked(store'[key].annotations) == Unmarked(store[key].annotations);
    }
  }

  // Reason, message and time of a mark; a mark that says the same already keeps its time.
  lemma MarkReads(store: Store, key: ObjectKey, reason: string, message: string, now: string)
    requires key in store
    ensures
      var a, b := store[key].annotations, Mark(store, key, reason, message, now, NoFault).0[key].annotations;
      if Lookup(a, DriftReason) == reason && Lookup(a, DriftMessage) == message then b == a
      else
        && Lookup(b, DriftReason) == reason && Lookup(b, DriftMessage) == message && Lookup(b, DriftAt) == now
        && forall k :: k !in {DriftReason, DriftMessage, DriftAt} ==> Lookup(b, k) == Lookup(a, k)
  {
  }

  lemma ClearProperties(store: Store, key: ObjectKey, fault: WriteFault)
    ensures
      var (store', ok) := Clear(store, key, fault);
      && SameButMarkers(store, store', key)
      && (ok && key in store ==> DriftReason !in store'[key].annotations)
      && (key in store && AllOrNoMarkers(store[key].annotations) ==> AllOrNoMarkers(store'[key].annotations))
  {
    var (store', ok) := Clear(store, key, fault);
    if key in store {
      assert Unmarked(store'[key].annotations) == Unmarked(store[key].annotations);
    }
  }

  // A patch of the markers always shows in the store, too.
  lemma MarkersShow(store: Store, key: ObjectKey, reason: string, message: string, now: string)
    ensures
      var a := Lookup(if key in store then store[key].annotations else map[], DriftReason);
      var b := Lookup(if key in store then store[key].annotations else map[], DriftMessage);
      Mark(store, key, reason, message, now, NoFault).0 != store <==> key in store && (a != reason || b != message)
    ensures
      Clear(store, key, NoFault).0 != store <==> key in store && DriftReason in store[key].annotations
  {
    var marked, cleared := Mark(store, key, reason, message, now, NoFault).0, Clear(store, key, NoFault).0;
    if key in store {
      assert marked != store ==> marked[key] != store[key];
      assert DriftReason in store[key].annotations ==> cleared[key] != store[key];
      var a := store[key].annotations;
      if Lookup(a, DriftReason) != reason || Lookup(a, DriftMessage) != message {
        assert Lookup(marked[key].annotations, DriftReason) == reason;
        assert Lookup(marked[key].annotations, DriftMessage) == message;
      }
    }
  }

  /******* Target namespaces *******/

  datatype Namespace = Namespace(name: string, terminating: bool)

  datatype NamespaceFilter = NamespaceFilter(allow: seq<string>, deny: seq<string>)

  predicate IsClusterKind(kind: string) {
    HasSuffix(kind, "ClusterIssuer")
  }

  // Allow over Deny; terminating namespaces never.
  predicate Selected(ns: Namespace, filter: NamespaceFilter) {
    !ns.terminating && if filter.allow != [] then ns.name in filter.allow else ns.name !in filter.deny
  }

  // The namespaces of the list that the filter selects, in list order.
  function SelectedNames(list: seq<Namespace>, filter: NamespaceFilter): seq<string> {
    if list == [] then []
    else
      var n := |list| - 1;
      SelectedNames(list[..n], filter) + if Selected(list[n], filter) then [list[n].name] else []
  }

  function Targets(cert: Certificate, list: seq<Namespace>, filter: NamespaceFilter): seq<string> {
    if IsClusterKind(cert.issuerKind) then SelectedNames(list, filter) else [cert.namespace]
  }

  // `list` is None when the API server does not deliver it.
  method TargetNamespaces(cert: Certificate, list: Option<seq<Namespace>>,
                          filter: NamespaceFilter) returns (r: Option<seq<string>>)
    ensures r.None? <==> IsClusterKind(cert.issuerKind) && list.None?
    ensures r.Some? ==> r.value == Targets(cert, if list.Some? then list.value else [], filter)
    ensures !EndsInClusterIssuer(cert.issuerKind) ==> r == Some([cert.namespace])
    ensures EndsInClusterIssuer(cert.issuerKind) && r.Some? ==>
      forall n :: n in r.value <==>
        exists ns :: ns in list.value && ns.name == n && !ns.terminating
          && (if filter.allow != [] then n in filter.allow else n !in filter.deny)
  {
    TargetsExactly(cert, if list.Some? then list.value else [], filter);
    if !IsClusterKind(cert.issuerKind) { return Some([cert.namespace]); }
    if list.None? { return None; }
    var allow := set n | n in filter.allow;
    var deny := set n | n in filter.deny;
    var out: seq<string> := [];
    for i := 0 to |list.value|
      invariant out == SelectedNames(list.value[..i], filter)
    {
      assert list.value[..i + 1][..i] == list.value[..i];
      var ns := list.value[i];
      AllowSet(filter.allow, allow);
      if ns.terminating { continue; }
      if |allow| > 0 && ns.name !in allow { continue; }
      if |allow| == 0 && ns.name in deny { continue; }
      out := out + [ns.name];
    }
    assert list.value[..|list.value|] == list.value;
    return Some(out);
  }

  lemma AllowSet(names: seq<string>, s: set<string>)
    requires s == set n | n in names
    ensures |s| > 0 <==> names != []
  {
    if names != [] { assert names[0] in s; }
  }

  // Exactly the selected namespaces, none twice when the list has none twice.
  lemma {:induction false} SelectedNamesExact(list: seq<Namespace>, filter: NamespaceFilter)
    ensures forall n :: n in SelectedNames(list, filter) <==>
      exists ns :: ns in list && ns.name == n && Selected(ns, filter)
    ensures (forall i, j :: 0 <= i < j < |list| ==> list[i].name != list[j].name) ==>
      Distinct(SelectedNames(list, filter))
  {
    if list != [] {
      var n := |list| - 1;
      var init, last := list[..n], list[n];
      assert list == init + [last];
      SelectedNamesExact(init, filter);
      forall name ensures name in SelectedNames(list, filter) <==>
        exists ns :: ns in list && ns.name == name && Selected(ns, filter) {
        if name in SelectedNames(init, filter) {
          var ns :| ns in init && ns.name == name && Selected(ns, filter);
          assert ns in list;
        }
      }
      if last.name in SelectedNames(init, filter) {
        var ns :| ns in init && ns.name == last.name;
        var i :| 0 <= i < n && init[i] == ns;
        assert list[i].name == list[n].name;
      }
    }
  }

  ghost predicate EndsInClusterIssuer(kind: string) {
    |kind| >= 13 && kind[|kind| - 13..] == ['C', 'l', 'u', 's', 't', 'e', 'r', 'I', 's', 's', 'u', 'e', 'r']
  }

  // For a kind that ends in ClusterIssuer, a name is a target if and only if the list holds a namespace of that name
  // that is not terminating, and it is on the Allow list where there is one, else not on the Deny list. For any other
  // kind the Certificate's own namespace is the one target.
  lemma TargetsExactly(cert: Certificate, list: seq<Namespace>, filter: NamespaceFilter)
    ensures IsClusterKind(cert.issuerKind) <==> EndsInClusterIssuer(cert.issuerKind)
    ensures !EndsInClusterIssuer(cert.issuerKind) ==> Targets(cert, list, filter) == [cert.namespace]
    ensures EndsInClusterIssuer(cert.issuerKind) ==>
      forall n :: n in Targets(cert, list, filter) <==>
        exists ns :: ns in list && ns.name == n && !ns.terminating
          && (if filter.allow != [] then n in filter.allow else n !in filter.deny)
  {
    var kind := cert.issuerKind;
    assert "ClusterIssuer" == ['C', 'l', 'u', 's', 't', 'e', 'r', 'I', 's', 's', 'u', 'e', 'r'];
    SelectedNamesExact(list, filter);
  }

  // The targets come in the order of the list, each wanted place of it once.
  lemma {:induction false} SelectedInOrder(list: seq<Namespace>, filter: NamespaceFilter) returns (at: seq<nat>)
    ensures |at| == |SelectedNames(list, filter)| && forall i, j :: 0 <= i < j < |at| ==> at[i] < at[j]
    ensures forall i :: 0 <= i < |at| ==> at[i] < |list| && list[at[i]].name == SelectedNames(list, filter)[i]
    ensures forall k :: 0 <= k < |list| ==>
      (k in at <==>
         && !list[k].terminating
         && (if filter.allow != [] then list[k].name in filter.allow else list[k].name !in filter.deny))
  {
    at := [];
    if list != [] {
      var n := |list| - 1;
      at := SelectedInOrder(list[..n], filter);
      assert forall k :: k in at ==> k < n;
      if Selected(list[n], filter) {
        at := at + [n];
      }
    }
  }

  /******* Fan-out *******/

  // An owner has to live where its object lives; copies elsewhere name none.
  function Desired(cert: Certificate, template: Secret, ns: string): Secret {
    template.(owners := if ns == cert.namespace then [OwnerRef(cert.name, cert.uid)] else [])
  }

  ghost function WriteTo(lib: Crypto, store: Store, cert: Certificate, template: Secret, ns: string,
                         faults: string -> WriteFault): (Store, WriteResult) {
    Write(lib, store, ObjectKey(ns, cert.secretName), Desired(cert, template, ns), faults(ns))
  }

  // One write per target, in order, whatever the others did.
  ghost function FanOut(lib: Crypto, store: Store, cert: Certificate, template: Secret, targets: seq<string>,
                        faults: string -> WriteFault): (Store, seq<WriteResult>) {
    if targets == [] then (store, [])
    else
      var n := |targets| - 1;
      var (before, results) := FanOut(lib, store, cert, template, targets[..n], faults);
      var (after, result) := WriteTo(lib, before, cert, template, targets[n], faults);
      (after, results + [result])
  }

  lemma WriteFrame(lib: Crypto, store: Store, key: ObjectKey, desired: Secret, fault: WriteFault)
    ensures
      var (store', result) := Write(lib, store, key, desired, fault);
      && (forall k :: k != key ==> (k in store' <==> k in store) && (k in store ==> store'[k] == store[k]))
      && (result.WriteFailed? || result.Unchanged? ==> store' == store)
  {
    hide DataPreimage, UpToDate;
  }

  // The outcome for one namespace does not depend on the others: a target ends as its own write would
  // have left it, everything else stays.
  lemma {:induction false} FanOutAt(lib: Crypto, store: Store, cert: Certificate, template: Secret,
                                    targets: seq<string>, faults: string -> WriteFault)
    ensures
      var (store', results) := FanOut(lib, store, cert, template, targets, faults);
      && |results| == |targets|
      && (forall i :: 0 <= i < |targets| ==>
            var alone := WriteTo(lib, store, cert, template, targets[i], faults).1;
            results[i] == alone || (results[i].Unchanged? && !alone.WriteFailed?))
      && (forall ns :: ns in targets ==>
            Agree(store', WriteTo(lib, store, cert, template, ns, faults).0, ObjectKey(ns, cert.secretName)))
      && (forall k: ObjectKey :: k.name != cert.secretName || k.namespace !in targets ==> Agree(store', store, k))
  {
    hide Write, Desired;
    if targets != [] {
      var n := |targets| - 1;
      var init, ns := targets[..n], targets[n];
      var key := ObjectKey(ns, cert.secretName);
      assert targets == init + [ns];
      FanOutAt(lib, store, cert, template, init, faults);
      var before := FanOut(lib, store, cert, template, init, faults).0;
      WriteFrame(lib, before, key, Desired(cert, template, ns), faults(ns));
      WriteTwice(lib, store, before, key, Desired(cert, template, ns), faults(ns));
    }
  }

  // No namespace twice, no difference at all.
  lemma {:induction false} FanOutDistinct(lib: Crypto, store: Store, cert: Certificate, template: Secret,
                                          targets: seq<string>, faults: string -> WriteFault)
    requires Distinct(targets)
    ensures
      var results := FanOut(lib, store, cert, template, targets, faults).1;
      |results| == |targets| && forall i :: 0 <= i < |targets| ==>
        results[i] == WriteTo(lib, store, cert, template, targets[i], faults).1
  {
    hide Write;
    if targets != [] {
      var n := |targets| - 1;
      var init, ns := targets[..n], targets[n];
      FanOutDistinct(lib, store, cert, template, init, faults);
      FanOutAt(lib, store, cert, template, init, faults);
      assert ns !in init;
      WriteTwice(lib, store, FanOut(lib, store, cert, template, init, faults).0, ObjectKey(ns, cert.secretName),
                 Desired(cert, template, ns), faults(ns));
    }
  }

  ghost predicate Agree(a: Store, b: Store, key: ObjectKey) {
    (key in a <==> key in b) && (key in a ==> a[key] == b[key])
  }

  // Writing again what was just written, or what was just refused, has the same outcome.
  lemma WriteTwice(lib: Crypto, store: Store, before: Store, key: ObjectKey, desired: Secret, fault: WriteFault)
    requires Agree(before, store, key) || Agree(before, Write(lib, store, key, desired, fault).0, key)
    ensures
      var (once, r) := Write(lib, store, key, desired, fault);
      var (again, r') := Write(lib, before, key, desired, fault);
      && Agree(again, once, key)
      && (r' == r || (r'.Unchanged? && !r.WriteFailed?))
      && (Agree(before, store, key) ==> r' == r)
  {
    hide DataPreimage, UpToDate, Stamped;
    var (once, r) := Write(lib, store, key, desired, fault);
    if !r.WriteFailed? {
      WrittenIsUpToDate(lib, store, key, desired, fault);
    }
  }

  function FirstFailed(targets: seq<string>, results: seq<WriteResult>): Option<string>
    requires |targets| == |results|
  {
    if targets == [] then None
    else if results[0].WriteFailed? then Some(targets[0])
    else FirstFailed(targets[1..], results[1..])
  }

  lemma {:induction false} FirstFailedIsFirst(targets: seq<string>, results: seq<WriteResult>)
    requires |targets| == |results|
    ensures FirstFailed(targets, results).None? <==> forall i :: 0 <= i < |results| ==> !results[i].WriteFailed?
    ensures FirstFailed(targets, results).Some? ==>
      exists i :: 0 <= i < |results| && results[i].WriteFailed? && targets[i] == FirstFailed(targets, results).value
        && forall j :: 0 <= j < i ==> !results[j].WriteFailed?
  {
    if targets != [] && !results[0].WriteFailed? {
      FirstFailedIsFirst(targets[1..], results[1..]);
      if FirstFailed(targets, results).Some? {
        var i :| 0 <= i < |results[1..]| && results[1..][i].WriteFailed?
          && targets[1..][i] == FirstFailed(targets[1..], results[1..]).value
          && forall j :: 0 <= j < i ==> !results[1..][j].WriteFailed?;
        assert results[i + 1].WriteFailed? && targets[i + 1] == FirstFailed(targets, results).value;
        forall j | 0 <= j < i + 1 ensures !results[j].WriteFailed? {
          if j > 0 { assert results[j] == results[1..][j - 1]; }
        }
      }
    }
  }

  // No target holds data whose hash is that of other data to be written.
  ghost predicate NoCollisions(lib: Crypto, store: Store, cert: Certificate, template: Secret, targets: seq<string>) {
    forall ns :: ns in targets && ObjectKey(ns, cert.secretName) in store ==>
      NoCollision(lib, store[ObjectKey(ns, cert.secretName)].data, template.data)
  }

  // Fan-out under arbitrary failures: a target that does not fail ends with the desired payload, a failing
  // target and everything that is no target keeps what it had, and the failure reported is the first in list order.
  lemma FanOutUnderFailures(lib: Crypto, store: Store, cert: Certificate, template: Secret, targets: seq<string>,
                            faults: string -> WriteFault)
    requires NoCollisions(lib, store, cert, template, targets)
    ensures
      var (store', results) := FanOut(lib, store, cert, template, targets, faults);
      var failing := set ns | ns in targets && WriteTo(lib, store, cert, template, ns, faults).1.WriteFailed?;
      && |results| == |targets|
      && (forall ns :: ns in targets && ns !in failing ==>
            var key := ObjectKey(ns, cert.secretName);
            key in store' && SamePayload(store'[key], Stamped(lib, template), Stamped(lib, template).annotations.Keys))
      && (forall ns :: ns in failing ==> Agree(store', store, ObjectKey(ns, cert.secretName)))
      && (forall k: ObjectKey :: k.name != cert.secretName || k.namespace !in targets ==> Agree(store', store, k))
      && (FirstFailed(targets, results).None? <==> failing == {})
      && (FirstFailed(targets, results).Some? ==>
            exists i :: 0 <= i < |targets| && targets[i] == FirstFailed(targets, results).value && targets[i] in failing
              && forall j :: 0 <= j < i ==> targets[j] !in failing)
  {
    hide DataPreimage, UpToDate, Write, FanOut;
    FanOutAt(lib, store, cert, template, targets, faults);
    var (store', results) := FanOut(lib, store, cert, template, targets, faults);
    FirstFailedIsFirst(targets, results);
    var failing := set ns | ns in targets && WriteTo(lib, store, cert, template, ns, faults).1.WriteFailed?;
    forall ns | ns in targets {
      TargetWritten(lib, store, cert, template, ns, faults);
    }
    assert forall i :: 0 <= i < |targets| ==> targets[i] in targets;
    assert forall i :: 0 <= i < |results| ==> (results[i].WriteFailed? <==> targets[i] in failing);
  }

  lemma TargetWritten(lib: Crypto, store: Store, cert: Certificate, template: Secret, ns: string,
                      faults: string -> WriteFault)
    requires ObjectKey(ns, cert.secretName) in store ==>
      NoCollision(lib, store[ObjectKey(ns, cert.secretName)].data, template.data)
    ensures
      var (store', result) := WriteTo(lib, store, cert, template, ns, faults);
      var key := ObjectKey(ns, cert.secretName);
      && (result.WriteFailed? ==> store' == store)
      && (!result.WriteFailed? ==>
            key in store' && SamePayload(store'[key], Stamped(lib, template), Stamped(lib, template).annotations.Keys))
  {
    hide DataPreimage;
    var key, desired := ObjectKey(ns, cert.secretName), Desired(cert, template, ns);
    if key in store && UpToDate(lib, store[key], Stamped(lib, desired)) {
      assert lib.digest(DataPreimage(store[key].data)) == lib.digest(DataPreimage(desired.data));
      DataPreimageInjective(store[key].data, desired.data);
    }
  }
}
