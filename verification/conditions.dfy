// internal/controller/conditions.go.
module Conditions {

  datatype ConditionType = Ready | ExternalIssuerSynced | OtherCondition(name: string)

  datatype Condition = Condition(kind: ConditionType, status: bool, reason: string, message: string)

  type Conditions = seq<Condition>

  ghost predicate OnePerType(conds: Conditions) {
    forall i, j :: 0 <= i < j < |conds| ==> conds[i].kind != conds[j].kind
  }

  // The first condition of a type.
  function Find(conds: Conditions, kind: ConditionType): seq<Condition> {
    if conds == [] then []
    else if conds[0].kind == kind then [conds[0]]
    else Find(conds[1..], kind)
  }

  function Replaced(conds: Conditions, c: Condition): Conditions {
    if conds == [] then [c]
    else if conds[0].kind == c.kind then [c] + conds[1..]
    else [conds[0]] + Replaced(conds[1..], c)
  }

  // The first condition of the type is overwritten where it stands, or the new one is appended.
  lemma {:induction false} ReplacedAt(conds: Conditions, c: Condition, i: nat)
    requires i <= |conds| && (forall j :: 0 <= j < i ==> conds[j].kind != c.kind)
    requires i < |conds| ==> conds[i].kind == c.kind
    ensures Replaced(conds, c) == if i < |conds| then conds[i := c] else conds + [c]
  {
    if i > 0 {
      ReplacedAt(conds[1..], c, i - 1);
      assert conds == [conds[0]] + conds[1..];
    }
  }

  method AppendOrReplace(conds: Conditions, c: Condition) returns (r: Conditions)
    ensures r == Replaced(conds, c)
  {
    hide Replaced;
    for i := 0 to |conds|
      invariant forall j :: 0 <= j < i ==> conds[j].kind != c.kind
    {
      if conds[i].kind == c.kind {
        ReplacedAt(conds, c, i);
        return conds[i := c];
      }
    }
    ReplacedAt(conds, c, |conds|);
    return conds + [c];
  }

  // The new condition is found, every other type keeps its own, and setting it again changes nothing.
  lemma {:induction false} ReplacedFinds(conds: Conditions, c: Condition)
    ensures Find(Replaced(conds, c), c.kind) == [c]
    ensures forall k :: k != c.kind ==> Find(Replaced(conds, c), k) == Find(conds, k)
    ensures Replaced(Replaced(conds, c), c) == Replaced(conds, c)
  {
    if conds == [] {
      assert [c][1..] == [];
    } else if conds[0].kind == c.kind {
      assert ([c] + conds[1..])[1..] == conds[1..];
    } else {
      ReplacedFinds(conds[1..], c);
      assert Replaced(conds, c)[1..] == Replaced(conds[1..], c);
    }
  }

  lemma {:induction false} ReplacedOnePerType(conds: Conditions, c: Condition)
    requires OnePerType(conds)
    ensures OnePerType(Replaced(conds, c))
    ensures forall i :: 0 <= i < |Replaced(conds, c)| ==>
      Replaced(conds, c)[i].kind == c.kind
      || exists j :: 0 <= j < |conds| && conds[j].kind == Replaced(conds, c)[i].kind
  {
    if conds == [] {
    } else if conds[0].kind == c.kind {
      var r := [c] + conds[1..];
      assert forall i :: 0 <= i < |r| ==> r[i].kind == conds[i].kind;
    } else {
      ReplacedOnePerType(conds[1..], c);
      var rest := Replaced(conds[1..], c);
      forall i | 0 <= i < |rest|
        ensures rest[i].kind != conds[0].kind
        ensures rest[i].kind == c.kind || exists j :: 0 <= j < |conds| && conds[j].kind == rest[i].kind
      {
        if rest[i].kind != c.kind {
          var j :| 0 <= j < |conds[1..]| && conds[1..][j].kind == rest[i].kind;
          assert conds[j + 1].kind == rest[i].kind;
        }
      }
    }
  }
}
