// Consented learning (services/api-gateway/app/profile_platform.py): learned
// suggestions, the person's decisions about them, and the reset.

module Observations {
  import opened Options

  const CATEGORIES: set<string> := {"schedule", "planning", "communication", "identity", "boundaries", "goals"}

  datatype Decision = Suggested | Confirmed | Rejected

  // `value` is the learned JSON value in normal form.
  datatype Observation = Observation(id: nat, owner: string, category: string, value: string, state: Decision)

  datatype Store = Store(rows: seq<Observation>, nextId: nat)

  predicate Known(rows: seq<Observation>, owner: string, category: string, value: string) {
    exists i :: 0 <= i < |rows| && rows[i].owner == owner && rows[i].category == category && rows[i].value == value
  }

  // record_observation: the new row, or None when it is suppressed.
  function Recorded(s: Store, owner: string, category: string, value: string): (Store, Option<Observation>) {
    if category !in CATEGORIES || Known(s.rows, owner, category, value) then (s, None)
    else
      var o := Observation(s.nextId, owner, category, value, Suggested);
      (Store(s.rows + [o], s.nextId + 1), Some(o))
  }

  // The owner's row with the id; an id of another owner finds nothing.
  function Owned(rows: seq<Observation>, owner: string, id: nat): (i: nat)
    ensures i <= |rows| && (i < |rows| ==> rows[i].id == id && rows[i].owner == owner)
    ensures i == |rows| ==> forall j :: 0 <= j < |rows| ==> !(rows[j].id == id && rows[j].owner == owner)
  {
    if rows == [] || (rows[0].id == id && rows[0].owner == owner) then 0 else 1 + Owned(rows[1..], owner, id)
  }

  function Verdict(decision: string): Decision {
    if decision == "confirm" then Confirmed else Rejected
  }

  // decide_observation
  function Decided(s: Store, owner: string, id: nat, decision: string): Store {
    var i := Owned(s.rows, owner, id);
    if i == |s.rows| then s else s.(rows := s.rows[i := s.rows[i].(state := Verdict(decision))])
  }

  // reset_learned: forget what is suggested or confirmed, keep rejections.
  function Kept(rows: seq<Observation>, owner: string): seq<Observation> {
    if rows == [] then []
    else if rows[0].owner == owner && rows[0].state != Rejected then Kept(rows[1..], owner)
    else [rows[0]] + Kept(rows[1..], owner)
  }

  function Reset(s: Store, owner: string): Store {
    s.(rows := Kept(s.rows, owner))
  }

  class ObservationStore {
    var rows: seq<Observation>
    var nextId: nat

    ghost function Contents(): Store
      reads this
    {
      Store(rows, nextId)
    }

    constructor ()
      ensures Contents() == Store([], 0)
    {
      rows, nextId := [], 0;
    }

    method RecordObservation(owner: string, category: string, value: string) returns (o: Option<Observation>)
      modifies this
      ensures (Contents(), o) == Recorded(old(Contents()), owner, category, value)
      ensures o.Some? <==>
                && category in {"schedule", "planning", "communication", "identity", "boundaries", "goals"}
                && !exists i :: 0 <= i < |old(rows)| && old(rows)[i].owner == owner &&
                     old(rows)[i].category == category && old(rows)[i].value == value
      ensures rows == old(rows) + if o.Some? then [o.value] else []
      ensures o.Some? ==>
                && o.value.owner == owner && o.value.category == category && o.value.value == value
                && o.value.state == Suggested
    {
      if category !in CATEGORIES {
        return None;
      }
      for n := 0 to |rows|
        invariant Contents() == old(Contents())
        invariant !Known(rows[..n], owner, category, value)
      {
        if rows[n].owner == owner && rows[n].category == category && rows[n].value == value {
          return None;
        }
      }
      assert rows[..|rows|] == rows;
      var fresh' := Observation(nextId, owner, category, value, Suggested);
      rows, nextId := rows + [fresh'], nextId + 1;
      o := Some(fresh');
    }

    method DecideObservation(owner: string, id: nat, decision: string) returns (found: bool)
      modifies this
      ensures Contents() == Decided(old(Contents()), owner, id, decision)
      ensures found <==> exists i :: 0 <= i < |old(rows)| && old(rows)[i].id == id && old(rows)[i].owner == owner
    {
      var i := Owned(rows, owner, id);
      found := i < |rows|;
      if found {
        rows := rows[i := rows[i].(state := if decision == "confirm" then Confirmed else Rejected)];
      }
    }

    method ResetLearned(owner: string) returns (removed: nat)
      modifies this
      ensures Contents() == Reset(old(Contents()), owner)
      ensures removed == |old(rows)| - |rows|
    {
      var left: seq<Observation> := [];
      removed := 0;
      for n := 0 to |rows|
        invariant rows == old(rows) && nextId == old(nextId)
        invariant left + Kept(rows[n..], owner) == Kept(rows, owner)
        invariant removed == n - |left|
      {
        assert rows[n..][0] == rows[n] && rows[n..][1..] == rows[n + 1..];
        if rows[n].owner == owner && rows[n].state in {Suggested, Confirmed} {
          removed := removed + 1;
        } else {
          assert (left + [rows[n]]) + Kept(rows[n + 1..], owner) == left + ([rows[n]] + Kept(rows[n + 1..], owner));
          left := left + [rows[n]];
        }
      }
      rows := left;
    }
  }

  // ---- runs

  datatype Call =
    | Record(owner: string, category: string, value: string)
    | Decide(owner: string, id: nat, decision: string)
    | Forget(owner: string)

  function Apply(s: Store, call: Call): Store {
    match call
    case Record(owner, category, value) => Recorded(s, owner, category, value).0
    case Decide(owner, id, decision) => Decided(s, owner, id, decision)
    case Forget(owner) => Reset(s, owner)
  }

  function Run(s: Store, calls: seq<Call>): Store {
    if calls == [] then s else Apply(Run(s, calls[..|calls| - 1]), calls[|calls| - 1])
  }

  // One row per owner, category and value; ids are unique and below the next.
  predicate Valid(s: Store) {
    && (forall i, j :: 0 <= i < j < |s.rows| ==>
          !(s.rows[i].owner == s.rows[j].owner && s.rows[i].category == s.rows[j].category
            && s.rows[i].value == s.rows[j].value))
    && (forall i, j :: 0 <= i < j < |s.rows| ==> s.rows[i].id != s.rows[j].id)
    && (forall i :: 0 <= i < |s.rows| ==> s.rows[i].id < s.nextId)
  }

  lemma {:induction false} KeptMembers(rows: seq<Observation>, owner: string, o: Observation)
    ensures o in Kept(rows, owner) <==> o in rows && !(o.owner == owner && o.state != Rejected)
  {
    if rows == [] {
    } else {
      KeptMembers(rows[1..], owner, o);
      assert rows == [rows[0]] + rows[1..];
    }
  }

  lemma {:induction false} KeptValid(rows: seq<Observation>, owner: string, nextId: nat)
    requires Valid(Store(rows, nextId))
    ensures Valid(Store(Kept(rows, owner), nextId))
  {
    if rows == [] {
    } else {
      var rest := rows[1..];
      assert Valid(Store(rest, nextId));
      KeptValid(rest, owner, nextId);
      forall j | 0 <= j < |Kept(rest, owner)|
        ensures Kept(rest, owner)[j] in rest
      {
        KeptMembers(rest, owner, Kept(rest, owner)[j]);
      }
    }
  }

  lemma ApplyValid(s: Store, call: Call)
    requires Valid(s)
    ensures Valid(Apply(s, call))
  {
    if call.Forget? {
      KeptValid(s.rows, call.owner, s.nextId);
    }
  }

  // Over every run an owner has at most one observation per category and value.
  lemma {:induction false} RunValid(calls: seq<Call>)
    ensures Valid(Run(Store([], 0), calls))
  {
    if calls == [] {
    } else {
      RunValid(calls[..|calls| - 1]);
      ApplyValid(Run(Store([], 0), calls[..|calls| - 1]), calls[|calls| - 1]);
    }
  }

  // The owner confirms the observation after all.
  predicate Reconsiders(call: Call, o: Observation) {
    call.Decide? && call.owner == o.owner && call.id == o.id && call.decision == "confirm"
  }

  lemma ApplyKeepsRejected(s: Store, call: Call, o: Observation)
    requires Valid(s) && o in s.rows && o.state == Rejected && !Reconsiders(call, o)
    ensures o in Apply(s, call).rows
  {
    match call {
      case Record(_, _, _) =>
      case Decide(owner, id, decision) =>
        var i := Owned(s.rows, owner, id);
        var k :| 0 <= k < |s.rows| && s.rows[k] == o;
        assert i < |s.rows| ==> Apply(s, call).rows[k] == o;
      case Forget(owner) =>
        KeptMembers(s.rows, owner, o);
    }
  }

  // "confirm" confirms, any other text rejects, and all other rows stay.
  lemma DecisionByText(s: Store, o: Observation, decision: string)
    requires Valid(s) && o in s.rows
    ensures var s' := Decided(s, o.owner, o.id, decision);
            && |s'.rows| == |s.rows| && s'.nextId == s.nextId
            && (decision == "confirm" ==> o.(state := Confirmed) in s'.rows)
            && (decision != "confirm" ==> o.(state := Rejected) in s'.rows)
            && forall p :: p in s.rows && p != o ==> p in s'.rows
  {
    var i := Owned(s.rows, o.owner, o.id);
    var s' := Decided(s, o.owner, o.id, decision);
    var k :| 0 <= k < |s.rows| && s.rows[k] == o;
    assert i == k;
    assert s'.rows[k].state == Verdict(decision);
    forall p | p in s.rows && p != o ensures p in s'.rows {
      var j :| 0 <= j < |s.rows| && s.rows[j] == p;
      assert s'.rows[j] == p;
    }
  }

  // A rejection survives every reset, and as long as it is not reconsidered the
  // same value is never suggested again.
  lemma {:induction false} RejectionHolds(s: Store, calls: seq<Call>, o: Observation)
    requires Valid(s) && o in s.rows && o.state == Rejected
    requires forall i :: 0 <= i < |calls| ==> !Reconsiders(calls[i], o)
    ensures Valid(Run(s, calls)) && o in Run(s, calls).rows
    ensures Recorded(Run(s, calls), o.owner, o.category, o.value) == (Run(s, calls), None)
  {
    if calls != [] {
      var before, last := calls[..|calls| - 1], calls[|calls| - 1];
      RejectionHolds(s, before, o);
      ApplyValid(Run(s, before), last);
      ApplyKeepsRejected(Run(s, before), last, o);
    }
    var k :| 0 <= k < |Run(s, calls).rows| && Run(s, calls).rows[k] == o;
  }

  // So a value once refused stays refused until the owner confirms it after all.
  lemma RefusedForGood(s: Store, o: Observation, decision: string, calls: seq<Call>)
    requires Valid(s) && o in s.rows && decision != "confirm"
    requires forall i :: 0 <= i < |calls| ==> !Reconsiders(calls[i], o)
    ensures var s' := Run(Decided(s, o.owner, o.id, decision), calls);
            Recorded(s', o.owner, o.category, o.value) == (s', None)
  {
    var s1 := Decided(s, o.owner, o.id, decision);
    DecisionByText(s, o, decision);
    ApplyValid(s, Decide(o.owner, o.id, decision));
    RejectionHolds(s1, calls, o.(state := Rejected));
  }

  // A reset removes exactly the owner's rows that are not rejected.
  lemma ResetExactly(s: Store, owner: string, o: Observation)
    ensures o in Reset(s, owner).rows <==> o in s.rows && (o.owner != owner || o.state == Rejected)
  {
    KeptMembers(s.rows, owner, o);
  }

  // Nobody decides about another owner's observation.
  lemma OnlyOwnersDecide(s: Store, owner: string, id: nat, decision: string, o: Observation)
    requires o in s.rows && o.owner != owner
    ensures o in Decided(s, owner, id, decision).rows
  {
    var k :| 0 <= k < |s.rows| && s.rows[k] == o;
    var i := Owned(s.rows, owner, id);
    assert i < |s.rows| ==> Decided(s, owner, id, decision).rows[k] == o;
  }

  // Without a decision in between, forgetting and learning again is possible
  // exactly for what was not rejected.
  lemma LearnAgain(s: Store, o: Observation)
    requires Valid(s) && o in s.rows && o.category in CATEGORIES
    ensures Recorded(Reset(s, o.owner), o.owner, o.category, o.value).1.Some? <==> o.state != Rejected
  {
    var rows := Reset(s, o.owner).rows;
    KeptMembers(s.rows, o.owner, o);
    if Known(rows, o.owner, o.category, o.value) {
      var i :| 0 <= i < |rows| && rows[i].owner == o.owner && rows[i].category == o.category
        && rows[i].value == o.value;
      KeptMembers(s.rows, o.owner, rows[i]);
      assert rows[i] == o;
    }
  }
}
