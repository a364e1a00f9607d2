// Requests that read a row and later commit what they made of it, with the
// steps of different requests interleaved.

module Transactions {

  datatype Step = Read(i: nat) | Commit(i: nat)

  function Readers(steps: seq<Step>): set<nat> {
    if steps == [] then {}
    else
      var before, last := steps[..|steps| - 1], steps[|steps| - 1];
      if last.Read? then Readers(before) + {last.i} else Readers(before)
  }

  function Committers(steps: seq<Step>): set<nat> {
    if steps == [] then {}
    else
      var before, last := steps[..|steps| - 1], steps[|steps| - 1];
      if last.Commit? then Committers(before) + {last.i} else Committers(before)
  }

  // Every request reads once, and commits at most once, after its read.
  predicate WellFormed(steps: seq<Step>) {
    steps == [] ||
    var before, last := steps[..|steps| - 1], steps[|steps| - 1];
    && WellFormed(before)
    && (if last.Read? then last.i !in Readers(before)
        else last.i in Readers(before) && last.i !in Committers(before))
  }

  // A request commits between the read and the commit of another.
  predicate Interrupted(steps: seq<Step>) {
    exists p, r, n :: 0 <= p < r < n < |steps| && Interrupts(steps, p, r, n)
  }

  predicate Interrupts(steps: seq<Step>, p: int, r: int, n: int)
    requires 0 <= p < r < n < |steps|
  {
    steps[p].Read? && steps[r].Commit? && steps[n] == Commit(steps[p].i)
  }

  // The requests that have read since the last commit.
  function Current(steps: seq<Step>): set<nat> {
    if steps == [] then {}
    else
      var before, last := steps[..|steps| - 1], steps[|steps| - 1];
      if last.Read? then Current(before) + {last.i} else {}
  }

  // Every request that commits has read since the last commit.
  predicate Undisturbed(steps: seq<Step>) {
    steps == [] ||
    var before, last := steps[..|steps| - 1], steps[|steps| - 1];
    Undisturbed(before) && (last.Commit? ==> last.i in Current(before))
  }

  predicate ReadThenCommit(steps: seq<Step>, i: nat, p: int, r: int)
    requires 0 <= p < r < |steps|
  {
    steps[p] == Read(i) && steps[r].Commit?
  }

  // A read is no longer current exactly when a commit has followed it.
  lemma {:induction false} CurrentExactly(steps: seq<Step>, i: nat)
    requires WellFormed(steps) && i in Readers(steps)
    ensures i !in Current(steps) <==> exists p, r :: 0 <= p < r < |steps| && ReadThenCommit(steps, i, p, r)
  {
    var before, last := steps[..|steps| - 1], steps[|steps| - 1];
    assert forall m :: 0 <= m < |before| ==> steps[m] == before[m];
    ReadAt(before, i);
    if last == Read(i) {
    } else if last.Read? {
      CurrentExactly(before, i);
      if i !in Current(before) {
        var p, r :| 0 <= p < r < |before| && ReadThenCommit(before, i, p, r);
        assert ReadThenCommit(steps, i, p, r);
      }
      if p, r :| 0 <= p < r < |steps| && ReadThenCommit(steps, i, p, r) {
        assert ReadThenCommit(before, i, p, r);
      }
    } else {
      var p :| 0 <= p < |before| && before[p] == Read(i);
      assert ReadThenCommit(steps, i, p, |before|);
    }
  }

  lemma {:induction false} ReadAt(steps: seq<Step>, i: nat)
    ensures i in Readers(steps) <==> exists p :: 0 <= p < |steps| && steps[p] == Read(i)
  {
    if steps != [] {
      var before := steps[..|steps| - 1];
      assert forall m :: 0 <= m < |before| ==> steps[m] == before[m];
      ReadAt(before, i);
      assert steps[|before|] == Read(i) ==> i in Readers(steps);
    }
  }

  lemma {:induction false} UndisturbedExactly(steps: seq<Step>)
    requires WellFormed(steps)
    ensures Undisturbed(steps) <==> !Interrupted(steps)
  {
    if steps != [] {
      var before, last := steps[..|steps| - 1], steps[|steps| - 1];
      assert forall m :: 0 <= m < |before| ==> steps[m] == before[m];
      UndisturbedExactly(before);
      if last.Commit? {
        CurrentExactly(before, last.i);
      }
      InterruptedStep(before, last);
      assert steps == before + [last];
    }
  }

  ghost predicate InterruptedBy(before: seq<Step>, last: Step) {
    last.Commit? && exists p, r :: 0 <= p < r < |before| && ReadThenCommit(before, last.i, p, r)
  }

  lemma InterruptedStep(before: seq<Step>, last: Step)
    ensures Interrupted(before + [last]) <==> Interrupted(before) || InterruptedBy(before, last)
  {
    var steps := before + [last];
    if p, r, n :| 0 <= p < r < n < |steps| && Interrupts(steps, p, r, n) {
      if n < |before| {
        assert Interrupts(before, p, r, n);
      } else {
        assert ReadThenCommit(before, last.i, p, r);
      }
    }
    if p, r, n :| 0 <= p < r < n < |before| && Interrupts(before, p, r, n) {
      assert Interrupts(steps, p, r, n);
    }
    if InterruptedBy(before, last) {
      var p, r :| 0 <= p < r < |before| && ReadThenCommit(before, last.i, p, r);
      assert Interrupts(steps, p, r, |before|);
    }
  }
}
