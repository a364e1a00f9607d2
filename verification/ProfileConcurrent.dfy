// Profile updates of different requests at the same time. A request reads the
// row, compares the revision, and writes the next one; nothing in the UPDATE
// itself looks at the revision (services/api-gateway/app/profile_platform.py).

module ProfileConcurrent {
  import opened Options
  import opened Transactions
  import Profile

  datatype Writer = Writer(update: Profile.Update, ifMatch: Option<int>)

  // The requests by number.
  type Writers = nat -> Writer

  // The committed row of an existing profile, what each request has read, and
  // the revisions that the accepted writers held.
  datatype State = State(row: Profile.Row, seen: map<nat, Profile.Row>, held: seq<int>)

  // The UPDATE sets the columns that differ from what was read: the revision
  // after that one, fields provided, and consents merged into those read.
  function Written(current: Profile.Row, seen: Profile.Row, u: Profile.Update): Profile.Row {
    var consent := seen.consent + Profile.ConsentOf(u);
    Profile.Row(seen.revision + 1, current.fields + Changed(seen, u),
                if consent != seen.consent then consent else current.consent, current.reviewedAt)
  }

  function Changed(seen: Profile.Row, u: Profile.Update): map<Profile.Field, Profile.Value> {
    map f | f in u.provided && (f !in seen.fields || seen.fields[f] != u.provided[f]) :: u.provided[f]
  }

  function Next(s: State, writers: Writers, step: Step): State {
    match step
    case Read(i) => s.(seen := s.seen[i := s.row])
    case Commit(i) =>
      if i in s.seen && writers(i).ifMatch == Some(s.seen[i].revision) then
        s.(row := Written(s.row, s.seen[i], writers(i).update), held := s.held + [s.seen[i].revision])
      else s
  }

  function Run(row: Profile.Row, writers: Writers, steps: seq<Step>): State {
    if steps == [] then State(row, map[], [])
    else Next(Run(row, writers, steps[..|steps| - 1]), writers, steps[|steps| - 1])
  }

  // The requests that commit, one after another.
  function Calls(writers: Writers, steps: seq<Step>): seq<Profile.Call> {
    if steps == [] then []
    else
      var before, last := Calls(writers, steps[..|steps| - 1]), steps[|steps| - 1];
      match last
      case Read(_) => before
      case Commit(i) => before + [Profile.Put(writers(i).update, writers(i).ifMatch)]
  }

  function Serial(row: Profile.Row, writers: Writers, steps: seq<Step>): Profile.State {
    Profile.Run(Profile.State(Some(row), None), Calls(writers, steps))
  }

  predicate Rising(held: seq<int>) {
    forall a, b :: 0 <= a < b < |held| ==> held[a] < held[b]
  }

  // ---- when no commit falls between a read and its own commit

  ghost predicate Kept(row: Profile.Row, writers: Writers, steps: seq<Step>) {
    var s := Run(row, writers, steps);
    && (forall i: nat :: i in Current(steps) ==> i in s.seen && s.seen[i] == s.row)
    && Serial(row, writers, steps) == Profile.State(Some(s.row), None)
    && Rising(s.held) && (forall a :: 0 <= a < |s.held| ==> s.held[a] < s.row.revision)
  }

  lemma SerialStep(row: Profile.Row, writers: Writers, steps: seq<Step>)
    requires steps != []
    ensures var before, last := Serial(row, writers, steps[..|steps| - 1]), steps[|steps| - 1];
            var w := writers(last.i);
            Serial(row, writers, steps) ==
            if last.Read? then before else Profile.Updated(before, w.update, w.ifMatch).0
  {
    var before, w := Calls(writers, steps[..|steps| - 1]), writers(steps[|steps| - 1].i);
    assert (before + [Profile.Put(w.update, w.ifMatch)])[..|before|] == before;
  }

  // With a current read, the UPDATE does what the request does in one step.
  lemma CurrentWrite(row: Profile.Row, w: Writer)
    ensures var s := Profile.State(Some(row), None);
            Profile.Updated(s, w.update, w.ifMatch).0 ==
            if w.ifMatch == Some(row.revision) then Profile.State(Some(Written(row, row, w.update)), None) else s
  {
    assert row.fields + Changed(row, w.update) == row.fields + w.update.provided;
  }

  lemma CommitKeeps(row: Profile.Row, writers: Writers, before: seq<Step>, i: nat)
    requires Kept(row, writers, before) && i in Current(before)
    ensures Kept(row, writers, before + [Commit(i)])
  {
    var steps := before + [Commit(i)];
    assert steps[..|before|] == before;
    SerialStep(row, writers, steps);
    CurrentWrite(Run(row, writers, before).row, writers(i));
  }

  lemma ReadKeeps(row: Profile.Row, writers: Writers, before: seq<Step>, i: nat)
    requires Kept(row, writers, before)
    ensures Kept(row, writers, before + [Read(i)])
  {
    var steps := before + [Read(i)];
    assert steps[..|before|] == before;
    SerialStep(row, writers, steps);
  }

  lemma {:induction false} RunKeeps(row: Profile.Row, writers: Writers, steps: seq<Step>)
    requires Undisturbed(steps)
    ensures Kept(row, writers, steps)
  {
    if steps != [] {
      var before, last := steps[..|steps| - 1], steps[|steps| - 1];
      assert steps == before + [last];
      RunKeeps(row, writers, before);
      if last.Read? {
        ReadKeeps(row, writers, before, last.i);
      } else {
        CommitKeeps(row, writers, before, last.i);
      }
    }
  }

  // If no writer commits between the read and the commit of another, the row
  // is that of a serial run of the writers in the order of their commits, and
  // the accepted writers held larger and larger revisions.
  lemma SerialWithoutInterruption(row: Profile.Row, writers: Writers, steps: seq<Step>)
    requires WellFormed(steps) && !Interrupted(steps)
    ensures Serial(row, writers, steps) == Profile.State(Some(Run(row, writers, steps).row), None)
    ensures Rising(Run(row, writers, steps).held)
  {
    UndisturbedExactly(steps);
    RunKeeps(row, writers, steps);
  }

  // ---- when one does

  const Nothing: Profile.Update := Profile.Update(map[], None)

  const FirstRow: Profile.Row := Profile.Row(1, map[], map[], None)

  // Two writers that hold revision 1, and all others without a header.
  function Rivals(i: nat, j: nat): Writers {
    k => Writer(Nothing, if k == i || k == j then Some(1) else None)
  }

  lemma {:induction false} BeforeRivals(steps: seq<Step>, i: nat, j: nat)
    requires i !in Committers(steps) && j !in Committers(steps)
    ensures var s := Run(FirstRow, Rivals(i, j), steps);
            && s.row == FirstRow && s.held == []
            && forall k: nat :: k in Readers(steps) ==> k in s.seen && s.seen[k] == FirstRow
  {
    if steps != [] {
      BeforeRivals(steps[..|steps| - 1], i, j);
    }
  }

  // A reader that is no longer current has a rival that was accepted, and it
  // still holds the revision which that rival held.
  lemma {:induction false} OneAccepted(steps: seq<Step>, j: nat) returns (i: nat)
    requires WellFormed(steps) && j in Readers(steps) && j !in Current(steps) && j !in Committers(steps)
    ensures i in Committers(steps)
    ensures var s := Run(FirstRow, Rivals(i, j), steps); s.held == [1] && j in s.seen && s.seen[j].revision == 1
  {
    var before, last := steps[..|steps| - 1], steps[|steps| - 1];
    if last.Commit? && j in Current(before) {
      i := last.i;
      BeforeRivals(before, i, j);
    } else {
      i := OneAccepted(before, j);
    }
  }

  // ---- exactly when

  // Whatever the row and the requests, no two accepted writers held one revision.
  ghost predicate OneWinner(steps: seq<Step>) {
    forall row: Profile.Row, writers: Writers :: Distinct(Run(row, writers, steps).held)
  }

  predicate Distinct(held: seq<int>) {
    forall a, b :: 0 <= a < b < |held| ==> held[a] != held[b]
  }

  lemma {:induction false} LostUpdate(steps: seq<Step>)
    requires WellFormed(steps) && !Undisturbed(steps)
    ensures !OneWinner(steps)
  {
    var before, last := steps[..|steps| - 1], steps[|steps| - 1];
    if !Undisturbed(before) {
      LostUpdate(before);
      var row: Profile.Row, writers: Writers :| !Distinct(Run(row, writers, before).held);
      var held, held' := Run(row, writers, before).held, Run(row, writers, steps).held;
      var a, b :| 0 <= a < b < |held| && held[a] == held[b];
      assert held'[a] == held'[b];
    } else {
      var i := OneAccepted(before, last.i);
      var held := Run(FirstRow, Rivals(i, last.i), steps).held;
      assert held == [1] + [1];
      assert held[0] == held[1];
    }
  }

  // At most one writer of each revision is accepted, for all rows and requests,
  // if and only if no request commits between the read and the commit of another.
  lemma OneWinnerExactly(steps: seq<Step>)
    requires WellFormed(steps)
    ensures OneWinner(steps) <==> !Interrupted(steps)
  {
    UndisturbedExactly(steps);
    if Interrupted(steps) {
      LostUpdate(steps);
    } else {
      forall row: Profile.Row, writers: Writers ensures Distinct(Run(row, writers, steps).held) {
        SerialWithoutInterruption(row, writers, steps);
      }
    }
  }
}
