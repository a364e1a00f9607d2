// The durable event log and the clients that tail it
// (services/api-gateway/app/events.py).

module EventLog {
  import opened Sequences

  const POLL_LIMIT := 200
  const HEARTBEAT_EVERY := 15

  const EVENT_TYPES: set<string> :=
    {"plan.updated", "block.started", "approval.requested", "agent.state_changed", "blocker.raised"}

  // `number` is the column `seq`.
  datatype Event = Event(number: nat, workspaceId: string, kind: string, payload: map<string, string>)

  // ---- the table, in the order of its numbers

  predicate Increasing(events: seq<Event>) {
    forall i, j :: 0 <= i < j < |events| ==> events[i].number < events[j].number
  }

  predicate Wanted(e: Event, workspace: string, after: nat) {
    e.workspaceId == workspace && e.number > after
  }

  // The events of a workspace above a number, in order.
  function Since(events: seq<Event>, workspace: string, after: nat): seq<Event> {
    if events == [] then []
    else if Wanted(events[0], workspace, after) then [events[0]] + Since(events[1..], workspace, after)
    else Since(events[1..], workspace, after)
  }

  // ... where workspace_id = w and seq > after order by seq limit n
  function ListEventsSince(events: seq<Event>, workspace: string, after: nat, limit: nat): seq<Event> {
    var all := Since(events, workspace, after);
    if |all| <= limit then all else all[..limit]
  }

  lemma {:induction false} SinceMembers(events: seq<Event>, workspace: string, after: nat, e: Event)
    ensures e in Since(events, workspace, after) <==> e in events && Wanted(e, workspace, after)
  {
    if events == [] {
    } else {
      SinceMembers(events[1..], workspace, after, e);
      assert events == [events[0]] + events[1..];
    }
  }

  lemma {:induction false} SinceIncreasing(events: seq<Event>, workspace: string, after: nat)
    requires Increasing(events)
    ensures Increasing(Since(events, workspace, after))
  {
    if events == [] {
    } else {
      var rest := Since(events[1..], workspace, after);
      SinceIncreasing(events[1..], workspace, after);
      forall i | 0 <= i < |rest| ensures events[0].number < rest[i].number {
        SinceMembers(events[1..], workspace, after, rest[i]);
      }
    }
  }

  // Asking again from the k-th event answers with the events after it.
  lemma {:induction false} SinceLater(events: seq<Event>, workspace: string, after: nat, k: nat)
    requires Increasing(events) && 0 < k <= |Since(events, workspace, after)|
    ensures Since(events, workspace, Since(events, workspace, after)[k - 1].number) ==
            Since(events, workspace, after)[k..]
  {
    var all := Since(events, workspace, after);
    if Wanted(events[0], workspace, after) {
      var rest := Since(events[1..], workspace, after);
      if k == 1 {
        SinceAbove(events[1..], workspace, after, events[0].number);
      } else {
        SinceLater(events[1..], workspace, after, k - 1);
        SinceMembers(events[1..], workspace, after, rest[k - 2]);
        assert all[k - 1] == rest[k - 2];
      }
    } else {
      SinceLater(events[1..], workspace, after, k);
      SinceMembers(events[1..], workspace, after, all[k - 1]);
    }
  }

  lemma {:induction false} SinceAbove(events: seq<Event>, workspace: string, after: nat, number: nat)
    requires after <= number && forall i :: 0 <= i < |events| ==> events[i].number > number
    ensures Since(events, workspace, number) == Since(events, workspace, after)
  {
    if events == [] {
    } else {
      SinceAbove(events[1..], workspace, after, number);
    }
  }

  class EventTable {
    var events: seq<Event>

    ghost predicate Valid()
      reads this
    {
      Increasing(events)
    }

    constructor ()
      ensures Valid() && events == []
    {
      events := [];
    }

    // Append an event under the next number. A type outside the list is allowed
    // and flagged in the payload.
    method RecordEvent(workspace: string, kind: string, payload: map<string, string>) returns (event: Event)
      requires Valid()
      modifies this
      ensures Valid() && events == old(events) + [event]
      ensures forall e :: e in old(events) ==> e.number < event.number
      ensures event.workspaceId == workspace && event.kind == kind
      ensures event.payload ==
              if kind in {"plan.updated", "block.started", "approval.requested", "agent.state_changed",
                          "blocker.raised"}
              then payload else payload["_unknownType" := "true"]
    {
      var number := if events == [] then 1 else events[|events| - 1].number + 1;
      var flagged := if kind in EVENT_TYPES then payload else payload["_unknownType" := "true"];
      event := Event(number, workspace, kind, flagged);
      events := events + [event];
    }
  }

  // ---- one poll of the stream

  datatype Frame = EventFrame(event: Event) | Heartbeat

  function Frames(events: seq<Event>): seq<Frame> {
    if events == [] then [] else Frames(events[..|events| - 1]) + [EventFrame(events[|events| - 1])]
  }

  class EventStream {
    const workspace: string
    var cursor: nat
    var cycles: nat

    constructor (workspaceId: string, lastSeq: nat)
      ensures workspace == workspaceId && cursor == lastSeq && cycles == 0
    {
      workspace := workspaceId;
      cursor := lastSeq;
      cycles := 0;
    }

    // One turn of the loop: the waiting events, or at every fifteenth empty
    // turn a heartbeat.
    method PollOnce(table: seq<Event>) returns (frames: seq<Frame>)
      requires cycles < HEARTBEAT_EVERY
      modifies this
      ensures cycles < HEARTBEAT_EVERY
      ensures var rows := ListEventsSince(table, workspace, old(cursor), 200);
              if rows != [] then
                frames == Frames(rows) && cursor == rows[|rows| - 1].number && cycles == 0
              else
                && cursor == old(cursor) && cycles == (old(cycles) + 1) % 15
                && frames == if cycles == 0 then [Heartbeat] else []
    {
      var rows := ListEventsSince(table, workspace, cursor, POLL_LIMIT);
      frames := [];
      if rows != [] {
        for n := 0 to |rows|
          invariant frames == Frames(rows[..n])
          invariant n > 0 ==> cursor == rows[n - 1].number
          invariant unchanged(this`cycles)
        {
          assert rows[..n + 1][..n] == rows[..n];
          cursor := rows[n].number;
          frames := frames + [EventFrame(rows[n])];
        }
        assert rows[..|rows|] == rows;
        cycles := 0;
      } else {
        cycles := cycles + 1;
        if cycles >= HEARTBEAT_EVERY {
          cycles := 0;
          frames := [Heartbeat];
        }
      }
    }
  }

  // ---- draining a backlog

  // The batches of successive polls while nothing is appended, up to the first
  // empty one.
  function Batches(events: seq<Event>, workspace: string, cursor: nat): seq<seq<Event>>
    requires Increasing(events)
    decreases |Since(events, workspace, cursor)|
  {
    var rows := ListEventsSince(events, workspace, cursor, POLL_LIMIT);
    if rows == [] then []
    else
      SinceLater(events, workspace, cursor, |rows|);
      [rows] + Batches(events, workspace, rows[|rows| - 1].number)
  }

  function CeilDiv(k: nat, n: nat): nat
    requires n > 0
  {
    (k + n - 1) / n
  }

  // A backlog of k events arrives complete and in order in ceil(k / 200) polls.
  lemma {:induction false} BacklogDrains(events: seq<Event>, workspace: string, cursor: nat)
    requires Increasing(events)
    ensures var all := Since(events, workspace, cursor);
            && Concat(Batches(events, workspace, cursor)) == all
            && |Batches(events, workspace, cursor)| == CeilDiv(|all|, 200)
    decreases |Since(events, workspace, cursor)|
  {
    var all := Since(events, workspace, cursor);
    var rows := ListEventsSince(events, workspace, cursor, POLL_LIMIT);
    if rows != [] {
      var last := rows[|rows| - 1].number;
      SinceLater(events, workspace, cursor, |rows|);
      BacklogDrains(events, workspace, last);
      assert Batches(events, workspace, cursor)[1..] == Batches(events, workspace, last);
      assert rows + all[|rows|..] == all;
    }
  }
}

// A client that connects, is served, loses its connection and reconnects with
// the last number it saw, while events become visible in the table.
module EventTail {
  import opened EventLog

  datatype Connection = Offline | Online(cursor: nat, batch: seq<Event>)

  datatype State = State(
    table: seq<Event>,    // the visible events
    workspace: string,
    start: nat,           // where the client first connected from
    lastSeen: nat,
    log: seq<Event>,      // what the client has received
    connection: Connection)

  datatype Step =
    | Commit(event: Event)  // an event becomes visible
    | Connect               // with the last number seen
    | Poll
    | Deliver               // the next event of the batch reaches the client
    | Disconnect            // the rest of the batch is gone

  predicate Enabled(s: State, step: Step) {
    match step
    case Commit(e) => forall i :: 0 <= i < |s.table| ==> s.table[i].number != e.number
    case Connect => s.connection.Offline?
    case Poll => s.connection.Online? && s.connection.batch == []
    case Deliver => s.connection.Online? && s.connection.batch != []
    case Disconnect => s.connection.Online?
  }

  function Insert(table: seq<Event>, e: Event): seq<Event> {
    if table == [] || e.number < table[0].number then [e] + table
    else [table[0]] + Insert(table[1..], e)
  }

  function Next(s: State, step: Step): State
    requires Enabled(s, step)
  {
    match step
    case Commit(e) => s.(table := Insert(s.table, e))
    case Connect => s.(connection := Online(s.lastSeen, []))
    case Poll =>
      s.(connection := s.connection.(batch := ListEventsSince(s.table, s.workspace, s.connection.cursor, POLL_LIMIT)))
    case Deliver =>
      var e := s.connection.batch[0];
      s.(lastSeen := e.number, log := s.log + [e], connection := Online(e.number, s.connection.batch[1..]))
    case Disconnect => s.(connection := Offline)
  }

  predicate Initial(s: State) {
    Increasing(s.table) && s.lastSeen == s.start && s.log == [] && s.connection.Offline?
  }

  predicate IsRun(s: State, steps: seq<Step>)
    decreases |steps|
  {
    steps == [] || (Enabled(s, steps[0]) && IsRun(Next(s, steps[0]), steps[1..]))
  }

  function Run(s: State, steps: seq<Step>): State
    requires IsRun(s, steps)
    decreases |steps|
  {
    if steps == [] then s else Run(Next(s, steps[0]), steps[1..])
  }

  // ---- nothing is replayed, invented or reordered

  predicate Sound(s: State) {
    && Increasing(s.table) && Increasing(s.log) && s.start <= s.lastSeen
    && (forall e :: e in s.log ==> e in s.table && Wanted(e, s.workspace, s.start) && e.number <= s.lastSeen)
    && (s.connection.Online? ==>
          && s.connection.cursor == s.lastSeen
          && Increasing(s.connection.batch)
          && forall e :: e in s.connection.batch ==> e in s.table && Wanted(e, s.workspace, s.lastSeen))
  }

  lemma {:induction false} InsertMembers(table: seq<Event>, e: Event, x: Event)
    ensures x in Insert(table, e) <==> x == e || x in table
  {
    if table != [] && e.number >= table[0].number {
      InsertMembers(table[1..], e, x);
      assert table == [table[0]] + table[1..];
    }
  }

  lemma {:induction false} InsertIncreasing(table: seq<Event>, e: Event)
    requires Increasing(table) && forall i :: 0 <= i < |table| ==> table[i].number != e.number
    ensures Increasing(Insert(table, e))
  {
    if table != [] && e.number >= table[0].number {
      var rest := Insert(table[1..], e);
      InsertIncreasing(table[1..], e);
      forall i | 0 <= i < |rest| ensures table[0].number < rest[i].number {
        InsertMembers(table[1..], e, rest[i]);
      }
    }
  }

  lemma CommitSound(s: State, e: Event)
    requires Sound(s) && Enabled(s, Commit(e))
    ensures Sound(Next(s, Commit(e)))
  {
    InsertIncreasing(s.table, e);
    forall x | x in s.table ensures x in Insert(s.table, e) {
      InsertMembers(s.table, e, x);
    }
  }

  lemma PollSound(s: State)
    requires Sound(s) && Enabled(s, Poll)
    ensures Sound(Next(s, Poll))
  {
    var all := Since(s.table, s.workspace, s.lastSeen);
    SinceIncreasing(s.table, s.workspace, s.lastSeen);
    var batch := Next(s, Poll).connection.batch;
    forall e | e in batch ensures e in s.table && Wanted(e, s.workspace, s.lastSeen) {
      assert e in all;
      SinceMembers(s.table, s.workspace, s.lastSeen, e);
    }
  }

  lemma DeliverSound(s: State)
    requires Sound(s) && Enabled(s, Deliver)
    ensures Sound(Next(s, Deliver))
  {
    var batch := s.connection.batch;
    assert batch[0] in batch;
    forall e | e in batch[1..] ensures e in s.table && Wanted(e, s.workspace, batch[0].number) {
      assert e in batch;
    }
    forall i | 0 <= i < |s.log| ensures s.log[i].number < batch[0].number {
      assert s.log[i] in s.log;
    }
  }

  lemma NextSound(s: State, step: Step)
    requires Sound(s) && Enabled(s, step)
    ensures Sound(Next(s, step))
  {
    match step {
      case Commit(e) => CommitSound(s, e);
      case Connect =>
      case Poll => PollSound(s);
      case Deliver => DeliverSound(s);
      case Disconnect =>
    }
  }

  lemma {:induction false} RunSound(s: State, steps: seq<Step>)
    requires Sound(s) && IsRun(s, steps)
    ensures Sound(Run(s, steps))
    decreases |steps|
  {
    if steps == [] {
    } else {
      NextSound(s, steps[0]);
      RunSound(Next(s, steps[0]), steps[1..]);
    }
  }

  // ---- nothing is missed

  // The event should be in the log by now.
  predicate Due(s: State, e: Event) {
    e in s.table && Wanted(e, s.workspace, s.start) && e.number <= s.lastSeen
  }

  predicate Complete(s: State) {
    forall i :: 0 <= i < |s.table| && Due(s, s.table[i]) ==> s.table[i] in s.log
  }

  // The events of the workspace above the start, up to the last number seen.
  function Reference(s: State): seq<Event> {
    Upto(Since(s.table, s.workspace, s.start), s.lastSeen)
  }

  function Upto(events: seq<Event>, number: nat): seq<Event> {
    if events == [] || events[0].number > number then [] else [events[0]] + Upto(events[1..], number)
  }

  lemma {:induction false} UptoMembers(events: seq<Event>, number: nat, e: Event)
    requires Increasing(events)
    ensures e in Upto(events, number) <==> e in events && e.number <= number
    ensures Increasing(Upto(events, number))
  {
    if events == [] {
    } else {
      if events[0].number <= number {
        UptoMembers(events[1..], number, e);
        var rest := Upto(events[1..], number);
        forall i | 0 <= i < |rest| ensures events[0].number < rest[i].number {
          UptoMembers(events[1..], number, rest[i]);
        }
        assert events == [events[0]] + events[1..];
      }
    }
  }

  lemma {:induction false} IncreasingUnique(a: seq<Event>, b: seq<Event>)
    requires Increasing(a) && Increasing(b) && forall e :: e in a <==> e in b
    ensures a == b
  {
    assert a != [] ==> a[0] in b;
    assert b != [] ==> b[0] in a;
    if a != [] {
      assert a[0] == b[0];
      forall e ensures e in a[1..] <==> e in b[1..] {
        assert e in a <==> e == a[0] || e in a[1..];
        assert e in b <==> e == b[0] || e in b[1..];
      }
      IncreasingUnique(a[1..], b[1..]);
    }
  }

  // Completeness means that the log is exactly the reference.
  lemma CompleteMeansExact(s: State)
    requires Sound(s)
    ensures Complete(s) <==> s.log == Reference(s)
  {
    var all := Since(s.table, s.workspace, s.start);
    SinceIncreasing(s.table, s.workspace, s.start);
    forall e ensures e in Reference(s) <==> Due(s, e) {
      SinceMembers(s.table, s.workspace, s.start, e);
      UptoMembers(all, s.lastSeen, e);
    }
    if Complete(s) {
      forall e ensures e in s.log <==> e in Reference(s) {
        if e in s.table && Due(s, e) {
          var i :| 0 <= i < |s.table| && s.table[i] == e;
        }
      }
      UptoIncreasing(all, s.lastSeen);
      IncreasingUnique(s.log, Reference(s));
    }
  }

  lemma UptoIncreasing(events: seq<Event>, number: nat)
    requires Increasing(events)
    ensures Increasing(Upto(events, number))
  {
    if events != [] {
      UptoMembers(events, number, events[0]);
    }
  }

  // A step is tidy if it passes over no event: none becomes visible at or
  // behind the last number seen, and a delivery takes the first waiting event.
  predicate Tidy(s: State, step: Step)
    requires Enabled(s, step)
  {
    match step
    case Commit(e) => !(Wanted(e, s.workspace, s.start) && e.number <= s.lastSeen)
    case Deliver =>
      forall i :: 0 <= i < |s.table| && Wanted(s.table[i], s.workspace, s.lastSeen) ==>
        s.connection.batch[0].number <= s.table[i].number
    case _ => true
  }

  predicate AllTidy(s: State, steps: seq<Step>)
    requires IsRun(s, steps)
    decreases |steps|
  {
    steps == [] || (Tidy(s, steps[0]) && AllTidy(Next(s, steps[0]), steps[1..]))
  }

  lemma CommitComplete(s: State, e: Event)
    requires Sound(s) && Enabled(s, Commit(e))
    ensures Complete(Next(s, Commit(e))) <==> Complete(s) && Tidy(s, Commit(e))
  {
    var s' := Next(s, Commit(e));
    InsertMembers(s.table, e, e);
    if Complete(s) && Tidy(s, Commit(e)) {
      forall i | 0 <= i < |s'.table| && Due(s', s'.table[i]) ensures s'.table[i] in s'.log {
        InsertMembers(s.table, e, s'.table[i]);
      }
    } else if !Complete(s) {
      var i :| 0 <= i < |s.table| && Due(s, s.table[i]) && s.table[i] !in s.log;
      InsertMembers(s.table, e, s.table[i]);
      assert Due(s', s.table[i]);
    } else {
      assert Due(s', e) && e !in s.table;
    }
  }

  lemma DeliverComplete(s: State)
    requires Sound(s) && Enabled(s, Deliver)
    ensures Complete(Next(s, Deliver)) <==> Complete(s) && Tidy(s, Deliver)
  {
    var s', e := Next(s, Deliver), s.connection.batch[0];
    assert e in s.connection.batch;
    if Complete(s) && Tidy(s, Deliver) {
      forall i | 0 <= i < |s.table| && Due(s', s.table[i]) ensures s.table[i] in s'.log {
        if s.table[i].number == e.number {
          SameNumber(s.table, s.table[i], e);
        }
      }
    } else if !Complete(s) {
      var i :| 0 <= i < |s.table| && Due(s, s.table[i]) && s.table[i] !in s.log;
      assert Due(s', s.table[i]) && s.table[i] !in s'.log;
    } else {
      var i :| 0 <= i < |s.table| && Wanted(s.table[i], s.workspace, s.lastSeen) && e.number > s.table[i].number;
      assert Due(s', s.table[i]) && s.table[i] !in s'.log;
    }
  }

  lemma SameNumber(table: seq<Event>, a: Event, b: Event)
    requires Increasing(table) && a in table && b in table && a.number == b.number
    ensures a == b
  {
  }

  lemma NextComplete(s: State, step: Step)
    requires Sound(s) && Enabled(s, step)
    ensures Complete(Next(s, step)) <==> Complete(s) && Tidy(s, step)
  {
    match step {
      case Commit(e) => CommitComplete(s, e);
      case Deliver => DeliverComplete(s);
      case Connect =>
      case Poll =>
      case Disconnect =>
    }
  }

  lemma {:induction false} RunComplete(s: State, steps: seq<Step>)
    requires Sound(s) && IsRun(s, steps)
    ensures Complete(Run(s, steps)) <==> Complete(s) && AllTidy(s, steps)
    decreases |steps|
  {
    if steps == [] {
    } else {
      NextSound(s, steps[0]);
      NextComplete(s, steps[0]);
      RunComplete(Next(s, steps[0]), steps[1..]);
    }
  }

  // Over any run of appends, polls, deliveries, disconnects and reconnects, the
  // log has no event twice and none out of order, and it is exactly the
  // workspace's events from the start to the last number seen if and only if
  // every step was tidy.
  lemma TailTheorem(s: State, steps: seq<Step>)
    requires Initial(s) && IsRun(s, steps)
    ensures var s' := Run(s, steps);
            && Increasing(s'.log)
            && (s'.log == Reference(s') <==> AllTidy(s, steps))
  {
    RunSound(s, steps);
    RunComplete(s, steps);
    CompleteMeansExact(Run(s, steps));
  }

  // An event once passed over is never delivered, however the run goes on.
  lemma {:induction false} MissedForGood(s: State, steps: seq<Step>, e: Event)
    requires Sound(s) && IsRun(s, steps) && Due(s, e) && e !in s.log
    ensures e !in Run(s, steps).log
    decreases |steps|
  {
    if steps == [] {
    } else {
      var s' := Next(s, steps[0]);
      NextSound(s, steps[0]);
      if steps[0].Commit? {
        InsertMembers(s.table, steps[0].event, e);
      } else if steps[0].Deliver? {
        assert s.connection.batch[0] in s.connection.batch;
      }
      MissedForGood(s', steps[1..], e);
    }
  }

  // ---- events that become visible in the order of their numbers

  predicate InOrder(s: State, step: Step) {
    step.Commit? ==> forall i :: 0 <= i < |s.table| ==> s.table[i].number < step.event.number
  }

  predicate AllInOrder(s: State, steps: seq<Step>)
    requires IsRun(s, steps)
    decreases |steps|
  {
    steps == [] || (InOrder(s, steps[0]) && AllInOrder(Next(s, steps[0]), steps[1..]))
  }

  // The batch is what a fresh poll would still return first, and no event of
  // the table lies at or below the last number seen without being counted.
  predicate Current(s: State) {
    && (s.connection.Online? ==> s.connection.batch <= Since(s.table, s.workspace, s.lastSeen))
    && (s.log != [] ==> s.log[|s.log| - 1].number == s.lastSeen)
    && (s.log == [] ==> s.lastSeen == s.start)
  }

  lemma {:induction false} InsertLast(table: seq<Event>, e: Event)
    requires forall i :: 0 <= i < |table| ==> table[i].number < e.number
    ensures Insert(table, e) == table + [e]
  {
    if table == [] {
    } else {
      InsertLast(table[1..], e);
    }
  }

  lemma {:induction false} SinceAppend(table: seq<Event>, e: Event, workspace: string, after: nat)
    ensures Since(table, workspace, after) <= Since(table + [e], workspace, after)
  {
    if table == [] {
    } else {
      assert (table + [e])[1..] == table[1..] + [e];
      SinceAppend(table[1..], e, workspace, after);
    }
  }

  lemma NextCurrent(s: State, step: Step)
    requires Sound(s) && Current(s) && Enabled(s, step) && InOrder(s, step)
    ensures Current(Next(s, step)) && Tidy(s, step)
  {
    match step {
      case Commit(e) =>
        InsertLast(s.table, e);
        SinceAppend(s.table, e, s.workspace, s.lastSeen);
        if s.log != [] {
          assert s.log[|s.log| - 1] in s.log;
        }
      case Deliver =>
        var all := Since(s.table, s.workspace, s.lastSeen);
        SinceLater(s.table, s.workspace, s.lastSeen, 1);
        SinceIncreasing(s.table, s.workspace, s.lastSeen);
        forall i | 0 <= i < |s.table| && Wanted(s.table[i], s.workspace, s.lastSeen)
          ensures s.connection.batch[0].number <= s.table[i].number
        {
          SinceMembers(s.table, s.workspace, s.lastSeen, s.table[i]);
        }
      case Connect =>
      case Poll =>
      case Disconnect =>
    }
  }

  lemma {:induction false} InOrderIsTidy(s: State, steps: seq<Step>)
    requires Sound(s) && Current(s) && IsRun(s, steps) && AllInOrder(s, steps)
    ensures AllTidy(s, steps)
    decreases |steps|
  {
    if steps == [] {
    } else {
      NextCurrent(s, steps[0]);
      NextSound(s, steps[0]);
      InOrderIsTidy(Next(s, steps[0]), steps[1..]);
    }
  }

  // When events become visible in the order of their numbers, a reconnect
  // never misses or replays an event.
  lemma ResumeNeverMisses(s: State, steps: seq<Step>)
    requires Initial(s) && IsRun(s, steps) && AllInOrder(s, steps)
    ensures Run(s, steps).log == Reference(Run(s, steps))
  {
    InOrderIsTidy(s, steps);
    TailTheorem(s, steps);
  }

  lemma RunStep(s: State, step: Step, rest: seq<Step>)
    requires Enabled(s, step) && IsRun(Next(s, step), rest)
    ensures IsRun(s, [step] + rest) && Run(s, [step] + rest) == Run(Next(s, step), rest)
  {
    assert ([step] + rest)[1..] == rest;
  }

  // Two requests take the numbers n < m, and the one with m commits first.
  lemma LateCommit(w: string, one: Event, two: Event)
    requires 0 < one.number < two.number && one.workspaceId == two.workspaceId == w
    ensures var s := State([], w, 0, 0, [], Offline);
            var steps := [Commit(two)] + ([Connect] + ([Poll] + ([Deliver] + ([Commit(one)] + ([Poll] + [])))));
            Initial(s) && IsRun(s, steps) && Run(s, steps).log == [two]
              && Run(s, steps).connection == Online(two.number, [])
  {
    var s0 := State([], w, 0, 0, [], Offline);
    var s1 := State([two], w, 0, 0, [], Offline);
    var s2 := State([two], w, 0, 0, [], Online(0, []));
    var s3 := State([two], w, 0, 0, [], Online(0, [two]));
    var s4 := State([two], w, 0, two.number, [two], Online(two.number, []));
    var s5 := State([one, two], w, 0, two.number, [two], Online(two.number, []));
    assert [two][1..] == [] && [] + [two] == [two] && [one, two][1..] == [two];
    assert Since([two], w, 0) == [two];
    assert Since([two], w, two.number) == [];
    assert Since([one, two], w, two.number) == Since([two], w, two.number);
    RunStep(s5, Poll, []);
    RunStep(s4, Commit(one), [Poll] + []);
    RunStep(s3, Deliver, [Commit(one)] + ([Poll] + []));
    RunStep(s2, Poll, [Deliver] + ([Commit(one)] + ([Poll] + [])));
    RunStep(s1, Connect, [Poll] + ([Deliver] + ([Commit(one)] + ([Poll] + []))));
    RunStep(s0, Commit(two), [Connect] + ([Poll] + ([Deliver] + ([Commit(one)] + ([Poll] + [])))));
  }

  // With the numbers 1 and 2: the client sees 2, and 1 is passed over.
  lemma LateCommitExample()
    ensures var one, two := Event(1, "default", "plan.updated", map[]), Event(2, "default", "plan.updated", map[]);
            var s := State([], "default", 0, 0, [], Offline);
            var steps := [Commit(two), Connect, Poll, Deliver, Commit(one), Poll];
            Initial(s) && IsRun(s, steps) && Run(s, steps).log == [two] && Run(s, steps).connection == Online(2, [])
  {
    var one, two := Event(1, "default", "plan.updated", map[]), Event(2, "default", "plan.updated", map[]);
    LateCommit("default", one, two);
    assert [Commit(two)] + ([Connect] + ([Poll] + ([Deliver] + ([Commit(one)] + ([Poll] + []))))) ==
           [Commit(two), Connect, Poll, Deliver, Commit(one), Poll];
  }
}
