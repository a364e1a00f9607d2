// The lifecycle of day plans and the events it leaves behind
// (services/orchestrator/daypilot_orchestrator: plan_state.py, today_engine.py
// and wrapup.py).

module PlanStates {
  import opened Options

  datatype PlanState = DRAFT | PROPOSED | APPROVED | ACTIVE | ADJUSTED | WRAPPED
  datatype PlanAction = PROPOSE | APPROVE | ADJUST | ACTIVATE | WRAP | REDRAFT

  const ALL_ACTIONS: seq<PlanAction> := [PROPOSE, APPROVE, ADJUST, ACTIVATE, WRAP, REDRAFT]

  function Target(state: PlanState, action: PlanAction): Option<PlanState> {
    match (state, action)
    case (DRAFT, PROPOSE) => Some(PROPOSED)
    case (PROPOSED, APPROVE) => Some(APPROVED)
    case (PROPOSED, ADJUST) => Some(ADJUSTED)
    case (PROPOSED, REDRAFT) => Some(DRAFT)
    case (APPROVED, ACTIVATE) => Some(ACTIVE)
    case (APPROVED, ADJUST) => Some(ADJUSTED)
    case (ADJUSTED, APPROVE) => Some(APPROVED)
    case (ADJUSTED, ACTIVATE) => Some(ACTIVE)
    case (ACTIVE, ADJUST) => Some(ADJUSTED)
    case (ACTIVE, WRAP) => Some(WRAPPED)
    case _ => None
  }

  function AllowedActions(state: PlanState): set<PlanAction> {
    set a | a in ALL_ACTIONS && Target(state, a).Some?
  }

  predicate IsTerminal(state: PlanState) {
    state == WRAPPED
  }

  // The terminal states are exactly those that allow no action.
  lemma TerminalAllowsNothing(state: PlanState)
    ensures IsTerminal(state) <==> AllowedActions(state) == {}
  {
    if !IsTerminal(state) {
      var a := match state
        case DRAFT => PROPOSE
        case PROPOSED => APPROVE
        case APPROVED => ACTIVATE
        case ADJUSTED => APPROVE
        case _ => WRAP;
      assert ALL_ACTIONS[0] == PROPOSE && ALL_ACTIONS[1] == APPROVE && ALL_ACTIONS[3] == ACTIVATE
        && ALL_ACTIONS[4] == WRAP;
      assert a in AllowedActions(state);
    }
  }

  // PlanAction(text): None when the text names no action.
  function ParseAction(text: string): Option<PlanAction> {
    match text
    case "propose" => Some(PROPOSE)
    case "approve" => Some(APPROVE)
    case "adjust" => Some(ADJUST)
    case "activate" => Some(ACTIVATE)
    case "wrap" => Some(WRAP)
    case "redraft" => Some(REDRAFT)
    case _ => None
  }

  // ---- the table by the texts of the actions

  const ACTION_TEXTS: set<string> := {"propose", "approve", "adjust", "activate", "wrap", "redraft"}

  function AllowedTexts(state: PlanState): set<string> {
    match state
    case DRAFT => {"propose"}
    case PROPOSED => {"approve", "adjust", "redraft"}
    case APPROVED => {"activate", "adjust"}
    case ADJUSTED => {"approve", "activate"}
    case ACTIVE => {"adjust", "wrap"}
    case WRAPPED => {}
  }

  // The only text that leads to a state.
  function TextFor(state: PlanState): string {
    match state
    case DRAFT => "redraft"
    case PROPOSED => "propose"
    case APPROVED => "approve"
    case ADJUSTED => "adjust"
    case ACTIVE => "activate"
    case WRAPPED => "wrap"
  }

  // Every action leads to its own state wherever it is allowed.
  lemma ActionsLead(state: PlanState, action: PlanAction)
    ensures Target(state, action).Some? ==>
              Target(state, action) == Some(match action
                case PROPOSE => PROPOSED case APPROVE => APPROVED case ADJUST => ADJUSTED
                case ACTIVATE => ACTIVE case WRAP => WRAPPED case REDRAFT => DRAFT)
  {
  }

  lemma TextsExactly(state: PlanState, text: string)
    ensures ParseAction(text).None? <==> text !in ACTION_TEXTS
    ensures ParseAction(text).Some? && Target(state, ParseAction(text).value).Some? <==> text in AllowedTexts(state)
    ensures text in AllowedTexts(state) ==> TextFor(Target(state, ParseAction(text).value).value) == text
  {
  }

  lemma AllowedExactly(state: PlanState)
    ensures AllowedActions(state) == match state
              case DRAFT => {PROPOSE} case PROPOSED => {APPROVE, ADJUST, REDRAFT} case APPROVED => {ACTIVATE, ADJUST}
              case ADJUSTED => {APPROVE, ACTIVATE} case ACTIVE => {ADJUST, WRAP} case WRAPPED => {}
  {
    forall a: PlanAction ensures a in ALL_ACTIONS {
      match a
      case PROPOSE => assert ALL_ACTIONS[0] == a;
      case APPROVE => assert ALL_ACTIONS[1] == a;
      case ADJUST => assert ALL_ACTIONS[2] == a;
      case ACTIVATE => assert ALL_ACTIONS[3] == a;
      case WRAP => assert ALL_ACTIONS[4] == a;
      case REDRAFT => assert ALL_ACTIONS[5] == a;
    }
  }
}

module DayPlan {
  import opened Options
  import opened PlanStates
  import opened Sequences

  const MAX_BLOCKS := 12

  datatype Key = Key(workspaceId: string, date: string)

  datatype Plan = Plan(key: Key, state: PlanState, summary: string, blocks: seq<string>)

  // A plan.updated event says which state the plan reached and by which
  // action; the one of a new draft has no action but the number of blocks.
  datatype Event =
    | PlanUpdated(key: Key, state: PlanState, action: Option<PlanAction>, blocks: nat)
    | OtherEvent(workspaceId: string, kind: string)

  datatype State = State(plans: seq<Plan>, events: seq<Event>)

  // ---- lookup

  function KeyOf(plan: Plan): Key {
    plan.key
  }

  // The first plan with the key; RunInvariant shows that there is no other.
  function Find(plans: seq<Plan>, key: Key): nat {
    IndexOf(plans, KeyOf, key)
  }

  predicate Exists(s: State, key: Key) {
    Find(s.plans, key) < |s.plans|
  }

  function StateOf(s: State, key: Key): Option<PlanState> {
    if Exists(s, key) then Some(s.plans[Find(s.plans, key)].state) else None
  }

  function FirstBlocks(tasks: seq<string>): seq<string> {
    if |tasks| <= MAX_BLOCKS then tasks else tasks[..MAX_BLOCKS]
  }

  // ---- the operations

  const DRAFT_SUMMARY := "AI-drafted plan from today's tasks. Review and approve."

  // build_or_get_draft; `tasks` are the day's tasks in the order of the query.
  function Drafted(s: State, key: Key, tasks: seq<string>): (s': State)
    ensures Exists(s', key)
  {
    if Exists(s, key) then s
    else
      var blocks := FirstBlocks(tasks);
      var s' := State(s.plans + [Plan(key, DRAFT, DRAFT_SUMMARY, blocks)],
                      s.events + [PlanUpdated(key, DRAFT, None, |blocks|)]);
      assert s'.plans[|s.plans|].key == key;
      s'
  }

  // Set the state of an existing plan and emit the event.
  function Moved(s: State, key: Key, action: PlanAction, target: PlanState, summary: Option<string>): State
    requires Exists(s, key)
  {
    var i := Find(s.plans, key);
    var plan := s.plans[i].(state := target, summary := if summary.Some? then summary.value else s.plans[i].summary);
    State(s.plans[i := plan], s.events + [PlanUpdated(key, target, Some(action), 0)])
  }

  datatype Outcome = Ok | BadAction | NotAllowed | Failed

  // transition_plan; on an error the draft it may have created is rolled back.
  function Transitioned(s: State, key: Key, action: string, summary: Option<string>, tasks: seq<string>)
      : (State, Outcome) {
    var s1 := Drafted(s, key, tasks);
    match ParseAction(action)
    case None => (s, BadAction)
    case Some(a) =>
      match Target(StateOf(s1, key).value, a)
      case None => (s, NotAllowed)
      case Some(target) => (Moved(s1, key, a, target, summary), Ok)
  }

  // What the calendar says about the day after: the text may be no date at
  // all, or the last representable day.
  datatype DayAfter = NotADate | Tomorrow(date: string) | OutOfRange

  // generate_wrapup
  function WrappedUp(s: State, key: Key, after: DayAfter, tasks: seq<string>): (State, Outcome) {
    if after.OutOfRange? then (s, Failed)
    else
      var s1 := if after.Tomorrow? then Drafted(s, Key(key.workspaceId, after.date), tasks) else s;
      if StateOf(s1, key) == Some(ACTIVE) then (Moved(s1, key, WRAP, WRAPPED, None), Ok) else (s1, Ok)
  }

  // start_focus
  function Focused(s: State, workspaceId: string, taskId: string, tasks: set<string>): State {
    if taskId in tasks then s.(events := s.events + [OtherEvent(workspaceId, "block.started")]) else s
  }

  class PlanStore {
    var plans: seq<Plan>
    var events: seq<Event>

    ghost function Contents(): State
      reads this
    {
      State(plans, events)
    }

    constructor ()
      ensures Contents() == State([], [])
    {
      plans, events := [], [];
    }

    method GetPlan(key: Key) returns (index: Option<nat>)
      ensures index == if Exists(Contents(), key) then Some(Find(plans, key)) else None
    {
      var i := Find(plans, key);
      index := if i < |plans| then Some(i) else None;
    }

    method BuildOrGetDraft(key: Key, tasks: seq<string>) returns (index: nat)
      modifies this
      ensures Contents() == Drafted(old(Contents()), key, tasks)
      ensures index == Find(plans, key) < |plans|
    {
      var existing := GetPlan(key);
      if existing.Some? {
        return existing.value;
      }
      var blocks := FirstBlocks(tasks);
      ghost var before := Contents();
      plans := plans + [Plan(key, DRAFT, DRAFT_SUMMARY, blocks)];
      events := events + [PlanUpdated(key, DRAFT, None, |blocks|)];
      index := |plans| - 1;
      FindAppended(before.plans, plans[index]);
    }

    method TransitionPlan(key: Key, action: string, summary: Option<string>, tasks: seq<string>)
        returns (outcome: Outcome)
      modifies this
      ensures (Contents(), outcome) == Transitioned(old(Contents()), key, action, summary, tasks)
    {
      var savedPlans, savedEvents := plans, events;
      var i := BuildOrGetDraft(key, tasks);
      var act := ParseAction(action);
      if act.None? {
        plans, events := savedPlans, savedEvents;
        return BadAction;
      }
      var target := Target(plans[i].state, act.value);
      if target.None? {
        plans, events := savedPlans, savedEvents;
        return NotAllowed;
      }
      var plan := plans[i].(state := target.value);
      if summary.Some? {
        plan := plan.(summary := summary.value);
      }
      plans := plans[i := plan];
      events := events + [PlanUpdated(key, plan.state, Some(act.value), 0)];
      outcome := Ok;
    }

    method GenerateWrapup(key: Key, after: DayAfter, tasks: seq<string>) returns (outcome: Outcome)
      modifies this
      ensures (Contents(), outcome) == WrappedUp(old(Contents()), key, after, tasks)
    {
      if after.OutOfRange? {
        return Failed;
      }
      if after.Tomorrow? {
        var tomorrow := BuildOrGetDraft(Key(key.workspaceId, after.date), tasks);
      }
      var today := GetPlan(key);
      if today.Some? && plans[today.value].state == ACTIVE {
        plans := plans[today.value := plans[today.value].(state := WRAPPED)];
        events := events + [PlanUpdated(key, WRAPPED, Some(WRAP), 0)];
      }
      outcome := Ok;
    }

    // start_focus emits an event of another type, or fails for a task that is
    // not there; `tasks` are the ids of all tasks.
    method StartFocus(workspaceId: string, taskId: string, tasks: set<string>) returns (found: bool)
      modifies this`events
      ensures Contents() == Focused(old(Contents()), workspaceId, taskId, tasks)
      ensures found <==> taskId in tasks
      ensures events == old(events) + if taskId in tasks then [OtherEvent(workspaceId, "block.started")] else []
    {
      found := taskId in tasks;
      if found {
        events := events + [OtherEvent(workspaceId, "block.started")];
      }
    }
  }

  lemma {:induction false} FindAppended(plans: seq<Plan>, plan: Plan)
    requires Find(plans, plan.key) == |plans|
    ensures Find(plans + [plan], plan.key) == |plans|
  {
    var all := plans + [plan];
    assert all[|plans|].key == plan.key;
    forall j | 0 <= j < |plans| ensures all[j].key != plan.key {
      assert all[j] == plans[j];
    }
  }

  // ---- runs

  datatype Call =
    | Draft(key: Key, tasks: seq<string>)
    | Transition(key: Key, action: string, summary: Option<string>, tasks: seq<string>)
    | WrapUp(key: Key, after: DayAfter, tasks: seq<string>)
    | Focus(workspaceId: string, taskId: string, taskIds: set<string>)

  function Apply(s: State, call: Call): State {
    match call
    case Draft(key, tasks) => Drafted(s, key, tasks)
    case Transition(key, action, summary, tasks) => Transitioned(s, key, action, summary, tasks).0
    case WrapUp(key, after, tasks) => WrappedUp(s, key, after, tasks).0
    case Focus(ws, task, tasks) => Focused(s, ws, task, tasks)
  }

  function Run(s: State, calls: seq<Call>): State {
    if calls == [] then s else Apply(Run(s, calls[..|calls| - 1]), calls[|calls| - 1])
  }

  const Empty: State := State([], [])

  // ---- replaying the events of one plan

  function History(events: seq<Event>, key: Key): seq<Event> {
    if events == [] then []
    else
      var last := events[|events| - 1];
      var before := History(events[..|events| - 1], key);
      if last.PlanUpdated? && last.key == key then before + [last] else before
  }

  // The state that the actions alone lead to: a draft first, then one allowed
  // transition after the other. None if there was no draft, or a second one, or
  // an action that was not allowed.
  function Replay(history: seq<Event>): Option<PlanState> {
    if history == [] then None
    else
      var last, before := history[|history| - 1], Replay(history[..|history| - 1]);
      if last.OtherEvent? then None
      else if last.action.None? then
        if |history| == 1 then Some(DRAFT) else None
      else if before.None? then None
      else Target(before.value, last.action.value)
  }

  // Every event tells the state that the replay has reached with it.
  predicate Truthful(history: seq<Event>) {
    forall i :: 0 <= i < |history| ==> history[i].PlanUpdated? && Replay(history[..i + 1]) == Some(history[i].state)
  }

  predicate Unique(plans: seq<Plan>) {
    forall i, j :: 0 <= i < j < |plans| ==> plans[i].key != plans[j].key
  }

  predicate Agrees(s: State, key: Key) {
    var history := History(s.events, key);
    && Truthful(history)
    && StateOf(s, key) == Replay(history)
    && (Exists(s, key) ==> history != [] && history[0].blocks == |s.plans[Find(s.plans, key)].blocks|)
    && (!Exists(s, key) ==> history == [])
  }

  predicate SmallBlocks(plans: seq<Plan>) {
    forall i :: 0 <= i < |plans| ==> |plans[i].blocks| <= MAX_BLOCKS
  }

  ghost predicate Invariant(s: State) {
    Unique(s.plans) && SmallBlocks(s.plans) && forall key :: Agrees(s, key)
  }

  lemma HistoryAppend(events: seq<Event>, e: Event, key: Key)
    ensures History(events + [e], key) ==
            if e.PlanUpdated? && e.key == key then History(events, key) + [e] else History(events, key)
  {
    assert (events + [e])[..|events|] == events;
  }

  lemma TruthfulAppend(history: seq<Event>, e: Event)
    requires Truthful(history) && e.PlanUpdated? && Replay(history + [e]) == Some(e.state)
    ensures Truthful(history + [e])
  {
    var h := history + [e];
    forall i | 0 <= i < |h| ensures h[i].PlanUpdated? && Replay(h[..i + 1]) == Some(h[i].state) {
      if i < |history| {
        assert h[..i + 1] == history[..i + 1];
      } else {
        assert h[..i + 1] == h;
      }
    }
  }

  // Adding a plan with a new key changes no lookup of another key.
  lemma {:induction false} FindInLonger(plans: seq<Plan>, plan: Plan, key: Key)
    requires key != plan.key
    ensures Find(plans + [plan], key) == if Find(plans, key) < |plans| then Find(plans, key) else |plans| + 1
  {
    if plans == [] {
      assert ([] + [plan])[1..] == [];
    } else {
      assert (plans + [plan])[1..] == plans[1..] + [plan];
      if plans[0].key != key {
        FindInLonger(plans[1..], plan, key);
      }
    }
  }

  lemma {:induction false} FindAfterUpdate(plans: seq<Plan>, i: nat, plan: Plan, key: Key)
    requires i < |plans| && plan.key == plans[i].key
    ensures Find(plans[i := plan], key) == Find(plans, key)
  {
    if plans[0].key != key {
      if i == 0 {
        assert plans[0 := plan][1..] == plans[1..];
      } else {
        FindAfterUpdate(plans[1..], i - 1, plan, key);
        assert plans[i := plan][1..] == plans[1..][i - 1 := plan];
      }
    }
  }

  lemma FirstEvent(e: Event)
    requires e.PlanUpdated? && e.state == DRAFT && e.action.None?
    ensures Truthful([e]) && Replay([e]) == Some(DRAFT)
  {
    assert [e][..0 + 1] == [e];
  }

  lemma NewDraftAgrees(s: State, plan: Plan, e: Event)
    requires Agrees(s, plan.key) && !Exists(s, plan.key) && plan.state == DRAFT
    requires e == PlanUpdated(plan.key, DRAFT, None, |plan.blocks|)
    ensures Agrees(State(s.plans + [plan], s.events + [e]), plan.key)
  {
    HistoryAppend(s.events, e, plan.key);
    FindAppended(s.plans, plan);
    assert [] + [e] == [e];
    FirstEvent(e);
  }

  lemma OtherStillAgrees(s: State, key: Key, tasks: seq<string>, k: Key)
    requires Agrees(s, k) && !Exists(s, key) && k != key
    ensures Agrees(Drafted(s, key, tasks), k)
  {
    var s' := Drafted(s, key, tasks);
    HistoryAppend(s.events, s'.events[|s.events|], k);
    FindInLonger(s.plans, s'.plans[|s.plans|], k);
  }

  lemma DraftedInvariant(s: State, key: Key, tasks: seq<string>)
    requires Invariant(s)
    ensures Invariant(Drafted(s, key, tasks))
  {
    if !Exists(s, key) {
      forall k ensures Agrees(Drafted(s, key, tasks), k) {
        assert Agrees(s, k);
        if k == key {
          var s' := Drafted(s, key, tasks);
          NewDraftAgrees(s, s'.plans[|s.plans|], s'.events[|s.events|]);
        } else {
          OtherStillAgrees(s, key, tasks, k);
        }
      }
    }
  }

  lemma MovedAgrees(s: State, key: Key, action: PlanAction, target: PlanState, summary: Option<string>, k: Key)
    requires Invariant(s) && Exists(s, key) && Target(StateOf(s, key).value, action) == Some(target)
    ensures Agrees(Moved(s, key, action, target, summary), k)
  {
    var s' := Moved(s, key, action, target, summary);
    var i, e := Find(s.plans, key), s'.events[|s.events|];
    var history := History(s.events, k);
    assert Agrees(s, k);
    HistoryAppend(s.events, e, k);
    FindAfterUpdate(s.plans, i, s'.plans[i], k);
    if k == key {
      assert (history + [e])[..|history|] == history;
      TruthfulAppend(history, e);
    }
  }

  lemma MovedInvariant(s: State, key: Key, action: PlanAction, target: PlanState, summary: Option<string>)
    requires Invariant(s) && Exists(s, key) && Target(StateOf(s, key).value, action) == Some(target)
    ensures Invariant(Moved(s, key, action, target, summary))
  {
    forall k ensures Agrees(Moved(s, key, action, target, summary), k) {
      MovedAgrees(s, key, action, target, summary, k);
    }
  }

  lemma FocusInvariant(s: State, ws: string, task: string, tasks: set<string>)
    requires Invariant(s)
    ensures Invariant(Focused(s, ws, task, tasks))
  {
    forall k ensures Agrees(Focused(s, ws, task, tasks), k) {
      assert Agrees(s, k);
      HistoryAppend(s.events, OtherEvent(ws, "block.started"), k);
    }
  }

  lemma ApplyInvariant(s: State, call: Call)
    requires Invariant(s)
    ensures Invariant(Apply(s, call))
  {
    match call {
      case Draft(key, tasks) => DraftedInvariant(s, key, tasks);
      case Transition(key, action, summary, tasks) =>
        var s1, a := Drafted(s, key, tasks), ParseAction(action);
        DraftedInvariant(s, key, tasks);
        if a.Some? && Target(StateOf(s1, key).value, a.value).Some? {
          MovedInvariant(s1, key, a.value, Target(StateOf(s1, key).value, a.value).value, summary);
        }
      case WrapUp(key, after, tasks) =>
        var s1 := s;
        if after.Tomorrow? {
          s1 := Drafted(s, Key(key.workspaceId, after.date), tasks);
          DraftedInvariant(s, Key(key.workspaceId, after.date), tasks);
        }
        if StateOf(s1, key) == Some(ACTIVE) {
          MovedInvariant(s1, key, WRAP, WRAPPED, None);
        }
      case Focus(ws, task, tasks) => FocusInvariant(s, ws, task, tasks);
    }
  }

  // Over every run: one plan per workspace and date, in the state that a replay
  // of its events leads to, every event telling the state reached with it.
  lemma {:induction false} RunInvariant(calls: seq<Call>)
    ensures Invariant(Run(Empty, calls))
  {
    if calls == [] {
      forall key ensures Agrees(Empty, key) {
        assert History([], key) == [];
      }
    } else {
      RunInvariant(calls[..|calls| - 1]);
      ApplyInvariant(Run(Empty, calls[..|calls| - 1]), calls[|calls| - 1]);
    }
  }

  // One event follows another by an allowed transition.
  predicate Follows(before: Event, after: Event) {
    && before.PlanUpdated? && after.PlanUpdated? && after.action.Some?
    && Target(before.state, after.action.value) == Some(after.state)
  }

  // The states form a path of allowed transitions that starts at DRAFT.
  predicate IsPath(history: seq<Event>) {
    && history != [] && history[0].PlanUpdated? && history[0].state == DRAFT
    && forall i, j :: 0 <= i && j == i + 1 < |history| ==> Follows(history[i], history[j])
  }

  lemma TruthfulStart(h: seq<Event>)
    requires Truthful(h) && h != []
    ensures h[0].PlanUpdated? && h[0].state == DRAFT
  {
    var first := h[..0 + 1];
    assert first[..|first| - 1] == [] && Replay([]) == None;
    assert Replay(first) == Some(h[0].state);
  }

  lemma ReplayStep(before: seq<Event>, e: Event)
    requires before != [] && e.PlanUpdated? && Replay(before + [e]) == Some(e.state)
    ensures e.action.Some? && Replay(before).Some? && Target(Replay(before).value, e.action.value) == Some(e.state)
  {
    assert (before + [e])[..|before|] == before;
  }

  lemma TruthfulStep(h: seq<Event>, i: nat)
    requires Truthful(h) && i + 1 < |h|
    ensures Follows(h[i], h[i + 1])
  {
    assert h[..i + 1 + 1] == h[..i + 1] + [h[i + 1]];
    ReplayStep(h[..i + 1], h[i + 1]);
  }

  lemma TruthfulIsPath(h: seq<Event>)
    requires Truthful(h) && h != []
    ensures IsPath(h) && h[|h| - 1].PlanUpdated? && Replay(h) == Some(h[|h| - 1].state)
  {
    assert h[..|h| - 1 + 1] == h;
    TruthfulStart(h);
    forall i, j | 0 <= i && j == i + 1 < |h| ensures Follows(h[i], h[j]) {
      TruthfulStep(h, i);
    }
  }

  // In particular the state is that of the plan's last event, and its events
  // tell a path of allowed transitions.
  lemma LastEventTellsState(calls: seq<Call>, key: Key)
    requires Exists(Run(Empty, calls), key)
    ensures var s := Run(Empty, calls);
            var h := History(s.events, key);
            IsPath(h) && h[|h| - 1].PlanUpdated? && StateOf(s, key) == Some(h[|h| - 1].state)
  {
    RunInvariant(calls);
    assert Agrees(Run(Empty, calls), key);
    TruthfulIsPath(History(Run(Empty, calls).events, key));
  }

  // No plan becomes active that was not proposed before.
  lemma {:induction false} ProposedFirst(history: seq<Event>)
    requires Truthful(history) && history != []
    requires forall i :: 0 <= i < |history| ==> history[i].PlanUpdated? && history[i].state != PROPOSED
    ensures Replay(history) == Some(DRAFT)
  {
    var before := history[..|history| - 1];
    assert history[..|history|] == history;
    if before != [] {
      forall i | 0 <= i < |before| ensures before[i].PlanUpdated? && Replay(before[..i + 1]) == Some(before[i].state) {
        assert before[..i + 1] == history[..i + 1];
      }
      ProposedFirst(before);
    }
  }

  lemma ActiveWasProposed(calls: seq<Call>, key: Key)
    requires StateOf(Run(Empty, calls), key) == Some(ACTIVE)
    ensures exists i :: 0 <= i < |History(Run(Empty, calls).events, key)| &&
              var e := History(Run(Empty, calls).events, key)[i];
              e.PlanUpdated? && e.state == PROPOSED
  {
    RunInvariant(calls);
    var h := History(Run(Empty, calls).events, key);
    assert Agrees(Run(Empty, calls), key);
    if forall i :: 0 <= i < |h| ==> h[i].state != PROPOSED {
      ProposedFirst(h);
    }
  }

  // ---- what repeats and what is final

  lemma DraftTwice(s: State, key: Key, tasks: seq<string>, tasks': seq<string>)
    ensures Drafted(Drafted(s, key, tasks), key, tasks') == Drafted(s, key, tasks)
  {
  }

  // A second wrap-up of the same date changes no plan and adds no event.
  lemma WrapUpTwice(s: State, key: Key, after: DayAfter, tasks: seq<string>, tasks': seq<string>)
    ensures var s1 := WrappedUp(s, key, after, tasks).0;
            WrappedUp(s1, key, after, tasks').0 == s1
  {
    var s0 := if after.Tomorrow? then Drafted(s, Key(key.workspaceId, after.date), tasks) else s;
    if !after.OutOfRange? && StateOf(s0, key) == Some(ACTIVE) {
      var i := Find(s0.plans, key);
      var s1 := Moved(s0, key, WRAP, WRAPPED, None);
      FindAfterUpdate(s0.plans, i, s1.plans[i], key);
      if after.Tomorrow? {
        FindAfterUpdate(s0.plans, i, s1.plans[i], Key(key.workspaceId, after.date));
      }
    }
  }

  // The plan of this key is found at the same place, with the same content.
  predicate Keeps(s: State, s': State, key: Key) {
    Exists(s, key) && Exists(s', key) && Find(s'.plans, key) == Find(s.plans, key) &&
    s'.plans[Find(s.plans, key)] == s.plans[Find(s.plans, key)]
  }

  lemma DraftedKeeps(s: State, k: Key, tasks: seq<string>, key: Key)
    requires Exists(s, key)
    ensures Keeps(s, Drafted(s, k, tasks), key)
  {
    if !Exists(s, k) {
      FindInLonger(s.plans, Drafted(s, k, tasks).plans[|s.plans|], key);
    }
  }

  lemma MovedKeeps(s: State, k: Key, action: PlanAction, target: PlanState, summary: Option<string>, key: Key)
    requires Exists(s, k) && Exists(s, key) && k != key
    ensures Keeps(s, Moved(s, k, action, target, summary), key)
  {
    var i := Find(s.plans, k);
    FindAfterUpdate(s.plans, i, Moved(s, k, action, target, summary).plans[i], key);
  }

  lemma TransitionKeeps(s: State, k: Key, action: string, summary: Option<string>, tasks: seq<string>, key: Key)
    requires Exists(s, key) && (k != key || StateOf(s, key) == Some(WRAPPED))
    ensures Keeps(s, Transitioned(s, k, action, summary, tasks).0, key)
  {
    var s1, a := Drafted(s, k, tasks), ParseAction(action);
    DraftedKeeps(s, k, tasks, key);
    if a.Some? && Target(StateOf(s1, k).value, a.value).Some? {
      MovedKeeps(s1, k, a.value, Target(StateOf(s1, k).value, a.value).value, summary, key);
    }
  }

  lemma WrapUpKeeps(s: State, k: Key, after: DayAfter, tasks: seq<string>, key: Key)
    requires StateOf(s, key) == Some(WRAPPED)
    ensures Keeps(s, WrappedUp(s, k, after, tasks).0, key)
  {
    var s1 := if after.Tomorrow? then Drafted(s, Key(k.workspaceId, after.date), tasks) else s;
    if after.Tomorrow? {
      DraftedKeeps(s, Key(k.workspaceId, after.date), tasks, key);
    }
    if StateOf(s1, k) == Some(ACTIVE) {
      MovedKeeps(s1, k, WRAP, WRAPPED, None, key);
    }
  }

  lemma ApplyKeepsWrapped(s: State, call: Call, key: Key)
    requires StateOf(s, key) == Some(WRAPPED)
    ensures Keeps(s, Apply(s, call), key)
  {
    match call {
      case Draft(k, tasks) => DraftedKeeps(s, k, tasks, key);
      case Transition(k, action, summary, tasks) => TransitionKeeps(s, k, action, summary, tasks, key);
      case WrapUp(k, after, tasks) => WrapUpKeeps(s, k, after, tasks, key);
      case Focus(_, _, _) =>
    }
  }

  // A wrapped plan stays as it is, whatever is called afterwards.
  lemma {:induction false} WrappedForGood(s: State, calls: seq<Call>, key: Key)
    requires StateOf(s, key) == Some(WRAPPED)
    ensures StateOf(Run(s, calls), key) == Some(WRAPPED) && Keeps(s, Run(s, calls), key)
  {
    if calls == [] {
    } else {
      var before := calls[..|calls| - 1];
      WrappedForGood(s, before, key);
      ApplyKeepsWrapped(Run(s, before), calls[|calls| - 1], key);
    }
  }

  // ---- what the texts of the calls do

  // A new draft takes the first twelve tasks and nothing else.
  lemma NewDraft(s: State, key: Key, tasks: seq<string>)
    requires !Exists(s, key)
    ensures var s' := Drafted(s, key, tasks);
            && StateOf(s', key) == Some(DRAFT)
            && var blocks := s'.plans[Find(s'.plans, key)].blocks;
               && |blocks| == (if |tasks| < 12 then |tasks| else 12) && blocks <= tasks
               && s'.plans == s.plans + [Plan(key, DRAFT, DRAFT_SUMMARY, blocks)]
               && s'.events == s.events + [PlanUpdated(key, DRAFT, None, |blocks|)]
  {
    FindAppended(s.plans, Drafted(s, key, tasks).plans[|s.plans|]);
  }

  lemma MovedState(s: State, key: Key, action: PlanAction, target: PlanState, summary: Option<string>, k: Key)
    requires Exists(s, key)
    ensures StateOf(Moved(s, key, action, target, summary), k) == if k == key then Some(target) else StateOf(s, k)
  {
    var i := Find(s.plans, key);
    FindAfterUpdate(s.plans, i, Moved(s, key, action, target, summary).plans[i], k);
  }

  lemma DraftedState(s: State, key: Key, tasks: seq<string>, k: Key)
    ensures StateOf(Drafted(s, key, tasks), k) ==
            if k == key && !Exists(s, key) then Some(DRAFT) else StateOf(s, k)
  {
    if !Exists(s, key) {
      var plan := Drafted(s, key, tasks).plans[|s.plans|];
      if k == key {
        FindAppended(s.plans, plan);
      } else {
        FindInLonger(s.plans, plan, k);
      }
    }
  }

  // An action is unknown, or not allowed, or takes the plan to the state that
  // its text names; the plans of other keys keep their states.
  lemma TransitionByText(s: State, key: Key, action: string, summary: Option<string>, tasks: seq<string>, k: Key)
    ensures var (s', outcome) := Transitioned(s, key, action, summary, tasks);
            var before := if Exists(s, key) then StateOf(s, key).value else DRAFT;
            && (outcome.BadAction? <==> action !in ACTION_TEXTS)
            && (outcome.Ok? <==> action in AllowedTexts(before))
            && (!outcome.Ok? ==> s' == s)
            && (outcome.Ok? ==> StateOf(s', key).Some? && TextFor(StateOf(s', key).value) == action)
            && (k != key ==> StateOf(s', k) == StateOf(s, k))
  {
    var s1 := Drafted(s, key, tasks);
    var before := StateOf(s1, key).value;
    DraftedState(s, key, tasks, key);
    DraftedState(s, key, tasks, k);
    TextsExactly(before, action);
    if action in AllowedTexts(before) {
      var a := ParseAction(action).value;
      MovedState(s1, key, a, Target(before, a).value, summary, key);
      MovedState(s1, key, a, Target(before, a).value, summary, k);
    }
  }

  // A call that takes the plan of this key to this state.
  predicate LeadsTo(call: Call, key: Key, state: PlanState) {
    || (call.Transition? && call.key == key && call.action == TextFor(state))
    || (call.WrapUp? && call.key == key && state == WRAPPED)
    || (call.Draft? && call.key == key && state == DRAFT)
    || (call.WrapUp? && call.after.Tomorrow? && Key(call.key.workspaceId, call.after.date) == key && state == DRAFT)
  }

  lemma ApplyLeads(s: State, call: Call, key: Key)
    ensures var after := StateOf(Apply(s, call), key);
            after == StateOf(s, key) || (after.Some? && LeadsTo(call, key, after.value))
  {
    match call {
      case Draft(k, tasks) => DraftedState(s, k, tasks, key);
      case Transition(k, action, summary, tasks) => TransitionByText(s, k, action, summary, tasks, key);
      case WrapUp(k, after, tasks) =>
        var s1 := s;
        if after.Tomorrow? {
          s1 := Drafted(s, Key(k.workspaceId, after.date), tasks);
          DraftedState(s, Key(k.workspaceId, after.date), tasks, key);
        }
        if StateOf(s1, k) == Some(ACTIVE) {
          MovedState(s1, k, WRAP, WRAPPED, None, key);
        }
      case Focus(_, _, _) =>
    }
  }

  // The i-th call has taken the plan to this state, and it has been in it since.
  ghost predicate Since(calls: seq<Call>, key: Key, i: nat, state: PlanState) {
    && i < |calls| && LeadsTo(calls[i], key, state)
    && forall j :: i < j <= |calls| ==> StateOf(Run(Empty, calls[..j]), key) == Some(state)
  }

  lemma SinceStill(before: seq<Call>, call: Call, key: Key, i: nat, state: PlanState)
    requires Since(before, key, i, state) && StateOf(Run(Empty, before + [call]), key) == Some(state)
    ensures Since(before + [call], key, i, state)
  {
    var calls := before + [call];
    forall j | i < j <= |calls| ensures StateOf(Run(Empty, calls[..j]), key) == Some(state) {
      if j == |calls| {
        assert calls[..j] == calls;
      } else {
        assert calls[..j] == before[..j];
      }
    }
  }

  lemma SinceNow(calls: seq<Call>, key: Key, state: PlanState)
    requires calls != [] && LeadsTo(calls[|calls| - 1], key, state) && StateOf(Run(Empty, calls), key) == Some(state)
    ensures Since(calls, key, |calls| - 1, state)
  {
    assert calls[..|calls|] == calls;
  }

  // Over every run: some call has taken the plan to its state by the text that
  // names the state (or by a draft request or a wrap-up), and the plan has been
  // in that state ever since.
  lemma {:induction false} StateHasItsCall(calls: seq<Call>, key: Key, state: PlanState) returns (i: nat)
    requires StateOf(Run(Empty, calls), key) == Some(state)
    ensures Since(calls, key, i, state)
  {
    var before, last := calls[..|calls| - 1], calls[|calls| - 1];
    assert calls == before + [last];
    ApplyLeads(Run(Empty, before), last, key);
    if StateOf(Run(Empty, before), key) == Some(state) {
      i := StateHasItsCall(before, key, state);
      SinceStill(before, last, key, i, state);
    } else {
      i := |calls| - 1;
      SinceNow(calls, key, state);
    }
  }

  // By the texts themselves: approved by "approve", active by "activate", ...
  lemma LeadsToByText(call: Call, key: Key, state: PlanState)
    requires LeadsTo(call, key, state) && call.Transition?
    ensures call.key == key
    ensures match state
            case DRAFT => call.action == "redraft"
            case PROPOSED => call.action == "propose"
            case APPROVED => call.action == "approve"
            case ADJUSTED => call.action == "adjust"
            case ACTIVE => call.action == "activate"
            case WRAPPED => call.action == "wrap"
  {
  }

  // In particular, plans are approved only by "approve".
  lemma ApprovedByApproval(calls: seq<Call>, key: Key) returns (i: nat)
    requires StateOf(Run(Empty, calls), key) == Some(APPROVED)
    ensures i < |calls| && calls[i].Transition? && calls[i].key == key && calls[i].action == "approve"
    ensures forall j :: i < j <= |calls| ==> StateOf(Run(Empty, calls[..j]), key) == Some(APPROVED)
  {
    i := StateHasItsCall(calls, key, APPROVED);
    LeadsToByText(calls[i], key, APPROVED);
  }

  // Plans of other days and workspaces are left alone by a transition.
  lemma OthersUntouched(s: State, key: Key, action: string, summary: Option<string>, tasks: seq<string>, other: Key)
    requires Exists(s, other) && other != key
    ensures Keeps(s, Transitioned(s, key, action, summary, tasks).0, other)
  {
    TransitionKeeps(s, key, action, summary, tasks, other);
  }
}
