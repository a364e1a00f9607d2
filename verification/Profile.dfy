// The AI profile of one owner and the first-run progress
// (services/api-gateway/app/profile_platform.py): optimistic revisions, the
// one-time import of old browser data, and onboarding.

module Profile {
  import opened Options

  datatype Field =
    | Timezone | Locale | PreferredName | Pronouns | UseCases
    | ScheduleDoc | Planning | Communication | Accessibility | Boundaries

  // A column value; Null stands for null and for an empty text, list or object.
  datatype Value = Null | Text(text: string)

  datatype Row = Row(revision: int, fields: map<Field, Value>, consent: map<string, bool>, reviewedAt: Option<nat>) {
    function Get(f: Field): Value {
      if f in fields then fields[f] else Null
    }
  }

  datatype Status = NotStarted | InProgress | Completed

  datatype Progress = Progress(status: Status, currentStep: string, completedSteps: set<string>,
                               dismissedAt: Option<nat>, completedAt: Option<nat>)

  const FirstProgress: Progress := Progress(NotStarted, "welcome", {}, None, None)

  datatype State = State(row: Option<Row>, progress: Option<Progress>)

  // The fields a request sets; consent is merged key by key.
  datatype Update = Update(provided: map<Field, Value>, consent: Option<map<string, bool>>)

  datatype Outcome = Accepted(revision: int) | Conflict(revision: int) | Missing(fields: seq<Field>) | Done

  function ConsentOf(u: Update): map<string, bool> {
    match u.consent
    case None => map[]
    case Some(m) => m
  }

  // `ifMatch` is the header read as a number, -1 when it is not one.
  function Updated(s: State, u: Update, ifMatch: Option<int>): (State, Outcome) {
    match s.row
    case None => (s.(row := Some(Row(1, u.provided, ConsentOf(u), None))), Accepted(1))
    case Some(row) =>
      if ifMatch != Some(row.revision) then (s, Conflict(row.revision))
      else
        (s.(row := Some(Row(row.revision + 1, row.fields + u.provided, row.consent + ConsentOf(u), row.reviewedAt))),
         Accepted(row.revision + 1))
  }

  const NAME_LENGTH := 120

  function Short(name: string): string {
    if |name| <= NAME_LENGTH then name else name[..NAME_LENGTH]
  }

  // import_legacy; `knownZone` tells whether the time zone exists.
  function Imported(s: State, zone: Value, knownZone: bool, name: Value): State {
    var row := match s.row case None => Row(1, map[], map[], None) case Some(r) => r;
    var row1 := if zone.Text? && row.Get(Timezone).Null? && knownZone
                then row.(fields := row.fields[Timezone := zone]) else row;
    var row2 := if name.Text? && row1.Get(PreferredName).Null?
                then row1.(fields := row1.fields[PreferredName := Text(Short(name.text))]) else row1;
    s.(row := Some(row2))
  }

  function ProgressOf(s: State): Progress {
    match s.progress case None => FirstProgress case Some(p) => p
  }

  function Patched(s: State, step: Option<string>, steps: Option<set<string>>, dismissed: bool, now: nat): State {
    var p := ProgressOf(s);
    var p1 := if p.status == NotStarted then p.(status := InProgress) else p;
    var p2 := if step.Some? then p1.(currentStep := step.value) else p1;
    var p3 := if steps.Some? then p2.(completedSteps := steps.value) else p2;
    s.(progress := Some(if dismissed then p3.(dismissedAt := Some(now)) else p3))
  }

  function MissingFields(s: State): seq<Field> {
    var zone := if s.row.Some? && s.row.value.Get(Timezone).Text? then [] else [Timezone];
    var uses := if s.row.Some? && s.row.value.Get(UseCases).Text? then [] else [UseCases];
    zone + uses
  }

  function CompletedWith(s: State, now: nat): (State, Outcome) {
    if MissingFields(s) != [] then (s, Missing(MissingFields(s)))
    else
      var p := ProgressOf(s);
      var p' := p.(status := Completed, completedAt := if p.completedAt.None? then Some(now) else p.completedAt,
                   completedSteps := p.completedSteps + {"review"});
      var row := s.row.value;
      (State(Some(if row.reviewedAt.None? then row.(reviewedAt := Some(now)) else row), Some(p')), Done)
  }

  class ProfileStore {
    var row: Option<Row>
    var progress: Option<Progress>

    ghost function Contents(): State
      reads this
    {
      State(row, progress)
    }

    constructor ()
      ensures Contents() == State(None, None)
    {
      row, progress := None, None;
    }

    method ApplyProfileUpdate(u: Update, ifMatch: Option<int>) returns (outcome: Outcome)
      modifies this
      ensures (Contents(), outcome) == Updated(old(Contents()), u, ifMatch)
    {
      if row.None? {
        row := Some(Row(1, map[], map[], None));
      } else {
        if ifMatch.None? || ifMatch.value != row.value.revision {
          return Conflict(row.value.revision);
        }
        row := Some(row.value.(revision := row.value.revision + 1));
      }
      var r := row.value;
      if u.consent.Some? {
        r := r.(consent := r.consent + u.consent.value);
      }
      r := r.(fields := r.fields + u.provided);
      assert map[] + u.provided == u.provided && map[] + ConsentOf(u) == ConsentOf(u);
      assert r.consent + map[] == r.consent;
      row := Some(r);
      outcome := Accepted(r.revision);
    }

    method ImportLegacy(zone: Value, knownZone: bool, name: Value) returns (imported: set<Field>)
      modifies this
      ensures Contents() == Imported(old(Contents()), zone, knownZone, name)
      ensures forall f :: f in imported <==>
                && (old(row).None? || old(row).value.Get(f).Null?)
                && ((f == Timezone && zone.Text? && knownZone) || (f == PreferredName && name.Text?))
      ensures forall f :: f in imported ==> row.Some? && row.value.Get(f).Text?
    {
      if row.None? {
        row := Some(Row(1, map[], map[], None));
      }
      imported := {};
      var r := row.value;
      if zone.Text? && r.Get(Timezone).Null? && knownZone {
        r := r.(fields := r.fields[Timezone := zone]);
        imported := imported + {Timezone};
      }
      if name.Text? && r.Get(PreferredName).Null? {
        r := r.(fields := r.fields[PreferredName := Text(Short(name.text))]);
        imported := imported + {PreferredName};
      }
      row := Some(r);
    }

    method PatchOnboarding(step: Option<string>, steps: Option<set<string>>, dismissed: bool, now: nat)
      modifies this`progress
      ensures Contents() == Patched(old(Contents()), step, steps, dismissed, now)
    {
      var p := if progress.None? then FirstProgress else progress.value;
      if p.status == NotStarted {
        p := p.(status := InProgress);
      }
      if step.Some? {
        p := p.(currentStep := step.value);
      }
      if steps.Some? {
        p := p.(completedSteps := steps.value);
      }
      if dismissed {
        p := p.(dismissedAt := Some(now));
      }
      progress := Some(p);
    }

    method CompleteOnboarding(now: nat) returns (outcome: Outcome)
      modifies this
      ensures (Contents(), outcome) == CompletedWith(old(Contents()), now)
    {
      var missing: seq<Field> := [];
      if row.None? || row.value.Get(Timezone).Null? {
        missing := missing + [Timezone];
      }
      if row.None? || row.value.Get(UseCases).Null? {
        missing := missing + [UseCases];
      }
      assert missing == MissingFields(Contents());
      if missing != [] {
        return Missing(missing);
      }
      var p := if progress.None? then FirstProgress else progress.value;
      p := p.(status := Completed);
      if p.completedAt.None? {
        p := p.(completedAt := Some(now));
      }
      if "review" !in p.completedSteps {
        p := p.(completedSteps := p.completedSteps + {"review"});
      }
      assert p.completedSteps + {"review"} == p.completedSteps;
      progress := Some(p);
      if row.value.reviewedAt.None? {
        row := Some(row.value.(reviewedAt := Some(now)));
      }
      outcome := Done;
    }
  }

  // ---- runs

  datatype Call =
    | Put(update: Update, ifMatch: Option<int>)
    | Import(zone: Value, knownZone: bool, name: Value)
    | Patch(step: Option<string>, steps: Option<set<string>>, dismissed: bool, now: nat)
    | Complete(now: nat)

  function Apply(s: State, call: Call): State {
    match call
    case Put(u, ifMatch) => Updated(s, u, ifMatch).0
    case Import(zone, known, name) => Imported(s, zone, known, name)
    case Patch(step, steps, dismissed, now) => Patched(s, step, steps, dismissed, now)
    case Complete(now) => CompletedWith(s, now).0
  }

  function Run(s: State, calls: seq<Call>): State {
    if calls == [] then s else Apply(Run(s, calls[..|calls| - 1]), calls[|calls| - 1])
  }

  function Revision(s: State): int {
    match s.row case None => 0 case Some(row) => row.revision
  }

  // A writer that held a revision of an existing profile and was accepted.
  predicate Wins(s: State, call: Call) {
    s.row.Some? && call.Put? && Updated(s, call.update, call.ifMatch).1.Accepted?
  }

  function WinCount(s: State, calls: seq<Call>): nat {
    if calls == [] then 0
    else WinCount(s, calls[..|calls| - 1]) + if Wins(Run(s, calls[..|calls| - 1]), calls[|calls| - 1]) then 1 else 0
  }

  lemma ApplyRevision(s: State, call: Call)
    requires s.row.Some?
    ensures Apply(s, call).row.Some?
    ensures Revision(Apply(s, call)) == Revision(s) + if Wins(s, call) then 1 else 0
    ensures Wins(s, call) ==> call.ifMatch == Some(Revision(s))
  {
  }

  // The revision of an existing profile counts the accepted writers.
  lemma {:induction false} RevisionCountsWins(s: State, calls: seq<Call>)
    requires s.row.Some?
    ensures Run(s, calls).row.Some? && Revision(Run(s, calls)) == Revision(s) + WinCount(s, calls)
  {
    if calls == [] {
    } else {
      RevisionCountsWins(s, calls[..|calls| - 1]);
      ApplyRevision(Run(s, calls[..|calls| - 1]), calls[|calls| - 1]);
    }
  }

  // Revisions never decrease.
  lemma {:induction false} RevisionGrows(s: State, calls: seq<Call>, i: nat)
    requires i <= |calls| && Revision(s) >= 0
    ensures 0 <= Revision(Run(s, calls[..i])) <= Revision(Run(s, calls))
    ensures Run(s, calls[..i]).row.Some? ==> Run(s, calls).row.Some?
  {
    if i == |calls| {
      assert calls[..i] == calls;
      if calls != [] {
        RevisionGrows(s, calls[..|calls| - 1], |calls| - 1);
      }
    } else {
      var before := calls[..|calls| - 1];
      RevisionGrows(s, before, i);
      assert before[..i] == calls[..i];
      if Run(s, before).row.Some? {
        ApplyRevision(Run(s, before), calls[|calls| - 1]);
      }
    }
  }

  // Of two accepted writers of an existing profile the later one held a larger
  // revision: no two writers holding the same revision are both accepted.
  lemma WinnersHoldDifferentRevisions(s: State, calls: seq<Call>, i: nat, j: nat)
    requires Revision(s) >= 0 && i < j < |calls|
    requires Wins(Run(s, calls[..i]), calls[i]) && Wins(Run(s, calls[..j]), calls[j])
    ensures calls[i].ifMatch.Some? && calls[j].ifMatch.Some? && calls[i].ifMatch.value < calls[j].ifMatch.value
  {
    ApplyRevision(Run(s, calls[..i]), calls[i]);
    ApplyRevision(Run(s, calls[..j]), calls[j]);
    assert calls[..i + 1][..i] == calls[..i];
    RevisionGrows(s, calls[..j], i + 1);
    assert calls[..j][..i + 1] == calls[..i + 1];
    assert Run(s, calls[..i + 1]) == Apply(Run(s, calls[..i]), calls[i]);
  }

  // A header that is not a number never matches: every stored revision is positive.
  lemma {:induction false} RevisionsArePositive(calls: seq<Call>)
    ensures var s := Run(State(None, None), calls); s.row.Some? ==> s.row.value.revision >= 1
  {
    if calls == [] {
    } else {
      RevisionsArePositive(calls[..|calls| - 1]);
    }
  }

  // ---- what a call leaves alone

  function FieldOf(s: State, f: Field): Value {
    match s.row case None => Null case Some(row) => row.Get(f)
  }

  predicate Provides(call: Call, f: Field) {
    call.Put? && f in call.update.provided
  }

  // A field changes only when a request provides it, or when an import fills
  // it while it is empty; an update stores what was provided.
  lemma FieldChanges(s: State, call: Call, f: Field)
    ensures !Provides(call, f) && FieldOf(s, f).Text? ==> FieldOf(Apply(s, call), f) == FieldOf(s, f)
    ensures !Provides(call, f) && !call.Import? ==> FieldOf(Apply(s, call), f) == FieldOf(s, f)
    ensures call.Import? && f != Timezone && f != PreferredName ==> FieldOf(Apply(s, call), f) == FieldOf(s, f)
    ensures Provides(call, f) ==>
              FieldOf(Apply(s, call), f) ==
              if s.row.None? || Wins(s, call) then call.update.provided[f] else FieldOf(s, f)
  {
  }

  // What an import does: it fills an empty time zone with a known one, an empty
  // name with at most 120 characters of the old one, and changes nothing else.
  lemma ImportFills(s: State, zone: Value, knownZone: bool, name: Value)
    ensures var s' := Imported(s, zone, knownZone, name);
            && FieldOf(s', Timezone) ==
               (if FieldOf(s, Timezone).Null? && zone.Text? && knownZone then zone else FieldOf(s, Timezone))
            && (FieldOf(s, PreferredName).Null? && name.Text? ==>
                  && FieldOf(s', PreferredName).Text?
                  && FieldOf(s', PreferredName).text <= name.text
                  && |FieldOf(s', PreferredName).text| == if |name.text| < 120 then |name.text| else 120)
            && (FieldOf(s, PreferredName).Text? || name.Null? ==>
                  FieldOf(s', PreferredName) == FieldOf(s, PreferredName))
            && (forall f :: f != Timezone && f != PreferredName ==> FieldOf(s', f) == FieldOf(s, f))
            && s'.progress == s.progress && s'.row.Some?
            && (s.row.None? ==> s'.row.value.revision == 1 && s'.row.value.consent == map[])
            && (s.row.Some? ==>
                  && s'.row.value.revision == s.row.value.revision && s'.row.value.consent == s.row.value.consent
                  && s'.row.value.reviewedAt == s.row.value.reviewedAt)
  {
  }

  // The first update creates the profile with revision 1 and what it provides.
  lemma FirstUpdate(s: State, u: Update, ifMatch: Option<int>, f: Field)
    requires s.row.None?
    ensures var (s', outcome) := Updated(s, u, ifMatch);
            && outcome == Accepted(1) && Revision(s') == 1 && s'.progress == s.progress
            && FieldOf(s', f) == (if f in u.provided then u.provided[f] else Null)
            && ConsentIn(s') == (if u.consent.Some? then u.consent.value else map[])
  {
  }

  // An update of an existing profile is accepted exactly when its header names
  // the stored revision; otherwise it learns that revision and changes nothing.
  lemma AcceptedExactly(s: State, u: Update, ifMatch: Option<int>)
    requires s.row.Some?
    ensures var (s', outcome) := Updated(s, u, ifMatch);
            if ifMatch == Some(Revision(s)) then outcome == Accepted(Revision(s) + 1)
            else s' == s && outcome == Conflict(Revision(s))
  {
  }

  function ConsentIn(s: State): map<string, bool> {
    match s.row case None => map[] case Some(row) => row.consent
  }

  // An accepted update sets the consents it names and keeps the others; nothing
  // else touches them.
  lemma ConsentMerges(s: State, call: Call, category: string)
    ensures var before, after := ConsentIn(s), ConsentIn(Apply(s, call));
            if call.Put? && (s.row.None? || Wins(s, call)) && category in ConsentOf(call.update)
            then category in after && after[category] == ConsentOf(call.update)[category]
            else (category in after <==> category in before) &&
                 (category in before ==> after[category] == before[category])
  {
  }

  // A declared value survives every run that does not provide another one:
  // in particular no import overwrites it.
  lemma {:induction false} DeclaredValueStays(s: State, calls: seq<Call>, f: Field)
    requires FieldOf(s, f).Text? && forall i :: 0 <= i < |calls| ==> !Provides(calls[i], f)
    ensures FieldOf(Run(s, calls), f) == FieldOf(s, f)
  {
    if calls == [] {
    } else {
      var before, last := calls[..|calls| - 1], calls[|calls| - 1];
      DeclaredValueStays(s, before, f);
      FieldChanges(Run(s, before), last, f);
    }
  }

  // ---- onboarding

  predicate IsCompleted(s: State) {
    s.progress.Some? && s.progress.value.status == Completed
  }

  // Only a completion whose required fields are present completes the flow.
  lemma CompletesOnlyWhenReady(s: State, call: Call)
    requires !IsCompleted(s)
    ensures IsCompleted(Apply(s, call)) <==> call.Complete? && FieldOf(s, Timezone).Text? && FieldOf(s, UseCases).Text?
  {
  }

  // A completed flow stays completed, with its first completion time.
  lemma {:induction false} CompletionStays(s: State, calls: seq<Call>)
    requires IsCompleted(s) && s.progress.value.completedAt.Some?
    ensures IsCompleted(Run(s, calls))
    ensures Run(s, calls).progress.value.completedAt == s.progress.value.completedAt
  {
    if calls == [] {
    } else {
      CompletionStays(s, calls[..|calls| - 1]);
    }
  }

  // A refused completion names the required fields that are empty.
  lemma MissingExactly(s: State, now: nat)
    ensures var (s', outcome) := CompletedWith(s, now);
            && (outcome.Missing? ==> s' == s)
            && forall f :: (outcome.Missing? && f in outcome.fields) <==>
                 (f == Timezone || f == UseCases) && FieldOf(s, f).Null?
  {
  }

  // A patch starts the flow and saves what it brings; a completion keeps the
  // steps and adds the review, at the time of the first completion.
  lemma ProgressSaved(s: State, step: Option<string>, steps: Option<set<string>>, dismissed: bool, now: nat)
    ensures var p, p' := ProgressOf(s), ProgressOf(Patched(s, step, steps, dismissed, now));
            && p'.status == (if p.status == NotStarted then InProgress else p.status)
            && p'.currentStep == (if step.Some? then step.value else p.currentStep)
            && p'.completedSteps == (if steps.Some? then steps.value else p.completedSteps)
            && p'.dismissedAt == (if dismissed then Some(now) else p.dismissedAt)
            && p'.completedAt == p.completedAt
    ensures CompletedWith(s, now).1.Done? ==>
              var p, p' := ProgressOf(s), ProgressOf(CompletedWith(s, now).0);
              && p'.completedSteps == p.completedSteps + {"review"}
              && p'.completedAt == (if p.completedAt.Some? then p.completedAt else Some(now))
              && p'.currentStep == p.currentStep && p'.dismissedAt == p.dismissedAt
  {
  }

  // Completing again changes nothing.
  lemma CompleteTwice(s: State, now: nat, later: nat)
    ensures var s1 := CompletedWith(s, now).0;
            CompletedWith(s, now).1.Done? ==> CompletedWith(s1, later) == (s1, Done)
  {
    var (s1, outcome) := CompletedWith(s, now);
    if outcome.Done? {
      assert MissingFields(s1) == [];
      var steps := s1.progress.value.completedSteps;
      assert steps + {"review"} == steps;
    }
  }
}
