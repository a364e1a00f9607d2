// Working windows and their overlap check
// (services/api-gateway/app/profile_schemas.py). Times are compared as strings.

module ClockTimes {
  import Lex

  // ---- the HH:MM pattern

  // Code points of the decimal digit zero in every script; each block of
  // decimal digits has ten consecutive code points (Unicode 14).
  predicate IsDigitZero(n: int) {
    || n == 0x660 || n == 0x6f0 || n == 0x7c0 || n == 0x966 || n == 0x9e6 || n == 0xa66 || n == 0xae6
    || n == 0xb66 || n == 0xbe6 || n == 0xc66 || n == 0xce6 || n == 0xd66 || n == 0xde6 || n == 0xe50
    || n == 0xed0 || n == 0xf20 || n == 0x1040 || n == 0x1090 || n == 0x17e0 || n == 0x1810 || n == 0x1946
    || n == 0x19d0 || n == 0x1a80 || n == 0x1a90 || n == 0x1b50 || n == 0x1bb0 || n == 0x1c40 || n == 0x1c50
    || n == 0xa620 || n == 0xa8d0 || n == 0xa900 || n == 0xa9d0 || n == 0xa9f0 || n == 0xaa50 || n == 0xabf0
    || n == 0xff10 || n == 0x104a0 || n == 0x10d30 || n == 0x11066 || n == 0x110f0 || n == 0x11136
    || n == 0x111d0 || n == 0x112f0 || n == 0x11450 || n == 0x114d0 || n == 0x11650 || n == 0x116c0
    || n == 0x11730 || n == 0x118e0 || n == 0x11950 || n == 0x11c50 || n == 0x11d50 || n == 0x11da0
    || n == 0x16a60 || n == 0x16ac0 || n == 0x16b50 || n == 0x1d7ce || n == 0x1d7d8 || n == 0x1d7e2
    || n == 0x1d7ec || n == 0x1d7f6 || n == 0x1e140 || n == 0x1e2f0 || n == 0x1e950 || n == 0x1fbf0
  }

  // The value of a non-ASCII digit with value at least k, or -1.
  function ForeignDigit(c: char, k: nat): (v: int)
    requires k <= 10
    ensures -1 <= v < 10
    decreases 10 - k
  {
    if k == 10 then -1
    else if IsDigitZero(c as int - k) then k
    else ForeignDigit(c, k + 1)
  }

  // What \d matches: a decimal digit of any script.
  function DigitValue(c: char): (v: int)
    ensures -1 <= v < 10
  {
    if '0' <= c <= '9' then c as int - '0' as int
    else if c < '\U{0660}' then -1
    else ForeignDigit(c, 0)
  }

  predicate IsDigit(c: char) {
    DigitValue(c) >= 0
  }

  // ^([01]\d|2[0-3]):[0-5]\d$ ; the final $ also matches before a last newline.
  predicate TimeValid(s: string) {
    && (|s| == 5 || (|s| == 6 && s[5] == '\n'))
    && ((s[0] in "01" && IsDigit(s[1])) || (s[0] == '2' && '0' <= s[1] <= '3'))
    && s[2] == ':'
    && '0' <= s[3] <= '5' && IsDigit(s[4])
  }

  function Minutes(s: string): (m: nat)
    requires TimeValid(s)
    ensures m < 24 * 60
  {
    (DigitValue(s[0]) * 10 + DigitValue(s[1])) * 60 + DigitValue(s[3]) * 10 + DigitValue(s[4])
  }

  predicate IsAsciiDigit(c: char) {
    '0' <= c <= '9'
  }

  // Five characters, ASCII digits only.
  predicate Canonical(s: string) {
    TimeValid(s) && |s| == 5 && IsAsciiDigit(s[1]) && IsAsciiDigit(s[4])
  }

  // The canonical way to write the same time.
  function Canon(s: string): (t: string)
    requires TimeValid(s)
    ensures Canonical(t) && Minutes(t) == Minutes(s)
  {
    [s[0], '0' + DigitValue(s[1]) as char, ':', s[3], '0' + DigitValue(s[4]) as char]
  }

  // What the pattern accepts: an hour below 24 and a minute below 60, with
  // foreign digits only in the last place of each and not after a 2 ...
  lemma FiveExactly(s: string)
    requires |s| == 5
    ensures TimeValid(s) <==>
              && IsAsciiDigit(s[0]) && IsDigit(s[1]) && s[2] == ':' && IsAsciiDigit(s[3]) && IsDigit(s[4])
              && 10 * DigitValue(s[0]) + DigitValue(s[1]) < 24 && 10 * DigitValue(s[3]) + DigitValue(s[4]) < 60
              && (s[0] == '2' ==> IsAsciiDigit(s[1]))
  {
  }

  // ... and a newline after it; nothing else.
  lemma LongerExactly(s: string)
    requires |s| != 5
    ensures TimeValid(s) <==> |s| == 6 && s[5] == '\n' && TimeValid(s[..5])
  {
  }

  // The text of a time, two ASCII digits each.
  function Clock(hour: nat, minute: nat): string
    requires hour < 24 && minute < 60
  {
    ['0' + (hour / 10) as char, '0' + (hour % 10) as char, ':',
     '0' + (minute / 10) as char, '0' + (minute % 10) as char]
  }

  // The canonical texts are those of the 1440 minutes of a day.
  lemma CanonicalExactly(hour: nat, minute: nat)
    requires hour < 24 && minute < 60
    ensures Canonical(Clock(hour, minute)) && Minutes(Clock(hour, minute)) == hour * 60 + minute
  {
  }

  lemma CanonicalOnly(s: string)
    requires Canonical(s)
    ensures s == Clock(Minutes(s) / 60, Minutes(s) % 60)
  {
    var h, m := DigitValue(s[0]) * 10 + DigitValue(s[1]), DigitValue(s[3]) * 10 + DigitValue(s[4]);
    assert Minutes(s) / 60 == h && Minutes(s) % 60 == m;
  }

  lemma ArabicIndicThree()
    ensures DigitValue('\U{0663}') == 3
  {
    var c := '\U{0663}';
    assert c as int == 0x663;
    assert ForeignDigit(c, 3) == 3;
    assert ForeignDigit(c, 2) == 3;
    assert ForeignDigit(c, 1) == 3;
    assert ForeignDigit(c, 0) == 3;
  }

  // ---- comparing strings against comparing minutes

  lemma LessStep(s: string, t: string, k: nat)
    requires k < |s| && k < |t|
    ensures Lex.Less(s[k..], t[k..]) <==> s[k] < t[k] || (s[k] == t[k] && Lex.Less(s[k + 1..], t[k + 1..]))
  {
    assert s[k..][1..] == s[k + 1..] && t[k..][1..] == t[k + 1..];
  }

  lemma LessFive(s: string, t: string)
    requires |s| == |t| == 5
    ensures Lex.Less(s, t) <==>
      s[0] < t[0] || (s[0] == t[0] && (s[1] < t[1] || (s[1] == t[1] && (s[2] < t[2] || (s[2] == t[2] &&
        (s[3] < t[3] || (s[3] == t[3] && s[4] < t[4])))))))
  {
    LessStep(s, t, 4);
    LessStep(s, t, 3);
    LessStep(s, t, 2);
    LessStep(s, t, 1);
    LessStep(s, t, 0);
    assert s[0..] == s && t[0..] == t;
    assert !Lex.Less(s[5..], t[5..]);
  }

  lemma CanonicalOrder(s: string, t: string)
    requires Canonical(s) && Canonical(t)
    ensures Lex.Less(s, t) <==> Minutes(s) < Minutes(t)
  {
    LessFive(s, t);
  }

  // String order agrees with clock order against every canonical time.
  ghost predicate AgreesWithClock(s: string)
    requires TimeValid(s)
  {
    forall t :: Canonical(t) ==>
      (Lex.Less(s, t) <==> Minutes(s) < Minutes(t)) && (Lex.Less(t, s) <==> Minutes(t) < Minutes(s))
  }

  // The pattern accepts more than canonical times, and the two orders agree
  // exactly on the canonical ones.
  lemma OrderAgreesExactly(s: string)
    requires TimeValid(s)
    ensures AgreesWithClock(s) <==> Canonical(s)
  {
    if Canonical(s) {
      forall t | Canonical(t)
        ensures (Lex.Less(s, t) <==> Minutes(s) < Minutes(t)) && (Lex.Less(t, s) <==> Minutes(t) < Minutes(s))
      {
        CanonicalOrder(s, t);
        CanonicalOrder(t, s);
      }
    } else {
      Lex.Total(s, Canon(s));
      assert s != Canon(s);
    }
  }
}

module Schedule {
  import opened Options
  import opened ClockTimes
  import Lex

  datatype Window = Window(days: seq<int>, start: string, end: string)

  // ISO weekdays in order, each once: sorted(set(v)).
  function SortedDays(v: seq<int>, day: nat): (days: seq<int>)
    requires 1 <= day <= 8
    ensures forall d :: d in days <==> d in v && day <= d <= 7
    ensures forall i, j :: 0 <= i < j < |days| ==> days[i] < days[j]
    decreases 8 - day
  {
    if day == 8 then []
    else
      var rest := SortedDays(v, day + 1);
      assert forall i :: 0 <= i < |rest| ==> rest[i] in rest;
      if day in v then [day] + rest else rest
  }

  predicate ValidWindow(w: Window) {
    && w.days != [] && (forall d :: d in w.days ==> 1 <= d <= 7)
    && (forall i, j :: 0 <= i < j < |w.days| ==> w.days[i] < w.days[j])
    && TimeValid(w.start) && TimeValid(w.end) && Lex.Less(w.start, w.end)
  }

  // The validators of one window: None when it is refused.
  function MakeWindow(days: seq<int>, start: string, end: string): (w: Option<Window>)
    ensures w.Some? <==>
              && 1 <= |days| <= 7 && (forall d :: d in days ==> 1 <= d <= 7)
              && TimeValid(start) && TimeValid(end) && Lex.Less(start, end)
    ensures w.Some? ==>
              && ValidWindow(w.value) && w.value.start == start && w.value.end == end
              && forall d :: d in w.value.days <==> d in days
  {
    if 1 <= |days| <= 7 && (forall d :: d in days ==> 1 <= d <= 7) && TimeValid(start) && TimeValid(end)
      && Lex.Less(start, end) then
      assert days[0] in SortedDays(days, 1);
      Some(Window(SortedDays(days, 1), start, end))
    else None
  }

  // ---- spans of one day

  datatype Span = Span(start: string, end: string)

  predicate Disjoint(a: Span, b: Span) {
    Lex.AtMost(a.end, b.start) || Lex.AtMost(b.end, a.start)
  }

  predicate Proper(spans: seq<Span>) {
    forall i :: 0 <= i < |spans| ==> Lex.Less(spans[i].start, spans[i].end)
  }

  predicate ApartFromAll(x: Span, spans: seq<Span>) {
    forall y :: y in spans ==> Disjoint(x, y)
  }

  predicate PairwiseDisjoint(spans: seq<Span>) {
    spans == [] || (ApartFromAll(spans[0], spans[1..]) && PairwiseDisjoint(spans[1..]))
  }

  // The order of pairs of strings.
  predicate SpanLess(a: Span, b: Span) {
    Lex.Less(a.start, b.start) || (a.start == b.start && Lex.Less(a.end, b.end))
  }

  function InsertSpan(x: Span, spans: seq<Span>): seq<Span> {
    if spans == [] || !SpanLess(spans[0], x) then [x] + spans else [spans[0]] + InsertSpan(x, spans[1..])
  }

  // list.sort
  function Sorted(spans: seq<Span>): seq<Span> {
    if spans == [] then [] else InsertSpan(spans[0], Sorted(spans[1..]))
  }

  predicate StartsOrdered(spans: seq<Span>) {
    forall i, j :: 0 <= i < j < |spans| ==> Lex.AtMost(spans[i].start, spans[j].start)
  }

  predicate NeighboursApart(spans: seq<Span>) {
    |spans| <= 1 || (!Lex.Less(spans[1].start, spans[0].end) && NeighboursApart(spans[1..]))
  }

  lemma {:induction false} InsertMembers(x: Span, spans: seq<Span>, y: Span)
    ensures y in InsertSpan(x, spans) <==> y == x || y in spans
  {
    if spans != [] && SpanLess(spans[0], x) {
      InsertMembers(x, spans[1..], y);
      assert spans == [spans[0]] + spans[1..];
    }
  }

  lemma AtMostTransitive(a: string, b: string, c: string)
    requires Lex.AtMost(a, b) && Lex.AtMost(b, c)
    ensures Lex.AtMost(a, c)
  {
    if a != b && b != c {
      Lex.Transitive(a, b, c);
    }
  }

  lemma NotLess(a: string, b: string)
    ensures !Lex.Less(b, a) <==> Lex.AtMost(a, b)
  {
    Lex.Total(a, b);
    Lex.Irreflexive(a);
    if Lex.Less(a, b) {
      Lex.Asymmetric(a, b);
    }
  }

  lemma {:induction false} InsertOrdered(x: Span, spans: seq<Span>)
    requires StartsOrdered(spans)
    ensures StartsOrdered(InsertSpan(x, spans))
  {
    if spans == [] {
    } else {
      if SpanLess(spans[0], x) {
        InsertOrdered(x, spans[1..]);
        var rest := InsertSpan(x, spans[1..]);
        forall j | 0 <= j < |rest| ensures Lex.AtMost(spans[0].start, rest[j].start) {
          InsertMembers(x, spans[1..], rest[j]);
        }
      } else {
        NotLess(x.start, spans[0].start);
        forall j | 0 <= j < |spans| ensures Lex.AtMost(x.start, spans[j].start) {
          if j > 0 {
            AtMostTransitive(x.start, spans[0].start, spans[j].start);
          }
        }
      }
    }
  }

  lemma {:induction false} SortedOrdered(spans: seq<Span>)
    ensures StartsOrdered(Sorted(spans))
  {
    if spans == [] {
    } else {
      SortedOrdered(spans[1..]);
      InsertOrdered(spans[0], Sorted(spans[1..]));
    }
  }

  lemma {:induction false} SortedMembers(spans: seq<Span>, y: Span)
    ensures y in Sorted(spans) <==> y in spans
  {
    if spans == [] {
    } else {
      SortedMembers(spans[1..], y);
      InsertMembers(spans[0], Sorted(spans[1..]), y);
      assert spans == [spans[0]] + spans[1..];
    }
  }

  lemma ApartCons(y: Span, x: Span, spans: seq<Span>)
    ensures ApartFromAll(y, [x] + spans) <==> Disjoint(y, x) && ApartFromAll(y, spans)
    ensures ApartFromAll(y, spans + [x]) <==> Disjoint(y, x) && ApartFromAll(y, spans)
  {
    assert forall z :: z in [x] + spans <==> z == x || z in spans;
    assert forall z :: z in spans + [x] <==> z == x || z in spans;
  }

  lemma ApartInsert(y: Span, x: Span, spans: seq<Span>)
    ensures ApartFromAll(y, InsertSpan(x, spans)) <==> Disjoint(y, x) && ApartFromAll(y, spans)
  {
    forall z ensures z in InsertSpan(x, spans) <==> z == x || z in spans {
      InsertMembers(x, spans, z);
    }
  }

  lemma {:induction false} InsertDisjoint(x: Span, spans: seq<Span>)
    ensures PairwiseDisjoint(InsertSpan(x, spans)) <==> ApartFromAll(x, spans) && PairwiseDisjoint(spans)
  {
    if spans == [] || !SpanLess(spans[0], x) {
      assert ([x] + spans)[1..] == spans;
    } else {
      var rest := InsertSpan(x, spans[1..]);
      InsertDisjoint(x, spans[1..]);
      ApartInsert(spans[0], x, spans[1..]);
      ApartCons(x, spans[0], spans[1..]);
      assert [spans[0]] + spans[1..] == spans;
      assert ([spans[0]] + rest)[1..] == rest;
    }
  }

  // Sorting does not change whether the spans are pairwise disjoint.
  lemma {:induction false} SortedDisjoint(spans: seq<Span>)
    ensures PairwiseDisjoint(Sorted(spans)) <==> PairwiseDisjoint(spans)
  {
    if spans == [] {
    } else {
      SortedDisjoint(spans[1..]);
      InsertDisjoint(spans[0], Sorted(spans[1..]));
      forall y ensures y in Sorted(spans[1..]) <==> y in spans[1..] {
        SortedMembers(spans[1..], y);
      }
    }
  }

  // Of ordered spans, the first is apart from all others if it is apart from the next.
  lemma FirstApart(spans: seq<Span>)
    requires |spans| >= 2 && StartsOrdered(spans) && Proper(spans)
    ensures ApartFromAll(spans[0], spans[1..]) <==> !Lex.Less(spans[1].start, spans[0].end)
  {
    var a, b := spans[0], spans[1];
    NotLess(a.end, b.start);
    if !Lex.Less(b.start, a.end) {
      forall y | y in spans[1..] ensures Disjoint(a, y) {
        var i :| 1 <= i < |spans| && spans[i] == y;
        if i > 1 {
          AtMostTransitive(a.end, b.start, y.start);
        }
      }
    } else {
      assert b in spans[1..];
      if Lex.AtMost(b.end, a.start) {
        AtMostTransitive(b.end, a.start, b.start);
        NotLess(b.end, b.start);
      }
    }
  }

  lemma {:induction false} NeighboursSuffice(spans: seq<Span>)
    requires StartsOrdered(spans) && Proper(spans)
    ensures NeighboursApart(spans) <==> PairwiseDisjoint(spans)
  {
    if |spans| >= 2 {
      FirstApart(spans);
      NeighboursSuffice(spans[1..]);
    } else if |spans| == 1 {
      assert spans[1..] == [];
    }
  }

  // The check on one day: sort, then compare neighbours.
  lemma SortAndCompare(spans: seq<Span>)
    requires Proper(spans)
    ensures NeighboursApart(Sorted(spans)) <==> PairwiseDisjoint(spans)
  {
    SortedOrdered(spans);
    SortedDisjoint(spans);
    forall i | 0 <= i < |Sorted(spans)| ensures Lex.Less(Sorted(spans)[i].start, Sorted(spans)[i].end) {
      SortedMembers(spans, Sorted(spans)[i]);
    }
    NeighboursSuffice(Sorted(spans));
  }

  // ---- all days

  function SpanOf(w: Window): Span {
    Span(w.start, w.end)
  }

  // The spans of the windows that include the day, in the order of the windows.
  function SpansOn(windows: seq<Window>, day: int): seq<Span> {
    if windows == [] then []
    else
      var before, w := SpansOn(windows[..|windows| - 1], day), windows[|windows| - 1];
      if day in w.days then before + [SpanOf(w)] else before
  }

  predicate ValidWindows(windows: seq<Window>) {
    forall i :: 0 <= i < |windows| ==> ValidWindow(windows[i])
  }

  predicate ShareDay(a: Window, b: Window) {
    exists d :: 1 <= d <= 7 && d in a.days && d in b.days
  }

  // The specification: windows that share a weekday do not overlap.
  predicate NoOverlap(windows: seq<Window>) {
    forall i, j :: 0 <= i < j < |windows| && ShareDay(windows[i], windows[j]) ==>
      Disjoint(SpanOf(windows[i]), SpanOf(windows[j]))
  }

  lemma {:induction false} SpansOnMembers(windows: seq<Window>, day: int, y: Span)
    ensures y in SpansOn(windows, day) <==>
            exists i :: 0 <= i < |windows| && day in windows[i].days && SpanOf(windows[i]) == y
  {
    if windows == [] {
    } else {
      SpansOnMembers(windows[..|windows| - 1], day, y);
      if y in SpansOn(windows, day) && !(day in windows[|windows| - 1].days && SpanOf(windows[|windows| - 1]) == y) {
        var i :| 0 <= i < |windows| - 1 && day in windows[..|windows| - 1][i].days
          && SpanOf(windows[..|windows| - 1][i]) == y;
        assert windows[i] == windows[..|windows| - 1][i];
      }
    }
  }

  lemma SpansOnProper(windows: seq<Window>, day: int)
    requires ValidWindows(windows)
    ensures Proper(SpansOn(windows, day))
  {
    forall i | 0 <= i < |SpansOn(windows, day)|
      ensures Lex.Less(SpansOn(windows, day)[i].start, SpansOn(windows, day)[i].end)
    {
      SpansOnMembers(windows, day, SpansOn(windows, day)[i]);
    }
  }

  predicate NoOverlapOn(windows: seq<Window>, day: int) {
    forall i, j :: 0 <= i < j < |windows| && day in windows[i].days && day in windows[j].days ==>
      Disjoint(SpanOf(windows[i]), SpanOf(windows[j]))
  }

  lemma {:induction false} SpansOnDisjoint(windows: seq<Window>, day: int)
    ensures PairwiseDisjoint(SpansOn(windows, day)) <==> NoOverlapOn(windows, day)
  {
    if windows == [] {
    } else {
      var before, w := windows[..|windows| - 1], windows[|windows| - 1];
      SpansOnDisjoint(before, day);
      NoOverlapOnLast(before, w, day);
      assert before + [w] == windows;
      if day in w.days {
        AppendDisjoint(SpansOn(before, day), SpanOf(w));
        ApartFromDay(before, w, day);
      }
    }
  }

  lemma {:induction false} AppendDisjoint(spans: seq<Span>, x: Span)
    ensures PairwiseDisjoint(spans + [x]) <==> PairwiseDisjoint(spans) && ApartFromAll(x, spans)
  {
    if spans == [] {
      assert ([] + [x])[1..] == [];
    } else {
      AppendDisjoint(spans[1..], x);
      assert (spans + [x])[1..] == spans[1..] + [x];
      ApartCons(spans[0], x, spans[1..]);
      ApartCons(x, spans[0], spans[1..]);
      assert [spans[0]] + spans[1..] == spans;
    }
  }

  predicate ApartOn(windows: seq<Window>, w: Window, day: int) {
    forall i :: 0 <= i < |windows| && day in windows[i].days ==> Disjoint(SpanOf(windows[i]), SpanOf(w))
  }

  lemma NoOverlapOnLast(before: seq<Window>, w: Window, day: int)
    ensures NoOverlapOn(before + [w], day) <==> NoOverlapOn(before, day) && (day in w.days ==> ApartOn(before, w, day))
  {
    var all := before + [w];
    if NoOverlapOn(all, day) {
      assert forall i, j :: 0 <= i < j < |before| ==> all[i] == before[i] && all[j] == before[j];
      assert forall i :: 0 <= i < |before| ==> all[i] == before[i] && all[|before|] == w;
    }
  }

  lemma ApartFromDay(windows: seq<Window>, w: Window, day: int)
    ensures ApartFromAll(SpanOf(w), SpansOn(windows, day)) <==> ApartOn(windows, w, day)
  {
    var spans := SpansOn(windows, day);
    if ApartFromAll(SpanOf(w), spans) {
      forall i | 0 <= i < |windows| && day in windows[i].days ensures Disjoint(SpanOf(windows[i]), SpanOf(w)) {
        SpansOnMembers(windows, day, SpanOf(windows[i]));
      }
    }
    if ApartOn(windows, w, day) {
      forall y | y in spans ensures Disjoint(SpanOf(w), y) {
        SpansOnMembers(windows, day, y);
      }
    }
  }

  // ---- the validator

  function Get(byDay: map<int, seq<Span>>, day: int): seq<Span> {
    if day in byDay then byDay[day] else []
  }

  method CheckNoOverlap(windows: seq<Window>) returns (ok: bool)
    requires ValidWindows(windows)
    ensures ok <==> NoOverlap(windows)
  {
    var byDay := GroupByDay(windows);
    ok := true;
    for d := 1 to 8
      invariant ok <==> FineDays(windows, d - 1)
    {
      var spans := Sorted(Get(byDay, d));
      var apart := CompareNeighbours(spans);
      ok := ok && apart;
    }
    FineDaysMeansNoOverlap(windows);
  }

  // The check passes on the first `days` weekdays.
  predicate FineDays(windows: seq<Window>, days: nat) {
    days == 0 || (FineDays(windows, days - 1) && NeighboursApart(Sorted(SpansOn(windows, days))))
  }

  lemma DayChecked(windows: seq<Window>, day: int)
    requires ValidWindows(windows)
    ensures NeighboursApart(Sorted(SpansOn(windows, day))) <==> NoOverlapOn(windows, day)
  {
    SpansOnProper(windows, day);
    SortAndCompare(SpansOn(windows, day));
    SpansOnDisjoint(windows, day);
  }

  lemma {:induction false} FineDay(windows: seq<Window>, days: nat, day: nat)
    requires FineDays(windows, days) && 1 <= day <= days
    ensures NeighboursApart(Sorted(SpansOn(windows, day)))
  {
    if day < days {
      FineDay(windows, days - 1, day);
    }
  }

  lemma {:induction false} BadDay(windows: seq<Window>, days: nat) returns (day: nat)
    requires !FineDays(windows, days)
    ensures 1 <= day <= days && !NeighboursApart(Sorted(SpansOn(windows, day)))
  {
    if FineDays(windows, days - 1) {
      day := days;
    } else {
      day := BadDay(windows, days - 1);
    }
  }

  lemma OverlapSomewhere(windows: seq<Window>, day: nat)
    requires 1 <= day <= 7 && !NoOverlapOn(windows, day)
    ensures !NoOverlap(windows)
  {
    var i, j :| 0 <= i < j < |windows| && day in windows[i].days && day in windows[j].days
      && !Disjoint(SpanOf(windows[i]), SpanOf(windows[j]));
    assert ShareDay(windows[i], windows[j]);
  }

  lemma FineDaysMeansNoOverlap(windows: seq<Window>)
    requires ValidWindows(windows)
    ensures FineDays(windows, 7) <==> NoOverlap(windows)
  {
    if FineDays(windows, 7) {
      forall i, j | 0 <= i < j < |windows| && ShareDay(windows[i], windows[j])
        ensures Disjoint(SpanOf(windows[i]), SpanOf(windows[j]))
      {
        var d :| 1 <= d <= 7 && d in windows[i].days && d in windows[j].days;
        FineDay(windows, 7, d);
        DayChecked(windows, d);
      }
    } else {
      var d := BadDay(windows, 7);
      DayChecked(windows, d);
      OverlapSomewhere(windows, d);
    }
  }

  method GroupByDay(windows: seq<Window>) returns (byDay: map<int, seq<Span>>)
    requires ValidWindows(windows)
    ensures forall d :: Get(byDay, d) == SpansOn(windows, d)
    ensures forall d :: d in byDay ==> 1 <= d <= 7
  {
    byDay := map[];
    for n := 0 to |windows|
      invariant forall d :: Get(byDay, d) == SpansOn(windows[..n], d)
      invariant forall d :: d in byDay ==> 1 <= d <= 7
    {
      assert windows[..n + 1][..n] == windows[..n];
      byDay := AddWindow(byDay, windows[n]);
    }
    assert windows[..|windows|] == windows;
  }

  method AddWindow(byDay: map<int, seq<Span>>, w: Window) returns (byDay': map<int, seq<Span>>)
    requires ValidWindow(w) && forall d :: d in byDay ==> 1 <= d <= 7
    ensures forall d :: Get(byDay', d) == if d in w.days then Get(byDay, d) + [SpanOf(w)] else Get(byDay, d)
    ensures forall d :: d in byDay' ==> 1 <= d <= 7
  {
    byDay' := byDay;
    for k := 0 to |w.days|
      invariant forall d :: Get(byDay', d) == if d in w.days[..k] then Get(byDay, d) + [SpanOf(w)] else Get(byDay, d)
      invariant forall d :: d in byDay' ==> 1 <= d <= 7
    {
      var day := w.days[k];
      assert day in w.days && day !in w.days[..k];
      assert w.days[..k + 1] == w.days[..k] + [day];
      byDay' := byDay'[day := Get(byDay', day) + [SpanOf(w)]];
    }
    assert w.days[..|w.days|] == w.days;
  }

  method CompareNeighbours(spans: seq<Span>) returns (apart: bool)
    ensures apart <==> NeighboursApart(spans)
  {
    var n := 0;
    while n + 1 < |spans|
      invariant 0 <= n <= |spans|
      invariant NeighboursApart(spans) <==> NeighboursApart(spans[n..])
    {
      if Lex.Less(spans[n + 1].start, spans[n].end) {
        return false;
      }
      n := n + 1;
    }
    apart := true;
  }

  // ---- in terms of the clock

  predicate Covers(w: Window, minute: int)
    requires ValidWindow(w)
  {
    Minutes(w.start) <= minute < Minutes(w.end)
  }

  predicate CanonicalWindows(windows: seq<Window>) {
    forall i :: 0 <= i < |windows| ==> Canonical(windows[i].start) && Canonical(windows[i].end)
  }

  // No minute of a weekday belongs to two windows.
  ghost predicate MinutesApart(windows: seq<Window>)
    requires ValidWindows(windows)
  {
    forall i, j, minute :: 0 <= i < j < |windows| && ShareDay(windows[i], windows[j]) ==>
      !(Covers(windows[i], minute) && Covers(windows[j], minute))
  }

  // ---- which times are judged by the clock

  // A set of times, of which those count that the pattern accepts.
  type Times = string -> bool

  predicate TimesIn(windows: seq<Window>, times: Times) {
    forall i :: 0 <= i < |windows| ==> times(windows[i].start) && times(windows[i].end)
  }

  // String order is clock order among them.
  ghost predicate InClockOrder(times: Times) {
    forall s, t :: times(s) && times(t) && TimeValid(s) && TimeValid(t) ==>
      (Lex.Less(s, t) <==> Minutes(s) < Minutes(t))
  }

  // Every schedule with these times is accepted exactly when no minute of a
  // weekday belongs to two of its windows.
  ghost predicate OverlapsJudged(times: Times) {
    forall windows :: ValidWindows(windows) && TimesIn(windows, times) ==>
      (NoOverlap(windows) <==> MinutesApart(windows))
  }

  // Every window with these times is accepted exactly when it ends after it starts.
  ghost predicate WindowsJudged(times: Times) {
    forall s, t :: times(s) && times(t) && TimeValid(s) && TimeValid(t) ==>
      (MakeWindow([1], s, t).Some? <==> Minutes(s) < Minutes(t))
  }

  lemma DisjointInMinutes(a: Window, b: Window, times: Times)
    requires ValidWindow(a) && ValidWindow(b) && InClockOrder(times)
    requires times(a.start) && times(a.end) && times(b.start) && times(b.end)
    ensures Disjoint(SpanOf(a), SpanOf(b)) <==>
            Minutes(a.end) <= Minutes(b.start) || Minutes(b.end) <= Minutes(a.start)
    ensures Minutes(a.start) < Minutes(a.end) && Minutes(b.start) < Minutes(b.end)
  {
    NotLess(a.end, b.start);
    NotLess(b.end, a.start);
  }

  lemma JudgedByClock(windows: seq<Window>, times: Times)
    requires ValidWindows(windows) && TimesIn(windows, times) && InClockOrder(times)
    ensures NoOverlap(windows) <==> MinutesApart(windows)
  {
    if NoOverlap(windows) {
      forall i, j, minute | 0 <= i < j < |windows| && ShareDay(windows[i], windows[j])
        ensures !(Covers(windows[i], minute) && Covers(windows[j], minute))
      {
        DisjointInMinutes(windows[i], windows[j], times);
      }
    }
    if MinutesApart(windows) {
      forall i, j | 0 <= i < j < |windows| && ShareDay(windows[i], windows[j])
        ensures Disjoint(SpanOf(windows[i]), SpanOf(windows[j]))
      {
        var a, b := windows[i], windows[j];
        DisjointInMinutes(a, b, times);
        var later := if Minutes(a.start) < Minutes(b.start) then Minutes(b.start) else Minutes(a.start);
        assert !(Covers(a, later) && Covers(b, later));
      }
    }
  }

  // A window that is empty or inverted by the clock, given twice: refused,
  // although no minute belongs to both.
  lemma RefusedForNothing(s: string, t: string)
    requires TimeValid(s) && TimeValid(t) && Lex.Less(s, t) && Minutes(s) >= Minutes(t)
    ensures var w := Window([1], s, t);
            ValidWindows([w, w]) && !NoOverlap([w, w]) && MinutesApart([w, w])
  {
    var w := Window([1], s, t);
    var windows := [w, w];
    assert 1 in w.days;
    assert ShareDay(windows[0], windows[1]);
    Lex.Asymmetric(s, t);
    assert !Disjoint(SpanOf(w), SpanOf(w));
  }

  // The schedules with times from a set are judged by the clock if and only if
  // string order is clock order in that set.
  lemma OverlapsJudgedExactly(times: Times)
    ensures OverlapsJudged(times) <==> InClockOrder(times)
  {
    if InClockOrder(times) {
      forall windows | ValidWindows(windows) && TimesIn(windows, times)
        ensures NoOverlap(windows) <==> MinutesApart(windows)
      {
        JudgedByClock(windows, times);
      }
    }
    if OverlapsJudged(times) {
      forall s, t | times(s) && times(t) && TimeValid(s) && TimeValid(t)
        ensures Lex.Less(s, t) <==> Minutes(s) < Minutes(t)
      {
        OrderFromOverlaps(times, s, t);
        OrderFromOverlaps(times, t, s);
        Lex.Total(s, t);
      }
    }
  }

  // And so are the single windows.
  lemma WindowsJudgedExactly(times: Times)
    ensures WindowsJudged(times) <==> InClockOrder(times)
  {
    forall s, t | TimeValid(s) && TimeValid(t) ensures MakeWindow([1], s, t).Some? <==> Lex.Less(s, t) {
    }
  }

  lemma OrderFromOverlaps(times: Times, s: string, t: string)
    requires OverlapsJudged(times) && times(s) && times(t) && TimeValid(s) && TimeValid(t)
    ensures Lex.Less(s, t) ==> Minutes(s) < Minutes(t)
  {
    if Lex.Less(s, t) && Minutes(s) >= Minutes(t) {
      var w := Window([1], s, t);
      RefusedForNothing(s, t);
      assert TimesIn([w, w], times);
    }
  }

  // The canonical times are such a set, and stay one with a further time if and
  // only if that is canonical too.
  lemma CanonicalAndOneMore(s: string)
    requires TimeValid(s)
    ensures OverlapsJudged(t => Canonical(t) || t == s) <==> Canonical(s)
  {
    var times: Times := t => Canonical(t) || t == s;
    OverlapsJudgedExactly(times);
    OrderAgreesExactly(s);
    if Canonical(s) {
      forall u, v | times(u) && times(v) && TimeValid(u) && TimeValid(v)
        ensures Lex.Less(u, v) <==> Minutes(u) < Minutes(v)
      {
        CanonicalOrder(u, v);
      }
    }
    if InClockOrder(times) {
      forall t | Canonical(t)
        ensures (Lex.Less(s, t) <==> Minutes(s) < Minutes(t)) && (Lex.Less(t, s) <==> Minutes(t) < Minutes(s))
      {
        assert times(s) && times(t);
      }
    }
  }

  // With canonical times, a schedule is accepted exactly when no minute of a
  // weekday belongs to two of its windows.
  lemma AcceptedMeansMinutesApart(windows: seq<Window>)
    requires ValidWindows(windows) && CanonicalWindows(windows)
    ensures NoOverlap(windows) <==> MinutesApart(windows)
  {
    forall s, t | Canonical(s) && Canonical(t) ensures Lex.Less(s, t) <==> Minutes(s) < Minutes(t) {
      CanonicalOrder(s, t);
    }
    JudgedByClock(windows, Canonical);
  }

  // Without that, an overlap can be accepted: 09:03 written with an Arabic-Indic
  // three sorts after 09:04.
  lemma ForeignDigitExample()
    ensures var windows := [Window([1], "08:00", "09:04"), Window([1], "09:0\U{0663}", "10:00")];
            ValidWindows(windows) && NoOverlap(windows) && !MinutesApart(windows)
  {
    var a, b := Window([1], "08:00", "09:04"), Window([1], "09:0\U{0663}", "10:00");
    var windows := [a, b];
    ArabicIndicThree();
    LessFive(a.start, a.end);
    LessFive(b.start, b.end);
    LessFive(a.end, b.start);
    assert Disjoint(SpanOf(a), SpanOf(b));
    assert 1 in a.days && 1 in b.days;
    assert ShareDay(windows[0], windows[1]);
    assert Covers(windows[0], 543) && Covers(windows[1], 543);
  }

  // An inverted window is accepted in the same way: it ends a minute before it starts.
  lemma InvertedWindowExample()
    ensures var w := Window([1], "09:04", "09:0\U{0663}");
            MakeWindow([1], w.start, w.end) == Some(w) && Minutes(w.end) == Minutes(w.start) - 1
  {
    ArabicIndicThree();
    LessFive("09:04", "09:0\U{0663}");
    assert SortedDays([1], 1) == [1] by { OnlyMonday(); }
  }

  lemma OnlyMonday()
    ensures SortedDays([1], 1) == [1]
  {
    var days := SortedDays([1], 1);
    assert 1 in days;
    assert forall i :: 0 <= i < |days| ==> days[i] in days;
  }
}
