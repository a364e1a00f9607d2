// How wide the lines of an HTML outline become once they are normalised.

module HtmlWidth {
  import opened PyText
  import opened TextNormaliser
  import opened TextLayout
  import opened HtmlMachine

  const MAX_INDENT := 24  // twelve levels of two spaces

  // ---- the machine keeps its indent within twelve levels

  predicate Bounded(p: Page) {
    p.heading <= 6 && p.indent <= 12
  }

  lemma OpenCloseBounded(tag: string, depth: nat, p: Page)
    requires Bounded(p)
    ensures Bounded(Open(tag, depth, p)) && Bounded(Close(tag, depth, p))
  {
  }

  // ---- the characters of the documents

  // Which characters the text of a document may contain.
  type Alphabet = char -> bool

  predicate Removable(c: char) {
    IsBom(c) || (IsControl(c) && !IsSpace(c))
  }

  predicate Visible(c: char) {
    !IsSpace(c) && !Removable(c)
  }

  ghost predicate HasSpace(allowed: Alphabet) {
    exists c :: allowed(c) && IsSpace(c)
  }

  ghost predicate HasRemovable(allowed: Alphabet) {
    exists c :: allowed(c) && Removable(c)
  }

  ghost predicate HasVisible(allowed: Alphabet) {
    exists c :: allowed(c) && Visible(c)
  }

  predicate Over(s: string, allowed: Alphabet) {
    forall i :: 0 <= i < |s| ==> allowed(s[i])
  }

  // Text over the alphabet after collapsing: single spaces may be new.
  ghost predicate Spelled(s: string, allowed: Alphabet) {
    forall i :: 0 <= i < |s| ==> (s[i] == ' ' && HasSpace(allowed)) || (!IsSpace(s[i]) && allowed(s[i]))
  }

  predicate DataOver(evs: seq<Event>, allowed: Alphabet) {
    forall i :: 0 <= i < |evs| && evs[i].Data? ==> Over(evs[i].text, allowed)
  }

  lemma WordSpelled(w: string, s: string, allowed: Alphabet)
    requires |w| <= |s| && s[..|w|] == w && Over(s, allowed) && forall i :: 0 <= i < |w| ==> !IsSpace(w[i])
    ensures Spelled(w, allowed) && Over(s[|w|..], allowed)
  {
    assert forall i :: 0 <= i < |w| ==> w[i] == s[i];
  }

  lemma JoinSpelled(a: string, b: string, allowed: Alphabet)
    requires Spelled(a, allowed) && Spelled(b, allowed) && HasSpace(allowed)
    ensures Spelled(a + " " + b, allowed)
  {
  }

  lemma {:induction false} CollapseSpelled(s: string, allowed: Alphabet)
    requires Over(s, allowed)
    ensures Spelled(Collapse(s), allowed)
    decreases |s|
  {
    LStripFacts(s);
    var t := LStrip(s);
    assert t == s[|s| - |t|..];
    if t != "" {
      var w := Word(t);
      WordSpelled(w, t, allowed);
      CollapseSpelled(t[|w|..], allowed);
      if Collapse(t[|w|..]) != "" {
        assert t[|w|..] != "" by { assert Collapse("") == ""; }
        assert allowed(t[|w|]) && IsSpace(t[|w|]);
        JoinSpelled(w, Collapse(t[|w|..]), allowed);
      }
    }
  }

  // ---- the lines of the outline

  // An indent of at most twelve levels, then collapsed text.
  ghost predicate OutlineLine(line: string, allowed: Alphabet) {
    exists k: nat, text :: k <= MAX_INDENT && Tight(text) && Flat(text) && Spelled(text, allowed)
      && line == Padded(k, text)
  }

  function Padded(k: nat, text: string): string {
    Pad(k) + text
  }

  ghost predicate OutlinePage(p: Page, allowed: Alphabet) {
    Bounded(p) && Over(p.buffer, allowed) && forall i :: 0 <= i < |p.lines| ==> OutlineLine(p.lines[i], allowed)
  }

  lemma FlushOutline(p: Page, allowed: Alphabet)
    requires OutlinePage(p, allowed)
    ensures OutlinePage(Flush(p), allowed)
  {
    var text := Collapse(p.buffer);
    CollapseShape(p.buffer);
    CollapseSpelled(p.buffer, allowed);
    if text != "" {
      assert OutlineLine(Padded(2 * p.indent, text), allowed);
    }
  }

  lemma OpenOutline(tag: string, depth: nat, p: Page, allowed: Alphabet)
    requires OutlinePage(p, allowed)
    ensures OutlinePage(Open(tag, depth, p), allowed) && OutlinePage(Close(tag, depth, p), allowed)
  {
    FlushOutline(p, allowed);
    OpenCloseBounded(tag, depth, p);
    var q := Flush(p);
    var r, t := Open(tag, depth, p), Close(tag, depth, p);
    assert (r.lines, r.buffer) == (p.lines, p.buffer) || (r.lines, r.buffer) == (q.lines, q.buffer);
    assert (t.lines, t.buffer) == (p.lines, p.buffer) || (t.lines, t.buffer) == (q.lines, q.buffer);
  }

  lemma StepOutline(m: Machine, ev: Event, allowed: Alphabet)
    requires OutlinePage(m.page, allowed) && (ev.Data? ==> Over(ev.text, allowed))
    ensures OutlinePage(Step(m, ev).page, allowed)
  {
    match ev {
      case Start(tag) => OpenOutline(tag, if IsList(tag) then m.depth + 1 else m.depth, m.page, allowed);
      case End(tag) => OpenOutline(tag, if IsList(tag) && m.depth > 0 then m.depth - 1 else m.depth, m.page, allowed);
      case Data(text) =>
    }
  }

  lemma {:induction false} RunOutline(evs: seq<Event>, m: Machine, allowed: Alphabet)
    requires OutlinePage(m.page, allowed) && DataOver(evs, allowed)
    ensures OutlinePage(Run(evs, m).page, allowed)
  {
    if evs == [] {
    } else {
      StepOutline(m, evs[0], allowed);
      RunOutline(evs[1..], Step(m, evs[0]), allowed);
    }
  }

  // Whatever the events, well nested or not, every line is indented by at most
  // twelve levels, and its text is collapsed.
  lemma OutlineIndents(evs: seq<Event>, allowed: Alphabet)
    requires DataOver(evs, allowed)
    ensures forall i :: 0 <= i < |OutlineLines(evs)| ==> OutlineLine(OutlineLines(evs)[i], allowed)
  {
    RunOutline(evs, Initial, allowed);
    FlushOutline(Run(evs, Initial).page, allowed);
  }

  // ---- what the cleaning does to one such line

  lemma KeptConcat(a: string, b: string)
    ensures Kept(a + b) == Kept(a) + Kept(b)
  {
    DropConcat(a, b, IsBom);
    DropConcat(Drop(a, IsBom), Drop(b, IsBom), IsControl);
  }

  lemma KeptWhole(s: string)
    requires forall i :: 0 <= i < |s| ==> !IsBom(s[i]) && !IsControl(s[i])
    ensures Kept(s) == s
  {
    DropNothing(s, IsBom);
    DropNothing(s, IsControl);
  }

  lemma KeptChars(s: string)
    ensures forall i :: 0 <= i < |Kept(s)| ==> Kept(s)[i] in s && !IsBom(Kept(s)[i]) && !IsControl(Kept(s)[i])
  {
    DropFree(s, IsBom, c => c !in s);
    DropFree(Drop(s, IsBom), IsControl, c => c !in s || IsBom(c));
  }

  // Nothing remains, or what remains does not begin with a space.
  predicate Steady(kept: string) {
    Blank(kept) || !IsSpace(kept[0])
  }

  lemma SteadyText(text: string, allowed: Alphabet)
    requires Tight(text) && Spelled(text, allowed)
    requires !(HasSpace(allowed) && HasRemovable(allowed) && HasVisible(allowed))
    ensures Steady(Kept(text))
  {
    KeptChars(text);
    if !HasRemovable(allowed) {
      assert forall i :: 0 <= i < |text| ==> allowed(text[i]) ==> !Removable(text[i]);
      KeptWhole(text);
    } else if HasSpace(allowed) {
      forall i | 0 <= i < |Kept(text)| ensures IsSpace(Kept(text)[i]) {
        var c := Kept(text)[i];
        assert !allowed(c) || !Visible(c);
      }
    }
  }

  lemma IndentOfKept(line: string)
    requires !Blank(line)
    ensures Indent(RStrip(line)) == Indent(line)
  {
    RStripFacts(line);
    var t := RStrip(line);
    assert !IsSpace(t[|t| - 1]);
    assert Indent(t) < |t|;
    assert t[Indent(t)] == line[Indent(t)];
  }

  predicate NarrowOrBlank(raw: string) {
    Blank(raw) || Indent(RStrip(raw)) <= MAX_INDENT
  }

  lemma KeptLine(k: nat, text: string)
    requires k <= MAX_INDENT && Steady(Kept(text)) && Flat(text)
    ensures NarrowOrBlank(Kept(Padded(k, text))) && NoNewline(Kept(Padded(k, text)))
  {
    KeptConcat(Pad(k), text);
    KeptWhole(Pad(k));
    KeptChars(text);
    PaddedKept(k, Kept(text));
  }

  lemma PaddedKept(k: nat, kept: string)
    requires k <= MAX_INDENT && Steady(kept) && Flat(kept)
    ensures NarrowOrBlank(Pad(k) + kept) && NoNewline(Pad(k) + kept)
  {
    if !Blank(kept) {
      IndentOfPadded(k, kept);
      assert (Pad(k) + kept)[k] == kept[0];
      IndentOfKept(Pad(k) + kept);
    }
  }

  // ---- and to all lines

  function KeptLines(lines: seq<string>): seq<string> {
    seq(|lines|, i requires 0 <= i < |lines| => Kept(lines[i]))
  }

  lemma {:induction false} KeptJoin(lines: seq<string>)
    ensures Kept(Join(lines)) == Join(KeptLines(lines))
  {
    if |lines| > 1 {
      KeptJoin(lines[1..]);
      KeptConcat(lines[0] + "\n", Join(lines[1..]));
      KeptConcat(lines[0], "\n");
      KeptWhole("\n");
      assert KeptLines(lines)[1..] == KeptLines(lines[1..]);
    }
  }

  lemma {:induction false} JoinHasNoReturn(lines: seq<string>)
    requires forall i :: 0 <= i < |lines| ==> NoReturn(lines[i])
    ensures NoReturn(Join(lines))
  {
    if |lines| > 1 {
      JoinHasNoReturn(lines[1..]);
    }
  }

  predicate NoReturn(s: string) {
    forall i :: 0 <= i < |s| ==> s[i] != '\r'
  }

  lemma CleanNoReturn(text: string)
    requires NoReturn(text)
    ensures Clean(text) == Kept(text)
  {
    DropFree(text, IsBom, c => c == '\r');
    ReplaceNothing(Drop(text, IsBom));
  }

  lemma OutlineLineCleans(line: string, allowed: Alphabet)
    requires OutlineLine(line, allowed)
    requires !(HasSpace(allowed) && HasRemovable(allowed) && HasVisible(allowed))
    ensures NoReturn(line) && NarrowOrBlank(Kept(line)) && NoNewline(Kept(line))
  {
    var k: nat, text: string :| k <= MAX_INDENT && Tight(text) && Flat(text) && Spelled(text, allowed)
      && line == Padded(k, text);
    SteadyText(text, allowed);
    KeptLine(k, text);
  }

  lemma OutlineCleans(evs: seq<Event>, allowed: Alphabet)
    requires DataOver(evs, allowed)
    requires !(HasSpace(allowed) && HasRemovable(allowed) && HasVisible(allowed))
    ensures forall i :: 0 <= i < |Split(Clean(Join(OutlineLines(evs))))| ==>
              NarrowOrBlank(Split(Clean(Join(OutlineLines(evs))))[i])
  {
    var outline := OutlineLines(evs);
    OutlineIndents(evs, allowed);
    forall i | 0 <= i < |outline|
      ensures NoReturn(outline[i]) && NarrowOrBlank(KeptLines(outline)[i]) && NoNewline(KeptLines(outline)[i])
    {
      OutlineLineCleans(outline[i], allowed);
    }
    JoinHasNoReturn(outline);
    CleanNoReturn(Join(outline));
    KeptJoin(outline);
    if outline == [] {
      assert Split(Clean("")) == [""];
    } else {
      SplitJoin(KeptLines(outline));
    }
  }

  predicate NarrowIndents(lines: seq<string>) {
    forall i :: 0 <= i < |lines| ==> Indent(lines[i]) <= MAX_INDENT
  }

  lemma {:induction false} LayoutKeepsIndents(raws: seq<string>)
    requires forall i :: 0 <= i < |raws| ==> NarrowOrBlank(raws[i])
    ensures NarrowIndents(Layout(raws))
  {
    if raws == [] {
    } else {
      LayoutKeepsIndents(raws[..|raws| - 1]);
      var raw := raws[|raws| - 1];
      var line := RStrip(raw);
      RStripFacts(raw);
      StripFacts(line);
      if Strip(line) != "" {
        WrapLaysOut(Indent(line), Strip(line));
      }
    }
  }

  lemma OutlineWidth(evs: seq<Event>, allowed: Alphabet)
    requires DataOver(evs, allowed)
    requires !(HasSpace(allowed) && HasRemovable(allowed) && HasVisible(allowed))
    ensures var lines := Lines(Join(OutlineLines(evs)));
            NarrowIndents(lines) && AllShort(lines)
  {
    var text := Join(OutlineLines(evs));
    OutlineCleans(evs, allowed);
    LayoutKeepsIndents(Split(Clean(text)));
    TrimEndPrefix(Layout(Split(Clean(text))));
    OutputWidth(text);
  }

  // ---- what removed characters can do to the indent

  // n removed characters, each followed by a space, and then a visible one.
  function Spread(r: char, s: char, x: char, n: nat): string {
    if n == 0 then [x] else [r, s] + Spread(r, s, x, n - 1)
  }

  lemma FirstWord(c: char, s: char, more: string)
    requires !IsSpace(c) && IsSpace(s)
    ensures Word([c, s] + more) == [c] && ([c, s] + more)[1..] == [s] + more
  {
    assert ([c, s] + more)[1..] == [s] + more;
    assert Word([s] + more) == "";
  }

  lemma CollapseAfterSpace(s: char, more: string)
    requires IsSpace(s)
    ensures Collapse([s] + more) == Collapse(more)
  {
    assert ([s] + more)[1..] == more;
    assert LStrip([s] + more) == LStrip(more);
  }

  // A single character, a space, and more text.
  lemma CollapseOneMore(c: char, s: char, more: string)
    requires !IsSpace(c) && IsSpace(s) && Collapse(more) != ""
    ensures Collapse([c, s] + more) == [c, ' '] + Collapse(more)
  {
    var t := [c, s] + more;
    FirstWord(c, s, more);
    CollapseAfterSpace(s, more);
    assert LStrip(t) == t;
    assert [c] + " " + Collapse(more) == [c, ' '] + Collapse(more);
  }

  lemma CollapseOne(x: char)
    requires !IsSpace(x)
    ensures Collapse([x]) == [x]
  {
    assert [x][1..] == "" && Word([x]) == [x] + Word("");
    assert LStrip([x]) == [x] && Collapse("") == "";
  }

  lemma {:induction false} SpreadCollapses(r: char, s: char, x: char, n: nat)
    requires Removable(r) && IsSpace(s) && Visible(x)
    ensures Collapse(Spread(r, s, x, n)) == Spread(r, ' ', x, n)
  {
    if n == 0 {
      CollapseOne(x);
    } else {
      SpreadCollapses(r, s, x, n - 1);
      CollapseOneMore(r, s, Spread(r, s, x, n - 1));
    }
  }

  lemma DropPair(r: char, p: char -> bool)
    requires p(r) && !p(' ')
    ensures Drop([r, ' '], p) == " "
  {
    assert [r, ' '][1..] == " " && " "[1..] == "";
  }

  lemma KeptPair(r: char)
    requires Removable(r)
    ensures Kept([r, ' ']) == " "
  {
    if IsBom(r) {
      DropPair(r, IsBom);
      DropNothing(" ", IsControl);
    } else {
      DropNothing([r, ' '], IsBom);
      DropPair(r, IsControl);
    }
  }

  lemma {:induction false} SpreadKept(r: char, x: char, n: nat)
    requires Removable(r) && Visible(x)
    ensures Kept(Spread(r, ' ', x, n)) == Pad(n) + [x]
  {
    if n == 0 {
      KeptWhole([x]);
    } else {
      SpreadKept(r, x, n - 1);
      KeptPair(r);
      KeptConcat([r, ' '], Spread(r, ' ', x, n - 1));
    }
  }

  lemma {:induction false} SpreadChars(r: char, s: char, x: char, n: nat)
    ensures forall i :: 0 <= i < |Spread(r, s, x, n)| ==> Spread(r, s, x, n)[i] in {r, s, x}
  {
    if n == 0 {
    } else {
      SpreadChars(r, s, x, n - 1);
    }
  }

  lemma OutlineOfOne(text: string, collapsed: string)
    requires collapsed != "" && Collapse(text) == collapsed
    ensures OutlineLines([Data(text)]) == [collapsed]
  {
    var evs := [Data(text)];
    assert Run(evs, Initial) == Run([], Step(Initial, evs[0])) == Step(Initial, evs[0]);
    assert "" + text == text && Pad(0) + collapsed == collapsed;
    assert [] + [collapsed] == [collapsed];
  }

  lemma LinesOfOne(text: string, line: string)
    requires Clean(text) == line && line != "" && WellLaid(line) && NoNewline(line)
    ensures Lines(text) == [line]
  {
    SplitOneLine(line);
    LaidOnce(line);
    assert [line][..0] == [];
    assert Layout([line]) == LineStep([], line) == [] + [line] == [line];
  }

  // The cleaning leaves the spaces between removed characters behind, as an
  // indent that no heading or list asked for: for every n there is a document
  // whose one line is n + 1 characters long.
  lemma SpreadWidens(r: char, s: char, x: char, n: nat)
    requires Removable(r) && IsSpace(s) && Visible(x)
    ensures Lines(Join(OutlineLines([Data(Spread(r, s, x, n))]))) == [Pad(n) + [x]]
  {
    var text := Spread(r, ' ', x, n);
    SpreadCollapses(r, s, x, n);
    OutlineOfOne(Spread(r, s, x, n), text);
    SpreadClean(r, x, n);
    SpreadLine(x, n);
    LinesOfOne(text, Pad(n) + [x]);
  }

  lemma SpreadClean(r: char, x: char, n: nat)
    requires Removable(r) && Visible(x)
    ensures Clean(Spread(r, ' ', x, n)) == Pad(n) + [x]
  {
    SpreadChars(r, ' ', x, n);
    CleanNoReturn(Spread(r, ' ', x, n));
    SpreadKept(r, x, n);
  }

  lemma SpreadLine(x: char, n: nat)
    requires Visible(x)
    ensures WellLaid(Pad(n) + [x]) && NoNewline(Pad(n) + [x]) && Pad(n) + [x] != ""
  {
    IndentOfPadded(n, [x]);
  }

  lemma ControlsExample(n: nat)
    ensures Lines(Join(OutlineLines([Data(Spread('\U{0001}', ' ', 'x', n))]))) == [Pad(n) + "x"]
  {
    SpreadWidens('\U{0001}', ' ', 'x', n);
  }

  // ---- exactly which texts are safe

  // Whatever the document, as long as its text is over this alphabet.
  ghost predicate AlwaysFits(allowed: Alphabet) {
    forall evs: seq<Event> :: DataOver(evs, allowed) ==> AllShort(Lines(Join(OutlineLines(evs))))
  }

  // The normalised outline stays within 500 characters a line for all documents
  // over an alphabet if and only if the alphabet lacks removed characters (a
  // byte-order mark or a control character that is not white space), or white
  // space, or visible characters.
  lemma OutlineFitsExactly(allowed: Alphabet)
    ensures AlwaysFits(allowed) <==> !(HasSpace(allowed) && HasRemovable(allowed) && HasVisible(allowed))
  {
    if HasSpace(allowed) && HasRemovable(allowed) && HasVisible(allowed) {
      var r :| allowed(r) && Removable(r);
      var s :| allowed(s) && IsSpace(s);
      var x :| allowed(x) && Visible(x);
      var evs := [Data(Spread(r, s, x, MAX_LINE_CHARS))];
      SpreadChars(r, s, x, MAX_LINE_CHARS);
      SpreadWidens(r, s, x, MAX_LINE_CHARS);
      assert DataOver(evs, allowed);
      assert |Lines(Join(OutlineLines(evs)))[0]| == MAX_LINE_CHARS + 1;
    } else {
      forall evs: seq<Event> | DataOver(evs, allowed) ensures AllShort(Lines(Join(OutlineLines(evs)))) {
        OutlineWidth(evs, allowed);
      }
    }
  }
}
