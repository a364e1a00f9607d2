// What the normalised text looks like: widths, indents, blank lines, and that
// normalising it again changes nothing.

module TextLayout {
  import opened PyText
  import opened TextNormaliser

  // ---- one line

  // An output line is empty, or indented content that fits its room.
  predicate WellLaid(line: string) {
    line == "" || (Tight(line[Indent(line)..]) && |line| - Indent(line) <= Room(Indent(line)))
  }

  lemma {:induction false} IndentOfPadded(indent: nat, piece: string)
    requires piece != "" && piece[0] != ' '
    ensures Indent(Pad(indent) + piece) == indent
    ensures (Pad(indent) + piece)[indent..] == piece
  {
    var line := Pad(indent) + piece;
    if indent == 0 {
      assert line == piece;
    } else {
      assert line[1..] == Pad(indent - 1) + piece;
      IndentOfPadded(indent - 1, piece);
    }
  }

  predicate LaidOut(pieces: seq<string>, indent: nat) {
    forall i :: 0 <= i < |pieces| ==> pieces[i] != "" && Indent(pieces[i]) == indent && WellLaid(pieces[i])
  }

  lemma PieceLaidOut(indent: nat, piece: string, more: seq<string>)
    requires Tight(piece) && |piece| <= Room(indent) && LaidOut(more, indent)
    ensures LaidOut([Pad(indent) + piece] + more, indent)
  {
    IndentOfPadded(indent, piece);
  }

  // Every piece of a wrapped line keeps the indent of the line and fits.
  lemma {:induction false} WrapLaysOut(indent: nat, body: string)
    requires Tight(body)
    ensures LaidOut(Wrap(indent, body), indent)
    decreases |body|
  {
    if |body| <= Room(indent) {
      PieceLaidOut(indent, body, []);
      assert [Pad(indent) + body] + [] == [Pad(indent) + body];
    } else {
      var piece, rest := WrapSplits(indent, body);
      WrapLaysOut(indent, rest);
      PieceLaidOut(indent, piece, Wrap(indent, rest));
    }
  }

  // A split falls on the last space of the second half of the room, and only
  // when there is none is a word cut.
  lemma SplitPoint(body: string, room: nat)
    requires 0 < room <= |body|
    ensures var cut := CutAt(body, room);
            if exists i :: room / 2 < i < room && body[i] == ' '
            then room / 2 < cut < room && body[cut] == ' ' && forall i :: cut < i < room ==> body[i] != ' '
            else cut == room
  {
  }

  lemma {:induction false} RStripTight(s: string)
    requires s != "" && !IsSpace(s[|s| - 1])
    ensures RStrip(s) == s
  {
  }

  lemma {:induction false} LStripIndent(line: string)
    requires Indent(line) < |line| && !IsSpace(line[Indent(line)])
    ensures LStrip(line) == line[Indent(line)..]
  {
    if line[0] == ' ' {
      LStripIndent(line[1..]);
    }
  }

  lemma StripOfLaid(line: string)
    requires WellLaid(line) && line != ""
    ensures RStrip(line) == line && Strip(line) == line[Indent(line)..]
  {
    var body := line[Indent(line)..];
    assert line[|line| - 1] == body[|body| - 1] && line[Indent(line)] == body[0];
    RStripTight(line);
    LStripIndent(line);
    RStripTight(body);
  }

  lemma PadAgain(line: string)
    ensures Pad(Indent(line)) + line[Indent(line)..] == line
  {
  }

  // Laying out a line that is already laid out gives that line.
  lemma LaidOnce(line: string)
    requires WellLaid(line) && line != ""
    ensures RStrip(line) == line && Tight(Strip(line))
    ensures Wrap(Indent(line), Strip(line)) == [line]
  {
    StripOfLaid(line);
    PadAgain(line);
  }

  // ---- all lines

  // No leading or doubled blank lines.
  predicate Neat(lines: seq<string>) {
    && (forall i :: 0 <= i < |lines| ==> WellLaid(lines[i]))
    && (lines != [] ==> lines[0] != "")
    && (forall i :: 0 < i < |lines| && lines[i] == "" ==> lines[i - 1] != "")
  }

  lemma NeatWithLines(lines: seq<string>, indent: nat, pieces: seq<string>)
    requires Neat(lines) && LaidOut(pieces, indent)
    ensures Neat(lines + pieces)
  {
  }

  lemma NeatWithBlank(lines: seq<string>)
    requires Neat(lines) && lines != [] && lines[|lines| - 1] != ""
    ensures Neat(lines + [""])
  {
  }

  lemma NeatStep(lines: seq<string>, raw: string)
    requires Neat(lines)
    ensures Neat(LineStep(lines, raw))
  {
    var line := RStrip(raw);
    StripFacts(line);
    if Strip(line) == "" {
      if lines != [] && lines[|lines| - 1] != "" {
        NeatWithBlank(lines);
      }
    } else {
      WrapLaysOut(Indent(line), Strip(line));
      NeatWithLines(lines, Indent(line), Wrap(Indent(line), Strip(line)));
    }
  }

  lemma {:induction false} LayoutIsNeat(raws: seq<string>)
    ensures Neat(Layout(raws))
  {
    if raws == [] {
    } else {
      LayoutIsNeat(raws[..|raws| - 1]);
      NeatStep(Layout(raws[..|raws| - 1]), raws[|raws| - 1]);
    }
  }

  lemma {:induction false} TrimEndIsNeat(lines: seq<string>)
    requires Neat(lines)
    ensures Neat(TrimEnd(lines))
    ensures TrimEnd(lines) != [] ==> TrimEnd(lines)[|TrimEnd(lines)| - 1] != ""
  {
    if lines != [] && lines[|lines| - 1] == "" {
      TrimEndIsNeat(lines[..|lines| - 1]);
    }
  }

  // Neat lines are laid out as they are.
  lemma {:induction false} LayoutOfNeat(lines: seq<string>)
    requires Neat(lines)
    ensures Layout(lines) == lines && Splits(lines) == 0
  {
    if lines == [] {
    } else {
      var before, line := lines[..|lines| - 1], lines[|lines| - 1];
      LayoutOfNeat(before);
      StepOfNeat(lines);
      assert before + [line] == lines;
    }
  }

  lemma StepOfNeat(lines: seq<string>)
    requires Neat(lines) && lines != []
    ensures var before, line := lines[..|lines| - 1], lines[|lines| - 1];
            LineStep(before, line) == before + [line] &&
            (Strip(RStrip(line)) == "" || (Tight(Strip(RStrip(line)))
              && |Wrap(Indent(RStrip(line)), Strip(RStrip(line)))| == 1))
  {
    var before, line := lines[..|lines| - 1], lines[|lines| - 1];
    if line != "" {
      LaidOnce(line);
    } else {
      assert before[|before| - 1] == lines[|lines| - 2];
    }
  }

  // ---- the characters of the lines

  predicate Clear(line: string) {
    Plain(line) && NoNewline(line)
  }

  predicate AllClear(lines: seq<string>) {
    forall i :: 0 <= i < |lines| ==> Clear(lines[i])
  }

  lemma SliceIsClear(s: string, from: nat, to: nat)
    requires Clear(s) && from <= to <= |s|
    ensures Clear(s[from..to])
  {
  }

  lemma EndsAreClear(s: string)
    requires Clear(s)
    ensures Clear(RStrip(s)) && Clear(LStrip(s))
  {
    RStripFacts(s);
    LStripFacts(s);
    SliceIsClear(s, 0, |RStrip(s)|);
    SliceIsClear(s, |s| - |LStrip(s)|, |s|);
    assert s[|s| - |LStrip(s)|..|s|] == LStrip(s) && s[0..|RStrip(s)|] == RStrip(s);
  }

  lemma StripIsClear(s: string)
    requires Clear(s)
    ensures Clear(RStrip(s)) && Clear(LStrip(s)) && Clear(Strip(s))
  {
    EndsAreClear(s);
    EndsAreClear(LStrip(s));
  }

  lemma PaddedIsClear(indent: nat, piece: string)
    requires Clear(piece)
    ensures Clear(Pad(indent) + piece)
  {
  }

  lemma CutIsClear(body: string, cut: nat)
    requires Clear(body) && cut <= |body|
    ensures Clear(RStrip(body[..cut])) && Clear(LStrip(body[cut..]))
  {
    StripIsClear(body[..cut]);
    StripIsClear(body[cut..]);
  }

  lemma {:induction false} WrapIsClear(indent: nat, body: string)
    requires Tight(body) && Clear(body)
    ensures AllClear(Wrap(indent, body))
    decreases |body|
  {
    if |body| <= Room(indent) {
      PaddedIsClear(indent, body);
    } else {
      var cut := CutAt(body, Room(indent));
      CutPieces(body, cut);
      CutIsClear(body, cut);
      PaddedIsClear(indent, RStrip(body[..cut]));
      WrapIsClear(indent, LStrip(body[cut..]));
    }
  }

  lemma {:induction false} LayoutIsClear(raws: seq<string>)
    requires AllClear(raws)
    ensures AllClear(Layout(raws))
  {
    if raws == [] {
    } else {
      LayoutIsClear(raws[..|raws| - 1]);
      var line := RStrip(raws[|raws| - 1]);
      StripIsClear(raws[|raws| - 1]);
      StripIsClear(line);
      StripFacts(line);
      if Strip(line) != "" {
        WrapIsClear(Indent(line), Strip(line));
      }
    }
  }

  lemma {:induction false} TrimEndPrefix(lines: seq<string>)
    ensures TrimEnd(lines) <= lines
  {
    if lines != [] && lines[|lines| - 1] == "" {
      TrimEndPrefix(lines[..|lines| - 1]);
    }
  }

  lemma {:induction false} SplitIsClear(s: string)
    requires Plain(s)
    ensures AllClear(Split(s))
  {
    if s == "" {
    } else {
      SplitIsClear(s[1..]);
    }
  }

  lemma {:induction false} JoinIsPlain(lines: seq<string>)
    requires AllClear(lines)
    ensures Plain(Join(lines))
  {
    if |lines| > 1 {
      JoinIsPlain(lines[1..]);
    }
  }

  // ---- the main results

  lemma OutputLines(text: string)
    ensures Neat(Lines(text)) && AllClear(Lines(text))
    ensures Lines(text) != [] ==> Lines(text)[|Lines(text)| - 1] != ""
  {
    var raws := Split(Clean(text));
    LayoutIsNeat(raws);
    TrimEndIsNeat(Layout(raws));
    CleanIsPlain(text);
    SplitIsClear(Clean(text));
    LayoutIsClear(raws);
    TrimEndPrefix(Layout(raws));
  }

  // Each line of the output is at most 500 characters long, or 40 more than
  // its indent when the indent leaves less room than that.
  lemma OutputWidth(text: string)
    ensures forall i :: 0 <= i < |Lines(text)| ==>
              var line := Lines(text)[i];
              |line| <= Max(500, Indent(line) + 40)
  {
    OutputLines(text);
  }

  // Normalising twice is normalising once: same text, same lines with the same
  // indents, and no further splits.
  lemma OutputIdempotent(text: string)
    ensures Output(Output(text)) == Output(text)
    ensures Lines(Output(text)) == Lines(text)
    ensures Splits(Split(Clean(Output(text)))) == 0
  {
    var lines := Lines(text);
    OutputLines(text);
    JoinIsPlain(lines);
    CleanPlain(Output(text));
    if lines == [] {
      assert Split("") == [""];
      assert Layout([""]) == [] by { assert [""][..0] == []; assert RStrip("") == "" && Strip("") == ""; }
      assert Splits([""]) == 0 by { assert [""][..0] == []; assert RStrip("") == "" && Strip("") == ""; }
    } else {
      SplitJoin(lines);
      LayoutOfNeat(lines);
    }
  }

  // An indent keeps every body within 500 characters exactly up to 460.
  ghost predicate AlwaysWithinLimit(indent: nat) {
    forall body: string :: Tight(body) ==>
      forall i :: 0 <= i < |Wrap(indent, body)| ==> |Wrap(indent, body)[i]| <= 500
  }

  lemma IndentLimit(indent: nat)
    ensures AlwaysWithinLimit(indent) <==> indent <= 460
  {
    if indent <= MAX_LINE_CHARS - MIN_ROOM {
      forall body: string | Tight(body)
        ensures forall i :: 0 <= i < |Wrap(indent, body)| ==> |Wrap(indent, body)[i]| <= MAX_LINE_CHARS
      {
        WrapLaysOut(indent, body);
      }
    } else {
      var body := seq(MIN_ROOM, _ => 'x');
      assert Tight(body);
      assert Wrap(indent, body) == [Pad(indent) + body];
      assert |Wrap(indent, body)[0]| == indent + MIN_ROOM;
    }
  }

  predicate AllShort(lines: seq<string>) {
    forall i :: 0 <= i < |lines| ==> |lines[i]| <= 500
  }

  // A line is split only if it is too long for its room.
  lemma SplitExactly(indent: nat, body: string)
    requires Tight(body)
    ensures |Wrap(indent, body)| == 1 <==> indent + |body| <= 500 || |body| <= 40
  {
    if |body| > Room(indent) {
      var piece, rest := WrapSplits(indent, body);
    }
  }

  // Cut at the last space of the second half of each 40 characters, or after
  // them, the text leaves no part longer than the limit.
  predicate CutsShort(body: string, limit: nat)
    requires Tight(body)
    decreases |body|
  {
    if |body| <= MIN_ROOM then |body| <= limit
    else
      var cut := CutAt(body, MIN_ROOM);
      CutPieces(body, cut);
      |RStrip(body[..cut])| <= limit && CutsShort(LStrip(body[cut..]), limit)
  }

  // A cleaned line fits if it is blank, or indented by at most 460; with a
  // larger indent, if its text is cut into parts that fit beside the indent.
  predicate FitsOnceLaid(raw: string) {
    var line := RStrip(raw);
    StripFacts(line);
    Strip(line) == "" || Indent(line) <= 460 ||
    (Indent(line) < 500 && CutsShort(Strip(line), 500 - Indent(line)))
  }

  lemma {:induction false} WrapCutsShort(indent: nat, body: string)
    requires Tight(body) && MAX_LINE_CHARS - MIN_ROOM < indent < MAX_LINE_CHARS
    ensures AllShort(Wrap(indent, body)) <==> CutsShort(body, MAX_LINE_CHARS - indent)
    decreases |body|
  {
    if |body| <= MIN_ROOM {
      assert Wrap(indent, body) == [Pad(indent) + body];
      assert |Wrap(indent, body)[0]| == indent + |body|;
    } else {
      var cut := CutAt(body, MIN_ROOM);
      CutPieces(body, cut);
      WrapCutsShort(indent, LStrip(body[cut..]));
      FirstShort(Pad(indent) + RStrip(body[..cut]), Wrap(indent, LStrip(body[cut..])));
    }
  }

  lemma FirstShort(piece: string, more: seq<string>)
    ensures AllShort([piece] + more) <==> |piece| <= MAX_LINE_CHARS && AllShort(more)
  {
    ShortConcat([piece], more);
    assert AllShort([piece]) <==> |[piece][0]| <= MAX_LINE_CHARS;
  }

  lemma WrapFits(indent: nat, body: string)
    requires Tight(body)
    ensures indent <= MAX_LINE_CHARS - MIN_ROOM ==> AllShort(Wrap(indent, body))
    ensures AllShort(Wrap(indent, body)) ==> indent < MAX_LINE_CHARS
  {
    WrapLaysOut(indent, body);
    assert Wrap(indent, body)[0] != "" && Indent(Wrap(indent, body)[0]) == indent;
  }

  lemma ShortConcat(a: seq<string>, b: seq<string>)
    ensures AllShort(a + b) <==> AllShort(a) && AllShort(b)
  {
    assert AllShort(a + b) ==> forall i :: 0 <= i < |b| ==> (a + b)[|a| + i] == b[i];
    assert AllShort(a + b) ==> forall i :: 0 <= i < |a| ==> (a + b)[i] == a[i];
  }

  predicate AllFit(raws: seq<string>) {
    forall i :: 0 <= i < |raws| ==> FitsOnceLaid(raws[i])
  }

  lemma AllFitAppend(before: seq<string>, raw: string)
    ensures AllFit(before + [raw]) <==> AllFit(before) && FitsOnceLaid(raw)
  {
    var raws := before + [raw];
    assert raws[|before|] == raw && forall i :: 0 <= i < |before| ==> raws[i] == before[i];
  }

  lemma {:induction false} LayoutFits(raws: seq<string>)
    ensures AllShort(Layout(raws)) <==> AllFit(raws)
  {
    if raws == [] {
    } else {
      var before, raw := raws[..|raws| - 1], raws[|raws| - 1];
      LayoutFits(before);
      StepFits(Layout(before), raw);
      assert raws == before + [raw];
      AllFitAppend(before, raw);
    }
  }

  lemma StepFits(lines: seq<string>, raw: string)
    ensures AllShort(LineStep(lines, raw)) <==> AllShort(lines) && FitsOnceLaid(raw)
  {
    var line := RStrip(raw);
    StripFacts(line);
    if Strip(line) == "" {
      ShortConcat(lines, [""]);
    } else {
      ShortConcat(lines, Wrap(Indent(line), Strip(line)));
      WrapFits(Indent(line), Strip(line));
      if MAX_LINE_CHARS - MIN_ROOM < Indent(line) < MAX_LINE_CHARS {
        WrapCutsShort(Indent(line), Strip(line));
      }
    }
  }

  lemma {:induction false} TrimEndFits(lines: seq<string>)
    ensures AllShort(TrimEnd(lines)) <==> AllShort(lines)
  {
    if lines != [] && lines[|lines| - 1] == "" {
      TrimEndFits(lines[..|lines| - 1]);
      ShortConcat(lines[..|lines| - 1], [""]);
      assert lines == lines[..|lines| - 1] + [""];
    }
  }

  // Text by text: no output line is longer than 500 characters if and only if
  // every cleaned line fits.
  lemma TextFitsExactly(text: string)
    ensures AllShort(Lines(text)) <==> AllFit(Split(Clean(text)))
  {
    LayoutFits(Split(Clean(text)));
    TrimEndFits(Layout(Split(Clean(text))));
  }

  // ---- paragraphs

  // The content of each run of lines between blank lines.
  function Paragraphs(lines: seq<string>): seq<string> {
    if lines == [] then []
    else Extend(Paragraphs(lines[..|lines| - 1]), Paused(lines[..|lines| - 1]), lines[|lines| - 1])
  }

  // The next line begins a paragraph.
  predicate Paused(lines: seq<string>) {
    lines == [] || Blank(lines[|lines| - 1])
  }

  function Extend(paragraphs: seq<string>, paused: bool, line: string): seq<string> {
    if Blank(line) then paragraphs
    else if paused || paragraphs == [] then paragraphs + [Solid(line)]
    else paragraphs[..|paragraphs| - 1] + [paragraphs[|paragraphs| - 1] + Solid(line)]
  }

  lemma ParagraphsAppend(lines: seq<string>, line: string)
    ensures Paragraphs(lines + [line]) == Extend(Paragraphs(lines), Paused(lines), line)
    ensures Paused(lines + [line]) <==> Blank(line)
  {
    assert (lines + [line])[..|lines|] == lines;
  }

  lemma PaddedContent(indent: nat, piece: string)
    requires Tight(piece)
    ensures !Blank(piece) && !Blank(Pad(indent) + piece) && Solid(Pad(indent) + piece) == Solid(piece)
  {
    PadBlank(indent, piece);
    SolidBlank(piece);
    SolidBlank(Pad(indent) + piece);
  }

  // Two lines of one paragraph extend it like one line with the content of both.
  lemma ExtendTwice(paragraphs: seq<string>, paused: bool, a: string, b: string, ab: string)
    requires !Blank(a) && !Blank(b) && !Blank(ab) && Solid(a) + Solid(b) == Solid(ab)
    ensures Extend(Extend(paragraphs, paused, a), false, b) == Extend(paragraphs, paused, ab)
  {
    if !(paused || paragraphs == []) {
      var last := paragraphs[|paragraphs| - 1];
      assert last + Solid(a) + Solid(b) == last + Solid(ab);
    }
  }

  lemma MoveFirst(lines: seq<string>, line: string, more: seq<string>)
    ensures lines + ([line] + more) == (lines + [line]) + more
  {
  }

  // The lines added put the text into one paragraph, which is still open.
  predicate Continues(lines: seq<string>, all: seq<string>, body: string) {
    Paragraphs(all) == Extend(Paragraphs(lines), Paused(lines), body) && !Paused(all)
  }

  // The pieces of one line belong to one paragraph.
  lemma {:induction false} WrapStaysTogether(lines: seq<string>, indent: nat, body: string)
    requires Tight(body)
    ensures Continues(lines, lines + Wrap(indent, body), body)
    decreases |body|
  {
    if |body| <= Room(indent) {
      PaddedContent(indent, body);
      ParagraphsAppend(lines, Pad(indent) + body);
    } else {
      var piece, rest := WrapSplits(indent, body);
      WrapSplitStaysTogether(lines, indent, piece, rest, body);
      WrapStaysTogether(lines + [Pad(indent) + piece], indent, rest);
      MoveFirst(lines, Pad(indent) + piece, Wrap(indent, rest));
    }
  }

  lemma WrapSplitStaysTogether(lines: seq<string>, indent: nat, piece: string, rest: string, body: string)
    requires Tight(piece) && Tight(rest) && Tight(body) && Solid(piece) + Solid(rest) == Solid(body)
    ensures var lines' := lines + [Pad(indent) + piece];
            && !Paused(lines')
            && Extend(Paragraphs(lines'), false, rest) == Extend(Paragraphs(lines), Paused(lines), body)
  {
    PaddedContent(indent, piece);
    PaddedContent(indent, rest);
    PaddedContent(indent, body);
    ParagraphsAppend(lines, Pad(indent) + piece);
    ExtendTwice(Paragraphs(lines), Paused(lines), Pad(indent) + piece, rest, body);
  }

  predicate SameParagraphs(lines: seq<string>, raws: seq<string>) {
    && Paragraphs(lines) == Paragraphs(raws)
    && (Paused(lines) <==> Paused(raws) || lines == [])
    && (lines == [] ==> Paragraphs(raws) == [])
  }

  lemma {:induction false} LayoutKeepsParagraphs(raws: seq<string>)
    ensures SameParagraphs(Layout(raws), raws)
  {
    if raws == [] {
    } else {
      var before, raw := raws[..|raws| - 1], raws[|raws| - 1];
      LayoutKeepsParagraphs(before);
      var line := RStrip(raw);
      RStripFacts(raw);
      StripFacts(line);
      SolidBlank(raw);
      SolidBlank(line);
      if Strip(line) == "" {
        ParagraphsAppend(Layout(before), "");
        LayoutIsNeat(before);
      } else {
        SolidBlank(Strip(line));
        WrapStaysTogether(Layout(before), Indent(line), Strip(line));
      }
    }
  }

  lemma {:induction false} TrimEndKeepsParagraphs(lines: seq<string>)
    ensures Paragraphs(TrimEnd(lines)) == Paragraphs(lines)
  {
    if lines != [] && lines[|lines| - 1] == "" {
      TrimEndKeepsParagraphs(lines[..|lines| - 1]);
    }
  }

  lemma CleanedParagraphs(text: string)
    ensures Paragraphs(Lines(text)) == Paragraphs(Split(Clean(text)))
  {
    LayoutKeepsParagraphs(Split(Clean(text)));
    TrimEndKeepsParagraphs(Layout(Split(Clean(text))));
  }

  // Blank lines still separate the same paragraphs, and no others, whichever
  // line endings the text has.
  lemma OutputKeepsParagraphs(lines: seq<string>, ends: seq<string>)
    requires EndedLines(lines, ends)
    ensures Paragraphs(Lines(Ended(lines, ends))) == Paragraphs(Each(Read(Each(lines, IsBom), ends), IsControl))
    ensures !Fused(Each(lines, IsBom), ends) ==> Paragraphs(Lines(Ended(lines, ends))) == Paragraphs(Bare(lines))
  {
    CleanedParagraphs(Ended(lines, ends));
    CleanedLines(lines, ends);
    ReadExactly(Each(lines, IsBom), ends);
  }

  // So for every text: without its byte-order marks it is lines with line
  // endings, none fused, and its output has the paragraphs of these lines, and
  // fits if and only if they do, without their control characters.
  lemma EveryTextByLines(text: string) returns (lines: seq<string>, ends: seq<string>)
    ensures EndedLines(lines, ends) && Ended(lines, ends) == Drop(text, IsBom) && !Fused(lines, ends)
    ensures Split(Clean(text)) == Each(lines, IsControl)
    ensures Paragraphs(Lines(text)) == Paragraphs(Each(lines, IsControl))
    ensures AllShort(Lines(text)) <==> AllFit(Each(lines, IsControl))
  {
    var unmarked := Drop(text, IsBom);
    lines, ends := EveryText(unmarked);
    DropFree(text, IsBom, c => false);
    DropNothing(unmarked, IsBom);
    LinesWithoutMarks(lines, ends);
    CleanedLines(lines, ends);
    ReadExactly(lines, ends);
    CleanedParagraphs(text);
    TextFitsExactly(text);
  }

  // A text without byte-order marks has lines without them.
  lemma {:induction false} LinesWithoutMarks(lines: seq<string>, ends: seq<string>)
    requires EndedLines(lines, ends) && Drop(Ended(lines, ends), IsBom) == Ended(lines, ends)
    ensures Each(lines, IsBom) == lines
  {
    EachFirst(lines, IsBom);
    DropLength(lines[0], IsBom);
    if ends != [] {
      var rest := Ended(lines[1..], ends[1..]);
      EndingsPlain(ends[0]);
      DropConcat(lines[0], ends[0] + rest, IsBom);
      DropConcat(ends[0], rest, IsBom);
      DropLength(rest, IsBom);
      assert |Drop(lines[0], IsBom)| + |ends[0]| + |Drop(rest, IsBom)| == |lines[0]| + |ends[0]| + |rest|;
      LinesWithoutMarks(lines[1..], ends[1..]);
      assert Each(lines, IsBom) == [lines[0]] + lines[1..];
    }
  }

  lemma {:induction false} DropLength(s: string, p: char -> bool)
    ensures |Drop(s, p)| <= |s| && (|Drop(s, p)| == |s| ==> Drop(s, p) == s)
  {
    if s != "" {
      DropLength(s[1..], p);
    }
  }

  // ---- how many lines were split

  // The lines that are not blank.
  function Written(lines: seq<string>): nat {
    if lines == [] then 0
    else Written(lines[..|lines| - 1]) + if Blank(lines[|lines| - 1]) then 0 else 1
  }

  lemma WrittenAppend(lines: seq<string>, line: string)
    ensures Written(lines + [line]) == Written(lines) + if Blank(line) then 0 else 1
  {
    assert (lines + [line])[..|lines|] == lines;
  }

  lemma {:induction false} WrapWrites(lines: seq<string>, indent: nat, body: string)
    requires Tight(body)
    ensures Written(lines + Wrap(indent, body)) == Written(lines) + |Wrap(indent, body)|
    decreases |body|
  {
    if |body| <= Room(indent) {
      PaddedContent(indent, body);
      WrittenAppend(lines, Pad(indent) + body);
    } else {
      var piece, rest := WrapSplits(indent, body);
      PaddedContent(indent, piece);
      WrittenAppend(lines, Pad(indent) + piece);
      WrapWrites(lines + [Pad(indent) + piece], indent, rest);
      MoveFirst(lines, Pad(indent) + piece, Wrap(indent, rest));
    }
  }

  lemma {:induction false} LayoutWrites(raws: seq<string>)
    ensures Written(Layout(raws)) == Written(raws) + Splits(raws)
  {
    if raws != [] {
      var before, raw := raws[..|raws| - 1], raws[|raws| - 1];
      LayoutWrites(before);
      var line := RStrip(raw);
      RStripFacts(raw);
      StripFacts(line);
      SolidBlank(raw);
      SolidBlank(line);
      if Strip(line) == "" {
        WrittenAppend(Layout(before), "");
      } else {
        WrapWrites(Layout(before), Indent(line), Strip(line));
      }
    }
  }

  lemma {:induction false} TrimEndWrites(lines: seq<string>)
    ensures Written(TrimEnd(lines)) == Written(lines)
  {
    if lines != [] && lines[|lines| - 1] == "" {
      TrimEndWrites(lines[..|lines| - 1]);
    }
  }

  // The number in the warning: by so many the lines with content have grown.
  lemma SplitsCount(text: string)
    ensures Written(Lines(text)) == Written(Split(Clean(text))) + Splits(Split(Clean(text)))
  {
    LayoutWrites(Split(Clean(text)));
    TrimEndWrites(Layout(Split(Clean(text))));
  }
}
