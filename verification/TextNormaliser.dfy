// `finish` of services/api-gateway/app/dmind_inputs.py: cleans extracted text,
// wraps over-long lines without truncating, and enforces the size limit.

module TextNormaliser {
  import opened PyText

  const MAX_TEXT_CHARS := 100_000
  const MAX_LINE_CHARS := 500
  const MIN_ROOM := 40

  datatype Warning = Note(text: string) | LinesSplit(count: nat)
  datatype Extraction = Extraction(text: string, extractor: string, warnings: seq<Warning>)
  datatype Result = NoText | TooLong(length: nat) | Done(extraction: Extraction)

  // ---- cleaning

  predicate IsBom(c: char) {
    c == '\U{FEFF}'
  }

  predicate IsControl(c: char) {
    c <= '\U{0008}' || c == '\U{000B}' || c == '\U{000C}' || '\U{000E}' <= c <= '\U{001F}' || c == '\U{007F}'
  }

  function Drop(s: string, p: char -> bool): string {
    if s == "" then "" else if p(s[0]) then Drop(s[1..], p) else [s[0]] + Drop(s[1..], p)
  }

  // replace("\r\n", "\n")
  function ReplaceCrLf(s: string): string {
    if s == "" then ""
    else if s[0] == '\r' && |s| > 1 && s[1] == '\n' then "\n" + ReplaceCrLf(s[2..])
    else [s[0]] + ReplaceCrLf(s[1..])
  }

  // replace("\r", "\n")
  function ReplaceCr(s: string): string {
    if s == "" then "" else [if s[0] == '\r' then '\n' else s[0]] + ReplaceCr(s[1..])
  }

  function Clean(text: string): string {
    Drop(ReplaceCr(ReplaceCrLf(Drop(text, IsBom))), IsControl)
  }

  // What must survive: the text without byte-order marks and control characters.
  function Kept(text: string): string {
    Drop(Drop(text, IsBom), IsControl)
  }

  // Exactly these characters are removed.
  lemma RemovedExactly(c: char)
    ensures var n := c as int;
            Kept([c]) == if n <= 8 || n == 11 || n == 12 || 14 <= n <= 31 || n == 127 || n == 0xFEFF then "" else [c]
  {
    assert Drop([c], IsBom) == if IsBom(c) then "" else [c];
    assert Drop([c], IsControl) == if IsControl(c) then "" else [c];
  }

  predicate Plain(s: string) {
    forall i :: 0 <= i < |s| ==> !IsBom(s[i]) && !IsControl(s[i]) && s[i] != '\r'
  }

  lemma {:induction false} SolidDrop(s: string, p: char -> bool)
    ensures Solid(Drop(s, p)) == Drop(Solid(s), p)
  {
    if s == "" {
    } else {
      SolidDrop(s[1..], p);
    }
  }

  lemma {:induction false} SolidCrLf(s: string)
    ensures Solid(ReplaceCrLf(s)) == Solid(s)
  {
    if s == "" {
    } else {
      if s[0] == '\r' && |s| > 1 && s[1] == '\n' {
        SolidCrLf(s[2..]);
        assert s[1..][1..] == s[2..];
        assert ReplaceCrLf(s)[1..] == ReplaceCrLf(s[2..]);
      } else {
        SolidCrLf(s[1..]);
        assert ReplaceCrLf(s)[1..] == ReplaceCrLf(s[1..]);
      }
    }
  }

  lemma {:induction false} SolidCr(s: string)
    ensures Solid(ReplaceCr(s)) == Solid(s)
  {
    if s == "" {
    } else {
      SolidCr(s[1..]);
      assert ReplaceCr(s)[1..] == ReplaceCr(s[1..]);
    }
  }

  lemma CleanKeepsContent(text: string)
    ensures Solid(Clean(text)) == Solid(Kept(text))
  {
    var t := Drop(text, IsBom);
    SolidDrop(ReplaceCr(ReplaceCrLf(t)), IsControl);
    SolidCr(ReplaceCrLf(t));
    SolidCrLf(t);
    SolidDrop(t, IsControl);
  }

  lemma {:induction false} DropFree(s: string, p: char -> bool, q: char -> bool)
    requires forall i :: 0 <= i < |s| ==> !q(s[i])
    ensures forall i :: 0 <= i < |Drop(s, p)| ==> !p(Drop(s, p)[i]) && !q(Drop(s, p)[i])
  {
    if s == "" {
    } else {
      DropFree(s[1..], p, q);
    }
  }

  lemma {:induction false} CrLfFree(s: string)
    requires forall i :: 0 <= i < |s| ==> !IsBom(s[i])
    ensures forall i :: 0 <= i < |ReplaceCrLf(s)| ==> !IsBom(ReplaceCrLf(s)[i])
  {
    if s == "" {
    } else {
      if s[0] == '\r' && |s| > 1 && s[1] == '\n' {
        CrLfFree(s[2..]);
      } else {
        CrLfFree(s[1..]);
      }
    }
  }

  lemma {:induction false} CrFree(s: string)
    requires forall i :: 0 <= i < |s| ==> !IsBom(s[i])
    ensures forall i :: 0 <= i < |ReplaceCr(s)| ==> !IsBom(ReplaceCr(s)[i]) && ReplaceCr(s)[i] != '\r'
  {
    if s == "" {
    } else {
      CrFree(s[1..]);
    }
  }

  lemma CleanIsPlain(text: string)
    ensures Plain(Clean(text))
  {
    var t := Drop(text, IsBom);
    DropFree(text, IsBom, c => false);
    CrLfFree(t);
    CrFree(ReplaceCrLf(t));
    DropFree(ReplaceCr(ReplaceCrLf(t)), IsControl, c => IsBom(c) || c == '\r');
  }

  lemma {:induction false} DropNothing(s: string, p: char -> bool)
    requires forall i :: 0 <= i < |s| ==> !p(s[i])
    ensures Drop(s, p) == s
  {
    if s == "" {
    } else {
      DropNothing(s[1..], p);
    }
  }

  lemma {:induction false} ReplaceNothing(s: string)
    requires forall i :: 0 <= i < |s| ==> s[i] != '\r'
    ensures ReplaceCrLf(s) == s && ReplaceCr(s) == s
  {
    if s == "" {
    } else {
      ReplaceNothing(s[1..]);
    }
  }

  lemma CleanPlain(s: string)
    requires Plain(s)
    ensures Clean(s) == s
  {
    DropNothing(s, IsBom);
    ReplaceNothing(s);
    DropNothing(s, IsControl);
  }

  // ---- line endings

  const ENDINGS: set<string> := {"\n", "\r", "\r\n"}

  // The text of these lines, with a line ending after each but the last.
  function Ended(lines: seq<string>, ends: seq<string>): string
    requires |lines| == |ends| + 1
  {
    if ends == [] then lines[0] else lines[0] + (ends[0] + Ended(lines[1..], ends[1..]))
  }

  predicate OneLine(s: string) {
    forall i :: 0 <= i < |s| ==> s[i] != '\r' && s[i] != '\n'
  }

  predicate EndedLines(lines: seq<string>, ends: seq<string>) {
    && |lines| == |ends| + 1
    && (forall i :: 0 <= i < |lines| ==> OneLine(lines[i]))
    && (forall i :: 0 <= i < |ends| ==> ends[i] in ENDINGS)
  }

  // A "\r", an empty line and a "\n" read as one "\r\n".
  predicate FusedAt(lines: seq<string>, ends: seq<string>, i: nat)
    requires |lines| == |ends| + 1
  {
    i + 1 < |ends| && ends[i] == "\r" && lines[i + 1] == "" && ends[i + 1] == "\n"
  }

  predicate Fused(lines: seq<string>, ends: seq<string>)
    requires |lines| == |ends| + 1
  {
    exists i :: 0 <= i < |ends| && FusedAt(lines, ends, i)
  }

  // The lines that are read where some are fused.
  function Read(lines: seq<string>, ends: seq<string>): seq<string>
    requires |lines| == |ends| + 1
  {
    if ends == [] then lines
    else if FusedAt(lines, ends, 0) then [lines[0]] + Read(lines[2..], ends[2..])
    else [lines[0]] + Read(lines[1..], ends[1..])
  }

  function Newlines(s: string): string {
    ReplaceCr(ReplaceCrLf(s))
  }

  lemma {:induction false} NewlinesLine(line: string, rest: string)
    requires OneLine(line)
    ensures Newlines(line + rest) == line + Newlines(rest)
  {
    if line == "" {
      assert line + rest == rest;
    } else {
      var s := line + rest;
      assert s[0] == line[0] && s[1..] == line[1..] + rest;
      NewlinesLine(line[1..], rest);
      assert ReplaceCrLf(s) == [s[0]] + ReplaceCrLf(s[1..]);
      assert ReplaceCrLf(s)[1..] == ReplaceCrLf(s[1..]);
      assert line == [line[0]] + line[1..];
    }
  }

  // What follows a line ending; a "\r" takes a "\n" after it along.
  lemma NewlinesEnd(end: string, rest: string)
    requires end in ENDINGS
    ensures end == "\r" && rest != "" && rest[0] == '\n' ==> Newlines(end + rest) == "\n" + Newlines(rest[1..])
    ensures !(end == "\r" && rest != "" && rest[0] == '\n') ==> Newlines(end + rest) == "\n" + Newlines(rest)
  {
    var s := end + rest;
    assert |end| == 1 ==> s[1..] == rest;
    assert |end| == 2 ==> s[2..] == rest;
    assert end == "\r" && rest != "" ==> s[2..] == rest[1..];
    var tail := if end == "\r" && rest != "" && rest[0] == '\n' then rest[1..] else rest;
    if end == "\n" || s == "\r" || (end == "\r" && rest[0] != '\n') {
      assert ReplaceCrLf(s) == [s[0]] + ReplaceCrLf(tail);
    } else {
      assert ReplaceCrLf(s) == "\n" + ReplaceCrLf(tail);
    }
    assert ReplaceCrLf(s)[1..] == ReplaceCrLf(tail);
  }

  lemma EndedStart(lines: seq<string>, ends: seq<string>)
    requires EndedLines(lines, ends)
    ensures Ended(lines, ends) != "" && Ended(lines, ends)[0] == '\n' <==>
            lines[0] == "" && ends != [] && ends[0] == "\n"
    ensures lines[0] == "" && ends != [] && ends[0] == "\n" ==>
              Ended(lines, ends)[1..] == Ended(lines[1..], ends[1..])
  {
    assert lines[0] != "" ==> Ended(lines, ends)[0] == lines[0][0];
    assert lines[0] == "" && ends != [] ==> Ended(lines, ends) == ends[0] + Ended(lines[1..], ends[1..]);
  }

  lemma {:induction false} NewlinesOfLines(lines: seq<string>, ends: seq<string>)
    requires EndedLines(lines, ends)
    ensures Newlines(Ended(lines, ends)) == Join(Read(lines, ends))
    decreases |ends|
  {
    if ends == [] {
      NewlinesLine(lines[0], "");
      assert lines[0] + "" == lines[0] && lines == [lines[0]];
    } else {
      var rest := Ended(lines[1..], ends[1..]);
      NewlinesLine(lines[0], ends[0] + rest);
      NewlinesEnd(ends[0], rest);
      EndedStart(lines[1..], ends[1..]);
      if FusedAt(lines, ends, 0) {
        assert lines[1..][1..] == lines[2..] && ends[1..][1..] == ends[2..];
        NewlinesOfLines(lines[2..], ends[2..]);
        JoinFirst(lines[0], Read(lines[2..], ends[2..]));
      } else {
        NewlinesOfLines(lines[1..], ends[1..]);
        JoinFirst(lines[0], Read(lines[1..], ends[1..]));
      }
    }
  }

  lemma JoinFirst(line: string, more: seq<string>)
    requires more != []
    ensures Join([line] + more) == line + ("\n" + Join(more))
  {
    assert ([line] + more)[1..] == more;
    assert line + "\n" + Join(more) == line + ("\n" + Join(more));
  }

  lemma {:induction false} ReadExactly(lines: seq<string>, ends: seq<string>)
    requires |lines| == |ends| + 1
    ensures |Read(lines, ends)| <= |lines|
    ensures Fused(lines, ends) ==> |Read(lines, ends)| < |lines|
    ensures !Fused(lines, ends) ==> Read(lines, ends) == lines
    decreases |ends|
  {
    if ends == [] {
    } else if FusedAt(lines, ends, 0) {
      ReadExactly(lines[2..], ends[2..]);
    } else {
      ReadExactly(lines[1..], ends[1..]);
      forall i | 0 <= i < |ends| - 1 ensures FusedAt(lines[1..], ends[1..], i) <==> FusedAt(lines, ends, i + 1) {
      }
      if Fused(lines, ends) {
        var i :| 0 <= i < |ends| && FusedAt(lines, ends, i);
        assert FusedAt(lines[1..], ends[1..], i - 1);
      }
    }
  }

  // ---- characters removed from every line

  function Each(lines: seq<string>, p: char -> bool): (each: seq<string>)
    ensures |each| == |lines|
  {
    seq(|lines|, i requires 0 <= i < |lines| => Drop(lines[i], p))
  }

  // The lines without byte-order marks and control characters.
  function Bare(lines: seq<string>): seq<string> {
    Each(Each(lines, IsBom), IsControl)
  }

  lemma {:induction false} DropConcat(a: string, b: string, p: char -> bool)
    ensures Drop(a + b, p) == Drop(a, p) + Drop(b, p)
  {
    if a == "" {
      assert a + b == b;
    } else {
      assert (a + b)[1..] == a[1..] + b;
      DropConcat(a[1..], b, p);
    }
  }

  lemma EachFirst(lines: seq<string>, p: char -> bool)
    requires lines != []
    ensures Each(lines, p)[0] == Drop(lines[0], p) && Each(lines, p)[1..] == Each(lines[1..], p)
  {
  }

  lemma {:induction false} DropEnded(lines: seq<string>, ends: seq<string>, p: char -> bool)
    requires |lines| == |ends| + 1
    requires forall i :: 0 <= i < |ends| ==> Drop(ends[i], p) == ends[i]
    ensures Drop(Ended(lines, ends), p) == Ended(Each(lines, p), ends)
  {
    EachFirst(lines, p);
    if ends != [] {
      DropEnded(lines[1..], ends[1..], p);
      DropConcat(lines[0], ends[0] + Ended(lines[1..], ends[1..]), p);
      DropConcat(ends[0], Ended(lines[1..], ends[1..]), p);
    }
  }

  lemma {:induction false} DropJoin(lines: seq<string>, p: char -> bool)
    requires lines != [] && !p('\n')
    ensures Drop(Join(lines), p) == Join(Each(lines, p))
  {
    EachFirst(lines, p);
    if |lines| > 1 {
      DropJoin(lines[1..], p);
      DropConcat(lines[0] + "\n", Join(lines[1..]), p);
      DropConcat(lines[0], "\n", p);
      assert Drop("\n", p) == "\n";
    }
  }

  lemma {:induction false} DropOneLine(s: string, p: char -> bool)
    requires OneLine(s)
    ensures OneLine(Drop(s, p))
  {
    if s != "" {
      DropOneLine(s[1..], p);
    }
  }

  lemma EachOneLine(lines: seq<string>, p: char -> bool)
    requires forall i :: 0 <= i < |lines| ==> OneLine(lines[i])
    ensures forall i :: 0 <= i < |lines| ==> OneLine(Each(lines, p)[i])
  {
    forall i | 0 <= i < |lines| ensures OneLine(Each(lines, p)[i]) {
      DropOneLine(lines[i], p);
    }
  }

  lemma EndingsPlain(end: string)
    requires end in ENDINGS
    ensures Drop(end, IsBom) == end
  {
    DropNothing(end, IsBom);
  }

  lemma {:induction false} ReadOneLines(lines: seq<string>, ends: seq<string>)
    requires EndedLines(lines, ends)
    ensures forall i :: 0 <= i < |Read(lines, ends)| ==> OneLine(Read(lines, ends)[i])
    decreases |ends|
  {
    if ends == [] {
    } else if FusedAt(lines, ends, 0) {
      ReadOneLines(lines[2..], ends[2..]);
    } else {
      ReadOneLines(lines[1..], ends[1..]);
    }
  }

  // The lines of a cleaned text, whatever ends them.
  lemma CleanedLines(lines: seq<string>, ends: seq<string>)
    requires EndedLines(lines, ends)
    ensures Split(Clean(Ended(lines, ends))) == Each(Read(Each(lines, IsBom), ends), IsControl)
  {
    var unmarked := Each(lines, IsBom);
    forall i | 0 <= i < |ends| ensures Drop(ends[i], IsBom) == ends[i] {
      EndingsPlain(ends[i]);
    }
    DropEnded(lines, ends, IsBom);
    EachOneLine(lines, IsBom);
    NewlinesOfLines(unmarked, ends);
    var read := Read(unmarked, ends);
    ReadOneLines(unmarked, ends);
    DropJoin(read, IsControl);
    EachOneLine(read, IsControl);
    SplitJoin(Each(read, IsControl));
  }

  // They are the lines of the text, without marks and control characters, if
  // and only if no "\r" is followed by a line without content and a "\n".
  lemma LinesExactly(lines: seq<string>, ends: seq<string>)
    requires EndedLines(lines, ends)
    ensures Split(Clean(Ended(lines, ends))) == Bare(lines) <==> !Fused(Each(lines, IsBom), ends)
  {
    CleanedLines(lines, ends);
    ReadExactly(Each(lines, IsBom), ends);
  }

  // Every text without byte-order marks is such lines, with none of them fused.
  lemma {:induction false} EveryText(text: string) returns (lines: seq<string>, ends: seq<string>)
    ensures EndedLines(lines, ends) && Ended(lines, ends) == text && !Fused(lines, ends)
    ensures ends != [] && lines[0] == "" && ends[0] == "\n" ==> text[0] == '\n'
    decreases |text|
  {
    if text == "" {
      lines, ends := [""], [];
    } else if text[0] == '\r' || text[0] == '\n' {
      var end := if text[0] == '\r' && |text| > 1 && text[1] == '\n' then "\r\n" else [text[0]];
      var more, ends' := EveryText(text[|end|..]);
      lines, ends := [""] + more, [end] + ends';
      assert lines[1..] == more && ends[1..] == ends';
      assert text == end + text[|end|..];
      EndedStart(more, ends');
      NotFusedBefore("", end, more, ends');
    } else {
      var more, ends' := EveryText(text[1..]);
      lines, ends := [[text[0]] + more[0]] + more[1..], ends';
      assert lines[1..] == more[1..];
      assert text == [text[0]] + text[1..];
      SameEnds(more, lines, ends);
    }
  }

  lemma NotFusedBefore(line: string, end: string, more: seq<string>, ends: seq<string>)
    requires |more| == |ends| + 1 && !Fused(more, ends)
    requires !(end == "\r" && more[0] == "" && ends != [] && ends[0] == "\n")
    ensures !Fused([line] + more, [end] + ends)
  {
    forall i | 0 <= i < |ends| + 1 ensures !FusedAt([line] + more, [end] + ends, i) {
      assert i > 0 ==> !FusedAt(more, ends, i - 1);
    }
  }

  lemma SameEnds(more: seq<string>, lines: seq<string>, ends: seq<string>)
    requires |more| == |lines| == |ends| + 1 && lines[1..] == more[1..] && !Fused(more, ends)
    ensures !Fused(lines, ends)
  {
    forall i | 0 <= i < |ends| ensures !FusedAt(lines, ends, i) {
      assert !FusedAt(more, ends, i);
      assert lines[i + 1] == lines[1..][i] && more[i + 1] == more[1..][i];
    }
  }

  // ---- wrapping one line

  function Pad(indent: nat): (s: string)
    ensures |s| == indent && forall i :: 0 <= i < indent ==> s[i] == ' '
  {
    seq(indent, _ => ' ')
  }

  function Room(indent: nat): (room: nat)
    ensures room >= MIN_ROOM && room + indent <= Max(MAX_LINE_CHARS, indent + MIN_ROOM)
  {
    Max(MIN_ROOM, MAX_LINE_CHARS - indent)
  }

  function Max(a: int, b: int): int {
    if a >= b then a else b
  }

  // body.rfind(" ", 0, room)
  function LastSpace(body: string, room: nat): (at: int)
    requires room <= |body|
    ensures -1 <= at < room
    ensures at >= 0 ==> body[at] == ' '
    ensures forall i :: at < i < room ==> body[i] != ' '
  {
    if room == 0 then -1
    else if body[room - 1] == ' ' then room - 1
    else LastSpace(body, room - 1)
  }

  // Where to split: at the last space, if it lies in the second half.
  function CutAt(body: string, room: nat): (cut: nat)
    requires 0 < room <= |body|
    ensures 0 < cut <= room
  {
    var at := LastSpace(body, room);
    if at > room / 2 then at else room
  }

  lemma CutPieces(body: string, cut: nat)
    requires Tight(body) && 0 < cut < |body|
    ensures Tight(RStrip(body[..cut])) && |RStrip(body[..cut])| <= cut
    ensures Tight(LStrip(body[cut..])) && |LStrip(body[cut..])| < |body|
    ensures Solid(RStrip(body[..cut])) + Solid(LStrip(body[cut..])) == Solid(body)
  {
    StripRight(body[..cut]);
    StripLeft(body[cut..]);
    SolidConcat(body[..cut], body[cut..]);
    assert body[..cut] + body[cut..] == body;
  }

  lemma StripRight(s: string)
    requires s != "" && !IsSpace(s[0])
    ensures Tight(RStrip(s)) && |RStrip(s)| <= |s| && Solid(RStrip(s)) == Solid(s)
  {
    RStripFacts(s);
  }

  lemma StripLeft(s: string)
    requires s != "" && !IsSpace(s[|s| - 1])
    ensures Tight(LStrip(s)) && |LStrip(s)| <= |s| && Solid(LStrip(s)) == Solid(s)
  {
    LStripFacts(s);
  }

  function Wrap(indent: nat, body: string): (pieces: seq<string>)
    requires Tight(body)
    ensures |pieces| >= 1
    decreases |body|
  {
    if |body| <= Room(indent) then [Pad(indent) + body]
    else
      var cut := CutAt(body, Room(indent));
      CutPieces(body, cut);
      [Pad(indent) + RStrip(body[..cut])] + Wrap(indent, LStrip(body[cut..]))
  }

  // One split: the first piece, and the rest of the line.
  lemma WrapSplits(indent: nat, body: string) returns (piece: string, rest: string)
    requires Tight(body) && |body| > Room(indent)
    ensures Tight(piece) && |piece| <= Room(indent)
    ensures Tight(rest) && |rest| < |body| && Solid(piece) + Solid(rest) == Solid(body)
    ensures Wrap(indent, body) == [Pad(indent) + piece] + Wrap(indent, rest)
  {
    var cut := CutAt(body, Room(indent));
    CutPieces(body, cut);
    piece, rest := RStrip(body[..cut]), LStrip(body[cut..]);
  }

  // ---- the loop over the lines

  // len(line) - len(line.lstrip(" "))
  function Indent(line: string): (k: nat)
    ensures k <= |line|
    ensures forall i :: 0 <= i < k ==> line[i] == ' '
    ensures k < |line| ==> line[k] != ' '
  {
    if line != "" && line[0] == ' ' then 1 + Indent(line[1..]) else 0
  }

  function LineStep(lines: seq<string>, raw: string): seq<string> {
    var line := RStrip(raw);
    if Strip(line) == "" then
      if lines != [] && lines[|lines| - 1] != "" then lines + [""] else lines
    else
      StripFacts(line);
      lines + Wrap(Indent(line), Strip(line))
  }

  function Layout(raws: seq<string>): seq<string> {
    if raws == [] then [] else LineStep(Layout(raws[..|raws| - 1]), raws[|raws| - 1])
  }

  function Splits(raws: seq<string>): nat {
    if raws == [] then 0
    else
      var line := RStrip(raws[|raws| - 1]);
      StripFacts(line);
      Splits(raws[..|raws| - 1]) + if Strip(line) == "" then 0 else |Wrap(Indent(line), Strip(line))| - 1
  }

  function TrimEnd(lines: seq<string>): seq<string> {
    if lines != [] && lines[|lines| - 1] == "" then TrimEnd(lines[..|lines| - 1]) else lines
  }

  function Lines(text: string): seq<string> {
    TrimEnd(Layout(Split(Clean(text))))
  }

  function Output(text: string): string {
    Join(Lines(text))
  }

  lemma NextLine(raws: seq<string>, n: nat)
    requires n < |raws|
    ensures Layout(raws[..n + 1]) == LineStep(Layout(raws[..n]), raws[n])
    ensures var line := RStrip(raws[n]);
            Strip(line) == "" ==> Splits(raws[..n + 1]) == Splits(raws[..n])
    ensures var line := RStrip(raws[n]);
            Strip(line) != "" ==>
              Tight(Strip(line)) && Splits(raws[..n + 1]) == Splits(raws[..n]) + |Wrap(Indent(line), Strip(line))| - 1
  {
    assert raws[..n + 1][..n] == raws[..n];
    StripFacts(RStrip(raws[n]));
  }

  lemma EmptyOutput(text: string)
    ensures Strip(Output(text)) == "" <==> Solid(Kept(text)) == ""
  {
    OutputKeepsContent(text);
    SolidBlank(Output(text));
    StripFacts(Output(text));
  }

  method Finish(text: string, extractor: string, notes: seq<Warning>) returns (result: Result)
    ensures result.NoText? <==> Solid(Kept(text)) == ""
    ensures result.TooLong? ==> result == TooLong(|Output(text)|)
    ensures result.TooLong? <==> Solid(Kept(text)) != "" && |Output(text)| > 100_000
    ensures result.Done? ==>
              var splits := Splits(Split(Clean(text)));
              result.extraction ==
                Extraction(Output(text), extractor, notes + if splits > 0 then [LinesSplit(splits)] else [])
  {
    var warnings := notes;
    var cleaned := Clean(text);
    var lines, wrapped := LayOut(Split(cleaned));
    while lines != [] && lines[|lines| - 1] == ""
      invariant TrimEnd(lines) == Lines(text)
    {
      lines := lines[..|lines| - 1];
    }
    var out := Join(lines);
    if wrapped > 0 {
      warnings := warnings + [LinesSplit(wrapped)];
    }
    EmptyOutput(text);
    if Strip(out) == "" {
      return NoText;
    }
    if |out| > MAX_TEXT_CHARS {
      return TooLong(|out|);
    }
    result := Done(Extraction(out, extractor, warnings));
  }

  // The loop over the lines.
  method LayOut(raws: seq<string>) returns (lines: seq<string>, wrapped: nat)
    ensures lines == Layout(raws) && wrapped == Splits(raws)
  {
    lines := [];
    wrapped := 0;
    for n := 0 to |raws|
      invariant lines == Layout(raws[..n])
      invariant wrapped == Splits(raws[..n])
    {
      NextLine(raws, n);
      var line := RStrip(raws[n]);
      if Strip(line) == "" {
        if lines != [] && lines[|lines| - 1] != "" {
          lines := lines + [""];
        }
      } else {
        var pieces := WrapLine(Indent(line), Strip(line));
        lines := lines + pieces;
        wrapped := wrapped + |pieces| - 1;
      }
    }
    assert raws[..|raws|] == raws;
  }

  // The inner loop: cut pieces off the front until the rest fits.
  method WrapLine(indent: nat, line: string) returns (pieces: seq<string>)
    requires Tight(line)
    ensures pieces == Wrap(indent, line)
  {
    pieces := [];
    var body := line;
    var room := Room(indent);
    while |body| > room
      invariant Tight(body)
      invariant pieces + Wrap(indent, body) == Wrap(indent, line)
      decreases |body|
    {
      var cut := CutAt(body, room);
      CutPieces(body, cut);
      var piece := Pad(indent) + RStrip(body[..cut]);
      assert (pieces + [piece]) + Wrap(indent, LStrip(body[cut..])) == pieces + Wrap(indent, body);
      pieces := pieces + [piece];
      body := LStrip(body[cut..]);
    }
    pieces := pieces + [Pad(indent) + body];
  }

  // ---- content is preserved

  lemma {:induction false} PadBlank(indent: nat, s: string)
    ensures Solid(Pad(indent) + s) == Solid(s)
  {
    SolidConcat(Pad(indent), s);
    SolidBlank(Pad(indent));
    assert Blank(Pad(indent));
  }

  lemma {:induction false} WrapKeepsContent(indent: nat, body: string)
    requires Tight(body)
    ensures SolidLines(Wrap(indent, body)) == Solid(body)
    decreases |body|
  {
    if |body| <= Room(indent) {
      PadBlank(indent, body);
      SolidLinesAppend([], Pad(indent) + body);
      assert [] + [Pad(indent) + body] == [Pad(indent) + body];
    } else {
      var piece, rest := WrapSplits(indent, body);
      PadBlank(indent, piece);
      WrapKeepsContent(indent, rest);
      assert Wrap(indent, body)[1..] == Wrap(indent, rest);
    }
  }

  lemma {:induction false} LayoutKeepsContent(raws: seq<string>)
    ensures SolidLines(Layout(raws)) == SolidLines(raws)
  {
    if raws == [] {
    } else {
      var before, raw := raws[..|raws| - 1], raws[|raws| - 1];
      LayoutKeepsContent(before);
      assert raws == before + [raw];
      SolidLinesAppend(before, raw);
      var line := RStrip(raw);
      RStripFacts(raw);
      StripFacts(line);
      SolidBlank(line);
      if Strip(line) == "" {
        SolidLinesAppend(Layout(before), "");
      } else {
        WrapKeepsContent(Indent(line), Strip(line));
        SolidLinesConcat(Layout(before), Wrap(Indent(line), Strip(line)));
      }
    }
  }

  lemma {:induction false} TrimEndKeepsContent(lines: seq<string>)
    ensures SolidLines(TrimEnd(lines)) == SolidLines(lines)
  {
    if lines != [] && lines[|lines| - 1] == "" {
      var before := lines[..|lines| - 1];
      TrimEndKeepsContent(before);
      assert lines == before + [""];
      SolidLinesAppend(before, "");
    }
  }

  // Nothing is lost, added or reordered except white space.
  lemma OutputKeepsContent(text: string)
    ensures Solid(Output(text)) == Solid(Kept(text))
  {
    var raws := Split(Clean(text));
    SolidJoin(Lines(text));
    TrimEndKeepsContent(Layout(raws));
    LayoutKeepsContent(raws);
    SolidSplit(Clean(text));
    CleanKeepsContent(text);
  }
}
