// The string operations of Python that text extraction is built from.

module PyText {

  // str.isspace for one character: what strip() and split() treat as white space.
  predicate IsSpace(c: char) {
    || '\t' <= c <= '\r' || '\U{001C}' <= c <= ' ' || c == '\U{0085}' || c == '\U{00A0}' || c == '\U{1680}'
    || '\U{2000}' <= c <= '\U{200A}' || c == '\U{2028}' || c == '\U{2029}' || c == '\U{202F}'
    || c == '\U{205F}' || c == '\U{3000}'
  }

  // The code points of white space.
  lemma SpacesExactly(c: char)
    ensures var n := c as int;
            IsSpace(c) <==>
              || 9 <= n <= 13 || 28 <= n <= 32 || n == 133 || n == 160 || n == 5760 || 8192 <= n <= 8202
              || n == 8232 || n == 8233 || n == 8239 || n == 8287 || n == 12288
  {
  }

  predicate Blank(s: string) {
    forall i :: 0 <= i < |s| ==> IsSpace(s[i])
  }

  // Content: the characters that are not white space, in order.
  function Solid(s: string): string {
    if s == "" then "" else if IsSpace(s[0]) then Solid(s[1..]) else [s[0]] + Solid(s[1..])
  }

  function LStrip(s: string): string {
    if s != "" && IsSpace(s[0]) then LStrip(s[1..]) else s
  }

  function RStrip(s: string): string {
    if s != "" && IsSpace(s[|s| - 1]) then RStrip(s[..|s| - 1]) else s
  }

  function Strip(s: string): string {
    RStrip(LStrip(s))
  }

  // No white space at either end, and not empty.
  predicate Tight(s: string) {
    s != "" && !IsSpace(s[0]) && !IsSpace(s[|s| - 1])
  }

  lemma {:induction false} SolidConcat(a: string, b: string)
    ensures Solid(a + b) == Solid(a) + Solid(b)
  {
    if a == "" {
      assert a + b == b;
    } else {
      assert (a + b)[1..] == a[1..] + b;
      SolidConcat(a[1..], b);
    }
  }

  lemma {:induction false} SolidBlank(s: string)
    ensures Solid(s) == "" <==> Blank(s)
  {
    if s == "" {
    } else {
      SolidBlank(s[1..]);
      assert forall i :: 0 < i < |s| ==> s[i] == s[1..][i - 1];
    }
  }

  lemma {:induction false} LStripFacts(s: string)
    ensures |LStrip(s)| <= |s| && s[|s| - |LStrip(s)|..] == LStrip(s)
    ensures Blank(s[..|s| - |LStrip(s)|])
    ensures LStrip(s) != "" ==> !IsSpace(LStrip(s)[0])
    ensures Solid(LStrip(s)) == Solid(s)
    ensures LStrip(s) == "" <==> Blank(s)
  {
    if s != "" && IsSpace(s[0]) {
      LStripFacts(s[1..]);
      assert forall i :: 0 < i < |s| ==> s[i] == s[1..][i - 1];
    }
  }

  lemma {:induction false} RStripFacts(s: string)
    ensures |RStrip(s)| <= |s| && s[..|RStrip(s)|] == RStrip(s)
    ensures RStrip(s) != "" ==> !IsSpace(RStrip(s)[|RStrip(s)| - 1])
    ensures Solid(RStrip(s)) == Solid(s)
    ensures RStrip(s) == "" <==> Blank(s)
  {
    if s != "" && IsSpace(s[|s| - 1]) {
      var t := s[..|s| - 1];
      RStripFacts(t);
      assert s == t + [s[|s| - 1]];
      SolidConcat(t, [s[|s| - 1]]);
      assert Solid([s[|s| - 1]]) == "";
    }
  }

  lemma StripFacts(s: string)
    ensures Solid(Strip(s)) == Solid(s)
    ensures Strip(s) == "" <==> Blank(s)
    ensures Strip(s) != "" ==> Tight(Strip(s))
    ensures |Strip(s)| <= |s|
  {
    LStripFacts(s);
    RStripFacts(LStrip(s));
    SolidBlank(s);
    SolidBlank(LStrip(s));
  }

  // ---- splitting and joining on a newline

  function Split(s: string): (lines: seq<string>)
    ensures lines != []
  {
    if s == "" then [""]
    else
      var rest := Split(s[1..]);
      if s[0] == '\n' then [""] + rest
      else [[s[0]] + rest[0]] + rest[1..]
  }

  function Join(lines: seq<string>): string {
    if lines == [] then ""
    else if |lines| == 1 then lines[0]
    else lines[0] + "\n" + Join(lines[1..])
  }

  predicate NoNewline(s: string) {
    forall i :: 0 <= i < |s| ==> s[i] != '\n'
  }

  function SolidLines(lines: seq<string>): string {
    if lines == [] then "" else Solid(lines[0]) + SolidLines(lines[1..])
  }

  lemma {:induction false} SolidLinesConcat(a: seq<string>, b: seq<string>)
    ensures SolidLines(a + b) == SolidLines(a) + SolidLines(b)
  {
    if a == [] {
      assert a + b == b;
    } else {
      assert (a + b)[1..] == a[1..] + b;
      SolidLinesConcat(a[1..], b);
    }
  }

  lemma SolidLinesAppend(lines: seq<string>, line: string)
    ensures SolidLines(lines + [line]) == SolidLines(lines) + Solid(line)
  {
    SolidLinesConcat(lines, [line]);
    assert [line][1..] == [];
  }

  lemma {:induction false} SolidSplit(s: string)
    ensures SolidLines(Split(s)) == Solid(s)
  {
    if s == "" {
    } else {
      var rest := Split(s[1..]);
      SolidSplit(s[1..]);
      if s[0] == '\n' {
        assert ([""] + rest)[1..] == rest;
      } else {
        assert Split(s)[1..] == rest[1..];
        SolidConcat([s[0]], rest[0]);
        SolidConcat([s[0]], s[1..]);
        assert [s[0]] + s[1..] == s;
      }
    }
  }

  lemma {:induction false} SolidJoin(lines: seq<string>)
    ensures Solid(Join(lines)) == SolidLines(lines)
  {
    if |lines| == 1 {
      assert lines[1..] == [];
      assert Solid(lines[0]) + "" == Solid(lines[0]);
    } else if |lines| > 1 {
      SolidJoin(lines[1..]);
      SolidConcat(lines[0], "\n");
      SolidConcat(lines[0] + "\n", Join(lines[1..]));
      assert Solid("\n") == "";
    }
  }

  lemma {:induction false} SplitHasNoNewlines(s: string)
    ensures forall i :: 0 <= i < |Split(s)| ==> NoNewline(Split(s)[i])
  {
    if s == "" {
    } else {
      SplitHasNoNewlines(s[1..]);
    }
  }

  lemma {:induction false} SplitLine(line: string, rest: string)
    requires NoNewline(line)
    ensures Split(line + "\n" + rest) == [line] + Split(rest)
  {
    var s := line + "\n" + rest;
    if line == "" {
      assert s[1..] == rest;
    } else {
      assert s[1..] == line[1..] + "\n" + rest;
      SplitLine(line[1..], rest);
      assert [line[0]] + line[1..] == line;
    }
  }

  lemma {:induction false} SplitOneLine(line: string)
    requires NoNewline(line)
    ensures Split(line) == [line]
  {
    if line == "" {
    } else {
      SplitOneLine(line[1..]);
      assert [line[0]] + line[1..] == line;
    }
  }

  // Splitting undoes joining, for at least one line.
  lemma {:induction false} SplitJoin(lines: seq<string>)
    requires lines != [] && forall i :: 0 <= i < |lines| ==> NoNewline(lines[i])
    ensures Split(Join(lines)) == lines
  {
    if |lines| == 1 {
      SplitOneLine(lines[0]);
    } else {
      SplitJoin(lines[1..]);
      SplitLine(lines[0], Join(lines[1..]));
    }
  }
}
