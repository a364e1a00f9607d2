// The HTML outline extractor of services/api-gateway/app/dmind_inputs.py: a
// machine with a skip counter, a list depth and a current heading, driven by
// the events of the HTML parser.

module HtmlMachine {
  import opened PyText
  import opened TextNormaliser

  datatype Event = Start(tag: string) | End(tag: string) | Data(text: string)

  predicate Skips(tag: string) {
    tag in {"script", "style", "noscript", "template", "svg", "iframe", "object", "embed", "head", "nav", "footer",
      "aside", "form"}
  }

  predicate IsBlock(tag: string) {
    tag in {"p", "div", "section", "article", "main", "br", "tr", "table", "blockquote", "pre", "ul", "ol", "dl",
      "dt", "dd", "figure", "figcaption"}
  }

  predicate IsList(tag: string) {
    tag == "ul" || tag == "ol"
  }

  // The digit of h1..h6, or 0.
  function HeadingLevel(tag: string): (level: nat)
    ensures level <= 6
  {
    if |tag| == 2 && tag[0] == 'h' && '1' <= tag[1] <= '6' then tag[1] as int - '0' as int else 0
  }

  // A new line starts where such an element starts, and another where it ends.
  predicate Breaks(tag: string) {
    HeadingLevel(tag) > 0 || IsBlock(tag) || tag == "li"
  }

  // ---- " ".join(s.split())

  function Word(s: string): (w: string)
    ensures |w| <= |s| && s[..|w|] == w
    ensures s != "" && !IsSpace(s[0]) ==> w != ""
    ensures forall i :: 0 <= i < |w| ==> !IsSpace(w[i])
    ensures |w| < |s| ==> IsSpace(s[|w|])
  {
    if s != "" && !IsSpace(s[0]) then [s[0]] + Word(s[1..]) else ""
  }

  function Collapse(s: string): string
    decreases |s|
  {
    LStripFacts(s);
    var t := LStrip(s);
    if t == "" then ""
    else
      var rest := Collapse(t[|Word(t)|..]);
      if rest == "" then Word(t) else Word(t) + " " + rest
  }

  lemma {:induction false} SolidWord(w: string)
    requires forall i :: 0 <= i < |w| ==> !IsSpace(w[i])
    ensures Solid(w) == w
  {
    if w == "" {
    } else {
      SolidWord(w[1..]);
    }
  }

  lemma {:induction false} CollapseKeepsContent(s: string)
    ensures Solid(Collapse(s)) == Solid(s)
    decreases |s|
  {
    LStripFacts(s);
    var t := LStrip(s);
    SolidBlank(s);
    if t != "" {
      var w, more := Word(t), t[|Word(t)|..];
      CollapseKeepsContent(more);
      SolidConcat(w, more);
      assert w + more == t;
      SolidConcat(w, " ");
      SolidConcat(w + " ", Collapse(more));
      assert Solid(" ") == "";
    }
  }

  // s.split()
  function Words(s: string): seq<string>
    decreases |s|
  {
    LStripFacts(s);
    var t := LStrip(s);
    if t == "" then [] else [Word(t)] + Words(t[|Word(t)|..])
  }

  lemma {:induction false} WordOf(w: string, rest: string)
    requires forall i :: 0 <= i < |w| ==> !IsSpace(w[i])
    requires rest == "" || IsSpace(rest[0])
    ensures Word(w + rest) == w
  {
    if w == "" {
      assert w + rest == rest;
    } else {
      assert (w + rest)[1..] == w[1..] + rest;
      WordOf(w[1..], rest);
    }
  }

  lemma WordsOfWordFirst(w: string, rest: string)
    requires w != "" && forall i :: 0 <= i < |w| ==> !IsSpace(w[i])
    requires rest == "" || IsSpace(rest[0])
    ensures Words(w + rest) == [w] + Words(rest)
  {
    WordOf(w, rest);
    assert LStrip(w + rest) == w + rest;
    assert (w + rest)[|w|..] == rest;
  }

  lemma WordsAfterSpace(s: string)
    ensures Words(" " + s) == Words(s)
  {
    assert (" " + s)[1..] == s;
    assert LStrip(" " + s) == LStrip(s);
  }

  // Collapsing changes only the white space between the words.
  lemma {:induction false} CollapseKeepsWords(s: string)
    ensures Words(Collapse(s)) == Words(s)
    decreases |s|
  {
    LStripFacts(s);
    var t := LStrip(s);
    if t != "" {
      var w, more := Word(t), t[|Word(t)|..];
      CollapseKeepsWords(more);
      CollapseStartsWithWord(more);
      if Collapse(more) == "" {
        WordsOfWordFirst(w, "");
        assert w + "" == w;
      } else {
        WordsOfWordFirst(w, " " + Collapse(more));
        WordsAfterSpace(Collapse(more));
        assert w + (" " + Collapse(more)) == w + " " + Collapse(more);
      }
    }
  }

  lemma CollapseStartsWithWord(s: string)
    ensures Collapse(s) == "" ==> Words(s) == []
  {
    LStripFacts(s);
  }

  predicate Flat(s: string) {
    forall i :: 0 <= i < |s| ==> s[i] == ' ' || !IsSpace(s[i])
  }

  lemma {:induction false} CollapseShape(s: string)
    ensures Collapse(s) != "" ==> Tight(Collapse(s))
    ensures Flat(Collapse(s))
    ensures Collapse(s) == "" <==> Blank(s)
    decreases |s|
  {
    LStripFacts(s);
    var t := LStrip(s);
    if t != "" {
      CollapseShape(t[|Word(t)|..]);
    }
  }

  // ---- the machine

  datatype Page = Page(lines: seq<string>, buffer: string, heading: nat, indent: nat)
  datatype Machine = Machine(page: Page, skip: nat, depth: nat, title: string, inTitle: bool)

  function Flush(p: Page): Page {
    var text := Collapse(p.buffer);
    p.(buffer := "", lines := if text == "" then p.lines else p.lines + [Pad(2 * p.indent) + text])
  }

  // Text sits one level under its heading; nested lists go one deeper each.
  function BodyIndent(heading: nat, depth: nat): nat {
    heading + if depth <= 1 then 0 else if depth >= 7 then 6 else depth - 1
  }

  // The page when an element that is not skipped starts, `depth` lists deep.
  function Open(tag: string, depth: nat, p: Page): Page {
    if HeadingLevel(tag) > 0 then Flush(p).(heading := HeadingLevel(tag), indent := HeadingLevel(tag) - 1)
    else if Breaks(tag) then
      var q := Flush(p);
      q.(indent := BodyIndent(q.heading, depth))
    else p
  }

  // The page when it ends, back at `depth` lists deep.
  function Close(tag: string, depth: nat, p: Page): Page {
    var q := if Breaks(tag) then Flush(p) else p;
    if IsList(tag) then q.(indent := BodyIndent(q.heading, depth)) else q
  }

  function Step(m: Machine, ev: Event): Machine {
    match ev
    case Start(tag) =>
      var m1 := if tag == "title" then m.(inTitle := true) else m;
      if Skips(tag) then m1.(skip := m1.skip + 1)
      else if m1.skip > 0 then m1
      else
        var depth := if IsList(tag) then m1.depth + 1 else m1.depth;
        m1.(depth := depth, page := Open(tag, depth, m1.page))
    case End(tag) =>
      var m1 := if tag == "title" then m.(inTitle := false) else m;
      if Skips(tag) then m1.(skip := if m1.skip == 0 then 0 else m1.skip - 1)
      else if m1.skip > 0 then m1
      else
        var depth := if IsList(tag) && m1.depth > 0 then m1.depth - 1 else m1.depth;
        m1.(depth := depth, page := Close(tag, depth, m1.page))
    case Data(text) =>
      var m1 := if m.inTitle then m.(title := m.title + text) else m;
      if m1.skip > 0 then m1 else m1.(page := m1.page.(buffer := m1.page.buffer + text))
  }

  function Run(evs: seq<Event>, m: Machine): Machine {
    if evs == [] then m else Run(evs[1..], Step(m, evs[0]))
  }

  const Initial: Machine := Machine(Page([], "", 0, 0), 0, 0, "", false)

  // The lines after the parser is closed.
  function OutlineLines(evs: seq<Event>): seq<string> {
    Flush(Run(evs, Initial).page).lines
  }

  const TITLE_LENGTH := 200

  // " ".join(title.split())[:200]
  function ShortTitle(title: string): (t: string)
    ensures t <= Collapse(title)
    ensures |t| == if |Collapse(title)| < 200 then |Collapse(title)| else 200
  {
    var t := Collapse(title);
    if |t| <= TITLE_LENGTH then t else t[..TITLE_LENGTH]
  }

  lemma {:induction false} RunConcat(a: seq<Event>, b: seq<Event>, m: Machine)
    ensures Run(a + b, m) == Run(b, Run(a, m))
  {
    if a == [] {
      assert a + b == b;
    } else {
      assert (a + b)[1..] == a[1..] + b;
      RunConcat(a[1..], b, Step(m, a[0]));
    }
  }

  // ---- the class that the parser drives

  function FlatBuffer(parts: seq<string>): string {
    if parts == [] then "" else FlatBuffer(parts[..|parts| - 1]) + parts[|parts| - 1]
  }

  class HtmlOutline {
    var lines: seq<string>
    var buffer: seq<string>
    var skip: nat
    var heading: nat
    var depth: nat
    var indent: nat
    var title: string
    var inTitle: bool

    ghost function State(): Machine
      reads this
    {
      Machine(Page(lines, FlatBuffer(buffer), heading, indent), skip, depth, title, inTitle)
    }

    constructor ()
      ensures State() == Initial
    {
      lines, buffer := [], [];
      skip, heading, depth, indent := 0, 0, 0, 0;
      title, inTitle := "", false;
    }

    method FlushBuffer()
      modifies this
      ensures State() == old(State()).(page := Flush(old(State()).page))
      ensures buffer == [] && heading == old(heading)
    {
      var text := Collapse(FlatBuffer(buffer));
      buffer := [];
      if text != "" {
        lines := lines + [Pad(2 * indent) + text];
      }
    }

    method HandleStartTag(tag: string)
      modifies this
      ensures State() == Step(old(State()), Start(tag))
    {
      if tag == "title" {
        inTitle := true;
      }
      if Skips(tag) {
        skip := skip + 1;
        return;
      }
      if skip > 0 {
        return;
      }
      if HeadingLevel(tag) > 0 {
        FlushBuffer();
        heading := HeadingLevel(tag);
        indent := heading - 1;
      } else if IsList(tag) {
        FlushBuffer();
        depth := depth + 1;
        indent := BodyIndent(heading, depth);
      } else if tag == "li" || IsBlock(tag) {
        FlushBuffer();
        indent := BodyIndent(heading, depth);
      }
    }

    method HandleEndTag(tag: string)
      modifies this
      ensures State() == Step(old(State()), End(tag))
    {
      if tag == "title" {
        inTitle := false;
      }
      if Skips(tag) {
        skip := if skip == 0 then 0 else skip - 1;
        return;
      }
      if skip > 0 {
        return;
      }
      if HeadingLevel(tag) > 0 || IsBlock(tag) || tag == "li" {
        FlushBuffer();
      }
      if IsList(tag) {
        depth := if depth == 0 then 0 else depth - 1;
        indent := BodyIndent(heading, depth);
      }
    }

    method HandleData(data: string)
      modifies this
      ensures State() == Step(old(State()), Data(data))
    {
      if inTitle {
        title := title + data;
      }
      if skip == 0 {
        assert (buffer + [data])[..|buffer|] == buffer;
        buffer := buffer + [data];
      }
    }
  }

  // html_text, from the parser's events on: run the machine, close it, and
  // normalise its lines.
  method HtmlText(evs: seq<Event>) returns (result: Result, title: string)
    ensures var text := Join(OutlineLines(evs));
            && (result.NoText? <==> Solid(Kept(text)) == "")
            && (result.TooLong? <==> Solid(Kept(text)) != "" && |Output(text)| > MAX_TEXT_CHARS)
            && (result.Done? ==> result.extraction.text == Output(text))
    ensures title == ShortTitle(Run(evs, Initial).title)
  {
    var parser := new HtmlOutline();
    for n := 0 to |evs|
      invariant fresh(parser)
      invariant Run(evs[n..], parser.State()) == Run(evs, Initial)
    {
      assert evs[n..][0] == evs[n] && evs[n..][1..] == evs[n + 1..];
      match evs[n] {
        case Start(tag) => parser.HandleStartTag(tag);
        case End(tag) => parser.HandleEndTag(tag);
        case Data(text) => parser.HandleData(text);
      }
    }
    parser.FlushBuffer();
    title := Collapse(parser.title);
    if |title| > TITLE_LENGTH {
      title := title[..TITLE_LENGTH];
    }
    result := Finish(Join(parser.lines), "html", []);
  }
}
