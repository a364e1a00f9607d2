// The outline machine against documents seen as trees: which text survives,
// and where it is placed.

module HtmlTree {
  import opened PyText
  import opened TextNormaliser
  import opened HtmlMachine

  // A forest in document order. An element whose start tag has no end tag
  // (such as <br>, <hr> or <embed>) is a Void.
  datatype Forest =
    | Empty
    | Text(data: string, next: Forest)
    | Elem(tag: string, kids: Forest, next: Forest)
    | Void(tag: string, next: Forest)

  function Events(f: Forest): seq<Event> {
    match f
    case Empty => []
    case Text(data, next) => [Data(data)] + Events(next)
    case Elem(tag, kids, next) => [Start(tag)] + (Events(kids) + ([End(tag)] + Events(next)))
    case Void(tag, next) => [Start(tag)] + Events(next)
  }

  // Character data outside the skipped elements.
  function Visible(f: Forest): string {
    match f
    case Empty => ""
    case Text(data, next) => data + Visible(next)
    case Elem(tag, kids, next) => (if Skips(tag) then "" else Visible(kids)) + Visible(next)
    case Void(tag, next) => Visible(next)
  }

  // A skipped tag that is never closed occurs somewhere.
  predicate Stuck(f: Forest) {
    match f
    case Empty => false
    case Text(_, next) => Stuck(next)
    case Elem(_, kids, next) => Stuck(kids) || Stuck(next)
    case Void(tag, next) => Skips(tag) || Stuck(next)
  }

  // The visible text before and after the first such tag.
  function Shown(f: Forest): string {
    match f
    case Empty => ""
    case Text(data, next) => data + Shown(next)
    case Elem(tag, kids, next) =>
      (if Skips(tag) then "" else Shown(kids)) + (if Stuck(kids) then "" else Shown(next))
    case Void(tag, next) => if Skips(tag) then "" else Shown(next)
  }

  function Lost(f: Forest): string {
    match f
    case Empty => ""
    case Text(_, next) => Lost(next)
    case Elem(tag, kids, next) =>
      (if Skips(tag) then "" else Lost(kids)) + (if Stuck(kids) then Visible(next) else Lost(next))
    case Void(tag, next) => if Skips(tag) then Visible(next) else Lost(next)
  }

  lemma {:induction false} NothingLost(f: Forest)
    requires !Stuck(f)
    ensures Lost(f) == "" && Shown(f) == Visible(f)
  {
    match f {
      case Empty =>
      case Text(_, next) => NothingLost(next);
      case Elem(_, kids, next) =>
        NothingLost(kids);
        NothingLost(next);
      case Void(_, next) => NothingLost(next);
    }
  }

  lemma {:induction false} ShownThenLost(f: Forest)
    ensures Visible(f) == Shown(f) + Lost(f)
  {
    match f {
      case Empty =>
      case Text(_, next) => ShownThenLost(next);
      case Elem(tag, kids, next) =>
        ShownThenLost(kids);
        ShownThenLost(next);
        if !Stuck(kids) {
          NothingLost(kids);
        }
      case Void(_, next) => ShownThenLost(next);
    }
  }

  // ---- the content that reaches the lines

  function Content(p: Page): string {
    SolidLines(p.lines) + Solid(p.buffer)
  }

  lemma FlushContent(p: Page)
    ensures Content(Flush(p)) == Content(p)
    ensures SolidLines(Flush(p).lines) == Content(p)
  {
    CollapseKeepsContent(p.buffer);
    var text := Collapse(p.buffer);
    assert Solid("") == "";
    if text != "" {
      SolidLinesAppend(p.lines, Pad(2 * p.indent) + text);
      PadBlank(2 * p.indent, text);
    }
  }

  lemma OpenContent(tag: string, depth: nat, p: Page)
    ensures Content(Open(tag, depth, p)) == Content(p)
  {
    FlushContent(p);
  }

  lemma CloseContent(tag: string, depth: nat, p: Page)
    ensures Content(Close(tag, depth, p)) == Content(p)
  {
    FlushContent(p);
  }

  // Only data outside skipped elements adds content.
  lemma StartFacts(m: Machine, tag: string)
    ensures Content(Step(m, Start(tag)).page) == Content(m.page)
    ensures Step(m, Start(tag)).skip == if Skips(tag) then m.skip + 1 else m.skip
  {
    OpenContent(tag, if IsList(tag) then m.depth + 1 else m.depth, m.page);
  }

  lemma EndFacts(m: Machine, tag: string)
    ensures Content(Step(m, End(tag)).page) == Content(m.page)
    ensures Step(m, End(tag)).skip == if Skips(tag) && m.skip > 0 then m.skip - 1 else m.skip
  {
    CloseContent(tag, if IsList(tag) && m.depth > 0 then m.depth - 1 else m.depth, m.page);
  }

  lemma DataFacts(m: Machine, text: string)
    ensures Content(Step(m, Data(text)).page) == Content(m.page) + if m.skip == 0 then Solid(text) else ""
    ensures Step(m, Data(text)).skip == m.skip
  {
    SolidConcat(m.page.buffer, text);
    assert Content(m.page) + Solid(text) == SolidLines(m.page.lines) + (Solid(m.page.buffer) + Solid(text));
  }

  lemma RunOne(ev: Event, rest: seq<Event>, m: Machine)
    ensures Run([ev] + rest, m) == Run(rest, Step(m, ev))
  {
    assert ([ev] + rest)[1..] == rest;
  }

  lemma RunElem(tag: string, kids: Forest, next: Forest, m: Machine)
    ensures Run(Events(Elem(tag, kids, next)), m) ==
            Run(Events(next), Step(Run(Events(kids), Step(m, Start(tag))), End(tag)))
  {
    var rest := [End(tag)] + Events(next);
    RunOne(Start(tag), Events(kids) + rest, m);
    RunConcat(Events(kids), rest, Step(m, Start(tag)));
    RunOne(End(tag), Events(next), Run(Events(kids), Step(m, Start(tag))));
  }

  // Inside a skipped element nothing is added, and the counter comes back
  // to where it was unless a skipped tag is never closed.
  lemma {:induction false} HiddenForest(f: Forest, m: Machine)
    requires m.skip > 0
    ensures var m' := Run(Events(f), m);
            m'.page == m.page && m'.depth == m.depth && (if Stuck(f) then m'.skip > m.skip else m'.skip == m.skip)
  {
    match f {
      case Empty =>
      case Text(data, next) =>
        RunOne(Data(data), Events(next), m);
        HiddenForest(next, Step(m, Data(data)));
      case Elem(tag, kids, next) =>
        RunElem(tag, kids, next, m);
        var m1 := Step(m, Start(tag));
        HiddenForest(kids, m1);
        HiddenForest(next, Step(Run(Events(kids), m1), End(tag)));
      case Void(tag, next) =>
        RunOne(Start(tag), Events(next), m);
        HiddenForest(next, Step(m, Start(tag)));
    }
  }

  // What running a forest from m to m' must do when m is not skipping.
  predicate Adds(f: Forest, m: Machine, m': Machine) {
    Content(m'.page) == Content(m.page) + Solid(Shown(f)) && (m'.skip > 0 <==> Stuck(f))
  }

  lemma {:induction false} ShownForest(f: Forest, m: Machine)
    requires m.skip == 0
    ensures Adds(f, m, Run(Events(f), m))
  {
    match f {
      case Empty =>
        assert Solid(Shown(f)) == "";
      case Text(data, next) =>
        var m1 := Step(m, Data(data));
        RunOne(Data(data), Events(next), m);
        DataFacts(m, data);
        ShownForest(next, m1);
        ShownText(data, next, m, m1, Run(Events(next), m1));
      case Elem(tag, kids, next) =>
        var m1 := Step(m, Start(tag));
        var m2 := Run(Events(kids), m1);
        var m3 := Step(m2, End(tag));
        RunElem(tag, kids, next, m);
        StartFacts(m, tag);
        EndFacts(m2, tag);
        if Skips(tag) {
          HiddenForest(kids, m1);
        } else {
          ShownForest(kids, m1);
        }
        if m3.skip > 0 {
          HiddenForest(next, m3);
        } else {
          ShownForest(next, m3);
        }
        ShownElem(Skips(tag), kids, next, m, m1, m2, m3, Run(Events(next), m3));
      case Void(tag, next) =>
        var m1 := Step(m, Start(tag));
        RunOne(Start(tag), Events(next), m);
        StartFacts(m, tag);
        if Skips(tag) {
          HiddenForest(next, m1);
          assert Solid("") == "";
        } else {
          ShownForest(next, m1);
        }
    }
  }

  lemma ShownText(data: string, next: Forest, m: Machine, m1: Machine, m2: Machine)
    requires m.skip == m1.skip == 0 && Content(m1.page) == Content(m.page) + Solid(data) && Adds(next, m1, m2)
    ensures Adds(Text(data, next), m, m2)
  {
    SolidConcat(data, Shown(next));
    assert Content(m.page) + (Solid(data) + Solid(Shown(next))) == (Content(m.page) + Solid(data)) + Solid(Shown(next));
  }

  lemma ShownElem(hidden: bool, kids: Forest, next: Forest, m: Machine, m1: Machine, m2: Machine, m3: Machine,
      m4: Machine)
    requires m.skip == 0 && Content(m1.page) == Content(m.page) && Content(m3.page) == Content(m2.page)
    requires m1.skip == if hidden then 1 else 0
    requires m3.skip == if hidden && m2.skip > 0 then m2.skip - 1 else m2.skip
    requires if hidden then m2.page == m1.page && (if Stuck(kids) then m2.skip > 1 else m2.skip == 1)
             else Adds(kids, m1, m2)
    requires if m3.skip > 0 then m4.page == m3.page && m4.skip >= m3.skip else Adds(next, m3, m4)
    ensures Content(m4.page) ==
            Content(m.page) + Solid((if hidden then "" else Shown(kids)) + (if Stuck(kids) then "" else Shown(next)))
    ensures m4.skip > 0 <==> Stuck(kids) || Stuck(next)
  {
    var a, b := if hidden then "" else Shown(kids), if Stuck(kids) then "" else Shown(next);
    Appended(Content(m.page), Content(m2.page), Content(m4.page), a, b);
  }

  lemma Appended(c0: string, c1: string, c2: string, a: string, b: string)
    ensures c1 == (if a == "" then c0 else c0 + Solid(a)) && c2 == (if b == "" then c1 else c1 + Solid(b)) ==>
              c2 == c0 + Solid(a + b)
  {
    SolidConcat(a, b);
    assert a == "" ==> a + b == b;
    assert b == "" ==> a + b == a;
    assert c0 + (Solid(a) + Solid(b)) == (c0 + Solid(a)) + Solid(b);
  }

  // The outline of a document holds, in order, exactly the visible text that
  // comes before the first skipped tag that is never closed.
  lemma OutlineContent(f: Forest)
    ensures SolidLines(OutlineLines(Events(f))) == Solid(Shown(f))
  {
    ShownForest(f, Initial);
    FlushContent(Run(Events(f), Initial).page);
    assert Solid("") == "" && SolidLines([]) == "";
  }

  // So it holds all visible text if and only if no visible text follows such a tag.
  lemma OutlineIsComplete(f: Forest)
    ensures SolidLines(OutlineLines(Events(f))) == Solid(Visible(f)) <==> Solid(Lost(f)) == ""
  {
    OutlineContent(f);
    ShownThenLost(f);
    SolidConcat(Shown(f), Lost(f));
  }

  lemma WellNestedOutlineIsComplete(f: Forest)
    requires !Stuck(f)
    ensures SolidLines(OutlineLines(Events(f))) == Solid(Visible(f))
  {
    NothingLost(f);
    OutlineContent(f);
  }

  // <p>a</p><embed><p>b</p>: the embed element has no end tag, and "b" is lost.
  lemma EmbedExample()
    ensures var f := Elem("p", Text("a", Empty), Void("embed", Elem("p", Text("b", Empty), Empty)));
            Solid(Visible(f)) == "ab" && SolidLines(OutlineLines(Events(f))) == "a"
  {
    var f := Elem("p", Text("a", Empty), Void("embed", Elem("p", Text("b", Empty), Empty)));
    OutlineContent(f);
    assert Shown(f) == "a" && Visible(f) == "ab";
    assert "ab"[1..] == "b" && "b"[1..] == "" && "a"[1..] == "";
  }

  // ---- the title

  // Character data, skipped or not.
  function AllText(f: Forest): string {
    match f
    case Empty => ""
    case Text(data, next) => data + AllText(next)
    case Elem(_, kids, next) => AllText(kids) + AllText(next)
    case Void(_, next) => AllText(next)
  }

  // The character data inside title elements, wherever they are.
  function TitleText(f: Forest): string {
    match f
    case Empty => ""
    case Text(_, next) => TitleText(next)
    case Elem(tag, kids, next) => (if tag == "title" then AllText(kids) else TitleText(kids)) + TitleText(next)
    case Void(_, next) => TitleText(next)
  }

  predicate HasTitle(f: Forest) {
    match f
    case Empty => false
    case Text(_, next) => HasTitle(next)
    case Elem(tag, kids, next) => tag == "title" || HasTitle(kids) || HasTitle(next)
    case Void(tag, next) => tag == "title" || HasTitle(next)
  }

  // Every title is closed, and none lies inside another.
  predicate PlainTitles(f: Forest) {
    match f
    case Empty => true
    case Text(_, next) => PlainTitles(next)
    case Elem(tag, kids, next) =>
      (if tag == "title" then !HasTitle(kids) else PlainTitles(kids)) && PlainTitles(next)
    case Void(tag, next) => tag != "title" && PlainTitles(next)
  }

  // From m to m' the title has grown by this text.
  predicate Titles(m: Machine, m': Machine, text: string) {
    m'.inTitle == m.inTitle && m'.title == m.title + text
  }

  lemma TitlesThen(m: Machine, m1: Machine, m2: Machine, a: string, b: string)
    requires Titles(m, m1, a) && Titles(m1, m2, b)
    ensures Titles(m, m2, a + b)
  {
    assert m.title + (a + b) == (m.title + a) + b;
  }

  // Inside a title everything is taken, and outside nothing, while no title
  // starts or ends.
  lemma {:induction false} WithoutTitle(f: Forest, m: Machine)
    requires !HasTitle(f)
    ensures Titles(m, Run(Events(f), m), if m.inTitle then AllText(f) else "")
  {
    match f {
      case Empty =>
      case Text(data, next) =>
        var m1 := Step(m, Data(data));
        RunOne(Data(data), Events(next), m);
        WithoutTitle(next, m1);
        TitlesThen(m, m1, Run(Events(next), m1),
          if m.inTitle then data else "", if m.inTitle then AllText(next) else "");
      case Elem(tag, kids, next) =>
        var m1 := Step(m, Start(tag));
        var m2 := Run(Events(kids), m1);
        var m3 := Step(m2, End(tag));
        RunElem(tag, kids, next, m);
        WithoutTitle(kids, m1);
        WithoutTitle(next, m3);
        TitlesThen(m, m3, Run(Events(next), m3),
          if m.inTitle then AllText(kids) else "", if m.inTitle then AllText(next) else "");
      case Void(tag, next) =>
        RunOne(Start(tag), Events(next), m);
        WithoutTitle(next, Step(m, Start(tag)));
    }
  }

  lemma {:induction false} TitleGrows(f: Forest, m: Machine)
    requires PlainTitles(f) && !m.inTitle
    ensures Titles(m, Run(Events(f), m), TitleText(f))
  {
    match f {
      case Empty =>
      case Text(data, next) =>
        RunOne(Data(data), Events(next), m);
        TitleGrows(next, Step(m, Data(data)));
      case Elem(tag, kids, next) =>
        var m1 := Step(m, Start(tag));
        var m2 := Run(Events(kids), m1);
        var m3 := Step(m2, End(tag));
        RunElem(tag, kids, next, m);
        if tag == "title" {
          WithoutTitle(kids, m1);
        } else {
          TitleGrows(kids, m1);
        }
        TitleGrows(next, m3);
        TitlesThen(m, m3, Run(Events(next), m3),
          if tag == "title" then AllText(kids) else TitleText(kids), TitleText(next));
      case Void(tag, next) =>
        RunOne(Start(tag), Events(next), m);
        TitleGrows(next, Step(m, Start(tag)));
    }
  }

  // The title of a page is the text inside its title elements, in a skipped
  // head too, and nothing else.
  lemma TitleOfTree(f: Forest)
    requires PlainTitles(f)
    ensures Run(Events(f), Initial).title == TitleText(f)
    ensures ShortTitle(Run(Events(f), Initial).title) == ShortTitle(TitleText(f))
  {
    TitleGrows(f, Initial);
    assert "" + TitleText(f) == TitleText(f);
  }

  // ---- which tags are skipped

  const SKIPPED: set<string> :=
    {"script", "style", "noscript", "template", "svg", "iframe", "object", "embed", "head", "nav", "footer", "aside",
     "form"}

  // The lines do not depend on the title.
  predicate SameBody(m: Machine, m': Machine) {
    m.page == m'.page && m.skip == m'.skip && m.depth == m'.depth
  }

  lemma StepSameBody(ev: Event, m: Machine, m': Machine)
    requires SameBody(m, m')
    ensures SameBody(Step(m, ev), Step(m', ev))
  {
  }

  lemma {:induction false} RunSameBody(evs: seq<Event>, m: Machine, m': Machine)
    requires SameBody(m, m')
    ensures SameBody(Run(evs, m), Run(evs, m'))
  {
    if evs != [] {
      StepSameBody(evs[0], m, m');
      RunSameBody(evs[1..], Step(m, evs[0]), Step(m', evs[0]));
    }
  }

  // An element with one of these tags leaves no trace, whatever it contains
  // (unless a skipped tag in it is never closed).
  lemma SkippedVanish(tag: string, kids: Forest, next: Forest)
    requires tag in SKIPPED && !Stuck(kids)
    ensures OutlineLines(Events(Elem(tag, kids, next))) == OutlineLines(Events(next))
  {
    var m1 := Step(Initial, Start(tag));
    var m3 := Step(Run(Events(kids), m1), End(tag));
    RunElem(tag, kids, next, Initial);
    HiddenForest(kids, m1);
    RunSameBody(Events(next), m3, Initial);
  }

  // The text in any other element is kept.
  lemma OthersShow(tag: string, text: string)
    requires tag !in SKIPPED
    ensures SolidLines(OutlineLines(Events(Elem(tag, Text(text, Empty), Empty)))) == Solid(text)
  {
    var f := Elem(tag, Text(text, Empty), Empty);
    OutlineContent(f);
    assert Shown(Text(text, Empty)) == text + "" == text;
    assert Shown(f) == text + "" == text;
  }

  // ---- placement: the counters against a recursive reading of the tree

  // Every void tag is one that the parser may leave open: neither skipped nor a list.
  predicate WellFormed(f: Forest) {
    match f
    case Empty => true
    case Text(_, next) => WellFormed(next)
    case Elem(_, kids, next) => WellFormed(kids) && WellFormed(next)
    case Void(tag, next) => !Skips(tag) && !IsList(tag) && WellFormed(next)
  }

  // The page after a forest that lies inside `depth` lists. Skipped elements
  // leave no trace, and the depth is that of the surrounding elements.
  function Walk(f: Forest, depth: nat, p: Page): Page
    decreases f
  {
    match f
    case Empty => p
    case Text(data, next) => Walk(next, depth, p.(buffer := p.buffer + data))
    case Elem(tag, kids, next) =>
      if Skips(tag) then Walk(next, depth, p)
      else
        var inner := if IsList(tag) then depth + 1 else depth;
        Walk(next, depth, Close(tag, depth, Walk(kids, inner, Open(tag, inner, p))))
    case Void(tag, next) => Walk(next, depth, Open(tag, depth, p))
  }

  lemma {:induction false} NotStuck(f: Forest)
    requires WellFormed(f)
    ensures !Stuck(f)
  {
    match f {
      case Empty =>
      case Text(_, next) => NotStuck(next);
      case Elem(_, kids, next) =>
        NotStuck(kids);
        NotStuck(next);
      case Void(_, next) => NotStuck(next);
    }
  }

  predicate Walks(f: Forest, m: Machine, m': Machine) {
    m'.page == Walk(f, m.depth, m.page) && m'.skip == 0 && m'.depth == m.depth
  }

  // What an element does to the page by its tags and its content.
  function Around(tag: string, kids: Forest, depth: nat, p: Page): Page {
    if Skips(tag) then p
    else
      var inner := if IsList(tag) then depth + 1 else depth;
      Close(tag, depth, Walk(kids, inner, Open(tag, inner, p)))
  }

  // m2 is the machine at the end of the content.
  lemma ElementEnds(tag: string, kids: Forest, m: Machine, m2: Machine)
    requires m.skip == 0
    requires var m1 := Step(m, Start(tag));
             if Skips(tag) then m2.page == m1.page && m2.depth == m1.depth && m2.skip == m1.skip
             else Walks(kids, m1, m2)
    ensures var m3 := Step(m2, End(tag));
            m3.page == Around(tag, kids, m.depth, m.page) && m3.skip == 0 && m3.depth == m.depth
  {
  }

  lemma {:induction false} MachineWalksTree(f: Forest, m: Machine)
    requires WellFormed(f) && m.skip == 0
    ensures Walks(f, m, Run(Events(f), m))
  {
    match f {
      case Empty =>
      case Text(data, next) =>
        RunOne(Data(data), Events(next), m);
        MachineWalksTree(next, Step(m, Data(data)));
      case Elem(tag, kids, next) =>
        RunElem(tag, kids, next, m);
        var m1 := Step(m, Start(tag));
        var m2 := Run(Events(kids), m1);
        NotStuck(kids);
        if Skips(tag) {
          HiddenForest(kids, m1);
        } else {
          StartNotSkipped(tag, m);
          MachineWalksTree(kids, m1);
        }
        ElementEnds(tag, kids, m, m2);
        MachineWalksTree(next, Step(m2, End(tag)));
        WalkAround(tag, kids, next, m.depth, m.page);
      case Void(tag, next) =>
        RunOne(Start(tag), Events(next), m);
        MachineWalksTree(next, Step(m, Start(tag)));
    }
  }

  lemma StartNotSkipped(tag: string, m: Machine)
    requires !Skips(tag)
    ensures Step(m, Start(tag)).skip == m.skip
  {
  }

  lemma WalkAround(tag: string, kids: Forest, next: Forest, depth: nat, p: Page)
    ensures Walk(Elem(tag, kids, next), depth, p) == Walk(next, depth, Around(tag, kids, depth, p))
  {
  }

  // The lines are those of the tree reading, for every well-formed document.
  lemma OutlineOfTree(f: Forest)
    requires WellFormed(f)
    ensures OutlineLines(Events(f)) == Flush(Walk(f, 0, Page([], "", 0, 0))).lines
  {
    MachineWalksTree(f, Initial);
  }

  // ---- where the text is placed

  // A block or list item that opens on an empty buffer only sets the indent.
  lemma OpenOnEmpty(tag: string, depth: nat, p: Page)
    requires Breaks(tag) && HeadingLevel(tag) == 0 && p.buffer == ""
    ensures Open(tag, depth, p) == p.(indent := BodyIndent(p.heading, depth))
  {
    assert Collapse("") == "";
  }

  // An element that ends writes the waiting text as one line.
  lemma CloseWrites(tag: string, depth: nat, p: Page)
    requires Breaks(tag) && (p.buffer == "" || Collapse(p.buffer) != "")
    ensures Close(tag, depth, p).buffer == "" && Close(tag, depth, p).heading == p.heading
    ensures Close(tag, depth, p).lines ==
            if p.buffer == "" then p.lines else p.lines + [Pad(2 * p.indent) + Collapse(p.buffer)]
  {
    assert Collapse("") == "";
  }

  lemma WalkElem(tag: string, kids: Forest, next: Forest, depth: nat, p: Page)
    requires !Skips(tag) && !IsList(tag)
    ensures Walk(Elem(tag, kids, next), depth, p) ==
            Walk(next, depth, Close(tag, depth, Walk(kids, depth, Open(tag, depth, p))))
  {
  }

  // From page p to page q, exactly one line of body text was added, `depth` lists deep.
  predicate WritesLine(p: Page, q: Page, depth: nat, text: string) {
    && q.lines == p.lines + [Pad(2 * BodyIndent(p.heading, depth)) + Collapse(text)]
    && q.buffer == "" && q.heading == p.heading
  }

  // A list around some content adds one level and no line of its own.
  lemma WalkList(list: string, kids: Forest, depth: nat, p: Page, level: nat, text: string)
    requires (list == "ul" || list == "ol") && p.buffer == ""
    requires var p1 := p.(indent := BodyIndent(p.heading, depth + 1));
             WritesLine(p1, Walk(kids, depth + 1, p1), level, text)
    ensures WritesLine(p, Walk(Elem(list, kids, Empty), depth, p), level, text)
  {
    TagFacts();
    OpenOnEmpty(list, depth + 1, p);
    CloseWrites(list, depth, Walk(kids, depth + 1, p.(indent := BodyIndent(p.heading, depth + 1))));
  }

  lemma WalkText(text: string, depth: nat, p: Page)
    requires p.buffer == ""
    ensures Walk(Text(text, Empty), depth, p) == p.(buffer := text)
  {
    assert "" + text == text;
  }

  lemma TagFacts()
    ensures !Skips("p") && !IsList("p") && Breaks("p") && HeadingLevel("p") == 0
    ensures !Skips("li") && !IsList("li") && Breaks("li") && HeadingLevel("li") == 0
    ensures !Skips("ul") && IsList("ul") && Breaks("ul") && HeadingLevel("ul") == 0
    ensures !Skips("ol") && IsList("ol") && Breaks("ol") && HeadingLevel("ol") == 0
  {
  }

  // A paragraph, from an empty buffer.
  lemma WalkParagraph(text: string, depth: nat, p: Page)
    requires p.buffer == "" && Collapse(text) != ""
    ensures Walk(Elem("p", Text(text, Empty), Empty), depth, p).lines ==
            p.lines + [Pad(2 * BodyIndent(p.heading, depth)) + Collapse(text)]
    ensures Walk(Elem("p", Text(text, Empty), Empty), depth, p).buffer == ""
  {
    TagFacts();
    OpenOnEmpty("p", depth, p);
    var p1 := Open("p", depth, p);
    WalkText(text, depth, p1);
    CloseWrites("p", depth, p1.(buffer := text));
    assert text != "" by { assert Collapse("") == ""; }
  }

  function HeadingTag(level: nat): string
    requires 1 <= level <= 6
  {
    ['h', '0' + level as char]
  }

  lemma HeadingTagFacts(level: nat)
    requires 1 <= level <= 6
    ensures HeadingLevel(HeadingTag(level)) == level && !Skips(HeadingTag(level)) && !IsList(HeadingTag(level))
  {
    assert |HeadingTag(level)| == 2;
    assert HeadingTag(level)[0] == 'h';
  }

  lemma HeadingOpens(tag: string, level: nat, p: Page)
    requires HeadingLevel(tag) == level > 0 && p.buffer == ""
    ensures Open(tag, 0, p) == p.(heading := level, indent := level - 1)
  {
    assert Collapse("") == "";
  }

  lemma HeadingCloses(tag: string, level: nat, p: Page)
    requires HeadingLevel(tag) == level > 0 && !IsList(tag) && Collapse(p.buffer) != ""
    ensures Close(tag, 0, p) == p.(buffer := "", lines := p.lines + [Pad(2 * p.indent) + Collapse(p.buffer)])
  {
  }

  lemma WalkHeading(level: nat, title: string, next: Forest)
    requires 1 <= level <= 6 && Collapse(title) != ""
    ensures Walk(Elem(HeadingTag(level), Text(title, Empty), next), 0, Page([], "", 0, 0)) ==
            Walk(next, 0, Page([Pad(2 * (level - 1)) + Collapse(title)], "", level, level - 1))
  {
    var h, p := HeadingTag(level), Page([], "", 0, 0);
    HeadingTagFacts(level);
    HeadingOpens(h, level, p);
    var p1 := Page([], "", level, level - 1);
    WalkText(title, 0, p1);
    HeadingCloses(h, level, p1.(buffer := title));
    assert [] + [Pad(2 * (level - 1)) + Collapse(title)] == [Pad(2 * (level - 1)) + Collapse(title)];
    WalkElem(h, Text(title, Empty), next, 0, p);
  }

  // Body text sits one level under the heading before it.
  lemma TextUnderHeading(level: nat, title: string, text: string)
    requires 1 <= level <= 6 && Collapse(title) != "" && Collapse(text) != ""
    ensures OutlineLines(Events(Elem(HeadingTag(level), Text(title, Empty), Elem("p", Text(text, Empty), Empty)))) ==
              [Pad(2 * (level - 1)) + Collapse(title), Pad(2 * level) + Collapse(text)]
  {
    var body := Elem("p", Text(text, Empty), Empty);
    TagFacts();
    HeadingTagFacts(level);
    OutlineOfTree(Elem(HeadingTag(level), Text(title, Empty), body));
    WalkHeading(level, title, body);
    WalkParagraph(text, 0, Page([Pad(2 * (level - 1)) + Collapse(title)], "", level, level - 1));
    assert Collapse("") == "";
  }

  const OWN_LINE: set<string> :=
    {"h1", "h2", "h3", "h4", "h5", "h6", "li", "p", "div", "section", "article", "main", "br", "tr", "table",
     "blockquote", "pre", "ul", "ol", "dl", "dt", "dd", "figure", "figcaption"}

  lemma OwnLineTags(tag: string)
    ensures Breaks(tag) <==> tag in OWN_LINE
    ensures tag in OWN_LINE ==> tag !in SKIPPED
  {
    assert |tag| == 2 ==> tag == [tag[0], tag[1]];
    if HeadingLevel(tag) > 0 {
      assert tag[1] == '1' || tag[1] == '2' || tag[1] == '3' || tag[1] == '4' || tag[1] == '5' || tag[1] == '6';
    }
  }

  // The page after text and the start of an element.
  lemma TextThenOpen(tag: string, depth: nat, a: string)
    requires Collapse(a) != ""
    ensures var q := Open(tag, depth, Page([], a, 0, 0));
            if Breaks(tag) then q.lines == [Collapse(a)] && q.buffer == "" else q == Page([], a, 0, 0)
  {
    assert Pad(0) + Collapse(a) == Collapse(a);
  }

  // The lines after the end of the element, and of the document.
  lemma TextThenClose(tag: string, q: Page, b: string)
    requires q.buffer == "" && Collapse(b) != "" && Breaks(tag)
    ensures var lines := Flush(Close(tag, 0, q.(buffer := b))).lines;
            |lines| == |q.lines| + 1 && lines[..|q.lines|] == q.lines && Solid(lines[|q.lines|]) == Solid(b)
  {
    assert Collapse("") == "";
    PadBlank(2 * q.indent, Collapse(b));
    CollapseKeepsContent(b);
  }

  lemma WalkTextElem(tag: string, a: string, b: string)
    requires !Skips(tag)
    ensures var q := Open(tag, if IsList(tag) then 1 else 0, Page([], a, 0, 0));
            Walk(Text(a, Elem(tag, Text(b, Empty), Empty)), 0, Page([], "", 0, 0)) ==
            Close(tag, 0, q.(buffer := q.buffer + b))
  {
    var inner := if IsList(tag) then 1 else 0;
    var p := Page([], a, 0, 0);
    assert "" + a == a;
    WalkAround(tag, Text(b, Empty), Empty, 0, p);
    assert Walk(Text(b, Empty), inner, Open(tag, inner, p)) ==
           Open(tag, inner, p).(buffer := Open(tag, inner, p).buffer + b);
  }

  lemma TextAndElemPage(tag: string, a: string, b: string, q: Page)
    requires !Skips(tag) && q == Open(tag, if IsList(tag) then 1 else 0, Page([], a, 0, 0))
    ensures OutlineLines(Events(Text(a, Elem(tag, Text(b, Empty), Empty)))) ==
            Flush(Close(tag, 0, q.(buffer := q.buffer + b))).lines
  {
    assert WellFormed(Text(b, Empty));
    assert WellFormed(Elem(tag, Text(b, Empty), Empty));
    OutlineOfTree(Text(a, Elem(tag, Text(b, Empty), Empty)));
    WalkTextElem(tag, a, b);
  }

  // An element that starts no line leaves the text in the buffer to its end.
  lemma Continues(tag: string, text: string)
    requires !Breaks(tag)
    ensures Flush(Close(tag, 0, Page([], text, 0, 0))).lines == if Collapse(text) == "" then [] else [Collapse(text)]
  {
    assert Pad(0) + Collapse(text) == Collapse(text);
  }

  lemma TextAndElem(tag: string, a: string, b: string)
    requires !Skips(tag) && Collapse(a) != "" && Collapse(b) != ""
    ensures var lines := OutlineLines(Events(Text(a, Elem(tag, Text(b, Empty), Empty))));
            if Breaks(tag) then |lines| == 2 && lines[0] == Collapse(a) && Solid(lines[1]) == Solid(b)
            else lines == if Collapse(a + b) == "" then [] else [Collapse(a + b)]
  {
    var q := Open(tag, if IsList(tag) then 1 else 0, Page([], a, 0, 0));
    TextAndElemPage(tag, a, b, q);
    TextThenOpen(tag, if IsList(tag) then 1 else 0, a);
    if Breaks(tag) {
      assert q.buffer + b == b;
      TextThenClose(tag, q, b);
    } else {
      Continues(tag, a + b);
    }
  }

  lemma BlankPart(a: string, b: string)
    requires Blank(a + b)
    ensures Blank(a)
  {
    assert forall i :: 0 <= i < |a| ==> (a + b)[i] == a[i];
  }

  // The text of an element stands on a line of its own, if it has one of these
  // tags; otherwise it continues the line.
  lemma OwnLine(tag: string, a: string, b: string)
    requires tag !in SKIPPED && Collapse(a) != "" && Collapse(b) != ""
    ensures var lines := OutlineLines(Events(Text(a, Elem(tag, Text(b, Empty), Empty))));
            if tag in OWN_LINE then |lines| == 2 && lines[0] == Collapse(a) && Solid(lines[1]) == Solid(b)
            else lines == [Collapse(a + b)]
  {
    OwnLineTags(tag);
    TextAndElem(tag, a, b);
    CollapseShape(a);
    CollapseShape(a + b);
    if Blank(a + b) {
      BlankPart(a, b);
    }
  }

  // An item inside n + 1 nested lists of one kind.
  function Nested(list: string, n: nat, text: string): Forest {
    if n == 0 then Elem(list, Elem("li", Text(text, Empty), Empty), Empty)
    else Elem(list, Nested(list, n - 1, text), Empty)
  }

  lemma {:induction false} NestedWellFormed(list: string, n: nat, text: string)
    ensures WellFormed(Nested(list, n, text))
  {
    if n == 0 {
      assert WellFormed(Text(text, Empty));
      assert WellFormed(Elem("li", Text(text, Empty), Empty));
    } else {
      NestedWellFormed(list, n - 1, text);
    }
  }

  lemma WalkItem(depth: nat, text: string, p: Page)
    requires Collapse(text) != "" && p.buffer == ""
    ensures WritesLine(p, Walk(Elem("li", Text(text, Empty), Empty), depth, p), depth, text)
  {
    TagFacts();
    OpenOnEmpty("li", depth, p);
    var p1 := Open("li", depth, p);
    WalkText(text, depth, p1);
    CloseWrites("li", depth, p1.(buffer := text));
    assert text != "" by { assert Collapse("") == ""; }
  }

  lemma WalkNestedZero(list: string, depth: nat, text: string, p: Page)
    requires (list == "ul" || list == "ol") && Collapse(text) != "" && p.buffer == ""
    ensures WritesLine(p, Walk(Nested(list, 0, text), depth, p), depth + 1, text)
  {
    WalkItem(depth + 1, text, p.(indent := BodyIndent(p.heading, depth + 1)));
    WalkList(list, Elem("li", Text(text, Empty), Empty), depth, p, depth + 1, text);
  }

  lemma WalkOneMore(list: string, kids: Forest, f: Forest, depth: nat, level: nat, text: string, p: Page)
    requires (list == "ul" || list == "ol") && p.buffer == "" && f == Elem(list, kids, Empty)
    requires var p1 := p.(indent := BodyIndent(p.heading, depth + 1));
             WritesLine(p1, Walk(kids, depth + 1, p1), level, text)
    ensures WritesLine(p, Walk(f, depth, p), level, text)
  {
    WalkList(list, kids, depth, p, level, text);
  }

  lemma {:induction false} WalkNested(list: string, n: nat, depth: nat, text: string, p: Page)
    requires (list == "ul" || list == "ol") && Collapse(text) != "" && p.buffer == ""
    ensures WritesLine(p, Walk(Nested(list, n, text), depth, p), depth + n + 1, text)
  {
    if n == 0 {
      WalkNestedZero(list, depth, text, p);
    } else {
      var p1 := p.(indent := BodyIndent(p.heading, depth + 1));
      WalkNested(list, n - 1, depth + 1, text, p1);
      WalkOneMore(list, Nested(list, n - 1, text), Nested(list, n, text), depth, depth + n + 1, text, p);
    }
  }

  // Nested lists go one level deeper each, up to six levels.
  lemma NestedListIndent(list: string, n: nat, text: string)
    requires (list == "ul" || list == "ol") && Collapse(text) != ""
    ensures OutlineLines(Events(Nested(list, n, text))) == [Pad(2 * (if n <= 6 then n else 6)) + Collapse(text)]
  {
    WalkNested(list, n, 0, text, Page([], "", 0, 0));
    NestedWellFormed(list, n, text);
    OutlineOfTree(Nested(list, n, text));
    assert Collapse("") == "";
  }
}
