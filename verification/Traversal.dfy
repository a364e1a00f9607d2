// Whole traversals: a client that follows `nextCursor` until it is absent,
// while other clients may change the table between two page fetches.

module Traversal {
  import opened Options
  import opened Keyset
  import opened Timestamps
  import Lex
  import opened Sequences

  datatype Walk = Walk(pages: seq<seq<Row>>, finished: bool)

  // tables[i] is the (filtered) table as the i-th page fetch finds it.
  function Follow(tables: seq<seq<Row>>, o: Order, cursor: Option<string>, size: nat): Walk
    requires o.sort in TIME_SORTS && size > 0
  {
    if tables == [] then Walk([], false)
    else
      match PageOf(tables[0], o, cursor, size)
      case BadRequest => Walk([], false)
      case Page(rows, next) =>
        if next.None? then Walk([rows], true)
        else
          var w := Follow(tables[1..], o, next, size);
          Walk([rows] + w.pages, w.finished)
  }

  // The same walk with positions in place of cursor texts.
  function FollowFrom(tables: seq<seq<Row>>, o: Order, p: Position, size: nat): Walk
    requires o.sort in TIME_SORTS && size > 0
  {
    if tables == [] then Walk([], false)
    else
      var rest := Remaining(tables[0], o, p);
      if |rest| <= size then Walk([rest], true)
      else
        var w := FollowFrom(tables[1..], o, After(KeyOf(rest[size - 1], o.sort)), size);
        Walk([rest[..size]] + w.pages, w.finished)
  }

  // The cursor on a page leads to the position after its last row.
  lemma PageCursor(table: seq<Row>, o: Order, cursor: Option<string>, size: nat, p: Position)
    requires o.sort in TIME_SORTS && size > 0 && PositionOf(cursor) == Some(p)
    ensures var rest := Remaining(table, o, p);
            var page := PageOf(table, o, cursor, size);
            if |rest| <= size then page == Page(rest, None)
            else page.Page? && page.rows == rest[..size] && page.next.Some? &&
                 PositionOf(page.next) == Some(After(KeyOf(rest[size - 1], o.sort)))
  {
    var rest := Remaining(table, o, p);
    if |rest| > size {
      CursorPosition(rest[size - 1], o.sort);
    }
  }

  // The cursor texts carry the positions without loss.
  lemma {:induction false} CursorsCarryPositions(
      tables: seq<seq<Row>>, o: Order, cursor: Option<string>, size: nat, p: Position)
    requires o.sort in TIME_SORTS && size > 0 && PositionOf(cursor) == Some(p)
    ensures Follow(tables, o, cursor, size) == FollowFrom(tables, o, p, size)
  {
    if tables == [] {
    } else {
      var rest := Remaining(tables[0], o, p);
      PageCursor(tables[0], o, cursor, size, p);
      if |rest| > size {
        var next := PageOf(tables[0], o, cursor, size).next;
        CursorsCarryPositions(tables[1..], o, next, size, After(KeyOf(rest[size - 1], o.sort)));
      }
    }
  }

  // All the rows of a walk.
  function Listed(tables: seq<seq<Row>>, o: Order, p: Position, size: nat): seq<Row>
    requires o.sort in TIME_SORTS && size > 0
  {
    Concat(FollowFrom(tables, o, p, size).pages)
  }

  lemma ListedStep(tables: seq<seq<Row>>, o: Order, p: Position, size: nat)
    requires o.sort in TIME_SORTS && size > 0 && tables != []
    ensures var rest := Remaining(tables[0], o, p);
            Listed(tables, o, p, size) ==
            if |rest| <= size then rest
            else rest[..size] + Listed(tables[1..], o, After(KeyOf(rest[size - 1], o.sort)), size)
  {
    var rest := Remaining(tables[0], o, p);
    if |rest| <= size {
      assert Concat([rest]) == rest + Concat([]) == rest;
    } else {
      var w := FollowFrom(tables[1..], o, After(KeyOf(rest[size - 1], o.sort)), size);
      assert ([rest[..size]] + w.pages)[1..] == w.pages;
    }
  }

  predicate AllDistinct(tables: seq<seq<Row>>) {
    forall i :: 0 <= i < |tables| ==> DistinctIds(tables[i])
  }

  predicate HasId(rows: seq<Row>, id: string) {
    exists i :: 0 <= i < |rows| && rows[i].id == id
  }

  // ---- the order of the listed rows, whatever happens to the table

  predicate AllPast(rows: seq<Row>, o: Order, p: Position)
    requires o.sort in TIME_SORTS
  {
    forall i :: 0 <= i < |rows| ==> Past(p, KeyOf(rows[i], o.sort), o.descending)
  }

  lemma RemainingPast(table: seq<Row>, o: Order, p: Position)
    requires o.sort in TIME_SORTS
    ensures AllPast(Remaining(table, o, p), o, p)
  {
    var rest := Remaining(table, o, p);
    forall i | 0 <= i < |rest| ensures Past(p, KeyOf(rest[i], o.sort), o.descending) {
      RemainingMembers(table, o, p, rest[i]);
    }
  }

  lemma JoinOrdered(page: seq<Row>, tail: seq<Row>, o: Order, p: Position)
    requires o.sort in TIME_SORTS && page != [] && Ordered(page, o) && Ordered(tail, o)
    requires AllPast(page, o, p) && AllPast(tail, o, After(KeyOf(page[|page| - 1], o.sort)))
    ensures Ordered(page + tail, o) && AllPast(page + tail, o, p)
  {
    var last := KeyOf(page[|page| - 1], o.sort);
    forall i, j | 0 <= i < |page| && 0 <= j < |tail|
      ensures Before(o.descending, KeyOf(page[i], o.sort), KeyOf(tail[j], o.sort))
    {
      if i < |page| - 1 {
        BeforeTransitive(o.descending, KeyOf(page[i], o.sort), last, KeyOf(tail[j], o.sort));
      }
    }
    forall j | 0 <= j < |tail| ensures Past(p, KeyOf(tail[j], o.sort), o.descending) {
      if p.After? {
        BeforeTransitive(o.descending, p.key, last, KeyOf(tail[j], o.sort));
      }
    }
  }

  lemma {:induction false} ListedOrdered(tables: seq<seq<Row>>, o: Order, p: Position, size: nat)
    requires o.sort in TIME_SORTS && size > 0 && AllDistinct(tables)
    ensures Ordered(Listed(tables, o, p, size), o) && AllPast(Listed(tables, o, p, size), o, p)
  {
    if tables == [] {
    } else {
      var rest := Remaining(tables[0], o, p);
      RemainingOrdered(tables[0], o, p);
      RemainingPast(tables[0], o, p);
      ListedStep(tables, o, p, size);
      if |rest| > size {
        var next := After(KeyOf(rest[size - 1], o.sort));
        ListedOrdered(tables[1..], o, next, size);
        JoinPage(rest, size, Listed(tables[1..], o, next, size), o, p);
      }
    }
  }

  // Ordered, and all of it past the position.
  predicate OrderedFrom(rows: seq<Row>, o: Order, p: Position)
    requires o.sort in TIME_SORTS
  {
    Ordered(rows, o) && AllPast(rows, o, p)
  }

  lemma JoinPage(rest: seq<Row>, size: nat, later: seq<Row>, o: Order, p: Position)
    requires o.sort in TIME_SORTS && 0 < size < |rest| && OrderedFrom(rest, o, p)
    requires OrderedFrom(later, o, After(KeyOf(rest[size - 1], o.sort)))
    ensures OrderedFrom(rest[..size] + later, o, p)
  {
    JoinOrdered(rest[..size], later, o, p);
  }

  // Each listed row was in the table that one of the fetches found.
  lemma {:induction false} ListedFrom(tables: seq<seq<Row>>, o: Order, p: Position, size: nat, r: Row) returns (i: nat)
    requires o.sort in TIME_SORTS && size > 0 && r in Listed(tables, o, p, size)
    ensures i < |tables| && r in tables[i]
  {
    ListedStep(tables, o, p, size);
    var rest := Remaining(tables[0], o, p);
    if |rest| > size && r !in rest[..size] {
      var j := ListedFrom(tables[1..], o, After(KeyOf(rest[size - 1], o.sort)), size, r);
      i := j + 1;
    } else {
      RemainingMembers(tables[0], o, p, r);
      i := 0;
    }
  }

  // ---- completeness

  // How many pages a walk takes.
  function PageCount(tables: seq<seq<Row>>, o: Order, p: Position, size: nat): nat
    requires o.sort in TIME_SORTS && size > 0
  {
    |FollowFrom(tables, o, p, size).pages|
  }

  predicate PresentThroughout(tables: seq<seq<Row>>, pages: nat, id: string) {
    forall i :: 0 <= i < pages && i < |tables| ==> HasId(tables[i], id)
  }

  // Seen from the cursor, what is still to come is ahead, and what it has
  // passed is behind. A row never moves back if no change of its sort value
  // takes it to an earlier place of the listing.
  predicate NeverMovesBack(tables: seq<seq<Row>>, o: Order)
    requires o.sort in TIME_SORTS
  {
    forall i, j, a, b :: 0 <= i <= j < |tables| && a in tables[i] && b in tables[j] && a.id == b.id ==>
      !Before(o.descending, KeyOf(b, o.sort), KeyOf(a, o.sort))
  }

  // No change takes a row to a later place.
  predicate NeverMovesOn(tables: seq<seq<Row>>, o: Order)
    requires o.sort in TIME_SORTS
  {
    NeverMovesBack(tables, Order(o.sort, !o.descending))
  }

  lemma DropFirst(tables: seq<seq<Row>>, o: Order)
    requires o.sort in TIME_SORTS && tables != [] && AllDistinct(tables) && NeverMovesBack(tables, o)
    ensures AllDistinct(tables[1..]) && NeverMovesBack(tables[1..], o)
  {
    assert forall i :: 0 <= i < |tables| - 1 ==> tables[1..][i] == tables[i + 1];
  }

  predicate Ahead(table: seq<Row>, o: Order, p: Position, id: string)
    requires o.sort in TIME_SORTS
  {
    forall i :: 0 <= i < |table| && table[i].id == id ==> Past(p, KeyOf(table[i], o.sort), o.descending)
  }

  // A row that a fetch finds ahead of the cursor is on its page or comes after it.
  lemma FetchCovers(table: seq<Row>, o: Order, p: Position, size: nat, id: string)
    requires o.sort in TIME_SORTS && size > 0 && DistinctIds(table) && HasId(table, id) && Ahead(table, o, p, id)
    ensures var rest := Remaining(table, o, p);
            if |rest| <= size then HasId(rest, id) else HasId(rest[..size], id) || HasId(rest[size..], id)
  {
    var i :| 0 <= i < |table| && table[i].id == id;
    var rest := Remaining(table, o, p);
    RemainingMembers(table, o, p, table[i]);
    var k :| 0 <= k < |rest| && rest[k] == table[i];
    if |rest| > size {
      SplitId(rest, size, k);
    }
  }

  lemma SplitId(rest: seq<Row>, size: nat, k: nat)
    requires size <= |rest| && k < |rest|
    ensures if k < size then HasId(rest[..size], rest[k].id) else HasId(rest[size..], rest[k].id)
  {
    if k < size {
      assert rest[..size][k] == rest[k];
    } else {
      assert rest[size..][k - size] == rest[k];
    }
  }

  lemma StillAhead(tables: seq<seq<Row>>, o: Order, next: Position, id: string)
    requires o.sort in TIME_SORTS && |tables| > 1 && NeverMovesBack(tables, o)
    requires next.After? && HasId(tables[0], id) && Ahead(tables[0], o, next, id)
    ensures Ahead(tables[1], o, next, id)
  {
    var i :| 0 <= i < |tables[0]| && tables[0][i].id == id;
    var r := tables[0][i];
    forall j | 0 <= j < |tables[1]| && tables[1][j].id == id
      ensures Past(next, KeyOf(tables[1][j], o.sort), o.descending)
    {
      assert r in tables[0] && tables[1][j] in tables[1];
      BeforeNotBefore(o.descending, next.key, KeyOf(r, o.sort), KeyOf(tables[1][j], o.sort));
    }
  }

  lemma HasIdJoin(a: seq<Row>, b: seq<Row>, id: string)
    ensures HasId(a + b, id) <==> HasId(a, id) || HasId(b, id)
  {
    if HasId(a, id) {
      var i :| 0 <= i < |a| && a[i].id == id;
      assert (a + b)[i].id == id;
    } else if HasId(b, id) {
      var i :| 0 <= i < |b| && b[i].id == id;
      assert (a + b)[|a| + i].id == id;
    }
  }

  // At some fetch the row lies ahead, after the page, and the next fetch finds
  // it behind the cursor of that page.
  predicate FallsBehind(tables: seq<seq<Row>>, o: Order, p: Position, size: nat, id: string)
    requires o.sort in TIME_SORTS && size > 0
    decreases |tables|
  {
    |tables| > 1 &&
    var rest := Remaining(tables[0], o, p);
    |rest| > size &&
    var next := After(KeyOf(rest[size - 1], o.sort));
    (HasId(rest[size..], id) && !Ahead(tables[1], o, next, id)) || FallsBehind(tables[1..], o, next, size, id)
  }

  // The traversal comes to its end, and every fetch finds the row in the table.
  predicate Stays(tables: seq<seq<Row>>, o: Order, p: Position, size: nat, id: string)
    requires o.sort in TIME_SORTS && size > 0
  {
    FollowFrom(tables, o, p, size).finished && PresentThroughout(tables, PageCount(tables, o, p, size), id)
  }

  lemma StaysLater(tables: seq<seq<Row>>, o: Order, p: Position, size: nat, id: string)
    requires o.sort in TIME_SORTS && size > 0 && Stays(tables, o, p, size, id)
    ensures tables != [] && HasId(tables[0], id)
    ensures var rest := Remaining(tables[0], o, p);
            |rest| > size ==> Stays(tables[1..], o, After(KeyOf(rest[size - 1], o.sort)), size, id)
  {
    var rest := Remaining(tables[0], o, p);
    if |rest| > size {
      assert |FollowFrom(tables, o, p, size).pages| == 1 +
        PageCount(tables[1..], o, After(KeyOf(rest[size - 1], o.sort)), size);
    }
  }

  // A row that stays and never falls behind is listed, however the sort values change.
  lemma {:induction false} ListedUnlessBehind(tables: seq<seq<Row>>, o: Order, p: Position, size: nat, id: string)
    requires o.sort in TIME_SORTS && size > 0 && AllDistinct(tables) && Stays(tables, o, p, size, id)
    requires Ahead(tables[0], o, p, id) && !FallsBehind(tables, o, p, size, id)
    ensures HasId(Listed(tables, o, p, size), id)
    decreases |tables|
  {
    var rest := Remaining(tables[0], o, p);
    StaysLater(tables, o, p, size, id);
    ListedStep(tables, o, p, size);
    FetchCovers(tables[0], o, p, size, id);
    if |rest| > size {
      var next := After(KeyOf(rest[size - 1], o.sort));
      if !HasId(rest[..size], id) {
        assert AllDistinct(tables[1..]);
        StaysLater(tables[1..], o, next, size, id);
        ListedUnlessBehind(tables[1..], o, next, size, id);
      }
      HasIdJoin(rest[..size], Listed(tables[1..], o, next, size), id);
    }
  }

  lemma {:induction false} NeverFallsBehind(tables: seq<seq<Row>>, o: Order, p: Position, size: nat, id: string)
    requires o.sort in TIME_SORTS && size > 0 && AllDistinct(tables) && NeverMovesBack(tables, o)
    ensures !FallsBehind(tables, o, p, size, id)
    decreases |tables|
  {
    var rest := if tables == [] then [] else Remaining(tables[0], o, p);
    if |tables| > 1 && |rest| > size {
      var next := After(KeyOf(rest[size - 1], o.sort));
      if HasId(rest[size..], id) {
        LaterIsAhead(tables[0], o, p, size, id);
        StillAhead(tables, o, next, id);
      }
      DropFirst(tables, o);
      NeverFallsBehind(tables[1..], o, next, size, id);
    }
  }

  // The rows after a page are in the table, and ahead of its cursor.
  lemma LaterIsAhead(table: seq<Row>, o: Order, p: Position, size: nat, id: string)
    requires o.sort in TIME_SORTS && size > 0 && DistinctIds(table) && |Remaining(table, o, p)| > size
    requires HasId(Remaining(table, o, p)[size..], id)
    ensures var next := After(KeyOf(Remaining(table, o, p)[size - 1], o.sort));
            HasId(table, id) && Ahead(table, o, next, id) && !HasId(Remaining(table, o, p)[..size], id)
  {
    var rest := Remaining(table, o, p);
    RemainingOrdered(table, o, p);
    RemainingDistinct(table, o, p);
    var r := AfterPage(rest, o, size, id);
    RemainingMembers(table, o, p, r);
    OnlyOne(table, o, After(KeyOf(rest[size - 1], o.sort)), r);
  }

  lemma AfterPage(rest: seq<Row>, o: Order, size: nat, id: string) returns (r: Row)
    requires o.sort in TIME_SORTS && 0 < size < |rest| && Ordered(rest, o) && DistinctIds(rest)
             && HasId(rest[size..], id)
    ensures r in rest && r.id == id && Before(o.descending, KeyOf(rest[size - 1], o.sort), KeyOf(r, o.sort))
    ensures !HasId(rest[..size], id)
  {
    var k :| 0 <= k < |rest[size..]| && rest[size..][k].id == id;
    r := rest[size + k];
  }

  lemma OnlyOne(table: seq<Row>, o: Order, p: Position, r: Row)
    requires o.sort in TIME_SORTS && DistinctIds(table) && r in table && Past(p, KeyOf(r, o.sort), o.descending)
    ensures HasId(table, r.id) && Ahead(table, o, p, r.id)
  {
    var i :| 0 <= i < |table| && table[i] == r;
  }

  // Nothing that is behind the cursor comes after it if no row moves on.
  lemma BehindStaysBehind(tables: seq<seq<Row>>, o: Order, p: Position, size: nat, id: string)
    requires o.sort in TIME_SORTS && size > 0 && tables != [] && AllDistinct(tables) && NeverMovesOn(tables, o)
    requires !Ahead(tables[0], o, p, id)
    ensures !HasId(Listed(tables, o, p, size), id)
  {
    var i :| 0 <= i < |tables[0]| && tables[0][i].id == id && !Past(p, KeyOf(tables[0][i], o.sort), o.descending);
    var listed, a := Listed(tables, o, p, size), tables[0][i];
    ListedOrdered(tables, o, p, size);
    if HasId(listed, id) {
      var k :| 0 <= k < |listed| && listed[k].id == id;
      var n := ListedFrom(tables, o, p, size, listed[k]);
      assert a in tables[0];
      BeforeNotBefore(o.descending, p.key, KeyOf(listed[k], o.sort), KeyOf(a, o.sort));
    }
  }

  // A row that falls behind was ahead of the cursor at some fetch.
  lemma {:induction false} BehindWasAhead(tables: seq<seq<Row>>, o: Order, p: Position, size: nat, id: string)
      returns (n: nat, r: Row)
    requires o.sort in TIME_SORTS && size > 0 && FallsBehind(tables, o, p, size, id)
    ensures n < |tables| && r in tables[n] && r.id == id && Past(p, KeyOf(r, o.sort), o.descending)
    decreases |tables|
  {
    var rest := Remaining(tables[0], o, p);
    var next := After(KeyOf(rest[size - 1], o.sort));
    if FallsBehind(tables[1..], o, next, size, id) {
      n, r := BehindWasAhead(tables[1..], o, next, size, id);
      n := n + 1;
      RemainingMembers(tables[0], o, p, rest[size - 1]);
      PastLater(o, p, rest[size - 1], r);
    } else {
      var k :| 0 <= k < |rest[size..]| && rest[size..][k].id == id;
      n, r := 0, rest[size + k];
      RemainingMembers(tables[0], o, p, r);
    }
  }

  lemma BehindNotOnPage(tables: seq<seq<Row>>, o: Order, page: seq<Row>, last: Row, size: nat, id: string)
    requires o.sort in TIME_SORTS && size > 0 && tables != [] && NeverMovesOn(tables, o)
    requires forall a :: a in page ==> a in tables[0] && UpTo(o, a, last)
    requires FallsBehind(tables[1..], o, After(KeyOf(last, o.sort)), size, id)
    ensures !HasId(page, id)
  {
    var n, r := BehindWasAhead(tables[1..], o, After(KeyOf(last, o.sort)), size, id);
    assert r in tables[n + 1];
    PageDiffers(tables, o, page, n + 1, r, last);
  }

  lemma PageDiffers(tables: seq<seq<Row>>, o: Order, page: seq<Row>, n: nat, r: Row, last: Row)
    requires o.sort in TIME_SORTS && n < |tables| && NeverMovesOn(tables, o) && r in tables[n]
    requires forall a :: a in page ==> a in tables[0] && UpTo(o, a, last)
    requires Before(o.descending, KeyOf(last, o.sort), KeyOf(r, o.sort))
    ensures !HasId(page, r.id)
  {
    if HasId(page, r.id) {
      var k :| 0 <= k < |page| && page[k].id == r.id;
      NotRepeated(tables, o, n, page[k], r, last);
    }
  }

  // Where rows never move on, a row that falls behind is not listed.
  lemma {:induction false} BehindIsMissed(tables: seq<seq<Row>>, o: Order, p: Position, size: nat, id: string)
    requires o.sort in TIME_SORTS && size > 0 && AllDistinct(tables) && NeverMovesOn(tables, o)
    requires FallsBehind(tables, o, p, size, id)
    ensures !HasId(Listed(tables, o, p, size), id)
    decreases |tables|
  {
    var rest := Remaining(tables[0], o, p);
    var next := After(KeyOf(rest[size - 1], o.sort));
    ListedStep(tables, o, p, size);
    HasIdJoin(rest[..size], Listed(tables[1..], o, next, size), id);
    DropFirst(tables, Order(o.sort, !o.descending));
    if FallsBehind(tables[1..], o, next, size, id) {
      PageSeen(tables, o, p, size);
      BehindNotOnPage(tables, o, rest[..size], rest[size - 1], size, id);
      BehindIsMissed(tables[1..], o, next, size, id);
    } else {
      LaterIsAhead(tables[0], o, p, size, id);
      BehindStaysBehind(tables[1..], o, next, size, id);
    }
  }

  // So a row that is there at every fetch is listed if and only if it never
  // falls behind the cursor.
  lemma ListedExactly(tables: seq<seq<Row>>, o: Order, p: Position, size: nat, id: string)
    requires o.sort in TIME_SORTS && size > 0 && AllDistinct(tables) && NeverMovesOn(tables, o)
    requires Stays(tables, o, p, size, id) && Ahead(tables[0], o, p, id)
    ensures HasId(Listed(tables, o, p, size), id) <==> !FallsBehind(tables, o, p, size, id)
  {
    if FallsBehind(tables, o, p, size, id) {
      BehindIsMissed(tables, o, p, size, id);
    } else {
      ListedUnlessBehind(tables, o, p, size, id);
    }
  }

  // ---- no repetition

  lemma {:induction false} ListedDistinct(tables: seq<seq<Row>>, o: Order, p: Position, size: nat)
    requires o.sort in TIME_SORTS && size > 0 && AllDistinct(tables) && NeverMovesOn(tables, o)
    ensures DistinctIds(Listed(tables, o, p, size))
  {
    if tables == [] {
    } else {
      var rest := Remaining(tables[0], o, p);
      ListedStep(tables, o, p, size);
      RemainingDistinct(tables[0], o, p);
      if |rest| > size {
        DropFirst(tables, Order(o.sort, !o.descending));
        ListedDistinct(tables[1..], o, After(KeyOf(rest[size - 1], o.sort)), size);
        PageThenLater(tables, o, p, size);
      }
    }
  }

  lemma PageThenLater(tables: seq<seq<Row>>, o: Order, p: Position, size: nat)
    requires o.sort in TIME_SORTS && size > 0 && tables != [] && AllDistinct(tables) && NeverMovesOn(tables, o)
    requires |Remaining(tables[0], o, p)| > size
    requires var last := Remaining(tables[0], o, p)[size - 1];
             DistinctIds(Listed(tables[1..], o, After(KeyOf(last, o.sort)), size))
    ensures var rest := Remaining(tables[0], o, p);
            DistinctIds(rest[..size] + Listed(tables[1..], o, After(KeyOf(rest[size - 1], o.sort)), size))
  {
    var rest := Remaining(tables[0], o, p);
    var next := After(KeyOf(rest[size - 1], o.sort));
    var page, later := rest[..size], Listed(tables[1..], o, next, size);
    DropFirst(tables, Order(o.sort, !o.descending));
    PageSeen(tables, o, p, size);
    LaterSeen(tables, o, next, size);
    ListedOrdered(tables[1..], o, next, size);
    LaterPagesDiffer(tables, o, page, later, rest[size - 1]);
    DistinctJoin(page, later);
  }

  lemma DistinctJoin(page: seq<Row>, later: seq<Row>)
    requires DistinctIds(page) && DistinctIds(later)
    requires forall a, b :: a in page && b in later ==> a.id != b.id
    ensures DistinctIds(page + later)
  {
    forall i, j | 0 <= i < j < |page + later| ensures (page + later)[i].id != (page + later)[j].id {
      if i < |page| <= j {
        assert page[i] in page && later[j - |page|] in later;
      }
    }
  }

  predicate SeenLater(tables: seq<seq<Row>>, r: Row) {
    exists n :: 0 < n < |tables| && r in tables[n]
  }

  lemma LaterSeen(tables: seq<seq<Row>>, o: Order, next: Position, size: nat)
    requires o.sort in TIME_SORTS && size > 0 && tables != []
    ensures forall r :: r in Listed(tables[1..], o, next, size) ==> SeenLater(tables, r)
  {
    forall r | r in Listed(tables[1..], o, next, size) ensures SeenLater(tables, r) {
      var n := ListedFrom(tables[1..], o, next, size, r);
      assert r in tables[n + 1];
    }
  }

  lemma PageSeen(tables: seq<seq<Row>>, o: Order, p: Position, size: nat)
    requires o.sort in TIME_SORTS && size > 0 && tables != [] && AllDistinct(tables)
    requires |Remaining(tables[0], o, p)| > size
    ensures var rest := Remaining(tables[0], o, p);
            DistinctIds(rest[..size]) && forall r :: r in rest[..size] ==> r in tables[0] && UpTo(o, r, rest[size - 1])
  {
    var rest := Remaining(tables[0], o, p);
    RemainingOrdered(tables[0], o, p);
    RemainingDistinct(tables[0], o, p);
    forall r | r in rest[..size] ensures r in tables[0] && UpTo(o, r, rest[size - 1]) {
      RemainingMembers(tables[0], o, p, r);
    }
  }

  predicate UpTo(o: Order, r: Row, last: Row)
    requires o.sort in TIME_SORTS
  {
    r == last || Before(o.descending, KeyOf(r, o.sort), KeyOf(last, o.sort))
  }

  lemma LaterPagesDiffer(tables: seq<seq<Row>>, o: Order, page: seq<Row>, later: seq<Row>, last: Row)
    requires o.sort in TIME_SORTS && tables != [] && NeverMovesOn(tables, o)
    requires forall r :: r in page ==> r in tables[0] && UpTo(o, r, last)
    requires forall r :: r in later ==>
             SeenLater(tables, r) && Before(o.descending, KeyOf(last, o.sort), KeyOf(r, o.sort))
    ensures forall a, b :: a in page && b in later ==> a.id != b.id
  {
    forall a, b | a in page && b in later ensures a.id != b.id {
      var n :| 0 < n < |tables| && b in tables[n];
      NotRepeated(tables, o, n, a, b, last);
    }
  }

  lemma RemainingDistinct(table: seq<Row>, o: Order, p: Position)
    requires o.sort in TIME_SORTS && DistinctIds(table)
    ensures DistinctIds(Remaining(table, o, p))
  {
    var rest := Remaining(table, o, p);
    RemainingOrdered(table, o, p);
    forall i, j | 0 <= i < j < |rest| ensures rest[i].id != rest[j].id {
      RemainingMembers(table, o, p, rest[i]);
      RemainingMembers(table, o, p, rest[j]);
      BeforeIrreflexive(o.descending, KeyOf(rest[i], o.sort));
    }
  }

  lemma NotRepeated(tables: seq<seq<Row>>, o: Order, n: nat, a: Row, b: Row, last: Row)
    requires o.sort in TIME_SORTS && NeverMovesOn(tables, o) && n < |tables|
    requires a in tables[0] && b in tables[n] && UpTo(o, a, last)
    requires Before(o.descending, KeyOf(last, o.sort), KeyOf(b, o.sort))
    ensures a.id != b.id
  {
    if a != last {
      BeforeTransitive(o.descending, KeyOf(a, o.sort), KeyOf(last, o.sort), KeyOf(b, o.sort));
    }
  }

  // Once listed, the row is found ahead of the cursor again.
  predicate AheadAgain(tables: seq<seq<Row>>, o: Order, p: Position, size: nat, id: string)
    requires o.sort in TIME_SORTS && size > 0
    decreases |tables|
  {
    tables != [] &&
    var rest := Remaining(tables[0], o, p);
    HasId(rest, id) || (|rest| > size && AheadAgain(tables[1..], o, After(KeyOf(rest[size - 1], o.sort)), size, id))
  }

  // Some fetch lists the row, and a later one finds it ahead again.
  predicate ComesAgain(tables: seq<seq<Row>>, o: Order, p: Position, size: nat, id: string)
    requires o.sort in TIME_SORTS && size > 0
    decreases |tables|
  {
    tables != [] &&
    var rest := Remaining(tables[0], o, p);
    |rest| > size &&
    var next := After(KeyOf(rest[size - 1], o.sort));
    (HasId(rest[..size], id) && AheadAgain(tables[1..], o, next, size, id))
      || ComesAgain(tables[1..], o, next, size, id)
  }

  predicate Repeated(rows: seq<Row>, id: string) {
    exists i, j :: 0 <= i < j < |rows| && rows[i].id == rows[j].id == id
  }

  lemma RepeatedJoin(page: seq<Row>, later: seq<Row>, id: string)
    requires DistinctIds(page)
    ensures Repeated(page + later, id) <==> (HasId(page, id) && HasId(later, id)) || Repeated(later, id)
  {
    var all := page + later;
    if HasId(page, id) && HasId(later, id) {
      var i :| 0 <= i < |page| && page[i].id == id;
      var j :| 0 <= j < |later| && later[j].id == id;
      assert all[i].id == all[|page| + j].id == id;
    }
    if Repeated(later, id) {
      var i, j :| 0 <= i < j < |later| && later[i].id == later[j].id == id;
      assert all[|page| + i].id == all[|page| + j].id == id;
    }
    if Repeated(all, id) {
      var i, j :| 0 <= i < j < |all| && all[i].id == all[j].id == id;
      if i >= |page| {
        assert later[i - |page|].id == later[j - |page|].id == id;
      } else {
        assert page[i].id == id && (j >= |page| ==> later[j - |page|].id == id);
      }
    }
  }

  // Where rows never move back, a row that stays and is ahead after a page is listed later.
  lemma ListedAfterPage(tables: seq<seq<Row>>, o: Order, p: Position, size: nat, id: string)
    requires o.sort in TIME_SORTS && size > 0 && AllDistinct(tables) && NeverMovesBack(tables, o)
    requires Stays(tables, o, p, size, id)
    requires |Remaining(tables[0], o, p)| > size && HasId(Remaining(tables[0], o, p)[size..], id)
    ensures HasId(Listed(tables[1..], o, After(KeyOf(Remaining(tables[0], o, p)[size - 1], o.sort)), size), id)
  {
    var next := After(KeyOf(Remaining(tables[0], o, p)[size - 1], o.sort));
    StaysLater(tables, o, p, size, id);
    StaysLater(tables[1..], o, next, size, id);
    LaterIsAhead(tables[0], o, p, size, id);
    StillAhead(tables, o, next, id);
    DropFirst(tables, o);
    NeverFallsBehind(tables[1..], o, next, size, id);
    ListedUnlessBehind(tables[1..], o, next, size, id);
  }

  lemma {:induction false} ListedIfAhead(tables: seq<seq<Row>>, o: Order, p: Position, size: nat, id: string)
    requires o.sort in TIME_SORTS && size > 0 && AllDistinct(tables) && NeverMovesBack(tables, o)
    requires Stays(tables, o, p, size, id)
    ensures HasId(Listed(tables, o, p, size), id) <==> AheadAgain(tables, o, p, size, id)
    decreases |tables|
  {
    var rest := Remaining(tables[0], o, p);
    StaysLater(tables, o, p, size, id);
    ListedStep(tables, o, p, size);
    if |rest| > size {
      var next := After(KeyOf(rest[size - 1], o.sort));
      if HasId(rest[size..], id) {
        ListedAfterPage(tables, o, p, size, id);
      } else {
        DropFirst(tables, o);
        ListedIfAhead(tables[1..], o, next, size, id);
      }
      PageOrLater(rest, size, Listed(tables[1..], o, next, size), id);
    }
  }

  lemma PageOrLater(rest: seq<Row>, size: nat, later: seq<Row>, id: string)
    requires size <= |rest|
    ensures HasId(rest, id) <==> HasId(rest[..size], id) || HasId(rest[size..], id)
    ensures HasId(rest[..size] + later, id) <==> HasId(rest[..size], id) || HasId(later, id)
  {
    HasIdJoin(rest[..size], later, id);
    HasIdJoin(rest[..size], rest[size..], id);
    assert rest == rest[..size] + rest[size..];
  }

  lemma DistinctPage(rest: seq<Row>, size: nat)
    requires DistinctIds(rest) && size <= |rest|
    ensures DistinctIds(rest[..size])
  {
  }

  lemma DistinctOnce(rows: seq<Row>, id: string)
    requires DistinctIds(rows)
    ensures !Repeated(rows, id)
  {
  }

  // A row is listed twice if and only if it comes again.
  lemma {:induction false} RepeatedExactly(tables: seq<seq<Row>>, o: Order, p: Position, size: nat, id: string)
    requires o.sort in TIME_SORTS && size > 0 && AllDistinct(tables) && NeverMovesBack(tables, o)
    requires Stays(tables, o, p, size, id)
    ensures Repeated(Listed(tables, o, p, size), id) <==> ComesAgain(tables, o, p, size, id)
    decreases |tables|
  {
    var rest := Remaining(tables[0], o, p);
    StaysLater(tables, o, p, size, id);
    RepeatedStep(tables, o, p, size, id);
    if |rest| > size {
      var next := After(KeyOf(rest[size - 1], o.sort));
      DropFirst(tables, o);
      ListedIfAhead(tables[1..], o, next, size, id);
      RepeatedExactly(tables[1..], o, next, size, id);
    }
  }

  lemma RepeatedStep(tables: seq<seq<Row>>, o: Order, p: Position, size: nat, id: string)
    requires o.sort in TIME_SORTS && size > 0 && tables != [] && AllDistinct(tables)
    ensures var rest := Remaining(tables[0], o, p);
            if |rest| <= size then !Repeated(Listed(tables, o, p, size), id)
            else
              var later := Listed(tables[1..], o, After(KeyOf(rest[size - 1], o.sort)), size);
              Repeated(Listed(tables, o, p, size), id) <==>
                (HasId(rest[..size], id) && HasId(later, id)) || Repeated(later, id)
  {
    var rest := Remaining(tables[0], o, p);
    RemainingDistinct(tables[0], o, p);
    ListedStep(tables, o, p, size);
    if |rest| <= size {
      DistinctOnce(rest, id);
    } else {
      DistinctPage(rest, size);
      RepeatedJoin(rest[..size], Listed(tables[1..], o, After(KeyOf(rest[size - 1], o.sort)), size), id);
    }
  }

  // ---- a sort column that never changes (`created_at`)

  predicate StableKeys(tables: seq<seq<Row>>, sort: Sort)
    requires sort in TIME_SORTS
  {
    forall i, j, a, b :: 0 <= i <= j < |tables| && a in tables[i] && b in tables[j] && a.id == b.id ==>
      KeyOf(a, sort).at.Rank() == KeyOf(b, sort).at.Rank()
  }

  lemma SameIdNotBefore(a: Row, b: Row, o: Order)
    requires o.sort in TIME_SORTS && a.id == b.id
    ensures Before(o.descending, KeyOf(a, o.sort), KeyOf(b, o.sort)) <==>
            if o.descending then KeyOf(b, o.sort).at.Rank() < KeyOf(a, o.sort).at.Rank()
            else KeyOf(a, o.sort).at.Rank() < KeyOf(b, o.sort).at.Rank()
  {
    Lex.Irreflexive(a.id);
  }

  lemma StableNeverMoves(tables: seq<seq<Row>>, o: Order)
    requires o.sort in TIME_SORTS && StableKeys(tables, o.sort)
    ensures NeverMovesBack(tables, o)
  {
    forall i, j, a, b | 0 <= i <= j < |tables| && a in tables[i] && b in tables[j] && a.id == b.id
      ensures !Before(o.descending, KeyOf(b, o.sort), KeyOf(a, o.sort))
    {
      SameIdNotBefore(b, a, o);
    }
  }

  // With rows inserted and deleted between fetches: no row is listed twice, and
  // a row that is present at every fetch of a finished traversal is listed.
  lemma StableTraversal(tables: seq<seq<Row>>, o: Order, size: nat, id: string)
    requires o.sort in TIME_SORTS && size > 0 && AllDistinct(tables) && StableKeys(tables, o.sort)
    ensures var w := Follow(tables, o, None, size);
            && Ordered(Concat(w.pages), o)
            && DistinctIds(Concat(w.pages))
            && (w.finished && PresentThroughout(tables, |w.pages|, id) ==> HasId(Concat(w.pages), id))
  {
    CursorsCarryPositions(tables, o, None, size, Top);
    ListedOrdered(tables, o, Top, size);
    StableNeverMoves(tables, o);
    StableNeverMoves(tables, Order(o.sort, !o.descending));
    ListedDistinct(tables, o, Top, size);
    var w := FollowFrom(tables, o, Top, size);
    if w.finished && PresentThroughout(tables, |w.pages|, id) {
      StaysLater(tables, o, Top, size, id);
      NeverFallsBehind(tables, o, Top, size, id);
      ListedUnlessBehind(tables, o, Top, size, id);
    }
  }

  // ---- a sort column that only grows (`updated_at`)

  predicate GrowingKeys(tables: seq<seq<Row>>, sort: Sort)
    requires sort in TIME_SORTS
  {
    forall i, j, a, b :: 0 <= i <= j < |tables| && a in tables[i] && b in tables[j] && a.id == b.id ==>
      KeyOf(a, sort).at.Rank() <= KeyOf(b, sort).at.Rank()
  }

  lemma GrowingNeverMovesBack(tables: seq<seq<Row>>, sort: Sort)
    requires sort in TIME_SORTS && GrowingKeys(tables, sort)
    ensures NeverMovesBack(tables, Order(sort, false))
  {
    forall i, j, a, b | 0 <= i <= j < |tables| && a in tables[i] && b in tables[j] && a.id == b.id
      ensures !Before(false, KeyOf(b, sort), KeyOf(a, sort))
    {
      SameIdNotBefore(b, a, Order(sort, false));
    }
  }

  // Latest change first: nothing is listed twice, and a row that stays in the
  // table is listed if and only if it never falls behind the cursor.
  // Oldest change first: what stays is listed, and a row is listed twice if and
  // only if it comes again.
  lemma GrowingTraversal(tables: seq<seq<Row>>, o: Order, size: nat, id: string)
    requires o.sort in TIME_SORTS && size > 0 && AllDistinct(tables) && GrowingKeys(tables, o.sort)
    ensures var w := Follow(tables, o, None, size);
            && (o.descending ==> DistinctIds(Concat(w.pages)))
            && (w.finished && PresentThroughout(tables, |w.pages|, id) ==>
                  if o.descending then HasId(Concat(w.pages), id) <==> !FallsBehind(tables, o, Top, size, id)
                  else HasId(Concat(w.pages), id) &&
                       (Repeated(Concat(w.pages), id) <==> ComesAgain(tables, o, Top, size, id)))
  {
    CursorsCarryPositions(tables, o, None, size, Top);
    GrowingNeverMovesBack(tables, o.sort);
    GrowingListed(tables, o, size, id);
  }

  lemma GrowingListed(tables: seq<seq<Row>>, o: Order, size: nat, id: string)
    requires o.sort in TIME_SORTS && size > 0 && AllDistinct(tables) && NeverMovesBack(tables, Order(o.sort, false))
    ensures var listed := Listed(tables, o, Top, size);
            && (o.descending ==> DistinctIds(listed))
            && (Stays(tables, o, Top, size, id) ==>
                  if o.descending then HasId(listed, id) <==> !FallsBehind(tables, o, Top, size, id)
                  else HasId(listed, id) && (Repeated(listed, id) <==> ComesAgain(tables, o, Top, size, id)))
  {
    if o.descending {
      ListedDistinct(tables, o, Top, size);
    }
    if Stays(tables, o, Top, size, id) {
      StaysLater(tables, o, Top, size, id);
      if o.descending {
        ListedExactly(tables, o, Top, size, id);
      } else {
        assert o == Order(o.sort, false);
        NeverFallsBehind(tables, o, Top, size, id);
        ListedUnlessBehind(tables, o, Top, size, id);
        RepeatedExactly(tables, o, Top, size, id);
      }
    }
  }

  // ---- a table that does not change

  predicate Unchanged(tables: seq<seq<Row>>, table: seq<Row>) {
    forall i :: 0 <= i < |tables| ==> tables[i] == table
  }

  // After the k-th of the remaining rows remain the others.
  lemma RemainingAfter(table: seq<Row>, o: Order, p: Position, k: nat)
    requires o.sort in TIME_SORTS && DistinctIds(table) && 0 < k <= |Remaining(table, o, p)|
    ensures var rest := Remaining(table, o, p);
            Remaining(table, o, After(KeyOf(rest[k - 1], o.sort))) == rest[k..]
  {
    var rest := Remaining(table, o, p);
    var next := After(KeyOf(rest[k - 1], o.sort));
    RemainingOrdered(table, o, p);
    RemainingOrdered(table, o, next);
    RemainingMembers(table, o, p, rest[k - 1]);
    forall r ensures r in Remaining(table, o, next) <==> r in rest[k..] {
      RemainingMembers(table, o, next, r);
      RemainingMembers(table, o, p, r);
      LedgerAfter(rest, o, k, r);
      PastLater(o, p, rest[k - 1], r);
    }
    OrderedUnique(Remaining(table, o, next), rest[k..], o);
  }

  lemma PastLater(o: Order, p: Position, a: Row, b: Row)
    requires o.sort in TIME_SORTS && Past(p, KeyOf(a, o.sort), o.descending)
    ensures Before(o.descending, KeyOf(a, o.sort), KeyOf(b, o.sort)) ==> Past(p, KeyOf(b, o.sort), o.descending)
  {
    if p.After? && Before(o.descending, KeyOf(a, o.sort), KeyOf(b, o.sort)) {
      BeforeTransitive(o.descending, p.key, KeyOf(a, o.sort), KeyOf(b, o.sort));
    }
  }

  lemma LedgerAfter(ledger: seq<Row>, o: Order, k: nat, r: Row)
    requires o.sort in TIME_SORTS && Ordered(ledger, o) && 0 < k <= |ledger|
    ensures r in ledger[k..] <==> r in ledger && Before(o.descending, KeyOf(ledger[k - 1], o.sort), KeyOf(r, o.sort))
  {
    if r in ledger {
      var i :| 0 <= i < |ledger| && ledger[i] == r;
      if i >= k {
        assert ledger[k..][i - k] == r;
      } else {
        NotPastLater(ledger, o, i, k - 1);
        NotInLaterPart(ledger, o, i, k);
      }
    }
  }

  lemma NotPastLater(ledger: seq<Row>, o: Order, i: nat, j: nat)
    requires o.sort in TIME_SORTS && Ordered(ledger, o) && i <= j < |ledger|
    ensures !Before(o.descending, KeyOf(ledger[j], o.sort), KeyOf(ledger[i], o.sort))
  {
    var a, b := KeyOf(ledger[i], o.sort), KeyOf(ledger[j], o.sort);
    BeforeIrreflexive(o.descending, a);
    if Before(o.descending, b, a) && i < j {
      BeforeTransitive(o.descending, a, b, a);
    }
  }

  lemma NotInLaterPart(ledger: seq<Row>, o: Order, i: nat, k: nat)
    requires o.sort in TIME_SORTS && Ordered(ledger, o) && i < k <= |ledger|
    ensures ledger[i] !in ledger[k..]
  {
    if ledger[i] in ledger[k..] {
      var j :| k <= j < |ledger| && ledger[j] == ledger[i];
      BeforeIrreflexive(o.descending, KeyOf(ledger[i], o.sort));
    }
  }

  // ceil(n / size), and one page for an empty ledger.
  function PagesNeeded(n: nat, size: nat): nat
    requires size > 0
  {
    if n <= size then 1 else 1 + PagesNeeded(n - size, size)
  }

  lemma {:induction false} PagesNeededIsCeiling(n: nat, size: nat)
    requires size > 0
    ensures var k := PagesNeeded(n, size);
            k >= 1 && (k - 1) * size < (if n == 0 then 1 else n) <= k * size
  {
    if n > size {
      PagesNeededIsCeiling(n - size, size);
      var k := PagesNeeded(n - size, size);
      assert (k + 1 - 1) * size == (k - 1) * size + size;
      assert (k + 1) * size == k * size + size;
    }
  }

  predicate Covers(w: Walk, rows: seq<Row>, pages: nat) {
    w.finished && Concat(w.pages) == rows && |w.pages| == pages
  }

  lemma OnePageCovers(rows: seq<Row>)
    ensures Covers(Walk([rows], true), rows, 1)
  {
    assert Concat([rows]) == rows + Concat([]) == rows;
  }

  lemma NextPageCovers(page: seq<Row>, w: Walk, rows: seq<Row>, pages: nat)
    requires Covers(w, rows, pages)
    ensures Covers(Walk([page] + w.pages, w.finished), page + rows, pages + 1)
  {
    assert ([page] + w.pages)[1..] == w.pages;
  }

  lemma {:induction false} UnchangedFrom(tables: seq<seq<Row>>, table: seq<Row>, o: Order, p: Position, size: nat)
    requires o.sort in TIME_SORTS && size > 0 && DistinctIds(table) && Unchanged(tables, table)
    requires |tables| >= PagesNeeded(|Remaining(table, o, p)|, size)
    ensures Covers(FollowFrom(tables, o, p, size), Remaining(table, o, p), PagesNeeded(|Remaining(table, o, p)|, size))
    decreases |tables|
  {
    var rest := Remaining(table, o, p);
    assert tables[0] == table;
    if |rest| <= size {
      OnePageCovers(rest);
    } else {
      RemainingAfter(table, o, p, size);
      UnchangedFrom(tables[1..], table, o, After(KeyOf(rest[size - 1], o.sort)), size);
      UnchangedStep(tables, o, p, size, rest[size..]);
      SplitRest(rest, size);
    }
  }

  lemma SplitRest(rest: seq<Row>, size: nat)
    requires size <= |rest|
    ensures rest == rest[..size] + rest[size..]
  {
  }

  lemma UnchangedStep(tables: seq<seq<Row>>, o: Order, p: Position, size: nat, rows: seq<Row>)
    requires o.sort in TIME_SORTS && size > 0 && tables != [] && |Remaining(tables[0], o, p)| > size
    requires var last := Remaining(tables[0], o, p)[size - 1];
             Covers(FollowFrom(tables[1..], o, After(KeyOf(last, o.sort)), size), rows, PagesNeeded(|rows|, size))
    ensures var page := Remaining(tables[0], o, p)[..size];
            Covers(FollowFrom(tables, o, p, size), page + rows, PagesNeeded(|rows|, size) + 1)
  {
    var rest := Remaining(tables[0], o, p);
    var w := FollowFrom(tables[1..], o, After(KeyOf(rest[size - 1], o.sort)), size);
    NextPageCovers(rest[..size], w, rows, PagesNeeded(|rows|, size));
  }

  // Following the cursors over an unchanging table lists the whole filtered
  // ledger in max(1, ceil(n / page size)) pages.
  lemma WholeLedger(tables: seq<seq<Row>>, table: seq<Row>, o: Order, limit: Option<int>)
    requires o.sort in TIME_SORTS && DistinctIds(table) && Unchanged(tables, table)
    requires |tables| >= PagesNeeded(|table|, ClampLimit(limit))
    ensures Covers(Follow(tables, o, None, ClampLimit(limit)), OrderBy(table, o),
            PagesNeeded(|table|, ClampLimit(limit)))
  {
    WholeLedgerInPages(tables, table, o, ClampLimit(limit));
  }

  lemma WholeLedgerInPages(tables: seq<seq<Row>>, table: seq<Row>, o: Order, size: nat)
    requires o.sort in TIME_SORTS && size > 0 && DistinctIds(table) && Unchanged(tables, table)
    requires |tables| >= PagesNeeded(|table|, size)
    ensures Covers(Follow(tables, o, None, size), OrderBy(table, o), PagesNeeded(|table|, size))
  {
    OrderByLength(table, o);
    RemainingAtTop(table, o);
    CursorsCarryPositions(tables, o, None, size, Top);
    UnchangedFrom(tables, table, o, Top, size);
  }

  // The ledger itself: every row of the table once, in listing order.
  lemma LedgerIsSorted(table: seq<Row>, o: Order)
    requires o.sort in TIME_SORTS && DistinctIds(table)
    ensures Ordered(OrderBy(table, o), o) && multiset(OrderBy(table, o)) == multiset(table)
  {
    OrderByOrdered(table, o);
    OrderByPermutes(table, o);
  }

  // The same for the task listing with its filters: each matching task is
  // listed once, and nothing else.
  lemma WholeTaskListing(table: seq<Row>, f: TaskFilter, o: Order, limit: Option<int>, fetches: nat)
    requires o.sort in TIME_SORTS && DistinctIds(table)
    requires fetches >= PagesNeeded(|Selected(table, f)|, ClampLimit(limit))
    ensures var w := Follow(seq(fetches, _ => Selected(table, f)), o, None, ClampLimit(limit));
            && Covers(w, OrderBy(Selected(table, f), o), PagesNeeded(|Selected(table, f)|, ClampLimit(limit)))
            && Ordered(Concat(w.pages), o) && DistinctIds(Concat(w.pages))
            && forall r :: r in Concat(w.pages) <==> r in table && Matches(f, r)
  {
    var rows := Selected(table, f);
    WhereDistinct(table, r => Matches(f, r));
    WholeLedger(seq(fetches, _ => rows), rows, o, limit);
    LedgerIsSorted(rows, o);
    RemainingDistinct(rows, o, Top);
    RemainingAtTop(rows, o);
    forall r ensures r in OrderBy(rows, o) <==> r in table && Matches(f, r) {
      OrderByMembers(rows, o, r);
      WhereMembers(table, x => Matches(f, x), r);
    }
  }

  lemma {:induction false} OrderByPermutes(rows: seq<Row>, o: Order)
    requires o.sort in TIME_SORTS
    ensures multiset(OrderBy(rows, o)) == multiset(rows)
  {
    if rows == [] {
    } else {
      OrderByPermutes(rows[1..], o);
      InsertPermutes(rows[0], OrderBy(rows[1..], o), o);
      assert rows == [rows[0]] + rows[1..];
    }
  }

  lemma {:induction false} InsertPermutes(x: Row, rows: seq<Row>, o: Order)
    requires o.sort in TIME_SORTS
    ensures multiset(InsertRow(x, rows, o)) == multiset([x]) + multiset(rows)
  {
    if rows == [] {
    } else {
      InsertPermutes(x, rows[1..], o);
      assert rows == [rows[0]] + rows[1..];
    }
  }

  // ---- what goes wrong when `updated_at` changes during a traversal

  lemma OrderPair(x: Row, y: Row, o: Order)
    requires o.sort in TIME_SORTS
    ensures OrderBy([x, y], o) ==
            if Before(o.descending, KeyOf(y, o.sort), KeyOf(x, o.sort)) then [y, x] else [x, y]
  {
    assert [x, y][1..] == [y] && [y][1..] == [];
    assert OrderBy([y], o) == InsertRow(y, [], o) == [y];
    assert OrderBy([x, y], o) == InsertRow(x, [y], o);
    assert InsertRow(x, [], o) == [x];
  }

  lemma WhereNone(x: Row, y: Row, p: Row -> bool)
    requires !p(x) && !p(y)
    ensures Where([x, y], p) == []
  {
    assert [x, y][1..] == [y] && [y][1..] == [];
    assert Where([y], p) == [];
  }

  lemma TwoPages(first: seq<Row>, second: seq<Row>, o: Order, x: Row, y: Row)
    requires o.sort in TIME_SORTS && Remaining(first, o, Top) == [x, y]
    requires Remaining(second, o, After(KeyOf(x, o.sort))) == []
    ensures FollowFrom([first, second], o, Top, 1).finished
  {
    assert [first, second][1..] == [second];
  }

  lemma PairOfRows(x: Row, y: Row)
    requires x.id != y.id
    ensures DistinctIds([x, y]) && HasId([x, y], x.id)
  {
    assert [x, y][0] == x && [x, y][1] == y;
  }

  // Of two rows listed one to a page, the second is moved to the front between
  // the two fetches.
  lemma PairFallsBehind(before: Row, after: Row, other: Row, o: Order)
    requires o.sort in TIME_SORTS && before.id == after.id != other.id
    requires Before(o.descending, KeyOf(other, o.sort), KeyOf(before, o.sort))
    requires Before(o.descending, KeyOf(after, o.sort), KeyOf(other, o.sort))
    ensures Remaining([before, other], o, Top) == [other, before]
    ensures FallsBehind([[before, other], [after, other]], o, Top, 1, before.id)
  {
    var first, second := [before, other], [after, other];
    PairOfRows(before, other);
    OrderPair(before, other, o);
    RemainingAtTop(first, o);
    BeforeIrreflexive(o.descending, KeyOf(other, o.sort));
    if Before(o.descending, KeyOf(other, o.sort), KeyOf(after, o.sort)) {
      BeforeTransitive(o.descending, KeyOf(other, o.sort), KeyOf(after, o.sort), KeyOf(other, o.sort));
    }
    assert second[0].id == before.id;
    assert [other, before][1..] == [before] && HasId([before], before.id) by { assert [before][0].id == before.id; }
  }

  lemma PairNeverMovesOn(before: Row, after: Row, other: Row, o: Order)
    requires o.sort in TIME_SORTS && before.id == after.id != other.id
    requires Before(o.descending, KeyOf(other, o.sort), KeyOf(before, o.sort))
    requires Before(o.descending, KeyOf(after, o.sort), KeyOf(other, o.sort))
    ensures NeverMovesOn([[before, other], [after, other]], o)
  {
    var tables := [[before, other], [after, other]];
    BeforeTransitive(o.descending, KeyOf(after, o.sort), KeyOf(other, o.sort), KeyOf(before, o.sort));
    BeforeIrreflexive(o.descending, KeyOf(after, o.sort));
    forall i: int, j: int, a: Row, b: Row | 0 <= i <= j < 2 && a in tables[i] && b in tables[j] && a.id == b.id
      ensures !Before(o.descending, KeyOf(a, o.sort), KeyOf(b, o.sort))
    {
      BeforeIrreflexive(o.descending, KeyOf(a, o.sort));
      if a != b && Before(o.descending, KeyOf(a, o.sort), KeyOf(b, o.sort)) {
        BeforeTransitive(o.descending, KeyOf(after, o.sort), KeyOf(before, o.sort), KeyOf(after, o.sort));
      }
    }
  }

  // So both fetches find it, and it is not listed.
  lemma PairMissed(tables: seq<seq<Row>>, before: Row, after: Row, other: Row, o: Order)
    requires o.sort in TIME_SORTS && before.id == after.id != other.id
    requires tables == [[before, other], [after, other]]
    requires Before(o.descending, KeyOf(other, o.sort), KeyOf(before, o.sort))
    requires Before(o.descending, KeyOf(after, o.sort), KeyOf(other, o.sort))
    ensures FallsBehind(tables, o, Top, 1, before.id)
    ensures var w := Follow(tables, o, None, 1);
            w.finished && PresentThroughout(tables, |w.pages|, before.id) && !HasId(Concat(w.pages), before.id)
  {
    PairFallsBehind(before, after, other, o);
    PairNeverMovesOn(before, after, other, o);
    PairIsThere(tables, before, after, other);
    MissedLater(after, other, o);
    TwoPages([before, other], [after, other], o, other, before);
    MissedThroughout(tables, o, before.id);
  }

  lemma PairIsThere(tables: seq<seq<Row>>, before: Row, after: Row, other: Row)
    requires before.id == after.id != other.id && tables == [[before, other], [after, other]]
    ensures AllDistinct(tables) && PresentThroughout(tables, |tables|, before.id)
  {
    PairOfRows(before, other);
    PairOfRows(after, other);
  }

  lemma MissedThroughout(tables: seq<seq<Row>>, o: Order, id: string)
    requires o.sort in TIME_SORTS && AllDistinct(tables) && NeverMovesOn(tables, o)
    requires FallsBehind(tables, o, Top, 1, id) && FollowFrom(tables, o, Top, 1).finished
    requires PresentThroughout(tables, |tables|, id)
    ensures var w := Follow(tables, o, None, 1);
            w.finished && PresentThroughout(tables, |w.pages|, id) && !HasId(Concat(w.pages), id)
  {
    BehindIsMissed(tables, o, Top, 1, id);
    CursorsCarryPositions(tables, o, None, 1, Top);
  }

  lemma MissedLater(after: Row, other: Row, o: Order)
    requires o.sort in TIME_SORTS && after.id != other.id
    requires Before(o.descending, KeyOf(after, o.sort), KeyOf(other, o.sort))
    ensures Remaining([after, other], o, After(KeyOf(other, o.sort))) == []
  {
    var k, k' := KeyOf(after, o.sort), KeyOf(other, o.sort);
    OrderPair(after, other, o);
    BeforeIrreflexive(o.descending, k);
    BeforeIrreflexive(o.descending, k');
    if Before(o.descending, k', k) {
      BeforeTransitive(o.descending, k', k, k');
    }
    WhereNone(after, other, PastFilter(After(k'), o));
  }

  function Example(id: string, second: nat): Row
    requires second < 60
  {
    var t := Stamp(2026, 7, 9, 8, 0, second, 0, Some(0));
    Row(id, t, t, "default", "you", "active", None, "high")
  }

  // Latest change first (sorted by updated_at): "a" is changed after the first
  // page was read. It stays in the table, falls behind, and is not listed.
  lemma SkipExample()
    ensures var tables := [[Example("a", 1), Example("b", 2)], [Example("a", 3), Example("b", 2)]];
            var w := Follow(tables, Order(UpdatedAt, true), None, 1);
            w.finished && PresentThroughout(tables, |w.pages|, "a") && !HasId(Concat(w.pages), "a")
  {
    assert "a"[0] != "b"[0];
    var tables := [[Example("a", 1), Example("b", 2)], [Example("a", 3), Example("b", 2)]];
    PairMissed(tables, Example("a", 1), Example("a", 3), Example("b", 2), Order(UpdatedAt, true));
  }
}
