// Keyset pagination: one page per call, each call seeking past the last row of
// the previous page (services/api-gateway/app/pagination.py and repository.py).
// A SQL statement is modelled as the sequence of rows it selects.

module Keyset {
  import opened Options
  import opened Timestamps
  import Lex
  import CursorCodec

  const DEFAULT_LIMIT := 50
  const MAX_LIMIT := 200

  datatype Row = Row(
    id: string, createdAt: Instant, updatedAt: Instant,
    workspaceId: string, owner: string, status: string, projectId: Option<string>, priority: string)

  datatype Sort = CreatedAt | UpdatedAt | OtherField(name: string)

  const TIME_SORTS: set<Sort> := {CreatedAt, UpdatedAt}

  datatype Key = Key(at: Instant, id: string)

  function KeyOf(row: Row, sort: Sort): Key
    requires sort in TIME_SORTS
  {
    Key(if sort == CreatedAt then row.createdAt else row.updatedAt, row.id)
  }

  // ---- the order of a listing: by the sort column, then by id

  predicate KeyLess(a: Key, b: Key) {
    a.at.Rank() < b.at.Rank() || (a.at.Rank() == b.at.Rank() && Lex.Less(a.id, b.id))
  }

  predicate Before(descending: bool, a: Key, b: Key) {
    if descending then KeyLess(b, a) else KeyLess(a, b)
  }

  lemma BeforeTransitive(descending: bool, a: Key, b: Key, c: Key)
    requires Before(descending, a, b) && Before(descending, b, c)
    ensures Before(descending, a, c)
  {
    if a.at.Rank() == b.at.Rank() == c.at.Rank() {
      if descending {
        Lex.Transitive(c.id, b.id, a.id);
      } else {
        Lex.Transitive(a.id, b.id, c.id);
      }
    }
  }

  lemma BeforeIrreflexive(descending: bool, a: Key)
    ensures !Before(descending, a, a)
  {
    Lex.Irreflexive(a.id);
  }

  lemma BeforeTotal(descending: bool, a: Key, b: Key)
    ensures a.id == b.id || Before(descending, a, b) || Before(descending, b, a)
  {
    Lex.Total(a.id, b.id);
  }

  lemma BeforeNotBefore(descending: bool, a: Key, b: Key, c: Key)
    requires Before(descending, a, b) && !Before(descending, c, b)
    ensures Before(descending, a, c)
  {
    Lex.Total(b.id, c.id);
    if a.at.Rank() == b.at.Rank() == c.at.Rank() && b.id != c.id {
      if descending {
        Lex.Transitive(c.id, b.id, a.id);
      } else {
        Lex.Transitive(a.id, b.id, c.id);
      }
    }
  }

  datatype Order = Order(sort: Sort, descending: bool)

  // Strictly ordered: in particular no two rows share a key.
  predicate Ordered(rows: seq<Row>, o: Order)
    requires o.sort in TIME_SORTS
  {
    forall i, j :: 0 <= i < j < |rows| ==> Before(o.descending, KeyOf(rows[i], o.sort), KeyOf(rows[j], o.sort))
  }

  predicate DistinctIds(rows: seq<Row>) {
    forall i, j :: 0 <= i < j < |rows| ==> rows[i].id != rows[j].id
  }

  // ---- ORDER BY and WHERE

  function InsertRow(x: Row, rows: seq<Row>, o: Order): seq<Row>
    requires o.sort in TIME_SORTS
  {
    if rows == [] then [x]
    else if Before(o.descending, KeyOf(rows[0], o.sort), KeyOf(x, o.sort)) then [rows[0]] + InsertRow(x, rows[1..], o)
    else [x] + rows
  }

  function OrderBy(rows: seq<Row>, o: Order): seq<Row>
    requires o.sort in TIME_SORTS
  {
    if rows == [] then [] else InsertRow(rows[0], OrderBy(rows[1..], o), o)
  }

  function Where(rows: seq<Row>, p: Row -> bool): seq<Row> {
    if rows == [] then []
    else if p(rows[0]) then [rows[0]] + Where(rows[1..], p)
    else Where(rows[1..], p)
  }

  lemma {:induction false} WhereMembers(rows: seq<Row>, p: Row -> bool, r: Row)
    ensures r in Where(rows, p) <==> r in rows && p(r)
  {
    if rows == [] {
    } else {
      WhereMembers(rows[1..], p, r);
      assert rows == [rows[0]] + rows[1..];
    }
  }

  lemma {:induction false} WhereDistinct(rows: seq<Row>, p: Row -> bool)
    requires DistinctIds(rows)
    ensures DistinctIds(Where(rows, p))
  {
    if rows == [] {
    } else {
      WhereDistinct(rows[1..], p);
      forall r | r in Where(rows[1..], p) ensures r.id != rows[0].id {
        WhereMembers(rows[1..], p, r);
      }
    }
  }

  lemma {:induction false} WhereOrdered(rows: seq<Row>, p: Row -> bool, o: Order)
    requires o.sort in TIME_SORTS && Ordered(rows, o)
    ensures Ordered(Where(rows, p), o)
  {
    if rows == [] {
    } else {
      WhereOrdered(rows[1..], p, o);
      forall r | r in Where(rows[1..], p) ensures Before(o.descending, KeyOf(rows[0], o.sort), KeyOf(r, o.sort)) {
        WhereMembers(rows[1..], p, r);
      }
    }
  }

  lemma {:induction false} InsertMembers(x: Row, rows: seq<Row>, o: Order, r: Row)
    requires o.sort in TIME_SORTS
    ensures r in InsertRow(x, rows, o) <==> r == x || r in rows
  {
    if rows == [] {
    } else {
      InsertMembers(x, rows[1..], o, r);
      assert rows == [rows[0]] + rows[1..];
    }
  }

  lemma {:induction false} InsertOrdered(x: Row, rows: seq<Row>, o: Order)
    requires o.sort in TIME_SORTS && Ordered(rows, o)
    requires forall r :: r in rows ==> r.id != x.id
    ensures Ordered(InsertRow(x, rows, o), o)
  {
    if rows == [] {
    } else {
      var k, k0 := KeyOf(x, o.sort), KeyOf(rows[0], o.sort);
      if Before(o.descending, k0, k) {
        InsertOrdered(x, rows[1..], o);
        forall r | r in InsertRow(x, rows[1..], o) ensures Before(o.descending, k0, KeyOf(r, o.sort)) {
          InsertMembers(x, rows[1..], o, r);
        }
      } else {
        assert rows[0] in rows;
        BeforeTotal(o.descending, k, k0);
        forall r | r in rows ensures Before(o.descending, k, KeyOf(r, o.sort)) {
          if r != rows[0] {
            BeforeTransitive(o.descending, k, k0, KeyOf(r, o.sort));
          }
        }
      }
    }
  }

  lemma {:induction false} OrderByMembers(rows: seq<Row>, o: Order, r: Row)
    requires o.sort in TIME_SORTS
    ensures r in OrderBy(rows, o) <==> r in rows
  {
    if rows == [] {
    } else {
      OrderByMembers(rows[1..], o, r);
      InsertMembers(rows[0], OrderBy(rows[1..], o), o, r);
      assert rows == [rows[0]] + rows[1..];
    }
  }

  lemma {:induction false} OrderByOrdered(rows: seq<Row>, o: Order)
    requires o.sort in TIME_SORTS && DistinctIds(rows)
    ensures Ordered(OrderBy(rows, o), o)
  {
    if rows == [] {
    } else {
      OrderByOrdered(rows[1..], o);
      forall r | r in OrderBy(rows[1..], o) ensures r.id != rows[0].id {
        OrderByMembers(rows[1..], o, r);
      }
      InsertOrdered(rows[0], OrderBy(rows[1..], o), o);
    }
  }

  lemma {:induction false} OrderByLength(rows: seq<Row>, o: Order)
    requires o.sort in TIME_SORTS
    ensures |OrderBy(rows, o)| == |rows|
  {
    if rows == [] {
    } else {
      OrderByLength(rows[1..], o);
      InsertLength(rows[0], OrderBy(rows[1..], o), o);
    }
  }

  lemma {:induction false} InsertLength(x: Row, rows: seq<Row>, o: Order)
    requires o.sort in TIME_SORTS
    ensures |InsertRow(x, rows, o)| == |rows| + 1
  {
    if rows == [] {
    } else {
      InsertLength(x, rows[1..], o);
    }
  }

  // An ordered listing is determined by the rows in it.
  lemma {:induction false} OrderedUnique(s: seq<Row>, t: seq<Row>, o: Order)
    requires o.sort in TIME_SORTS && Ordered(s, o) && Ordered(t, o)
    requires forall r :: r in s <==> r in t
    ensures s == t
  {
    assert s != [] ==> s[0] in t;
    assert t != [] ==> t[0] in s;
    if s != [] {
      if s[0] != t[0] {
        var a, b := KeyOf(s[0], o.sort), KeyOf(t[0], o.sort);
        BeforeTransitive(o.descending, a, b, a);
        BeforeIrreflexive(o.descending, a);
        assert false;
      }
      HeadNotInTail(s, o);
      HeadNotInTail(t, o);
      SameTails(s, t);
      OrderedUnique(s[1..], t[1..], o);
    }
  }

  lemma SameTails(s: seq<Row>, t: seq<Row>)
    requires s != [] && t != [] && s[0] == t[0] && s[0] !in s[1..] && t[0] !in t[1..]
    requires forall r :: r in s <==> r in t
    ensures forall r :: r in s[1..] <==> r in t[1..]
  {
    forall r ensures r in s[1..] <==> r in t[1..] {
      assert r in s <==> r == s[0] || r in s[1..];
      assert r in t <==> r == t[0] || r in t[1..];
    }
  }

  lemma HeadNotInTail(s: seq<Row>, o: Order)
    requires o.sort in TIME_SORTS && s != [] && Ordered(s, o)
    ensures s[0] !in s[1..]
  {
    BeforeIrreflexive(o.descending, KeyOf(s[0], o.sort));
  }

  // ---- the reference: the whole filtered ledger, and the part past a position

  datatype Position = Top | After(key: Key)

  predicate Past(p: Position, k: Key, descending: bool) {
    p.Top? || Before(descending, p.key, k)
  }

  function PastFilter(p: Position, o: Order): Row -> bool
    requires o.sort in TIME_SORTS
  {
    r => Past(p, KeyOf(r, o.sort), o.descending)
  }

  // The rows still to be listed, in order.
  function Remaining(rows: seq<Row>, o: Order, p: Position): seq<Row>
    requires o.sort in TIME_SORTS
  {
    Where(OrderBy(rows, o), PastFilter(p, o))
  }

  lemma RemainingMembers(rows: seq<Row>, o: Order, p: Position, r: Row)
    requires o.sort in TIME_SORTS
    ensures r in Remaining(rows, o, p) <==> r in rows && Past(p, KeyOf(r, o.sort), o.descending)
  {
    WhereMembers(OrderBy(rows, o), PastFilter(p, o), r);
    OrderByMembers(rows, o, r);
  }

  lemma RemainingOrdered(rows: seq<Row>, o: Order, p: Position)
    requires o.sort in TIME_SORTS && DistinctIds(rows)
    ensures Ordered(Remaining(rows, o, p), o)
  {
    OrderByOrdered(rows, o);
    WhereOrdered(OrderBy(rows, o), PastFilter(p, o), o);
  }

  // Seeking first and sorting afterwards gives the same rows in the same order.
  lemma SeekThenSort(rows: seq<Row>, o: Order, p: Position)
    requires o.sort in TIME_SORTS && DistinctIds(rows)
    ensures OrderBy(Where(rows, PastFilter(p, o)), o) == Remaining(rows, o, p)
  {
    var sought := Where(rows, PastFilter(p, o));
    WhereDistinct(rows, PastFilter(p, o));
    OrderByOrdered(sought, o);
    RemainingOrdered(rows, o, p);
    forall r ensures r in OrderBy(sought, o) <==> r in Remaining(rows, o, p) {
      OrderByMembers(sought, o, r);
      WhereMembers(rows, PastFilter(p, o), r);
      RemainingMembers(rows, o, p, r);
    }
    OrderedUnique(OrderBy(sought, o), Remaining(rows, o, p), o);
  }

  // With no position, the remaining rows are the whole ledger.
  lemma RemainingAtTop(rows: seq<Row>, o: Order)
    requires o.sort in TIME_SORTS && DistinctIds(rows)
    ensures Remaining(rows, o, Top) == OrderBy(rows, o)
  {
    OrderByOrdered(rows, o);
    RemainingOrdered(rows, o, Top);
    forall r ensures r in Remaining(rows, o, Top) <==> r in OrderBy(rows, o) {
      RemainingMembers(rows, o, Top, r);
      OrderByMembers(rows, o, r);
    }
    OrderedUnique(Remaining(rows, o, Top), OrderBy(rows, o), o);
  }

  // ---- one page

  function Distance(a: int, b: int): nat {
    if a <= b then b - a else a - b
  }

  // The page size: of the sizes allowed, the one nearest to the limit asked for.
  function ClampLimit(limit: Option<int>): (size: nat)
    ensures 1 <= size <= 200
    ensures limit.None? ==> size == 50
    ensures limit.Some? ==> forall n :: 1 <= n <= 200 ==> Distance(size, limit.value) <= Distance(n, limit.value)
  {
    match limit
    case None => DEFAULT_LIMIT
    case Some(n) => if n < 1 then 1 else if n > MAX_LIMIT then MAX_LIMIT else n
  }

  // The texts that lower() turns into "asc".
  const ASCENDING: set<string> := {"asc", "Asc", "aSc", "asC", "ASc", "AsC", "aSC", "ASC"}

  // order.lower() != "asc"
  predicate Descending(order: string)
    ensures Descending(order) <==> order !in ASCENDING
  {
    assert |order| == 3 ==> order == [order[0], order[1], order[2]];
    !(|order| == 3 && order[0] in "aA" && order[1] in "sS" && order[2] in "cC")
  }

  function CursorFor(row: Row, sort: Sort): string
    requires sort in TIME_SORTS
  {
    CursorCodec.Encode(CursorCodec.At(KeyOf(row, sort).at), row.id)
  }

  // Where a request starts. An absent and an empty cursor are the same; a
  // cursor that does not decode to a timestamp and a string id is refused.
  function PositionOf(cursor: Option<string>): Option<Position> {
    if cursor.None? || cursor.value == "" then Some(Top)
    else
      match CursorCodec.Decode(cursor.value)
      case Invalid => None
      case Valid(c) => if c.sort.At? && c.id.Str? then Some(After(Key(c.sort.instant, c.id.text))) else None
  }

  lemma CursorPosition(row: Row, sort: Sort)
    requires sort in TIME_SORTS
    ensures PositionOf(Some(CursorFor(row, sort))) == Some(After(KeyOf(row, sort)))
  {
    CursorCodec.RoundTrip(CursorCodec.At(KeyOf(row, sort).at), row.id);
    CursorCodec.NeverEmpty(CursorCodec.At(KeyOf(row, sort).at), row.id);
  }

  datatype Page = BadRequest | Page(rows: seq<Row>, next: Option<string>)

  // The first `size` remaining rows, and a cursor only when more remain.
  function FirstOf(rest: seq<Row>, sort: Sort, size: nat): Page
    requires sort in TIME_SORTS && size > 0
  {
    if |rest| <= size then Page(rest, None)
    else Page(rest[..size], Some(CursorFor(rest[size - 1], sort)))
  }

  function PageOf(rows: seq<Row>, o: Order, cursor: Option<string>, size: nat): Page
    requires o.sort in TIME_SORTS && size > 0
  {
    match PositionOf(cursor)
    case None => BadRequest
    case Some(p) => FirstOf(Remaining(rows, o, p), o.sort, size)
  }

  lemma PageOrdered(rows: seq<Row>, o: Order, cursor: Option<string>, size: nat)
    requires o.sort in TIME_SORTS && size > 0 && DistinctIds(rows)
    ensures PageOf(rows, o, cursor, size).Page? ==> Ordered(PageOf(rows, o, cursor, size).rows, o)
  {
    var p := PositionOf(cursor);
    if p.Some? {
      RemainingOrdered(rows, o, p.value);
    }
  }

  // A statement is a selection of rows; it is run against the table once it is
  // complete.
  type Statement = Row -> bool

  method KeysetPage(table: seq<Row>, statement: Statement, sort: Sort, order: string,
                    cursor: Option<string>, limit: Option<int>, allowed: set<Sort>)
    returns (page: Page)
    requires DistinctIds(table) && allowed <= TIME_SORTS
    ensures sort !in allowed ==> page == BadRequest
    ensures sort in allowed ==>
              page == PageOf(Where(table, statement), Order(sort, Descending(order)), cursor, ClampLimit(limit))
    ensures sort in allowed ==>
              (page.BadRequest? <==>
               && cursor.Some? && cursor.value != ""
               && match CursorCodec.Decode(cursor.value)
                  case Invalid => true
                  case Valid(c) => !c.sort.At? || !c.id.Str?)
    ensures page.Page? && sort in allowed ==>
              forall i, j :: 0 <= i < j < |page.rows| ==>
                var a, b := KeyOf(page.rows[i], sort), KeyOf(page.rows[j], sort);
                if order in ASCENDING then KeyLess(a, b) else KeyLess(b, a)
  {
    if sort !in allowed {
      return BadRequest;
    }
    var o := Order(sort, Descending(order));
    var pageSize := ClampLimit(limit);
    var stmt := statement;
    var position := PositionOf(cursor);
    if position.None? {
      return BadRequest;
    }
    if position.value.After? {
      var key := position.value.key;
      if o.descending {
        stmt := (r: Row) => statement(r) && KeyLess(KeyOf(r, sort), key);
      } else {
        stmt := (r: Row) => statement(r) && KeyLess(key, KeyOf(r, sort));
      }
    }
    Seek(table, statement, o, position.value, stmt);
    WhereDistinct(table, statement);
    PageOrdered(Where(table, statement), o, cursor, pageSize);
    page := Fetch(OrderBy(Where(table, stmt), o), sort, pageSize);
  }

  // Read one row more than the page holds, to learn whether more remain.
  method Fetch(selected: seq<Row>, sort: Sort, pageSize: nat) returns (page: Page)
    requires sort in TIME_SORTS && pageSize > 0
    ensures page == FirstOf(selected, sort, pageSize)
  {
    var rows := if |selected| <= pageSize + 1 then selected else selected[..pageSize + 1];
    var nextCursor := None;
    if |rows| > pageSize {
      rows := rows[..pageSize];
      FirstRows(selected, pageSize);
      var last := rows[|rows| - 1];
      nextCursor := Some(CursorFor(last, sort));
    }
    page := Page(rows, nextCursor);
  }

  lemma FirstRows(selected: seq<Row>, pageSize: nat)
    requires 0 < pageSize < |selected|
    ensures selected[..pageSize + 1][..pageSize] == selected[..pageSize]
    ensures selected[..pageSize][pageSize - 1] == selected[pageSize - 1]
  {
  }

  // The statement with the seek condition, run and sorted, selects exactly the
  // remaining rows of the unrestricted statement.
  lemma Seek(table: seq<Row>, statement: Statement, o: Order, p: Position, stmt: Statement)
    requires DistinctIds(table) && o.sort in TIME_SORTS
    requires forall r :: stmt(r) == (statement(r) && Past(p, KeyOf(r, o.sort), o.descending))
    ensures OrderBy(Where(table, stmt), o) == Remaining(Where(table, statement), o, p)
  {
    WhereBoth(table, statement, PastFilter(p, o), stmt);
    WhereDistinct(table, statement);
    SeekThenSort(Where(table, statement), o, p);
  }

  // statement.where(q): both conditions at once, or one after the other.
  lemma {:induction false} WhereBoth(rows: seq<Row>, p: Statement, q: Statement, both: Statement)
    requires forall r :: both(r) == (p(r) && q(r))
    ensures Where(rows, both) == Where(Where(rows, p), q)
  {
    if rows == [] {
    } else {
      WhereBoth(rows[1..], p, q, both);
      if p(rows[0]) {
        assert ([rows[0]] + Where(rows[1..], p))[1..] == Where(rows[1..], p);
      }
    }
  }

  // ---- the task listing that feeds the paginator

  datatype Response = Refused | Response(items: seq<Row>, nextCursor: Option<string>, hasMore: bool, limit: nat)

  datatype TaskFilter = TaskFilter(workspaceId: string, owner: string, status: string, projectId: string,
      priority: string)

  // An empty filter value filters nothing.
  predicate Matches(f: TaskFilter, r: Row) {
    && r.workspaceId == f.workspaceId
    && (f.owner == "" || r.owner == f.owner)
    && (f.status == "" || r.status == f.status)
    && (f.projectId == "" || r.projectId == Some(f.projectId))
    && (f.priority == "" || r.priority == f.priority)
  }

  function Selected(table: seq<Row>, f: TaskFilter): seq<Row> {
    Where(table, r => Matches(f, r))
  }

  // The tasks of the workspace that have every value asked for.
  lemma SelectedExactly(table: seq<Row>, f: TaskFilter, r: Row)
    ensures r in Selected(table, f) <==>
              && r in table && r.workspaceId == f.workspaceId
              && (f.owner != "" ==> r.owner == f.owner)
              && (f.status != "" ==> r.status == f.status)
              && (f.projectId != "" ==> r.projectId.Some? && r.projectId.value == f.projectId)
              && (f.priority != "" ==> r.priority == f.priority)
  {
    WhereMembers(table, r => Matches(f, r), r);
  }

  // The keys compare by the column asked for, and by the id where that is equal.
  lemma ByColumnThenId(a: Row, b: Row)
    ensures KeyLess(KeyOf(a, CreatedAt), KeyOf(b, CreatedAt)) <==>
            a.createdAt.Rank() < b.createdAt.Rank() ||
            (a.createdAt.Rank() == b.createdAt.Rank() && Lex.Less(a.id, b.id))
    ensures KeyLess(KeyOf(a, UpdatedAt), KeyOf(b, UpdatedAt)) <==>
            a.updatedAt.Rank() < b.updatedAt.Rank() ||
            (a.updatedAt.Rank() == b.updatedAt.Rank() && Lex.Less(a.id, b.id))
  {
  }

  method ListTasks(table: seq<Row>, f: TaskFilter, sort: Sort, order: string, cursor: Option<string>,
      limit: Option<int>)
    returns (response: Response)
    requires DistinctIds(table)
    ensures sort !in TIME_SORTS ==> response == Refused
    ensures sort in TIME_SORTS ==>
      match PageOf(Selected(table, f), Order(sort, Descending(order)), cursor, ClampLimit(limit))
      case BadRequest => response == Refused
      case Page(rows, next) => response == Response(rows, next, next.Some?, ClampLimit(limit))
    ensures response.Response? && sort in TIME_SORTS ==>
              forall i, j :: 0 <= i < j < |response.items| ==>
                var a, b := KeyOf(response.items[i], sort), KeyOf(response.items[j], sort);
                if order in ASCENDING then KeyLess(a, b) else KeyLess(b, a)
  {
    var byWorkspace: Statement := (r: Row) => r.workspaceId == f.workspaceId;
    var byOwner := byWorkspace;
    if f.owner != "" {
      byOwner := (r: Row) => byWorkspace(r) && r.owner == f.owner;
    }
    var byStatus := byOwner;
    if f.status != "" {
      byStatus := (r: Row) => byOwner(r) && r.status == f.status;
    }
    var byProject := byStatus;
    if f.projectId != "" {
      byProject := (r: Row) => byStatus(r) && r.projectId == Some(f.projectId);
    }
    var byPriority := byProject;
    if f.priority != "" {
      byPriority := (r: Row) => byProject(r) && r.priority == f.priority;
    }
    SamePredicate(table, byPriority, (r: Row) => Matches(f, r));
    var page := KeysetPage(table, byPriority, sort, order, cursor, limit, TIME_SORTS);
    if page.BadRequest? {
      return Refused;
    }
    response := Response(page.rows, page.next, page.next.Some?, ClampLimit(limit));
  }

  lemma {:induction false} SamePredicate(rows: seq<Row>, p: Statement, q: Statement)
    requires forall r :: p(r) == q(r)
    ensures Where(rows, p) == Where(rows, q)
  {
    if rows == [] {
    } else {
      SamePredicate(rows[1..], p, q);
    }
  }
}
