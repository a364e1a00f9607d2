// AI credits under concurrent requests inside one month. A request is one
// database transaction; every statement of services/api-gateway/app/ai_credits.py
// is one step, and the steps of different requests interleave in any order that
// the row lock allows. A request that raises is rolled back with all it wrote
// (services/api-gateway/app/db.py).

module CreditsConcurrent {
  import opened Options
  import Credits

  // How far a request has come.
  datatype Stage =
    | Start
    | SawNoAccount  // account(): session.get returned None
    | Created       // its insert succeeded, the opening entry is not written yet
    | Ready         // holds the account row
    | Updated       // its UPDATE took effect, the entry is not written yet
    | Done
    | Committed
    | Refused       // its conditional UPDATE matched no row: 402, and a rollback
    | RolledBack    // failed at some other point

  datatype Tx = Tx(request: Credits.Request, setting: Option<int>, stage: Stage)

  // `books` is what has been committed. `lock` is the request that has written
  // to the account row and not ended yet, and `mine` the books as it sees them.
  // `order` lists the committed requests.
  datatype State = State(month: nat, books: Credits.Books, lock: Option<nat>, mine: Credits.Books,
                         txs: seq<Tx>, order: seq<nat>)

  datatype Step =
    | Look(i: nat)
    | Insert(i: nat)
    | LogOpening(i: nat)
    | Update(i: nat)
    | Log(i: nat)
    | Commit(i: nat)
    | Fail(i: nat)

  // ---- the statements of one request

  function ContextOf(month: nat, tx: Tx): Credits.Context {
    Credits.Context(month, tx.setting)
  }

  function CallOf(month: nat, tx: Tx): Credits.Call {
    Credits.Call(ContextOf(month, tx), tx.request)
  }

  // The request issues an UPDATE.
  predicate Writes(r: Credits.Request) {
    match r
    case Look => false
    case ChargeFor(_, cost) => cost > 0
    case RefundFor(_, cost) => cost > 0
    case GrantOf(amount, allowance) => amount != 0 || allowance.Some?
  }

  // The UPDATE matches the row.
  predicate Covers(b: Credits.Books, r: Credits.Request) {
    b.account.Some? && (r.ChargeFor? && r.cost > 0 ==> b.account.value.balance >= r.cost)
  }

  // What the request changes the balance by.
  function Change(r: Credits.Request): int {
    match r
    case Look => 0
    case ChargeFor(_, cost) => if cost > 0 then -cost else 0
    case RefundFor(_, cost) => if cost > 0 then cost else 0
    case GrantOf(amount, _) => amount
  }

  function Write(b: Credits.Books, r: Credits.Request): Credits.Books
    requires b.account.Some?
  {
    var a := b.account.value;
    var a1 := if r.GrantOf? && r.allowance.Some? then a.(monthlyAllowance := r.allowance.value) else a;
    b.(account := Some(a1.(balance := a.balance + Change(r))))
  }

  function Record(b: Credits.Books, r: Credits.Request, month: nat): Credits.Books
    requires b.account.Some?
  {
    var after := b.account.value.balance;
    match r
    case Look => b
    case ChargeFor(action, cost) =>
      b.(ledger := b.ledger + [Credits.Entry(Credits.Use, Some(action), -cost, after, month)])
    case RefundFor(action, cost) =>
      b.(ledger := b.ledger + [Credits.Entry(Credits.Refund, Some(action), cost, after, month)])
    case GrantOf(amount, _) =>
      if amount == 0 then b else b.(ledger := b.ledger + [Credits.Entry(Credits.Grant, None, amount, after, month)])
  }

  function Inserted(b: Credits.Books, month: nat, tx: Tx): Credits.Books {
    var allowance := Credits.DefaultAllowance(tx.setting);
    Credits.Books(Some(Credits.Account(allowance, allowance, month)), b.ledger)
  }

  function OpeningLogged(b: Credits.Books, month: nat): Credits.Books
    requires b.account.Some?
  {
    var balance := b.account.value.balance;
    b.(ledger := b.ledger + [Credits.Entry(Credits.Refill, None, balance, balance, month)])
  }

  // ---- steps

  // What a request sees: its own writes, or what is committed.
  function View(s: State, i: nat): Credits.Books {
    if s.lock == Some(i) then s.mine else s.books
  }

  predicate Running(stage: Stage) {
    stage !in {Committed, Refused, RolledBack}
  }

  // An INSERT waits for another uncommitted one, and an UPDATE for another
  // request that has written the row; an UPDATE that matches no row does not wait.
  predicate Enabled(s: State, step: Step) {
    step.i < |s.txs| &&
    var tx := s.txs[step.i];
    match step
    case Look(_) => tx.stage == Start
    case Insert(_) => tx.stage == SawNoAccount && (s.lock.None? || s.books.account.Some?)
    case LogOpening(i) => tx.stage == Created && s.lock == Some(i) && s.mine.account.Some?
    case Update(i) =>
      tx.stage == Ready && View(s, i).account.Some? &&
      (Writes(tx.request) && Covers(View(s, i), tx.request) ==> s.lock.None? || s.lock == Some(i))
    case Log(i) => tx.stage == Updated && s.lock == Some(i) && s.mine.account.Some?
    case Commit(_) => tx.stage == Done
    case Fail(_) => Running(tx.stage)
  }

  function At(s: State, i: nat, stage: Stage): State
    requires i < |s.txs|
  {
    s.(txs := s.txs[i := s.txs[i].(stage := stage)])
  }

  // The request ends without effect, and lets go of the row.
  function Undone(s: State, i: nat, stage: Stage): State
    requires i < |s.txs|
  {
    At(s, i, stage).(lock := if s.lock == Some(i) then None else s.lock)
  }

  function Next(s: State, step: Step): State
    requires Enabled(s, step)
  {
    var tx := s.txs[step.i];
    match step
    case Look(i) => At(s, i, if s.books.account.None? then SawNoAccount else Ready)
    case Insert(i) =>
      // the key is unique: when the row is there by now the insert fails, and the row is read again
      if s.books.account.None? then At(s, i, Created).(lock := Some(i), mine := Inserted(s.books, s.month, tx))
      else At(s, i, Ready)
    case LogOpening(i) => At(s, i, Ready).(mine := OpeningLogged(s.mine, s.month))
    case Update(i) =>
      if !Writes(tx.request) then At(s, i, Done)
      else if !Covers(View(s, i), tx.request) then Undone(s, i, Refused)
      else At(s, i, Updated).(lock := Some(i), mine := Write(View(s, i), tx.request))
    case Log(i) => At(s, i, Done).(mine := Record(s.mine, tx.request, s.month))
    case Commit(i) => Undone(s, i, Committed).(books := View(s, i), order := s.order + [i])
    case Fail(i) => Undone(s, i, RolledBack)
  }

  function Run(s: State, steps: seq<Step>): (end: Option<State>)
    ensures end.Some? ==> |end.value.txs| == |s.txs|
    decreases |steps|
  {
    if steps == [] then Some(s)
    else if !Enabled(s, steps[0]) then None
    else Run(Next(s, steps[0]), steps[1..])
  }

  // ---- the statements in a row are one serial call

  lemma ServedCall(b: Credits.Books, month: nat, tx: Tx)
    ensures var c := ContextOf(month, tx);
            var b1 := Credits.Opened(b, c);
            && (Covers(b1, tx.request) ==>
                  Credits.Apply(b, CallOf(month, tx)) ==
                  if Writes(tx.request) then Record(Write(b1, tx.request), tx.request, month) else b1)
            && (tx.request.ChargeFor? ==>
                  (Credits.Charged(b, c, tx.request.action, tx.request.cost).1.Done? <==> Covers(b1, tx.request)))
  {
  }

  lemma OpeningCall(b: Credits.Books, month: nat, tx: Tx)
    requires b.account.None?
    ensures Credits.Opened(b, ContextOf(month, tx)) == OpeningLogged(Inserted(b, month, tx), month)
  {
  }

  // ---- the invariant

  // What a request that has written the row has made of the committed books.
  predicate HolderFits(month: nat, books: Credits.Books, mine: Credits.Books, tx: Tx) {
    var b1 := Credits.Opened(books, ContextOf(month, tx));
    match tx.stage
    case Created => books.account.None? && mine == Inserted(books, month, tx)
    case Ready => books.account.None? && mine == b1
    case Updated => Writes(tx.request) && Covers(b1, tx.request) && mine == Write(b1, tx.request)
    case Done => Covers(b1, tx.request) && mine == Credits.Apply(books, CallOf(month, tx))
    case _ => false
  }

  predicate OtherFits(books: Credits.Books, tx: Tx) {
    && tx.stage != Created && tx.stage != Updated
    && (tx.stage == Ready ==> books.account.Some?)
    && (tx.stage == Done ==> books.account.Some? && !Writes(tx.request))
  }

  predicate ThisMonth(books: Credits.Books, month: nat) {
    books.account.Some? ==> books.account.value.period == month
  }

  predicate Fits(s: State) {
    && ThisMonth(s.books, s.month)
    && (s.lock.Some? ==> s.lock.value < |s.txs| && HolderFits(s.month, s.books, s.mine, s.txs[s.lock.value]))
    && (forall j :: 0 <= j < |s.txs| && s.lock != Some(j) ==> OtherFits(s.books, s.txs[j]))
  }

  lemma OpenedInMonth(b: Credits.Books, month: nat, tx: Tx)
    requires ThisMonth(b, month)
    ensures var b1 := Credits.Opened(b, ContextOf(month, tx));
            b1.account.Some? && ThisMonth(b1, month) && (b.account.Some? ==> b1 == b)
  {
  }

  lemma AppliedInMonth(b: Credits.Books, month: nat, tx: Tx)
    requires ThisMonth(b, month) && Covers(Credits.Opened(b, ContextOf(month, tx)), tx.request)
    ensures Credits.Apply(b, CallOf(month, tx)).account.Some? && ThisMonth(Credits.Apply(b, CallOf(month, tx)), month)
  {
    OpenedInMonth(b, month, tx);
    ServedCall(b, month, tx);
  }

  // A step that leaves the committed books alone, moves one request, and gives
  // the row to it, takes it away from it, or leaves the lock as it was.
  lemma MoveFits(s: State, s': State, i: nat)
    requires Fits(s) && i < |s.txs| == |s'.txs| && s'.month == s.month && s'.books == s.books
    requires s'.txs == s.txs[i := s'.txs[i]]
    requires s'.lock == Some(i) || (s'.lock == s.lock && s'.mine == s.mine) || (s.lock == Some(i) && s'.lock.None?)
    requires s'.lock == Some(i) ==>
             (s.lock.None? || s.lock == Some(i)) && HolderFits(s.month, s.books, s'.mine, s'.txs[i])
    requires s'.lock != Some(i) ==> OtherFits(s.books, s'.txs[i])
    ensures Fits(s')
  {
  }

  lemma UpdateFits(s: State, i: nat)
    requires Fits(s) && Enabled(s, Update(i))
    ensures Fits(Next(s, Update(i)))
  {
    OpenedInMonth(s.books, s.month, s.txs[i]);
    ServedCall(s.books, s.month, s.txs[i]);
    MoveFits(s, Next(s, Update(i)), i);
  }

  lemma LogFits(s: State, i: nat)
    requires Fits(s) && Enabled(s, Log(i))
    ensures Fits(Next(s, Log(i)))
  {
    ServedCall(s.books, s.month, s.txs[i]);
    MoveFits(s, Next(s, Log(i)), i);
  }

  lemma InsertFits(s: State, i: nat)
    requires Fits(s) && Enabled(s, Insert(i))
    ensures Fits(Next(s, Insert(i)))
  {
    MoveFits(s, Next(s, Insert(i)), i);
  }

  lemma LogOpeningFits(s: State, i: nat)
    requires Fits(s) && Enabled(s, LogOpening(i))
    ensures Fits(Next(s, LogOpening(i)))
  {
    OpeningCall(s.books, s.month, s.txs[i]);
    MoveFits(s, Next(s, LogOpening(i)), i);
  }

  // A commit is the serial call, in whichever way the request came there.
  lemma CommitIsCall(s: State, i: nat)
    requires Fits(s) && Enabled(s, Commit(i))
    ensures View(s, i) == Credits.Apply(s.books, CallOf(s.month, s.txs[i]))
    ensures Covers(Credits.Opened(s.books, ContextOf(s.month, s.txs[i])), s.txs[i].request)
    ensures View(s, i).account.Some? && ThisMonth(View(s, i), s.month)
  {
    OpenedInMonth(s.books, s.month, s.txs[i]);
    ServedCall(s.books, s.month, s.txs[i]);
    AppliedInMonth(s.books, s.month, s.txs[i]);
  }

  lemma CommitFits(s: State, i: nat)
    requires Fits(s) && Enabled(s, Commit(i))
    ensures Fits(Next(s, Commit(i)))
  {
    CommitIsCall(s, i);
    var s' := Next(s, Commit(i));
    if s.lock.Some? && s.lock != Some(i) {
      assert s'.books == s.books;
    }
    forall j | 0 <= j < |s'.txs| && s'.lock != Some(j) ensures OtherFits(s'.books, s'.txs[j]) {
      assert j != i ==> s'.txs[j] == s.txs[j];
    }
  }

  lemma NextFits(s: State, step: Step)
    requires Fits(s) && Enabled(s, step)
    ensures Fits(Next(s, step))
  {
    match step {
      case Look(i) => MoveFits(s, Next(s, step), i);
      case Insert(i) => InsertFits(s, i);
      case LogOpening(i) => LogOpeningFits(s, i);
      case Update(i) => UpdateFits(s, i);
      case Log(i) => LogFits(s, i);
      case Commit(i) => CommitFits(s, i);
      case Fail(i) => MoveFits(s, Next(s, step), i);
    }
  }

  // ---- the committed requests, one after another

  function Calls(month: nat, txs: seq<Tx>, order: seq<nat>): seq<Credits.Call>
    requires forall k :: 0 <= k < |order| ==> order[k] < |txs|
  {
    seq(|order|, k requires 0 <= k < |order| => CallOf(month, txs[order[k]]))
  }

  // No charge among them is refused.
  predicate AllServed(b: Credits.Books, calls: seq<Credits.Call>) {
    forall k :: 0 <= k < |calls| && calls[k].request.ChargeFor? ==>
      Credits.Charged(Credits.Run(b, calls[..k]), calls[k].context,
                      calls[k].request.action, calls[k].request.cost).1.Done?
  }

  // The order lists exactly the committed requests, each once.
  predicate OrderFits(s: State) {
    && (forall k :: 0 <= k < |s.order| ==> s.order[k] < |s.txs|)
    && (forall k, l :: 0 <= k < l < |s.order| ==> s.order[k] != s.order[l])
    && (forall i :: 0 <= i < |s.txs| ==> (s.txs[i].stage == Committed <==> i in s.order))
  }

  predicate Serial(start: Credits.Books, s: State) {
    && OrderFits(s)
    && s.books == Credits.Run(start, Calls(s.month, s.txs, s.order))
    && AllServed(start, Calls(s.month, s.txs, s.order))
  }

  lemma SameCalls(s: State, step: Step)
    requires Enabled(s, step) && OrderFits(s)
    ensures Calls(s.month, Next(s, step).txs, s.order) == Calls(s.month, s.txs, s.order)
  {
  }

  lemma NextOrder(s: State, step: Step)
    requires Enabled(s, step) && OrderFits(s)
    ensures OrderFits(Next(s, step))
  {
    var s' := Next(s, step);
    forall j | 0 <= j < |s'.txs| ensures s'.txs[j].stage == Committed <==> j in s'.order {
      assert j != step.i ==> s'.txs[j] == s.txs[j];
      assert step.Commit? ==> (j in s'.order <==> j in s.order || j == step.i);
    }
  }

  lemma RunAppend(b: Credits.Books, calls: seq<Credits.Call>, call: Credits.Call)
    ensures Credits.Run(b, calls + [call]) == Credits.Apply(Credits.Run(b, calls), call)
  {
    assert (calls + [call])[..|calls|] == calls;
  }

  lemma ServedAppend(b: Credits.Books, calls: seq<Credits.Call>, call: Credits.Call)
    requires AllServed(b, calls)
    requires call.request.ChargeFor? ==>
               Credits.Charged(Credits.Run(b, calls), call.context, call.request.action, call.request.cost).1.Done?
    ensures AllServed(b, calls + [call])
  {
    var all := calls + [call];
    forall k | 0 <= k < |all| && all[k].request.ChargeFor?
      ensures Credits.Charged(Credits.Run(b, all[..k]), all[k].context,
                              all[k].request.action, all[k].request.cost).1.Done?
    {
      assert all[..k] == calls[..k];
      assert calls[..|calls|] == calls;
    }
  }

  lemma CommitSerial(start: Credits.Books, s: State, i: nat)
    requires Fits(s) && Serial(start, s) && Enabled(s, Commit(i))
    ensures Serial(start, Next(s, Commit(i)))
  {
    var s', calls, call := Next(s, Commit(i)), Calls(s.month, s.txs, s.order), CallOf(s.month, s.txs[i]);
    NextOrder(s, Commit(i));
    SameCalls(s, Commit(i));
    CommitIsCall(s, i);
    ServedCall(s.books, s.month, s.txs[i]);
    RunAppend(start, calls, call);
    ServedAppend(start, calls, call);
    assert Calls(s'.month, s'.txs, s'.order) == calls + [call];
  }

  lemma NextSerial(start: Credits.Books, s: State, step: Step)
    requires Fits(s) && Serial(start, s) && Enabled(s, step)
    ensures Serial(start, Next(s, step))
  {
    if step.Commit? {
      CommitSerial(start, s, step.i);
    } else {
      NextOrder(s, step);
      SameCalls(s, step);
    }
  }

  lemma {:induction false} RunKeeps(start: Credits.Books, s: State, steps: seq<Step>)
    requires Fits(s) && Serial(start, s) && Run(s, steps).Some?
    ensures Fits(Run(s, steps).value) && Serial(start, Run(s, steps).value)
    decreases |steps|
  {
    if steps == [] {
    } else {
      NextFits(s, steps[0]);
      NextSerial(start, s, steps[0]);
      RunKeeps(start, Next(s, steps[0]), steps[1..]);
    }
  }

  // ---- what every interleaving keeps

  // No account yet or one of this month, and no request begun.
  predicate Initial(s: State) {
    && ThisMonth(s.books, s.month) && s.lock.None? && s.order == []
    && (forall i :: 0 <= i < |s.txs| ==> s.txs[i].stage == Start)
  }

  // In every reachable state the committed books are those of a serial run: the
  // committed requests, each once, in the order of their commits, and with every
  // charge among them served. Refused and failed requests leave nothing behind.
  lemma EveryInterleaving(s: State, steps: seq<Step>)
    requires Initial(s) && Run(s, steps).Some?
    ensures Serial(s.books, Run(s, steps).value)
  {
    assert Credits.Run(s.books, []) == s.books;
    assert Calls(s.month, s.txs, s.order) == [];
    RunKeeps(s.books, s, steps);
  }

  // ---- requests never block each other for good

  // The next statement of a running request.
  function NextStep(stage: Stage, i: nat): Step {
    match stage
    case Start => Look(i)
    case SawNoAccount => Insert(i)
    case Created => LogOpening(i)
    case Ready => Update(i)
    case Updated => Log(i)
    case _ => Commit(i)
  }

  lemma StepNotHeld(s: State, i: nat)
    requires Fits(s) && i < |s.txs| && Running(s.txs[i].stage) && (s.lock.None? || s.lock == Some(i))
    ensures Enabled(s, NextStep(s.txs[i].stage, i))
  {
    OpenedInMonth(s.books, s.month, s.txs[i]);
  }

  // Over every run a running request can execute its next statement, unless
  // another one holds the row; and the one that holds it always can.
  lemma NoDeadlock(s: State, steps: seq<Step>, i: nat)
    requires Initial(s) && Run(s, steps).Some? && i < |s.txs|
    requires Running(Run(s, steps).value.txs[i].stage)
    ensures var s' := Run(s, steps).value;
            (s'.lock.None? || s'.lock == Some(i) ==> Enabled(s', NextStep(s'.txs[i].stage, i)))
            && (s'.lock.Some? ==>
                  && s'.lock.value < |s'.txs| && Running(s'.txs[s'.lock.value].stage)
                  && Enabled(s', NextStep(s'.txs[s'.lock.value].stage, s'.lock.value)))
  {
    var s' := Run(s, steps).value;
    assert Credits.Run(s.books, []) == s.books;
    assert Calls(s.month, s.txs, s.order) == [];
    RunKeeps(s.books, s, steps);
    if s'.lock.None? || s'.lock == Some(i) {
      StepNotHeld(s', i);
    }
    if s'.lock.Some? {
      StepNotHeld(s', s'.lock.value);
    }
  }

  lemma {:induction false} SameRequests(s: State, steps: seq<Step>)
    requires Run(s, steps).Some?
    ensures var s' := Run(s, steps).value;
            && s'.month == s.month && |s'.txs| == |s.txs|
            && forall i :: 0 <= i < |s.txs| ==>
               s'.txs[i].request == s.txs[i].request && s'.txs[i].setting == s.txs[i].setting
    decreases |steps|
  {
    if steps == [] {
    } else {
      SameRequests(Next(s, steps[0]), steps[1..]);
    }
  }

  predicate GivesOnly(txs: seq<Tx>) {
    forall i :: 0 <= i < |txs| && txs[i].request.GrantOf? ==> txs[i].request.amount >= 0
  }

  // Changes that the holder of the row has made and not logged yet.
  function Unlogged(s: State): int
    requires Fits(s)
  {
    if s.lock.None? then 0
    else
      var tx := s.txs[s.lock.value];
      match tx.stage
      case Created => s.mine.account.value.balance
      case Updated => Change(tx.request)
      case _ => 0
  }

  // The row as it is now, and the entries written so far.
  function Now(s: State): Credits.Books {
    if s.lock.Some? then s.mine else s.books
  }

  function Balance(b: Credits.Books): int {
    if b.account.Some? then b.account.value.balance else 0
  }

  lemma RecordSum(b: Credits.Books, r: Credits.Request, month: nat)
    requires b.account.Some?
    ensures Writes(r) ==> Credits.Sum(Record(b, r, month).ledger) == Credits.Sum(b.ledger) + Change(r)
  {
    var l := Record(b, r, month).ledger;
    if l != b.ledger {
      assert l[..|b.ledger|] == b.ledger;
    }
  }

  // Of the holder: balance and entries, at each of its stages.
  lemma HolderBalance(month: nat, books: Credits.Books, mine: Credits.Books, tx: Tx)
    requires Credits.Balanced(books) && Credits.NonNegative(books) && HolderFits(month, books, mine, tx)
    requires tx.request.GrantOf? ==> tx.request.amount >= 0
    ensures mine.account.Some? && mine.account.value.balance >= 0
    ensures mine.account.value.balance == Credits.Sum(mine.ledger) +
              match tx.stage
              case Created => mine.account.value.balance
              case Updated => Change(tx.request)
              case _ => 0
  {
    var c := ContextOf(month, tx);
    Credits.OpenedBalanced(books, c);
    Credits.ApplyBalanced(books, CallOf(month, tx));
    Credits.ApplyNonNegative(books, CallOf(month, tx));
    ServedCall(books, month, tx);
    if tx.stage == Updated {
      RecordSum(mine, tx.request, month);
    }
  }

  // At every moment the balance of the row is not negative and equals the logged
  // amounts plus the updates not logged yet, and the committed books balance,
  // with every `balance_after` the sum of the entries up to its own.
  lemma BalanceAtEveryMoment(s: State, steps: seq<Step>)
    requires Initial(s) && Credits.Balanced(s.books) && Credits.NonNegative(s.books) && GivesOnly(s.txs)
    requires Run(s, steps).Some?
    ensures var s' := Run(s, steps).value;
            && Credits.Balanced(s'.books) && Credits.NonNegative(s'.books)
            && Fits(s') && Balance(Now(s')) >= 0
            && Balance(Now(s')) == Credits.Sum(Now(s').ledger) + Unlogged(s')
  {
    var s' := Run(s, steps).value;
    assert Calls(s.month, s.txs, s.order) == [] && Credits.Run(s.books, []) == s.books;
    RunKeeps(s.books, s, steps);
    SameRequests(s, steps);
    var calls := Calls(s'.month, s'.txs, s'.order);
    Credits.RunKeepsBalanced(s.books, calls);
    Credits.RunKeepsNonNegative(s.books, calls);
    if s'.lock.Some? {
      HolderBalance(s'.month, s'.books, s'.mine, s'.txs[s'.lock.value]);
    } else {
      assert Credits.Sum([]) == 0;
    }
  }

  predicate Ended(s: State) {
    forall i :: 0 <= i < |s.txs| ==> !Running(s.txs[i].stage)
  }

  // When every request has ended nothing is pending: the row is what is committed.
  lemma EndedBalances(s: State, steps: seq<Step>)
    requires Initial(s) && Credits.Balanced(s.books) && Credits.NonNegative(s.books) && GivesOnly(s.txs)
    requires Run(s, steps).Some? && Ended(Run(s, steps).value)
    ensures var s' := Run(s, steps).value;
            s'.lock.None? && Balance(s'.books) == Credits.Sum(s'.books.ledger)
  {
    BalanceAtEveryMoment(s, steps);
  }

  // However many requests find no account, it is opened once, and a creator
  // that is refused or fails takes its opening back.
  lemma RunOpenedOnce(s: State, steps: seq<Step>)
    requires Initial(s) && s.books == Credits.Fresh && Run(s, steps).Some?
    ensures var b := Run(s, steps).value.books;
            Credits.RefillsIn(b.ledger, s.month) == if b.account.Some? then 1 else 0
  {
    var s' := Run(s, steps).value;
    EveryInterleaving(s, steps);
    SameRequests(s, steps);
    Credits.OpenedOnce(Calls(s'.month, s'.txs, s'.order), s.month);
  }

  // ---- a charge is debited exactly when its conditional update matches

  // Some step of the run is the request's UPDATE, and it finds enough.
  predicate Matched(s: State, steps: seq<Step>, i: nat)
    requires i < |s.txs| && Run(s, steps).Some?
    decreases |steps|
  {
    steps != [] &&
    ((steps[0] == Update(i) && Covers(View(s, i), s.txs[i].request)) || Matched(Next(s, steps[0]), steps[1..], i))
  }

  // ... or it finds too little.
  predicate Unmatched(s: State, steps: seq<Step>, i: nat)
    requires i < |s.txs| && Run(s, steps).Some?
    decreases |steps|
  {
    steps != [] &&
    ((steps[0] == Update(i) && !Covers(View(s, i), s.txs[i].request)) || Unmatched(Next(s, steps[0]), steps[1..], i))
  }

  predicate Early(stage: Stage) {
    stage in {Start, SawNoAccount, Created, Ready}
  }

  predicate Debited(stage: Stage) {
    stage in {Updated, Done, Committed}
  }

  lemma OthersStay(s: State, step: Step, i: nat)
    requires Enabled(s, step) && i < |s.txs|
    ensures step.i != i ==> Next(s, step).txs[i] == s.txs[i]
    ensures Next(s, step).txs[i].request == s.txs[i].request
  {
  }

  lemma {:induction false} DebitedFrom(s: State, steps: seq<Step>, i: nat)
    requires i < |s.txs| && s.txs[i].request.ChargeFor? && s.txs[i].request.cost > 0 && Run(s, steps).Some?
    ensures var stage, stage' := s.txs[i].stage, Run(s, steps).value.txs[i].stage;
            && (Debited(stage') <==> Fail(i) !in steps && (Debited(stage) || (Early(stage) && Matched(s, steps, i))))
            && (stage' == Refused <==> stage == Refused || (Early(stage) && Unmatched(s, steps, i)))
            && (Matched(s, steps, i) || Unmatched(s, steps, i) ==> Early(stage))
    decreases |steps|
  {
    if steps == [] {
    } else {
      var s1 := Next(s, steps[0]);
      OthersStay(s, steps[0], i);
      DebitedFrom(s1, steps[1..], i);
      assert steps == [steps[0]] + steps[1..];
    }
  }

  // Over every run: a charge has been debited, and not failed since, if and only
  // if its update matched; it has been refused if and only if it did not.
  lemma DebitedExactly(s: State, steps: seq<Step>, i: nat)
    requires Initial(s) && Run(s, steps).Some? && i < |s.txs|
    requires s.txs[i].request.ChargeFor? && s.txs[i].request.cost > 0
    ensures var stage := Run(s, steps).value.txs[i].stage;
            && (Debited(stage) <==> Matched(s, steps, i) && Fail(i) !in steps)
            && (stage == Refused <==> Unmatched(s, steps, i))
  {
    DebitedFrom(s, steps, i);
  }

  // A creator that is refused leaves no account: an allowance of 2, a charge of 3.
  lemma RefusedCreatorExample()
    ensures var tx := Tx(Credits.ChargeFor("chat", 3), Some(2), Start);
            var s := State(1, Credits.Fresh, None, Credits.Fresh, [tx], []);
            var end := Run(s, [Look(0)] + ([Insert(0)] + ([LogOpening(0)] + ([Update(0)] + []))));
            end.Some? && end.value.books == Credits.Fresh && end.value.txs[0].stage == Refused
  {
    var tx := Tx(Credits.ChargeFor("chat", 3), Some(2), Start);
    var s := State(1, Credits.Fresh, None, Credits.Fresh, [tx], []);
    var s1 := Next(s, Look(0));
    var s2 := Next(s1, Insert(0));
    var s3 := Next(s2, LogOpening(0));
    RunOne(s3, Update(0), []);
    RunOne(s2, LogOpening(0), [Update(0)] + []);
    RunOne(s1, Insert(0), [LogOpening(0)] + ([Update(0)] + []));
    RunOne(s, Look(0), [Insert(0)] + ([LogOpening(0)] + ([Update(0)] + [])));
  }

  lemma RunOne(s: State, step: Step, rest: seq<Step>)
    requires Enabled(s, step)
    ensures Run(s, [step] + rest) == Run(Next(s, step), rest)
  {
    assert ([step] + rest)[1..] == rest;
  }
}
