// AI credits of one workspace, one request after another
// (services/api-gateway/app/ai_credits.py). A request that raises leaves
// everything as it was: its session is rolled back.

module Credits {
  import opened Options

  const MAX_GRANT := 1_000_000

  function Distance(a: int, b: int): nat {
    if a <= b then b - a else a - b
  }

  // The setting read as a number, or None when it is not one: of the amounts
  // allowed, the one nearest to it.
  function DefaultAllowance(setting: Option<int>): (allowance: nat)
    ensures allowance <= 1_000_000
    ensures setting.None? ==> allowance == 100
    ensures setting.Some? ==>
              forall n :: 0 <= n <= 1_000_000 ==> Distance(allowance, setting.value) <= Distance(n, setting.value)
  {
    match setting
    case None => 100
    case Some(n) => if n < 0 then 0 else if n > MAX_GRANT then MAX_GRANT else n
  }

  datatype Kind = Use | Grant | Refill | Refund

  // A row of the append-only ledger; `at` is the month it was written in.
  datatype Entry = Entry(kind: Kind, action: Option<string>, amount: int, balanceAfter: int, at: nat)

  datatype Account = Account(balance: int, monthlyAllowance: int, period: nat)

  datatype Books = Books(account: Option<Account>, ledger: seq<Entry>) {
    // Change the balance of the open account and log the change.
    function Post(kind: Kind, action: Option<string>, amount: int, now: nat): Books
      requires account.Some?
    {
      var after := account.value.balance + amount;
      Books(Some(account.value.(balance := after)), ledger + [Entry(kind, action, amount, after, now)])
    }
  }

  function Max(a: int, b: int): int {
    if a >= b then a else b
  }

  // The clock and the configuration a request sees.
  datatype Context = Context(month: nat, allowanceSetting: Option<int>)

  // The account, created with the default allowance, or refilled when a new
  // month has begun.
  function Opened(b: Books, c: Context): (b': Books)
    ensures b'.account.Some?
  {
    var allowance := DefaultAllowance(c.allowanceSetting);
    match b.account
    case None => Books(Some(Account(0, allowance, c.month)), b.ledger).Post(Refill, None, allowance, c.month)
    case Some(a) =>
      if a.period == c.month then b
      else
        var gained := Max(a.balance, a.monthlyAllowance) - a.balance;
        var b1 := b.(account := Some(a.(period := c.month)));
        if gained == 0 then b1 else b1.Post(Refill, None, gained, c.month)
  }

  datatype Outcome = Done(balance: int) | PaymentRequired(need: int, have: int)

  function Charged(b: Books, c: Context, action: string, cost: int): (Books, Outcome) {
    var b1 := Opened(b, c);
    var balance := b1.account.value.balance;
    if cost <= 0 then (b1, Done(balance))
    else if balance < cost then (b, PaymentRequired(cost, balance))
    else (b1.Post(Use, Some(action), -cost, c.month), Done(balance - cost))
  }

  function Refunded(b: Books, c: Context, action: string, cost: int): Books {
    var b1 := Opened(b, c);
    if cost > 0 then b1.Post(Refund, Some(action), cost, c.month) else b1
  }

  function Granted(b: Books, c: Context, amount: int, allowance: Option<int>): Books {
    var b1 := Opened(b, c);
    var b2 := if allowance.Some?
              then b1.(account := Some(b1.account.value.(monthlyAllowance := allowance.value))) else b1;
    if amount != 0 then b2.Post(Grant, None, amount, c.month) else b2
  }

  class CreditStore {
    var account: Option<Account>
    var ledger: seq<Entry>

    ghost function State(): Books
      reads this
    {
      Books(account, ledger)
    }

    constructor ()
      ensures State() == Books(None, [])
    {
      account, ledger := None, [];
    }

    method Log(kind: Kind, action: Option<string>, amount: int, after: int, month: nat)
      modifies this`ledger
      ensures ledger == old(ledger) + [Entry(kind, action, amount, after, month)]
    {
      ledger := ledger + [Entry(kind, action, amount, after, month)];
    }

    method OpenAccount(c: Context) returns (row: Account)
      modifies this
      ensures State() == Opened(old(State()), c)
      ensures account == Some(row)
    {
      if account.None? {
        row := Account(DefaultAllowance(c.allowanceSetting), DefaultAllowance(c.allowanceSetting), c.month);
        account := Some(row);
        Log(Refill, None, row.balance, row.balance, c.month);
      } else if account.value.period != c.month {
        var topped := Max(account.value.balance, account.value.monthlyAllowance);
        var gained := topped - account.value.balance;
        account := Some(account.value.(balance := topped, period := c.month));
        if gained != 0 {
          Log(Refill, None, gained, topped, c.month);
        }
      }
      row := account.value;
    }

    method Charge(c: Context, action: string, cost: int) returns (outcome: Outcome)
      modifies this
      ensures (State(), outcome) == Charged(old(State()), c, action, cost)
    {
      var savedAccount, savedLedger := account, ledger;
      var acct := OpenAccount(c);
      if cost <= 0 {
        return Done(acct.balance);
      }
      if acct.balance < cost {
        account, ledger := savedAccount, savedLedger;
        return PaymentRequired(cost, acct.balance);
      }
      account := Some(acct.(balance := acct.balance - cost));
      Log(Use, Some(action), -cost, account.value.balance, c.month);
      outcome := Done(account.value.balance);
    }

    method GiveBack(c: Context, action: string, cost: int) returns (balance: int)
      modifies this
      ensures State() == Refunded(old(State()), c, action, cost)
      ensures account.Some? && balance == account.value.balance
    {
      var acct := OpenAccount(c);
      if cost > 0 {
        account := Some(acct.(balance := acct.balance + cost));
        Log(Refund, Some(action), cost, account.value.balance, c.month);
      }
      balance := account.value.balance;
    }

    method AddCredits(c: Context, amount: int, allowance: Option<int>)
      modifies this
      ensures State() == Granted(old(State()), c, amount, allowance)
    {
      var acct := OpenAccount(c);
      if amount != 0 {
        acct := acct.(balance := acct.balance + amount);
      }
      if allowance.Some? {
        acct := acct.(monthlyAllowance := allowance.value);
      }
      account := Some(acct);
      if amount != 0 {
        Log(Grant, None, amount, acct.balance, c.month);
      }
    }
  }

  // ---- runs

  datatype Request =
    | Look
    | ChargeFor(action: string, cost: int)
    | RefundFor(action: string, cost: int)
    | GrantOf(amount: int, allowance: Option<int>)

  datatype Call = Call(context: Context, request: Request)

  function Apply(b: Books, call: Call): Books {
    match call.request
    case Look => Opened(b, call.context)
    case ChargeFor(action, cost) => Charged(b, call.context, action, cost).0
    case RefundFor(action, cost) => Refunded(b, call.context, action, cost)
    case GrantOf(amount, allowance) => Granted(b, call.context, amount, allowance)
  }

  function Run(b: Books, calls: seq<Call>): Books {
    if calls == [] then b else Apply(Run(b, calls[..|calls| - 1]), calls[|calls| - 1])
  }

  const Fresh: Books := Books(None, [])

  function Sum(ledger: seq<Entry>): int {
    if ledger == [] then 0 else Sum(ledger[..|ledger| - 1]) + ledger[|ledger| - 1].amount
  }

  // The books balance: the balance is the sum of the ledger, and every entry
  // states the sum of the ledger up to and including itself.
  predicate Balanced(b: Books) {
    && (b.account.None? ==> b.ledger == [])
    && (b.account.Some? ==> b.account.value.balance == Sum(b.ledger))
    && StatesSums(b.ledger)
  }

  predicate StatesSums(ledger: seq<Entry>) {
    forall i :: 0 <= i < |ledger| ==> ledger[i].balanceAfter == Sum(ledger[..i + 1])
  }

  lemma PostBalanced(b: Books, kind: Kind, action: Option<string>, amount: int, now: nat)
    requires b.account.Some? && b.account.value.balance == Sum(b.ledger) && StatesSums(b.ledger)
    ensures Balanced(b.Post(kind, action, amount, now))
  {
    var ledger := b.Post(kind, action, amount, now).ledger;
    assert ledger[..|ledger| - 1] == b.ledger;
    assert ledger[..|ledger|] == ledger;
    forall i | 0 <= i < |b.ledger| ensures ledger[i].balanceAfter == Sum(ledger[..i + 1]) {
      assert ledger[..i + 1] == b.ledger[..i + 1];
    }
  }

  lemma CreatedBalanced(b: Books, c: Context)
    requires Balanced(b) && b.account.None?
    ensures Balanced(Opened(b, c))
  {
    var allowance := DefaultAllowance(c.allowanceSetting);
    PostBalanced(Books(Some(Account(0, allowance, c.month)), b.ledger), Refill, None, allowance, c.month);
  }

  lemma ToppedUpBalanced(b: Books, a: Account, c: Context)
    requires Balanced(b) && b.account == Some(a) && a.period != c.month
    ensures Balanced(Opened(b, c))
  {
    var gained := Max(a.balance, a.monthlyAllowance) - a.balance;
    var b1 := Books(Some(a.(period := c.month)), b.ledger);
    if gained != 0 {
      PostBalanced(b1, Refill, None, gained, c.month);
      assert Opened(b, c) == b1.Post(Refill, None, gained, c.month);
    }
  }

  lemma OpenedBalanced(b: Books, c: Context)
    requires Balanced(b)
    ensures Balanced(Opened(b, c))
  {
    if b.account.None? {
      CreatedBalanced(b, c);
    } else if b.account.value.period != c.month {
      ToppedUpBalanced(b, b.account.value, c);
    }
  }

  lemma ApplyBalanced(b: Books, call: Call)
    requires Balanced(b)
    ensures Balanced(Apply(b, call))
  {
    var c := call.context;
    var b1 := Opened(b, c);
    OpenedBalanced(b, c);
    match call.request {
      case Look =>
      case ChargeFor(action, cost) => PostBalanced(b1, Use, Some(action), -cost, c.month);
      case RefundFor(action, cost) => PostBalanced(b1, Refund, Some(action), cost, c.month);
      case GrantOf(amount, allowance) => GrantBalanced(b, c, amount, allowance);
    }
  }

  lemma GrantBalanced(b: Books, c: Context, amount: int, allowance: Option<int>)
    requires Balanced(Opened(b, c))
    ensures Balanced(Granted(b, c, amount, allowance))
  {
    var b1 := Opened(b, c);
    var b2 := if allowance.Some?
              then b1.(account := Some(b1.account.value.(monthlyAllowance := allowance.value))) else b1;
    PostBalanced(b2, Grant, None, amount, c.month);
  }

  lemma {:induction false} RunKeepsBalanced(b: Books, calls: seq<Call>)
    requires Balanced(b)
    ensures Balanced(Run(b, calls))
  {
    if calls == [] {
    } else {
      RunKeepsBalanced(b, calls[..|calls| - 1]);
      ApplyBalanced(Run(b, calls[..|calls| - 1]), calls[|calls| - 1]);
    }
  }

  // Over every run, across any months and with the clock moving either way.
  lemma RunBalanced(calls: seq<Call>)
    ensures Balanced(Run(Fresh, calls))
  {
    assert Balanced(Fresh);
    RunKeepsBalanced(Fresh, calls);
  }

  // ---- the balance is never negative

  predicate NonNegative(b: Books) {
    b.account.Some? ==> b.account.value.balance >= 0
  }

  predicate GivesOnly(calls: seq<Call>) {
    forall i :: 0 <= i < |calls| && calls[i].request.GrantOf? ==> calls[i].request.amount >= 0
  }

  lemma ApplyNonNegative(b: Books, call: Call)
    requires NonNegative(b) && (call.request.GrantOf? ==> call.request.amount >= 0)
    ensures NonNegative(Apply(b, call))
  {
    var b1 := Opened(b, call.context);
    assert b1.account.value.balance >= 0;
  }

  lemma {:induction false} RunKeepsNonNegative(b: Books, calls: seq<Call>)
    requires NonNegative(b) && GivesOnly(calls)
    ensures NonNegative(Run(b, calls))
  {
    if calls == [] {
    } else {
      RunKeepsNonNegative(b, calls[..|calls| - 1]);
      ApplyNonNegative(Run(b, calls[..|calls| - 1]), calls[|calls| - 1]);
    }
  }

  lemma RunNonNegative(calls: seq<Call>)
    requires GivesOnly(calls)
    ensures NonNegative(Run(Fresh, calls))
  {
    assert NonNegative(Fresh);
    RunKeepsNonNegative(Fresh, calls);
  }

  // ---- what single requests promise

  // A refill brings the balance to the larger of itself and the allowance.
  lemma RefillIsMax(b: Books, c: Context)
    requires b.account.Some? && b.account.value.period != c.month
    ensures var a, a' := b.account.value, Opened(b, c).account.value;
            && a' == Account(Max(a.balance, a.monthlyAllowance), a.monthlyAllowance, c.month)
            && Opened(Opened(b, c), c) == Opened(b, c)
  {
  }

  // A charge is refused exactly when the balance, after any refill, is too
  // small; a refused charge changes nothing, not even the refill.
  lemma RefusedExactly(b: Books, c: Context, action: string, cost: int)
    ensures var (b', outcome) := Charged(b, c, action, cost);
            && (outcome.PaymentRequired? <==> cost > 0 && Opened(b, c).account.value.balance < cost)
            && (outcome.PaymentRequired? ==> b' == b)
            && (outcome.Done? ==> b'.account.value.balance == outcome.balance)
  {
  }

  // Charging and refunding in the same month restores the balance and leaves
  // two entries that cancel.
  lemma ChargeThenRefund(b: Books, c: Context, action: string, cost: int)
    requires cost > 0 && Charged(b, c, action, cost).1.Done?
    ensures var b1 := Opened(b, c);
            var b2 := Refunded(Charged(b, c, action, cost).0, c, action, cost);
            && b2.account == b1.account
            && |b2.ledger| == |b1.ledger| + 2 && b2.ledger[..|b1.ledger|] == b1.ledger
            && b2.ledger[|b1.ledger|].amount + b2.ledger[|b1.ledger| + 1].amount == 0
  {
    assert Opened(b, c).account.value.period == c.month;
  }

  // ---- at most one refill per month

  predicate Forward(calls: seq<Call>) {
    forall i, j :: 0 <= i <= j < |calls| ==> calls[i].context.month <= calls[j].context.month
  }

  // No two refills in one month, and none after the account's period.
  predicate RefillsApart(b: Books, now: nat) {
    && (b.account.None? ==> b.ledger == [])
    && (b.account.Some? ==> b.account.value.period <= now)
    && (forall i :: 0 <= i < |b.ledger| && b.ledger[i].kind == Refill ==>
          b.account.Some? && b.ledger[i].at <= b.account.value.period)
    && (forall i, j :: 0 <= i < j < |b.ledger| && b.ledger[i].kind == b.ledger[j].kind == Refill ==>
          b.ledger[i].at < b.ledger[j].at)
  }

  lemma OpenedApart(b: Books, c: Context)
    requires RefillsApart(b, c.month)
    ensures RefillsApart(Opened(b, c), c.month)
  {
  }

  lemma ApplyApart(b: Books, call: Call)
    requires RefillsApart(b, call.context.month)
    ensures RefillsApart(Apply(b, call), call.context.month)
  {
    OpenedApart(b, call.context);
  }

  lemma {:induction false} OneRefillPerMonth(calls: seq<Call>, now: nat)
    requires Forward(calls) && forall i :: 0 <= i < |calls| ==> calls[i].context.month <= now
    ensures RefillsApart(Run(Fresh, calls), now)
  {
    if calls == [] {
    } else {
      var before, last := calls[..|calls| - 1], calls[|calls| - 1];
      OneRefillPerMonth(before, last.context.month);
      ApplyApart(Run(Fresh, before), last);
    }
  }

  // ---- exactly which clocks give at most one refill per month

  function RefillsIn(ledger: seq<Entry>, month: nat): nat {
    if ledger == [] then 0
    else
      var last := ledger[|ledger| - 1];
      RefillsIn(ledger[..|ledger| - 1], month) + if last.kind == Refill && last.at == month then 1 else 0
  }

  // How many times the clock enters the month.
  function Visits(months: seq<nat>, month: nat): nat {
    if months == [] then 0
    else Visits(months[..|months| - 1], month) + if Enters(months, month) then 1 else 0
  }

  predicate Enters(months: seq<nat>, month: nat)
    requires months != []
  {
    months[|months| - 1] == month && (|months| == 1 || months[|months| - 2] != month)
  }

  function Months(calls: seq<Call>): seq<nat> {
    seq(|calls|, i requires 0 <= i < |calls| => calls[i].context.month)
  }

  // The month can still be refilled during the present visit.
  predicate Open(b: Books, months: seq<nat>, month: nat) {
    months != [] && months[|months| - 1] == month && (b.account.None? || b.account.value.period != month)
  }

  lemma RefillsAppend(ledger: seq<Entry>, e: Entry, month: nat)
    ensures RefillsIn(ledger + [e], month) ==
            RefillsIn(ledger, month) + if e.kind == Refill && e.at == month then 1 else 0
  {
    assert (ledger + [e])[..|ledger|] == ledger;
  }

  lemma OpenedRefills(b: Books, c: Context, month: nat)
    ensures RefillsIn(Opened(b, c).ledger, month) ==
            RefillsIn(b.ledger, month) + if c.month == month && Opened(b, c).ledger != b.ledger then 1 else 0
    ensures Opened(b, c).account.value.period == c.month
    ensures b.account.Some? && b.account.value.period == c.month ==> Opened(b, c) == b
  {
    var l := Opened(b, c).ledger;
    if l != b.ledger {
      RefillsAppend(b.ledger, l[|b.ledger|], month);
    }
  }

  lemma PostRefillsNothing(b: Books, kind: Kind, action: Option<string>, amount: int, now: nat, month: nat)
    requires b.account.Some? && kind != Refill
    ensures RefillsIn(b.Post(kind, action, amount, now).ledger, month) == RefillsIn(b.ledger, month)
  {
    RefillsAppend(b.ledger, Entry(kind, action, amount, b.account.value.balance + amount, now), month);
  }

  // What a call that is not rolled back leaves of the opened books.
  predicate KeepsRefills(b: Books, b1: Books, month: nat) {
    b.account.Some? && b1.account.Some? && b.account.value.period == b1.account.value.period &&
    RefillsIn(b.ledger, month) == RefillsIn(b1.ledger, month)
  }

  // A call is rolled back, or refills at most the month it is made in.
  lemma ApplyRefills(b: Books, call: Call, month: nat)
    ensures Apply(b, call) == b || KeepsRefills(Apply(b, call), Opened(b, call.context), month)
  {
    var c := call.context;
    var b1 := Opened(b, c);
    match call.request {
      case Look =>
      case ChargeFor(action, cost) => PostRefillsNothing(b1, Use, Some(action), -cost, c.month, month);
      case RefundFor(action, cost) => PostRefillsNothing(b1, Refund, Some(action), cost, c.month, month);
      case GrantOf(amount, allowance) =>
        var b2 := if allowance.Some?
                  then b1.(account := Some(b1.account.value.(monthlyAllowance := allowance.value))) else b1;
        PostRefillsNothing(b2, Grant, None, amount, c.month, month);
    }
  }

  lemma VisitsAppend(months: seq<nat>, m: nat, month: nat)
    ensures Visits(months + [m], month) ==
            Visits(months, month) + if m == month && (months == [] || months[|months| - 1] != month) then 1 else 0
  {
    assert (months + [m])[..|months|] == months;
  }

  // The bound on refills, kept by one more call.
  lemma OneMoreCall(b: Books, months: seq<nat>, call: Call, month: nat)
    requires RefillsIn(b.ledger, month) + (if Open(b, months, month) then 1 else 0) <= Visits(months, month)
    ensures var b', months' := Apply(b, call), months + [call.context.month];
            RefillsIn(b'.ledger, month) + (if Open(b', months', month) then 1 else 0) <= Visits(months', month)
  {
    VisitsAppend(months, call.context.month, month);
    ApplyRefills(b, call, month);
    OpenedRefills(b, call.context, month);
  }

  // A month is refilled at most once a visit, whatever is requested.
  lemma {:induction false} RefillsWithinVisits(calls: seq<Call>, month: nat)
    ensures var b := Run(Fresh, calls);
            RefillsIn(b.ledger, month) + (if Open(b, Months(calls), month) then 1 else 0)
            <= Visits(Months(calls), month)
  {
    if calls == [] {
    } else {
      var before, last := calls[..|calls| - 1], calls[|calls| - 1];
      RefillsWithinVisits(before, month);
      assert Months(calls) == Months(before) + [last.context.month];
      OneMoreCall(Run(Fresh, before), Months(before), last, month);
    }
  }

  // The clock never comes back to a month it has left.
  predicate NeverReturns(months: seq<nat>) {
    forall i, j, k :: 0 <= i < j < k < |months| && months[i] == months[k] ==> months[j] == months[i]
  }

  lemma {:induction false} VisitedAtLeastOnce(months: seq<nat>, i: nat)
    requires i < |months|
    ensures Visits(months, months[i]) >= 1
  {
    var before := months[..|months| - 1];
    if i == |months| - 1 && (|months| == 1 || months[|months| - 2] != months[i]) {
    } else if i == |months| - 1 {
      VisitedAtLeastOnce(before, |months| - 2);
    } else {
      VisitedAtLeastOnce(before, i);
    }
  }

  lemma {:induction false} ReturningVisitsTwice(months: seq<nat>, i: nat, j: nat, k: nat)
    requires i < j < k < |months| && months[i] == months[k] != months[j]
    ensures Visits(months, months[i]) >= 2
  {
    var before := months[..|months| - 1];
    if k < |months| - 1 {
      ReturningVisitsTwice(before, i, j, k);
    } else if months[|months| - 2] != months[k] {
      VisitedAtLeastOnce(before, i);
    } else {
      ReturningVisitsTwice(before, i, j, |months| - 2);
    }
  }

  lemma {:induction false} NeverReturningVisitsOnce(months: seq<nat>, month: nat)
    requires NeverReturns(months)
    ensures Visits(months, month) <= 1
    ensures (forall i :: 0 <= i < |months| ==> months[i] != month) ==> Visits(months, month) == 0
  {
    if months == [] {
    } else {
      var before := months[..|months| - 1];
      assert NeverReturns(before) by {
        forall i, j, k | 0 <= i < j < k < |before| && before[i] == before[k] ensures before[j] == before[i] {
          assert months[i] == months[k];
        }
      }
      NeverReturningVisitsOnce(before, month);
      assert forall i :: 0 <= i < |months| - 2 && months[i] == months[|months| - 1] ==>
        months[|months| - 2] == months[i];
    }
  }

  // Within one month the account is opened once, and never refilled.
  lemma {:induction false} OpenedOnce(calls: seq<Call>, month: nat)
    requires forall i :: 0 <= i < |calls| ==> calls[i].context.month == month
    ensures var b := Run(Fresh, calls);
            && RefillsIn(b.ledger, month) == (if b.account.Some? then 1 else 0)
            && (b.account.Some? ==> b.account.value.period == month)
  {
    if calls == [] {
    } else {
      var before, last := calls[..|calls| - 1], calls[|calls| - 1];
      OpenedOnce(before, month);
      ApplyRefills(Run(Fresh, before), last, month);
      OpenedRefills(Run(Fresh, before), last.context, month);
    }
  }

  // Every call takes the whole allowance of one credit.
  function Spending(months: seq<nat>): seq<Call> {
    seq(|months|, i requires 0 <= i < |months| => Call(Context(months[i], Some(1)), ChargeFor("chat", 1)))
  }

  lemma SpendOnce(b: Books, month: nat, m: nat)
    requires b.account.None? || b.account == Some(Account(0, 1, b.account.value.period))
    ensures var b' := Apply(b, Call(Context(month, Some(1)), ChargeFor("chat", 1)));
            && b'.account == Some(Account(0, 1, month))
            && RefillsIn(b'.ledger, m) ==
               RefillsIn(b.ledger, m) +
               if m == month && (b.account.None? || b.account.value.period != month) then 1 else 0
  {
    var c := Context(month, Some(1));
    var l := Opened(b, c).ledger;
    OpenedRefills(b, c, m);
    RefillsAppend(l, Entry(Use, Some("chat"), -1, 0, month), m);
  }

  // Spending refills the month at every visit.
  lemma {:induction false} SpendingRefills(months: seq<nat>, month: nat)
    ensures var b := Run(Fresh, Spending(months));
            && RefillsIn(b.ledger, month) == Visits(months, month)
            && (if months == [] then b.account.None? else b.account == Some(Account(0, 1, months[|months| - 1])))
  {
    if months == [] {
    } else {
      var before := months[..|months| - 1];
      SpendingRefills(before, month);
      assert Spending(months)[..|before|] == Spending(before);
      SpendOnce(Run(Fresh, Spending(before)), months[|months| - 1], month);
    }
  }

  predicate OncePerMonth(ledger: seq<Entry>) {
    forall e :: e in ledger ==> RefillsIn(ledger, e.at) <= 1
  }

  // Whatever is requested at these readings of the clock.
  ghost predicate AlwaysOncePerMonth(months: seq<nat>) {
    forall calls: seq<Call> :: Months(calls) == months ==> OncePerMonth(Run(Fresh, calls).ledger)
  }

  lemma {:induction false} RefilledHasEntry(ledger: seq<Entry>, month: nat) returns (e: Entry)
    requires RefillsIn(ledger, month) > 0
    ensures e in ledger && e.at == month
  {
    var last := ledger[|ledger| - 1];
    if last.at == month {
      e := last;
    } else {
      e := RefilledHasEntry(ledger[..|ledger| - 1], month);
    }
  }

  // Every run has at most one refill in any month if and only if the clock
  // never comes back to a month it has left.
  lemma OneRefillExactly(months: seq<nat>)
    ensures AlwaysOncePerMonth(months) <==> NeverReturns(months)
  {
    if NeverReturns(months) {
      forall calls: seq<Call> | Months(calls) == months ensures OncePerMonth(Run(Fresh, calls).ledger) {
        forall e | e in Run(Fresh, calls).ledger ensures RefillsIn(Run(Fresh, calls).ledger, e.at) <= 1 {
          RefillsWithinVisits(calls, e.at);
          NeverReturningVisitsOnce(months, e.at);
        }
      }
    } else {
      var i, j, k :| 0 <= i < j < k < |months| && months[i] == months[k] && months[j] != months[i];
      var ledger := Run(Fresh, Spending(months)).ledger;
      ReturningVisitsTwice(months, i, j, k);
      SpendingRefills(months, months[i]);
      var e := RefilledHasEntry(ledger, months[i]);
      assert Months(Spending(months)) == months;
      assert !OncePerMonth(ledger);
    }
  }

  // The clock returns to the first month, which is refilled again.
  lemma BackwardClockExample()
    ensures var c1, c2 := Context(1, Some(5)), Context(2, Some(5));
            var spend := ChargeFor("chat", 5);
            var b := Run(Fresh, [Call(c1, spend), Call(c2, spend), Call(c1, Look)]);
            && |b.ledger| == 5 && b.ledger[0].kind == b.ledger[4].kind == Refill && b.ledger[0].at == b.ledger[4].at
  {
    var c1, c2 := Context(1, Some(5)), Context(2, Some(5));
    var spend := ChargeFor("chat", 5);
    var calls := [Call(c1, spend), Call(c2, spend), Call(c1, Look)];
    var b1 := Apply(Fresh, calls[0]);
    var b2 := Apply(b1, calls[1]);
    RunThree(calls);
    assert b1.account == Some(Account(0, 5, 1)) && |b1.ledger| == 2 && b1.ledger[0].kind == Refill
      && b1.ledger[0].at == 1;
    assert b2.account == Some(Account(0, 5, 2)) && |b2.ledger| == 4 && b2.ledger[0] == b1.ledger[0];
  }

  lemma RunThree(calls: seq<Call>)
    requires |calls| == 3
    ensures Run(Fresh, calls) == Apply(Apply(Apply(Fresh, calls[0]), calls[1]), calls[2])
  {
    var two, one := calls[..2], calls[..1];
    assert two[..1] == one && one[..0] == [];
    assert Run(Fresh, one) == Apply(Run(Fresh, one[..0]), one[0]);
  }
}
