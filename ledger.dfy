/** The transaction ledger of `database.py`: one table of rows
    `(id, user_id, type, amount, note, date)` with an auto-increment id, an insert,
    and the today and month reports, each a filter/group-by query followed by a
    totals loop and the balance arithmetic. */
module Ledger {

  import opened Wrappers

  /** A point in time, in seconds since the epoch: what the `date` column holds. */
  type Timestamp = int

  const SecondsPerDay: int := 86400

  /** SQLite's `DATE(date)`, as a day number: the day whose midnight is at or
      before `t` and whose next midnight is after it. */
  function DateOf(t: Timestamp): (d: int)
    ensures d * SecondsPerDay <= t < d * SecondsPerDay + SecondsPerDay
  {
    t / SecondsPerDay
  }

  /** The transaction types the bot writes; the `type` column itself is free text. */
  const Salary: string := "salary"
  const Expense: string := "expense"
  const Savings: string := "savings"

  datatype Row = Row(id: int, userId: int, kind: string, amount: real, note: string, date: Timestamp)

  /** One line of `SELECT type, SUM(amount) AS total, COUNT(*) AS count ... GROUP BY type`. */
  datatype Group = Group(kind: string, total: real, count: nat)

  /** What the totals loop picks out of the grouped result. */
  datatype Totals = Totals(salary: real, expenses: real, expenseCount: nat, savings: real)

  const ZeroTotals: Totals := Totals(0.0, 0.0, 0, 0.0)

  /** The today report: the "no transactions" text, or the totals and the balance. */
  datatype DayReport =
    | NoTransactionsToday
    | DaySummary(totals: Totals, balance: real)

  /** The month report: the "no transactions" text, or totals, balance and savings rate. */
  datatype MonthReport =
    | NoTransactionsThisMonth
    | MonthSummary(totals: Totals, balance: real, savingsRate: real)

  // ----- The WHERE clauses -----

  /** The date test of a report: `DATE(date) = day` or `DATE(date) >= first`. */
  datatype DateTest = OnDay(day: int) | FromDay(first: int)

  /** `user_id = ? AND <date test>` */
  predicate Selected(r: Row, userId: int, test: DateTest) {
    r.userId == userId &&
    match test
    case OnDay(d) => DateOf(r.date) == d
    case FromDay(f) => DateOf(r.date) >= f
  }

  /** The rows a report query reads, in table order. */
  function Where(rows: seq<Row>, userId: int, test: DateTest): (sel: seq<Row>)
    ensures |sel| <= |rows|
    ensures forall i :: 0 <= i < |sel| ==> Selected(sel[i], userId, test)
  {
    if rows == [] then []
    else
      var last := rows[|rows| - 1];
      Where(rows[..|rows| - 1], userId, test) + (if Selected(last, userId, test) then [last] else [])
  }

  lemma WhereAppend(rows: seq<Row>, r: Row, userId: int, test: DateTest)
    ensures Where(rows + [r], userId, test) ==
            Where(rows, userId, test) + (if Selected(r, userId, test) then [r] else [])
  {
    assert (rows + [r])[..|rows|] == rows;
  }

  /** A report reads exactly the rows of that user that pass the date test. */
  lemma {:induction false} WhereMembers(rows: seq<Row>, userId: int, test: DateTest, r: Row)
    ensures r in Where(rows, userId, test) <==> r in rows && Selected(r, userId, test)
  {
    if rows != [] {
      var init := rows[..|rows| - 1];
      WhereMembers(init, userId, test, r);
      assert rows == init + [rows[|rows| - 1]];
    }
  }

  // ----- SUM and COUNT -----

  /** `SUM(amount)` over the rows of one type (0 when there are none). */
  function SumOf(rows: seq<Row>, kind: string): real
  {
    if rows == [] then 0.0
    else
      var last := rows[|rows| - 1];
      SumOf(rows[..|rows| - 1], kind) + (if last.kind == kind then last.amount else 0.0)
  }

  /** `COUNT(*)` over the rows of one type. */
  function CountOf(rows: seq<Row>, kind: string): (n: nat)
    ensures n <= |rows|
  {
    if rows == [] then 0
    else
      var last := rows[|rows| - 1];
      CountOf(rows[..|rows| - 1], kind) + (if last.kind == kind then 1 else 0)
  }

  lemma SumAppend(rows: seq<Row>, r: Row, kind: string)
    ensures SumOf(rows + [r], kind) == SumOf(rows, kind) + (if r.kind == kind then r.amount else 0.0)
    ensures CountOf(rows + [r], kind) == CountOf(rows, kind) + (if r.kind == kind then 1 else 0)
  {
    assert (rows + [r])[..|rows|] == rows;
  }

  /** A type with no rows sums to 0. */
  lemma {:induction false} NoRowsNoSum(rows: seq<Row>, kind: string)
    requires CountOf(rows, kind) == 0
    ensures SumOf(rows, kind) == 0.0
  {
    if rows != [] {
      NoRowsNoSum(rows[..|rows| - 1], kind);
    }
  }

  /** A type that some row has is counted. */
  lemma {:induction false} PresentIsCounted(rows: seq<Row>, i: nat)
    requires i < |rows|
    ensures CountOf(rows, rows[i].kind) > 0
  {
    if i < |rows| - 1 {
      PresentIsCounted(rows[..|rows| - 1], i);
    }
  }

  // ----- GROUP BY type -----

  /** Where the group of `kind` sits in a grouped result, if it has one. */
  function FindGroup(gs: seq<Group>, kind: string): (r: Option<nat>)
    ensures r.Some? ==> r.value < |gs| && gs[r.value].kind == kind
    ensures r.None? ==> forall i :: 0 <= i < |gs| ==> gs[i].kind != kind
  {
    if gs == [] then None
    else if gs[0].kind == kind then Some(0)
    else match FindGroup(gs[1..], kind)
      case None => None
      case Some(i) => Some(i + 1)
  }

  /** No type has two groups. */
  predicate DistinctKinds(gs: seq<Group>) {
    forall i, j :: 0 <= i < j < |gs| ==> gs[i].kind != gs[j].kind
  }

  /** Folds one row into the running groups. */
  function AddToGroups(gs: seq<Group>, r: Row): seq<Group>
  {
    match FindGroup(gs, r.kind)
    case Some(i) => gs[i := Group(r.kind, gs[i].total + r.amount, gs[i].count + 1)]
    case None => gs + [Group(r.kind, r.amount, 1)]
  }

  /** The grouped result of a query, one group per type in order of first appearance. */
  function GroupByType(rows: seq<Row>): seq<Group>
  {
    if rows == [] then [] else AddToGroups(GroupByType(rows[..|rows| - 1]), rows[|rows| - 1])
  }

  /** `gs` is the SQL grouping of `rows`: one group per type that occurs, each
      holding that type's `SUM(amount)` and `COUNT(*)`. */
  ghost predicate GroupsOf(gs: seq<Group>, rows: seq<Row>) {
    DistinctKinds(gs) &&
    (forall i :: 0 <= i < |gs| ==> gs[i].total == SumOf(rows, gs[i].kind) && gs[i].count == CountOf(rows, gs[i].kind)) &&
    (forall k :: FindGroup(gs, k).Some? <==> CountOf(rows, k) > 0)
  }

  /** Folding in a row whose type already has a group. */
  lemma AddToExistingGroup(gs: seq<Group>, rows: seq<Row>, r: Row)
    requires GroupsOf(gs, rows)
    requires FindGroup(gs, r.kind).Some?
    ensures GroupsOf(AddToGroups(gs, r), rows + [r])
  {
    var i := FindGroup(gs, r.kind).value;
    var gs' := AddToGroups(gs, r);
    assert gs' == gs[i := Group(r.kind, gs[i].total + r.amount, gs[i].count + 1)];
    forall k
      ensures SumOf(rows + [r], k) == SumOf(rows, k) + (if r.kind == k then r.amount else 0.0)
      ensures CountOf(rows + [r], k) == CountOf(rows, k) + (if r.kind == k then 1 else 0)
    {
      SumAppend(rows, r, k);
    }
    forall k
      ensures FindGroup(gs', k).Some? <==> FindGroup(gs, k).Some?
    {
      UpdateKeepsKinds(gs, i, gs'[i], k);
    }
  }

  /** Replacing a group by one of the same type leaves every type's presence as it was. */
  lemma UpdateKeepsKinds(gs: seq<Group>, i: nat, g: Group, k: string)
    requires i < |gs| && g.kind == gs[i].kind
    ensures FindGroup(gs[i := g], k).Some? <==> FindGroup(gs, k).Some?
  {
    var gs' := gs[i := g];
    if FindGroup(gs, k).Some? {
      var j := FindGroup(gs, k).value;
      assert gs'[j].kind == k;
    }
    if FindGroup(gs', k).Some? {
      var j := FindGroup(gs', k).value;
      assert gs[j].kind == k;
    }
  }

  /** Folding in a row of a type not yet grouped: a new group at the end. */
  lemma AddNewGroup(gs: seq<Group>, rows: seq<Row>, r: Row)
    requires GroupsOf(gs, rows)
    requires FindGroup(gs, r.kind).None?
    ensures GroupsOf(AddToGroups(gs, r), rows + [r])
  {
    var gs' := AddToGroups(gs, r);
    assert gs' == gs + [Group(r.kind, r.amount, 1)];
    NoRowsNoSum(rows, r.kind);
    forall k
      ensures SumOf(rows + [r], k) == SumOf(rows, k) + (if r.kind == k then r.amount else 0.0)
      ensures CountOf(rows + [r], k) == CountOf(rows, k) + (if r.kind == k then 1 else 0)
    {
      SumAppend(rows, r, k);
    }
    forall k
      ensures FindGroup(gs', k).Some? <==> (FindGroup(gs, k).Some? || k == r.kind)
    {
      AppendAddsKind(gs, gs'[|gs|], k);
    }
  }

  /** Appending a group adds its type and keeps every other type's presence. */
  lemma AppendAddsKind(gs: seq<Group>, g: Group, k: string)
    ensures FindGroup(gs + [g], k).Some? <==> (FindGroup(gs, k).Some? || k == g.kind)
  {
    var gs' := gs + [g];
    if FindGroup(gs, k).Some? {
      var j := FindGroup(gs, k).value;
      assert gs'[j].kind == k;
    }
    if k == g.kind {
      assert gs'[|gs|].kind == k;
    }
    if FindGroup(gs', k).Some? && k != g.kind {
      var j := FindGroup(gs', k).value;
      assert gs[j].kind == k;
    }
  }

  /** The group-by is SQL's, and it is empty exactly when no row was read. */
  lemma {:induction false} GroupByTypeSound(rows: seq<Row>)
    ensures GroupsOf(GroupByType(rows), rows)
    ensures GroupByType(rows) == [] <==> rows == []
  {
    if rows != [] {
      var init, r := rows[..|rows| - 1], rows[|rows| - 1];
      assert rows == init + [r];
      GroupByTypeSound(init);
      var gs := GroupByType(init);
      if FindGroup(gs, r.kind).Some? {
        AddToExistingGroup(gs, init, r);
      } else {
        AddNewGroup(gs, init, r);
      }
      PresentIsCounted(rows, |rows| - 1);
      assert FindGroup(GroupByType(rows), r.kind).Some?;
    }
  }

  // ----- The totals loop -----

  /** What the loop leaves in an accumulator: the `total` of the last group of
      `kind`, or the initial 0 if there is none. */
  function LastTotal(gs: seq<Group>, kind: string): real
  {
    if gs == [] then 0.0
    else if gs[|gs| - 1].kind == kind then gs[|gs| - 1].total
    else LastTotal(gs[..|gs| - 1], kind)
  }

  /** The same, for the `count` column. */
  function LastCount(gs: seq<Group>, kind: string): nat
  {
    if gs == [] then 0
    else if gs[|gs| - 1].kind == kind then gs[|gs| - 1].count
    else LastCount(gs[..|gs| - 1], kind)
  }

  /** `for row in results:` picks the salary, expense and savings totals and the
      expense count; every other type is skipped and each default is 0. */
  method TallyTotals(results: seq<Group>) returns (t: Totals)
    ensures t == Totals(LastTotal(results, Salary), LastTotal(results, Expense),
                        LastCount(results, Expense), LastTotal(results, Savings))
  {
    var salary, expenses, savings := 0.0, 0.0, 0.0;
    var expenseCount: nat := 0;
    var i := 0;
    while i < |results|
      invariant 0 <= i <= |results|
      invariant salary == LastTotal(results[..i], Salary)
      invariant expenses == LastTotal(results[..i], Expense)
      invariant expenseCount == LastCount(results[..i], Expense)
      invariant savings == LastTotal(results[..i], Savings)
    {
      var row := results[i];
      assert results[..i + 1][..i] == results[..i];
      if row.kind == Salary {
        salary := row.total;
      } else if row.kind == Expense {
        expenses := row.total;
        expenseCount := row.count;
      } else if row.kind == Savings {
        savings := row.total;
      }
      i := i + 1;
    }
    assert results[..i] == results;
    t := Totals(salary, expenses, expenseCount, savings);
  }

  /** With one group per type, the last group of a type is its only group. */
  lemma {:induction false} LastIsTheGroup(gs: seq<Group>, kind: string)
    requires DistinctKinds(gs)
    ensures FindGroup(gs, kind).Some? ==>
              LastTotal(gs, kind) == gs[FindGroup(gs, kind).value].total &&
              LastCount(gs, kind) == gs[FindGroup(gs, kind).value].count
    ensures FindGroup(gs, kind).None? ==> LastTotal(gs, kind) == 0.0 && LastCount(gs, kind) == 0
  {
    if gs != [] {
      var init := gs[..|gs| - 1];
      assert DistinctKinds(init);
      LastIsTheGroup(init, kind);
      if gs[|gs| - 1].kind != kind {
        match FindGroup(gs, kind)
        case None =>
          assert forall i :: 0 <= i < |init| ==> init[i].kind != kind;
        case Some(j) =>
          assert FindGroup(init, kind).Some? by {
            assert init[j].kind == kind;
          }
          var j' := FindGroup(init, kind).value;
          assert init[j'].kind == gs[j'].kind;
      } else {
        var j := FindGroup(gs, kind).value;
        assert j == |gs| - 1;
      }
    }
  }

  /** The loop over the grouped result yields the sums and the count of the rows read. */
  lemma TallyOfGroups(rows: seq<Row>, kind: string)
    ensures LastTotal(GroupByType(rows), kind) == SumOf(rows, kind)
    ensures LastCount(GroupByType(rows), kind) == CountOf(rows, kind)
  {
    GroupByTypeSound(rows);
    LastIsTheGroup(GroupByType(rows), kind);
    if FindGroup(GroupByType(rows), kind).None? {
      NoRowsNoSum(rows, kind);
    }
  }

  // ----- The reports as functions of the table -----

  /** The totals of the rows a report reads. */
  function TotalsOf(sel: seq<Row>): Totals {
    Totals(SumOf(sel, Salary), SumOf(sel, Expense), CountOf(sel, Expense), SumOf(sel, Savings))
  }

  /** The savings rate, guarded against a zero or negative salary. */
  function SavingsRate(salary: real, savings: real): (rate: real)
    ensures salary <= 0.0 ==> rate == 0.0
    ensures salary > 0.0 ==> rate * salary == savings * 100.0
  {
    if salary > 0.0 then savings / salary * 100.0 else 0.0
  }

  /** What `get_today_report` computes for `user_id` on day `today`. */
  function DayReportOf(rows: seq<Row>, userId: int, today: int): (r: DayReport)
    ensures r.NoTransactionsToday? <==> Where(rows, userId, OnDay(today)) == []
    ensures r.DaySummary? ==> r.balance == r.totals.salary - r.totals.expenses - r.totals.savings
  {
    var sel := Where(rows, userId, OnDay(today));
    if sel == [] then NoTransactionsToday
    else
      var t := TotalsOf(sel);
      DaySummary(t, t.salary - t.expenses - t.savings)
  }

  /** What `get_month_report` computes for `user_id` from day `firstDay` on. */
  function MonthReportOf(rows: seq<Row>, userId: int, firstDay: int): (r: MonthReport)
    ensures r.NoTransactionsThisMonth? <==> Where(rows, userId, FromDay(firstDay)) == []
    ensures r.MonthSummary? ==>
              r.balance == r.totals.salary - r.totals.expenses - r.totals.savings &&
              r.savingsRate == SavingsRate(r.totals.salary, r.totals.savings)
  {
    var sel := Where(rows, userId, FromDay(firstDay));
    if sel == [] then NoTransactionsThisMonth
    else
      var t := TotalsOf(sel);
      MonthSummary(t, t.salary - t.expenses - t.savings, SavingsRate(t.salary, t.savings))
  }

  /** The totals the reports show, 0 everywhere for a "no transactions" report. */
  function DayTotals(r: DayReport): Totals {
    if r.DaySummary? then r.totals else ZeroTotals
  }

  function MonthTotals(r: MonthReport): Totals {
    if r.MonthSummary? then r.totals else ZeroTotals
  }

  /** The totals after one more row of type `r.kind`: the matching total grows by
      the amount (and the expense count by one); nothing else changes. */
  function Bump(t: Totals, r: Row): Totals {
    if r.kind == Salary then t.(salary := t.salary + r.amount)
    else if r.kind == Expense then t.(expenses := t.expenses + r.amount, expenseCount := t.expenseCount + 1)
    else if r.kind == Savings then t.(savings := t.savings + r.amount)
    else t
  }

  /** A row the query reads adds itself to its type's totals. */
  lemma RecordBumpsTotals(rows: seq<Row>, r: Row, userId: int, test: DateTest)
    requires Selected(r, userId, test)
    ensures TotalsOf(Where(rows + [r], userId, test)) == Bump(TotalsOf(Where(rows, userId, test)), r)
  {
    WhereAppend(rows, r, userId, test);
    var sel := Where(rows, userId, test);
    SumAppend(sel, r, Salary);
    SumAppend(sel, r, Expense);
    SumAppend(sel, r, Savings);
  }

  /** The "no transactions" variant appears exactly when the user has no row dated `today`. */
  lemma NoTransactionsTodayIff(rows: seq<Row>, userId: int, today: int)
    ensures DayReportOf(rows, userId, today).NoTransactionsToday? <==>
            forall r :: r in rows ==> !(r.userId == userId && DateOf(r.date) == today)
  {
    var sel := Where(rows, userId, OnDay(today));
    forall r ensures r in sel <==> r in rows && Selected(r, userId, OnDay(today)) {
      WhereMembers(rows, userId, OnDay(today), r);
    }
    if sel != [] {
      assert sel[0] in sel;
    }
  }

  /** The month query has a lower bound only: the "no transactions" variant appears
      exactly when the user has no row dated `firstDay` or later, however much later. */
  lemma NoTransactionsThisMonthIff(rows: seq<Row>, userId: int, firstDay: int)
    ensures MonthReportOf(rows, userId, firstDay).NoTransactionsThisMonth? <==>
            forall r :: r in rows ==> !(r.userId == userId && DateOf(r.date) >= firstDay)
  {
    var sel := Where(rows, userId, FromDay(firstDay));
    forall r ensures r in sel <==> r in rows && Selected(r, userId, FromDay(firstDay)) {
      WhereMembers(rows, userId, FromDay(firstDay), r);
    }
    if sel != [] {
      assert sel[0] in sel;
    }
  }

  /** Recording an expense of `a` dated today raises today's expense total by
      exactly `a` and the expense count by exactly 1, and leaves salary and
      savings as they were. */
  lemma ExpenseRaisesToday(rows: seq<Row>, userId: int, today: int, id: int, a: real, note: string, t: Timestamp)
    requires DateOf(t) == today
    ensures var before := DayTotals(DayReportOf(rows, userId, today));
            var after := DayReportOf(rows + [Row(id, userId, Expense, a, note, t)], userId, today);
            after.DaySummary? &&
            after.totals == Totals(before.salary, before.expenses + a, before.expenseCount + 1, before.savings)
  {
    var r := Row(id, userId, Expense, a, note, t);
    RecordBumpsTotals(rows, r, userId, OnDay(today));
    WhereAppend(rows, r, userId, OnDay(today));
  }

  /** Any row of the user dated today shows in today's report under its type. */
  lemma RecordShowsToday(rows: seq<Row>, r: Row, today: int)
    requires DateOf(r.date) == today
    ensures var after := DayReportOf(rows + [r], r.userId, today);
            after.DaySummary? && after.totals == Bump(DayTotals(DayReportOf(rows, r.userId, today)), r)
  {
    RecordBumpsTotals(rows, r, r.userId, OnDay(today));
    WhereAppend(rows, r, r.userId, OnDay(today));
  }

  /** Any row of the user dated on or after the first day of the month shows in the
      month report, whatever its date: the query has no upper bound. */
  lemma RecordShowsInMonth(rows: seq<Row>, r: Row, firstDay: int)
    requires DateOf(r.date) >= firstDay
    ensures var after := MonthReportOf(rows + [r], r.userId, firstDay);
            after.MonthSummary? && after.totals == Bump(MonthTotals(MonthReportOf(rows, r.userId, firstDay)), r)
  {
    RecordBumpsTotals(rows, r, r.userId, FromDay(firstDay));
    WhereAppend(rows, r, r.userId, FromDay(firstDay));
  }

  /** Rows of other users never contribute to a user's reports. */
  lemma OtherUsersInvisible(rows: seq<Row>, r: Row, userId: int, today: int, firstDay: int)
    requires r.userId != userId
    ensures DayReportOf(rows + [r], userId, today) == DayReportOf(rows, userId, today)
    ensures MonthReportOf(rows + [r], userId, firstDay) == MonthReportOf(rows, userId, firstDay)
  {
    WhereAppend(rows, r, userId, OnDay(today));
    WhereAppend(rows, r, userId, FromDay(firstDay));
    assert Where(rows, userId, OnDay(today)) + [] == Where(rows, userId, OnDay(today));
    assert Where(rows, userId, FromDay(firstDay)) + [] == Where(rows, userId, FromDay(firstDay));
  }

  /** Rows of types other than salary, expense and savings add nothing to the
      totals, yet they make the result non-empty: such a day reports all zeros. */
  lemma {:induction false} OtherTypesIgnored(sel: seq<Row>)
    requires forall i :: 0 <= i < |sel| ==> sel[i].kind != Salary && sel[i].kind != Expense && sel[i].kind != Savings
    ensures TotalsOf(sel) == ZeroTotals
  {
    if sel != [] {
      OtherTypesIgnored(sel[..|sel| - 1]);
    }
  }

  lemma OtherTypesOnlyDay(rows: seq<Row>, userId: int, today: int)
    requires Where(rows, userId, OnDay(today)) != []
    requires forall r :: r in rows && Selected(r, userId, OnDay(today)) ==>
               r.kind != Salary && r.kind != Expense && r.kind != Savings
    ensures DayReportOf(rows, userId, today) == DaySummary(ZeroTotals, 0.0)
  {
    var sel := Where(rows, userId, OnDay(today));
    forall i | 0 <= i < |sel|
      ensures sel[i].kind != Salary && sel[i].kind != Expense && sel[i].kind != Savings
    {
      WhereMembers(rows, userId, OnDay(today), sel[i]);
    }
    OtherTypesIgnored(sel);
  }

  /** A day on or after the first of the month holds no more rows of a type than
      the month does. */
  lemma {:induction false} DayCountWithinMonth(rows: seq<Row>, userId: int, today: int, firstDay: int, kind: string)
    requires firstDay <= today
    ensures CountOf(Where(rows, userId, OnDay(today)), kind) <= CountOf(Where(rows, userId, FromDay(firstDay)), kind)
  {
    if rows != [] {
      var init, r := rows[..|rows| - 1], rows[|rows| - 1];
      assert rows == init + [r];
      DayCountWithinMonth(init, userId, today, firstDay, kind);
      var day, month := Where(init, userId, OnDay(today)), Where(init, userId, FromDay(firstDay));
      WhereAppend(init, r, userId, OnDay(today));
      WhereAppend(init, r, userId, FromDay(firstDay));
      CountMaybeAppended(day, r, Selected(r, userId, OnDay(today)), kind);
      CountMaybeAppended(month, r, Selected(r, userId, FromDay(firstDay)), kind);
    }
  }

  /** Counting after a row that may or may not have been selected. */
  lemma CountMaybeAppended(rows: seq<Row>, r: Row, sel: bool, kind: string)
    ensures CountOf(rows + (if sel then [r] else []), kind) ==
            CountOf(rows, kind) + (if sel && r.kind == kind then 1 else 0)
  {
    if sel {
      SumAppend(rows, r, kind);
    } else {
      assert rows + [] == rows;
    }
  }

  // ----- The table -----

  /** The `transactions` table. */
  class Database {
    var rows: seq<Row>
    /** The next AUTOINCREMENT id. */
    var nextId: int

    /** Ids are positive, below the next id and strictly increasing in table order. */
    ghost predicate Valid()
      reads this
    {
      nextId >= 1 &&
      (forall i :: 0 <= i < |rows| ==> 1 <= rows[i].id < nextId) &&
      (forall i, j :: 0 <= i < j < |rows| ==> rows[i].id < rows[j].id)
    }

    /** `init_db` on a new database file: an empty table. */
    constructor ()
      ensures Valid() && rows == [] && nextId == 1
    {
      rows := [];
      nextId := 1;
    }

    /** `add_transaction(user_id, transaction_type, amount, note='')`: appends one
        row with the next id and the current time, and touches no other row. */
    method AddTransaction(userId: int, kind: string, amount: real, now: Timestamp, note: string := "")
      requires Valid()
      modifies this
      ensures Valid()
      ensures rows == old(rows) + [Row(old(nextId), userId, kind, amount, note, now)]
      ensures nextId == old(nextId) + 1
    {
      rows := rows + [Row(nextId, userId, kind, amount, note, now)];
      nextId := nextId + 1;
    }

    /** `get_today_report(user_id)`, for the day `today` the clock gives. */
    method GetTodayReport(userId: int, today: int) returns (r: DayReport)
      ensures r == DayReportOf(rows, userId, today)
    {
      var sel := Where(rows, userId, OnDay(today));
      var results := GroupByType(sel);
      assert results == [] <==> sel == [] by { GroupByTypeSound(sel); }
      if results == [] {
        return NoTransactionsToday;
      }
      var t := TallyTotals(results);
      TallyOfGroups(sel, Salary);
      TallyOfGroups(sel, Expense);
      TallyOfGroups(sel, Savings);
      assert t == TotalsOf(sel);
      var balance := t.salary - t.expenses - t.savings;
      r := DaySummary(t, balance);
    }

    /** `get_month_report(user_id)`, for the first day `firstDay` of the current month. */
    method GetMonthReport(userId: int, firstDay: int) returns (r: MonthReport)
      ensures r == MonthReportOf(rows, userId, firstDay)
    {
      var sel := Where(rows, userId, FromDay(firstDay));
      var results := GroupByType(sel);
      assert results == [] <==> sel == [] by { GroupByTypeSound(sel); }
      if results == [] {
        return NoTransactionsThisMonth;
      }
      var t := TallyTotals(results);
      TallyOfGroups(sel, Salary);
      TallyOfGroups(sel, Expense);
      TallyOfGroups(sel, Savings);
      assert t == TotalsOf(sel);
      var balance := t.salary - t.expenses - t.savings;
      r := MonthSummary(t, balance, SavingsRate(t.salary, t.savings));
    }
  }
}
