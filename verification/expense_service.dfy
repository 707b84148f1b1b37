/**
 * `ExpenseService`: turns a page number into an offset, a user, year and
 * month into the criteria the repository filters by, and a submitted
 * amount and category into a new expense.
 */
module ExpenseServices {
  import opened Wrappers
  import opened Decimal
  import opened Calendar
  import opened Entities
  import opened Query
  import opened Persistence

  // ---------------------------------------------------------------------------
  // Paging

  /** The number of expenses before page `page` when every page holds `pageSize`. */
  function Offset(page: int, pageSize: int): int {
    (page - 1) * pageSize
  }

  /** Two neighbouring windows of `k` elements together are the window of `2k` at the first one's offset. */
  lemma WindowsTile<T>(s: seq<T>, o: int, k: int)
    requires o >= 0 && k >= 0
    ensures Page(s, o, k) + Page(s, o + k, k) == Page(s, o, 2 * k)
  {
    var lo := Skip(o, |s|);
    var mid := if lo + k > |s| then |s| else lo + k;
    var hi := if lo + 2 * k > |s| then |s| else lo + 2 * k;
    assert Skip(o + k, |s|) == mid;
    assert Page(s, o, k) == s[lo..mid];
    assert Page(s, o + k, k) == s[mid..hi];
    assert s[lo..mid] + s[mid..hi] == s[lo..hi];
  }

  /**
   * Page 1 starts at the first expense, page p + 1 starts where page p ends,
   * and two neighbouring pages together are the window twice as long.
   */
  lemma PagesTile<T>(s: seq<T>, page: int, pageSize: int)
    requires page >= 1 && pageSize >= 0
    ensures Offset(1, pageSize) == 0
    ensures Offset(page + 1, pageSize) == Offset(page, pageSize) + pageSize
    ensures Page(s, Offset(page, pageSize), pageSize) + Page(s, Offset(page + 1, pageSize), pageSize)
            == Page(s, Offset(page, pageSize), 2 * pageSize)
  {
    var o := Offset(page, pageSize);
    assert Offset(page + 1, pageSize) == o + pageSize by {
      assert page * pageSize == (page - 1) * pageSize + pageSize;
    }
    assert o >= 0;
    WindowsTile(s, o, pageSize);
  }

  // ---------------------------------------------------------------------------
  // Criteria

  /** The month as `list` and `countExpenses` write it: a '0' before a single-character `strval`. */
  function MonthText(month: int): string {
    if month < 10 then "0" + IntText(month) else IntText(month)
  }

  /**
   * A non-negative month's text is a digit string that reads back as the
   * month, two characters long below 100, and unpadded from 10 on.
   */
  lemma MonthTextValue(month: int)
    requires month >= 0
    ensures AllDigits(MonthText(month)) && Parse(MonthText(month)) == month
    ensures month < 100 ==> |MonthText(month)| == 2
    ensures month >= 10 ==> MonthText(month) == IntText(month)
  {
    ValueOfDigits(month);
    assert Pow10(1) == 10 && Pow10(2) == 100;
    if month < 10 {
      DigitsLength(month, 1);
      assert MonthText(month) == Zeros(1) + Digits(month);
      ValueIgnoresLeadingZeros(1, Digits(month));
    } else if month < 100 {
      DigitsLength(month, 2);
    }
  }

  /** The month text equals a date's `%m` field exactly when it is that month. */
  lemma MonthTextMatches(m: int, month: nat)
    requires 1 <= month <= 12
    ensures MonthText(m) == Pad(month, 2) <==> m == month
  {
    PadFacts(month, 2);
    assert Pow10(1) == 10 && Pow10(2) == 100;
    MonthTextValue(month);
    DigitsLength(month, 1);
    if month < 10 {
      assert MonthText(month) == Zeros(1) + Digits(month);
    }
    if m >= 0 {
      MonthTextValue(m);
    } else {
      assert MonthText(m)[1] == '-';
      assert IsDigit(Pad(month, 2)[1]);
    }
  }

  /** The bound value of `user_id`: the user's id, or NULL for a user without one. */
  function UserIdValue(user: User): Value {
    if user.id.Some? then Int(user.id.value) else Null
  }

  /** The criteria array both `list` and `countExpenses` pass: user, year and month. */
  function MonthCriteria(user: User, year: int, month: int): Criteria {
    [Criterion("user_id", UserIdValue(user)), Criterion("year", Text(IntText(year))), Criterion("month", Text(MonthText(month)))]
  }

  /** Whether a row is one of the user's expenses in that year and month. */
  predicate InMonth(user: User, year: int, month: int, row: Row) {
    && user.id.Some?
    && row.userId == user.id
    && row.date.year == year
    && row.date.month == month
    && year >= 1000
  }

  /**
   * A row satisfies the month criteria exactly when it belongs to the user
   * and falls in that year and month; a user without an id matches nothing,
   * and neither does a year below 1000.
   */
  lemma MonthCriteriaMeaning(user: User, year: int, month: int, id: int, row: Row)
    ensures Satisfies(id, row, MonthCriteria(user, year, month)) <==> InMonth(user, year, month, row)
  {
    var cs := MonthCriteria(user, year, month);
    ColumnNamesItself("user_id");
    YearTextMatches(year, row.date.year);
    MonthTextMatches(month, row.date.month);
    assert Holds(id, row, cs[0]) <==> user.id.Some? && row.userId == user.id;
    assert Holds(id, row, cs[1]) <==> row.date.year == year && year >= 1000;
    assert Holds(id, row, cs[2]) <==> row.date.month == month;
  }

  /** The month criteria never make SQLite reject the statement. */
  lemma MonthCriteriaAccepted(t: Table, user: User, year: int, month: int, from: int, limit: int)
    ensures FindBySpec(t, MonthCriteria(user, year, month), from, limit).Ok?
    ensures CountSpec(t, MonthCriteria(user, year, month)).Ok?
  {
    ColumnNamesItself("user_id");
    FindByFails(t, MonthCriteria(user, year, month), from, limit);
  }

  /**
   * The page `list` returns: at most `pageSize` expenses, each one of the
   * user's in that year and month, latest first.
   */
  lemma ListMeaning(t: Table, user: User, year: int, month: int, page: int, pageSize: int)
    ensures var r := FindBySpec(t, MonthCriteria(user, year, month), Offset(page, pageSize), pageSize);
            && r.Ok?
            && (pageSize >= 0 ==> |r.value| <= pageSize)
            && (forall k :: 0 <= k < |r.value| ==>
                  r.value[k].id.Some? && r.value[k].id.value in t && InMonth(user, year, month, RowOf(r.value[k])))
            && (forall k, k' :: 0 <= k < k' < |r.value| ==> Rank(r.value[k].date) >= Rank(r.value[k'].date))
  {
    var cs := MonthCriteria(user, year, month);
    MonthCriteriaAccepted(t, user, year, month, Offset(page, pageSize), pageSize);
    FindByMeaning(t, cs, Offset(page, pageSize), pageSize);
    var r := FindBySpec(t, cs, Offset(page, pageSize), pageSize).value;
    forall k | 0 <= k < |r|
      ensures InMonth(user, year, month, RowOf(r[k]))
    {
      MonthCriteriaMeaning(user, year, month, r[k].id.value, t[r[k].id.value]);
    }
  }

  /** `countExpenses` counts the user's expenses in that year and month, so no page of `list` holds more. */
  lemma CountMeaning(t: Table, user: User, year: int, month: int, page: int, pageSize: int)
    ensures var c := CountSpec(t, MonthCriteria(user, year, month));
            && c.Ok?
            && c.value == |set id | id in t && InMonth(user, year, month, t[id])|
            && |FindBySpec(t, MonthCriteria(user, year, month), Offset(page, pageSize), pageSize).value| <= c.value
  {
    var cs := MonthCriteria(user, year, month);
    MonthCriteriaAccepted(t, user, year, month, Offset(page, pageSize), pageSize);
    CountCoversFindBy(t, cs, Offset(page, pageSize), pageSize);
    forall id | id in t
      ensures Satisfies(id, t[id], cs) <==> InMonth(user, year, month, t[id])
    {
      MonthCriteriaMeaning(user, year, month, id, t[id]);
    }
    assert MatchIds(t, cs) == set id | id in t && InMonth(user, year, month, t[id]);
  }

  // ---------------------------------------------------------------------------
  // A new expense

  /** PHP's `ucfirst`: the first character upper-cased when it is a lower-case ASCII letter. */
  function Ucfirst(s: string): (r: string)
    ensures |r| == |s|
    ensures |s| > 0 ==> r[1..] == s[1..]
    ensures |s| > 0 && 'a' <= s[0] <= 'z' ==> 'A' <= r[0] <= 'Z' && r[0] as int - s[0] as int == 'A' as int - 'a' as int
    ensures |s| > 0 && !('a' <= s[0] <= 'z') ==> r == s
  {
    if |s| > 0 && 'a' <= s[0] <= 'z' then [(s[0] as int - 32) as char] + s[1..] else s
  }

  /** Upper-casing the first character twice is doing it once. */
  lemma UcfirstIdempotent(s: string)
    ensures Ucfirst(Ucfirst(s)) == Ucfirst(s)
  {
  }

  /** `(int)($amount * 100)`: the amount in cents, truncated toward zero. */
  function Cents(amount: real): (c: int)
    ensures amount >= 0.0 ==> c >= 0 && c as real <= amount * 100.0 < c as real + 1.0
    ensures amount < 0.0 ==> c <= 0 && c as real - 1.0 < amount * 100.0 <= c as real
  {
    var x := amount * 100.0;
    if x >= 0.0 then x.Floor else -((-x).Floor)
  }

  /** A positive amount below one cent passes as positive yet is stored as zero cents. */
  lemma SubCentAmountStoresZero(amount: real)
    requires 0.0 < amount < 0.01
    ensures Cents(amount) == 0
  {
  }

  /** The expense `create` saves: no id yet, the user's id, the category with `ucfirst`, the amount in cents. */
  function NewExpense(user: User, amount: real, description: string, date: Date, category: string): Expense {
    Expense(None, user.id, date, Ucfirst(category), Cents(amount), description)
  }

  /**
   * Creating adds exactly one row, under a fresh id, holding the user's id,
   * the date and description as given, the category with `ucfirst` and the
   * amount in truncated cents; every other row stays.
   */
  lemma CreateAddsOne(t: Table, user: User, amount: real, description: string, date: Date, category: string)
    ensures var t', k := Upsert(t, NewExpense(user, amount, description, date, category)), NextId(t);
            && k !in t
            && t'.Keys == t.Keys + {k}
            && t'[k] == Row(user.id, date, Ucfirst(category), Cents(amount), description)
            && forall j :: j in t ==> t'[j] == t[j]
  {
    UpsertInsertsOne(t, NewExpense(user, amount, description, date, category));
  }

  class ExpenseService {
    const expenses: PdoExpenseRepository

    constructor (expenses: PdoExpenseRepository)
      ensures this.expenses == expenses
    {
      this.expenses := expenses;
    }

    /** `list`: page `pageNumber` of the user's expenses in that year and month. */
    method List(user: User, year: int, month: int, pageNumber: int, pageSize: int) returns (r: seq<Expense>)
      ensures FindBySpec(expenses.rows, MonthCriteria(user, year, month), Offset(pageNumber, pageSize), pageSize) == Ok(r)
    {
      var offset := (pageNumber - 1) * pageSize;
      var yearString := IntText(year);
      var monthString := if month < 10 then "0" + IntText(month) else IntText(month);
      var criteria := [Criterion("user_id", UserIdValue(user)), Criterion("year", Text(yearString)), Criterion("month", Text(monthString))];
      MonthCriteriaAccepted(expenses.rows, user, year, month, offset, pageSize);
      var found := expenses.FindBy(criteria, offset, pageSize);
      r := found.value;
    }

    /** `listYears`: the years the user has expenses in, ascending. */
    method ListYears(user: User) returns (r: seq<string>)
      ensures r == ExpenditureYears(expenses.rows, user.id)
    {
      r := expenses.ListExpenditureYears(user);
    }

    /** `countExpenses`: how many expenses the user has in that year and month. */
    method CountExpenses(user: User, year: int, month: int) returns (r: int)
      ensures CountSpec(expenses.rows, MonthCriteria(user, year, month)) == Ok(r)
    {
      var monthString := if month < 10 then "0" + IntText(month) else IntText(month);
      var criteria := [Criterion("user_id", UserIdValue(user)), Criterion("year", Text(IntText(year))), Criterion("month", Text(monthString))];
      MonthCriteriaAccepted(expenses.rows, user, year, month, 0, 0);
      var counted := expenses.CountBy(criteria);
      r := counted.value;
    }

    /** `create`: one save of the new expense. */
    method Create(user: User, amount: real, description: string, date: Date, category: string)
      modifies expenses
      ensures expenses.rows == Upsert(old(expenses.rows), NewExpense(user, amount, description, date, category))
    {
      var amountCents := Cents(amount);
      var categoryUpper := Ucfirst(category);
      var expense := Expense(None, user.id, date, categoryUpper, amountCents, description);
      expenses.Save(expense);
    }

    /** `update` is not implemented: it leaves the table as it is. */
    method Update(expense: Expense, amount: real, description: string, date: Date, category: string)
      ensures unchanged(expenses)
    {
    }

    /** `importFromCsv` is not implemented: it imports nothing and reports zero rows. */
    method ImportFromCsv(user: User, csvFile: string) returns (imported: int)
      ensures unchanged(expenses)
      ensures imported == 0
    {
      imported := 0;
    }
  }
}
