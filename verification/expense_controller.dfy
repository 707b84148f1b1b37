/**
 * `ExpenseController`: the expenses page with its paging numbers, the
 * validation in front of `create`, and the ownership check in front of
 * editing, updating and deleting.
 */
module ExpenseActions {
  import opened Wrappers
  import opened Decimal
  import opened Calendar
  import opened Entities
  import opened Query
  import opened Persistence
  import opened ExpenseServices
  import opened Http

  /** Expenses per page in the page count, and the page size when none is asked for. */
  const PAGE_SIZE: int := 20

  /** `ceil(count / PAGE_SIZE)`: the fewest pages of `PAGE_SIZE` that hold `count` expenses. */
  function TotalPages(count: nat): (pages: nat)
    ensures PAGE_SIZE * pages >= count
    ensures pages == 0 || PAGE_SIZE * (pages - 1) < count
  {
    (count + PAGE_SIZE - 1) / PAGE_SIZE
  }

  /** The query parameters of the expenses page, after the `(int)` casts; absent ones are none. */
  datatype IndexQuery = IndexQuery(page: Option<int>, pageSize: Option<int>, year: Option<int>, month: Option<int>)

  /** What the expenses page is rendered with. */
  datatype IndexView = IndexView(
    expenses: seq<Expense>,
    page: int,
    pageSize: int,
    year: string,
    month: string,
    allYears: seq<string>,
    totalPages: int)

  /** The submitted fields of the new-expense form, already parsed. */
  datatype ExpenseForm = ExpenseForm(amount: real, date: Date, category: string, description: string)

  const USER_NOT_FOUND := "User not found!"
  const FUTURE_DATE := "The date can not be in future!"
  const NO_CATEGORY := "Please select a category"
  const BAD_AMOUNT := "Please enter a valid amount value"
  const NO_DESCRIPTION := "Please enter a description"
  const NOT_OWNER := "Not alowed to edit this record!"

  /** The errors `store` collects: one key per failed check, each check on its own. */
  function ExpenseErrors(userFound: bool, form: ExpenseForm, now: Date): map<string, string> {
    var e0: map<string, string> := map[];
    var e1 := if !userFound then e0["user" := USER_NOT_FOUND] else e0;
    var e2 := if EarlierThan(now, form.date) then e1["date" := FUTURE_DATE] else e1;
    var e3 := if form.category == "" then e2["category" := NO_CATEGORY] else e2;
    var e4 := if form.amount <= 0.0 then e3["amount" := BAD_AMOUNT] else e3;
    if form.description == "" then e4["description" := NO_DESCRIPTION] else e4
  }

  /** Whether every check of `store` passes. */
  predicate ExpenseAccepted(userFound: bool, form: ExpenseForm, now: Date) {
    && userFound
    && !EarlierThan(now, form.date)
    && form.category != ""
    && form.amount > 0.0
    && form.description != ""
  }

  /**
   * Each check has its own key, present exactly when that check fails and
   * holding its message; no other key appears, and the map is empty exactly
   * when every check passes. A date equal to now is not in the future.
   */
  lemma ExpenseErrorsMeaning(userFound: bool, form: ExpenseForm, now: Date)
    ensures var errors := ExpenseErrors(userFound, form, now);
            && errors.Keys <= {"user", "date", "category", "amount", "description"}
            && ("user" in errors <==> !userFound)
            && ("date" in errors <==> EarlierThan(now, form.date))
            && ("category" in errors <==> form.category == "")
            && ("amount" in errors <==> form.amount <= 0.0)
            && ("description" in errors <==> form.description == "")
            && ("user" in errors ==> errors["user"] == USER_NOT_FOUND)
            && ("date" in errors ==> errors["date"] == FUTURE_DATE)
            && ("category" in errors ==> errors["category"] == NO_CATEGORY)
            && ("amount" in errors ==> errors["amount"] == BAD_AMOUNT)
            && ("description" in errors ==> errors["description"] == NO_DESCRIPTION)
            && (|errors| == 0 <==> ExpenseAccepted(userFound, form, now))
            && (form.date == now ==> "date" !in errors)
  {
    var errors := ExpenseErrors(userFound, form, now);
    if !ExpenseAccepted(userFound, form, now) {
      var key := if !userFound then "user"
                 else if EarlierThan(now, form.date) then "date"
                 else if form.category == "" then "category"
                 else if form.amount <= 0.0 then "amount"
                 else "description";
      assert key in errors.Keys;
    }
  }

  /** The checks of `store`, adding to the errors map one check at a time. */
  method ValidateExpense(user: Option<User>, form: ExpenseForm, now: Date) returns (errors: map<string, string>)
    ensures errors == ExpenseErrors(user.Some?, form, now)
  {
    errors := map[];
    if user.None? {
      errors := errors["user" := USER_NOT_FOUND];
    }
    RankIsChronological(now, form.date);
    if Rank(form.date) > Rank(now) {
      errors := errors["date" := FUTURE_DATE];
    }
    if form.category == "" {
      errors := errors["category" := NO_CATEGORY];
    }
    if form.amount <= 0.0 {
      errors := errors["amount" := BAD_AMOUNT];
    }
    if form.description == "" {
      errors := errors["description" := NO_DESCRIPTION];
    }
  }

  /** The edit page for an expense: 403 and an error under `user` when it is not the session user's. */
  function EditPage(expense: Expense, sessionUserId: int): Response {
    var owned := expense.userId == Some(sessionUserId);
    Render("expenses/edit.twig", if owned then 200 else 403,
           if owned then map[] else map["user" := NOT_OWNER],
           map["date" := DayText(expense.date)])
  }

  /** The 403 status and the `user` error appear exactly when the expense's user is not the session user. */
  lemma EditPageOwnership(expense: Expense, sessionUserId: int)
    ensures var r := EditPage(expense, sessionUserId);
            && r.Render?
            && (r.status == 403 <==> expense.userId != Some(sessionUserId))
            && (r.status != 403 ==> r.status == 200 && r.errors == map[])
            && ("user" in r.errors <==> r.status == 403)
            && r.fields["date"] == DayText(expense.date)
  {
  }

  class ExpenseController {
    const expenseService: ExpenseService
    const expensePdo: PdoExpenseRepository

    /** Both collaborators work on the same `expenses` table. */
    constructor (expenseService: ExpenseService, expensePdo: PdoExpenseRepository)
      requires expenseService.expenses == expensePdo
      ensures this.expenseService == expenseService && this.expensePdo == expensePdo
    {
      this.expenseService := expenseService;
      this.expensePdo := expensePdo;
    }

    /**
     * `index`: page 1 and `PAGE_SIZE` when absent, the current year and
     * month when absent; that page of the user's expenses in the month,
     * their years, and the page count of `PAGE_SIZE` whatever size was asked.
     */
    method Index(user: User, query: IndexQuery, now: Date) returns (view: IndexView)
      ensures view.page == query.page.GetOr(1)
      ensures view.pageSize == query.pageSize.GetOr(PAGE_SIZE)
      ensures var year, month := query.year.GetOr(now.year), query.month.GetOr(now.month);
              && view.year == IntText(year)
              && view.month == IntText(month)
              && FindBySpec(expenseService.expenses.rows, MonthCriteria(user, year, month),
                            Offset(view.page, view.pageSize), view.pageSize) == Ok(view.expenses)
              && view.totalPages == TotalPages(|set id | id in expenseService.expenses.rows
                                                    && InMonth(user, year, month, expenseService.expenses.rows[id])|)
      ensures view.allYears == ExpenditureYears(expenseService.expenses.rows, user.id)
    {
      var page := query.page.GetOr(1);
      var pageSize := query.pageSize.GetOr(PAGE_SIZE);
      var year := query.year.GetOr(now.year);
      var month := query.month.GetOr(now.month);
      var expenses := expenseService.List(user, year, month, page, pageSize);
      var allYears := expenseService.ListYears(user);
      var count := expenseService.CountExpenses(user, year, month);
      CountMeaning(expenseService.expenses.rows, user, year, month, page, pageSize);
      var totalPages := TotalPages(count);
      view := IndexView(expenses, page, pageSize, IntText(year), IntText(month), allYears, totalPages);
    }

    /**
     * `store`: with any error, the create page again and nothing saved;
     * with none, one `create` and a redirect to the list.
     */
    method Store(user: Option<User>, form: ExpenseForm, now: Date) returns (response: Response)
      requires expenseService.expenses == expensePdo
      modifies expensePdo
      ensures var errors := ExpenseErrors(user.Some?, form, now);
              if |errors| > 0 then
                && response == Render("expenses/create.twig", 200, errors, map[])
                && expensePdo.rows == old(expensePdo.rows)
              else
                && user.Some?
                && response == Redirect("/expenses", 302)
                && expensePdo.rows == Upsert(old(expensePdo.rows),
                                             NewExpense(user.value, form.amount, form.description, form.date, form.category))
    {
      var errors := ValidateExpense(user, form, now);
      if |errors| > 0 {
        return Render("expenses/create.twig", 200, errors, map[]);
      }
      ExpenseErrorsMeaning(user.Some?, form, now);
      expenseService.Create(user.value, form.amount, form.description, form.date, form.category);
      response := Redirect("/expenses", 302);
    }

    /** `edit`: the edit page, refused with 403 to anyone but the expense's user. */
    method Edit(sessionUserId: int, expenseId: int) returns (response: Response)
      requires expenseId in expensePdo.rows
      ensures response == EditPage(ToExpense(expenseId, expensePdo.rows[expenseId]), sessionUserId)
    {
      var found := expensePdo.Find(expenseId);
      var expense := found.value;
      var date := DayText(expense.date);
      var errors: map<string, string> := map[];
      var status := 200;
      if expense.userId != Some(sessionUserId) {
        status := 403;
        errors := errors["user" := NOT_OWNER];
      }
      response := Render("expenses/edit.twig", status, errors, map["date" := date]);
    }

    /**
     * `update`: the ownership check only renders a page it then discards;
     * the service's `update` is called either way and the answer is always
     * a redirect to the list.
     */
    method Update(sessionUserId: int, expenseId: int, form: ExpenseForm) returns (response: Response)
      requires expenseId in expensePdo.rows
      ensures response == Redirect("/expenses", 302)
      ensures unchanged(expensePdo)
    {
      var found := expensePdo.Find(expenseId);
      var expense := found.value;
      if expense.userId != Some(sessionUserId) {
        var discarded := EditPage(expense, sessionUserId);
      }
      expenseService.Update(expense, form.amount, form.description, form.date, form.category);
      response := Redirect("/expenses", 302);
    }

    /**
     * `destroy`: the ownership check changes nothing; the expense is deleted
     * whoever asks, and the answer is always a redirect to the list.
     */
    method Destroy(sessionUserId: int, expenseId: int) returns (response: Response)
      requires expenseId in expensePdo.rows
      modifies expensePdo
      ensures response == Redirect("/expenses", 302)
      ensures expensePdo.rows == old(expensePdo.rows) - {expenseId}
    {
      var found := expensePdo.Find(expenseId);
      var expense := found.value;
      // The 403 a failed ownership check sets is replaced by the redirect's
      // 302 below, and the delete happens either way.
      var status := 200;
      if expense.userId != Some(sessionUserId) {
        status := 403;
      }
      expensePdo.Delete(expenseId);
      response := Redirect("/expenses", 302);
    }
  }
}
