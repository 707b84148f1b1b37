/**
 * The `expenses` table and the meaning of the statements `findBy` and
 * `countBy` send to it: the WHERE text built from a criteria array, the rows
 * that text selects, their order and the LIMIT/OFFSET window, and the
 * distinct years `listExpenditureYears` asks for.
 */
module Query {
  import opened Wrappers
  import opened Decimal
  import opened Calendar
  import opened Entities

  /** One row of the `expenses` table, without its `id` key. */
  datatype Row = Row(userId: Option<int>, date: Date, category: string, amountCents: int, description: string)

  /** The `expenses` table: rows by primary key. */
  type Table = map<int, Row>

  /** The column values `save` binds for an expense. */
  function RowOf(e: Expense): Row {
    Row(e.userId, e.date, e.category, e.amountCents, e.description)
  }

  /** `createExpenseFromData`: the expense a fetched row decodes to; it carries the row's id and columns. */
  function ToExpense(id: int, row: Row): (e: Expense)
    ensures e.id == Some(id) && RowOf(e) == row
  {
    Expense(Some(id), row.userId, row.date, row.category, row.amountCents, row.description)
  }

  // ---------------------------------------------------------------------------
  // Criteria and the WHERE text

  /** A value bound to a statement parameter. */
  datatype Value = Null | Int(i: int) | Text(s: string)

  datatype Criterion = Criterion(field: string, value: Value)

  predicate DistinctFields(cs: seq<Criterion>) {
    forall i, j :: 0 <= i < j < |cs| ==> cs[i].field != cs[j].field
  }

  /** A PHP criteria array: its keys in insertion order, each key once. */
  type Criteria = cs: seq<Criterion> | DistinctFields(cs) witness []

  /** Why SQLite rejects a statement. */
  datatype SqlError = SyntaxError | NoSuchColumn(field: string)

  const Separator: string := " AND "

  /** The WHERE fragment written for one criteria key. */
  function Fragment(field: string): (f: string)
    ensures |f| > 0
  {
    if field == "year" then "strftime('%Y', date) = :year"
    else if field == "month" then "strftime('%m', date) = :month"
    else " " + field + " = :" + field
  }

  function Fragments(cs: seq<Criterion>): (parts: seq<string>)
    ensures |parts| == |cs|
    ensures forall i :: 0 <= i < |cs| ==> parts[i] == Fragment(cs[i].field)
  {
    seq(|cs|, i requires 0 <= i < |cs| => Fragment(cs[i].field))
  }

  /** The parts appended left to right with `Separator` between neighbours. */
  function Join(parts: seq<string>): string {
    if |parts| == 0 then ""
    else if |parts| == 1 then parts[0]
    else Join(parts[..|parts| - 1]) + Separator + parts[|parts| - 1]
  }

  /** The text after `WHERE ` in both `findBy` and `countBy`. */
  function WhereClause(cs: Criteria): string {
    Join(Fragments(cs))
  }

  function TotalLength(parts: seq<string>): nat {
    if parts == [] then 0 else TotalLength(parts[..|parts| - 1]) + |parts[|parts| - 1]|
  }

  /** Where part `i` starts in `Join(parts)`: after the parts before it and one separator behind each. */
  function Start(parts: seq<string>, i: nat): nat
    requires i <= |parts|
  {
    TotalLength(parts[..i]) + |Separator| * i
  }

  /** `t` stands in `s` at position `at`. */
  predicate Occurs(s: string, at: int, t: string) {
    0 <= at && at + |t| <= |s| && s[at..at + |t|] == t
  }

  lemma OccursInPrefix(s: string, tail: string, at: int, t: string)
    requires Occurs(s, at, t)
    ensures Occurs(s + tail, at, t)
  {
    assert (s + tail)[at..at + |t|] == s[at..at + |t|];
  }

  lemma OccursAfterSeparator(s: string, t: string)
    ensures Occurs(s + Separator + t, |s| + |Separator|, t)
    ensures Occurs(s + Separator + t, |s|, Separator)
  {
    var j := s + Separator + t;
    assert j[|s| + |Separator|..|s| + |Separator| + |t|] == t;
    assert j[|s|..|s| + |Separator|] == Separator;
  }

  lemma StartStep(parts: seq<string>, i: nat)
    requires i < |parts|
    ensures Start(parts, i + 1) == Start(parts, i) + |parts[i]| + |Separator|
  {
    assert parts[..i + 1][..i] == parts[..i];
  }

  lemma {:induction false} JoinLength(parts: seq<string>)
    requires |parts| >= 1
    ensures |Join(parts)| == TotalLength(parts) + |Separator| * (|parts| - 1)
  {
    var n := |parts|;
    if n == 1 {
      assert parts[..0] == [];
    } else {
      JoinLength(parts[..n - 1]);
    }
  }

  /** Part `i` stands at `Start(parts, i)` in the joined text. */
  lemma {:induction false} JoinPartAt(parts: seq<string>, i: nat)
    requires i < |parts|
    ensures Occurs(Join(parts), Start(parts, i), parts[i])
  {
    var n := |parts|;
    if n == 1 {
      assert parts[..0] == [];
      assert Join(parts)[0..|parts[0]|] == parts[0];
    } else {
      var p := parts[..n - 1];
      var last := parts[n - 1];
      assert Join(parts) == Join(p) + Separator + last;
      if i == n - 1 {
        JoinLength(p);
        assert parts[..i] == p;
        OccursAfterSeparator(Join(p), last);
      } else {
        JoinPartAt(p, i);
        assert parts[..i] == p[..i];
        OccursInPrefix(Join(p), Separator + last, Start(p, i), p[i]);
        assert Join(p) + (Separator + last) == Join(parts);
      }
    }
  }

  /** Exactly one separator follows every part but the last. */
  lemma {:induction false} JoinSeparatorAt(parts: seq<string>, i: nat)
    requires i + 1 < |parts|
    ensures Occurs(Join(parts), Start(parts, i) + |parts[i]|, Separator)
  {
    var n := |parts|;
    var p := parts[..n - 1];
    var last := parts[n - 1];
    assert Join(parts) == Join(p) + Separator + last;
    assert parts[..i] == p[..i];
    if i == n - 2 {
      JoinLength(p);
      StartStep(p, i);
      assert p[..n - 1] == p;
      OccursAfterSeparator(Join(p), last);
    } else {
      JoinSeparatorAt(p, i);
      OccursInPrefix(Join(p), Separator + last, Start(p, i) + |p[i]|, Separator);
      assert Join(p) + (Separator + last) == Join(parts);
    }
  }

  /**
   * `Join(parts)` is the parts in order, each at its `Start`, with exactly one
   * separator after every part but the last, and nothing else.
   */
  lemma JoinLayout(parts: seq<string>)
    ensures |parts| >= 1 ==> |Join(parts)| == TotalLength(parts) + |Separator| * (|parts| - 1)
    ensures forall i :: 0 <= i < |parts| ==> Occurs(Join(parts), Start(parts, i), parts[i])
    ensures forall i :: 0 <= i < |parts| - 1 ==> Occurs(Join(parts), Start(parts, i) + |parts[i]|, Separator)
  {
    forall i | 0 <= i < |parts|
      ensures Occurs(Join(parts), Start(parts, i), parts[i])
    {
      JoinPartAt(parts, i);
    }
    forall i | 0 <= i < |parts| - 1
      ensures Occurs(Join(parts), Start(parts, i) + |parts[i]|, Separator)
    {
      JoinSeparatorAt(parts, i);
    }
    if |parts| >= 1 {
      JoinLength(parts);
    }
  }

  /**
   * The WHERE text holds one fragment per criteria key, in key order, with
   * exactly n-1 separators: one after each fragment but the last.
   */
  lemma WhereClauseLayout(cs: Criteria)
    ensures var parts := Fragments(cs);
            && (forall i :: 0 <= i < |cs| ==> parts[i] == Fragment(cs[i].field))
            && (|cs| >= 1 ==> |WhereClause(cs)| == TotalLength(parts) + |Separator| * (|cs| - 1))
            && (forall i :: 0 <= i < |cs| ==> Occurs(WhereClause(cs), Start(parts, i), parts[i]))
            && (forall i :: 0 <= i < |cs| - 1 ==> Occurs(WhereClause(cs), Start(parts, i) + |parts[i]|, Separator))
  {
    JoinLayout(Fragments(cs));
  }

  /** The WHERE text is empty exactly when the criteria array is. */
  lemma WhereClauseEmpty(cs: Criteria)
    ensures WhereClause(cs) == "" <==> |cs| == 0
  {
    if |cs| >= 1 {
      JoinPartAt(Fragments(cs), 0);
    }
  }

  // ---------------------------------------------------------------------------
  // What the WHERE text selects

  /** The columns of `expenses`; `id` is its INTEGER PRIMARY KEY. */
  const Columns: set<string> := {"id", "user_id", "date", "category", "amount_cents", "description"}

  /** The names SQLite also accepts for the rowid, which the INTEGER PRIMARY KEY `id` is. */
  const RowidNames: set<string> := {"rowid", "oid", "_rowid_"}

  function LowerChar(c: char): char {
    if 'A' <= c <= 'Z' then (c as int - 'A' as int + 'a' as int) as char else c
  }

  /** SQLite's folding of identifiers: ASCII letters compare without case. */
  function Lower(s: string): (l: string)
    ensures |l| == |s| && forall i :: 0 <= i < |s| ==> l[i] == LowerChar(s[i])
  {
    seq(|s|, i requires 0 <= i < |s| => LowerChar(s[i]))
  }

  /** The column a key names, if any: compared without ASCII case, the rowid names meaning `id`. */
  function ColumnNamed(field: string): (c: Option<string>)
    ensures c.Some? ==> c.value in Columns
  {
    var l := Lower(field);
    if l in Columns then Some(l)
    else if l in RowidNames then Some("id")
    else None
  }

  /** Column names are matched without regard to ASCII case. */
  lemma ColumnNamedIgnoresCase(field: string)
    ensures ColumnNamed(Lower(field)) == ColumnNamed(field)
  {
    assert Lower(Lower(field)) == Lower(field);
  }

  /** A column's own name, and only a lower-case spelling of it, needs no folding. */
  lemma ColumnNamesItself(field: string)
    requires field in Columns
    ensures ColumnNamed(field) == Some(field)
  {
    assert Lower(field) == field;
  }

  /** Examples of the folding: an upper-case key and a rowid name both name a column. */
  lemma ColumnNamedExamples()
    ensures ColumnNamed("USER_ID") == Some("user_id")
    ensures ColumnNamed("Date") == Some("date")
    ensures ColumnNamed("ROWID") == Some("id")
    ensures ColumnNamed("year").None?
  {
    assert Lower("USER_ID") == "user_id";
    assert Lower("Date") == "date";
    assert Lower("ROWID") == "rowid";
    assert Lower("year") == "year";
  }

  /** The value SQLite compares for a column of a row. */
  function Column(id: int, row: Row, field: string): Value
    requires field in Columns
  {
    if field == "id" then Int(id)
    else if field == "user_id" then (if row.userId.Some? then Int(row.userId.value) else Null)
    else if field == "date" then Text(StampText(row.date))
    else if field == "category" then Text(row.category)
    else if field == "amount_cents" then Int(row.amountCents)
    else Text(row.description)
  }

  /**
   * Whether the fragment of one criterion holds of a row: `year` and `month`
   * compare the text of a calendar component, any other key compares a column;
   * a comparison with NULL never holds.
   */
  predicate Holds(id: int, row: Row, c: Criterion) {
    if c.field == "year" then c.value == Text(StrftimeYear(row.date))
    else if c.field == "month" then c.value == Text(StrftimeMonth(row.date))
    else
      match ColumnNamed(c.field)
      case Some(column) => c.value != Null && Column(id, row, column) == c.value
      case None => false
  }

  /** The conjunction the WHERE text expresses. */
  predicate Satisfies(id: int, row: Row, cs: seq<Criterion>) {
    forall k :: 0 <= k < |cs| ==> Holds(id, row, cs[k])
  }

  function MatchIds(t: Table, cs: seq<Criterion>): (ids: set<int>)
    ensures ids <= t.Keys
  {
    set id | id in t && Satisfies(id, t[id], cs)
  }

  /** A key the statement can run with: exactly `year` or `month`, or a name of a column. */
  predicate KnownKey(field: string) {
    field == "year" || field == "month" || ColumnNamed(field).Some?
  }

  /** The first key that is neither `year`/`month` nor a name of a column. */
  function UnknownField(cs: seq<Criterion>): (r: Option<string>)
    ensures r.None? <==> forall k :: 0 <= k < |cs| ==> KnownKey(cs[k].field)
    ensures r.Some? ==> !KnownKey(r.value)
  {
    if cs == [] then None
    else if !KnownKey(cs[0].field) then Some(cs[0].field)
    else UnknownField(cs[1..])
  }

  /**
   * Why SQLite rejects a statement with WHERE text `where` built from `cs`:
   * an empty WHERE is a syntax error, a key that is not a column is missing.
   */
  function StatementError(where: string, cs: seq<Criterion>): Option<SqlError> {
    if where == "" then Some(SyntaxError)
    else
      match UnknownField(cs)
      case Some(f) => Some(NoSuchColumn(f))
      case None => None
  }

  function QueryError(cs: Criteria): Option<SqlError> {
    StatementError(WhereClause(cs), cs)
  }

  // ---------------------------------------------------------------------------
  // ORDER BY date DESC

  /**
   * Row `a` comes before row `b`: a later date first. SQLite leaves the order
   * of equal dates open; this model puts the smaller id first.
   */
  predicate Precedes(t: Table, a: int, b: int)
    requires a in t && b in t
  {
    || Rank(t[a].date) > Rank(t[b].date)
    || (Rank(t[a].date) == Rank(t[b].date) && a < b)
  }

  predicate IsFirst(t: Table, x: int, s: set<int>)
    requires s <= t.Keys
  {
    x in s && forall y :: y in s && y != x ==> Precedes(t, x, y)
  }

  lemma HasElement(s: set<int>)
    requires s != {}
    ensures exists x :: x in s
  {
    assert (forall x :: x !in s) ==> s == {};
  }

  lemma {:induction false} FirstExists(t: Table, s: set<int>)
    requires s <= t.Keys && s != {}
    ensures exists x :: x in s && IsFirst(t, x, s)
    decreases s
  {
    HasElement(s);
    var y :| y in s;
    if s != {y} {
      FirstExists(t, s - {y});
      var x :| x in s - {y} && IsFirst(t, x, s - {y});
      if Precedes(t, y, x) {
        forall z | z in s && z != y
          ensures Precedes(t, y, z)
        {
          if z != x {
            assert z in s - {y};
          }
        }
        assert IsFirst(t, y, s);
      } else {
        forall z | z in s && z != x
          ensures Precedes(t, x, z)
        {
          if z != y {
            assert z in s - {y};
          }
        }
        assert IsFirst(t, x, s);
      }
    } else {
      assert IsFirst(t, y, s);
    }
  }

  /** The ids of `s` in the order `ORDER BY date DESC` returns their rows. */
  function Listing(t: Table, s: set<int>): (l: seq<int>)
    requires s <= t.Keys
    ensures |l| == |s|
    ensures forall x :: x in l <==> x in s
    ensures forall i, j :: 0 <= i < j < |l| ==> Precedes(t, l[i], l[j])
    decreases s
  {
    if s == {} then []
    else
      FirstExists(t, s);
      var x :| x in s && IsFirst(t, x, s);
      [x] + Listing(t, s - {x})
  }

  // ---------------------------------------------------------------------------
  // LIMIT :limit OFFSET :from

  /** SQLite's offset: a negative one counts as zero. */
  function Skip(from: int, n: nat): (lo: nat)
    ensures lo <= n
  {
    if from < 0 then 0 else if from > n then n else from
  }

  /**
   * The LIMIT/OFFSET window: the block that starts after the first `from`
   * elements and holds `limit` of them, or all the rest when `limit` is
   * negative or too few are left.
   */
  function Page<T>(s: seq<T>, from: int, limit: int): (r: seq<T>)
    ensures limit >= 0 ==> |r| <= limit
    ensures Skip(from, |s|) + |r| <= |s| && r == s[Skip(from, |s|)..Skip(from, |s|) + |r|]
    ensures limit < 0 ==> Skip(from, |s|) + |r| == |s|
    ensures limit >= 0 ==> |r| == limit || Skip(from, |s|) + |r| == |s|
  {
    var lo := Skip(from, |s|);
    var hi := if limit < 0 || lo + limit > |s| then |s| else lo + limit;
    s[lo..hi]
  }

  // ---------------------------------------------------------------------------
  // The statements

  /** The ids of the rows in the window: the matches in date order, then LIMIT/OFFSET. */
  function PageIds(t: Table, cs: seq<Criterion>, from: int, limit: int): (ids: seq<int>)
    ensures forall k :: 0 <= k < |ids| ==> ids[k] in MatchIds(t, cs)
  {
    Page(Listing(t, MatchIds(t, cs)), from, limit)
  }

  /** The fetched rows, each turned into an expense. */
  function Decode(t: Table, ids: seq<int>): (es: seq<Expense>)
    requires forall k :: 0 <= k < |ids| ==> ids[k] in t
    ensures |es| == |ids|
    ensures forall k :: 0 <= k < |ids| ==> es[k] == ToExpense(ids[k], t[ids[k]])
  {
    seq(|ids|, k requires 0 <= k < |ids| => ToExpense(ids[k], t[ids[k]]))
  }

  /** The expenses `findBy` returns, or the error SQLite raises. */
  function FindBySpec(t: Table, cs: Criteria, from: int, limit: int): Result<seq<Expense>, SqlError> {
    match QueryError(cs)
    case Some(e) => Err(e)
    case None =>
      Ok(Decode(t, PageIds(t, cs, from, limit)))
  }

  /** The count `countBy` returns, or the error SQLite raises. */
  function CountSpec(t: Table, cs: Criteria): Result<int, SqlError> {
    match QueryError(cs)
    case Some(e) => Err(e)
    case None => Ok(|MatchIds(t, cs)|)
  }

  /** A statement fails exactly when the criteria are empty or name a key that is not a column. */
  lemma FindByFails(t: Table, cs: Criteria, from: int, limit: int)
    ensures FindBySpec(t, cs, from, limit).Err? <==> |cs| == 0 || UnknownField(cs).Some?
    ensures CountSpec(t, cs).Err? <==> |cs| == 0 || UnknownField(cs).Some?
  {
    WhereClauseEmpty(cs);
  }

  /** The k-th id of the window is the (from + k)-th match in date order. */
  lemma PageIdsSkipFirstMatches(t: Table, cs: seq<Criterion>, from: int, limit: int, k: nat)
    requires k < |PageIds(t, cs, from, limit)|
    ensures var order := Listing(t, MatchIds(t, cs));
            Skip(from, |order|) + k < |order| && PageIds(t, cs, from, limit)[k] == order[Skip(from, |order|) + k]
  {
  }

  /**
   * The window holds at most `limit` ids, each of a row satisfying every
   * criterion, in non-increasing date order.
   */
  lemma PageIdsMeaning(t: Table, cs: seq<Criterion>, from: int, limit: int)
    ensures var ids := PageIds(t, cs, from, limit);
            && (limit >= 0 ==> |ids| <= limit)
            && (forall k :: 0 <= k < |ids| ==> ids[k] in t && Satisfies(ids[k], t[ids[k]], cs))
            && (forall k, k' :: 0 <= k < k' < |ids| ==> Rank(t[ids[k]].date) >= Rank(t[ids[k']].date))
  {
    var order := Listing(t, MatchIds(t, cs));
    var ids := PageIds(t, cs, from, limit);
    forall k, k' | 0 <= k < k' < |ids|
      ensures Rank(t[ids[k]].date) >= Rank(t[ids[k']].date)
    {
      PageIdsSkipFirstMatches(t, cs, from, limit, k);
      PageIdsSkipFirstMatches(t, cs, from, limit, k');
      var lo := Skip(from, |order|);
      assert Precedes(t, order[lo + k], order[lo + k']);
    }
  }

  /**
   * `findBy` returns at most `limit` expenses, each the decoded row of an id
   * satisfying every criterion, in non-increasing date order.
   */
  lemma FindByMeaning(t: Table, cs: Criteria, from: int, limit: int)
    requires FindBySpec(t, cs, from, limit).Ok?
    ensures var r := FindBySpec(t, cs, from, limit).value;
            && (limit >= 0 ==> |r| <= limit)
            && (forall k :: 0 <= k < |r| ==>
                  && r[k].id.Some? && r[k].id.value in t
                  && Satisfies(r[k].id.value, t[r[k].id.value], cs)
                  && r[k] == ToExpense(r[k].id.value, t[r[k].id.value]))
            && (forall k, k' :: 0 <= k < k' < |r| ==> Rank(r[k].date) >= Rank(r[k'].date))
  {
    PageIdsMeaning(t, cs, from, limit);
    var ids := PageIds(t, cs, from, limit);
    var r := FindBySpec(t, cs, from, limit).value;
    assert forall k :: 0 <= k < |r| ==> r[k] == ToExpense(ids[k], t[ids[k]]);
  }

  /**
   * `countBy` and `findBy` succeed and fail together, and the count bounds
   * every window; with no offset and no limit the window is all the matches.
   */
  lemma CountCoversFindBy(t: Table, cs: Criteria, from: int, limit: int)
    ensures CountSpec(t, cs).Ok? <==> FindBySpec(t, cs, from, limit).Ok?
    ensures FindBySpec(t, cs, from, limit).Ok? ==> |FindBySpec(t, cs, from, limit).value| <= CountSpec(t, cs).value
    ensures FindBySpec(t, cs, from, limit).Ok? && from <= 0 && limit < 0 ==>
              |FindBySpec(t, cs, from, limit).value| == CountSpec(t, cs).value
  {
  }

  // ---------------------------------------------------------------------------
  // SELECT DISTINCT strftime('%Y', date) ... ORDER BY year ASC

  /** The years in which the user has at least one expense; a null user id matches no row. */
  function UserYears(t: Table, userId: Option<int>): (ys: set<int>)
    ensures forall y :: y in ys ==> 0 <= y <= 9999
  {
    set id | id in t && userId.Some? && t[id].userId == userId :: t[id].date.year
  }

  predicate IsLeast(m: int, s: set<int>) {
    m in s && forall z :: z in s ==> m <= z
  }

  lemma {:induction false} LeastExists(s: set<int>)
    requires s != {}
    ensures exists m :: IsLeast(m, s)
    decreases s
  {
    HasElement(s);
    var y :| y in s;
    if s == {y} {
      assert IsLeast(y, s);
    } else {
      LeastExists(s - {y});
      var m :| IsLeast(m, s - {y});
      var w := if y < m then y else m;
      forall z | z in s
        ensures w <= z
      {
        if z != y {
          assert z in s - {y};
        }
      }
      assert IsLeast(w, s);
    }
  }

  /** The elements of `s` in strictly ascending order. */
  function Ascending(s: set<int>): (l: seq<int>)
    ensures |l| == |s|
    ensures forall x :: x in l <==> x in s
    ensures forall i, j :: 0 <= i < j < |l| ==> l[i] < l[j]
    decreases s
  {
    if s == {} then []
    else
      LeastExists(s);
      var m :| m in s && IsLeast(m, s);
      var rest := Ascending(s - {m});
      AscendingCons(s, m, rest);
      [m] + rest
  }

  /** Putting the least element in front of the others, ascending, lists all of `s` ascending. */
  lemma AscendingCons(s: set<int>, m: int, rest: seq<int>)
    requires IsLeast(m, s)
    requires |rest| == |s - {m}|
    requires forall x :: x in rest <==> x in s - {m}
    requires forall i, j :: 0 <= i < j < |rest| ==> rest[i] < rest[j]
    ensures |[m] + rest| == |s|
    ensures forall x :: x in [m] + rest <==> x in s
    ensures forall i, j :: 0 <= i < j < |[m] + rest| ==> ([m] + rest)[i] < ([m] + rest)[j]
  {
    var l := [m] + rest;
    forall i, j | 0 <= i < j < |l|
      ensures l[i] < l[j]
    {
      if i == 0 {
        assert l[j] == rest[j - 1] && l[j] in s - {m};
      } else {
        assert l[i] == rest[i - 1] && l[j] == rest[j - 1];
      }
    }
  }

  /** What `listExpenditureYears` returns: the four-digit year strings, ascending. */
  function ExpenditureYears(t: Table, userId: Option<int>): seq<string> {
    var ys := Ascending(UserYears(t, userId));
    seq(|ys|, i requires 0 <= i < |ys| => Pad(ys[i], 4))
  }

  /** Entry `i` is the four-digit numeral of the i-th smallest year. */
  lemma ExpenditureYearAt(t: Table, userId: Option<int>, i: nat)
    requires i < |ExpenditureYears(t, userId)|
    ensures var r := ExpenditureYears(t, userId);
            var ys := Ascending(UserYears(t, userId));
            |r[i]| == 4 && AllDigits(r[i]) && Parse(r[i]) == ys[i] && ys[i] in UserYears(t, userId)
  {
    var ys := Ascending(UserYears(t, userId));
    assert ys[i] in UserYears(t, userId);
    assert Pow10(4) == 10000;
    PadFacts(ys[i], 4);
  }

  /** Each entry is the four-digit numeral of a year in which the user has an expense. */
  lemma ExpenditureYearsEntries(t: Table, userId: Option<int>)
    ensures var r := ExpenditureYears(t, userId);
            && |r| == |UserYears(t, userId)|
            && forall i :: 0 <= i < |r| ==> |r[i]| == 4 && AllDigits(r[i]) && Parse(r[i]) in UserYears(t, userId)
  {
    var r := ExpenditureYears(t, userId);
    forall i | 0 <= i < |r|
      ensures |r[i]| == 4 && AllDigits(r[i]) && Parse(r[i]) in UserYears(t, userId)
    {
      ExpenditureYearAt(t, userId, i);
    }
  }

  /** Every year in which the user has an expense is listed. */
  lemma ExpenditureYearsCover(t: Table, userId: Option<int>, y: int)
    requires y in UserYears(t, userId)
    ensures var r := ExpenditureYears(t, userId);
            exists i :: 0 <= i < |r| && AllDigits(r[i]) && Parse(r[i]) == y
  {
    var ys := Ascending(UserYears(t, userId));
    var i :| 0 <= i < |ys| && ys[i] == y;
    ExpenditureYearAt(t, userId, i);
  }

  /** The entries read back as strictly increasing years, so each year is listed once. */
  lemma ExpenditureYearsAscending(t: Table, userId: Option<int>, i: nat, j: nat)
    requires i < j < |ExpenditureYears(t, userId)|
    ensures var r := ExpenditureYears(t, userId);
            AllDigits(r[i]) && AllDigits(r[j]) && Parse(r[i]) < Parse(r[j])
  {
    ExpenditureYearAt(t, userId, i);
    ExpenditureYearAt(t, userId, j);
  }
}
