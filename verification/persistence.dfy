/** `PdoExpenseRepository`: the expenses table and the statements that read and write it. */
module Persistence {
  import opened Wrappers
  import opened Entities
  import opened Query

  /** The id SQLite gives a row inserted without one: one past the largest id, 1 in an empty table. */
  function NextId(t: Table): (id: int)
    ensures id !in t
    ensures forall k :: k in t ==> k < id
  {
    var ks := Ascending(t.Keys);
    if |ks| == 0 then 1
    else
      assert forall k :: k in t ==> k in ks;
      assert forall i :: 0 <= i < |ks| ==> ks[i] <= ks[|ks| - 1];
      ks[|ks| - 1] + 1
  }

  /**
   * The table after `save(e)`: an insert of all columns, or, when a row with
   * the id exists, an update of date, category, amount and description only.
   */
  function Upsert(t: Table, e: Expense): Table {
    match e.id
    case None => t[NextId(t) := RowOf(e)]
    case Some(k) =>
      if k in t then
        t[k := t[k].(date := e.date, category := e.category, amountCents := e.amountCents, description := e.description)]
      else
        t[k := RowOf(e)]
  }

  /**
   * Saving an expense whose id is present overwrites its date, category,
   * amount and description, keeps its user, and leaves every other row alone.
   */
  lemma UpsertUpdatesInPlace(t: Table, e: Expense)
    requires e.id.Some? && e.id.value in t
    ensures var t', k := Upsert(t, e), e.id.value;
            && t'.Keys == t.Keys
            && t'[k] == RowOf(e).(userId := t[k].userId)
            && forall j :: j in t && j != k ==> t'[j] == t[j]
  {
  }

  /**
   * Saving an expense without an id, or with one not yet present, adds
   * exactly one row, holding the expense, under a fresh id.
   */
  lemma UpsertInsertsOne(t: Table, e: Expense)
    requires e.id.None? || e.id.value !in t
    ensures var k := if e.id.Some? then e.id.value else NextId(t);
            && k !in t
            && Upsert(t, e) == t[k := RowOf(e)]
            && |Upsert(t, e)| == |t| + 1
  {
  }

  /**
   * Saving with an id already saved is idempotent, and the later save's
   * date, category, amount and description win while the first save's user stays.
   */
  lemma UpsertLastWriteWins(t: Table, e: Expense, e': Expense)
    requires e.id.Some? && e'.id == e.id
    ensures Upsert(Upsert(t, e), e) == Upsert(t, e)
    ensures e.id.value !in t ==> Upsert(Upsert(t, e), e') == Upsert(t, e'.(userId := e.userId))
    ensures e.id.value in t ==> Upsert(Upsert(t, e), e') == Upsert(t, e')
  {
  }

  /** One record of the years statement. */
  datatype YearRecord = YearRecord(year: string)

  /**
   * The WHERE text, appended fragment by fragment with " AND " after every
   * key but the last, as `findBy` and `countBy` both do.
   */
  method BuildWhere(criteria: Criteria) returns (clause: string)
    ensures clause == WhereClause(criteria)
  {
    var n := |criteria|;
    var lastKey: Option<string> := if n == 0 then None else Some(criteria[n - 1].field);
    ghost var parts := Fragments(criteria);
    clause := "";
    for i := 0 to n
      invariant clause == Join(parts[..i]) + (if 0 < i < n then Separator else "")
    {
      var field := criteria[i].field;
      JoinStep(parts, i);
      clause := clause + Fragment(field);
      assert clause == Join(parts[..i + 1]);
      if Some(field) != lastKey {
        LastKey(criteria, i);
        clause := clause + Separator;
      }
    }
    assert parts[..n] == parts;
  }

  /** Extending the joined prefix by one part. */
  lemma JoinStep(parts: seq<string>, i: int)
    requires 0 <= i < |parts|
    ensures Join(parts[..i + 1]) == if i == 0 then parts[0] else Join(parts[..i]) + Separator + parts[i]
  {
    assert parts[..i + 1][..i] == parts[..i];
  }

  /** Only the last criterion has the last key. */
  lemma LastKey(criteria: Criteria, i: int)
    requires 0 <= i < |criteria| && criteria[i].field != criteria[|criteria| - 1].field
    ensures i < |criteria| - 1
  {
  }

  /** The fetched records, each turned into an expense in fetch order. */
  method DecodeRows(t: Table, data: seq<int>) returns (expenses: seq<Expense>)
    requires forall k :: 0 <= k < |data| ==> data[k] in t
    ensures expenses == Decode(t, data)
  {
    expenses := [];
    for i := 0 to |data|
      invariant |expenses| == i
      invariant forall k :: 0 <= k < i ==> expenses[k] == ToExpense(data[k], t[data[k]])
    {
      expenses := expenses + [ToExpense(data[i], t[data[i]])];
    }
  }

  class PdoExpenseRepository {
    /** The `expenses` table. */
    var rows: Table

    constructor ()
      ensures rows == map[]
    {
      rows := map[];
    }

    /** `find`: null exactly when no row has the id, otherwise that row decoded. */
    method Find(id: int) returns (r: Option<Expense>)
      ensures r.None? <==> id !in rows
      ensures r.Some? ==> r.value.id == Some(id) && RowOf(r.value) == rows[id]
    {
      if id in rows {
        r := Some(ToExpense(id, rows[id]));
      } else {
        r := None;
      }
    }

    /** `save`: insert, or update the row with the same id. */
    method Save(e: Expense)
      modifies this
      ensures rows == Upsert(old(rows), e)
    {
      rows := Upsert(rows, e);
    }

    /** `delete`: removes the row with the id, if there is one, and nothing else. */
    method Delete(id: int)
      modifies this
      ensures rows == old(rows) - {id}
      ensures id !in rows
      ensures forall k :: k in old(rows) && k != id ==> k in rows && rows[k] == old(rows)[k]
    {
      rows := rows - {id};
    }

    /** `findBy`: the matching expenses, latest first, in the LIMIT/OFFSET window. */
    method FindBy(criteria: Criteria, from: int, limit: int) returns (r: Result<seq<Expense>, SqlError>)
      ensures r == FindBySpec(rows, criteria, from, limit)
    {
      var clause := BuildWhere(criteria);
      match StatementError(clause, criteria)
      case Some(error) =>
        r := Err(error);
      case None =>
        var t := rows;
        var data := PageIds(t, criteria, from, limit);
        var expenses := DecodeRows(t, data);
        r := Ok(expenses);
    }

    /** `countBy`: the number of matching rows. */
    method CountBy(criteria: Criteria) returns (r: Result<int, SqlError>)
      ensures r == CountSpec(rows, criteria)
    {
      var clause := BuildWhere(criteria);
      match StatementError(clause, criteria)
      case Some(error) =>
        r := Err(error);
      case None =>
        r := Ok(|MatchIds(rows, criteria)|);
    }

    /** `listExpenditureYears`: the user's distinct years as four-digit text, ascending. */
    method ListExpenditureYears(user: User) returns (years: seq<string>)
      ensures years == ExpenditureYears(rows, user.id)
    {
      // The records SQLite returns, one per distinct year in ascending order.
      var selected := ExpenditureYears(rows, user.id);
      var data := seq(|selected|, k requires 0 <= k < |selected| => YearRecord(selected[k]));
      // Keep the `year` column of each record, in fetch order.
      years := [];
      for i := 0 to |data|
        invariant |years| == i
        invariant forall k :: 0 <= k < i ==> years[k] == data[k].year
      {
        years := years + [data[i].year];
      }
      assert years == selected;
    }
  }
}
