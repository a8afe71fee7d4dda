/** The "DocCache" table that the synchroniser writes (scraper/scraper.go) and
    the web backend reads (backend/db.go). The table is a sequence of rows;
    SQL statements become functions over that sequence, and a transaction
    computes the new table privately and installs it only when it commits. */
module CacheTable {
  import opened Common

  type Day = int

  /** One row: (day, location, mealtime, meal, mealid). */
  datatype Row = Row(day: Day, location: string, mealtime: int, meal: string, mealid: string)

  /** The (day, location, mealtime) key of a cell. */
  datatype CellKey = CellKey(day: Day, location: string, mealtime: int)

  /** A fetched meal as the synchroniser stores it: its name and provider id. */
  datatype CachedMeal = CachedMeal(name: string, id: string)

  function KeyOf(r: Row): CellKey
  {
    CellKey(r.day, r.location, r.mealtime)
  }

  /** The WHERE conditions the code uses on this table. */
  datatype Condition = KeyIs(key: CellKey) | KeyIsNot(key: CellKey) | DayNotBefore(cutoff: Day)

  predicate Holds(c: Condition, r: Row)
  {
    match c
    case KeyIs(k) => KeyOf(r) == k
    case KeyIsNot(k) => KeyOf(r) != k
    case DayNotBefore(cutoff) => r.day >= cutoff
  }

  /** The rows satisfying c, in table order. */
  function Where(rows: seq<Row>, c: Condition): (r: seq<Row>)
    ensures |r| <= |rows|
  {
    if rows == [] then []
    else (if Holds(c, rows[0]) then [rows[0]] else []) + Where(rows[1..], c)
  }

  lemma {:induction false} WhereAppend(a: seq<Row>, b: seq<Row>, c: Condition)
    ensures Where(a + b, c) == Where(a, c) + Where(b, c)
  {
    if a == [] {
      assert a + b == b;
    } else {
      var head := if Holds(c, a[0]) then [a[0]] else [];
      assert (a + b)[0] == a[0];
      assert (a + b)[1..] == a[1..] + b;
      assert Where(a + b, c) == head + Where(a[1..] + b, c);
      assert Where(a, c) == head + Where(a[1..], c);
      WhereAppend(a[1..], b, c);
      assert head + (Where(a[1..], c) + Where(b, c)) == (head + Where(a[1..], c)) + Where(b, c);
    }
  }

  /** Where keeps exactly the rows satisfying c. */
  lemma {:induction false} WhereMembership(rows: seq<Row>, c: Condition, r: Row)
    ensures r in Where(rows, c) <==> r in rows && Holds(c, r)
  {
    if rows != [] {
      WhereMembership(rows[1..], c, r);
    }
  }

  /** Where changes nothing when every row already satisfies c. */
  lemma {:induction false} WhereAll(rows: seq<Row>, c: Condition)
    requires forall i :: 0 <= i < |rows| ==> Holds(c, rows[i])
    ensures Where(rows, c) == rows
  {
    if rows != [] {
      WhereAll(rows[1..], c);
    }
  }

  /** Where removes everything when no row satisfies c. */
  lemma {:induction false} WhereNone(rows: seq<Row>, c: Condition)
    requires forall i :: 0 <= i < |rows| ==> !Holds(c, rows[i])
    ensures Where(rows, c) == []
  {
    if rows != [] {
      WhereNone(rows[1..], c);
    }
  }

  /** Filtering on c first changes nothing when d already implies c. */
  lemma {:induction false} WhereImplied(rows: seq<Row>, c: Condition, d: Condition)
    requires forall r: Row :: Holds(d, r) ==> Holds(c, r)
    ensures Where(Where(rows, c), d) == Where(rows, d)
  {
    if rows != [] {
      WhereImplied(rows[1..], c, d);
      WhereAppend(if Holds(c, rows[0]) then [rows[0]] else [], Where(rows[1..], c), d);
    }
  }

  /** Filtering on c first leaves nothing when d excludes c. */
  lemma {:induction false} WhereExcluded(rows: seq<Row>, c: Condition, d: Condition)
    requires forall r: Row :: Holds(d, r) ==> !Holds(c, r)
    ensures Where(Where(rows, c), d) == []
  {
    if rows != [] {
      WhereExcluded(rows[1..], c, d);
      WhereAppend(if Holds(c, rows[0]) then [rows[0]] else [], Where(rows[1..], c), d);
    }
  }

  /** The rows that COPY inserts for one cell: one row per meal, in order. */
  function CellRows(k: CellKey, meals: seq<CachedMeal>): seq<Row>
  {
    seq(|meals|, i requires 0 <= i < |meals| => Row(k.day, k.location, k.mealtime, meals[i].name, meals[i].id))
  }

  /** The table after a committed cell refresh: delete the cell, then append the new rows. */
  function ReplaceCell(rows: seq<Row>, k: CellKey, meals: seq<CachedMeal>): seq<Row>
  {
    Where(rows, KeyIsNot(k)) + CellRows(k, meals)
  }

  /** The table after retention pruning: DELETE ... WHERE day < cutoff. */
  function PruneBefore(rows: seq<Row>, cutoff: Day): seq<Row>
  {
    Where(rows, DayNotBefore(cutoff))
  }

  /** The rows of one cell, as a reader selecting on its key sees them. */
  function RowsAt(rows: seq<Row>, k: CellKey): seq<Row>
  {
    Where(rows, KeyIs(k))
  }

  /** After a refresh of cell k, its rows are exactly one row per fetched
      meal, in meal order (none at all for an empty menu). */
  lemma ReplaceCellAtKey(rows: seq<Row>, k: CellKey, meals: seq<CachedMeal>)
    ensures RowsAt(ReplaceCell(rows, k, meals), k) == CellRows(k, meals)
    ensures meals == [] ==> RowsAt(ReplaceCell(rows, k, meals), k) == []
  {
    WhereAppend(Where(rows, KeyIsNot(k)), CellRows(k, meals), KeyIs(k));
    WhereExcluded(rows, KeyIsNot(k), KeyIs(k));
    WhereAll(CellRows(k, meals), KeyIs(k));
  }

  /** A refresh of cell k leaves every other cell's rows as they were. */
  lemma ReplaceCellElsewhere(rows: seq<Row>, k: CellKey, meals: seq<CachedMeal>, other: CellKey)
    requires other != k
    ensures RowsAt(ReplaceCell(rows, k, meals), other) == RowsAt(rows, other)
  {
    WhereAppend(Where(rows, KeyIsNot(k)), CellRows(k, meals), KeyIs(other));
    WhereImplied(rows, KeyIsNot(k), KeyIs(other));
    WhereNone(CellRows(k, meals), KeyIs(other));
  }

  /** Refreshing a cell twice with the same meals gives the same table as once. */
  lemma ReplaceCellIdempotent(rows: seq<Row>, k: CellKey, meals: seq<CachedMeal>)
    ensures ReplaceCell(ReplaceCell(rows, k, meals), k, meals) == ReplaceCell(rows, k, meals)
  {
    var kept := Where(rows, KeyIsNot(k));
    WhereAppend(kept, CellRows(k, meals), KeyIsNot(k));
    WhereImplied(rows, KeyIsNot(k), KeyIsNot(k));
    WhereNone(CellRows(k, meals), KeyIsNot(k));
  }

  /** After pruning no row is older than the cutoff, and the rows of every
      cell on or after the cutoff are untouched. */
  lemma PruneBeforeEffect(rows: seq<Row>, cutoff: Day, k: CellKey)
    ensures forall r :: r in PruneBefore(rows, cutoff) ==> r.day >= cutoff
    ensures forall r :: r in rows && r.day >= cutoff ==> r in PruneBefore(rows, cutoff)
    ensures k.day >= cutoff ==> RowsAt(PruneBefore(rows, cutoff), k) == RowsAt(rows, k)
    ensures k.day < cutoff ==> RowsAt(PruneBefore(rows, cutoff), k) == []
  {
    forall r | r in PruneBefore(rows, cutoff) ensures r.day >= cutoff {
      WhereMembership(rows, DayNotBefore(cutoff), r);
    }
    forall r | r in rows && r.day >= cutoff ensures r in PruneBefore(rows, cutoff) {
      WhereMembership(rows, DayNotBefore(cutoff), r);
    }
    if k.day >= cutoff {
      WhereImplied(rows, DayNotBefore(cutoff), KeyIs(k));
    } else {
      WhereExcluded(rows, DayNotBefore(cutoff), KeyIs(k));
    }
  }

  /** The failures the database can report during one cell's transaction. */
  datatype TxFaults = TxFaults(begin: Option<string>, delete: Option<string>, copy: Option<string>, commit: Option<string>)

  /** The first failure the transaction meets: Begin, the delete, the copy
      (attempted only when there is something to insert), then Commit. */
  function FirstTxFault(faults: TxFaults, inserting: bool): Option<string>
  {
    if faults.begin.Some? then faults.begin
    else if faults.delete.Some? then faults.delete
    else if inserting && faults.copy.Some? then faults.copy
    else faults.commit
  }

  class DocCache {
    var rows: seq<Row>

    constructor (initial: seq<Row>)
      ensures rows == initial
    {
      rows := initial;
    }

    /** DELETE FROM "DocCache" WHERE day < cutoff, as one auto-committed
        statement: on failure nothing is deleted. */
    method DeleteOlderThan(cutoff: Day, fault: Option<string>) returns (err: Option<string>)
      modifies this
      ensures err == fault
      ensures rows == if fault.None? then PruneBefore(old(rows), cutoff) else old(rows)
    {
      if fault.Some? {
        return fault;
      }
      rows := PruneBefore(rows, cutoff);
      return None;
    }

    /** One cell's transaction: delete the cell's rows, copy in the new ones
        when there are any, commit. The pending table is private to the
        transaction; any failure rolls back and leaves the table untouched. */
    method ReplaceCellInTransaction(k: CellKey, meals: seq<CachedMeal>, faults: TxFaults) returns (err: Option<string>)
      modifies this
      ensures err == FirstTxFault(faults, |meals| != 0)
      ensures err.None? ==> rows == ReplaceCell(old(rows), k, meals)
      ensures err.Some? ==> rows == old(rows)
    {
      if faults.begin.Some? {
        return faults.begin;
      }
      var pending := Where(rows, KeyIsNot(k));
      if faults.delete.Some? {
        return faults.delete;
      }
      if |meals| != 0 {
        if faults.copy.Some? {
          return faults.copy;
        }
        pending := pending + CellRows(k, meals);
      } else {
        assert CellRows(k, meals) == [];
        assert pending + CellRows(k, meals) == pending;
      }
      if faults.commit.Some? {
        return faults.commit;
      }
      rows := pending;
      return None;
    }
  }
}
