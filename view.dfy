/**
 * The listing order of the records (newest date first) and the rows an
 * export hands to the CSV writer.
 */
module View {
  import opened Wrappers
  import opened Text
  import opened Expense

  /** Dates never increase along the list. */
  predicate Descending(s: seq<Expense>) {
    forall i :: 0 < i < |s| ==> StrLeq(s[i].date, s[i - 1].date)
  }

  /**
   * Puts `x` in front of the first record whose date is not later than its
   * own, so that `x` stays ahead of the records with an equal date.
   */
  function Insert(x: Expense, t: seq<Expense>): (r: seq<Expense>)
    ensures |r| == |t| + 1
    ensures multiset(r) == multiset(t) + multiset{x}
    ensures r[0] == x || (t != [] && r[0] == t[0])
  {
    if t == [] || StrLeq(t[0].date, x.date) then
      [x] + t
    else
      assert t == [t[0]] + t[1..];
      [t[0]] + Insert(x, t[1..])
  }

  /** Inserting into a list sorted newest first keeps it sorted. */
  lemma {:induction false} InsertKeepsDescending(x: Expense, t: seq<Expense>)
    requires Descending(t)
    ensures Descending(Insert(x, t))
  {
    if !(t == [] || StrLeq(t[0].date, x.date)) {
      StrLeqTotal(t[0].date, x.date);
      var rest := Insert(x, t[1..]);
      assert Descending(t[1..]);
      InsertKeepsDescending(x, t[1..]);
      assert StrLeq(rest[0].date, t[0].date);
      assert Insert(x, t) == [t[0]] + rest;
    }
  }

  /**
   * `sorted(data, key=lambda x: x["date"], reverse=True)`: the same records,
   * newest date first.
   */
  function SortByDateDesc(s: seq<Expense>): (r: seq<Expense>)
    ensures multiset(r) == multiset(s)
    ensures Descending(r)
  {
    if s == [] then []
    else
      assert s == [s[0]] + s[1..];
      InsertKeepsDescending(s[0], SortByDateDesc(s[1..]));
      Insert(s[0], SortByDateDesc(s[1..]))
  }

  /** Along a descending list every later date is at most every earlier one. */
  lemma {:induction false} DescendingPairwise(s: seq<Expense>, i: nat, j: nat)
    requires Descending(s) && i <= j < |s|
    ensures StrLeq(s[j].date, s[i].date)
    decreases j - i
  {
    if i == j {
      StrLeqReflexive(s[i].date);
    } else {
      DescendingPairwise(s, i, j - 1);
      StrLeqTransitive(s[j].date, s[j - 1].date, s[i].date);
    }
  }

  /** The records dated exactly `d`, in list order. */
  function WithDate(s: seq<Expense>, d: string): seq<Expense> {
    if s == [] then [] else (if s[0].date == d then [s[0]] else []) + WithDate(s[1..], d)
  }

  lemma WithDateCons(y: Expense, u: seq<Expense>, d: string)
    ensures WithDate([y] + u, d) == (if y.date == d then [y] else []) + WithDate(u, d)
  {
    assert ([y] + u)[1..] == u;
  }

  lemma SwapEmpty(a: seq<Expense>, b: seq<Expense>, w: seq<Expense>)
    requires a == [] || b == []
    ensures a + (b + w) == b + (a + w)
  {
    if a == [] {
      assert a + (b + w) == b + w == b + (a + w);
    } else {
      assert a + (b + w) == a + w == b + (a + w);
    }
  }

  /** Inserting `x` keeps it ahead of the records that share its date. */
  lemma {:induction false} InsertStable(x: Expense, t: seq<Expense>, d: string)
    ensures WithDate(Insert(x, t), d) == WithDate([x] + t, d)
  {
    if !(t == [] || StrLeq(t[0].date, x.date)) {
      StrLeqReflexive(x.date);
      var h, u := t[0], t[1..];
      assert h.date != x.date;
      assert t == [h] + u;
      var hx := if h.date == d then [h] else [];
      var xx := if x.date == d then [x] else [];
      assert hx == [] || xx == [];
      InsertStable(x, u, d);
      assert Insert(x, t) == [h] + Insert(x, u);
      WithDateCons(h, Insert(x, u), d);
      WithDateCons(x, u, d);
      assert WithDate(Insert(x, t), d) == hx + (xx + WithDate(u, d));
      WithDateCons(x, t, d);
      WithDateCons(h, u, d);
      assert WithDate([x] + t, d) == xx + (hx + WithDate(u, d));
      SwapEmpty(hx, xx, WithDate(u, d));
    }
  }

  /** The sort is stable: records with the same date keep their stored order. */
  lemma {:induction false} SortStable(s: seq<Expense>, d: string)
    ensures WithDate(SortByDateDesc(s), d) == WithDate(s, d)
  {
    if s != [] {
      SortStable(s[1..], d);
      InsertStable(s[0], SortByDateDesc(s[1..]), d);
      assert ([s[0]] + SortByDateDesc(s[1..]))[1..] == SortByDateDesc(s[1..]);
    }
  }

  /** One CSV field: the writer prints numbers and text. */
  datatype Cell = IntCell(n: int) | TextCell(text: string)

  type Row = seq<Cell>

  const HEADER: Row := [TextCell("id"), TextCell("date"), TextCell("amount"), TextCell("category"), TextCell("note")]

  /** The fields of one record, in the header's column order. */
  function RowOf(e: Expense): Row {
    [IntCell(e.id), TextCell(e.date), IntCell(e.amount), TextCell(e.category), TextCell(e.note)]
  }

  /** Reading a data row back as a record. */
  function RecordOf(row: Row): Option<Expense> {
    if |row| == 5 && row[0].IntCell? && row[1].TextCell? && row[2].IntCell? && row[3].TextCell? && row[4].TextCell? then
      Some(Expense(row[0].n, row[2].n, row[3].text, row[4].text, row[1].text))
    else
      None
  }

  /** An exported row holds the whole record: reading it back gives the record. */
  lemma RowRoundTrip(e: Expense)
    ensures RecordOf(RowOf(e)) == Some(e)
    ensures RowOf(e) != HEADER
  {
  }

  /**
   * The rows written by an export: nothing when the store is empty, and
   * otherwise the header followed by one row per record in stored order.
   */
  method ExportRows(data: seq<Expense>) returns (rows: Option<seq<Row>>)
    ensures rows.None? <==> data == []
    ensures rows.Some? ==>
      && |rows.value| == |data| + 1
      && rows.value[0] == HEADER
      && forall i :: 0 <= i < |data| ==> rows.value[i + 1] == RowOf(data[i])
  {
    if data == [] {
      return None;
    }
    var written := [HEADER];
    var i := 0;
    while i < |data|
      invariant 0 <= i <= |data|
      invariant |written| == i + 1 && written[0] == HEADER
      invariant forall k :: 0 <= k < i ==> written[k + 1] == RowOf(data[k])
    {
      written := written + [RowOf(data[i])];
      i := i + 1;
    }
    rows := Some(written);
  }
}
