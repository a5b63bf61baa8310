/**
 * The record store: the persisted list of expenses and the operations that
 * add to it, delete from it, edit one record of it in place and clear it.
 * Each operation loads the whole list, changes it, and writes the whole list
 * back; `ExpenseStore.records` stands for that persisted list.
 */
module Store {
  import opened Wrappers
  import opened Text
  import opened Catalog
  import opened Expense

  predicate HasId(s: seq<Expense>, n: int) {
    exists i :: 0 <= i < |s| && s[i].id == n
  }

  /** No two records share an id: what the millisecond clock is relied upon to give. */
  predicate DistinctIds(s: seq<Expense>) {
    forall i, j :: 0 <= i < j < |s| ==> s[i].id != s[j].id
  }

  /** Every record's category is a catalog entry. */
  predicate AllInCatalog(s: seq<Expense>) {
    forall i :: 0 <= i < |s| ==> IsCategory(s[i].category)
  }

  // ---------------------------------------------------------------- add

  /** A record stamped later than every stored one keeps the ids distinct. */
  lemma AddKeepsIdsDistinct(s: seq<Expense>, e: Expense)
    requires DistinctIds(s)
    requires forall i :: 0 <= i < |s| ==> s[i].id < e.id
    ensures DistinctIds(s + [e])
  {
  }

  // ---------------------------------------------------------------- delete

  /** The records whose id differs from `n`, in their stored order. */
  function Without(s: seq<Expense>, n: int): (r: seq<Expense>)
    ensures |r| <= |s|
    ensures forall e :: e in r <==> e in s && e.id != n
  {
    if s == [] then [] else (if s[0].id != n then [s[0]] else []) + Without(s[1..], n)
  }

  /** The length comparison the store uses: the list shrinks exactly when some record has the id. */
  lemma {:induction false} WithoutShrinksIffPresent(s: seq<Expense>, n: int)
    ensures |Without(s, n)| < |s| <==> HasId(s, n)
  {
    if s != [] {
      WithoutShrinksIffPresent(s[1..], n);
      if s[0].id != n && HasId(s[1..], n) {
        var i :| 0 <= i < |s[1..]| && s[1..][i].id == n;
        assert s[i + 1].id == n;
      }
      if HasId(s, n) && s[0].id != n {
        var i :| 0 <= i < |s| && s[i].id == n;
        assert s[1..][i - 1].id == n;
      }
    }
  }

  /** An absent id leaves the list exactly as it was. */
  lemma {:induction false} WithoutAbsent(s: seq<Expense>, n: int)
    requires !HasId(s, n)
    ensures Without(s, n) == s
  {
    if s != [] {
      WithoutAbsent(s[1..], n);
      assert s == [s[0]] + s[1..];
    }
  }

  /** Deleting works record by record: the kept records stay in their stored order. */
  lemma {:induction false} WithoutDistributes(a: seq<Expense>, b: seq<Expense>, n: int)
    ensures Without(a + b, n) == Without(a, n) + Without(b, n)
  {
    if a == [] {
      assert a + b == b;
    } else {
      assert (a + b)[1..] == a[1..] + b;
      WithoutDistributes(a[1..], b, n);
    }
  }

  /** With distinct ids, a delete removes at most one record. */
  lemma {:induction false} WithoutRemovesAtMostOne(s: seq<Expense>, n: int)
    requires DistinctIds(s)
    ensures |Without(s, n)| >= |s| - 1
  {
    if s != [] {
      if s[0].id == n {
        WithoutAbsent(s[1..], n);
      } else {
        WithoutRemovesAtMostOne(s[1..], n);
      }
    }
  }

  /** Deleting keeps the ids distinct. */
  lemma {:induction false} WithoutKeepsIdsDistinct(s: seq<Expense>, n: int)
    requires DistinctIds(s)
    ensures DistinctIds(Without(s, n))
  {
    if s != [] {
      var tail := Without(s[1..], n);
      WithoutKeepsIdsDistinct(s[1..], n);
      if s[0].id != n {
        forall j | 0 <= j < |tail|
          ensures s[0].id != tail[j].id
        {
          assert tail[j] in s[1..];
          var k :| 0 <= k < |s[1..]| && s[1..][k] == tail[j];
          assert s[k + 1] == tail[j];
        }
        assert Without(s, n) == [s[0]] + tail;
      }
    }
  }

  // ---------------------------------------------------------------- update

  /**
   * The answers to the update prompts: a new amount (None when the answer
   * was blank or not a number), the raw answer to the category menu, and
   * the raw answer for the note.
   */
  datatype Edit = Edit(amount: Option<int>, categoryChoice: string, note: string)

  /** The three skippable assignments into the record, in the order the store makes them. */
  function ApplyEdit(e: Expense, edit: Edit): (r: Expense)
    ensures r.id == e.id && r.date == e.date
    ensures r.amount == (if edit.amount.Some? then edit.amount.value else e.amount)
    ensures r.category == (if ChooseByNumber(edit.categoryChoice).Some? then CATEGORIES[DecimalValue(edit.categoryChoice) - 1] else e.category)
    ensures r.note == (if IsBlank(edit.note) then e.note else edit.note)
    ensures IsCategory(e.category) ==> IsCategory(r.category)
  {
    var withAmount := if edit.amount.Some? then e.(amount := edit.amount.value) else e;
    var withCategory :=
      match ChooseByNumber(edit.categoryChoice)
      case Some(c) => withAmount.(category := c)
      case None => withAmount;
    if IsBlank(edit.note) then withCategory else withCategory.(note := edit.note)
  }

  /** Giving the same answers twice changes nothing more than giving them once. */
  lemma ApplyEditIdempotent(e: Expense, edit: Edit)
    ensures ApplyEdit(ApplyEdit(e, edit), edit) == ApplyEdit(e, edit)
  {
  }

  /** The position of the first record with id `n`, if there is one. */
  function FirstIndexOf(s: seq<Expense>, n: int): (r: Option<nat>)
    ensures r.None? <==> !HasId(s, n)
    ensures r.Some? ==> r.value < |s| && s[r.value].id == n && forall j :: 0 <= j < r.value ==> s[j].id != n
  {
    if s == [] then None
    else if s[0].id == n then Some(0)
    else match FirstIndexOf(s[1..], n)
      case None => None
      case Some(k) => Some(k + 1)
  }

  /** The list after editing the first record with id `n` and leaving every other record alone. */
  function UpdateFirst(s: seq<Expense>, n: int, edit: Edit): (r: seq<Expense>)
    ensures |r| == |s|
  {
    if s == [] then []
    else if s[0].id == n then [ApplyEdit(s[0], edit)] + s[1..]
    else [s[0]] + UpdateFirst(s[1..], n, edit)
  }

  lemma ConsUpdate(x: Expense, u: seq<Expense>, k: nat, a: Expense)
    requires k < |u|
    ensures [x] + u[k := a] == ([x] + u)[k + 1 := a]
  {
  }

  lemma UpdateFirstHead(s: seq<Expense>, n: int, edit: Edit)
    requires s != [] && s[0].id == n
    ensures FirstIndexOf(s, n) == Some(0)
    ensures UpdateFirst(s, n, edit) == s[0 := ApplyEdit(s[0], edit)]
  {
    assert [ApplyEdit(s[0], edit)] + s[1..] == s[0 := ApplyEdit(s[0], edit)];
  }

  lemma UpdateFirstLater(s: seq<Expense>, n: int, edit: Edit, k: nat)
    requires s != [] && s[0].id != n && k + 1 < |s|
    requires UpdateFirst(s[1..], n, edit) == s[1..][k := ApplyEdit(s[k + 1], edit)]
    ensures UpdateFirst(s, n, edit) == s[k + 1 := ApplyEdit(s[k + 1], edit)]
  {
    var a := ApplyEdit(s[k + 1], edit);
    assert UpdateFirst(s, n, edit) == [s[0]] + s[1..][k := a];
    ConsUpdate(s[0], s[1..], k, a);
    assert [s[0]] + s[1..] == s;
  }

  /** The update is the edit of one position: the first match, or none at all. */
  lemma {:induction false} UpdateFirstAt(s: seq<Expense>, n: int, edit: Edit)
    ensures UpdateFirst(s, n, edit) ==
      match FirstIndexOf(s, n)
      case None => s
      case Some(k) => s[k := ApplyEdit(s[k], edit)]
  {
    if s != [] {
      if s[0].id == n {
        UpdateFirstHead(s, n, edit);
      } else {
        var rest := s[1..];
        assert s == [s[0]] + rest;
        UpdateFirstAt(rest, n, edit);
        match FirstIndexOf(rest, n)
        case None =>
          assert FirstIndexOf(s, n) == None;
        case Some(k) =>
          assert FirstIndexOf(s, n) == Some(k + 1);
          assert rest[k] == s[k + 1];
          UpdateFirstLater(s, n, edit, k);
      }
    }
  }

  /** Every position keeps its id and its date. */
  lemma UpdateFirstKeepsIdsAndDates(s: seq<Expense>, n: int, edit: Edit, i: nat)
    requires i < |s|
    ensures UpdateFirst(s, n, edit)[i].id == s[i].id
    ensures UpdateFirst(s, n, edit)[i].date == s[i].date
  {
    UpdateFirstAt(s, n, edit);
  }

  /** Record by record: only the first match is edited; every other record is unchanged. */
  lemma UpdateFirstPointwise(s: seq<Expense>, n: int, edit: Edit, i: nat)
    requires i < |s|
    ensures UpdateFirst(s, n, edit)[i] == if FirstIndexOf(s, n) == Some(i) then ApplyEdit(s[i], edit) else s[i]
  {
    UpdateFirstAt(s, n, edit);
  }

  /** An update keeps every category inside the catalog. */
  lemma UpdateFirstKeepsCatalog(s: seq<Expense>, n: int, edit: Edit)
    requires AllInCatalog(s)
    ensures AllInCatalog(UpdateFirst(s, n, edit))
  {
    UpdateFirstAt(s, n, edit);
  }

  // ---------------------------------------------------------------- the store

  /** What a delete or an update reports. */
  datatype Outcome = NoRecords | InvalidId | NotFound | Done

  class ExpenseStore {
    /** The persisted list of records, in stored order. */
    var records: seq<Expense>

    /** The invariants the catalog and the clock are relied upon to keep. */
    ghost predicate Valid()
      reads this
    {
      AllInCatalog(records) && DistinctIds(records)
    }

    /** A store holding the list that loading found. */
    constructor (saved: seq<Expense>)
      ensures records == saved
    {
      records := saved;
    }

    /**
     * Adds one expense stamped by the clock, unless the amount could not be
     * read. The category has already been chosen from the catalog.
     */
    method Add(amount: Option<int>, category: string, note: string, nowMillis: int, now: DateTime)
      returns (added: bool)
      requires IsCategory(category) && ValidClock(now)
      modifies this
      ensures added <==> amount.Some?
      ensures added ==> records == old(records) + [NewExpense(nowMillis, now, amount.value, category, note)]
      ensures !added ==> records == old(records)
      ensures old(Valid()) && (forall i :: 0 <= i < |old(records)| ==> old(records)[i].id < nowMillis) ==> Valid()
    {
      if amount.None? {
        return false;
      }
      var entry := NewExpense(nowMillis, now, amount.value, category, note);
      if Valid() && (forall i :: 0 <= i < |records| ==> records[i].id < nowMillis) {
        AddKeepsIdsDistinct(records, entry);
      }
      records := records + [entry];
      added := true;
    }

    /** Deletes the records whose id is the number typed, and saves only if one was removed. */
    method Delete(idInput: string) returns (outcome: Outcome)
      modifies this
      ensures old(records) == [] ==> outcome == NoRecords
      ensures old(records) != [] && !IsDigits(idInput) ==> outcome == InvalidId
      ensures old(records) != [] && IsDigits(idInput) ==>
        outcome == if HasId(old(records), DecimalValue(idInput)) then Done else NotFound
      ensures outcome == Done ==> IsDigits(idInput) && records == Without(old(records), DecimalValue(idInput))
      ensures outcome != Done ==> records == old(records)
      ensures old(Valid()) ==> Valid()
      ensures old(Valid()) && outcome == Done ==> |records| == |old(records)| - 1
    {
      if records == [] {
        return NoRecords;
      }
      if !IsDigits(idInput) {
        return InvalidId;
      }
      var n := DecimalValue(idInput);
      var kept := Without(records, n);
      WithoutShrinksIffPresent(records, n);
      if |kept| == |records| {
        return NotFound;
      }
      if Valid() {
        WithoutKeepsIdsDistinct(records, n);
        WithoutRemovesAtMostOne(records, n);
      }
      records := kept;
      outcome := Done;
    }

    /** Edits the first record whose id is the number typed; id and date are never touched. */
    method Update(idInput: string, edit: Edit) returns (outcome: Outcome)
      modifies this
      ensures old(records) == [] ==> outcome == NoRecords
      ensures old(records) != [] && !IsDigits(idInput) ==> outcome == InvalidId
      ensures old(records) != [] && IsDigits(idInput) ==>
        outcome == if HasId(old(records), DecimalValue(idInput)) then Done else NotFound
      ensures outcome == Done ==> IsDigits(idInput) && records == UpdateFirst(old(records), DecimalValue(idInput), edit)
      ensures outcome != Done ==> records == old(records)
      ensures old(Valid()) ==> Valid()
    {
      if records == [] {
        return NoRecords;
      }
      if !IsDigits(idInput) {
        return InvalidId;
      }
      var n := DecimalValue(idInput);
      var i := 0;
      while i < |records|
        invariant 0 <= i <= |records|
        invariant records == old(records)
        invariant forall j :: 0 <= j < i ==> records[j].id != n
      {
        if records[i].id == n {
          UpdateFirstAt(records, n, edit);
          assert FirstIndexOf(records, n) == Some(i);
          if Valid() {
            UpdateFirstKeepsCatalog(records, n, edit);
          }
          records := records[i := ApplyEdit(records[i], edit)];
          return Done;
        }
        i := i + 1;
      }
      return NotFound;
    }

    /** Empties the store once the user confirms with exactly "YES". */
    method ClearAll(confirm: string) returns (cleared: bool)
      modifies this
      ensures cleared <==> confirm == "YES"
      ensures records == if cleared then [] else old(records)
      ensures old(Valid()) ==> Valid()
    {
      cleared := confirm == "YES";
      if cleared {
        records := [];
      }
    }
  }
}
