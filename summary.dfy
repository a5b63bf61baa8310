/**
 * The monthly summary: the records of one year and month, their total, the
 * per-category totals in the order categories were first met, and the top
 * category.
 */
module Summary {
  import opened Text
  import opened Expense

  /** Every stored date has the fixed `YYYY-MM-DD HH:MM:SS` shape that `strptime` is given. */
  predicate AllWellFormed(s: seq<Expense>) {
    forall i :: 0 <= i < |s| ==> WellFormedDate(s[i].date)
  }

  /**
   * The period test on a record's parsed date: the year printed without
   * padding equals `year`, and the month printed with two digits equals `month`.
   */
  predicate InPeriod(e: Expense, year: string, month: string) {
    WellFormedDate(e.date) && ToDecimal(YearOf(e.date)) == year && Pad2(MonthOf(e.date)) == month
  }

  /**
   * For a year written without a leading zero the period test compares the
   * date's own text: its first four characters with `year`, characters 6
   * and 7 with `month`.
   */
  lemma InPeriodBySlices(e: Expense, year: string, month: string)
    requires WellFormedDate(e.date) && e.date[0] != '0'
    ensures InPeriod(e, year, month) <==> e.date[..4] == year && e.date[5..7] == month
  {
    var y := e.date[..4];
    assert forall i :: 0 <= i < 4 ==> y[i] == e.date[i] && DigitPosition(i);
    ToDecimalOfDecimalValue(y);
    MonthTextIsSlice(e.date);
  }

  /** The records of the period, in stored order. */
  function Filtered(s: seq<Expense>, year: string, month: string): seq<Expense> {
    if s == [] then []
    else
      var last := s[|s| - 1];
      Filtered(s[..|s| - 1], year, month) + (if InPeriod(last, year, month) then [last] else [])
  }

  /** The period's records are exactly the stored records that fall in it. */
  lemma {:induction false} FilteredMembers(s: seq<Expense>, year: string, month: string)
    ensures |Filtered(s, year, month)| <= |s|
    ensures forall e :: e in Filtered(s, year, month) <==> e in s && InPeriod(e, year, month)
  {
    if s != [] {
      var p, e := s[..|s| - 1], s[|s| - 1];
      FilteredMembers(p, year, month);
      assert s == p + [e];
      var r := Filtered(p, year, month);
      if InPeriod(e, year, month) {
        assert Filtered(s, year, month) == r + [e];
      } else {
        assert Filtered(s, year, month) == r;
      }
    }
  }

  /** Filtering record by record keeps the stored order of what it keeps. */
  lemma {:induction false} FilteredAppend(a: seq<Expense>, b: seq<Expense>, year: string, month: string)
    ensures Filtered(a + b, year, month) == Filtered(a, year, month) + Filtered(b, year, month)
  {
    if b != [] {
      var b', last := b[..|b| - 1], b[|b| - 1];
      assert (a + b)[..|a + b| - 1] == a + b' && (a + b)[|a + b| - 1] == last;
      FilteredAppend(a, b', year, month);
    } else {
      assert a + b == a;
    }
  }

  /** The sum of the amounts. */
  function Total(s: seq<Expense>): int {
    if s == [] then 0 else Total(s[..|s| - 1]) + s[|s| - 1].amount
  }

  lemma {:induction false} TotalAppend(a: seq<Expense>, b: seq<Expense>)
    ensures Total(a + b) == Total(a) + Total(b)
  {
    if b != [] {
      var b', last := b[..|b| - 1], b[|b| - 1];
      assert (a + b)[..|a + b| - 1] == a + b' && (a + b)[|a + b| - 1] == last;
      TotalAppend(a, b');
    } else {
      assert a + b == a;
    }
  }

  /** Some record has category `c`. */
  predicate Seen(s: seq<Expense>, c: string) {
    exists i :: 0 <= i < |s| && s[i].category == c
  }

  lemma SeenStep(s: seq<Expense>, c: string)
    requires s != []
    ensures Seen(s, c) <==> Seen(s[..|s| - 1], c) || s[|s| - 1].category == c
  {
    if Seen(s, c) && s[|s| - 1].category != c {
      var i :| 0 <= i < |s| && s[i].category == c;
      assert s[..|s| - 1][i].category == c;
    }
    if Seen(s[..|s| - 1], c) {
      var i :| 0 <= i < |s| - 1 && s[..|s| - 1][i].category == c;
      assert s[i].category == c;
    }
  }

  /** The records of category `c`, in stored order. */
  function OfCategory(s: seq<Expense>, c: string): seq<Expense> {
    if s == [] then []
    else OfCategory(s[..|s| - 1], c) + (if s[|s| - 1].category == c then [s[|s| - 1]] else [])
  }

  predicate Distinct(keys: seq<string>) {
    forall i, j :: 0 <= i < j < |keys| ==> keys[i] != keys[j]
  }

  /** `m[c] = m.get(c, 0) + a`. */
  function AddTo(m: map<string, int>, c: string, a: int): map<string, int> {
    m[c := (if c in m then m[c] else 0) + a]
  }

  /** The running per-category totals, as the dictionary `category_totals` holds them. */
  function CategorySums(s: seq<Expense>): map<string, int> {
    if s == [] then map[]
    else
      var e := s[|s| - 1];
      AddTo(CategorySums(s[..|s| - 1]), e.category, e.amount)
  }

  /**
   * The keys of `category_totals` in the dictionary's own order: a category
   * joins the end when its first record is met.
   */
  function CategoryKeys(s: seq<Expense>): seq<string> {
    if s == [] then []
    else
      var c := s[|s| - 1].category;
      var keys := CategoryKeys(s[..|s| - 1]);
      if c in CategorySums(s[..|s| - 1]) then keys else keys + [c]
  }

  /** The key sequence and the dict hold the same categories, each key once. */
  lemma {:induction false} KeysMatchSums(s: seq<Expense>)
    ensures forall c :: c in CategoryKeys(s) <==> c in CategorySums(s)
    ensures Distinct(CategoryKeys(s))
  {
    if s != [] {
      KeysMatchSums(s[..|s| - 1]);
    }
  }

  /**
   * The dictionary has a key exactly for the categories that occur, each
   * once, and has one as soon as there is a record.
   */
  lemma {:induction false} CategoryKeysExact(s: seq<Expense>)
    ensures forall c :: c in CategorySums(s) <==> Seen(s, c)
    ensures forall c :: c in CategoryKeys(s) <==> Seen(s, c)
    ensures Distinct(CategoryKeys(s))
    ensures s != [] ==> |CategoryKeys(s)| > 0
  {
    KeysMatchSums(s);
    if s != [] {
      var p := s[..|s| - 1];
      CategoryKeysExact(p);
      forall c
        ensures Seen(s, c) <==> Seen(p, c) || s[|s| - 1].category == c
      {
        SeenStep(s, c);
      }
    }
  }

  /** Each category's total is the sum of the amounts of exactly its records. */
  lemma {:induction false} CategorySumIsCategoryTotal(s: seq<Expense>, c: string)
    ensures c in CategorySums(s) ==> CategorySums(s)[c] == Total(OfCategory(s, c))
    ensures c !in CategorySums(s) ==> OfCategory(s, c) == []
  {
    if s != [] {
      var p := s[..|s| - 1];
      var e := s[|s| - 1];
      CategorySumIsCategoryTotal(p, c);
      var m := CategorySums(p);
      assert CategorySums(s) == m[e.category := (if e.category in m then m[e.category] else 0) + e.amount];
      if e.category == c {
        var grown := OfCategory(p, c) + [e];
        assert OfCategory(s, c) == grown;
        assert grown[..|grown| - 1] == OfCategory(p, c);
        assert Total(grown) == Total(OfCategory(p, c)) + e.amount;
      } else {
        assert OfCategory(s, c) == OfCategory(p, c);
      }
    }
  }

  /** The sum of the values of `m` over `keys`. */
  function SumOver(keys: seq<string>, m: map<string, int>): int
    requires forall k :: k in keys ==> k in m
  {
    if keys == [] then 0 else SumOver(keys[..|keys| - 1], m) + m[keys[|keys| - 1]]
  }

  lemma {:induction false} SumOverUnaffected(keys: seq<string>, m: map<string, int>, k: string, v: int)
    requires forall x :: x in keys ==> x in m
    requires k !in keys
    ensures SumOver(keys, m[k := v]) == SumOver(keys, m)
  {
    if keys != [] {
      SumOverUnaffected(keys[..|keys| - 1], m, k, v);
    }
  }

  lemma {:induction false} SumOverBump(keys: seq<string>, m: map<string, int>, k: string, a: int)
    requires forall x :: x in keys ==> x in m
    requires Distinct(keys) && k in keys
    ensures SumOver(keys, m[k := m[k] + a]) == SumOver(keys, m) + a
  {
    var p := keys[..|keys| - 1];
    var last := keys[|keys| - 1];
    if last == k {
      assert k !in p;
      SumOverUnaffected(p, m, k, m[k] + a);
    } else {
      assert k in p;
      SumOverBump(p, m, k, a);
    }
  }

  /** Adding to a key already listed raises the sum by the amount. */
  lemma AddToListed(keys: seq<string>, m: map<string, int>, c: string, a: int)
    requires forall x :: x in keys ==> x in m
    requires Distinct(keys) && c in keys
    ensures forall x :: x in keys ==> x in AddTo(m, c, a)
    ensures SumOver(keys, AddTo(m, c, a)) == SumOver(keys, m) + a
  {
    SumOverBump(keys, m, c, a);
  }

  /** Listing a new key with its first amount raises the sum by that amount. */
  lemma AddToNew(keys: seq<string>, m: map<string, int>, c: string, a: int)
    requires forall x :: x in keys ==> x in m
    requires c !in keys && c !in m
    ensures forall x :: x in keys + [c] ==> x in AddTo(m, c, a)
    ensures SumOver(keys + [c], AddTo(m, c, a)) == SumOver(keys, m) + a
  {
    SumOverUnaffected(keys, m, c, a);
    assert (keys + [c])[..|keys|] == keys;
  }

  /** The category totals add up to the overall total. */
  lemma {:induction false} CategoryTotalsSumToTotal(s: seq<Expense>)
    ensures forall k :: k in CategoryKeys(s) ==> k in CategorySums(s)
    ensures SumOver(CategoryKeys(s), CategorySums(s)) == Total(s)
  {
    KeysMatchSums(s);
    if s != [] {
      var p := s[..|s| - 1];
      var e := s[|s| - 1];
      KeysMatchSums(p);
      CategoryTotalsSumToTotal(p);
      if e.category in CategorySums(p) {
        AddToListed(CategoryKeys(p), CategorySums(p), e.category, e.amount);
      } else {
        AddToNew(CategoryKeys(p), CategorySums(p), e.category, e.amount);
      }
    }
  }

  /** Earlier prefixes met their categories in the same order: keys are only ever appended. */
  lemma {:induction false} KeysOfPrefix(s: seq<Expense>, p: nat)
    requires p <= |s|
    ensures CategoryKeys(s[..p]) <= CategoryKeys(s)
    decreases |s| - p
  {
    if p < |s| {
      KeysOfPrefix(s, p + 1);
      var q := s[..p + 1];
      assert q[..|q| - 1] == s[..p];
    } else {
      assert s[..p] == s;
    }
  }

  /**
   * Keys are in first-met order: wherever a later key's category occurs,
   * an earlier key's category has occurred before it.
   */
  lemma KeysInFirstSeenOrder(s: seq<Expense>, i: nat, j: nat, p: nat)
    requires i < j < |CategoryKeys(s)|
    requires p < |s| && s[p].category == CategoryKeys(s)[j]
    ensures exists q :: 0 <= q < p && s[q].category == CategoryKeys(s)[i]
  {
    var keys := CategoryKeys(s);
    var q := s[..p + 1];
    var before, upTo := CategoryKeys(s[..p]), CategoryKeys(q);
    KeysOfPrefix(s, p);
    KeysOfPrefix(s, p + 1);
    CategoryKeysExact(s);
    CategoryKeysExact(s[..p]);
    CategoryKeysExact(q);
    assert q[..|q| - 1] == s[..p];
    assert Seen(q, keys[j]) by { assert q[p].category == keys[j]; }
    var jj :| 0 <= jj < |upTo| && upTo[jj] == keys[j];
    assert jj == j;
    assert upTo[i] == keys[i];
    SeenStep(q, keys[i]);
    assert Seen(s[..p], keys[i]);
    var r :| 0 <= r < |s[..p]| && s[..p][r].category == keys[i];
    assert s[r].category == keys[i];
  }

  /**
   * The position in `keys` that `max(category_totals, key=category_totals.get)`
   * picks: iterating in key order and moving on only to a strictly larger total.
   */
  function TopIndex(keys: seq<string>, m: map<string, int>): (t: nat)
    requires |keys| > 0
    requires forall k :: k in keys ==> k in m
    ensures t < |keys|
    ensures forall j :: 0 <= j < |keys| ==> m[keys[j]] <= m[keys[t]]
    ensures forall j :: 0 <= j < t ==> m[keys[j]] < m[keys[t]]
  {
    if |keys| == 1 then 0
    else
      var best := TopIndex(keys[..|keys| - 1], m);
      if m[keys[|keys| - 1]] > m[keys[best]] then |keys| - 1 else best
  }

  /** The top category of a non-empty period. */
  function TopCategory(f: seq<Expense>): string
    requires f != []
  {
    CategoryKeysExact(f);
    var keys := CategoryKeys(f);
    keys[TopIndex(keys, CategorySums(f))]
  }

  /**
   * The top category has the largest total, and any other category with
   * the same total was met only after the top one had been met.
   */
  lemma TopCategoryIsFirstMaximum(f: seq<Expense>, c: string, p: nat)
    requires f != []
    requires Seen(f, c)
    ensures var m := CategorySums(f); TopCategory(f) in m && c in m && m[c] <= m[TopCategory(f)]
    ensures p < |f| && f[p].category == c && c != TopCategory(f) && CategorySums(f)[c] == CategorySums(f)[TopCategory(f)]
      ==> exists q :: 0 <= q < p && f[q].category == TopCategory(f)
  {
    KeysMatchSums(f);
    var keys, m := CategoryKeys(f), CategorySums(f);
    assert c in keys && |keys| > 0 by {
      CategoryKeysExact(f);
    }
    var t := TopIndex(keys, m);
    assert TopCategory(f) == keys[t];
    var j :| 0 <= j < |keys| && keys[j] == c;
    if p < |f| && f[p].category == c && c != keys[t] && m[c] == m[keys[t]] {
      assert j > t;
      KeysInFirstSeenOrder(f, t, j, p);
    }
  }

  lemma FilteredStep(s: seq<Expense>, i: nat, year: string, month: string)
    requires i < |s|
    ensures InPeriod(s[i], year, month) ==> Filtered(s[..i + 1], year, month) == Filtered(s[..i], year, month) + [s[i]]
    ensures !InPeriod(s[i], year, month) ==> Filtered(s[..i + 1], year, month) == Filtered(s[..i], year, month)
  {
    assert s[..i + 1][..i] == s[..i];
    assert Filtered(s[..i], year, month) + [] == Filtered(s[..i], year, month);
  }

  lemma AccumulateStep(f: seq<Expense>, e: Expense)
    ensures Total(f + [e]) == Total(f) + e.amount
    ensures CategoryKeys(f + [e]) == if e.category in CategorySums(f) then CategoryKeys(f) else CategoryKeys(f) + [e.category]
    ensures CategorySums(f + [e]) == AddTo(CategorySums(f), e.category, e.amount)
  {
    var grown := f + [e];
    assert grown[..|grown| - 1] == f;
  }

  /** What the summary screen shows. */
  datatype Summary =
    | NoExpenses
    | EmptyPeriod(year: string, month: string)
    | Report(year: string, month: string, filtered: seq<Expense>, total: int,
             categories: seq<string>, categoryTotals: map<string, int>, top: string)

  /** The year asked for: the answer, or the clock's `%Y` when the answer is empty. */
  function PeriodYear(answer: string, yearNow: DateTime): string
    requires ValidClock(yearNow)
  {
    if answer == "" then ToDecimal(yearNow.year) else answer
  }

  /** The month asked for: the answer, or the clock's `%m` when the answer is empty. */
  function PeriodMonth(answer: string, monthNow: DateTime): string
    requires ValidClock(monthNow)
  {
    if answer == "" then Pad2(monthNow.month) else answer
  }

  /**
   * The loop of the summary: one pass over the stored records that collects
   * the period's records and accumulates the total and the category totals.
   */
  method TallyPeriod(data: seq<Expense>, year: string, month: string)
    returns (filtered: seq<Expense>, total: int, categories: seq<string>, categoryTotals: map<string, int>)
    ensures filtered == Filtered(data, year, month)
    ensures total == Total(filtered)
    ensures categories == CategoryKeys(filtered) && categoryTotals == CategorySums(filtered)
  {
    filtered, total, categories, categoryTotals := [], 0, [], map[];
    var i := 0;
    while i < |data|
      invariant 0 <= i <= |data|
      invariant filtered == Filtered(data[..i], year, month)
      invariant total == Total(filtered)
      invariant categories == CategoryKeys(filtered)
      invariant categoryTotals == CategorySums(filtered)
    {
      var e := data[i];
      FilteredStep(data, i, year, month);
      if InPeriod(e, year, month) {
        AccumulateStep(filtered, e);
        if e.category !in categoryTotals {
          categories := categories + [e.category];
        }
        categoryTotals := AddTo(categoryTotals, e.category, e.amount);
        filtered := filtered + [e];
        total := total + e.amount;
      }
      i := i + 1;
    }
    assert data[..i] == data;
  }

  /**
   * The summary of one month: nothing when the store is empty, an empty
   * period when no record falls in it, and otherwise the report. The year
   * and the month prompts each read the clock, so an empty answer to each
   * is filled from its own reading.
   */
  method MonthlySummary(data: seq<Expense>, yearAnswer: string, yearNow: DateTime, monthAnswer: string, monthNow: DateTime)
    returns (r: Summary)
    requires AllWellFormed(data) && ValidClock(yearNow) && ValidClock(monthNow)
    ensures data == [] ==> r == NoExpenses
    ensures data != [] ==>
      var year, month := PeriodYear(yearAnswer, yearNow), PeriodMonth(monthAnswer, monthNow);
      var f := Filtered(data, year, month);
      r == if f == [] then EmptyPeriod(year, month)
           else Report(year, month, f, Total(f), CategoryKeys(f), CategorySums(f), TopCategory(f))
  {
    if data == [] {
      return NoExpenses;
    }
    var year, month := PeriodYear(yearAnswer, yearNow), PeriodMonth(monthAnswer, monthNow);
    var filtered, total, categories, categoryTotals := TallyPeriod(data, year, month);
    if filtered == [] {
      return EmptyPeriod(year, month);
    }
    r := Report(year, month, filtered, total, categories, categoryTotals, TopCategory(filtered));
  }

  /**
   * An expense added now is counted by a summary asked now with both
   * answers left empty: it joins the end of that period's records.
   */
  lemma AddedExpenseInCurrentPeriod(s: seq<Expense>, nowMillis: int, now: DateTime, amount: int, category: string, note: string)
    requires ValidClock(now)
    ensures var e := NewExpense(nowMillis, now, amount, category, note);
      var year, month := PeriodYear("", now), PeriodMonth("", now);
      && Filtered(s + [e], year, month) == Filtered(s, year, month) + [e]
      && Total(Filtered(s + [e], year, month)) == Total(Filtered(s, year, month)) + amount
  {
    var e := NewExpense(nowMillis, now, amount, category, note);
    var year, month := PeriodYear("", now), PeriodMonth("", now);
    FormatDateRoundTrip(now);
    assert InPeriod(e, year, month);
    FilteredAppend(s, [e], year, month);
    assert [e][..0] == [];
    AccumulateStep(Filtered(s, year, month), e);
  }
}
