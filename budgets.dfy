/** Budgets in the browser store. A budget belongs to a category and a period: a
    year and a month, or a year alone (month null) for a yearly budget. */
module Budgets {
  import opened Wrappers
  import opened SeqUtil
  import opened LocalDb

  /** The budgets `getBudgets(year, month)` selects: with a month, that exact month;
      without one, every budget of the year, the monthly ones included. */
  predicate InPeriod(b: Budget, year: int, month: Option<int>) {
    b.year == year && (month.Some? ==> b.month == month)
  }

  function InPeriodP(year: int, month: Option<int>): Budget -> bool {
    (b: Budget) => InPeriod(b, year, month)
  }

  /** `getBudgets(year, month)`, in primary-key order. */
  function GetBudgets(budgets: seq<Budget>, year: int, month: Option<int>): (r: seq<Budget>)
    ensures forall b :: b in r <==> b in budgets && b.year == year && (month.Some? ==> b.month == month)
  {
    FilterMembers(budgets, InPeriodP(year, month));
    Filter(budgets, InPeriodP(year, month))
  }

  /** The budget `getBudgetForCategory` looks for: this category, year and month
      (month null for the yearly budget). */
  predicate IsTarget(b: Budget, categoryId: int, year: int, month: Option<int>) {
    b.categoryId == categoryId && b.year == year && b.month == month
  }

  /** `getBudgetForCategory(categoryId, year, month)`: the first such budget. */
  function GetBudgetForCategory(budgets: seq<Budget>, categoryId: int, year: int, month: Option<int>): (r: Option<Budget>)
    ensures r.None? <==> forall b :: b in budgets ==> !IsTarget(b, categoryId, year, month)
    ensures r.Some? ==> r.value in budgets && IsTarget(r.value, categoryId, year, month)
  {
    if budgets == [] then None
    else if IsTarget(budgets[0], categoryId, year, month) then Some(budgets[0])
    else
      assert forall b :: b in budgets ==> b == budgets[0] || b in budgets[1..];
      GetBudgetForCategory(budgets[1..], categoryId, year, month)
  }

  /** At most one budget per (category, year, month). */
  ghost predicate OneBudgetPerKey(budgets: seq<Budget>) {
    forall i, j :: 0 <= i < j < |budgets| ==>
      !IsTarget(budgets[j], budgets[i].categoryId, budgets[i].year, budgets[i].month)
  }

  /** The row with that id takes the new amount. */
  function SetAmount(budgets: seq<Budget>, id: int, amount: real): (r: seq<Budget>)
    ensures |r| == |budgets|
    ensures forall i :: 0 <= i < |budgets| ==> r[i] == if budgets[i].id == id then budgets[i].(amount := amount) else budgets[i]
  {
    seq(|budgets|, i requires 0 <= i < |budgets| => if budgets[i].id == id then budgets[i].(amount := amount) else budgets[i])
  }

  /** `setBudget`: the table afterwards and the id returned. */
  function SetBudgetTable(budgets: seq<Budget>, next: int, categoryId: int, year: int, month: Option<int>, amount: real)
    : (seq<Budget>, int)
  {
    match GetBudgetForCategory(budgets, categoryId, year, month)
    case Some(b) => (SetAmount(budgets, b.id, amount), b.id)
    case None => (budgets + [Budget(next, categoryId, year, month, amount)], next)
  }

  /** After `setBudget` the lookup finds the budget with the new amount under the
      returned id, and at most one budget per key is kept. */
  lemma SetThenGet(budgets: seq<Budget>, next: int, categoryId: int, year: int, month: Option<int>, amount: real)
    requires Keyed(budgets, BudgetKey, next) && OneBudgetPerKey(budgets)
    ensures var (t, id) := SetBudgetTable(budgets, next, categoryId, year, month, amount);
      GetBudgetForCategory(t, categoryId, year, month) == Some(Budget(id, categoryId, year, month, amount))
      && OneBudgetPerKey(t)
  {
    var (t, id) := SetBudgetTable(budgets, next, categoryId, year, month, amount);
    KeyedMeans(budgets, BudgetKey, next);
    match GetBudgetForCategory(budgets, categoryId, year, month)
    case Some(b) =>
      var k :| 0 <= k < |budgets| && budgets[k] == b;
      assert forall i :: 0 <= i < |budgets| && i != k ==> budgets[i].id != b.id by {
        forall i | 0 <= i < |budgets| && i != k ensures budgets[i].id != b.id {
          assert BudgetKey(budgets[i]) != BudgetKey(budgets[k]);
        }
      }
      assert forall i :: 0 <= i < |budgets| && i != k ==> !IsTarget(budgets[i], categoryId, year, month);
      GetTargetAt(t, k, categoryId, year, month);
    case None =>
      forall i, j | 0 <= i < j < |t| ensures !IsTarget(t[j], t[i].categoryId, t[i].year, t[i].month) {
        if j == |budgets| {
          assert t[i] in budgets;
        }
      }
      GetTargetAt(t, |budgets|, categoryId, year, month);
  }

  /** The lookup finds the only target in the table. */
  lemma GetTargetAt(t: seq<Budget>, k: int, categoryId: int, year: int, month: Option<int>)
    requires 0 <= k < |t| && IsTarget(t[k], categoryId, year, month)
    requires forall i :: 0 <= i < |t| && i != k ==> !IsTarget(t[i], categoryId, year, month)
    ensures GetBudgetForCategory(t, categoryId, year, month) == Some(t[k])
  {
    var r := GetBudgetForCategory(t, categoryId, year, month);
    var m :| 0 <= m < |t| && t[m] == r.value;
  }

  /** `setBudget`: update the amount of the existing budget, else add one. */
  method SetBudget(db: Database, categoryId: int, year: int, month: Option<int>, amount: real) returns (id: int)
    requires db.Valid()
    modifies db
    ensures db.Valid()
    ensures (db.budgets, id) == SetBudgetTable(old(db.budgets), old(db.nextBudgetId), categoryId, year, month, amount)
    ensures db.nextBudgetId == if id == old(db.nextBudgetId) then id + 1 else old(db.nextBudgetId)
    ensures db.categories == old(db.categories) && db.transactions == old(db.transactions)
    ensures db.imports == old(db.imports) && db.settings == old(db.settings)
    ensures db.nextCategoryId == old(db.nextCategoryId) && db.nextTransactionId == old(db.nextTransactionId)
    ensures db.nextImportId == old(db.nextImportId) && db.nextSettingId == old(db.nextSettingId)
  {
    var existing := GetBudgetForCategory(db.budgets, categoryId, year, month);
    if existing.Some? {
      assert 1 <= existing.value.id < db.nextBudgetId by {
        var k :| 0 <= k < |db.budgets| && db.budgets[k] == existing.value;
        KeyedMeans(db.budgets, BudgetKey, db.nextBudgetId);
        assert 1 <= BudgetKey(db.budgets[k]) < db.nextBudgetId;
      }
      id := existing.value.id;
      var updated := SetAmount(db.budgets, id, amount);
      KeyedSameKeys(db.budgets, updated, BudgetKey, db.nextBudgetId);
      db.budgets := updated;
      return;
    }
    id := db.nextBudgetId;
    var b := Budget(id, categoryId, year, month, amount);
    KeyedSnoc(db.budgets, b, BudgetKey, id);
    db.budgets, db.nextBudgetId := db.budgets + [b], id + 1;
  }

  function NotBudget(id: int): Budget -> bool {
    (b: Budget) => b.id != id
  }

  /** `deleteBudget(id)`: only that budget goes. */
  method DeleteBudget(db: Database, id: int)
    requires db.Valid()
    modifies db
    ensures db.Valid()
    ensures db.budgets == Filter(old(db.budgets), NotBudget(id))
    ensures forall b :: b in db.budgets <==> b in old(db.budgets) && b.id != id
    ensures db.categories == old(db.categories) && db.transactions == old(db.transactions)
    ensures db.imports == old(db.imports) && db.settings == old(db.settings)
    ensures db.nextCategoryId == old(db.nextCategoryId) && db.nextTransactionId == old(db.nextTransactionId)
    ensures db.nextBudgetId == old(db.nextBudgetId)
    ensures db.nextImportId == old(db.nextImportId) && db.nextSettingId == old(db.nextSettingId)
  {
    FilterMembers(db.budgets, NotBudget(id));
    KeyedFilter(db.budgets, NotBudget(id), BudgetKey, db.nextBudgetId);
    db.budgets := Filter(db.budgets, NotBudget(id));
  }

  /** One source budget: it adds a target under the next id only when the table,
      as it stands, has no target for its category. */
  function CopyStep(state: (seq<Budget>, int), s: Budget, toYear: int, toMonth: Option<int>): (seq<Budget>, int) {
    if GetBudgetForCategory(state.0, s.categoryId, toYear, toMonth).Some? then state
    else (state.0 + [Budget(state.1, s.categoryId, toYear, toMonth, s.amount)], state.1 + 1)
  }

  /** The table and next id after copying the source budgets in order. */
  function CopyBudgets(budgets: seq<Budget>, next: int, source: seq<Budget>, toYear: int, toMonth: Option<int>)
    : (seq<Budget>, int)
  {
    if source == [] then (budgets, next)
    else CopyStep(CopyBudgets(budgets, next, source[..|source| - 1], toYear, toMonth), source[|source| - 1], toYear, toMonth)
  }

  /** The copy only appends: the old table is a prefix of the new one, each added
      budget takes the next id, lies in the target period and carries the category
      and amount of a source budget. */
  lemma {:induction false} CopyAppends(budgets: seq<Budget>, next: int, source: seq<Budget>, toYear: int, toMonth: Option<int>)
    ensures var (t, k) := CopyBudgets(budgets, next, source, toYear, toMonth);
      |budgets| <= |t| && t[..|budgets|] == budgets && k == next + (|t| - |budgets|)
      && forall i :: |budgets| <= i < |t| ==>
        t[i].id == next + (i - |budgets|) && t[i].year == toYear && t[i].month == toMonth
        && exists j :: 0 <= j < |source| && source[j].categoryId == t[i].categoryId && source[j].amount == t[i].amount
  {
    if source != [] {
      var n := |source| - 1;
      CopyAppends(budgets, next, source[..n], toYear, toMonth);
      var (t, k) := CopyBudgets(budgets, next, source[..n], toYear, toMonth);
      var (r, m) := CopyStep((t, k), source[n], toYear, toMonth);
      assert r[..|t|] == t;
      forall i | |budgets| <= i < |r|
        ensures exists j :: 0 <= j < |source| && source[j].categoryId == r[i].categoryId && source[j].amount == r[i].amount
      {
        if i < |t| {
          var j :| 0 <= j < n && source[..n][j].categoryId == t[i].categoryId && source[..n][j].amount == t[i].amount;
          assert source[j] == source[..n][j];
        } else {
          assert source[n].categoryId == r[i].categoryId;
        }
      }
    }
  }

  /** Once every source category has a target, copying adds nothing. */
  lemma {:induction false} CopyCovered(budgets: seq<Budget>, next: int, source: seq<Budget>, toYear: int, toMonth: Option<int>)
    requires forall j :: 0 <= j < |source| ==> GetBudgetForCategory(budgets, source[j].categoryId, toYear, toMonth).Some?
    ensures CopyBudgets(budgets, next, source, toYear, toMonth) == (budgets, next)
  {
    if source != [] {
      var n := |source| - 1;
      assert forall j :: 0 <= j < n ==> source[..n][j] == source[j];
      CopyCovered(budgets, next, source[..n], toYear, toMonth);
    }
  }

  /** After the copy every source budget's category has a target. */
  lemma {:induction false} CopyCovers(budgets: seq<Budget>, next: int, source: seq<Budget>, toYear: int, toMonth: Option<int>)
    ensures forall j :: 0 <= j < |source| ==>
      GetBudgetForCategory(CopyBudgets(budgets, next, source, toYear, toMonth).0, source[j].categoryId, toYear, toMonth).Some?
  {
    if source != [] {
      var n := |source| - 1;
      CopyCovers(budgets, next, source[..n], toYear, toMonth);
      var (t, k) := CopyBudgets(budgets, next, source[..n], toYear, toMonth);
      var r := CopyStep((t, k), source[n], toYear, toMonth).0;
      forall j | 0 <= j < |source|
        ensures GetBudgetForCategory(r, source[j].categoryId, toYear, toMonth).Some?
      {
        var g := GetBudgetForCategory(t, source[j].categoryId, toYear, toMonth);
        if j < n {
          assert source[..n][j] == source[j];
        }
        if g.Some? {
          assert g.value in r by {
            var m :| 0 <= m < |t| && t[m] == g.value;
            assert r[m] == t[m];
          }
        } else {
          assert j == n;
          assert r[|r| - 1] in r;
        }
      }
    }
  }

  /** `copyBudgetToMonth` twice in a row: the second call adds nothing. Its source
      is read again from the table the first call left, and every budget it finds
      there either was a source of the first call or is itself a target. */
  lemma CopyTwice(budgets: seq<Budget>, next: int, fromYear: int, fromMonth: Option<int>, toYear: int, toMonth: Option<int>)
    ensures var (t, k) := CopyBudgets(budgets, next, GetBudgets(budgets, fromYear, fromMonth), toYear, toMonth);
      CopyBudgets(t, k, GetBudgets(t, fromYear, fromMonth), toYear, toMonth) == (t, k)
  {
    var source := GetBudgets(budgets, fromYear, fromMonth);
    var (t, k) := CopyBudgets(budgets, next, source, toYear, toMonth);
    CopyAppends(budgets, next, source, toYear, toMonth);
    CopyCovers(budgets, next, source, toYear, toMonth);
    var again := GetBudgets(t, fromYear, fromMonth);
    forall j | 0 <= j < |again|
      ensures GetBudgetForCategory(t, again[j].categoryId, toYear, toMonth).Some?
    {
      var s := again[j];
      assert s in again;
      var i :| 0 <= i < |t| && t[i] == s;
      if i < |budgets| {
        assert t[i] == budgets[i];
        assert s in source;
        var m :| 0 <= m < |source| && source[m] == s;
      } else {
        assert IsTarget(s, s.categoryId, toYear, toMonth);
      }
    }
    CopyCovered(t, k, again, toYear, toMonth);
  }

  /** The copy loop on the table's contents. */
  method RunCopy(budgets: seq<Budget>, next: int, sourceBudgets: seq<Budget>, toYear: int, toMonth: Option<int>)
    returns (table: seq<Budget>, nextId: int)
    ensures (table, nextId) == CopyBudgets(budgets, next, sourceBudgets, toYear, toMonth)
  {
    table, nextId := budgets, next;
    for i := 0 to |sourceBudgets|
      invariant (table, nextId) == CopyBudgets(budgets, next, sourceBudgets[..i], toYear, toMonth)
    {
      assert sourceBudgets[..i + 1][..i] == sourceBudgets[..i];
      var budget := sourceBudgets[i];
      var existing := GetBudgetForCategory(table, budget.categoryId, toYear, toMonth);
      if existing.None? {
        table, nextId := table + [Budget(nextId, budget.categoryId, toYear, toMonth, budget.amount)], nextId + 1;
      }
    }
    assert sourceBudgets[..|sourceBudgets|] == sourceBudgets;
  }

  /** `copyBudgetToMonth(fromYear, fromMonth, toYear, toMonth)`: the source budgets
      are read first; the loop checks the table as it stands, its own additions
      included. */
  method CopyBudgetToMonth(db: Database, fromYear: int, fromMonth: Option<int>, toYear: int, toMonth: Option<int>)
    requires db.Valid()
    modifies db
    ensures db.Valid()
    ensures (db.budgets, db.nextBudgetId)
            == CopyBudgets(old(db.budgets), old(db.nextBudgetId), GetBudgets(old(db.budgets), fromYear, fromMonth), toYear, toMonth)
    ensures db.categories == old(db.categories) && db.transactions == old(db.transactions)
    ensures db.imports == old(db.imports) && db.settings == old(db.settings)
    ensures db.nextCategoryId == old(db.nextCategoryId) && db.nextTransactionId == old(db.nextTransactionId)
    ensures db.nextImportId == old(db.nextImportId) && db.nextSettingId == old(db.nextSettingId)
  {
    var sourceBudgets := GetBudgets(db.budgets, fromYear, fromMonth);
    var table, next := RunCopy(db.budgets, db.nextBudgetId, sourceBudgets, toYear, toMonth);
    CopyKeyed(db.budgets, db.nextBudgetId, sourceBudgets, toYear, toMonth);
    db.budgets, db.nextBudgetId := table, next;
  }

  /** The copy hands out fresh ids in order, so the table stays keyed. */
  lemma CopyKeyed(budgets: seq<Budget>, next: int, source: seq<Budget>, toYear: int, toMonth: Option<int>)
    requires Keyed(budgets, BudgetKey, next) && 1 <= next
    ensures var (t, k) := CopyBudgets(budgets, next, source, toYear, toMonth);
      Keyed(t, BudgetKey, k) && 1 <= k
  {
    var (t, k) := CopyBudgets(budgets, next, source, toYear, toMonth);
    CopyAppends(budgets, next, source, toYear, toMonth);
    KeyedMeans(budgets, BudgetKey, next);
    KeyedMeans(t, BudgetKey, k);
    forall i, j | 0 <= i < j < |t| ensures BudgetKey(t[i]) < BudgetKey(t[j]) {
      if j < |budgets| {
        assert t[i] == budgets[i] && t[j] == budgets[j];
      } else if i < |budgets| {
        assert t[i] == budgets[i];
      }
    }
    forall i | 0 <= i < |t| ensures 1 <= BudgetKey(t[i]) < k {
      if i < |budgets| {
        assert t[i] == budgets[i];
      }
    }
  }
}
