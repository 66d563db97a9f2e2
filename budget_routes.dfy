/** The budget routes of the server: `GET /api/budgets` (a year's yearly budgets, or
    one month's), `POST /api/budgets` (set the amount of a category's budget for a
    period, adding the budget when there is none) and `POST /api/budgets/copy`
    (give every category budgeted in one period the same budget in another, unless
    it has one there already). */
module BudgetRoutes {
  import opened Wrappers
  import opened SeqUtil
  import opened Text
  import opened ServerDb

  const YEAR_REQUIRED := "Year is required"
  const BUDGET_FIELDS_REQUIRED := "categoryId, year, and amount are required"
  const COPY_YEARS_REQUIRED := "fromYear and toYear are required"

  /** The month a query names: `Yearly` for a yearly budget (month null), or the
      parsed month number, `None` where `parseInt` gives NaN, which equals no
      stored month. */
  datatype MonthQuery = Yearly | Monthly(month: Option<int>)

  /** The `month` search parameter: absent, "null" and "" all ask for the yearly
      budgets. */
  function MonthQueryOf(month: Option<string>): MonthQuery {
    if month.None? || month.value == "null" || month.value == "" then Yearly
    else Monthly(ParseIntPrefix(month.value))
  }

  /** A row the GET returns: the user's, of the year, and of the month asked for. */
  predicate Selects(b: BudgetRow, userId: int, year: Option<int>, q: MonthQuery) {
    b.userId == userId && year == Some(b.year)
    && match q
       case Yearly => b.month.None?
       case Monthly(m) => m.Some? && b.month == m
  }

  function SelectsP(userId: int, year: Option<int>, q: MonthQuery): BudgetRow -> bool {
    (b: BudgetRow) => Selects(b, userId, year, q)
  }

  /** `GET /api/budgets?year=…&month=…`. Only the user's rows are returned, and a
      query without a month returns yearly budgets only. */
  function GetBudgets(budgets: seq<BudgetRow>, userId: int, year: Option<string>, month: Option<string>)
    : (r: Result<seq<BudgetRow>, HttpError>)
    ensures r.Failure? <==> year.None? || year == Some("")
    ensures r.Failure? ==> r.error == HttpError(400, YEAR_REQUIRED)
    ensures r.Success? ==> forall b :: b in r.value ==> b in budgets && b.userId == userId
    ensures r.Success? && (month.None? || month == Some("null") || month == Some("")) ==>
      forall b :: b in r.value <==>
        b in budgets && b.userId == userId && Some(b.year) == ParseIntPrefix(year.value) && b.month.None?
  {
    if year.None? || year.value == "" then Failure(HttpError(400, YEAR_REQUIRED))
    else
      var selects := SelectsP(userId, ParseIntPrefix(year.value), MonthQueryOf(month));
      FilterMembers(budgets, selects);
      Success(Filter(budgets, selects))
  }

  /** With a year and a month written as numbers the GET returns exactly the user's
      budgets of that month; with the year alone, exactly the user's yearly budgets
      of that year. */
  lemma GetBudgetsByNumber(budgets: seq<BudgetRow>, userId: int, y: nat, m: Option<int>)
    requires m.Some? ==> m.value >= 0
    ensures var month := if m.Some? then Some(NatToString(m.value)) else None;
      var r := GetBudgets(budgets, userId, Some(NatToString(y)), month);
      r.Success? && forall b :: b in r.value <==> b in budgets && b.userId == userId && b.year == y && b.month == m
  {
    var yt := NatToString(y);
    ParseIntOfDigits(yt);
    var month := if m.Some? then Some(NatToString(m.value)) else None;
    var q := MonthQueryOf(month);
    if m.Some? {
      var text := NatToString(m.value);
      ParseIntOfDigits(text);
      assert text != "null" && text != "" by {
        assert IsDigit(text[0]);
      }
      assert q == Monthly(m);
    } else {
      assert q == Yearly;
    }
    var r := GetBudgets(budgets, userId, Some(yt), month);
    assert yt != "";
    assert r == Success(Filter(budgets, SelectsP(userId, Some(y), q)));
    FilterMembers(budgets, SelectsP(userId, Some(y), q));
  }

  /** The budget the POST and the copy look for: the user's, for this category and
      period (month null for the yearly budget). */
  predicate IsTarget(b: BudgetRow, userId: int, categoryId: int, year: int, month: Option<int>) {
    b.userId == userId && b.categoryId == categoryId && b.year == year && b.month == month
  }

  function TargetP(userId: int, categoryId: int, year: int, month: Option<int>): BudgetRow -> bool {
    (b: BudgetRow) => IsTarget(b, userId, categoryId, year, month)
  }

  /** The user holds at most one budget per category and period. */
  ghost predicate OneBudgetPerKey(budgets: seq<BudgetRow>) {
    forall i, j :: 0 <= i < j < |budgets| ==>
      !IsTarget(budgets[j], budgets[i].userId, budgets[i].categoryId, budgets[i].year, budgets[i].month)
  }

  /** The upsert for valid fields: the table, the next id and the id answered. The
      first existing budget (`limit(1)`) takes the new amount; without one, a
      budget is added under the next id. */
  function Upsert(budgets: seq<BudgetRow>, next: int, userId: int, categoryId: int, year: int, month: Option<int>, amount: real)
    : (seq<BudgetRow>, int, int)
  {
    var k := FindIndex(budgets, TargetP(userId, categoryId, year, month));
    if k >= 0 then (budgets[k := budgets[k].(amount := amount)], next, budgets[k].id)
    else (budgets + [BudgetRow(next, userId, categoryId, year, month, amount)], next + 1, next)
  }

  /** After the upsert the first budget the lookup finds is the one answered, with
      the new amount; every other row is as before, and at most one budget per key
      is kept. */
  lemma UpsertThenFind(budgets: seq<BudgetRow>, next: int, userId: int, categoryId: int, year: int, month: Option<int>, amount: real)
    requires OneBudgetPerKey(budgets)
    ensures var (t, n, id) := Upsert(budgets, next, userId, categoryId, year, month, amount);
      var k := FindIndex(t, TargetP(userId, categoryId, year, month));
      0 <= k < |t| && t[k] == BudgetRow(id, userId, categoryId, year, month, amount)
      && (forall i :: 0 <= i < |budgets| && i != k ==> t[i] == budgets[i])
      && |budgets| <= |t| <= |budgets| + 1
      && OneBudgetPerKey(t)
  {
    var (t, n, id) := Upsert(budgets, next, userId, categoryId, year, month, amount);
    var p := TargetP(userId, categoryId, year, month);
    var k0 := FindIndex(budgets, p);
    FindIndexIs(budgets, p);
    if k0 >= 0 {
      forall i, j | 0 <= i < j < |t| ensures !IsTarget(t[j], t[i].userId, t[i].categoryId, t[i].year, t[i].month) {
        if i == k0 {
          assert IsTarget(budgets[j], userId, categoryId, year, month) ==> false;
        } else if j == k0 {
          assert IsTarget(budgets[i], userId, categoryId, year, month) ==> false;
        }
      }
      assert FindIndex(t, p) == k0 by {
        assert p(t[k0]);
        assert forall i :: 0 <= i < k0 ==> t[i] == budgets[i];
        FindIndexAt(t, p, k0);
      }
    } else {
      forall i, j | 0 <= i < j < |t| ensures !IsTarget(t[j], t[i].userId, t[i].categoryId, t[i].year, t[i].month) {
        if j == |budgets| {
          assert !p(budgets[i]);
        }
      }
      assert FindIndex(t, p) == |budgets| by {
        assert p(t[|budgets|]);
        assert forall i :: 0 <= i < |budgets| ==> t[i] == budgets[i];
        FindIndexAt(t, p, |budgets|);
      }
    }
  }

  /** Sending the same budget twice leaves the table as the first call left it and
      answers the same id. */
  lemma UpsertIdempotent(budgets: seq<BudgetRow>, next: int, userId: int, categoryId: int, year: int, month: Option<int>, amount: real)
    requires OneBudgetPerKey(budgets)
    ensures var (t, n, id) := Upsert(budgets, next, userId, categoryId, year, month, amount);
      Upsert(t, n, userId, categoryId, year, month, amount) == (t, n, id)
  {
    var (t, n, id) := Upsert(budgets, next, userId, categoryId, year, month, amount);
    UpsertThenFind(budgets, next, userId, categoryId, year, month, amount);
    var k := FindIndex(t, TargetP(userId, categoryId, year, month));
    assert t[k := t[k].(amount := amount)] == t;
  }

  /** `POST /api/budgets`. `categoryId` and `year` are `None` when absent or null; a
      zero is falsy like them. `month` is `None` when absent or null, `amount` when
      absent. */
  method PostBudget(store: Store, userId: int, categoryId: Option<int>, year: Option<int>, month: Option<int>, amount: Option<real>)
    returns (r: Result<int, HttpError>)
    requires store.Valid()
    modifies store
    ensures store.Valid()
    ensures categoryId.None? || categoryId == Some(0) || year.None? || year == Some(0) || amount.None? ==>
      r == Failure(HttpError(400, BUDGET_FIELDS_REQUIRED))
      && store.budgets == old(store.budgets) && store.nextBudgetId == old(store.nextBudgetId)
    ensures categoryId.Some? && categoryId != Some(0) && year.Some? && year != Some(0) && amount.Some? ==>
      var (t, n, id) := Upsert(old(store.budgets), old(store.nextBudgetId), userId, categoryId.value, year.value, month, amount.value);
      store.budgets == t && store.nextBudgetId == n && r == Success(id)
    ensures store.transactions == old(store.transactions) && store.categories == old(store.categories)
    ensures store.settings == old(store.settings) && store.accounts == old(store.accounts)
    ensures store.items == old(store.items)
    ensures store.nextTransactionId == old(store.nextTransactionId) && store.nextCategoryId == old(store.nextCategoryId)
    ensures store.nextSettingId == old(store.nextSettingId) && store.nextAccountId == old(store.nextAccountId)
    ensures store.nextItemId == old(store.nextItemId)
  {
    if categoryId.None? || categoryId.value == 0 || year.None? || year.value == 0 || amount.None? {
      return Failure(HttpError(400, BUDGET_FIELDS_REQUIRED));
    }
    var k := FindIndex(store.budgets, TargetP(userId, categoryId.value, year.value, month));
    if k >= 0 {
      var id := store.budgets[k].id;
      var updated := store.budgets[k := store.budgets[k].(amount := amount.value)];
      KeyedSameKeys(store.budgets, updated, BudgetRowKey, store.nextBudgetId);
      store.budgets := updated;
      r := Success(id);
    } else {
      var id := store.nextBudgetId;
      var b := BudgetRow(id, userId, categoryId.value, year.value, month, amount.value);
      KeyedSnoc(store.budgets, b, BudgetRowKey, id);
      store.budgets, store.nextBudgetId := store.budgets + [b], id + 1;
      r := Success(id);
    }
  }

  /** The source budgets of a copy: the user's, of the year and month given (month
      null selects the yearly budgets only). */
  function SourceP(userId: int, fromYear: int, fromMonth: Option<int>): BudgetRow -> bool {
    (b: BudgetRow) => b.userId == userId && b.year == fromYear && b.month == fromMonth
  }

  /** One source budget: it adds a target under the next id, and counts it, only
      when the table as it stands has no target for its category. */
  function CopyStep(state: (seq<BudgetRow>, int, nat), s: BudgetRow, userId: int, toYear: int, toMonth: Option<int>)
    : (seq<BudgetRow>, int, nat)
  {
    if FindIndex(state.0, TargetP(userId, s.categoryId, toYear, toMonth)) >= 0 then state
    else (state.0 + [BudgetRow(state.1, userId, s.categoryId, toYear, toMonth, s.amount)], state.1 + 1, state.2 + 1)
  }

  /** The table, next id and `copied` count after copying the sources in order. */
  function CopyRows(budgets: seq<BudgetRow>, next: int, source: seq<BudgetRow>, userId: int, toYear: int, toMonth: Option<int>)
    : (seq<BudgetRow>, int, nat)
  {
    if source == [] then (budgets, next, 0)
    else CopyStep(CopyRows(budgets, next, source[..|source| - 1], userId, toYear, toMonth), source[|source| - 1], userId, toYear, toMonth)
  }

  /** The copy only appends, and `copied` is the number of rows it added: each takes
      the next id, belongs to the user, lies in the target period and carries the
      category and amount of a source budget. */
  lemma {:induction false} CopyRowsAppends(budgets: seq<BudgetRow>, next: int, source: seq<BudgetRow>, userId: int, toYear: int, toMonth: Option<int>)
    ensures var (t, k, copied) := CopyRows(budgets, next, source, userId, toYear, toMonth);
      |t| == |budgets| + copied && t[..|budgets|] == budgets && k == next + copied
      && forall i :: |budgets| <= i < |t| ==>
        t[i].id == next + (i - |budgets|) && IsTarget(t[i], userId, t[i].categoryId, toYear, toMonth)
        && exists j :: 0 <= j < |source| && source[j].categoryId == t[i].categoryId && source[j].amount == t[i].amount
  {
    if source != [] {
      var n := |source| - 1;
      CopyRowsAppends(budgets, next, source[..n], userId, toYear, toMonth);
      var (t, k, c) := CopyRows(budgets, next, source[..n], userId, toYear, toMonth);
      var (r, m, c') := CopyStep((t, k, c), source[n], userId, toYear, toMonth);
      assert r[..|t|] == t;
      forall i | |budgets| <= i < |r|
        ensures exists j :: 0 <= j < |source| && source[j].categoryId == r[i].categoryId && source[j].amount == r[i].amount
      {
        if i < |t| {
          var j :| 0 <= j < n && source[..n][j].categoryId == t[i].categoryId && source[..n][j].amount == t[i].amount;
          assert source[j] == source[..n][j];
        } else {
          assert source[n].categoryId == r[i].categoryId;
        }
      }
    }
  }

  /** Once every source category has a target, the copy adds nothing and counts 0. */
  lemma {:induction false} CopyRowsCovered(budgets: seq<BudgetRow>, next: int, source: seq<BudgetRow>, userId: int, toYear: int, toMonth: Option<int>)
    requires forall j :: 0 <= j < |source| ==> FindIndex(budgets, TargetP(userId, source[j].categoryId, toYear, toMonth)) >= 0
    ensures CopyRows(budgets, next, source, userId, toYear, toMonth) == (budgets, next, 0)
  {
    if source != [] {
      var n := |source| - 1;
      assert forall j :: 0 <= j < n ==> source[..n][j] == source[j];
      CopyRowsCovered(budgets, next, source[..n], userId, toYear, toMonth);
    }
  }

  /** After the copy every source budget's category has a target. */
  lemma {:induction false} CopyRowsCovers(budgets: seq<BudgetRow>, next: int, source: seq<BudgetRow>, userId: int, toYear: int, toMonth: Option<int>)
    ensures forall j :: 0 <= j < |source| ==>
      FindIndex(CopyRows(budgets, next, source, userId, toYear, toMonth).0, TargetP(userId, source[j].categoryId, toYear, toMonth)) >= 0
  {
    if source != [] {
      var n := |source| - 1;
      CopyRowsCovers(budgets, next, source[..n], userId, toYear, toMonth);
      var (t, k, c) := CopyRows(budgets, next, source[..n], userId, toYear, toMonth);
      var r := CopyStep((t, k, c), source[n], userId, toYear, toMonth).0;
      forall j | 0 <= j < |source|
        ensures FindIndex(r, TargetP(userId, source[j].categoryId, toYear, toMonth)) >= 0
      {
        var p := TargetP(userId, source[j].categoryId, toYear, toMonth);
        var g := FindIndex(t, p);
        if j < n {
          assert source[..n][j] == source[j];
        }
        FindIndexIs(t, p);
        FindIndexIs(r, p);
        if g >= 0 {
          assert r[g] == t[g];
          assert p(r[g]);
        } else {
          assert j == n;
          assert p(r[|r| - 1]);
        }
      }
    }
  }

  /** The same copy request twice: the second call reads its sources again from the
      table the first one left, and copies nothing. */
  lemma CopyTwice(budgets: seq<BudgetRow>, next: int, userId: int, fromYear: int, fromMonth: Option<int>, toYear: int, toMonth: Option<int>)
    ensures var (t, k, copied) := CopyRows(budgets, next, Filter(budgets, SourceP(userId, fromYear, fromMonth)), userId, toYear, toMonth);
      CopyRows(t, k, Filter(t, SourceP(userId, fromYear, fromMonth)), userId, toYear, toMonth) == (t, k, 0)
  {
    var source := Filter(budgets, SourceP(userId, fromYear, fromMonth));
    var (t, k, copied) := CopyRows(budgets, next, source, userId, toYear, toMonth);
    CopyRowsAppends(budgets, next, source, userId, toYear, toMonth);
    CopyRowsCovers(budgets, next, source, userId, toYear, toMonth);
    var again := Filter(t, SourceP(userId, fromYear, fromMonth));
    FilterMembers(t, SourceP(userId, fromYear, fromMonth));
    FilterMembers(budgets, SourceP(userId, fromYear, fromMonth));
    forall j | 0 <= j < |again|
      ensures FindIndex(t, TargetP(userId, again[j].categoryId, toYear, toMonth)) >= 0
    {
      var s := again[j];
      assert s in again;
      var i :| 0 <= i < |t| && t[i] == s;
      if i < |budgets| {
        assert t[i] == budgets[i];
        assert s in source;
        var m :| 0 <= m < |source| && source[m] == s;
      } else {
        assert TargetP(userId, s.categoryId, toYear, toMonth)(t[i]);
      }
    }
    CopyRowsCovered(t, k, again, userId, toYear, toMonth);
  }

  /** The copy hands out fresh ids in order, so the table stays keyed. */
  lemma CopyRowsKeyed(budgets: seq<BudgetRow>, next: int, source: seq<BudgetRow>, userId: int, toYear: int, toMonth: Option<int>)
    requires Keyed(budgets, BudgetRowKey, next) && 1 <= next
    ensures var (t, k, copied) := CopyRows(budgets, next, source, userId, toYear, toMonth);
      Keyed(t, BudgetRowKey, k) && 1 <= k
  {
    var (t, k, copied) := CopyRows(budgets, next, source, userId, toYear, toMonth);
    CopyRowsAppends(budgets, next, source, userId, toYear, toMonth);
    var added := t[|budgets|..];
    assert t == budgets + added;
    forall i | 0 <= i < |added| ensures BudgetRowKey(added[i]) == next + i {
      assert added[i] == t[|budgets| + i];
    }
    KeyedAppend(budgets, added, BudgetRowKey, next);
  }

  /** The copy loop: each source budget is checked against the table as it
      stands, the loop's own additions included. */
  method RunCopy(budgets: seq<BudgetRow>, next: int, sourceBudgets: seq<BudgetRow>, userId: int, toYear: int, toMonth: Option<int>)
    returns (table: seq<BudgetRow>, nextId: int, copiedCount: nat)
    ensures (table, nextId, copiedCount) == CopyRows(budgets, next, sourceBudgets, userId, toYear, toMonth)
  {
    table, nextId, copiedCount := budgets, next, 0;
    for i := 0 to |sourceBudgets|
      invariant (table, nextId, copiedCount) == CopyRows(budgets, next, sourceBudgets[..i], userId, toYear, toMonth)
    {
      assert sourceBudgets[..i + 1][..i] == sourceBudgets[..i];
      var budget := sourceBudgets[i];
      var existing := FindIndex(table, TargetP(userId, budget.categoryId, toYear, toMonth));
      if existing < 0 {
        table := table + [BudgetRow(nextId, userId, budget.categoryId, toYear, toMonth, budget.amount)];
        nextId, copiedCount := nextId + 1, copiedCount + 1;
      }
    }
    assert sourceBudgets[..|sourceBudgets|] == sourceBudgets;
  }

  /** `POST /api/budgets/copy`. The years are `None` when absent; the months are
      `None` when absent or null, and a target month absent means a yearly target.
      The answer is the `copied` count. */
  method PostCopy(store: Store, userId: int, fromYear: Option<int>, fromMonth: Option<int>, toYear: Option<int>, toMonth: Option<int>)
    returns (r: Result<nat, HttpError>)
    requires store.Valid()
    modifies store
    ensures store.Valid()
    ensures fromYear.None? || toYear.None? ==>
      r == Failure(HttpError(400, COPY_YEARS_REQUIRED))
      && store.budgets == old(store.budgets) && store.nextBudgetId == old(store.nextBudgetId)
    ensures fromYear.Some? && toYear.Some? ==>
      var source := Filter(old(store.budgets), SourceP(userId, fromYear.value, fromMonth));
      var (t, k, copied) := CopyRows(old(store.budgets), old(store.nextBudgetId), source, userId, toYear.value, toMonth);
      store.budgets == t && store.nextBudgetId == k && r == Success(copied)
    ensures store.transactions == old(store.transactions) && store.categories == old(store.categories)
    ensures store.settings == old(store.settings) && store.accounts == old(store.accounts)
    ensures store.items == old(store.items)
    ensures store.nextTransactionId == old(store.nextTransactionId) && store.nextCategoryId == old(store.nextCategoryId)
    ensures store.nextSettingId == old(store.nextSettingId) && store.nextAccountId == old(store.nextAccountId)
    ensures store.nextItemId == old(store.nextItemId)
  {
    if fromYear.None? || toYear.None? {
      return Failure(HttpError(400, COPY_YEARS_REQUIRED));
    }
    var sourceBudgets := Filter(store.budgets, SourceP(userId, fromYear.value, fromMonth));
    if |sourceBudgets| == 0 {
      return Success(0);
    }
    var table, next, copiedCount := RunCopy(store.budgets, store.nextBudgetId, sourceBudgets, userId, toYear.value, toMonth);
    CopyRowsKeyed(store.budgets, store.nextBudgetId, sourceBudgets, userId, toYear.value, toMonth);
    store.budgets, store.nextBudgetId := table, next;
    r := Success(copiedCount);
  }
}
