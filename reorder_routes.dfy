/** The three reorder routes of the server — categories, portfolio accounts within
    a bucket, portfolio items within an account. Each reads the user's rows in its
    scope by `order`, moves the dragged row to the index of the row it was dropped
    on, and writes every row's new index back as its `order` (the plan of module
    `Reorder`). The handlers are alike; they differ in the table and the scope. */
module ReorderRoutes {
  import opened Wrappers
  import opened SeqUtil
  import opened ServerDb
  import Reorder

  const CATEGORY_IDS_REQUIRED := "activeId and overId are required"
  const CATEGORY_NOT_FOUND := "Category not found"
  const ACCOUNT_FIELDS_REQUIRED := "bucket, activeId, and overId are required"
  const ACCOUNT_NOT_FOUND := "Account not found"
  const ITEM_FIELDS_REQUIRED := "accountId, activeId, and overId are required"
  const ITEM_NOT_FOUND := "Item not found"

  /** The rows of the scope, as the plan reads them. */
  function EntriesOf<T(!new)>(rows: seq<T>, scope: T -> bool, entry: T -> Reorder.Entry): (r: seq<Reorder.Entry>)
    ensures |r| == |Filter(rows, scope)|
    ensures forall i :: 0 <= i < |r| ==> r[i] == entry(Filter(rows, scope)[i])
  {
    var s := Filter(rows, scope);
    seq(|s|, i requires 0 <= i < |s| => entry(s[i]))
  }

  /** The renumbering written back: `update … set order = i where id = … and
      userId = …`, for every id of the plan. */
  function ApplyOrders<T>(rows: seq<T>, owned: T -> bool, entry: T -> Reorder.Entry, withOrder: (T, int) -> T, orders: map<int, int>)
    : (r: seq<T>)
    ensures |r| == |rows|
  {
    seq(|rows|, i requires 0 <= i < |rows| =>
      if owned(rows[i]) && entry(rows[i]).id in orders then withOrder(rows[i], orders[entry(rows[i]).id]) else rows[i])
  }

  /** The scope's rows, and only they, get new orders; these are 0 .. n-1, one per
      row, and the dragged row gets the index the target row had. Rows outside
      the scope — other users', other buckets' or accounts' — are untouched. */
  lemma ReorderSpec<T(!new)>(rows: seq<T>, owned: T -> bool, scope: T -> bool, entry: T -> Reorder.Entry,
                             withOrder: (T, int) -> T, activeId: int, overId: int)
    requires forall x :: scope(x) ==> owned(x)
    requires forall i, j :: 0 <= i < j < |rows| ==> entry(rows[i]).id != entry(rows[j]).id
    requires forall x, o :: entry(withOrder(x, o)) == Reorder.Entry(entry(x).id, o)
    requires Reorder.NewOrders(EntriesOf(rows, scope, entry), activeId, overId).Some?
    ensures var entries := EntriesOf(rows, scope, entry);
      var r := ApplyOrders(rows, owned, entry, withOrder, Reorder.NewOrders(entries, activeId, overId).value);
      (forall i :: 0 <= i < |rows| && !scope(rows[i]) ==> r[i] == rows[i])
      && (forall i :: 0 <= i < |rows| && scope(rows[i]) ==>
            r[i] == withOrder(rows[i], entry(r[i]).order) && 0 <= entry(r[i]).order < |entries|)
      && (forall i, j :: 0 <= i < j < |rows| && scope(rows[i]) && scope(rows[j]) ==> entry(r[i]).order != entry(r[j]).order)
      && (forall i :: 0 <= i < |rows| && scope(rows[i]) && entry(rows[i]).id == activeId ==>
            entry(r[i]).order == Reorder.IndexOfId(SortByKey(entries, Reorder.SortKey), overId))
  {
    var entries := EntriesOf(rows, scope, entry);
    EntriesDistinct(rows, scope, entry);
    Reorder.NewOrdersSpec(entries, activeId, overId);
    var m := Reorder.NewOrders(entries, activeId, overId).value;
    assert m.Keys == EntryIds(entries);
    EntriesIds(rows, scope, entry);
    ApplySpec(rows, owned, scope, entry, withOrder, m);
    var r := ApplyOrders(rows, owned, entry, withOrder, m);
    forall i, j | 0 <= i < j < |rows| && scope(rows[i]) && scope(rows[j]) ensures entry(r[i]).order != entry(r[j]).order {
      assert entry(rows[i]).id in m && entry(rows[j]).id in m;
    }
  }

  /** The ids of a list of entries. */
  function EntryIds(entries: seq<Reorder.Entry>): set<int> {
    set e | e in entries :: e.id
  }

  /** Some row of the scope has the id. */
  ghost predicate ScopeHasId<T>(rows: seq<T>, scope: T -> bool, entry: T -> Reorder.Entry, id: int) {
    exists i :: 0 <= i < |rows| && scope(rows[i]) && entry(rows[i]).id == id
  }

  /** The entries carry distinct ids when the table's rows do. */
  lemma EntriesDistinct<T(!new)>(rows: seq<T>, scope: T -> bool, entry: T -> Reorder.Entry)
    requires forall i, j :: 0 <= i < j < |rows| ==> entry(rows[i]).id != entry(rows[j]).id
    ensures Distinct(EntriesOf(rows, scope, entry), Reorder.IdOf)
  {
    var entries := EntriesOf(rows, scope, entry);
    forall a, b | 0 <= a < b < |entries| ensures Reorder.IdOf(entries[a]) != Reorder.IdOf(entries[b]) {
      FilterIndices(rows, scope, a, b);
    }
  }

  /** The ids of the entries are those of the table's rows in scope. */
  lemma EntriesIds<T(!new)>(rows: seq<T>, scope: T -> bool, entry: T -> Reorder.Entry)
    ensures forall id :: id in EntryIds(EntriesOf(rows, scope, entry)) <==> ScopeHasId(rows, scope, entry, id)
  {
    var entries := EntriesOf(rows, scope, entry);
    var s := Filter(rows, scope);
    FilterMembers(rows, scope);
    forall id | id in EntryIds(entries) ensures ScopeHasId(rows, scope, entry, id) {
      var e :| e in entries && e.id == id;
      var k :| 0 <= k < |entries| && entries[k] == e;
      assert s[k] in s;
      var i :| 0 <= i < |rows| && rows[i] == s[k];
    }
    forall id | ScopeHasId(rows, scope, entry, id) ensures id in EntryIds(entries) {
      var i :| 0 <= i < |rows| && scope(rows[i]) && entry(rows[i]).id == id;
      assert rows[i] in s;
      var k :| 0 <= k < |s| && s[k] == rows[i];
      assert entries[k] in entries;
    }
  }

  /** Writing back orders whose ids are exactly those of the scope's rows touches
      those rows only, and only through `withOrder`. */
  lemma ApplySpec<T(!new)>(rows: seq<T>, owned: T -> bool, scope: T -> bool, entry: T -> Reorder.Entry,
                     withOrder: (T, int) -> T, m: map<int, int>)
    requires forall x :: scope(x) ==> owned(x)
    requires forall i, j :: 0 <= i < j < |rows| ==> entry(rows[i]).id != entry(rows[j]).id
    requires forall x, o :: entry(withOrder(x, o)) == Reorder.Entry(entry(x).id, o)
    requires forall id :: id in m <==> ScopeHasId(rows, scope, entry, id)
    ensures var r := ApplyOrders(rows, owned, entry, withOrder, m);
      (forall i :: 0 <= i < |rows| && !scope(rows[i]) ==> r[i] == rows[i])
      && (forall i :: 0 <= i < |rows| && scope(rows[i]) ==>
            entry(rows[i]).id in m && r[i] == withOrder(rows[i], m[entry(rows[i]).id]) && entry(r[i]).order == m[entry(rows[i]).id])
  {
    var r := ApplyOrders(rows, owned, entry, withOrder, m);
    forall i | 0 <= i < |rows| && !scope(rows[i]) ensures r[i] == rows[i] {
      OutsideNotInPlan(rows, scope, entry, m, i);
    }
    forall i | 0 <= i < |rows| && scope(rows[i])
      ensures entry(rows[i]).id in m && r[i] == withOrder(rows[i], m[entry(rows[i]).id])
    {
      assert ScopeHasId(rows, scope, entry, entry(rows[i]).id);
      assert owned(rows[i]);
    }
  }

  /** A row outside the scope has an id the plan does not renumber. */
  lemma OutsideNotInPlan<T>(rows: seq<T>, scope: T -> bool, entry: T -> Reorder.Entry, m: map<int, int>, i: int)
    requires forall i, j :: 0 <= i < j < |rows| ==> entry(rows[i]).id != entry(rows[j]).id
    requires forall id :: id in m <==> ScopeHasId(rows, scope, entry, id)
    requires 0 <= i < |rows| && !scope(rows[i])
    ensures entry(rows[i]).id !in m
  {
  }

  /** Writing back orders keeps the table keyed when it keeps every row's id. */
  lemma ApplyOrdersKeyed<T(!new)>(rows: seq<T>, owned: T -> bool, entry: T -> Reorder.Entry, withOrder: (T, int) -> T,
                            m: map<int, int>, key: T -> int, next: int)
    requires Keyed(rows, key, next)
    requires forall x, o :: key(withOrder(x, o)) == key(x)
    ensures Keyed(ApplyOrders(rows, owned, entry, withOrder, m), key, next)
  {
    var r := ApplyOrders(rows, owned, entry, withOrder, m);
    forall i | 0 <= i < |rows| ensures key(r[i]) == key(rows[i]) {
      if owned(rows[i]) && entry(rows[i]).id in m {
        KeyOfWithOrder(rows[i], m[entry(rows[i]).id], key, withOrder);
      } else {
        assert r[i] == rows[i];
      }
    }
    KeyedSameKeys(rows, r, key, next);
  }

  lemma KeyOfWithOrder<T(!new)>(x: T, o: int, key: T -> int, withOrder: (T, int) -> T)
    requires forall x, o :: key(withOrder(x, o)) == key(x)
    ensures key(withOrder(x, o)) == key(x)
  {
  }

  /** The filter keeps distinct positions of the table: two kept rows come from two
      different rows of it. */
  lemma FilterIndices<T(!new)>(rows: seq<T>, scope: T -> bool, a: nat, b: nat)
    requires a < b < |Filter(rows, scope)|
    ensures exists i, j :: 0 <= i < j < |rows| && Filter(rows, scope)[a] == rows[i] && Filter(rows, scope)[b] == rows[j]
  {
    var n := |rows| - 1;
    FilterPrefix(rows, n, scope);
    assert rows[..n + 1] == rows;
    var init := Filter(rows[..n], scope);
    if b < |init| {
      FilterIndices(rows[..n], scope, a, b);
      var i, j :| 0 <= i < j < n && init[a] == rows[..n][i] && init[b] == rows[..n][j];
      assert rows[..n][i] == rows[i] && rows[..n][j] == rows[j];
    } else {
      FilterMembers(rows[..n], scope);
      assert init[a] in init;
      var i :| 0 <= i < n && rows[..n][i] == init[a];
      assert rows[..n][i] == rows[i];
    }
  }

  function CategoryEntry(c: CategoryRow): Reorder.Entry { Reorder.Entry(c.id, c.order) }
  function AccountEntry(a: AccountRow): Reorder.Entry { Reorder.Entry(a.id, a.order) }
  function ItemEntry(x: ItemRow): Reorder.Entry { Reorder.Entry(x.id, x.order) }

  function WithCategoryOrder(c: CategoryRow, o: int): CategoryRow { c.(order := o) }
  function WithAccountOrder(a: AccountRow, o: int): AccountRow { a.(order := o) }
  function WithItemOrder(x: ItemRow, o: int): ItemRow { x.(order := o) }

  function CategoryOwned(userId: int): CategoryRow -> bool { (c: CategoryRow) => c.userId == userId }
  function AccountOwned(userId: int): AccountRow -> bool { (a: AccountRow) => a.userId == userId }
  function ItemOwned(userId: int): ItemRow -> bool { (x: ItemRow) => x.userId == userId }

  /** The accounts of one bucket of the user, and the items of one account. */
  function InBucket(userId: int, bucket: string): AccountRow -> bool {
    (a: AccountRow) => a.userId == userId && a.bucket == bucket
  }

  function InAccount(userId: int, accountId: int): ItemRow -> bool {
    (x: ItemRow) => x.userId == userId && x.accountId == accountId
  }

  /** Keyed rows have distinct ids. */
  lemma KeyedIds<T>(rows: seq<T>, key: T -> int, next: int, entry: T -> Reorder.Entry)
    requires Keyed(rows, key, next)
    requires forall x :: entry(x).id == key(x)
    ensures forall i, j :: 0 <= i < j < |rows| ==> entry(rows[i]).id != entry(rows[j]).id
  {
    KeyedMeans(rows, key, next);
  }

  /** `POST /api/categories/reorder`: a reorder that goes through renumbers the
      user's categories 0 .. n-1 and only them, giving the dragged one the index of
      the target; other users' categories keep their order. */
  lemma CategoryReorderSpec(cats: seq<CategoryRow>, next: int, userId: int, activeId: int, overId: int)
    requires Keyed(cats, CategoryRowKey, next)
    requires Reorder.NewOrders(EntriesOf(cats, CategoryOwned(userId), CategoryEntry), activeId, overId).Some?
    ensures var entries := EntriesOf(cats, CategoryOwned(userId), CategoryEntry);
      var r := ApplyOrders(cats, CategoryOwned(userId), CategoryEntry, WithCategoryOrder,
                           Reorder.NewOrders(entries, activeId, overId).value);
      (forall i :: 0 <= i < |cats| && cats[i].userId != userId ==> r[i] == cats[i])
      && (forall i :: 0 <= i < |cats| && cats[i].userId == userId ==>
            r[i] == cats[i].(order := r[i].order) && 0 <= r[i].order < |entries|)
      && (forall i, j :: 0 <= i < j < |cats| && CategoryOwned(userId)(cats[i]) && CategoryOwned(userId)(cats[j]) ==>
            r[i].order != r[j].order)
      && (forall i :: 0 <= i < |cats| && CategoryOwned(userId)(cats[i]) && cats[i].id == activeId ==>
            r[i].order == Reorder.IndexOfId(SortByKey(entries, Reorder.SortKey), overId))
  {
    KeyedIds(cats, CategoryRowKey, next, CategoryEntry);
    ReorderSpec(cats, CategoryOwned(userId), CategoryOwned(userId), CategoryEntry, WithCategoryOrder, activeId, overId);
  }

  /** `POST /api/portfolio/accounts/reorder`: the accounts of the bucket are
      renumbered 0 .. n-1, the dragged one taking the target's index; accounts of
      other buckets or users are untouched. */
  lemma AccountReorderSpec(accounts: seq<AccountRow>, next: int, userId: int, bucket: string, activeId: int, overId: int)
    requires Keyed(accounts, AccountRowKey, next)
    requires Reorder.NewOrders(EntriesOf(accounts, InBucket(userId, bucket), AccountEntry), activeId, overId).Some?
    ensures var entries := EntriesOf(accounts, InBucket(userId, bucket), AccountEntry);
      var r := ApplyOrders(accounts, AccountOwned(userId), AccountEntry, WithAccountOrder,
                           Reorder.NewOrders(entries, activeId, overId).value);
      (forall i :: 0 <= i < |accounts| && !(accounts[i].userId == userId && accounts[i].bucket == bucket) ==> r[i] == accounts[i])
      && (forall i :: 0 <= i < |accounts| && accounts[i].userId == userId && accounts[i].bucket == bucket ==>
            r[i] == accounts[i].(order := r[i].order) && 0 <= r[i].order < |entries|)
      && (forall i, j :: 0 <= i < j < |accounts| && InBucket(userId, bucket)(accounts[i]) && InBucket(userId, bucket)(accounts[j]) ==>
            r[i].order != r[j].order)
      && (forall i :: 0 <= i < |accounts| && InBucket(userId, bucket)(accounts[i]) && accounts[i].id == activeId ==>
            r[i].order == Reorder.IndexOfId(SortByKey(entries, Reorder.SortKey), overId))
  {
    KeyedIds(accounts, AccountRowKey, next, AccountEntry);
    ReorderSpec(accounts, AccountOwned(userId), InBucket(userId, bucket), AccountEntry, WithAccountOrder, activeId, overId);
  }

  /** `POST /api/portfolio/items/reorder`: the items of the account are renumbered
      0 .. n-1, the dragged one taking the target's index; items of other accounts
      or users are untouched. */
  lemma ItemReorderSpec(items: seq<ItemRow>, next: int, userId: int, accountId: int, activeId: int, overId: int)
    requires Keyed(items, ItemRowKey, next)
    requires Reorder.NewOrders(EntriesOf(items, InAccount(userId, accountId), ItemEntry), activeId, overId).Some?
    ensures var entries := EntriesOf(items, InAccount(userId, accountId), ItemEntry);
      var r := ApplyOrders(items, ItemOwned(userId), ItemEntry, WithItemOrder,
                           Reorder.NewOrders(entries, activeId, overId).value);
      (forall i :: 0 <= i < |items| && !(items[i].userId == userId && items[i].accountId == accountId) ==> r[i] == items[i])
      && (forall i :: 0 <= i < |items| && items[i].userId == userId && items[i].accountId == accountId ==>
            r[i] == items[i].(order := r[i].order) && 0 <= r[i].order < |entries|)
      && (forall i, j :: 0 <= i < j < |items| && InAccount(userId, accountId)(items[i]) && InAccount(userId, accountId)(items[j]) ==>
            r[i].order != r[j].order)
      && (forall i :: 0 <= i < |items| && InAccount(userId, accountId)(items[i]) && items[i].id == activeId ==>
            r[i].order == Reorder.IndexOfId(SortByKey(entries, Reorder.SortKey), overId))
  {
    KeyedIds(items, ItemRowKey, next, ItemEntry);
    ReorderSpec(items, ItemOwned(userId), InAccount(userId, accountId), ItemEntry, WithItemOrder, activeId, overId);
  }

  /** A falsy id (absent, null or 0) is `None` or `Some(0)`. */
  predicate Falsy(id: Option<int>) {
    id.None? || id == Some(0)
  }

  /** The category table after `POST /api/categories/reorder`, with the answer. */
  method ReorderCategoryRows(categories: seq<CategoryRow>, next: int, userId: int, activeId: Option<int>, overId: Option<int>)
    returns (r: Result<(), HttpError>, rows: seq<CategoryRow>)
    requires Keyed(categories, CategoryRowKey, next)
    ensures Keyed(rows, CategoryRowKey, next)
    ensures Falsy(activeId) || Falsy(overId) ==>
      r == Failure(HttpError(400, CATEGORY_IDS_REQUIRED)) && rows == categories
    ensures !(Falsy(activeId) || Falsy(overId)) ==>
      match Reorder.NewOrders(EntriesOf(categories, CategoryOwned(userId), CategoryEntry), activeId.value, overId.value)
      case None => r == Failure(HttpError(404, CATEGORY_NOT_FOUND)) && rows == categories
      case Some(orders) => r == Success(()) && rows == ApplyOrders(categories, CategoryOwned(userId), CategoryEntry, WithCategoryOrder, orders)
  {
    rows := categories;
    if Falsy(activeId) || Falsy(overId) {
      return Failure(HttpError(400, CATEGORY_IDS_REQUIRED)), rows;
    }
    var plan := Reorder.Plan(EntriesOf(categories, CategoryOwned(userId), CategoryEntry), activeId.value, overId.value);
    if plan.None? {
      return Failure(HttpError(404, CATEGORY_NOT_FOUND)), rows;
    }
    ApplyOrdersKeyed(categories, CategoryOwned(userId), CategoryEntry, WithCategoryOrder, plan.value, CategoryRowKey, next);
    rows := ApplyOrders(categories, CategoryOwned(userId), CategoryEntry, WithCategoryOrder, plan.value);
    r := Success(());
  }

  /** `POST /api/categories/reorder`; the answer `{ reordered: true }` is `Success(())`. */
  method PostReorderCategories(store: Store, userId: int, activeId: Option<int>, overId: Option<int>)
    returns (r: Result<(), HttpError>)
    requires store.Valid()
    modifies store
    ensures store.Valid()
    ensures Falsy(activeId) || Falsy(overId) ==>
      r == Failure(HttpError(400, CATEGORY_IDS_REQUIRED)) && store.categories == old(store.categories)
    ensures !Falsy(activeId) && !Falsy(overId) ==>
      match Reorder.NewOrders(EntriesOf(old(store.categories), CategoryOwned(userId), CategoryEntry), activeId.value, overId.value)
      case None => r == Failure(HttpError(404, CATEGORY_NOT_FOUND)) && store.categories == old(store.categories)
      case Some(orders) =>
        r == Success(()) && store.categories == ApplyOrders(old(store.categories), CategoryOwned(userId), CategoryEntry, WithCategoryOrder, orders)
    ensures store.transactions == old(store.transactions) && store.budgets == old(store.budgets)
    ensures store.settings == old(store.settings) && store.accounts == old(store.accounts)
    ensures store.items == old(store.items)
    ensures store.nextTransactionId == old(store.nextTransactionId) && store.nextCategoryId == old(store.nextCategoryId)
    ensures store.nextBudgetId == old(store.nextBudgetId) && store.nextSettingId == old(store.nextSettingId)
    ensures store.nextAccountId == old(store.nextAccountId) && store.nextItemId == old(store.nextItemId)
  {
    var rows;
    r, rows := ReorderCategoryRows(store.categories, store.nextCategoryId, userId, activeId, overId);
    store.categories := rows;
  }

  /** The account table after `POST /api/portfolio/accounts/reorder`, with the answer. */
  method ReorderAccountRows(accounts: seq<AccountRow>, next: int, userId: int, bucket: string, activeId: Option<int>, overId: Option<int>)
    returns (r: Result<(), HttpError>, rows: seq<AccountRow>)
    requires Keyed(accounts, AccountRowKey, next)
    ensures Keyed(rows, AccountRowKey, next)
    ensures bucket == "" || Falsy(activeId) || Falsy(overId) ==>
      r == Failure(HttpError(400, ACCOUNT_FIELDS_REQUIRED)) && rows == accounts
    ensures !(bucket == "" || Falsy(activeId) || Falsy(overId)) ==>
      match Reorder.NewOrders(EntriesOf(accounts, InBucket(userId, bucket), AccountEntry), activeId.value, overId.value)
      case None => r == Failure(HttpError(404, ACCOUNT_NOT_FOUND)) && rows == accounts
      case Some(orders) => r == Success(()) && rows == ApplyOrders(accounts, AccountOwned(userId), AccountEntry, WithAccountOrder, orders)
  {
    rows := accounts;
    if bucket == "" || Falsy(activeId) || Falsy(overId) {
      return Failure(HttpError(400, ACCOUNT_FIELDS_REQUIRED)), rows;
    }
    var plan := Reorder.Plan(EntriesOf(accounts, InBucket(userId, bucket), AccountEntry), activeId.value, overId.value);
    if plan.None? {
      return Failure(HttpError(404, ACCOUNT_NOT_FOUND)), rows;
    }
    ApplyOrdersKeyed(accounts, AccountOwned(userId), AccountEntry, WithAccountOrder, plan.value, AccountRowKey, next);
    rows := ApplyOrders(accounts, AccountOwned(userId), AccountEntry, WithAccountOrder, plan.value);
    r := Success(());
  }

  /** `POST /api/portfolio/accounts/reorder`; a falsy bucket is the empty string. */
  method PostReorderAccounts(store: Store, userId: int, bucket: string, activeId: Option<int>, overId: Option<int>)
    returns (r: Result<(), HttpError>)
    requires store.Valid()
    modifies store
    ensures store.Valid()
    ensures bucket == "" || Falsy(activeId) || Falsy(overId) ==>
      r == Failure(HttpError(400, ACCOUNT_FIELDS_REQUIRED)) && store.accounts == old(store.accounts)
    ensures bucket != "" && !Falsy(activeId) && !Falsy(overId) ==>
      match Reorder.NewOrders(EntriesOf(old(store.accounts), InBucket(userId, bucket), AccountEntry), activeId.value, overId.value)
      case None => r == Failure(HttpError(404, ACCOUNT_NOT_FOUND)) && store.accounts == old(store.accounts)
      case Some(orders) =>
        r == Success(()) && store.accounts == ApplyOrders(old(store.accounts), AccountOwned(userId), AccountEntry, WithAccountOrder, orders)
    ensures store.transactions == old(store.transactions) && store.budgets == old(store.budgets)
    ensures store.settings == old(store.settings) && store.categories == old(store.categories)
    ensures store.items == old(store.items)
    ensures store.nextTransactionId == old(store.nextTransactionId) && store.nextCategoryId == old(store.nextCategoryId)
    ensures store.nextBudgetId == old(store.nextBudgetId) && store.nextSettingId == old(store.nextSettingId)
    ensures store.nextAccountId == old(store.nextAccountId) && store.nextItemId == old(store.nextItemId)
  {
    var rows;
    r, rows := ReorderAccountRows(store.accounts, store.nextAccountId, userId, bucket, activeId, overId);
    store.accounts := rows;
  }

  /** The item table after `POST /api/portfolio/items/reorder`, with the answer. */
  method ReorderItemRows(items: seq<ItemRow>, next: int, userId: int, accountId: Option<int>, activeId: Option<int>, overId: Option<int>)
    returns (r: Result<(), HttpError>, rows: seq<ItemRow>)
    requires Keyed(items, ItemRowKey, next)
    ensures Keyed(rows, ItemRowKey, next)
    ensures Falsy(accountId) || Falsy(activeId) || Falsy(overId) ==>
      r == Failure(HttpError(400, ITEM_FIELDS_REQUIRED)) && rows == items
    ensures !(Falsy(accountId) || Falsy(activeId) || Falsy(overId)) ==>
      match Reorder.NewOrders(EntriesOf(items, InAccount(userId, accountId.value), ItemEntry), activeId.value, overId.value)
      case None => r == Failure(HttpError(404, ITEM_NOT_FOUND)) && rows == items
      case Some(orders) => r == Success(()) && rows == ApplyOrders(items, ItemOwned(userId), ItemEntry, WithItemOrder, orders)
  {
    rows := items;
    if Falsy(accountId) || Falsy(activeId) || Falsy(overId) {
      return Failure(HttpError(400, ITEM_FIELDS_REQUIRED)), rows;
    }
    var plan := Reorder.Plan(EntriesOf(items, InAccount(userId, accountId.value), ItemEntry), activeId.value, overId.value);
    if plan.None? {
      return Failure(HttpError(404, ITEM_NOT_FOUND)), rows;
    }
    ApplyOrdersKeyed(items, ItemOwned(userId), ItemEntry, WithItemOrder, plan.value, ItemRowKey, next);
    rows := ApplyOrders(items, ItemOwned(userId), ItemEntry, WithItemOrder, plan.value);
    r := Success(());
  }

  /** `POST /api/portfolio/items/reorder`. */
  method PostReorderItems(store: Store, userId: int, accountId: Option<int>, activeId: Option<int>, overId: Option<int>)
    returns (r: Result<(), HttpError>)
    requires store.Valid()
    modifies store
    ensures store.Valid()
    ensures Falsy(accountId) || Falsy(activeId) || Falsy(overId) ==>
      r == Failure(HttpError(400, ITEM_FIELDS_REQUIRED)) && store.items == old(store.items)
    ensures !Falsy(accountId) && !Falsy(activeId) && !Falsy(overId) ==>
      match Reorder.NewOrders(EntriesOf(old(store.items), InAccount(userId, accountId.value), ItemEntry), activeId.value, overId.value)
      case None => r == Failure(HttpError(404, ITEM_NOT_FOUND)) && store.items == old(store.items)
      case Some(orders) =>
        r == Success(()) && store.items == ApplyOrders(old(store.items), ItemOwned(userId), ItemEntry, WithItemOrder, orders)
    ensures store.transactions == old(store.transactions) && store.budgets == old(store.budgets)
    ensures store.settings == old(store.settings) && store.categories == old(store.categories)
    ensures store.accounts == old(store.accounts)
    ensures store.nextTransactionId == old(store.nextTransactionId) && store.nextCategoryId == old(store.nextCategoryId)
    ensures store.nextBudgetId == old(store.nextBudgetId) && store.nextSettingId == old(store.nextSettingId)
    ensures store.nextAccountId == old(store.nextAccountId) && store.nextItemId == old(store.nextItemId)
  {
    var rows;
    r, rows := ReorderItemRows(store.items, store.nextItemId, userId, accountId, activeId, overId);
    store.items := rows;
  }

}
