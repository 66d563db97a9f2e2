/** The server store: SQL tables shared by every user, so each row carries the id of
    the user who owns it, and every route reads and writes only the rows of the
    signed-in user (`where userId = …`). A table is a sequence in id order; `next…Id`
    is the id its serial column hands out next. Only the columns the routes read or
    write are kept; uuids and the `createdAt`/`updatedAt` stamps are not part of this
    model. */
module ServerDb {
  import opened Wrappers
  import opened SeqUtil

  /** A calendar day in UTC: what `toISOString().split("T")[0]` keeps of an instant. */
  datatype Day = Day(year: int, month: int, day: int)

  /** An instant: its UTC day and the milliseconds elapsed in that day. */
  datatype Instant = Instant(day: Day, millis: int)

  /** `netAmount` is `None` where the route stored the NaN of `undefined - x`. */
  datatype TransactionRow = TransactionRow(
    id: int, userId: int, date: Instant, description: string, matchField: string,
    amountOut: real, amountIn: real, netAmount: Option<real>, source: string,
    categoryId: Option<int>, importId: Option<int>)

  datatype CategoryRow = CategoryRow(
    id: int, userId: int, name: string, keywords: seq<string>, order: int, isSystem: bool)

  /** `month` is null (`None`) for a yearly budget. */
  datatype BudgetRow = BudgetRow(
    id: int, userId: int, categoryId: int, year: int, month: Option<int>, amount: real)

  datatype SettingRow = SettingRow(id: int, userId: int, key: string, value: string)

  /** A portfolio account, listed within its bucket. */
  datatype AccountRow = AccountRow(id: int, userId: int, bucket: string, order: int)

  /** A portfolio item, listed within its account. */
  datatype ItemRow = ItemRow(id: int, userId: int, accountId: int, order: int)

  /** The JSON error a route answers with, and its HTTP status. */
  datatype HttpError = HttpError(status: int, message: string)

  function TransactionRowKey(r: TransactionRow): int { r.id }
  function CategoryRowKey(r: CategoryRow): int { r.id }
  function BudgetRowKey(r: BudgetRow): int { r.id }
  function SettingRowKey(r: SettingRow): int { r.id }
  function AccountRowKey(r: AccountRow): int { r.id }
  function ItemRowKey(r: ItemRow): int { r.id }

  /** No user holds two settings under one key. */
  ghost predicate UniqueUserKeys(s: seq<SettingRow>) {
    forall i, j :: 0 <= i < j < |s| && s[i].userId == s[j].userId ==> s[i].key != s[j].key
  }

  /** The database. Every table obeys `Keyed`; a user's setting keys are unique. */
  class Store {
    var transactions: seq<TransactionRow>
    var categories: seq<CategoryRow>
    var budgets: seq<BudgetRow>
    var settings: seq<SettingRow>
    var accounts: seq<AccountRow>
    var items: seq<ItemRow>
    var nextTransactionId: int
    var nextCategoryId: int
    var nextBudgetId: int
    var nextSettingId: int
    var nextAccountId: int
    var nextItemId: int

    ghost predicate Valid()
      reads this
    {
      1 <= nextTransactionId && 1 <= nextCategoryId && 1 <= nextBudgetId
      && 1 <= nextSettingId && 1 <= nextAccountId && 1 <= nextItemId
      && Keyed(transactions, TransactionRowKey, nextTransactionId)
      && Keyed(categories, CategoryRowKey, nextCategoryId)
      && Keyed(budgets, BudgetRowKey, nextBudgetId)
      && Keyed(settings, SettingRowKey, nextSettingId)
      && Keyed(accounts, AccountRowKey, nextAccountId)
      && Keyed(items, ItemRowKey, nextItemId)
      && UniqueUserKeys(settings)
    }

    /** An empty database. */
    constructor()
      ensures Valid()
      ensures transactions == [] && categories == [] && budgets == []
      ensures settings == [] && accounts == [] && items == []
    {
      transactions, categories, budgets, settings, accounts, items := [], [], [], [], [], [];
      nextTransactionId, nextCategoryId, nextBudgetId := 1, 1, 1;
      nextSettingId, nextAccountId, nextItemId := 1, 1, 1;
    }
  }
}
