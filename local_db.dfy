/** The browser-side store: one table per record kind, every row carrying the id
    the table handed out when the row was added (`++id`). A table is a sequence in
    primary-key order, and `next…Id` is the id the table hands out next. Only the
    fields the maintenance rules read or write are kept; uuids and timestamps are
    not part of this model. */
module LocalDb {
  import opened Wrappers
  import opened SeqUtil

  datatype Category = Category(id: int, name: string, keywords: seq<string>, order: int, isSystem: bool)

  /** `categoryId` is null (`None`) for a transaction no category claims. */
  datatype Transaction = Transaction(
    id: int, description: string, matchField: string,
    categoryId: Option<int>, importId: Option<int>)

  /** `month` is null (`None`) for a yearly budget. */
  datatype Budget = Budget(id: int, categoryId: int, year: int, month: Option<int>, amount: real)

  datatype ImportRecord = ImportRecord(
    id: int, fileName: string, source: string,
    transactionCount: int, totalAmount: real, importedAt: int)

  datatype Setting = Setting(id: int, key: string, value: string)

  function CategoryKey(c: Category): int { c.id }
  function TransactionKey(t: Transaction): int { t.id }
  function BudgetKey(b: Budget): int { b.id }
  function ImportKey(r: ImportRecord): int { r.id }
  function SettingKey(s: Setting): int { s.id }

  /** The settings table's unique index on `key`. */
  ghost predicate UniqueKeys(s: seq<Setting>) {
    forall i, j :: 0 <= i < j < |s| ==> s[i].key != s[j].key
  }

  /** The store. Every table obeys `Keyed`, and settings keys are unique. */
  class Database {
    var categories: seq<Category>
    var transactions: seq<Transaction>
    var budgets: seq<Budget>
    var imports: seq<ImportRecord>
    var settings: seq<Setting>
    var nextCategoryId: int
    var nextTransactionId: int
    var nextBudgetId: int
    var nextImportId: int
    var nextSettingId: int

    ghost predicate Valid()
      reads this
    {
      1 <= nextCategoryId && 1 <= nextTransactionId && 1 <= nextBudgetId
      && 1 <= nextImportId && 1 <= nextSettingId
      && Keyed(categories, CategoryKey, nextCategoryId)
      && Keyed(transactions, TransactionKey, nextTransactionId)
      && Keyed(budgets, BudgetKey, nextBudgetId)
      && Keyed(imports, ImportKey, nextImportId)
      && Keyed(settings, SettingKey, nextSettingId)
      && UniqueKeys(settings)
    }

    /** A fresh, empty store. */
    constructor()
      ensures Valid()
      ensures categories == [] && transactions == [] && budgets == [] && imports == [] && settings == []
    {
      categories, transactions, budgets, imports, settings := [], [], [], [], [];
      nextCategoryId, nextTransactionId, nextBudgetId, nextImportId, nextSettingId := 1, 1, 1, 1, 1;
    }
  }
}
