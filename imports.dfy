/** The import history of the browser store: listing the imports newest first,
    recording one, and deleting one together with the transactions it brought in. */
module Imports {
  import opened Wrappers
  import opened SeqUtil
  import opened LocalDb

  /** `orderBy("importedAt").reverse()`: by import time, newest first; rows of the
      same time come by descending id. */
  function NewestFirstKey(r: ImportRecord): (int, int) {
    (-r.importedAt, -r.id)
  }

  /** `getImports()`: every import, newest first. */
  function GetImports(imports: seq<ImportRecord>): (r: seq<ImportRecord>)
    ensures multiset(r) == multiset(imports)
    ensures forall i, j :: 0 <= i < j < |r| ==> r[i].importedAt >= r[j].importedAt
  {
    var sorted := SortByKey(imports, NewestFirstKey);
    assert forall i, j :: 0 <= i < j < |sorted| ==> KeyLe(NewestFirstKey(sorted[i]), NewestFirstKey(sorted[j]));
    sorted
  }

  /** `addImport(importData)`: one record under the next id, which is returned. */
  method AddImport(db: Database, fileName: string, source: string, transactionCount: int,
                   totalAmount: real, importedAt: int) returns (id: int)
    requires db.Valid()
    modifies db
    ensures db.Valid()
    ensures id == old(db.nextImportId) && db.nextImportId == id + 1
    ensures db.imports == old(db.imports) + [ImportRecord(id, fileName, source, transactionCount, totalAmount, importedAt)]
    ensures db.categories == old(db.categories) && db.transactions == old(db.transactions)
    ensures db.budgets == old(db.budgets) && db.settings == old(db.settings)
    ensures db.nextCategoryId == old(db.nextCategoryId) && db.nextTransactionId == old(db.nextTransactionId)
    ensures db.nextBudgetId == old(db.nextBudgetId) && db.nextSettingId == old(db.nextSettingId)
  {
    id := db.nextImportId;
    var record := ImportRecord(id, fileName, source, transactionCount, totalAmount, importedAt);
    KeyedSnoc(db.imports, record, ImportKey, id);
    db.imports, db.nextImportId := db.imports + [record], id + 1;
  }

  function NotFromImport(id: int): Transaction -> bool {
    (t: Transaction) => t.importId != Some(id)
  }

  function NotImport(id: int): ImportRecord -> bool {
    (r: ImportRecord) => r.id != id
  }

  /** `deleteImport(id)`: the transactions of the import go, then the record. */
  method DeleteImport(db: Database, id: int)
    requires db.Valid()
    modifies db
    ensures db.Valid()
    ensures db.transactions == Filter(old(db.transactions), NotFromImport(id))
    ensures db.imports == Filter(old(db.imports), NotImport(id))
    ensures db.categories == old(db.categories) && db.budgets == old(db.budgets) && db.settings == old(db.settings)
    ensures db.nextCategoryId == old(db.nextCategoryId) && db.nextTransactionId == old(db.nextTransactionId)
    ensures db.nextBudgetId == old(db.nextBudgetId) && db.nextImportId == old(db.nextImportId)
    ensures db.nextSettingId == old(db.nextSettingId)
  {
    var txs := Filter(db.transactions, NotFromImport(id));
    var imports := Filter(db.imports, NotImport(id));
    KeyedFilter(db.transactions, NotFromImport(id), TransactionKey, db.nextTransactionId);
    KeyedFilter(db.imports, NotImport(id), ImportKey, db.nextImportId);
    db.transactions, db.imports := txs, imports;
  }

  /** After the delete no transaction of the import is left, every transaction of
      another import (or of none) is still there in its old order, and the record
      is gone while the other records stay. */
  lemma {:induction false} DeleteImportCascade(txs: seq<Transaction>, imports: seq<ImportRecord>, id: int)
    ensures forall t :: t in Filter(txs, NotFromImport(id)) ==> t.importId != Some(id)
    ensures forall t :: t in txs && t.importId != Some(id) ==> t in Filter(txs, NotFromImport(id))
    ensures |Filter(txs, NotFromImport(id))| == |txs| - CountWhere(txs, FromImport(id))
    ensures forall r :: r in Filter(imports, NotImport(id)) <==> r in imports && r.id != id
  {
    FilterMembers(txs, NotFromImport(id));
    FilterMembers(imports, NotImport(id));
    CountSplit(txs, NotFromImport(id), FromImport(id));
  }

  function FromImport(id: int): Transaction -> bool {
    (t: Transaction) => t.importId == Some(id)
  }

  /** Elements either pass a test or its complement. */
  lemma {:induction false} CountSplit(txs: seq<Transaction>, p: Transaction -> bool, q: Transaction -> bool)
    requires forall t :: p(t) <==> !q(t)
    ensures CountWhere(txs, p) + CountWhere(txs, q) == |txs|
  {
    if txs != [] {
      CountSplit(txs[..|txs| - 1], p, q);
    }
  }
}
