/** The category rules of the browser store: adding a category at the end of the
    display order, editing one (and re-classifying the transactions a keyword
    change affects), deleting one with its cascade, drag-and-drop reordering, and
    adding or removing a single keyword. */
module Categories {
  import opened Wrappers
  import opened Text
  import opened SeqUtil
  import opened Keywords
  import opened LocalDb
  import Reorder

  // ---------------------------------------------------------------- lookups

  /** `db.categories.get(id)`. */
  function FindCategory(cats: seq<Category>, id: int): (r: Option<Category>)
    ensures r.Some? ==> r.value in cats && r.value.id == id
    ensures r.None? <==> forall c :: c in cats ==> c.id != id
  {
    if cats == [] then None
    else if cats[0].id == id then Some(cats[0])
    else
      assert forall c :: c in cats ==> c == cats[0] || c in cats[1..];
      FindCategory(cats[1..], id)
  }

  /** A category other than `excludeId` one of whose keywords occurs in the text. */
  predicate Claims(text: string, c: Category, excludeId: int) {
    c.id != excludeId && MatchesKeywords(text, c.keywords)
  }

  function Claimant(text: string, excludeId: int): Category -> bool {
    c => Claims(text, c, excludeId)
  }

  /** The index of the first category in table order that claims the text, or -1. */
  function FirstClaim(text: string, cats: seq<Category>, excludeId: int): (r: int)
    ensures -1 <= r < |cats|
    ensures r == -1 <==> forall k :: 0 <= k < |cats| ==> !Claims(text, cats[k], excludeId)
    ensures r >= 0 ==> Claims(text, cats[r], excludeId)
                       && forall k :: 0 <= k < r ==> !Claims(text, cats[k], excludeId)
  {
    if cats == [] then -1
    else if Claims(text, cats[0], excludeId) then 0
    else
      var r := FirstClaim(text, cats[1..], excludeId);
      if r == -1 then -1 else r + 1
  }

  /** `findMatchingCategory(text, categories, excludeId)`. */
  function FindMatchingCategory(text: string, cats: seq<Category>, excludeId: int): Option<Category> {
    var k := FirstClaim(text, cats, excludeId);
    if k < 0 then None else Some(cats[k])
  }

  /** Some other category claims the text exactly when the count of claimants
      (`otherMatches.length`) is non-zero. */
  lemma ClaimantsCounted(text: string, cats: seq<Category>, excludeId: int)
    ensures CountWhere(cats, Claimant(text, excludeId)) == 0 <==> FindMatchingCategory(text, cats, excludeId).None?
  {
    var k := FirstClaim(text, cats, excludeId);
    if k < 0 {
      CountWhereAll(cats, Claimant(text, excludeId));
    } else {
      CountWhereOne(cats, k, Claimant(text, excludeId));
    }
  }

  // ---------------------------------------------------------------- adding

  /** The largest `order` in the table, if any. */
  function MaxOrder(cats: seq<Category>): (r: Option<int>)
    ensures r.None? <==> cats == []
    ensures r.Some? ==> (forall c :: c in cats ==> c.order <= r.value)
                        && exists c :: c in cats && c.order == r.value
  {
    if cats == [] then None
    else
      var init := cats[..|cats| - 1];
      var last := cats[|cats| - 1];
      assert forall c :: c in cats <==> c in init || c == last;
      match MaxOrder(init)
      case None => Some(last.order)
      case Some(m) => if m < last.order then Some(last.order) else Some(m)
  }

  /** `(maxOrder?.order ?? -1) + 1`: one past the largest order, 0 for an empty table. */
  function NextOrder(cats: seq<Category>): (r: int)
    ensures forall c :: c in cats ==> c.order < r
    ensures cats == [] ==> r == 0
    ensures cats != [] ==> exists c :: c in cats && c.order == r - 1
  {
    match MaxOrder(cats)
    case None => 0
    case Some(m) => m + 1
  }

  /** `addCategory`: the new category goes after every existing one. */
  method AddCategory(db: Database, name: string, keywords: seq<string>) returns (id: int)
    requires db.Valid()
    modifies db
    ensures db.Valid()
    ensures id == old(db.nextCategoryId)
    ensures db.categories == old(db.categories) + [Category(id, name, keywords, NextOrder(old(db.categories)), false)]
    ensures db.nextCategoryId == old(db.nextCategoryId) + 1
    ensures db.transactions == old(db.transactions) && db.budgets == old(db.budgets)
    ensures db.imports == old(db.imports) && db.settings == old(db.settings)
    ensures db.nextTransactionId == old(db.nextTransactionId) && db.nextBudgetId == old(db.nextBudgetId)
    ensures db.nextImportId == old(db.nextImportId) && db.nextSettingId == old(db.nextSettingId)
  {
    var order := NextOrder(db.categories);
    id := db.nextCategoryId;
    var c := Category(id, name, keywords, order, false);
    KeyedSnoc(db.categories, c, CategoryKey, id);
    db.categories := db.categories + [c];
    db.nextCategoryId := id + 1;
  }

  // ---------------------------------------------------------------- editing

  /** The fields `updateCategory` may change; a `None` field is left as it is. */
  datatype CategoryUpdate = CategoryUpdate(
    name: Option<string>, keywords: Option<seq<string>>, order: Option<int>, isSystem: Option<bool>)

  datatype UpdateCategoryResult = UpdateCategoryResult(assignedCount: nat, uncategorizedCount: nat, conflictCount: nat)

  /** The state an edit leaves behind, and what it reports. */
  datatype CategoryEdit = CategoryEdit(
    categories: seq<Category>, transactions: seq<Transaction>, result: UpdateCategoryResult)

  function Apply(c: Category, u: CategoryUpdate): Category {
    Category(c.id,
      if u.name.Some? then u.name.value else c.name,
      if u.keywords.Some? then u.keywords.value else c.keywords,
      if u.order.Some? then u.order.value else c.order,
      if u.isSystem.Some? then u.isSystem.value else c.isSystem)
  }

  /** `db.categories.update(id, updates)`: the row with that id takes the update. */
  function UpdateRow(cats: seq<Category>, id: int, u: CategoryUpdate): (r: seq<Category>)
    ensures |r| == |cats|
    ensures forall i :: 0 <= i < |cats| && cats[i].id == id ==> r[i] == Apply(cats[i], u) && r[i].id == id
    ensures forall i :: 0 <= i < |cats| && cats[i].id != id ==> r[i] == cats[i]
  {
    seq(|cats|, i requires 0 <= i < |cats| => if cats[i].id == id then Apply(cats[i], u) else cats[i])
  }

  /** Comparing the sorted keyword lists is comparing them as multisets. */
  predicate KeywordsChanged(oldKeywords: seq<string>, newKeywords: seq<string>) {
    multiset(oldKeywords) != multiset(newKeywords)
  }

  /** A transaction of the edited category that its new keywords no longer match. */
  predicate Leaves(t: Transaction, id: int, keywords: seq<string>) {
    t.categoryId == Some(id) && !MatchesKeywords(t.matchField, keywords)
  }

  /** A leaving transaction some other category claims. */
  predicate Rehomed(t: Transaction, id: int, keywords: seq<string>, cats: seq<Category>) {
    Leaves(t, id, keywords) && FindMatchingCategory(t.matchField, cats, id).Some?
  }

  /** A null transaction the new keywords match. */
  predicate Candidate(t: Transaction, id: int, keywords: seq<string>) {
    t.categoryId.None? && MatchesKeywords(t.matchField, keywords)
  }

  /** A candidate no other category claims: it joins the edited category. */
  predicate Adopted(t: Transaction, id: int, keywords: seq<string>, cats: seq<Category>) {
    Candidate(t, id, keywords) && CountWhere(cats, Claimant(t.matchField, id)) == 0
  }

  /** A candidate some other category also claims: a conflict, left null. */
  predicate Contested(t: Transaction, id: int, keywords: seq<string>, cats: seq<Category>) {
    Candidate(t, id, keywords) && CountWhere(cats, Claimant(t.matchField, id)) > 0
  }

  function LeavesP(id: int, keywords: seq<string>): Transaction -> bool {
    t => Leaves(t, id, keywords)
  }

  function RehomedP(id: int, keywords: seq<string>, cats: seq<Category>): Transaction -> bool {
    t => Rehomed(t, id, keywords, cats)
  }

  function AdoptedP(id: int, keywords: seq<string>, cats: seq<Category>): Transaction -> bool {
    t => Adopted(t, id, keywords, cats)
  }

  function ContestedP(id: int, keywords: seq<string>, cats: seq<Category>): Transaction -> bool {
    t => Contested(t, id, keywords, cats)
  }

  /** The category a leaving transaction moves to: the first other claimant, or null. */
  function NewHome(text: string, cats: seq<Category>, id: int): Option<int> {
    match FindMatchingCategory(text, cats, id)
    case Some(c) => Some(c.id)
    case None => None
  }

  /** The first pass on one transaction. */
  function FirstPassRow(t: Transaction, id: int, keywords: seq<string>, cats: seq<Category>): Transaction {
    if Leaves(t, id, keywords) then t.(categoryId := NewHome(t.matchField, cats, id)) else t
  }

  /** The second pass on one transaction. */
  function SecondPassRow(t: Transaction, id: int, keywords: seq<string>, cats: seq<Category>): Transaction {
    if Adopted(t, id, keywords, cats) then t.(categoryId := Some(id)) else t
  }

  function FirstPass(txs: seq<Transaction>, id: int, keywords: seq<string>, cats: seq<Category>): seq<Transaction> {
    seq(|txs|, i requires 0 <= i < |txs| => FirstPassRow(txs[i], id, keywords, cats))
  }

  function SecondPass(txs: seq<Transaction>, id: int, keywords: seq<string>, cats: seq<Category>): seq<Transaction> {
    seq(|txs|, i requires 0 <= i < |txs| => SecondPassRow(txs[i], id, keywords, cats))
  }

  /** `updateCategory(id, updates)` on the two tables it touches. */
  function EditCategory(cats: seq<Category>, txs: seq<Transaction>, id: int, u: CategoryUpdate): (r: CategoryEdit)
    ensures FindCategory(cats, id).None? ==> r == CategoryEdit(cats, txs, UpdateCategoryResult(0, 0, 0))
    ensures |r.categories| == |cats| && |r.transactions| == |txs|
    ensures forall i :: 0 <= i < |cats| ==> r.categories[i].id == cats[i].id
    ensures forall i :: 0 <= i < |cats| && cats[i].id != id ==> r.categories[i] == cats[i]
    ensures forall i :: 0 <= i < |cats| && cats[i].id == id ==> r.categories[i] == Apply(cats[i], u)
    ensures FindCategory(cats, id).Some? ==> r.categories == UpdateRow(cats, id, u)
    ensures forall i :: 0 <= i < |txs| ==> r.transactions[i] == txs[i].(categoryId := r.transactions[i].categoryId)
  {
    match FindCategory(cats, id)
    case None => CategoryEdit(cats, txs, UpdateCategoryResult(0, 0, 0))
    case Some(c) =>
      var newKeywords := if u.keywords.Some? then u.keywords.value else c.keywords;
      var all := UpdateRow(cats, id, u);
      if !KeywordsChanged(c.keywords, newKeywords) then
        CategoryEdit(all, txs, UpdateCategoryResult(0, 0, 0))
      else
        var first := FirstPass(txs, id, newKeywords, all);
        CategoryEdit(all, SecondPass(first, id, newKeywords, all), UpdateCategoryResult(
          CountWhere(txs, RehomedP(id, newKeywords, all)) + CountWhere(first, AdoptedP(id, newKeywords, all)),
          CountWhere(txs, LeavesP(id, newKeywords)),
          CountWhere(first, ContestedP(id, newKeywords, all))))
  }

  /** The keywords the edited category has after the update. */
  function NewKeywords(c: Category, u: CategoryUpdate): seq<string> {
    if u.keywords.Some? then u.keywords.value else c.keywords
  }

  /** Keywords that compare equal as sorted lists re-classify nothing. */
  lemma EditSameKeywords(cats: seq<Category>, txs: seq<Transaction>, id: int, u: CategoryUpdate)
    requires FindCategory(cats, id).Some?
    requires !KeywordsChanged(FindCategory(cats, id).value.keywords, NewKeywords(FindCategory(cats, id).value, u))
    ensures EditCategory(cats, txs, id, u).transactions == txs
    ensures EditCategory(cats, txs, id, u).result == UpdateCategoryResult(0, 0, 0)
  {
  }

  /** The first pass turns no transaction into a candidate of the second: one that
      leaves does not match the new keywords. */
  lemma FirstPassKeepsCandidates(txs: seq<Transaction>, id: int, keywords: seq<string>, cats: seq<Category>)
    ensures forall i :: 0 <= i < |txs| ==>
      (Candidate(FirstPass(txs, id, keywords, cats)[i], id, keywords) <==> Candidate(txs[i], id, keywords))
  {
  }

  /** After an edit that changes the keywords, every transaction of the edited
      category matches its new keywords: kept ones still match, adopted ones do. */
  lemma EditedCategoryMatches(cats: seq<Category>, txs: seq<Transaction>, id: int, u: CategoryUpdate)
    requires FindCategory(cats, id).Some?
    ensures var r := EditCategory(cats, txs, id, u);
      forall i :: 0 <= i < |txs| && r.transactions[i].categoryId == Some(id) ==>
        MatchesKeywords(txs[i].matchField, NewKeywords(FindCategory(cats, id).value, u))
        || !KeywordsChanged(FindCategory(cats, id).value.keywords, NewKeywords(FindCategory(cats, id).value, u))
  {
    var c := FindCategory(cats, id).value;
    var all := UpdateRow(cats, id, u);
    var nk := NewKeywords(c, u);
    forall i | 0 <= i < |txs| && KeywordsChanged(c.keywords, nk)
      ensures NewHome(txs[i].matchField, all, id) != Some(id)
    {
      var k := FirstClaim(txs[i].matchField, all, id);
    }
  }

  /** Transactions of other categories are not touched. */
  lemma EditLeavesOthers(cats: seq<Category>, txs: seq<Transaction>, id: int, u: CategoryUpdate)
    ensures var r := EditCategory(cats, txs, id, u);
      forall i :: 0 <= i < |txs| && txs[i].categoryId.Some? && txs[i].categoryId != Some(id) ==>
        r.transactions[i] == txs[i]
  {
  }

  /** A transaction of the edited category that still matches keeps it; one that no
      longer matches moves to the first other category claiming it, or to null. */
  lemma EditMovesLeavers(cats: seq<Category>, txs: seq<Transaction>, id: int, u: CategoryUpdate, i: int)
    requires FindCategory(cats, id).Some? && 0 <= i < |txs| && txs[i].categoryId == Some(id)
    requires KeywordsChanged(FindCategory(cats, id).value.keywords, NewKeywords(FindCategory(cats, id).value, u))
    ensures var r := EditCategory(cats, txs, id, u);
      var nk := NewKeywords(FindCategory(cats, id).value, u);
      r.transactions[i].categoryId ==
        if MatchesKeywords(txs[i].matchField, nk) then Some(id)
        else NewHome(txs[i].matchField, UpdateRow(cats, id, u), id)
  {
    var c := FindCategory(cats, id).value;
    var all := UpdateRow(cats, id, u);
    var first := FirstPass(txs, id, NewKeywords(c, u), all);
    assert first[i] == FirstPassRow(txs[i], id, NewKeywords(c, u), all);
  }

  /** A null transaction joins the edited category exactly when the new keywords
      match it and no other category claims it; otherwise it stays null. */
  lemma EditAdoptsUnclaimed(cats: seq<Category>, txs: seq<Transaction>, id: int, u: CategoryUpdate, i: int)
    requires FindCategory(cats, id).Some? && 0 <= i < |txs| && txs[i].categoryId.None?
    requires KeywordsChanged(FindCategory(cats, id).value.keywords, NewKeywords(FindCategory(cats, id).value, u))
    ensures var r := EditCategory(cats, txs, id, u);
      var nk := NewKeywords(FindCategory(cats, id).value, u);
      var all := UpdateRow(cats, id, u);
      r.transactions[i].categoryId ==
        if MatchesKeywords(txs[i].matchField, nk) && FindMatchingCategory(txs[i].matchField, all, id).None?
        then Some(id) else None
  {
    var c := FindCategory(cats, id).value;
    var all := UpdateRow(cats, id, u);
    var first := FirstPass(txs, id, NewKeywords(c, u), all);
    assert first[i] == txs[i];
    ClaimantsCounted(txs[i].matchField, all, id);
  }

  /** The counters, read on the table as it was: `assignedCount` counts the re-homed and
      the adopted transactions, `uncategorizedCount` every transaction that left (the
      re-homed ones included), `conflictCount` the contested candidates. */
  lemma EditCounts(cats: seq<Category>, txs: seq<Transaction>, id: int, u: CategoryUpdate)
    requires FindCategory(cats, id).Some?
    requires KeywordsChanged(FindCategory(cats, id).value.keywords, NewKeywords(FindCategory(cats, id).value, u))
    ensures var r := EditCategory(cats, txs, id, u).result;
      var nk := NewKeywords(FindCategory(cats, id).value, u);
      var all := UpdateRow(cats, id, u);
      && r.assignedCount == CountWhere(txs, RehomedP(id, nk, all)) + CountWhere(txs, AdoptedP(id, nk, all))
      && r.uncategorizedCount == CountWhere(txs, LeavesP(id, nk))
      && r.conflictCount == CountWhere(txs, ContestedP(id, nk, all))
      && CountWhere(txs, RehomedP(id, nk, all)) <= r.uncategorizedCount
  {
    var c := FindCategory(cats, id).value;
    var nk := NewKeywords(c, u);
    var all := UpdateRow(cats, id, u);
    var first := FirstPass(txs, id, nk, all);
    FirstPassKeepsCandidates(txs, id, nk, all);
    CountWhereSame(first, AdoptedP(id, nk, all), txs, AdoptedP(id, nk, all));
    CountWhereSame(first, ContestedP(id, nk, all), txs, ContestedP(id, nk, all));
    CountWhereImplies(txs, RehomedP(id, nk, all), LeavesP(id, nk));
  }

  /** The first pass: a loop over the transactions of the edited category. */
  method RunFirstPass(txs: seq<Transaction>, id: int, keywords: seq<string>, cats: seq<Category>)
    returns (rows: seq<Transaction>, moved: nat, uncategorized: nat)
    ensures rows == FirstPass(txs, id, keywords, cats)
    ensures moved == CountWhere(txs, RehomedP(id, keywords, cats))
    ensures uncategorized == CountWhere(txs, LeavesP(id, keywords))
  {
    rows := txs;
    moved, uncategorized := 0, 0;
    for i := 0 to |txs|
      invariant |rows| == |txs|
      invariant forall k :: 0 <= k < i ==> rows[k] == FirstPassRow(txs[k], id, keywords, cats)
      invariant forall k :: i <= k < |txs| ==> rows[k] == txs[k]
      invariant moved == CountWhere(txs[..i], RehomedP(id, keywords, cats))
      invariant uncategorized == CountWhere(txs[..i], LeavesP(id, keywords))
    {
      CountWherePrefix(txs, i, RehomedP(id, keywords, cats));
      CountWherePrefix(txs, i, LeavesP(id, keywords));
      var t := rows[i];
      if t.categoryId == Some(id) && !MatchesKeywords(t.matchField, keywords) {
        var otherMatch := FindMatchingCategory(t.matchField, cats, id);
        if otherMatch.Some? {
          rows := rows[i := t.(categoryId := Some(otherMatch.value.id))];
          moved := moved + 1;
        } else {
          rows := rows[i := t.(categoryId := None)];
        }
        uncategorized := uncategorized + 1;
      }
    }
    assert txs[..|txs|] == txs;
  }

  /** The second pass: a loop over the null transactions. */
  method RunSecondPass(txs: seq<Transaction>, id: int, keywords: seq<string>, cats: seq<Category>)
    returns (rows: seq<Transaction>, adopted: nat, conflicts: nat)
    ensures rows == SecondPass(txs, id, keywords, cats)
    ensures adopted == CountWhere(txs, AdoptedP(id, keywords, cats))
    ensures conflicts == CountWhere(txs, ContestedP(id, keywords, cats))
  {
    rows := txs;
    adopted, conflicts := 0, 0;
    for i := 0 to |txs|
      invariant |rows| == |txs|
      invariant forall k :: 0 <= k < i ==> rows[k] == SecondPassRow(txs[k], id, keywords, cats)
      invariant forall k :: i <= k < |txs| ==> rows[k] == txs[k]
      invariant adopted == CountWhere(txs[..i], AdoptedP(id, keywords, cats))
      invariant conflicts == CountWhere(txs[..i], ContestedP(id, keywords, cats))
    {
      CountWherePrefix(txs, i, AdoptedP(id, keywords, cats));
      CountWherePrefix(txs, i, ContestedP(id, keywords, cats));
      var t := rows[i];
      if t.categoryId.None? && MatchesKeywords(t.matchField, keywords) {
        var otherMatches := CountWhere(cats, Claimant(t.matchField, id));
        if otherMatches == 0 {
          rows := rows[i := t.(categoryId := Some(id))];
          adopted := adopted + 1;
        } else {
          conflicts := conflicts + 1;
        }
      }
    }
    assert txs[..|txs|] == txs;
  }

  /** The tables after `updateCategory`: the category row takes the update; when
      the keywords changed, both passes run over the transactions. */
  method EditTables(cats: seq<Category>, txs: seq<Transaction>, id: int, u: CategoryUpdate) returns (e: CategoryEdit)
    ensures e == EditCategory(cats, txs, id, u)
  {
    e := CategoryEdit(cats, txs, UpdateCategoryResult(0, 0, 0));
    var oldCategory := FindCategory(cats, id);
    if oldCategory.None? {
      return;
    }
    var oldKeywords := oldCategory.value.keywords;
    var newKeywords := if u.keywords.Some? then u.keywords.value else oldKeywords;
    var keywordsChanged := multiset(oldKeywords) != multiset(newKeywords);
    var updated := UpdateRow(cats, id, u);
    e := e.(categories := updated);
    if keywordsChanged {
      var allCategories := updated;
      var first, assignedFirst, uncategorized := RunFirstPass(txs, id, newKeywords, allCategories);
      var second, assignedSecond, conflicts := RunSecondPass(first, id, newKeywords, allCategories);
      e := CategoryEdit(updated, second, UpdateCategoryResult(assignedFirst + assignedSecond, uncategorized, conflicts));
    }
  }

  /** `updateCategory`, on the database: only the category and transaction tables
      change, and both keep their ids. */
  method UpdateCategory(db: Database, id: int, u: CategoryUpdate) returns (result: UpdateCategoryResult)
    requires db.Valid()
    modifies db
    ensures db.Valid()
    ensures CategoryEdit(db.categories, db.transactions, result)
            == EditCategory(old(db.categories), old(db.transactions), id, u)
    ensures db.budgets == old(db.budgets) && db.imports == old(db.imports) && db.settings == old(db.settings)
    ensures db.nextCategoryId == old(db.nextCategoryId) && db.nextTransactionId == old(db.nextTransactionId)
    ensures db.nextBudgetId == old(db.nextBudgetId) && db.nextImportId == old(db.nextImportId)
    ensures db.nextSettingId == old(db.nextSettingId)
  {
    var e := EditTables(db.categories, db.transactions, id, u);
    KeyedSameKeys(db.categories, e.categories, CategoryKey, db.nextCategoryId);
    KeyedSameKeys(db.transactions, e.transactions, TransactionKey, db.nextTransactionId);
    db.categories, db.transactions := e.categories, e.transactions;
    result := e.result;
  }

  // ---------------------------------------------------------------- deleting

  /** `transactions.where("categoryId").equals(id).modify({ categoryId: null })`. */
  function ClearCategory(txs: seq<Transaction>, id: int): (r: seq<Transaction>)
    ensures |r| == |txs|
    ensures forall i :: 0 <= i < |r| ==> r[i].categoryId != Some(id)
    ensures forall i :: 0 <= i < |r| && txs[i].categoryId != Some(id) ==> r[i] == txs[i]
    ensures forall i :: 0 <= i < |r| ==> r[i] == txs[i].(categoryId := r[i].categoryId)
  {
    seq(|txs|, i requires 0 <= i < |txs| => if txs[i].categoryId == Some(id) then txs[i].(categoryId := None) else txs[i])
  }

  function NotInCategory(id: int): Budget -> bool {
    (b: Budget) => b.categoryId != id
  }

  function NotCategory(id: int): Category -> bool {
    (c: Category) => c.id != id
  }

  const SYSTEM_DELETE_ERROR := "Cannot delete system categories"

  /** `deleteCategory(id)`: a system category is refused before anything changes;
      otherwise its transactions become null, its budgets go, and so does the row.
      An unknown id runs the same cascade, which then finds nothing of its own. */
  method DeleteCategory(db: Database, id: int) returns (r: Result<(), string>)
    requires db.Valid()
    modifies db
    ensures db.Valid()
    ensures var c := FindCategory(old(db.categories), id);
      if c.Some? && c.value.isSystem then
        r == Failure(SYSTEM_DELETE_ERROR)
        && db.categories == old(db.categories) && db.transactions == old(db.transactions)
        && db.budgets == old(db.budgets)
      else
        r == Success(())
        && db.transactions == ClearCategory(old(db.transactions), id)
        && db.budgets == Filter(old(db.budgets), NotInCategory(id))
        && db.categories == Filter(old(db.categories), NotCategory(id))
    ensures db.imports == old(db.imports) && db.settings == old(db.settings)
    ensures db.nextCategoryId == old(db.nextCategoryId) && db.nextTransactionId == old(db.nextTransactionId)
    ensures db.nextBudgetId == old(db.nextBudgetId) && db.nextImportId == old(db.nextImportId)
    ensures db.nextSettingId == old(db.nextSettingId)
  {
    var category := FindCategory(db.categories, id);
    if category.Some? && category.value.isSystem {
      return Failure(SYSTEM_DELETE_ERROR);
    }
    var txs := ClearCategory(db.transactions, id);
    var budgets := Filter(db.budgets, NotInCategory(id));
    var cats := Filter(db.categories, NotCategory(id));
    KeyedSameKeys(db.transactions, txs, TransactionKey, db.nextTransactionId);
    KeyedFilter(db.budgets, NotInCategory(id), BudgetKey, db.nextBudgetId);
    KeyedFilter(db.categories, NotCategory(id), CategoryKey, db.nextCategoryId);
    db.transactions, db.budgets, db.categories := txs, budgets, cats;
    r := Success(());
  }

  /** After a delete that goes through, nothing refers to the category any more and
      everything else is still there. */
  lemma DeleteCascade(cats: seq<Category>, txs: seq<Transaction>, budgets: seq<Budget>, id: int)
    ensures forall t :: t in ClearCategory(txs, id) ==> t.categoryId != Some(id)
    ensures forall b :: b in Filter(budgets, NotInCategory(id)) <==> b in budgets && b.categoryId != id
    ensures forall c :: c in Filter(cats, NotCategory(id)) <==> c in cats && c.id != id
    ensures FindCategory(Filter(cats, NotCategory(id)), id).None?
  {
    var cleared := ClearCategory(txs, id);
    FilterMembers(budgets, NotInCategory(id));
    FilterMembers(cats, NotCategory(id));
    forall t | t in cleared ensures t.categoryId != Some(id) {
      var k :| 0 <= k < |cleared| && cleared[k] == t;
    }
  }

  // ---------------------------------------------------------------- reordering

  /** What the reorder reads of each category. */
  function Entries(cats: seq<Category>): (r: seq<Reorder.Entry>)
    ensures |r| == |cats|
    ensures forall i :: 0 <= i < |cats| ==> r[i] == Reorder.Entry(cats[i].id, cats[i].order)
  {
    seq(|cats|, i requires 0 <= i < |cats| => Reorder.Entry(cats[i].id, cats[i].order))
  }

  /** Each category the plan names takes its new order. */
  function ApplyOrders(cats: seq<Category>, orders: map<int, int>): seq<Category> {
    seq(|cats|, i requires 0 <= i < |cats| =>
      if cats[i].id in orders then cats[i].(order := orders[cats[i].id]) else cats[i])
  }

  lemma EntriesDistinct(cats: seq<Category>, next: int)
    requires Keyed(cats, CategoryKey, next)
    ensures Distinct(Entries(cats), Reorder.IdOf)
  {
    var e := Entries(cats);
    KeyedMeans(cats, CategoryKey, next);
    forall i, j | 0 <= i < j < |e| ensures Reorder.IdOf(e[i]) != Reorder.IdOf(e[j]) {
      assert CategoryKey(cats[i]) < CategoryKey(cats[j]);
    }
  }

  /** `reorderCategories(activeId, overId)`. */
  method ReorderCategories(db: Database, activeId: int, overId: int)
    requires db.Valid()
    modifies db
    ensures db.Valid()
    ensures match Reorder.NewOrders(Entries(old(db.categories)), activeId, overId)
      case None => db.categories == old(db.categories)
      case Some(orders) => db.categories == ApplyOrders(old(db.categories), orders)
    ensures db.transactions == old(db.transactions) && db.budgets == old(db.budgets)
    ensures db.imports == old(db.imports) && db.settings == old(db.settings)
    ensures db.nextCategoryId == old(db.nextCategoryId) && db.nextTransactionId == old(db.nextTransactionId)
    ensures db.nextBudgetId == old(db.nextBudgetId) && db.nextImportId == old(db.nextImportId)
    ensures db.nextSettingId == old(db.nextSettingId)
  {
    var plan := Reorder.Plan(Entries(db.categories), activeId, overId);
    if plan.Some? {
      var reordered := ApplyOrders(db.categories, plan.value);
      KeyedSameKeys(db.categories, reordered, CategoryKey, db.nextCategoryId);
      db.categories := reordered;
    }
  }

  /** A reorder that goes through gives the categories the orders 0 .. n-1, one
      each, puts the dragged category at the index the target had, and changes
      nothing but `order`. */
  lemma ReorderCategoriesSpec(cats: seq<Category>, next: int, activeId: int, overId: int)
    requires Keyed(cats, CategoryKey, next)
    requires Reorder.NewOrders(Entries(cats), activeId, overId).Some?
    ensures var r := ApplyOrders(cats, Reorder.NewOrders(Entries(cats), activeId, overId).value);
      && |r| == |cats|
      && (forall i :: 0 <= i < |cats| ==> r[i] == cats[i].(order := r[i].order))
      && (forall i :: 0 <= i < |cats| ==> 0 <= r[i].order < |cats|)
      && (forall i, j :: 0 <= i < j < |cats| ==> r[i].order != r[j].order)
      && (forall i :: 0 <= i < |cats| && cats[i].id == activeId ==>
            r[i].order == Reorder.IndexOfId(SortByKey(Entries(cats), Reorder.SortKey), overId))
  {
    var e := Entries(cats);
    var m := Reorder.NewOrders(e, activeId, overId).value;
    EntriesDistinct(cats, next);
    Reorder.NewOrdersSpec(e, activeId, overId);
    forall i | 0 <= i < |cats| ensures cats[i].id in m {
      assert e[i] in e;
    }
  }

  // ---------------------------------------------------------------- keywords

  /** `keywords.some(k => k.toUpperCase() === upper)`. */
  predicate HasKeywordIgnoringCase(keywords: seq<string>, upper: string) {
    exists k :: k in keywords && ToUpper(k) == upper
  }

  /** The keyword list after `addKeywordToCategory`: unchanged for a blank keyword or
      one already present up to case, else extended by the trimmed keyword. */
  function WithKeyword(keywords: seq<string>, keyword: string): (r: seq<string>)
    ensures r == keywords || r == keywords + [Trim(keyword)]
    ensures r == keywords <==> Trim(keyword) == [] || HasKeywordIgnoringCase(keywords, ToUpper(Trim(keyword)))
  {
    var trimmed := ToUpper(Trim(keyword));
    if trimmed == [] || HasKeywordIgnoringCase(keywords, trimmed) then keywords
    else keywords + [Trim(keyword)]
  }

  /** Adding the same keyword twice is adding it once. */
  lemma WithKeywordIdempotent(keywords: seq<string>, keyword: string)
    ensures WithKeyword(WithKeyword(keywords, keyword), keyword) == WithKeyword(keywords, keyword)
  {
    var r := WithKeyword(keywords, keyword);
    if r != keywords {
      assert Trim(keyword) in r;
    }
  }

  /** No two keywords equal up to case, before and after. */
  ghost predicate NoCaseDuplicates(keywords: seq<string>) {
    forall i, j :: 0 <= i < j < |keywords| ==> ToUpper(keywords[i]) != ToUpper(keywords[j])
  }

  lemma WithKeywordNoDuplicates(keywords: seq<string>, keyword: string)
    requires NoCaseDuplicates(keywords)
    ensures NoCaseDuplicates(WithKeyword(keywords, keyword))
  {
    var r := WithKeyword(keywords, keyword);
    forall i, j | 0 <= i < j < |r| ensures ToUpper(r[i]) != ToUpper(r[j]) {
      if j == |keywords| {
        assert r[i] == keywords[i] && keywords[i] in keywords;
      } else {
        assert r[i] == keywords[i] && r[j] == keywords[j];
      }
    }
  }

  function KeepKeyword(keyword: string): string -> bool {
    k => k != keyword
  }

  /** `removeKeywordFromCategory`: every exact occurrence goes, the rest stay in order. */
  function WithoutKeyword(keywords: seq<string>, keyword: string): (r: seq<string>)
    ensures keyword !in r
    ensures forall k :: k != keyword ==> (k in r <==> k in keywords)
    ensures keyword !in keywords ==> r == keywords
  {
    var r := Filter(keywords, KeepKeyword(keyword));
    FilterMembers(keywords, KeepKeyword(keyword));
    if keyword !in keywords then FilterAll(keywords, KeepKeyword(keyword)); r else r
  }

  function SetKeywords(keywords: seq<string>): CategoryUpdate {
    CategoryUpdate(None, Some(keywords), None, None)
  }

  /** The category table after `addKeywordToCategory(categoryId, keyword)`: a blank
      keyword, or one the category already has in any case, changes nothing. */
  method AddKeywordRows(cats: seq<Category>, categoryId: int, keyword: string) returns (r: seq<Category>)
    requires forall i, j :: 0 <= i < j < |cats| ==> cats[i].id != cats[j].id
    ensures r == match FindCategory(cats, categoryId)
      case None => cats
      case Some(c) => UpdateRow(cats, categoryId, SetKeywords(WithKeyword(c.keywords, keyword)))
    ensures |r| == |cats| && forall i :: 0 <= i < |cats| ==> r[i].id == cats[i].id
  {
    var category := FindCategory(cats, categoryId);
    if category.None? {
      return cats;
    }
    var trimmed := ToUpper(Trim(keyword));
    if trimmed == [] || HasKeywordIgnoringCase(category.value.keywords, trimmed) {
      UpdateSameRow(cats, categoryId, category.value);
      return cats;
    }
    r := UpdateRow(cats, categoryId, SetKeywords(category.value.keywords + [Trim(keyword)]));
  }

  /** `addKeywordToCategory(categoryId, keyword)`, on the database: only the
      category table changes. */
  method AddKeywordToCategory(db: Database, categoryId: int, keyword: string)
    requires db.Valid()
    modifies db
    ensures db.Valid()
    ensures match FindCategory(old(db.categories), categoryId)
      case None => db.categories == old(db.categories)
      case Some(c) => db.categories == UpdateRow(old(db.categories), categoryId, SetKeywords(WithKeyword(c.keywords, keyword)))
    ensures db.transactions == old(db.transactions) && db.budgets == old(db.budgets)
    ensures db.imports == old(db.imports) && db.settings == old(db.settings)
    ensures db.nextCategoryId == old(db.nextCategoryId) && db.nextTransactionId == old(db.nextTransactionId)
    ensures db.nextBudgetId == old(db.nextBudgetId) && db.nextImportId == old(db.nextImportId)
    ensures db.nextSettingId == old(db.nextSettingId)
  {
    KeyedMeans(db.categories, CategoryKey, db.nextCategoryId);
    assert forall i, j :: 0 <= i < j < |db.categories| ==> CategoryKey(db.categories[i]) < CategoryKey(db.categories[j]);
    var updated := AddKeywordRows(db.categories, categoryId, keyword);
    KeyedSameKeys(db.categories, updated, CategoryKey, db.nextCategoryId);
    db.categories := updated;
  }

  /** Writing a category's own keywords back changes nothing. */
  lemma UpdateSameRow(cats: seq<Category>, id: int, c: Category)
    requires FindCategory(cats, id) == Some(c)
    requires forall i, j :: 0 <= i < j < |cats| ==> cats[i].id != cats[j].id
    ensures UpdateRow(cats, id, SetKeywords(c.keywords)) == cats
  {
    var r := UpdateRow(cats, id, SetKeywords(c.keywords));
    forall i | 0 <= i < |cats| ensures r[i] == cats[i] {
      if cats[i].id == id {
        var k :| 0 <= k < |cats| && cats[k] == c;
      }
    }
  }

  /** `removeKeywordFromCategory(categoryId, keyword)`. */
  method RemoveKeywordFromCategory(db: Database, categoryId: int, keyword: string)
    requires db.Valid()
    modifies db
    ensures db.Valid()
    ensures match FindCategory(old(db.categories), categoryId)
      case None => db.categories == old(db.categories)
      case Some(c) => db.categories == UpdateRow(old(db.categories), categoryId, SetKeywords(WithoutKeyword(c.keywords, keyword)))
    ensures db.transactions == old(db.transactions) && db.budgets == old(db.budgets)
    ensures db.imports == old(db.imports) && db.settings == old(db.settings)
    ensures db.nextCategoryId == old(db.nextCategoryId) && db.nextTransactionId == old(db.nextTransactionId)
    ensures db.nextBudgetId == old(db.nextBudgetId) && db.nextImportId == old(db.nextImportId)
    ensures db.nextSettingId == old(db.nextSettingId)
  {
    var category := FindCategory(db.categories, categoryId);
    if category.None? {
      return;
    }
    var updated := UpdateRow(db.categories, categoryId, SetKeywords(WithoutKeyword(category.value.keywords, keyword)));
    KeyedSameKeys(db.categories, updated, CategoryKey, db.nextCategoryId);
    db.categories := updated;
  }
}
