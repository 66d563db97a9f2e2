/** `POST /api/transactions/recategorize`: run the keyword rules over the signed-in
    user's transactions. A selected row that exactly one matchable category claims
    moves to that category; one claimed by several counts as a conflict and stays;
    one claimed by none stays. */
module Recategorize {
  import opened Wrappers
  import opened SeqUtil
  import opened Keywords
  import opened ServerDb

  /** The counters the route answers with. */
  datatype RecategorizeCounts = RecategorizeCounts(processed: nat, updated: nat, conflicts: nat)

  /** `categories.find(c => c.name === name)` over the user's categories, read in
      table order. */
  function FindByName(cats: seq<CategoryRow>, userId: int, name: string): (r: Option<CategoryRow>)
    ensures r.Some? ==> r.value in cats && r.value.userId == userId && r.value.name == name
    ensures r.None? <==> forall k :: 0 <= k < |cats| && cats[k].userId == userId ==> cats[k].name != name
  {
    if cats == [] then None
    else if cats[0].userId == userId && cats[0].name == name then Some(cats[0])
    else
      var r := FindByName(cats[1..], userId, name);
      assert forall k :: 1 <= k < |cats| ==> cats[k] == cats[1..][k - 1];
      r
  }

  function IdOf(c: Option<CategoryRow>): Option<int> {
    if c.Some? then Some(c.value.id) else None
  }

  /** The mode defaults to "uncategorized" only when it is absent; any other value,
      "all" or not, selects every row outside "Excluded". */
  predicate UncategorizedMode(mode: Option<string>) {
    mode.None? || mode == Some("uncategorized")
  }

  /** The rows the mode selects, given the ids of the user's "Uncategorized" and
      "Excluded" categories (`None` when the user has none). A null category is
      selected in both modes. */
  predicate Selected(t: TransactionRow, userId: int, mode: Option<string>, uncategorized: Option<int>, excluded: Option<int>) {
    t.userId == userId
    && if UncategorizedMode(mode) then t.categoryId.None? || (uncategorized.Some? && t.categoryId == uncategorized)
       else t.categoryId.None? || excluded.None? || t.categoryId != excluded
  }

  /** The categories keyword matching may assign: the user's non-system categories,
      and any named "Income". */
  predicate Matchable(c: CategoryRow, userId: int) {
    c.userId == userId && (!c.isSystem || c.name == "Income")
  }

  function MatchableP(userId: int): CategoryRow -> bool {
    c => Matchable(c, userId)
  }

  function MatchingP(text: string): CategoryRow -> bool {
    (c: CategoryRow) => MatchesKeywords(text, c.keywords)
  }

  /** `matches`: the matchable categories one of whose keywords occurs in the text. */
  function Matches(cats: seq<CategoryRow>, userId: int, text: string): (r: seq<CategoryRow>)
    ensures forall c :: c in r <==> c in cats && Matchable(c, userId) && MatchesKeywords(text, c.keywords)
  {
    FilterMembers(cats, MatchableP(userId));
    FilterMembers(Filter(cats, MatchableP(userId)), MatchingP(text));
    Filter(Filter(cats, MatchableP(userId)), MatchingP(text))
  }

  /** What the loop does with one row: move it when exactly one category matches. */
  function Outcome(t: TransactionRow, cats: seq<CategoryRow>, userId: int): TransactionRow {
    var matches := Matches(cats, userId, t.matchField);
    if |matches| == 1 then t.(categoryId := Some(matches[0].id)) else t
  }

  predicate Single(t: TransactionRow, cats: seq<CategoryRow>, userId: int) {
    |Matches(cats, userId, t.matchField)| == 1
  }

  predicate Conflicting(t: TransactionRow, cats: seq<CategoryRow>, userId: int) {
    |Matches(cats, userId, t.matchField)| > 1
  }

  /** The ids of the user's "Uncategorized" and "Excluded" categories. */
  function UncategorizedId(cats: seq<CategoryRow>, userId: int): Option<int> {
    IdOf(FindByName(cats, userId, "Uncategorized"))
  }

  function ExcludedId(cats: seq<CategoryRow>, userId: int): Option<int> {
    IdOf(FindByName(cats, userId, "Excluded"))
  }

  predicate IsSelected(t: TransactionRow, cats: seq<CategoryRow>, userId: int, mode: Option<string>) {
    Selected(t, userId, mode, UncategorizedId(cats, userId), ExcludedId(cats, userId))
  }

  /** One row after the route. */
  function Step(t: TransactionRow, cats: seq<CategoryRow>, userId: int, mode: Option<string>): TransactionRow {
    if IsSelected(t, cats, userId, mode) then Outcome(t, cats, userId) else t
  }

  /** The table after the route, with the selection fixed from the table as read. */
  function Recategorized(txs: seq<TransactionRow>, cats: seq<CategoryRow>, userId: int, mode: Option<string>): (r: seq<TransactionRow>)
    ensures |r| == |txs|
  {
    seq(|txs|, i requires 0 <= i < |txs| => Step(txs[i], cats, userId, mode))
  }

  function SelectedP(cats: seq<CategoryRow>, userId: int, mode: Option<string>): TransactionRow -> bool {
    t => IsSelected(t, cats, userId, mode)
  }

  function UpdatedP(cats: seq<CategoryRow>, userId: int, mode: Option<string>): TransactionRow -> bool {
    t => IsSelected(t, cats, userId, mode) && Single(t, cats, userId)
  }

  function ConflictP(cats: seq<CategoryRow>, userId: int, mode: Option<string>): TransactionRow -> bool {
    t => IsSelected(t, cats, userId, mode) && Conflicting(t, cats, userId)
  }

  /** The counters: every selected row is processed; a row is updated or in
      conflict, never both, so together they stay within `processed`. */
  function Counts(txs: seq<TransactionRow>, cats: seq<CategoryRow>, userId: int, mode: Option<string>): (r: RecategorizeCounts)
    ensures r.updated + r.conflicts <= r.processed <= |txs|
  {
    CountWhereDisjoint(txs, UpdatedP(cats, userId, mode), ConflictP(cats, userId, mode), SelectedP(cats, userId, mode));
    RecategorizeCounts(
      CountWhere(txs, SelectedP(cats, userId, mode)),
      CountWhere(txs, UpdatedP(cats, userId, mode)),
      CountWhere(txs, ConflictP(cats, userId, mode)))
  }

  /** A row the rules claim once moves to the one category that claims it; that
      category is the user's, matchable, and one of its keywords occurs in the
      row's match text (both lower-cased). */
  lemma SingleMatchAssigns(t: TransactionRow, cats: seq<CategoryRow>, userId: int, j: nat)
    requires j < |cats| && Matchable(cats[j], userId) && MatchesKeywords(t.matchField, cats[j].keywords)
    requires Single(t, cats, userId)
    ensures Outcome(t, cats, userId) == t.(categoryId := Some(cats[j].id))
    ensures exists k :: k in cats[j].keywords && KeywordOccurs(t.matchField, k)
  {
    var matches := Matches(cats, userId, t.matchField);
    assert cats[j] in matches;
    assert matches[0] in matches;
    MatchesKeywordsIff(t.matchField, cats[j].keywords);
  }

  /** A row claimed by no category, or by several, is left as it was. */
  lemma NoSingleMatchKeeps(t: TransactionRow, cats: seq<CategoryRow>, userId: int)
    requires !Single(t, cats, userId)
    ensures Outcome(t, cats, userId) == t
  {
  }

  /** Two matchable categories claiming the row make it a conflict. */
  lemma TwoMatchesConflict(t: TransactionRow, cats: seq<CategoryRow>, userId: int, i: nat, j: nat)
    requires i < j < |cats| && cats[i] != cats[j]
    requires Matchable(cats[i], userId) && MatchesKeywords(t.matchField, cats[i].keywords)
    requires Matchable(cats[j], userId) && MatchesKeywords(t.matchField, cats[j].keywords)
    ensures Conflicting(t, cats, userId)
  {
    var matches := Matches(cats, userId, t.matchField);
    assert cats[i] in matches && cats[j] in matches;
  }

  /** Only the selected rows of the user can change, and of those only the
      category. */
  lemma RecategorizedChanges(txs: seq<TransactionRow>, cats: seq<CategoryRow>, userId: int, mode: Option<string>)
    ensures var r := Recategorized(txs, cats, userId, mode);
      forall i :: 0 <= i < |txs| ==>
        r[i] == txs[i].(categoryId := r[i].categoryId)
        && (!SelectedP(cats, userId, mode)(txs[i]) || !Single(txs[i], cats, userId) ==> r[i] == txs[i])
        && (txs[i].userId != userId ==> r[i] == txs[i])
  {
  }

  /** Running the rules a second time changes nothing: a moved row is selected
      again only to be moved to the same category, and every other row has not
      changed. */
  lemma RecategorizeIdempotent(txs: seq<TransactionRow>, cats: seq<CategoryRow>, userId: int, mode: Option<string>)
    ensures Recategorized(Recategorized(txs, cats, userId, mode), cats, userId, mode) == Recategorized(txs, cats, userId, mode)
  {
    var r := Recategorized(txs, cats, userId, mode);
    var r2 := Recategorized(r, cats, userId, mode);
    forall i | 0 <= i < |txs| ensures r2[i] == r[i] {
      assert r[i].matchField == txs[i].matchField;
    }
  }

  /** The route's loop over the user's rows: the selection of a row is decided
      from the table as it was read, and moving one row does not change what
      matches another, so the rows may be visited in table order. */
  method RunRecategorize(txs: seq<TransactionRow>, cats: seq<CategoryRow>, userId: int, mode: Option<string>)
    returns (rows: seq<TransactionRow>, counts: RecategorizeCounts)
    ensures rows == Recategorized(txs, cats, userId, mode)
    ensures counts == Counts(txs, cats, userId, mode)
  {
    var unc := UncategorizedId(cats, userId);
    var exc := ExcludedId(cats, userId);
    var processed, updated, conflicts := 0, 0, 0;
    rows := txs;
    for i := 0 to |txs|
      invariant |rows| == |txs|
      invariant forall k :: 0 <= k < i ==> rows[k] == Step(txs[k], cats, userId, mode)
      invariant forall k :: i <= k < |txs| ==> rows[k] == txs[k]
      invariant processed == CountWhere(txs[..i], SelectedP(cats, userId, mode))
      invariant updated == CountWhere(txs[..i], UpdatedP(cats, userId, mode))
      invariant conflicts == CountWhere(txs[..i], ConflictP(cats, userId, mode))
    {
      CountWherePrefix(txs, i, SelectedP(cats, userId, mode));
      CountWherePrefix(txs, i, UpdatedP(cats, userId, mode));
      CountWherePrefix(txs, i, ConflictP(cats, userId, mode));
      var t := txs[i];
      if Selected(t, userId, mode, unc, exc) {
        processed := processed + 1;
        var matches := Matches(cats, userId, t.matchField);
        if |matches| == 1 {
          rows := rows[i := t.(categoryId := Some(matches[0].id))];
          updated := updated + 1;
        } else if |matches| > 1 {
          conflicts := conflicts + 1;
        }
      }
    }
    assert txs[..|txs|] == txs;
    assert rows == Recategorized(txs, cats, userId, mode);
    counts := RecategorizeCounts(processed, updated, conflicts);
  }

  /** The route: the body's `mode` is `None` when absent. */
  method PostRecategorize(store: Store, userId: int, mode: Option<string>) returns (r: RecategorizeCounts)
    requires store.Valid()
    modifies store
    ensures store.Valid()
    ensures store.transactions == Recategorized(old(store.transactions), old(store.categories), userId, mode)
    ensures r == Counts(old(store.transactions), old(store.categories), userId, mode)
    ensures store.categories == old(store.categories) && store.budgets == old(store.budgets)
    ensures store.settings == old(store.settings) && store.accounts == old(store.accounts)
    ensures store.items == old(store.items)
    ensures store.nextTransactionId == old(store.nextTransactionId) && store.nextCategoryId == old(store.nextCategoryId)
    ensures store.nextBudgetId == old(store.nextBudgetId) && store.nextSettingId == old(store.nextSettingId)
    ensures store.nextAccountId == old(store.nextAccountId) && store.nextItemId == old(store.nextItemId)
  {
    var rows;
    rows, r := RunRecategorize(store.transactions, store.categories, userId, mode);
    RecategorizedChanges(store.transactions, store.categories, userId, mode);
    KeyedSameKeys(store.transactions, rows, TransactionRowKey, store.nextTransactionId);
    store.transactions := rows;
  }
}
