/** `POST /api/transactions/bulk`: insert a batch of transactions for the signed-in
    user, skipping (by default) every row whose duplicate signature — UTC day,
    description, amount out, amount in — is already among that user's stored rows.
    Rows of one batch are not compared with each other. */
module BulkImport {
  import opened Wrappers
  import opened SeqUtil
  import opened ServerDb

  /** An amount of the request as JavaScript reads it: a field left out is
      `undefined`, a JSON null is `null`, anything else is a number. `??` treats
      the first two alike (both become 0); they differ in a template string
      (`"undefined"`, `"null"`) and in a subtraction (`null` counts as 0,
      `undefined` makes NaN). */
  datatype Amount = Undefined | Null | Number(value: real)

  /** One element of the request's `transactions` array. `date` is `None` when
      `new Date(t.date)` is an invalid date (a missing date; a JSON null is the
      epoch). A missing or null `matchField` or `source` is the empty string: all
      three are falsy alike. `netAmount`, `categoryId` and `importId` are `None`
      when missing or null, which `??` and `||` treat alike; an id 0 is kept as
      `Some(0)`. */
  datatype Incoming = Incoming(
    date: Option<Instant>, description: string, matchField: string,
    amountOut: Amount, amountIn: Amount, netAmount: Option<real>,
    source: string, categoryId: Option<int>, importId: Option<int>)

  /** The counts the route answers with. */
  datatype BulkCounts = BulkCounts(inserted: nat, skipped: nat, total: nat)

  /** The duplicate key `date|description|amountOut|amountIn`. The amounts are
      written as numbers, "undefined" or "null", none of which holds a `|` or
      reads like another, so the text determines the four parts. */
  datatype Signature = Signature(day: Day, description: string, amountOut: Amount, amountIn: Amount)

  /** The signature of a stored row: its amounts are always numbers. */
  function StoredSignature(r: TransactionRow): Signature {
    Signature(r.date.day, r.description, Number(r.amountOut), Number(r.amountIn))
  }

  /** The signatures of the user's stored rows, and of no other user's. */
  function ExistingSignatures(rows: seq<TransactionRow>, userId: int): (r: set<Signature>)
    ensures forall j :: 0 <= j < |rows| && rows[j].userId == userId ==> StoredSignature(rows[j]) in r
    ensures forall s :: s in r ==> exists j :: 0 <= j < |rows| && rows[j].userId == userId && StoredSignature(rows[j]) == s
  {
    var r := set x | x in rows && x.userId == userId :: StoredSignature(x);
    assert forall s :: s in r ==> exists j :: 0 <= j < |rows| && rows[j].userId == userId && StoredSignature(rows[j]) == s by {
      forall s | s in r ensures exists j :: 0 <= j < |rows| && rows[j].userId == userId && StoredSignature(rows[j]) == s {
        var x :| x in rows && x.userId == userId && StoredSignature(x) == s;
        var j :| 0 <= j < |rows| && rows[j] == x;
      }
    }
    r
  }

  /** The signature as the route writes it: the amounts as sent. */
  function SignatureAsWritten(t: Incoming): Signature
    requires t.date.Some?
  {
    Signature(t.date.value.day, t.description, t.amountOut, t.amountIn)
  }

  /** `a ?? 0`. */
  function OrZero(a: Amount): real {
    if a.Number? then a.value else 0.0
  }

  /** The value of an amount in arithmetic: `null` counts as 0 and `undefined`
      is NaN (`None`). */
  function Numeric(a: Amount): Option<real> {
    match a
    case Undefined => None
    case Null => Some(0.0)
    case Number(v) => Some(v)
  }

  /** The signature with the amounts the row is stored with (`?? 0`), so that a
      stored row and the batch row it came from always agree. */
  function IncomingSignature(t: Incoming): Signature
    requires t.date.Some?
  {
    Signature(t.date.value.day, t.description, Number(OrZero(t.amountOut)), Number(OrZero(t.amountIn)))
  }

  /** The test of the route, `skipDuplicates && existingSignatures.has(sig)`, on
      the signature of the amounts as sent. */
  predicate Skipped(t: Incoming, skip: bool, existing: set<Signature>) {
    skip && t.date.Some? && SignatureAsWritten(t) in existing
  }

  /** The evidently intended test: the signature of the amounts as stored. */
  predicate SkippedIntended(t: Incoming, skip: bool, existing: set<Signature>) {
    skip && t.date.Some? && IncomingSignature(t) in existing
  }

  function RouteSkip(skip: bool, existing: set<Signature>): Incoming -> bool {
    t => Skipped(t, skip, existing)
  }

  function IntendedSkip(skip: bool, existing: set<Signature>): Incoming -> bool {
    t => SkippedIntended(t, skip, existing)
  }

  function Not(p: Incoming -> bool): Incoming -> bool {
    t => !p(t)
  }

  /** The two tests agree on every row sent with both amounts as numbers. */
  lemma SkipTestsAgree(t: Incoming, skip: bool, existing: set<Signature>)
    requires t.amountOut.Number? && t.amountIn.Number?
    ensures Skipped(t, skip, existing) == SkippedIntended(t, skip, existing)
  {
  }

  /** A row sent without a number for one of its amounts is never recognised as a
      duplicate, not even of the row it was stored as itself (which holds 0). */
  lemma MissingAmountNeverSkipped(rows: seq<TransactionRow>, userId: int, t: Incoming, id: int)
    requires t.date.Some? && (!t.amountOut.Number? || !t.amountIn.Number?)
    ensures !Skipped(t, true, ExistingSignatures(rows, userId))
    ensures !Skipped(t, true, ExistingSignatures(rows + [NewRow(t, userId, id)], userId))
  {
  }

  /** Every element has a valid date, so building the signatures does not throw. */
  predicate AllDated(batch: seq<Incoming>) {
    forall i | 0 <= i < |batch| :: batch[i].date.Some?
  }

  /** The row inserted for `t`, owned by the user, under the given id. Its stored
      signature is the one the evidently intended test uses, and it equals the
      signature the route checked `t` under only when both amounts were sent as
      numbers. */
  function NewRow(t: Incoming, userId: int, id: int): (r: TransactionRow)
    requires t.date.Some?
    ensures StoredSignature(r) == IncomingSignature(t)
    ensures StoredSignature(r) == SignatureAsWritten(t) <==> t.amountOut.Number? && t.amountIn.Number?
    ensures r.id == id && r.userId == userId && r.date == t.date.value
  {
    TransactionRow(
      id, userId, t.date.value, t.description,
      if t.matchField != "" then t.matchField else t.description,
      OrZero(t.amountOut), OrZero(t.amountIn),
      if t.netAmount.Some? then t.netAmount
      else if Numeric(t.amountIn).Some? && Numeric(t.amountOut).Some? then Some(Numeric(t.amountIn).value - Numeric(t.amountOut).value)
      else None,
      if t.source != "" then t.source else "Manual",
      if t.categoryId == Some(0) then None else t.categoryId,
      if t.importId == Some(0) then None else t.importId)
  }

  /** The defaults of the route fill what is missing or falsy: the match text
      falls back to the description, no falsy source or id is stored, a missing
      or null amount is stored as 0, and `netAmount`, when not sent, is derived
      with a null amount as 0 (NaN when an amount is missing). */
  lemma NewRowDefaults(t: Incoming, userId: int, id: int)
    requires t.date.Some?
    ensures var r := NewRow(t, userId, id);
      && r.matchField == (if t.matchField == "" then r.description else t.matchField)
      && r.source != "" && (t.source != "" ==> r.source == t.source)
      && r.categoryId != Some(0) && (t.categoryId != Some(0) ==> r.categoryId == t.categoryId)
      && r.importId != Some(0) && (t.importId != Some(0) ==> r.importId == t.importId)
      && (t.amountOut.Number? ==> r.amountOut == t.amountOut.value) && (!t.amountOut.Number? ==> r.amountOut == 0.0)
      && (t.amountIn.Number? ==> r.amountIn == t.amountIn.value) && (!t.amountIn.Number? ==> r.amountIn == 0.0)
      && (t.netAmount.Some? ==> r.netAmount == t.netAmount)
      && (t.netAmount.None? && !t.amountOut.Undefined? && !t.amountIn.Undefined? ==> r.netAmount == Some(r.amountIn - r.amountOut))
      && (t.netAmount.None? && (t.amountOut.Undefined? || t.amountIn.Undefined?) ==> r.netAmount.None?)
  {
  }

  /** The rows the batch inserts under the skip test `skipped`, under consecutive
      ids from `next`. */
  function ToInsert(batch: seq<Incoming>, skipped: Incoming -> bool, userId: int, next: int): (r: seq<TransactionRow>)
    requires AllDated(batch)
    ensures |r| <= |batch|
  {
    if batch == [] then []
    else
      var n := |batch| - 1;
      assert AllDated(batch[..n]);
      var init := ToInsert(batch[..n], skipped, userId, next);
      if skipped(batch[n]) then init
      else init + [NewRow(batch[n], userId, next + |init|)]
  }

  /** One more batch row: it is either skipped or added under the next id. */
  lemma ToInsertSnoc(batch: seq<Incoming>, i: nat, skipped: Incoming -> bool, userId: int, next: int)
    requires AllDated(batch) && i < |batch|
    ensures AllDated(batch[..i]) && AllDated(batch[..i + 1])
    ensures var init := ToInsert(batch[..i], skipped, userId, next);
      ToInsert(batch[..i + 1], skipped, userId, next)
      == if skipped(batch[i]) then init else init + [NewRow(batch[i], userId, next + |init|)]
  {
    assert batch[..i + 1][..i] == batch[..i];
  }

  /** What `ToInsert` holds: the inserted rows are the batch rows not skipped, in
      batch order, under the ids `next`, `next + 1`, …, and every row is either
      inserted or skipped. */
  ghost predicate InsertsKept(batch: seq<Incoming>, skipped: Incoming -> bool, userId: int, next: int)
    requires AllDated(batch)
  {
    var r := ToInsert(batch, skipped, userId, next);
    var kept := Filter(batch, Not(skipped));
    |r| == |kept|
    && |r| + CountWhere(batch, skipped) == |batch|
    && forall k :: 0 <= k < |r| ==> kept[k].date.Some? && r[k] == NewRow(kept[k], userId, next + k)
  }

  /** The inserted rows are the batch rows not skipped, in batch order, under the
      ids `next`, `next + 1`, …; every row is either inserted or skipped. This
      holds for the route's test and for the intended one alike. */
  lemma {:induction false} ToInsertRows(batch: seq<Incoming>, skipped: Incoming -> bool, userId: int, next: int)
    requires AllDated(batch)
    ensures var r := ToInsert(batch, skipped, userId, next);
      var kept := Filter(batch, Not(skipped));
      |r| == |kept|
      && |r| + CountWhere(batch, skipped) == |batch|
      && forall k :: 0 <= k < |r| ==> kept[k].date.Some? && r[k] == NewRow(kept[k], userId, next + k)
  {
    InsertsKeptAll(batch, skipped, userId, next);
  }

  lemma {:induction false} InsertsKeptAll(batch: seq<Incoming>, skipped: Incoming -> bool, userId: int, next: int)
    requires AllDated(batch)
    ensures InsertsKept(batch, skipped, userId, next)
  {
    if batch != [] {
      var n := |batch| - 1;
      assert AllDated(batch[..n]);
      InsertsKeptAll(batch[..n], skipped, userId, next);
      InsertsKeptStep(batch, skipped, userId, next);
    }
  }

  /** One more batch row keeps `InsertsKept`. */
  lemma InsertsKeptStep(batch: seq<Incoming>, skipped: Incoming -> bool, userId: int, next: int)
    requires AllDated(batch) && batch != []
    requires AllDated(batch[..|batch| - 1]) && InsertsKept(batch[..|batch| - 1], skipped, userId, next)
    ensures InsertsKept(batch, skipped, userId, next)
  {
    var n := |batch| - 1;
    var p := Not(skipped);
    var init := ToInsert(batch[..n], skipped, userId, next);
    var r := ToInsert(batch, skipped, userId, next);
    var keptInit := Filter(batch[..n], p);
    var kept := Filter(batch, p);
    forall k | 0 <= k < |r| ensures kept[k].date.Some? && r[k] == NewRow(kept[k], userId, next + k) {
      if k < |init| {
        assert r[k] == init[k] && kept[k] == keptInit[k];
      } else {
        assert kept[k] == batch[n];
      }
    }
  }

  /** With `skipDuplicates` off nothing is skipped. */
  lemma NoSkipInsertsAll(batch: seq<Incoming>, existing: set<Signature>, userId: int, next: int)
    requires AllDated(batch)
    ensures |ToInsert(batch, RouteSkip(false, existing), userId, next)| == |batch|
    ensures CountWhere(batch, RouteSkip(false, existing)) == 0
  {
    ToInsertRows(batch, RouteSkip(false, existing), userId, next);
    CountWhereAll(batch, RouteSkip(false, existing));
  }

  /** Rows of one batch are not compared with each other: when no row matches a
      stored one, every row goes in, equal signatures or not. */
  lemma BatchDuplicatesKept(batch: seq<Incoming>, existing: set<Signature>, userId: int, next: int)
    requires AllDated(batch)
    requires forall i :: 0 <= i < |batch| ==> SignatureAsWritten(batch[i]) !in existing
    ensures |ToInsert(batch, RouteSkip(true, existing), userId, next)| == |batch|
  {
    ToInsertRows(batch, RouteSkip(true, existing), userId, next);
    CountWhereAll(batch, RouteSkip(true, existing));
  }

  /** As written, sending again a batch whose every row lacks a number for one of
      its amounts inserts every row again, however the first send went. */
  lemma ResendReinserts(rows: seq<TransactionRow>, batch: seq<Incoming>, userId: int, next: int, next2: int)
    requires AllDated(batch)
    requires forall i :: 0 <= i < |batch| ==> !batch[i].amountOut.Number? || !batch[i].amountIn.Number?
    ensures var first := ToInsert(batch, RouteSkip(true, ExistingSignatures(rows, userId)), userId, next);
      |ToInsert(batch, RouteSkip(true, ExistingSignatures(rows + first, userId)), userId, next2)| == |batch|
  {
    var first := ToInsert(batch, RouteSkip(true, ExistingSignatures(rows, userId)), userId, next);
    var e2 := ExistingSignatures(rows + first, userId);
    forall i | 0 <= i < |batch| ensures SignatureAsWritten(batch[i]) !in e2 {
      assert !SignatureAsWritten(batch[i]).amountOut.Number? || !SignatureAsWritten(batch[i]).amountIn.Number?;
    }
    BatchDuplicatesKept(batch, e2, userId, next2);
  }

  /** With the intended test, sending the same batch a second time, after the
      first one went in, inserts nothing: each row is skipped because of the row
      it was stored as, or of the row it was skipped for. */
  lemma ResendInsertsNothing(rows: seq<TransactionRow>, batch: seq<Incoming>, userId: int, next: int, next2: int)
    requires AllDated(batch)
    ensures var first := ToInsert(batch, IntendedSkip(true, ExistingSignatures(rows, userId)), userId, next);
      ToInsert(batch, IntendedSkip(true, ExistingSignatures(rows + first, userId)), userId, next2) == []
  {
    var e1 := ExistingSignatures(rows, userId);
    var first := ToInsert(batch, IntendedSkip(true, e1), userId, next);
    var all := rows + first;
    var e2 := ExistingSignatures(all, userId);
    ToInsertRows(batch, IntendedSkip(true, e1), userId, next);
    var kept := Filter(batch, Not(IntendedSkip(true, e1)));
    FilterMembers(batch, Not(IntendedSkip(true, e1)));
    forall i | 0 <= i < |batch| ensures SkippedIntended(batch[i], true, e2) {
      var t := batch[i];
      if IncomingSignature(t) in e1 {
        var j :| 0 <= j < |rows| && rows[j].userId == userId && StoredSignature(rows[j]) == IncomingSignature(t);
        assert all[j] == rows[j];
      } else {
        assert t in batch;
        assert t in kept;
        var k :| 0 <= k < |kept| && kept[k] == t;
        assert all[|rows| + k] == first[k];
      }
    }
    ToInsertRows(batch, IntendedSkip(true, e2), userId, next2);
    CountWhereAll(batch, Not(IntendedSkip(true, e2)));
  }

  /** Two skip tests that agree on every batch row insert the same rows. */
  lemma {:induction false} ToInsertAgree(batch: seq<Incoming>, p: Incoming -> bool, q: Incoming -> bool, userId: int, next: int)
    requires AllDated(batch)
    requires forall i :: 0 <= i < |batch| ==> p(batch[i]) == q(batch[i])
    ensures ToInsert(batch, p, userId, next) == ToInsert(batch, q, userId, next)
  {
    if batch != [] {
      var n := |batch| - 1;
      assert AllDated(batch[..n]);
      assert forall i :: 0 <= i < n ==> batch[..n][i] == batch[i];
      ToInsertAgree(batch[..n], p, q, userId, next);
    }
  }

  /** The route as written keeps the re-send property for batches whose amounts are
      all numbers, as the parsers send them: the second send inserts nothing. */
  lemma ResendNumericInsertsNothing(rows: seq<TransactionRow>, batch: seq<Incoming>, userId: int, next: int, next2: int)
    requires AllDated(batch)
    requires forall i :: 0 <= i < |batch| ==> batch[i].amountOut.Number? && batch[i].amountIn.Number?
    ensures var first := ToInsert(batch, RouteSkip(true, ExistingSignatures(rows, userId)), userId, next);
      ToInsert(batch, RouteSkip(true, ExistingSignatures(rows + first, userId)), userId, next2) == []
  {
    var e1 := ExistingSignatures(rows, userId);
    forall i | 0 <= i < |batch| ensures RouteSkip(true, e1)(batch[i]) == IntendedSkip(true, e1)(batch[i]) {
      SkipTestsAgree(batch[i], true, e1);
    }
    ToInsertAgree(batch, RouteSkip(true, e1), IntendedSkip(true, e1), userId, next);
    var first := ToInsert(batch, IntendedSkip(true, e1), userId, next);
    var e2 := ExistingSignatures(rows + first, userId);
    forall i | 0 <= i < |batch| ensures RouteSkip(true, e2)(batch[i]) == IntendedSkip(true, e2)(batch[i]) {
      SkipTestsAgree(batch[i], true, e2);
    }
    ToInsertAgree(batch, RouteSkip(true, e2), IntendedSkip(true, e2), userId, next2);
    ResendInsertsNothing(rows, batch, userId, next, next2);
  }

  /** The duplicate filter of the route: a loop over the batch that counts the rows
      it skips and collects the rows to insert. */
  method PlanInserts(batch: seq<Incoming>, skip: bool, existing: set<Signature>, userId: int, next: int)
    returns (toInsert: seq<TransactionRow>, skipped: nat)
    requires AllDated(batch)
    ensures toInsert == ToInsert(batch, RouteSkip(skip, existing), userId, next)
    ensures skipped == CountWhere(batch, RouteSkip(skip, existing))
  {
    var p := RouteSkip(skip, existing);
    toInsert, skipped := [], 0;
    for i := 0 to |batch|
      invariant AllDated(batch[..i])
      invariant toInsert == ToInsert(batch[..i], p, userId, next)
      invariant skipped == CountWhere(batch[..i], p)
    {
      ToInsertSnoc(batch, i, p, userId, next);
      CountWherePrefix(batch, i, p);
      if p(batch[i]) {
        skipped := skipped + 1;
      } else {
        toInsert := toInsert + [NewRow(batch[i], userId, next + |toInsert|)];
      }
    }
    assert batch[..|batch|] == batch;
  }

  /** The inserted rows take the next ids in turn, so the table stays keyed. */
  lemma ToInsertKeyed(rows: seq<TransactionRow>, batch: seq<Incoming>, skipped: Incoming -> bool, userId: int, next: int)
    requires AllDated(batch) && Keyed(rows, TransactionRowKey, next) && 1 <= next
    ensures var added := ToInsert(batch, skipped, userId, next);
      Keyed(rows + added, TransactionRowKey, next + |added|)
  {
    var added := ToInsert(batch, skipped, userId, next);
    ToInsertRows(batch, skipped, userId, next);
    KeyedAppend(rows, added, TransactionRowKey, next);
  }

  /** What the route checks stored rows against: the user's signatures, or none
      when duplicates are not skipped. */
  function Existing(rows: seq<TransactionRow>, userId: int, skip: bool): set<Signature> {
    if skip then ExistingSignatures(rows, userId) else {}
  }

  /** `skipDuplicates = true`: the default applies only to an absent field;
      otherwise what counts is the truthiness of the value sent. */
  function SkipFlag(skipDuplicates: Option<bool>): (skip: bool)
    ensures skipDuplicates.Some? ==> skip == skipDuplicates.value
    ensures skipDuplicates.None? ==> skip
  {
    skipDuplicates != Some(false)
  }

  const ARRAY_REQUIRED := "transactions array is required"
  const BULK_FAILED := "Failed to bulk insert transactions"

  /** The transaction table and the next id after `POST /api/transactions/bulk`,
      with the answer. `transactions` is `None` when it is not an array;
      `skipDuplicates` is `None` when it is absent, and otherwise the truthiness
      of what was sent (a JSON null is `Some(false)`). */
  method BulkTable(table: seq<TransactionRow>, next: int, userId: int, transactions: Option<seq<Incoming>>, skipDuplicates: Option<bool>)
    returns (r: Result<BulkCounts, HttpError>, rows: seq<TransactionRow>, next': int)
    requires Keyed(table, TransactionRowKey, next) && 1 <= next
    ensures Keyed(rows, TransactionRowKey, next') && next <= next'
    ensures transactions.None? || transactions == Some([]) ==>
      r == Failure(HttpError(400, ARRAY_REQUIRED)) && rows == table && next' == next
    ensures transactions.Some? && transactions.value != [] && !AllDated(transactions.value) ==>
      r == Failure(HttpError(500, BULK_FAILED)) && rows == table && next' == next
    ensures transactions.Some? && transactions.value != [] && AllDated(transactions.value) ==>
      var skip := SkipFlag(skipDuplicates);
      var existing := Existing(table, userId, skip);
      var added := ToInsert(transactions.value, RouteSkip(skip, existing), userId, next);
      rows == table + added && next' == next + |added|
      && r == Success(BulkCounts(|added|, CountWhere(transactions.value, RouteSkip(skip, existing)), |transactions.value|))
  {
    rows, next' := table, next;
    if transactions.None? || transactions.value == [] {
      return Failure(HttpError(400, ARRAY_REQUIRED)), rows, next';
    }
    var batch := transactions.value;
    if !AllDated(batch) {
      return Failure(HttpError(500, BULK_FAILED)), rows, next';
    }
    var skip := SkipFlag(skipDuplicates);
    var existing := Existing(table, userId, skip);
    var added, skipped := PlanInserts(batch, skip, existing, userId, next);
    ToInsertKeyed(table, batch, RouteSkip(skip, existing), userId, next);
    rows, next' := table + added, next + |added|;
    r := Success(BulkCounts(|added|, skipped, |batch|));
  }

  /** `POST /api/transactions/bulk` on the store; the arguments read as in
      `BulkTable`. */
  method PostBulk(store: Store, userId: int, transactions: Option<seq<Incoming>>, skipDuplicates: Option<bool>)
    returns (r: Result<BulkCounts, HttpError>)
    requires store.Valid()
    modifies store
    ensures store.Valid()
    ensures transactions.None? || transactions == Some([]) ==>
      r == Failure(HttpError(400, ARRAY_REQUIRED)) && store.transactions == old(store.transactions)
    ensures transactions.Some? && transactions.value != [] && !AllDated(transactions.value) ==>
      r == Failure(HttpError(500, BULK_FAILED)) && store.transactions == old(store.transactions)
    ensures transactions.Some? && transactions.value != [] && AllDated(transactions.value) ==>
      var skip := SkipFlag(skipDuplicates);
      var existing := Existing(old(store.transactions), userId, skip);
      var rows := ToInsert(transactions.value, RouteSkip(skip, existing), userId, old(store.nextTransactionId));
      store.transactions == old(store.transactions) + rows
      && store.nextTransactionId == old(store.nextTransactionId) + |rows|
      && r == Success(BulkCounts(|rows|, CountWhere(transactions.value, RouteSkip(skip, existing)), |transactions.value|))
    ensures store.categories == old(store.categories) && store.budgets == old(store.budgets)
    ensures store.settings == old(store.settings) && store.accounts == old(store.accounts)
    ensures store.items == old(store.items)
    ensures store.nextCategoryId == old(store.nextCategoryId) && store.nextBudgetId == old(store.nextBudgetId)
    ensures store.nextSettingId == old(store.nextSettingId) && store.nextAccountId == old(store.nextAccountId)
    ensures store.nextItemId == old(store.nextItemId)
  {
    var rows, next;
    r, rows, next := BulkTable(store.transactions, store.nextTransactionId, userId, transactions, skipDuplicates);
    store.transactions, store.nextTransactionId := rows, next;
  }

}
