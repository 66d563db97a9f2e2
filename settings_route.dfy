/** `GET` and `PUT /api/settings`: a user's key-value settings on the server. `GET`
    answers one key's value, or every setting of the user as an object; `PUT`
    stores `String(value)` under the key, overwriting the user's row for it or
    adding one. */
module SettingsRoute {
  import opened Wrappers
  import opened SeqUtil
  import opened Text
  import opened ServerDb

  const KEY_VALUE_REQUIRED := "Key and value are required"

  /** The JSON values a client may send as `value` that the model covers. */
  datatype JsonValue = JsonNull | JsonBool(b: bool) | JsonInt(n: int) | JsonString(s: string)

  /** `String(value)`. */
  function Stringify(v: JsonValue): (r: string)
    ensures v.JsonString? ==> r == v.s
    ensures v == JsonNull ==> r == "null"
    ensures v.JsonBool? ==> r == (if v.b then "true" else "false")
    ensures v.JsonInt? ==> r != [] && (r[0] == '-' <==> v.n < 0)
  {
    match v
    case JsonNull => "null"
    case JsonBool(b) => if b then "true" else "false"
    case JsonInt(n) => if n < 0 then "-" + NatToString(-n) else NatToString(n)
    case JsonString(s) => s
  }

  /** A stored integer reads back as itself: `parseInt(String(n)) == n`. */
  lemma StringifyIntRoundTrip(n: int)
    ensures ParseIntPrefix(Stringify(JsonInt(n))) == Some(n)
  {
    if n < 0 {
      var s := Stringify(JsonInt(n));
      assert s[1..] == NatToString(-n);
      ParseNegative(s);
    } else {
      ParseIntOfDigits(NatToString(n));
    }
  }

  /** `parseInt` of a minus sign followed by digits. */
  lemma ParseNegative(s: string)
    requires |s| >= 2 && s[0] == '-' && AllDigits(s[1..])
    ensures ParseIntPrefix(s) == Some(-(DigitsValue(s[1..]) as int))
  {
    var d := s[1..];
    assert TrimStart(s) == s;
    SpanAt(d, |d|, IsDigit);
    assert d[..|d|] == d;
  }

  /** The row a key lookup of the user finds: `where key = … and userId = … limit 1`. */
  function OwnedKeyP(userId: int, key: string): SettingRow -> bool {
    (s: SettingRow) => s.userId == userId && s.key == key
  }

  /** The user's value under the key, or `None` (`data: null`). */
  function UserValue(settings: seq<SettingRow>, userId: int, key: string): (r: Option<string>)
    ensures r.None? <==> forall k :: 0 <= k < |settings| ==> !(settings[k].userId == userId && settings[k].key == key)
    ensures r.Some? ==> exists k :: 0 <= k < |settings| && settings[k] == SettingRow(settings[k].id, userId, key, r.value)
  {
    FindIndexIs(settings, OwnedKeyP(userId, key));
    var k := FindIndex(settings, OwnedKeyP(userId, key));
    if k == -1 then None else Some(settings[k].value)
  }

  /** `Object.fromEntries` over the user's rows in table order: a later row of a
      key overwrites an earlier one. */
  function UserMap(settings: seq<SettingRow>, userId: int): (r: map<string, string>)
    ensures forall key :: key in r <==> exists k :: 0 <= k < |settings| && settings[k].userId == userId && settings[k].key == key
  {
    if settings == [] then map[]
    else
      var last := settings[|settings| - 1];
      var m := UserMap(settings[..|settings| - 1], userId);
      assert forall k :: 0 <= k < |settings| - 1 ==> settings[..|settings| - 1][k] == settings[k];
      if last.userId == userId then m[last.key := last.value] else m
  }

  /** Where a user's keys are unique, the whole map and the one-key lookup agree:
      every key of the map reads the same value on its own, and no other key has
      one. */
  lemma {:induction false} UserMapAgrees(settings: seq<SettingRow>, userId: int, key: string)
    requires UniqueUserKeys(settings)
    ensures key in UserMap(settings, userId) <==> UserValue(settings, userId, key).Some?
    ensures key in UserMap(settings, userId) ==> UserMap(settings, userId)[key] == UserValue(settings, userId, key).value
  {
    if settings != [] {
      var n := |settings| - 1;
      var init := settings[..n];
      var last := settings[n];
      assert forall k :: 0 <= k < n ==> init[k] == settings[k];
      UserMapAgrees(init, userId, key);
      if last.userId == userId && last.key == key {
        assert UserValue(init, userId, key).None?;
      } else if UserValue(init, userId, key).Some? {
        assert settings == init + [last];
        FindIndexPrefix(init, last, OwnedKeyP(userId, key));
      } else {
        assert settings == init + [last];
        FindIndexPrefix(init, last, OwnedKeyP(userId, key));
      }
    }
  }

  /** A search that fails on a prefix looks at the next element; one that succeeds
      on the prefix is unchanged by it. */
  lemma FindIndexPrefix<T>(init: seq<T>, x: T, p: T -> bool)
    ensures FindIndex(init + [x], p) == if FindIndex(init, p) >= 0 then FindIndex(init, p) else if p(x) then |init| else -1
  {
    var s := init + [x];
    FindIndexIs(s, p);
    FindIndexIs(init, p);
    assert forall k :: 0 <= k < |init| ==> s[k] == init[k];
    assert s[|init|] == x;
  }

  /** What `GET /api/settings` answers. */
  datatype Answer = One(value: Option<string>) | All(values: map<string, string>)

  /** `GET /api/settings?key=…`: a non-empty key asks for that one value, no key or
      an empty one for the whole map. */
  function GetSettings(settings: seq<SettingRow>, userId: int, key: Option<string>): (r: Answer)
    ensures key.Some? && key.value != "" ==> r == One(UserValue(settings, userId, key.value))
    ensures key.None? || key == Some("") ==> r == All(UserMap(settings, userId))
  {
    if key.Some? && key.value != "" then One(UserValue(settings, userId, key.value))
    else All(UserMap(settings, userId))
  }

  /** The table after `PUT`, and the next id: every row of the user under the key
      takes the text, or, when there is none, a row is added under the next id. */
  function PutTable(settings: seq<SettingRow>, next: int, userId: int, key: string, text: string)
    : (r: (seq<SettingRow>, int))
    ensures UserValue(settings, userId, key).Some? ==> |r.0| == |settings| && r.1 == next
    ensures UserValue(settings, userId, key).None? ==> r.0 == settings + [SettingRow(next, userId, key, text)] && r.1 == next + 1
  {
    if UserValue(settings, userId, key).Some? then (Overwrite(settings, userId, key, text), next)
    else (settings + [SettingRow(next, userId, key, text)], next + 1)
  }

  /** `update … set value = text where userId = … and key = …`. */
  function Overwrite(settings: seq<SettingRow>, userId: int, key: string, text: string): (r: seq<SettingRow>)
    ensures |r| == |settings|
    ensures forall i :: 0 <= i < |r| ==>
      r[i] == if settings[i].userId == userId && settings[i].key == key then settings[i].(value := text) else settings[i]
  {
    seq(|settings|, i requires 0 <= i < |settings| =>
      if settings[i].userId == userId && settings[i].key == key then settings[i].(value := text) else settings[i])
  }

  /** After `PUT` the key reads the stored text for that user; every other key,
      and every other user's key, reads as before. */
  lemma PutThenGet(settings: seq<SettingRow>, next: int, userId: int, key: string, text: string, u: int, k: string)
    ensures UserValue(PutTable(settings, next, userId, key, text).0, userId, key) == Some(text)
    ensures u != userId || k != key ==>
      UserValue(PutTable(settings, next, userId, key, text).0, u, k) == UserValue(settings, u, k)
  {
    var t := PutTable(settings, next, userId, key, text).0;
    if UserValue(settings, userId, key).Some? {
      var i := FindIndex(settings, OwnedKeyP(userId, key));
      assert FindIndex(t, OwnedKeyP(userId, key)) == i by {
        assert forall j :: 0 <= j < |t| ==> (OwnedKeyP(userId, key)(t[j]) <==> OwnedKeyP(userId, key)(settings[j]));
        FindIndexIs(settings, OwnedKeyP(userId, key));
        FindIndexAt(t, OwnedKeyP(userId, key), i);
      }
      if u != userId || k != key {
        assert forall j :: 0 <= j < |t| ==> (OwnedKeyP(u, k)(t[j]) <==> OwnedKeyP(u, k)(settings[j]));
        var a := FindIndex(settings, OwnedKeyP(u, k));
        FindIndexIs(settings, OwnedKeyP(u, k));
        FindIndexIs(t, OwnedKeyP(u, k));
        if a >= 0 {
          FindIndexAt(t, OwnedKeyP(u, k), a);
        }
      }
    } else {
      FindIndexPrefix(settings, SettingRow(next, userId, key, text), OwnedKeyP(userId, key));
      FindIndexPrefix(settings, SettingRow(next, userId, key, text), OwnedKeyP(u, k));
    }
  }

  /** `PUT` keeps every user's keys unique and the table keyed. */
  lemma PutKeepsInvariants(settings: seq<SettingRow>, next: int, userId: int, key: string, text: string)
    requires UniqueUserKeys(settings) && Keyed(settings, SettingRowKey, next) && 1 <= next
    ensures UniqueUserKeys(PutTable(settings, next, userId, key, text).0)
    ensures Keyed(PutTable(settings, next, userId, key, text).0, SettingRowKey, PutTable(settings, next, userId, key, text).1)
  {
    if UserValue(settings, userId, key).Some? {
      OverwriteKeeps(settings, next, userId, key, text);
    } else {
      AddKeeps(settings, next, userId, key, text);
    }
  }

  lemma OverwriteKeeps(settings: seq<SettingRow>, next: int, userId: int, key: string, text: string)
    requires UniqueUserKeys(settings) && Keyed(settings, SettingRowKey, next)
    ensures UniqueUserKeys(Overwrite(settings, userId, key, text))
    ensures Keyed(Overwrite(settings, userId, key, text), SettingRowKey, next)
  {
    var t := Overwrite(settings, userId, key, text);
    assert forall i :: 0 <= i < |t| ==>
      t[i].id == settings[i].id && t[i].userId == settings[i].userId && t[i].key == settings[i].key;
    KeyedSameKeys(settings, t, SettingRowKey, next);
  }

  lemma AddKeeps(settings: seq<SettingRow>, next: int, userId: int, key: string, text: string)
    requires UniqueUserKeys(settings) && Keyed(settings, SettingRowKey, next) && 1 <= next
    requires forall k :: 0 <= k < |settings| ==> !(settings[k].userId == userId && settings[k].key == key)
    ensures UniqueUserKeys(settings + [SettingRow(next, userId, key, text)])
    ensures Keyed(settings + [SettingRow(next, userId, key, text)], SettingRowKey, next + 1)
  {
    var t := settings + [SettingRow(next, userId, key, text)];
    KeyedSnoc(settings, SettingRow(next, userId, key, text), SettingRowKey, next);
    forall i, j | 0 <= i < j < |t| && t[i].userId == t[j].userId ensures t[i].key != t[j].key {
      assert t[i] == settings[i];
      if j < |settings| {
        assert t[j] == settings[j];
      }
    }
  }

  /** `PUT /api/settings` with body `{ key, value }`; the answer echoes both. A
      missing or empty key, or a missing value, is refused. */
  method PutSetting(store: Store, userId: int, key: Option<string>, value: Option<JsonValue>)
    returns (r: Result<(string, JsonValue), HttpError>)
    requires store.Valid()
    modifies store
    ensures store.Valid()
    ensures key.None? || key == Some("") || value.None? ==>
      r == Failure(HttpError(400, KEY_VALUE_REQUIRED))
      && store.settings == old(store.settings) && store.nextSettingId == old(store.nextSettingId)
    ensures key.Some? && key != Some("") && value.Some? ==>
      r == Success((key.value, value.value))
      && (store.settings, store.nextSettingId)
         == PutTable(old(store.settings), old(store.nextSettingId), userId, key.value, Stringify(value.value))
    ensures store.transactions == old(store.transactions) && store.categories == old(store.categories)
    ensures store.budgets == old(store.budgets) && store.accounts == old(store.accounts)
    ensures store.items == old(store.items)
    ensures store.nextTransactionId == old(store.nextTransactionId) && store.nextCategoryId == old(store.nextCategoryId)
    ensures store.nextBudgetId == old(store.nextBudgetId) && store.nextAccountId == old(store.nextAccountId)
    ensures store.nextItemId == old(store.nextItemId)
  {
    if key.None? || key.value == "" || value.None? {
      return Failure(HttpError(400, KEY_VALUE_REQUIRED));
    }
    var text := Stringify(value.value);
    var existing := UserValue(store.settings, userId, key.value);
    var table, next := store.settings, store.nextSettingId;
    if existing.Some? {
      table := Overwrite(table, userId, key.value, text);
    } else {
      table, next := table + [SettingRow(next, userId, key.value, text)], next + 1;
    }
    assert (table, next) == PutTable(store.settings, store.nextSettingId, userId, key.value, text);
    PutKeepsInvariants(store.settings, store.nextSettingId, userId, key.value, text);
    store.settings, store.nextSettingId := table, next;
    r := Success((key.value, value.value));
  }
}
