/** Key-value settings in the browser store, one row per key. */
module Settings {
  import opened Wrappers
  import opened SeqUtil
  import opened LocalDb

  /** `getSetting(key)`: the stored value, or undefined (`None`). */
  function GetSetting(settings: seq<Setting>, key: string): (r: Option<string>)
    ensures r.None? <==> forall s :: s in settings ==> s.key != key
    ensures r.Some? ==> exists s :: s in settings && s.key == key && s.value == r.value
  {
    if settings == [] then None
    else if settings[0].key == key then Some(settings[0].value)
    else
      assert forall s :: s in settings ==> s == settings[0] || s in settings[1..];
      GetSetting(settings[1..], key)
  }

  /** The row with that key takes the new value. */
  function SetValue(settings: seq<Setting>, key: string, value: string): (r: seq<Setting>)
    ensures |r| == |settings|
  {
    seq(|settings|, i requires 0 <= i < |settings| => if settings[i].key == key then settings[i].(value := value) else settings[i])
  }

  /** `setSetting(key, value)` on the table: overwrite the row of the key, or add one
      under the next id. */
  function SetSettingTable(settings: seq<Setting>, next: int, key: string, value: string): seq<Setting> {
    if GetSetting(settings, key).Some? then SetValue(settings, key, value)
    else settings + [Setting(next, key, value)]
  }

  /** After `setSetting(k, v)`, `getSetting(k)` is `v` and every other key reads
      as before. */
  lemma SetThenGetSetting(settings: seq<Setting>, next: int, key: string, value: string, other: string)
    requires other != key
    ensures GetSetting(SetSettingTable(settings, next, key, value), key) == Some(value)
    ensures GetSetting(SetSettingTable(settings, next, key, value), other) == GetSetting(settings, other)
  {
    if GetSetting(settings, key).Some? {
      GetAfterSet(settings, key, value, key);
      GetAfterSet(settings, key, value, other);
    } else {
      GetAppended(settings, Setting(next, key, value), key);
      GetAppended(settings, Setting(next, key, value), other);
    }
  }

  /** `setSetting` keeps the keys unique. */
  lemma SetSettingUnique(settings: seq<Setting>, next: int, key: string, value: string)
    requires UniqueKeys(settings)
    ensures UniqueKeys(SetSettingTable(settings, next, key, value))
  {
    var t := SetSettingTable(settings, next, key, value);
    if GetSetting(settings, key).None? {
      forall i, j | 0 <= i < j < |t| ensures t[i].key != t[j].key {
        if j == |settings| {
          assert t[i] in settings;
        }
      }
    }
  }

  /** Reading a key after overwriting one. */
  lemma {:induction false} GetAfterSet(settings: seq<Setting>, key: string, value: string, k: string)
    ensures GetSetting(SetValue(settings, key, value), k)
            == if k == key && GetSetting(settings, key).Some? then Some(value) else GetSetting(settings, k)
  {
    if settings != [] {
      GetAfterSet(settings[1..], key, value, k);
      assert SetValue(settings, key, value)[1..] == SetValue(settings[1..], key, value);
    }
  }

  /** Reading a key after adding a row. */
  lemma {:induction false} GetAppended(settings: seq<Setting>, s: Setting, k: string)
    ensures GetSetting(settings + [s], k)
            == if GetSetting(settings, k).Some? then GetSetting(settings, k) else if s.key == k then Some(s.value) else None
  {
    if settings != [] {
      GetAppended(settings[1..], s, k);
      assert (settings + [s])[1..] == settings[1..] + [s];
    } else {
      assert ([] + [s])[1..] == [];
    }
  }

  /** `setSetting(key, value)` on the table and its id counter: the table becomes
      the overwrite-or-add result, the counter moves on only when a row is added,
      and the table stays keyed with unique keys. */
  method SetSettingRows(settings: seq<Setting>, next: int, key: string, value: string)
    returns (table: seq<Setting>, next': int)
    requires Keyed(settings, SettingKey, next) && UniqueKeys(settings) && 1 <= next
    ensures table == SetSettingTable(settings, next, key, value)
    ensures next' == if GetSetting(settings, key).Some? then next else next + 1
    ensures Keyed(table, SettingKey, next') && UniqueKeys(table) && 1 <= next'
  {
    SetSettingUnique(settings, next, key, value);
    table, next' := settings, next;
    if GetSetting(settings, key).Some? {
      table := SetValue(table, key, value);
      KeyedSameKeys(settings, table, SettingKey, next);
    } else {
      var row := Setting(next, key, value);
      KeyedSnoc(table, row, SettingKey, next);
      table, next' := table + [row], next + 1;
    }
  }

  /** `setSetting(key, value)`. */
  method SetSetting(db: Database, key: string, value: string)
    requires db.Valid()
    modifies db
    ensures db.Valid()
    ensures db.settings == SetSettingTable(old(db.settings), old(db.nextSettingId), key, value)
    ensures db.nextSettingId == if GetSetting(old(db.settings), key).Some? then old(db.nextSettingId) else old(db.nextSettingId) + 1
    ensures db.categories == old(db.categories) && db.transactions == old(db.transactions)
    ensures db.budgets == old(db.budgets) && db.imports == old(db.imports)
    ensures db.nextCategoryId == old(db.nextCategoryId) && db.nextTransactionId == old(db.nextTransactionId)
    ensures db.nextBudgetId == old(db.nextBudgetId) && db.nextImportId == old(db.nextImportId)
  {
    var table, next := SetSettingRows(db.settings, db.nextSettingId, key, value);
    db.settings, db.nextSettingId := table, next;
  }
}
