/** Per-user settings (db/setting.go): a key/value table scoped by user,
    modelled as a map from user id to that user's map. */
module SettingStore {
  import opened Wrappers

  type Store = map<int, map<string, string>>

  /** One user's settings; none stored is the empty map. */
  function Of(store: Store, user: int): map<string, string> {
    if user in store then store[user] else map[]
  }

  /** `GetSetting`: the stored value, or "" when there is none. */
  function Get(store: Store, user: int, key: string): (v: string)
    ensures key in Of(store, user) ==> v == Of(store, user)[key]
    ensures key !in Of(store, user) ==> v == ""
  {
    var m := Of(store, user);
    if key in m then m[key] else ""
  }

  /** `SetSetting`, an insert that updates on a duplicate key. */
  function Set(store: Store, user: int, key: string, value: string): (s: Store)
    ensures Of(s, user) == Of(store, user)[key := value]
    ensures forall u :: u != user ==> Of(s, u) == Of(store, u)
  {
    store[user := Of(store, user)[key := value]]
  }

  /** `DeleteSetting`. */
  function Delete(store: Store, user: int, key: string): (s: Store)
    ensures Of(s, user) == Of(store, user) - {key}
    ensures forall u :: u != user ==> Of(s, u) == Of(store, u)
  {
    store[user := Of(store, user) - {key}]
  }

  /** Reading after writing gives the value written, whether or not the
      key existed; other keys and other users read as before. */
  lemma SetThenGet(store: Store, user: int, key: string, value: string, u: int, k: string)
    ensures Get(Set(store, user, key, value), u, k) == if u == user && k == key then value else Get(store, u, k)
  {
  }

  /** Deleting makes the key read as "" and leaves every other entry. */
  lemma DeleteThenGet(store: Store, user: int, key: string, u: int, k: string)
    ensures Get(Delete(store, user, key), u, k) == if u == user && k == key then "" else Get(store, u, k)
  {
  }

  /** Writing the same value twice is writing it once. */
  lemma SetIdempotent(store: Store, user: int, key: string, value: string)
    ensures Set(Set(store, user, key, value), user, key, value) == Set(store, user, key, value)
  {
    var once := Set(store, user, key, value);
    assert Of(once, user)[key := value] == Of(once, user);
  }

  /** The map the rows of `GetSettings` build, a later row for the same key
      overwriting an earlier one. */
  function MapOfRows(rows: seq<(string, string)>): map<string, string> {
    if |rows| == 0 then map[]
    else MapOfRows(rows[..|rows| - 1])[rows[|rows| - 1].0 := rows[|rows| - 1].1]
  }

  /** `GetSettings` over the rows of the user's query, a row whose `Scan`
      fails being `None`: the map of the rows, or nothing when any row
      fails. */
  method ScanSettings(rows: seq<Option<(string, string)>>) returns (values: Option<map<string, string>>)
    ensures values.None? <==> exists k :: 0 <= k < |rows| && rows[k].None?
    ensures values.Some? ==> values.value == MapOfRows(seq(|rows|, k requires 0 <= k < |rows| => rows[k].value))
  {
    var m: map<string, string> := map[];
    var i := 0;
    ghost var read: seq<(string, string)> := [];
    while i < |rows|
      invariant 0 <= i <= |rows|
      invariant forall k :: 0 <= k < i ==> rows[k].Some?
      invariant |read| == i && forall k :: 0 <= k < i ==> read[k] == rows[k].value
      invariant m == MapOfRows(read)
    {
      if rows[i].None? {
        return None;
      }
      assert (read + [rows[i].value])[..i] == read;
      read := read + [rows[i].value];
      m := m[rows[i].value.0 := rows[i].value.1];
      i := i + 1;
    }
    assert read == seq(|rows|, k requires 0 <= k < |rows| => rows[k].value);
    values := Some(m);
  }

  /** Rows listing each stored entry of the user once build exactly the
      user's map. */
  lemma {:induction false} RowsGiveStore(rows: seq<(string, string)>, m: map<string, string>)
    requires forall k :: 0 <= k < |rows| ==> rows[k].0 in m && m[rows[k].0] == rows[k].1
    requires forall key :: key in m ==> exists k :: 0 <= k < |rows| && rows[k].0 == key
    ensures MapOfRows(rows) == m
  {
    MapOfRowsEntries(rows);
  }

  lemma {:induction false} MapOfRowsEntries(rows: seq<(string, string)>)
    ensures forall key :: key in MapOfRows(rows) <==> exists k :: 0 <= k < |rows| && rows[k].0 == key
    ensures forall key :: key in MapOfRows(rows) ==>
              exists k :: 0 <= k < |rows| && rows[k].0 == key && MapOfRows(rows)[key] == rows[k].1
  {
    if |rows| > 0 {
      var init := rows[..|rows| - 1];
      MapOfRowsEntries(init);
      forall key | key in MapOfRows(rows)
        ensures exists k :: 0 <= k < |rows| && rows[k].0 == key && MapOfRows(rows)[key] == rows[k].1
      {
        if key == rows[|rows| - 1].0 {
          assert rows[|rows| - 1].0 == key;
        } else {
          assert key in MapOfRows(init);
          var k :| 0 <= k < |init| && init[k].0 == key && MapOfRows(init)[key] == init[k].1;
          assert rows[k] == init[k];
        }
      }
      forall key | exists k :: 0 <= k < |rows| && rows[k].0 == key
        ensures key in MapOfRows(rows)
      {
        var k :| 0 <= k < |rows| && rows[k].0 == key;
        if k < |init| {
          assert init[k] == rows[k];
        }
      }
    }
  }
}

/** The settings handlers of api/settings.go. Keys are limited to 32 bytes
    and values to 65535 bytes of re-encoded JSON; a body that does not
    decode is `Err`. The database's write errors are ignored by the
    handlers and are not modelled. */
module SettingsApi {
  import opened Wrappers
  import opened Http
  import opened Text
  import SettingStore

  const MaxKeyBytes := 32
  const MaxValueBytes := 65535

  /** A setting as raw JSON, or every setting of the user. */
  datatype SettingBody = Raw(json: string) | All(values: map<string, string>)

  /** `UpdateSetting`: 400 for a body that does not decode, then 413 for a
      long key, then 413 for a long value; otherwise the value is stored
      and the handler writes nothing, which answers 200. */
  function UpdateSetting(store: SettingStore.Store, user: int, key: string, value: Result<string>)
    : (r: (Reply<SettingBody>, SettingStore.Store))
    ensures value.Err? ==> r == (Status(StatusBadRequest), store)
    ensures value.Ok? && Utf8Length(key) > MaxKeyBytes ==> r == (Status(StatusRequestEntityTooLarge), store)
    ensures value.Ok? && Utf8Length(value.value) > MaxValueBytes ==> r == (Status(StatusRequestEntityTooLarge), store)
    ensures r.1 != store ==> r.0 == Status(StatusOK)
    ensures r.0 == Status(StatusOK) <==>
              value.Ok? && Utf8Length(key) <= MaxKeyBytes && Utf8Length(value.value) <= MaxValueBytes
    ensures r.0 == Status(StatusOK) ==> r.1 == SettingStore.Set(store, user, key, value.value)
  {
    match value
    case Err(_) => (Status(StatusBadRequest), store)
    case Ok(v) =>
      if Utf8Length(key) > MaxKeyBytes then (Status(StatusRequestEntityTooLarge), store)
      else if Utf8Length(v) > MaxValueBytes then (Status(StatusRequestEntityTooLarge), store)
      else (Status(StatusOK), SettingStore.Set(store, user, key, v))
  }

  /** `GetSetting`: 413 for a long key, 404 when the stored value is empty
      or missing, else the raw value. */
  function GetSetting(store: SettingStore.Store, user: int, key: string): (r: Reply<SettingBody>)
    ensures Utf8Length(key) > MaxKeyBytes ==> r == Status(StatusRequestEntityTooLarge)
    ensures Utf8Length(key) <= MaxKeyBytes && SettingStore.Get(store, user, key) == "" ==> r == Status(StatusNotFound)
    ensures r.Json? <==> Utf8Length(key) <= MaxKeyBytes && SettingStore.Get(store, user, key) != ""
    ensures r.Json? ==> r == Json(StatusOK, Raw(SettingStore.Get(store, user, key)))
  {
    if Utf8Length(key) > MaxKeyBytes then Status(StatusRequestEntityTooLarge)
    else
      var v := SettingStore.Get(store, user, key);
      if |v| == 0 then Status(StatusNotFound) else Json(StatusOK, Raw(v))
  }

  /** `DeleteSetting`: 413 for a long key, else the key is removed and the
      answer is 204. */
  function DeleteSetting(store: SettingStore.Store, user: int, key: string)
    : (r: (Reply<SettingBody>, SettingStore.Store))
    ensures Utf8Length(key) > MaxKeyBytes ==> r == (Status(StatusRequestEntityTooLarge), store)
    ensures Utf8Length(key) <= MaxKeyBytes ==> r == (Status(StatusNoContent), SettingStore.Delete(store, user, key))
  {
    if Utf8Length(key) > MaxKeyBytes then (Status(StatusRequestEntityTooLarge), store)
    else (Status(StatusNoContent), SettingStore.Delete(store, user, key))
  }

  /** `GetSettings`: the user's whole map, each value as raw JSON, or 500
      when reading it failed. */
  function GetSettings(read: Option<map<string, string>>): (r: Reply<SettingBody>)
    ensures read.None? ==> r == Status(StatusInternalServerError)
    ensures read.Some? ==> r == Json(StatusOK, All(read.value))
  {
    match read
    case None => Status(StatusInternalServerError)
    case Some(m) => Json(StatusOK, All(m))
  }

  /** A stored value reads back, for a short enough key and value. */
  lemma UpdateThenGet(store: SettingStore.Store, user: int, key: string, v: string)
    requires Utf8Length(key) <= MaxKeyBytes && 0 < Utf8Length(v) <= MaxValueBytes
    ensures GetSetting(UpdateSetting(store, user, key, Ok(v)).1, user, key) == Json(StatusOK, Raw(v))
  {
  }

  /** A deleted key reads as missing. */
  lemma DeleteThenGetMissing(store: SettingStore.Store, user: int, key: string)
    requires Utf8Length(key) <= MaxKeyBytes
    ensures GetSetting(DeleteSetting(store, user, key).1, user, key) == Status(StatusNotFound)
  {
  }

  /** `AccessSetting`: GET, PUT and DELETE go to their handlers; any other
      method panics (`None`). */
  function AccessSetting(m: Method, store: SettingStore.Store, user: int, key: string, value: Result<string>)
    : (r: Option<(Reply<SettingBody>, SettingStore.Store)>)
    ensures r.None? <==> m !in {GET, PUT, DELETE}
    ensures m == GET ==> r == Some((GetSetting(store, user, key), store))
    ensures m == PUT ==> r == Some(UpdateSetting(store, user, key, value))
    ensures m == DELETE ==> r == Some(DeleteSetting(store, user, key))
  {
    match RouteOf(m)
    case ToGet => Some((GetSetting(store, user, key), store))
    case ToEdit => Some(UpdateSetting(store, user, key, value))
    case ToDelete => Some(DeleteSetting(store, user, key))
    case Panic => None
  }
}
