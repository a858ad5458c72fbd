/** The browser-side settings object (frontend/src/settings.js): a proxy
    over the settings instance that reads and writes the user's settings
    as properties, mirrors every write to local storage as JSON and sends
    it to `api/setting/<key>`. Values are JSON values; numbers are
    integers here. */
module ClientSettings {
  import opened Wrappers
  import Text

  /** A JavaScript value as far as settings hold them. */
  datatype JsVal = Undefined | Null | Bool(b: bool) | Num(n: int) | Str(s: string) | Obj(fields: map<string, JsVal>)

  /** JavaScript truthiness. */
  predicate Truthy(v: JsVal) {
    match v
    case Undefined => false
    case Null => false
    case Bool(b) => b
    case Num(n) => n != 0
    case Str(s) => s != ""
    case Obj(_) => true
  }

  /** `===`: primitives by value; an object is never equal to a value
      built elsewhere. */
  predicate StrictEq(a: JsVal, b: JsVal) {
    a == b && !a.Obj?
  }

  /** The names `key in target` finds on the settings instance: its own
      fields and bound methods, its class's prototype, and
      `Object.prototype`. */
  const InstanceNames: set<string> := {"app", "headers", "data", "update", "set", "delete", "toJSON", "proxy"}
  const ObjectPrototypeNames: set<string> :=
    {"constructor", "hasOwnProperty", "isPrototypeOf", "propertyIsEnumerable", "toString", "toLocaleString",
     "valueOf", "__proto__", "__defineGetter__", "__defineSetter__", "__lookupGetter__", "__lookupSetter__"}
  const Reserved: set<string> := InstanceNames + ObjectPrototypeNames

  /** The settings the views write are ordinary keys. */
  lemma ViewKeysFree()
    ensures "scrollbar" !in Reserved && "extension" !in Reserved
  {
    assert "scrollbar" !in InstanceNames && "scrollbar" !in ObjectPrototypeNames;
    assert "extension" !in InstanceNames && "extension" !in ObjectPrototypeNames;
  }

  /** `JSON.stringify` followed by `JSON.parse`: object fields holding
      `undefined` disappear, at every depth. */
  function Json(v: JsVal): (r: JsVal)
    ensures r.Obj? <==> v.Obj?
    ensures r != Undefined || v == Undefined
    decreases v
  {
    match v
    case Obj(fields) => Obj(map k | k in fields && fields[k] != Undefined :: Json(fields[k]))
    case _ => v
  }

  /** An object's fields through the JSON round trip. */
  function JsonFields(fields: map<string, JsVal>): (r: map<string, JsVal>)
    ensures forall k :: k in r <==> k in fields && fields[k] != Undefined
  {
    Json(Obj(fields)).fields
  }

  /** A value with no `undefined` anywhere inside it. */
  predicate Plain(v: JsVal) {
    match v
    case Undefined => false
    case Obj(fields) => forall k :: k in fields ==> Plain(fields[k])
    case _ => true
  }

  /** A plain value survives the JSON round trip. */
  lemma {:induction false} JsonPlain(v: JsVal)
    requires Plain(v)
    ensures Json(v) == v
    decreases v
  {
    match v
    case Obj(fields) =>
      forall k | k in fields
        ensures Json(fields[k]) == fields[k]
      {
        JsonPlain(fields[k]);
      }
      assert JsonFields(fields) == fields;
    case _ =>
  }

  /** The settings instance: its data, and the snapshot last written to
      local storage. */
  datatype Settings = Settings(data: map<string, JsVal>, stored: map<string, JsVal>)

  /** A request to the settings API: the value to store under a key, or a
      key to delete. */
  datatype Request = Put(path: string, body: JsVal) | Remove(path: string)

  function SettingPath(key: string): string {
    "api/setting/" + key
  }

  /** The constructor: the data from local storage, or `{}` when there is
      none or it is `null`. */
  function Load(stored: Option<map<string, JsVal>>): (s: Settings)
    ensures stored.Some? ==> s.data == stored.value
    ensures stored.None? ==> s.data == map[]
    ensures s.stored == s.data
  {
    var data := stored.GetOr(map[]);
    Settings(data, data)
  }

  /** A property read through the proxy. */
  datatype Lookup = Member(name: string) | Value(v: JsVal)

  /** The proxy's `get`: an instance member first, then an own data key,
      else `undefined`. */
  function Get(s: Settings, key: string): (r: Lookup)
    ensures r.Member? <==> key in Reserved
    ensures r.Member? ==> r.name == key
    ensures key !in Reserved && key in s.data ==> r == Value(s.data[key])
    ensures key !in Reserved && key !in s.data ==> r == Value(Undefined)
  {
    if key in Reserved then Member(key)
    else if key in s.data then Value(s.data[key])
    else Value(Undefined)
  }

  /** The value of a setting that is not an instance member, as the views
      read it. */
  function Setting(s: Settings, key: string): JsVal {
    if key in s.data then s.data[key] else Undefined
  }

  /** The proxy's `has`: `in` on the data object, which also finds
      `Object.prototype`'s names. */
  function Has(s: Settings, key: string): (r: bool)
    ensures r <==> key in s.data || key in ObjectPrototypeNames
  {
    key in s.data || key in ObjectPrototypeNames
  }

  /** The proxy's `ownKeys`: the data's keys. */
  function OwnKeys(s: Settings): (r: set<string>)
    ensures forall k :: k in r <==> k in s.data
  {
    s.data.Keys
  }

  /** `set`: the key takes the value, the whole data goes to local storage
      and a PUT of the value goes to the server. */
  function SetKey(s: Settings, key: string, value: JsVal): (r: (Settings, Request))
    ensures r.0.data == s.data[key := value]
    ensures r.0.stored == JsonFields(r.0.data)
    ensures r.1 == Put(SettingPath(key), value)
  {
    var data := s.data[key := value];
    (Settings(data, JsonFields(data)), Put(SettingPath(key), value))
  }

  /** `delete`: the key goes, local storage follows, a DELETE goes to the
      server. */
  function DeleteKey(s: Settings, key: string): (r: (Settings, Request))
    ensures r.0.data == s.data - {key}
    ensures r.0.stored == JsonFields(r.0.data)
    ensures r.1 == Remove(SettingPath(key))
  {
    var data := s.data - {key};
    (Settings(data, JsonFields(data)), Remove(SettingPath(key)))
  }

  /** The proxy's `set` trap: refused (false) for an instance member,
      otherwise `set`. */
  function ProxySet(s: Settings, key: string, value: JsVal): (r: (bool, Settings, Option<Request>))
    ensures key in Reserved ==> r == (false, s, None)
    ensures key !in Reserved ==> r.0 && r.1 == SetKey(s, key, value).0 && r.2 == Some(SetKey(s, key, value).1)
  {
    if key in Reserved then (false, s, None)
    else
      var (t, req) := SetKey(s, key, value);
      (true, t, Some(req))
  }

  /** The proxy's `deleteProperty` trap: refused for an instance member,
      otherwise `delete`. */
  function ProxyDelete(s: Settings, key: string): (r: (bool, Settings, Option<Request>))
    ensures key in Reserved ==> r == (false, s, None)
    ensures key !in Reserved ==> r.0 && r.1 == DeleteKey(s, key).0 && r.2 == Some(DeleteKey(s, key).1)
  {
    if key in Reserved then (false, s, None)
    else
      var (t, req) := DeleteKey(s, key);
      (true, t, Some(req))
  }

  /** Reading through the proxy after writing through it: the written
      value for that key, every other key as before; an instance member
      cannot be overwritten. */
  lemma SetThenGet(s: Settings, key: string, value: JsVal, k: string)
    ensures Get(ProxySet(s, key, value).1, k) ==
              if k == key && key !in Reserved then Value(value) else Get(s, k)
  {
  }

  /** After a delete through the proxy the key reads as `undefined` and is
      no longer an own key; other keys read as before. */
  lemma DeleteThenGet(s: Settings, key: string, k: string)
    requires key !in Reserved
    ensures Get(ProxyDelete(s, key).1, k) == if k == key then Value(Undefined) else Get(s, k)
    ensures key !in OwnKeys(ProxyDelete(s, key).1)
  {
  }

  /** For a key that is not an instance member, `in`, `get` and
      `Object.keys` agree, except on `Object.prototype`'s names, which
      `in` finds even where `get` gives the member. */
  lemma HasAgreesWithGet(s: Settings, key: string)
    requires key !in Reserved
    ensures Has(s, key) <==> key in OwnKeys(s)
    ensures Has(s, key) ==> Get(s, key) == Value(s.data[key])
  {
  }

  /** Reloading the page restores what was written, when no value holds
      `undefined`. */
  lemma {:induction false} ReloadRestores(s: Settings, key: string, value: JsVal)
    requires forall k :: k in s.data ==> Plain(s.data[k])
    requires Plain(value)
    ensures Load(Some(SetKey(s, key, value).0.stored)).data == SetKey(s, key, value).0.data
  {
    var data := s.data[key := value];
    forall k | k in data
      ensures Json(data[k]) == data[k]
    {
      JsonPlain(data[k]);
    }
    assert JsonFields(data) == data;
  }

  /** `update`: a response outside 200-299 throws with its status; a
      `null` body changes nothing; an object body replaces the data and
      local storage. */
  function Update(s: Settings, status: int, body: Option<map<string, JsVal>>): (r: Result<Settings>)
    ensures r.Err? <==> !(200 <= status <= 299)
    ensures r.Err? ==> r.error == "Failed to update settings: " + Text.IntToDecimal(status)
    ensures r.Ok? && body.None? ==> r.value == s
    ensures r.Ok? && body.Some? ==> r.value.data == body.value && r.value.stored == JsonFields(body.value)
  {
    if !(200 <= status <= 299) then Err("Failed to update settings: " + Text.IntToDecimal(status))
    else match body
      case None => Ok(s)
      case Some(m) => Ok(Settings(m, JsonFields(m)))
  }
}

/** The settings views: the extension section
    (frontend/src/components/settings/extension.js) and the website section
    (frontend/src/components/settings/website.js). Each button group marks
    one button "active". */
module SettingsViews {
  import opened Wrappers
  import opened ClientSettings

  /** The extension view's constructor: a falsy `extension` setting is set
      to `{}` (which is written and sent like any setting). */
  function OpenExtension(s: Settings): (r: (Settings, Option<Request>))
    ensures Truthy(Setting(s, "extension")) ==> r == (s, None)
    ensures !Truthy(Setting(s, "extension")) ==> r.0 == SetKey(s, "extension", Obj(map[])).0 && r.1 == Some(SetKey(s, "extension", Obj(map[])).1)
    ensures Truthy(Setting(r.0, "extension"))
  {
    if Truthy(Setting(s, "extension")) then (s, None)
    else
      ViewKeysFree();
      var (_, t, req) := ProxySet(s, "extension", Obj(map[]));
      (t, req)
  }

  /** A field of the extension object; a primitive has none. */
  function Field(ext: JsVal, key: string): JsVal {
    if ext.Obj? && key in ext.fields then ext.fields[key] else Undefined
  }

  /** The extension view's `set`: the field is written into the extension
      object and the whole object is stored as the `extension` setting. A
      primitive cannot take a field and throws (`None`). */
  function SetExtension(s: Settings, key: string, value: JsVal): (r: Option<(Settings, Request)>)
    ensures r.Some? <==> Setting(s, "extension").Obj?
    ensures r.Some? ==> r.value == SetKey(s, "extension", Obj(Setting(s, "extension").fields[key := value]))
    ensures r.Some? ==> Field(Setting(r.value.0, "extension"), key) == value
  {
    match Setting(s, "extension")
    case Obj(fields) => Some(SetKey(s, "extension", Obj(fields[key := value])))
    case _ => None
  }

  /** `getClass`: the default button is active while the field is
      `undefined`; any button is active when the field is its value. */
  predicate Active(ext: JsVal, key: string, value: JsVal, isDefault: bool)
    requires Truthy(ext)
  {
    (isDefault && Field(ext, key) == Undefined) || StrictEq(Field(ext, key), value)
  }

  /** The "Button action" group: never both buttons, and one of them
      exactly when the field is unset, "save" or "popup". */
  lemma ButtonActionOneActive(ext: JsVal)
    requires Truthy(ext)
    ensures !(Active(ext, "buttonAction", Str("save"), false) && Active(ext, "buttonAction", Str("popup"), true))
    ensures Active(ext, "buttonAction", Str("save"), false) || Active(ext, "buttonAction", Str("popup"), true)
            <==> Field(ext, "buttonAction") in {Undefined, Str("save"), Str("popup")}
  {
  }

  /** The "Autofill title" group: never both buttons, and one of them
      exactly when the field is unset or a boolean. */
  lemma AutofillOneActive(ext: JsVal)
    requires Truthy(ext)
    ensures !(Active(ext, "autofillTitle", Bool(false), false) && Active(ext, "autofillTitle", Bool(true), true))
    ensures Active(ext, "autofillTitle", Bool(false), false) || Active(ext, "autofillTitle", Bool(true), true)
            <==> Field(ext, "autofillTitle") in {Undefined, Bool(false), Bool(true)}
  {
  }

  /** Clicking a button of the extension view makes it the active one. */
  lemma ClickedButtonActive(s: Settings, key: string, value: JsVal, isDefault: bool)
    requires Setting(s, "extension").Obj? && !value.Obj? && value != Undefined
    ensures Active(Setting(SetExtension(s, key, value).value.0, "extension"), key, value, isDefault)
  {
  }

  /** `getScrollbarClass`: "default" is active while the setting is falsy;
      a button is active when the setting is its type. */
  predicate ScrollbarActive(s: Settings, kind: string) {
    (kind == "default" && !Truthy(Setting(s, "scrollbar"))) || StrictEq(Setting(s, "scrollbar"), Str(kind))
  }

  /** The scrollbar group: at most one button, and one exactly when the
      setting is falsy or one of the three types. */
  lemma ScrollbarOneActive(s: Settings)
    ensures !(ScrollbarActive(s, "custom") && ScrollbarActive(s, "default"))
    ensures !(ScrollbarActive(s, "custom") && ScrollbarActive(s, "native"))
    ensures !(ScrollbarActive(s, "default") && ScrollbarActive(s, "native"))
    ensures ScrollbarActive(s, "custom") || ScrollbarActive(s, "default") || ScrollbarActive(s, "native")
            <==> !Truthy(Setting(s, "scrollbar")) || Setting(s, "scrollbar") in {Str("custom"), Str("default"), Str("native")}
  {
  }

  /** `setScrollbar`: a write of the type through the proxy. */
  function SetScrollbar(s: Settings, kind: string): (r: (Settings, Option<Request>))
    ensures Setting(r.0, "scrollbar") == Str(kind)
    ensures forall k :: k != "scrollbar" ==> Setting(r.0, k) == Setting(s, k)
    ensures r.1 == Some(Put(SettingPath("scrollbar"), Str(kind)))
  {
    ViewKeysFree();
    var (_, t, req) := ProxySet(s, "scrollbar", Str(kind));
    (t, req)
  }
}
