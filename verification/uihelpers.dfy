/** The error mixin every view mixes in (frontend/src/util/errorable.js):
    `showError` puts a message on the component asked for, or on the
    caller, and ends its loading and saving; `clearError` clears it. */
module Errorable {
  import opened Wrappers

  /** The state fields the mixin touches; `mounted` is `undefined`
      (`None`) until a view sets it. */
  datatype ViewState = ViewState(loading: bool, saving: bool, error: string, mounted: Option<bool>)

  /** A component on the page: whether it has the mixin's `showError`, and
      its state. */
  datatype Component = Component(errorable: bool, state: ViewState)

  /** The state after `showError(message)` has reached a component. */
  function Failed(st: ViewState, message: string): (r: ViewState)
    ensures r.error == message && !r.loading && !r.saving && r.mounted == st.mounted
  {
    st.(loading := false, saving := false, error := message)
  }

  /** `showError(message, component)` called on `self`: forwarded to the
      given component when it has `showError` and is not `self` (it then
      calls its own with no component, so it shows the message itself);
      otherwise `self` shows it. */
  function ShowError(page: map<int, Component>, self: int, message: string, component: Option<int>)
    : (r: map<int, Component>)
    requires self in page
    requires component.Some? ==> component.value in page
    ensures var shown := if component.Some? && page[component.value].errorable && component.value != self
                         then component.value else self;
            r == page[shown := page[shown].(state := Failed(page[shown].state, message))]
    ensures forall id :: id in page <==> id in r
  {
    if component.Some? && page[component.value].errorable && component.value != self then
      var target := component.value;
      page[target := page[target].(state := Failed(page[target].state, message))]
    else
      page[self := page[self].(state := Failed(page[self].state, message))]
  }

  /** Exactly one component shows the message; every other component is
      left as it was. */
  lemma ShowErrorTouchesOne(page: map<int, Component>, self: int, message: string, component: Option<int>)
    requires self in page
    requires component.Some? ==> component.value in page
    ensures exists id :: id in page && ShowError(page, self, message, component)[id].state.error == message
    ensures forall a, b :: a in page && b in page && a != b ==>
              ShowError(page, self, message, component)[a] == page[a]
              || ShowError(page, self, message, component)[b] == page[b]
  {
    var r := ShowError(page, self, message, component);
    var shown := if component.Some? && page[component.value].errorable && component.value != self
                 then component.value else self;
    assert r[shown].state.error == message;
  }

  /** `clearError`: the error is cleared unless the view has said it is not
      mounted. */
  function ClearError(st: ViewState): (r: ViewState)
    ensures st.mounted == Some(false) ==> r == st
    ensures st.mounted != Some(false) ==> r.error == ""
    ensures r.loading == st.loading && r.saving == st.saving && r.mounted == st.mounted
  {
    if st.mounted != Some(false) then st.(error := "") else st
  }

  /** Clearing after showing leaves no error and nothing loading, on a view
      that is not known to be unmounted. */
  lemma ShowThenClear(st: ViewState, message: string)
    requires st.mounted != Some(false)
    ensures ClearError(Failed(st, message)) == st.(loading := false, saving := false, error := "")
  {
  }
}

/** The helpers frontend/src/helpers.js adds to `Map`: `map` over the
    values and `find` of the first key whose value passes a test. A
    JavaScript `Map` is its entries in insertion order, keys distinct. */
module MapHelpers {
  import opened Wrappers

  type Entries<K, V> = seq<(K, V)>

  predicate DistinctKeys<K(==), V>(m: Entries<K, V>) {
    forall i, j :: 0 <= i < j < |m| ==> m[i].0 != m[j].0
  }

  /** `Map.prototype.set`: a present key keeps its place and takes the new
      value; a new key goes at the end. */
  function MapSet<K(==), V>(m: Entries<K, V>, key: K, value: V): (r: Entries<K, V>)
    requires DistinctKeys(m)
    ensures (exists i :: 0 <= i < |m| && m[i].0 == key) ==> |r| == |m|
    ensures (forall i :: 0 <= i < |m| ==> m[i].0 != key) ==> r == m + [(key, value)]
    ensures forall i :: 0 <= i < |m| ==> r[i] == if m[i].0 == key then (key, value) else m[i]
  {
    if |m| == 0 then [(key, value)]
    else if m[0].0 == key then [(key, value)] + m[1..]
    else [m[0]] + MapSet(m[1..], key, value)
  }

  /** Setting keeps the keys distinct. */
  lemma {:induction false} MapSetDistinct<K, V>(m: Entries<K, V>, key: K, value: V)
    requires DistinctKeys(m)
    ensures DistinctKeys(MapSet(m, key, value))
  {
    if |m| > 0 && m[0].0 != key {
      MapSetDistinct(m[1..], key, value);
      var r := MapSet(m, key, value);
      forall j | 0 < j < |r|
        ensures r[0].0 != r[j].0
      {
        var tail := MapSet(m[1..], key, value);
        assert r[j] == tail[j - 1];
        if j - 1 < |m[1..]| {
          assert tail[j - 1] == if m[j].0 == key then (key, value) else m[j];
        }
      }
    }
  }

  /** The `Map` constructor over a list of entries: each entry is set in
      turn, so a later duplicate key overwrites the value but keeps the
      first one's place. */
  function MapOf<K(==), V>(entries: seq<(K, V)>): (r: Entries<K, V>)
    ensures DistinctKeys(r)
    decreases |entries|
  {
    if |entries| == 0 then []
    else
      var init := MapOf(entries[..|entries| - 1]);
      MapSetDistinct(init, entries[|entries| - 1].0, entries[|entries| - 1].1);
      MapSet(init, entries[|entries| - 1].0, entries[|entries| - 1].1)
  }

  /** `map`: the callback over the values, in insertion order. */
  function MapValues<K, V, R>(m: Entries<K, V>, f: V -> R): (r: seq<R>)
    ensures |r| == |m|
    ensures forall i :: 0 <= i < |m| ==> r[i] == f(m[i].1)
  {
    seq(|m|, i requires 0 <= i < |m| => f(m[i].1))
  }

  /** The index of the first entry whose value passes `test`. */
  function FirstMatch<K, V>(m: Entries<K, V>, test: V -> bool): (r: Option<nat>)
    ensures r.Some? ==> r.value < |m| && test(m[r.value].1)
                        && forall i :: 0 <= i < r.value ==> !test(m[i].1)
    ensures r.None? ==> forall i :: 0 <= i < |m| ==> !test(m[i].1)
  {
    if |m| == 0 then None
    else if test(m[0].1) then Some(0)
    else match FirstMatch(m[1..], test)
      case None => None
      case Some(i) => Some(i + 1)
  }

  /** `find`: walks the entries in order and returns the key of the first
      value the callback accepts, or `undefined` (`None`); `calls` is how
      often the callback ran. */
  method Find<K, V>(m: Entries<K, V>, test: V -> bool) returns (key: Option<K>, calls: nat)
    ensures FirstMatch(m, test).Some? ==> key == Some(m[FirstMatch(m, test).value].0)
                                          && calls == FirstMatch(m, test).value + 1
    ensures FirstMatch(m, test).None? ==> key.None? && calls == |m|
  {
    var i := 0;
    while i < |m|
      invariant 0 <= i <= |m|
      invariant forall j :: 0 <= j < i ==> !test(m[j].1)
    {
      if test(m[i].1) {
        FirstAt(m, test, i);
        return Some(m[i].0), i + 1;
      }
      i := i + 1;
    }
    return None, |m|;
  }

  /** An entry that passes, after entries that all fail, is the first
      match. */
  lemma {:induction false} FirstAt<K, V>(m: Entries<K, V>, test: V -> bool, i: nat)
    requires i < |m| && test(m[i].1)
    requires forall j :: 0 <= j < i ==> !test(m[j].1)
    ensures FirstMatch(m, test) == Some(i)
  {
    if i > 0 {
      assert !test(m[0].1);
      FirstAt(m[1..], test, i - 1);
    }
  }
}
