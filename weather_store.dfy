/** The on-device persistence of the weather app: the last viewed selection
    and the ordered list of favourite cities, each a JSON text under its own
    key of a string key-value store.

    Every call is one atomic step; a provider call that rejects (the storage
    backend failing) is chosen by a boolean parameter of the operation. */
module WeatherStore {
  import opened JsValues

  /** Key of the last-selection slot. */
  const KeyLast: string := "@weather:lastSelection"
  /** Key of the favourites slot. */
  const FavoritesKey: string := "@weather_favorites"

  /** The text stored under a key, as `JSON.parse` sees it: the empty string,
      the serialisation of a value, or text that does not parse. */
  datatype Raw = Blank | Parsed(value: Json) | Corrupt

  /** The field that `saveLastSelection` stamps with the save time. */
  const TimestampField: string := "timestamp"

  /** `{ ...payload, timestamp: now }`: the caller's fields, with the
      timestamp set to `now` whatever the caller supplied. */
  function Stamp(payload: map<string, Json>, now: int): (r: map<string, Json>)
    ensures r.Keys == payload.Keys + {TimestampField}
    ensures r[TimestampField] == JNum(now as real)
    ensures forall k :: k in payload && k != TimestampField ==> k in r && r[k] == payload[k]
  {
    payload[TimestampField := JNum(now as real)]
  }

  /** What `loadLastSelection` returns when the read succeeds: the parsed
      record, or null for an absent, empty or unparseable slot. (A slot
      holding the text "null" also yields null.) */
  ghost function SelectionView(slots: map<string, Raw>): (r: Json)
    ensures r != JNull ==> KeyLast in slots && slots[KeyLast] == Parsed(r)
    ensures KeyLast in slots && slots[KeyLast].Parsed? ==> r == slots[KeyLast].value
  {
    if KeyLast in slots && slots[KeyLast].Parsed? then slots[KeyLast].value else JNull
  }

  /** What `loadFavorites` returns when the read succeeds: the stored array,
      or the empty list for an absent, empty, unparseable or non-array slot. */
  ghost function FavoritesView(slots: map<string, Raw>): (r: seq<Json>)
    ensures r != [] ==> FavoritesKey in slots && slots[FavoritesKey] == Parsed(JArr(r))
    ensures (FavoritesKey in slots && slots[FavoritesKey].Parsed? && slots[FavoritesKey].value.JArr?)
              ==> r == slots[FavoritesKey].value.items
  {
    if FavoritesKey in slots && slots[FavoritesKey].Parsed? && slots[FavoritesKey].value.JArr?
    then slots[FavoritesKey].value.items
    else []
  }

  /** No element of the list is null, so reading a property of each is safe. */
  predicate NoNull(list: seq<Json>) {
    forall i :: 0 <= i < |list| ==> list[i] != JNull
  }

  /** `item.name === name && item.country === country`: the identity key test. */
  predicate HasKey(item: Json, name: Option<Json>, country: Option<Json>)
    requires item != JNull
  {
    StrictEq(Prop(item, "name"), name) && StrictEq(Prop(item, "country"), country)
  }

  /** Two favourites are the same city when their (name, country) pairs match. */
  predicate SameCity(item: Json, c: Json)
    requires item != JNull && c != JNull
  {
    HasKey(item, Prop(c, "name"), Prop(c, "country"))
  }

  /** No two entries of a list are the same city. */
  predicate NoDuplicateCities(list: seq<Json>)
    requires NoNull(list)
  {
    forall i, j :: 0 <= i < j < |list| ==> !SameCity(list[i], list[j])
  }

  /** The outcome of a JavaScript expression that may throw a TypeError. */
  datatype Outcome<T> = Ok(value: T) | Thrown

  /** `list.some(item => SameCity(item, c))`. The scan stops at the first
      match; reaching a null item, or any item when `c` itself is null,
      throws. */
  function AnySameCity(list: seq<Json>, c: Json): (r: Outcome<bool>)
    ensures NoNull(list) && (c != JNull || list == []) ==>
              r == Ok(exists i :: 0 <= i < |list| && SameCity(list[i], c))
    ensures r == Thrown ==> (c == JNull && list != []) || !NoNull(list)
    ensures r == Ok(false) ==> NoNull(list)
    ensures r == Ok(true) ==> c != JNull && exists i :: 0 <= i < |list| && list[i] != JNull && SameCity(list[i], c)
    ensures c == JNull && list != [] ==> r == Thrown
    ensures r == Ok(true) ==> exists i :: 0 <= i < |list| && NoNull(list[..i + 1]) && SameCity(list[i], c)
    ensures c != JNull && (exists i :: 0 <= i < |list| && NoNull(list[..i + 1]) && SameCity(list[i], c)) ==>
              r == Ok(true)
  {
    if list == [] then Ok(false)
    else if list[0] == JNull || c == JNull then Thrown
    else if SameCity(list[0], c) then
      assert NoNull(list[..1]);
      Ok(true)
    else
      var rest := AnySameCity(list[1..], c);
      ScanStep(list, c);
      rest
  }

  /** How the facts `AnySameCity` states about a list follow from the same
      facts about its tail, when the head is neither null nor a match. */
  lemma ScanStep(list: seq<Json>, c: Json)
    requires c != JNull && list != [] && list[0] != JNull && !SameCity(list[0], c)
    ensures NoNull(list) <==> NoNull(list[1..])
    ensures NoNull(list) ==>
              ((exists i :: 0 <= i < |list| && SameCity(list[i], c)) <==>
               (exists i :: 0 <= i < |list[1..]| && SameCity(list[1..][i], c)))
    ensures (exists i :: 0 <= i < |list[1..]| && list[1..][i] != JNull && SameCity(list[1..][i], c)) ==>
            (exists i :: 0 <= i < |list| && list[i] != JNull && SameCity(list[i], c))
    ensures (exists i :: 0 <= i < |list[1..]| && NoNull(list[1..][..i + 1]) && SameCity(list[1..][i], c)) <==>
            (exists i :: 0 <= i < |list| && NoNull(list[..i + 1]) && SameCity(list[i], c))
  {
    var tail := list[1..];
    assert forall i :: 1 <= i < |list| ==> tail[i - 1] == list[i];
    if j :| 0 <= j < |list| && NoNull(list[..j + 1]) && SameCity(list[j], c) {
      assert j != 0;
      assert tail[..j] == list[1..j + 1];
      assert NoNull(tail[..(j - 1) + 1]) && SameCity(tail[j - 1], c);
    }
    if j :| 0 <= j < |tail| && NoNull(tail[..j + 1]) && SameCity(tail[j], c) {
      assert list[..j + 2] == [list[0]] + tail[..j + 1];
      assert NoNull(list[..j + 2]) && SameCity(list[j + 1], c);
    }
  }

  /** `list.filter(item => !HasKey(item, name, country))` on a list without
      nulls: every other entry, in its original order. */
  function Without(list: seq<Json>, name: Option<Json>, country: Option<Json>): (r: seq<Json>)
    requires NoNull(list)
    ensures NoNull(r) && |r| <= |list|
    ensures forall x :: x in r ==> x in list && !HasKey(x, name, country)
    ensures forall x :: x in list && !HasKey(x, name, country) ==> x in r
  {
    if list == [] then []
    else
      var rest := Without(list[1..], name, country);
      if HasKey(list[0], name, country) then rest else [list[0]] + rest
  }

  /** Removing keeps relative order: it distributes over concatenation, so
      the result is the list with the matching entries struck out in place. */
  lemma {:induction false} WithoutDistributes(a: seq<Json>, b: seq<Json>, name: Option<Json>, country: Option<Json>)
    requires NoNull(a) && NoNull(b)
    ensures NoNull(a + b)
    ensures Without(a + b, name, country) == Without(a, name, country) + Without(b, name, country)
  {
    if a == [] {
      assert a + b == b;
    } else {
      assert (a + b)[1..] == a[1..] + b;
      WithoutDistributes(a[1..], b, name, country);
    }
  }

  /** Removing from a list free of duplicates leaves it free of duplicates. */
  lemma {:induction false} WithoutKeepsNoDuplicates(list: seq<Json>, name: Option<Json>, country: Option<Json>)
    requires NoNull(list) && NoDuplicateCities(list)
    ensures NoDuplicateCities(Without(list, name, country))
  {
    if list != [] {
      var rest := list[1..];
      assert NoDuplicateCities(rest) by {
        forall i, j | 0 <= i < j < |rest| ensures !SameCity(rest[i], rest[j]) {
          assert rest[i] == list[i + 1] && rest[j] == list[j + 1];
        }
      }
      WithoutKeepsNoDuplicates(rest, name, country);
      if !HasKey(list[0], name, country) {
        var w := Without(rest, name, country);
        var r := [list[0]] + w;
        forall i, j | 0 <= i < j < |r| ensures !SameCity(r[i], r[j]) {
          if i == 0 {
            assert r[j] == w[j - 1] && r[j] in rest;
            var k :| 0 <= k < |rest| && rest[k] == r[j];
            assert list[k + 1] == r[j];
          } else {
            assert r[i] == w[i - 1] && r[j] == w[j - 1];
          }
        }
      }
    }
  }

  /** Appending a city that is not yet in a duplicate-free list keeps it
      duplicate-free. */
  lemma AppendKeepsNoDuplicates(list: seq<Json>, c: Json)
    requires NoNull(list) && c != JNull && NoDuplicateCities(list)
    requires AnySameCity(list, c) == Ok(false)
    ensures NoNull(list + [c]) && NoDuplicateCities(list + [c])
  {
    var l := list + [c];
    forall i, j | 0 <= i < j < |l| ensures !SameCity(l[i], l[j]) {
      if j == |list| {
        StrictEqProperties(Prop(l[i], "name"), Prop(c, "name"));
        StrictEqProperties(Prop(l[i], "country"), Prop(c, "country"));
        assert !SameCity(list[i], c);
      }
    }
  }

  /** A city whose name and country are primitives is found in any list it
      was appended to, so adding it a second time changes nothing. */
  lemma FoundAfterAppend(list: seq<Json>, c: Json)
    requires NoNull(list) && c != JNull
    requires Primitive(Prop(c, "name")) && Primitive(Prop(c, "country"))
    ensures AnySameCity(list + [c], c) == Ok(true)
  {
    var l := list + [c];
    assert l[|list|] == c && SameCity(l[|list|], c);
  }

  /** Removing a city by its own name and country leaves no entry with that key. */
  lemma RemovedCityIsGone(list: seq<Json>, c: Json)
    requires NoNull(list) && c != JNull
    ensures forall x :: x in Without(list, Prop(c, "name"), Prop(c, "country")) ==> !SameCity(x, c)
  {
  }

  /** The key-value store behind the app, holding the stored text per key. */
  class Store {
    var slots: map<string, Raw>

    constructor (initial: map<string, Raw>)
      ensures slots == initial
    {
      slots := initial;
    }

    /** saveLastSelection: stamp the payload with `now` and store it. A write
        that fails is swallowed and leaves the store as it was. */
    method SaveLastSelection(payload: map<string, Json>, now: int, writeFails: bool)
      modifies this
      ensures slots == if writeFails then old(slots)
                       else old(slots)[KeyLast := Parsed(JObj(Stamp(payload, now)))]
    {
      var toSave := Stamp(payload, now);
      if !writeFails {
        slots := slots[KeyLast := Parsed(JObj(toSave))];
      }
    }

    /** loadLastSelection: the stored record, or null when the slot is absent,
        empty or unparseable or the read fails. Never throws. */
    method LoadLastSelection(readFails: bool) returns (r: Json)
      ensures r == if readFails then JNull else SelectionView(slots)
    {
      if readFails || KeyLast !in slots {
        return JNull;
      }
      var raw := slots[KeyLast];
      if raw == Blank {
        return JNull;
      }
      match raw {
        case Parsed(v) => r := v;
        case _ => r := JNull;
      }
    }

    /** clearLastSelection: remove the slot; a failing removal is swallowed. */
    method ClearLastSelection(removeFails: bool)
      modifies this
      ensures slots == if removeFails then old(slots) else old(slots) - {KeyLast}
    {
      if !removeFails {
        slots := slots - {KeyLast};
      }
    }

    /** loadFavorites: the stored array, or [] when the slot is absent, empty,
        unparseable or not an array or the read fails. Never throws. */
    method LoadFavorites(readFails: bool) returns (r: seq<Json>)
      ensures r == if readFails then [] else FavoritesView(slots)
    {
      if readFails || FavoritesKey !in slots {
        return [];
      }
      var raw := slots[FavoritesKey];
      if raw == Blank {
        return [];
      }
      match raw {
        case Parsed(JArr(items)) => r := items;
        case _ => r := [];
      }
    }

    /** saveFavorites: overwrite the whole list; a failing write is swallowed. */
    method SaveFavorites(favs: seq<Json>, writeFails: bool)
      modifies this
      ensures slots == if writeFails then old(slots)
                       else old(slots)[FavoritesKey := Parsed(JArr(favs))]
    {
      if !writeFails {
        slots := slots[FavoritesKey := Parsed(JArr(favs))];
      }
    }

    /** addFavorite: append `c` unless the same city is already listed.
        An existing city returns the loaded list without writing; a new one
        returns the longer list even when its write fails; a TypeError in the
        scan returns [] without writing. No other key changes. */
    method AddFavorite(c: Json, readFails: bool, writeFails: bool) returns (r: seq<Json>)
      modifies this
      ensures var list := if readFails then [] else FavoritesView(old(slots));
              match AnySameCity(list, c)
              case Thrown => r == [] && slots == old(slots)
              case Ok(true) => r == list && slots == old(slots)
              case Ok(false) =>
                r == list + [c] &&
                slots == if writeFails then old(slots)
                         else old(slots)[FavoritesKey := Parsed(JArr(list + [c]))]
      ensures forall k :: k != FavoritesKey ==> (k in slots <==> k in old(slots))
      ensures forall k :: k in slots && k != FavoritesKey ==> slots[k] == old(slots)[k]
    {
      var list := LoadFavorites(readFails);
      var found := AnySameCity(list, c);
      match found {
        case Thrown =>
          r := [];
        case Ok(true) =>
          r := list;
        case Ok(false) =>
          var updated := list + [c];
          SaveFavorites(updated, writeFails);
          r := updated;
      }
    }

    /** removeFavorite: drop every entry with the given name and country and
        store the rest, returning it even when the write fails. A null entry
        makes the filter throw, which returns [] without writing. No other key
        changes. */
    method RemoveFavorite(name: Option<Json>, country: Option<Json>, readFails: bool, writeFails: bool)
      returns (r: seq<Json>)
      modifies this
      ensures var list := if readFails then [] else FavoritesView(old(slots));
              if !NoNull(list) then r == [] && slots == old(slots)
              else
                r == Without(list, name, country) &&
                slots == if writeFails then old(slots)
                         else old(slots)[FavoritesKey := Parsed(JArr(r))]
      ensures forall k :: k != FavoritesKey ==> (k in slots <==> k in old(slots))
      ensures forall k :: k in slots && k != FavoritesKey ==> slots[k] == old(slots)[k]
    {
      var list := LoadFavorites(readFails);
      if !NoNull(list) {
        return [];
      }
      var updated := Without(list, name, country);
      SaveFavorites(updated, writeFails);
      r := updated;
    }
  }

  /** A save followed by a load gives back the payload with the timestamp
      set to the save time, whatever the store held before. */
  method SelectionRoundTrip(initial: map<string, Raw>, payload: map<string, Json>, now: int)
    returns (loaded: Json)
    ensures loaded == JObj(Stamp(payload, now))
    ensures loaded.fields[TimestampField] == JNum(now as real)
  {
    var store := new Store(initial);
    store.SaveLastSelection(payload, now, false);
    loaded := store.LoadLastSelection(false);
  }

  /** Clearing twice leaves the store as clearing once does, and a load after
      either returns null. */
  method ClearIsIdempotent(initial: map<string, Raw>)
    returns (afterOnce: Json, afterTwice: Json, slotsOnce: map<string, Raw>, slotsTwice: map<string, Raw>)
    ensures afterOnce == JNull && afterTwice == JNull
    ensures slotsOnce == slotsTwice && KeyLast !in slotsTwice
  {
    var store := new Store(initial);
    store.ClearLastSelection(false);
    slotsOnce := store.slots;
    afterOnce := store.LoadLastSelection(false);
    store.ClearLastSelection(false);
    slotsTwice := store.slots;
    afterTwice := store.LoadLastSelection(false);
  }

  /** Adding the same city twice gives the same list both times; when the
      stored list was free of duplicates and nulls, that list holds the city
      exactly once (it holds it, and holds no two entries for one city). */
  method AddTwiceKeepsOne(initial: map<string, Raw>, c: Json)
    returns (first: seq<Json>, second: seq<Json>)
    requires c != JNull && Primitive(Prop(c, "name")) && Primitive(Prop(c, "country"))
    ensures second == first
    ensures NoNull(FavoritesView(initial)) && NoDuplicateCities(FavoritesView(initial)) ==>
              NoNull(second) && NoDuplicateCities(second) &&
              exists i :: 0 <= i < |second| && SameCity(second[i], c)
  {
    var store := new Store(initial);
    var list := FavoritesView(initial);
    first := store.AddFavorite(c, false, false);
    if NoNull(list) {
      if AnySameCity(list, c) == Ok(false) {
        FoundAfterAppend(list, c);
        assert store.slots[FavoritesKey] == Parsed(JArr(list + [c]));
        if NoDuplicateCities(list) {
          AppendKeepsNoDuplicates(list, c);
        }
      }
    }
    second := store.AddFavorite(c, false, false);
  }

  /** A failed read of the favourites looks like an empty list, so an add or
      a remove that follows it overwrites whatever list was stored: the add
      leaves only the new city, the remove leaves nothing. */
  method FailedReadOverwritesFavorites(initial: map<string, Raw>, c: Json, name: Option<Json>, country: Option<Json>)
    returns (afterAdd: Raw, afterRemove: Raw)
    ensures afterAdd == Parsed(JArr([c]))
    ensures afterRemove == Parsed(JArr([]))
  {
    var empty: seq<Json> := [];
    assert AnySameCity(empty, c) == Ok(false) && empty + [c] == [c];
    assert Without(empty, name, country) == [];
    var store := new Store(initial);
    var added := store.AddFavorite(c, true, false);
    afterAdd := store.slots[FavoritesKey];
    store := new Store(initial);
    var removed := store.RemoveFavorite(name, country, true, false);
    afterRemove := store.slots[FavoritesKey];
  }

  /** Paris is added to an empty store, added again, then removed. */
  method ParisScenario()
    returns (afterAdd: seq<Json>, afterSecondAdd: seq<Json>, afterRemove: seq<Json>, reloaded: seq<Json>)
    ensures var paris := JObj(map["name" := JStr("Paris"), "country" := JStr("FR"),
                                  "lat" := JNum(48.85), "lon" := JNum(2.35)]);
            afterAdd == [paris] && afterSecondAdd == [paris]
    ensures afterRemove == [] && reloaded == []
  {
    var paris := JObj(map["name" := JStr("Paris"), "country" := JStr("FR"),
                          "lat" := JNum(48.85), "lon" := JNum(2.35)]);
    var store := new Store(map[]);
    afterAdd := store.AddFavorite(paris, false, false);
    assert SameCity(paris, paris);
    afterSecondAdd := store.AddFavorite(paris, false, false);
    afterRemove := store.RemoveFavorite(Some(JStr("Paris")), Some(JStr("FR")), false, false);
    reloaded := store.LoadFavorites(false);
  }
}
