/** The coordinate layer of the server, as values: the shape check for
    `{ lat, lng }` objects, the location cache as an insertion-ordered map,
    the substring cache lookup, the guarded cache insert, the ordered list of
    geocoder queries tried for one name, and the effect of resolving one name
    and a batch of names. The imperative methods in module CoordinateCache are
    proved against these functions. The geocoding provider is a parameter
    `answer`: a total function from query text to the `{ lat, lng }` it
    yields, or None for a network error, a non-OK status or an empty result
    list. */
module Coordinates {
  import opened Common

  // ---------------------------------------------------------------------
  // JavaScript values, as far as these helpers inspect them

  /** A JavaScript number. `parseFloat` of a malformed provider field gives NaN. */
  datatype Number = Finite(val: real) | NaN | PosInfinity | NegInfinity

  /** `n >= bound`, false for NaN as in JavaScript. */
  predicate AtLeast(n: Number, bound: real)
  {
    match n
    case Finite(v) => v >= bound
    case PosInfinity => true
    case _ => false
  }

  /** `n <= bound`, false for NaN as in JavaScript. */
  predicate AtMost(n: Number, bound: real)
  {
    match n
    case Finite(v) => v <= bound
    case NegInfinity => true
    case _ => false
  }

  datatype JsValue =
    | Undefined
    | Null
    | Bool(b: bool)
    | Num(n: Number)
    | Str(s: string)
    | Arr(items: seq<JsValue>)
    | Obj(fields: map<string, JsValue>)

  predicate Truthy(v: JsValue)
  {
    match v
    case Undefined => false
    case Null => false
    case Bool(b) => b
    case Num(n) => n != NaN && n != Finite(0.0)
    case Str(s) => s != ""
    case _ => true
  }

  /** `typeof v === 'object'`. */
  predicate IsObjectType(v: JsValue)
  {
    v.Null? || v.Arr? || v.Obj?
  }

  /** The property access `v[key]`; only plain objects carry named properties here. */
  function Property(v: JsValue, key: string): JsValue
  {
    if v.Obj? && key in v.fields then v.fields[key] else Undefined
  }

  /** isValidCoordinate: a truthy object whose `lat` and `lng` are numbers
      within [-90, 90] and [-180, 180], bounds included. NaN and the
      infinities fail the comparisons, so only finite numbers pass. */
  predicate IsValidCoordinate(v: JsValue)
    ensures IsValidCoordinate(v) <==>
      && v.Obj? && "lat" in v.fields && "lng" in v.fields
      && v.fields["lat"].Num? && v.fields["lat"].n.Finite?
      && -90.0 <= v.fields["lat"].n.val <= 90.0
      && v.fields["lng"].Num? && v.fields["lng"].n.Finite?
      && -180.0 <= v.fields["lng"].n.val <= 180.0
  {
    && Truthy(v)
    && IsObjectType(v)
    && Property(v, "lat").Num?
    && Property(v, "lng").Num?
    && AtLeast(Property(v, "lat").n, -90.0)
    && AtMost(Property(v, "lat").n, 90.0)
    && AtLeast(Property(v, "lng").n, -180.0)
    && AtMost(Property(v, "lng").n, 180.0)
  }

  /** A `{ lat, lng }` object as the provider builds it and the cache stores it. */
  datatype Coord = Coord(lat: Number, lng: Number)
  {
    function AsValue(): JsValue
    {
      Obj(map["lat" := Num(lat), "lng" := Num(lng)])
    }
  }

  /** A coordinate with finite numbers in range. */
  predicate ValidCoord(c: Coord)
  {
    && c.lat.Finite? && -90.0 <= c.lat.val <= 90.0
    && c.lng.Finite? && -180.0 <= c.lng.val <= 180.0
  }

  /** ValidCoord is isValidCoordinate applied to the `{ lat, lng }` object
      the provider builds and the cache stores. */
  lemma ValidCoordAsValue(c: Coord)
    ensures ValidCoord(c) <==> IsValidCoordinate(c.AsValue())
  {
    assert c.AsValue().fields["lat"] == Num(c.lat);
    assert c.AsValue().fields["lng"] == Num(c.lng);
  }

  // ---------------------------------------------------------------------
  // The location cache

  /** `locationCoordinateCache`: its keys in insertion order and the
      coordinate stored under each key. */
  datatype Cache = Cache(keys: seq<string>, entries: map<string, Coord>)

  /** Keys listed once each, exactly the stored ones, and every stored value
      passes isValidCoordinate. */
  ghost predicate WellFormed(c: Cache)
  {
    && (forall i, j :: 0 <= i < j < |c.keys| ==> c.keys[i] != c.keys[j])
    && (forall k :: k in c.entries <==> k in c.keys)
    && (forall k :: k in c.entries ==> ValidCoord(c.entries[k]))
  }

  /** The cache holds at least one key and no empty key: every lookup of a
      name that normalizes to "" then hits, and no lookup is cut short by an
      empty key (which JavaScript would treat as falsy). */
  ghost predicate Inhabited(c: Cache)
  {
    c.keys != [] && "" !in c.entries
  }

  /** A seeded key: every one has at least five characters. */
  type SeedName = s: string | |s| >= 5 witness "paris"

  /** A coordinate that passes the range test. */
  type ValidCoordinate = c: Coord | ValidCoord(c) witness Coord(Finite(0.0), Finite(0.0))

  /** The number of hubs the cache is seeded with when the process starts. */
  const SeedCount: nat := 16

  /** The `i`-th seeded hub in insertion order: its key and its coordinate. */
  function SeedHub(i: nat): (SeedName, ValidCoordinate)
    requires i < SeedCount
  {
    if i == 0 then ("london", Coord(Finite(51.5074), Finite(-0.1278)))
    else if i == 1 then ("paris", Coord(Finite(48.8566), Finite(2.3522)))
    else if i == 2 then ("new york", Coord(Finite(40.7128), Finite(-74.0060)))
    else if i == 3 then ("tokyo", Coord(Finite(35.6762), Finite(139.6503)))
    else if i == 4 then ("singapore", Coord(Finite(1.3521), Finite(103.8198)))
    else if i == 5 then ("dubai", Coord(Finite(25.2048), Finite(55.2708)))
    else if i == 6 then ("shanghai", Coord(Finite(31.2304), Finite(121.4737)))
    else if i == 7 then ("hong kong", Coord(Finite(22.3193), Finite(114.1694)))
    else if i == 8 then ("amsterdam", Coord(Finite(52.3676), Finite(4.9041)))
    else if i == 9 then ("frankfurt", Coord(Finite(50.1109), Finite(8.6821)))
    else if i == 10 then ("los angeles", Coord(Finite(34.0522), Finite(-118.2437)))
    else if i == 11 then ("chicago", Coord(Finite(41.8781), Finite(-87.6298)))
    else if i == 12 then ("toronto", Coord(Finite(43.6532), Finite(-79.3832)))
    else if i == 13 then ("sydney", Coord(Finite(-33.8688), Finite(151.2093)))
    else if i == 14 then ("mumbai", Coord(Finite(19.0760), Finite(72.8777)))
    else ("bangkok", Coord(Finite(13.7563), Finite(100.5018)))
  }

  /** The keys of the first `n` seeded hubs, in insertion order. */
  function SeedKeysUpTo(n: nat): (keys: seq<string>)
    requires n <= SeedCount
    ensures |keys| == n && forall i {:trigger keys[i]} :: 0 <= i < n ==> keys[i] == SeedHub(i).0
  {
    if n == 0 then [] else SeedKeysUpTo(n - 1) + [SeedHub(n - 1).0]
  }

  /** The coordinates of the first `n` seeded hubs, in insertion order. */
  function SeedCoordsUpTo(n: nat): (coords: seq<Coord>)
    requires n <= SeedCount
    ensures |coords| == n && forall i {:trigger coords[i]} :: 0 <= i < n ==> coords[i] == SeedHub(i).1
  {
    if n == 0 then [] else SeedCoordsUpTo(n - 1) + [SeedHub(n - 1).1]
  }

  const SeedKeys: seq<string> := SeedKeysUpTo(SeedCount)
  const SeedCoords: seq<Coord> := SeedCoordsUpTo(SeedCount)

  /** The map sending each of the first `n` keys to the value at its
      position, a later position winning over an earlier one. */
  function Zip(keys: seq<string>, vals: seq<Coord>, n: nat): (m: map<string, Coord>)
    requires n <= |keys| == |vals|
    ensures forall i :: 0 <= i < n ==> keys[i] in m
    ensures forall k :: k in m ==> k in keys
  {
    if n == 0 then map[] else Zip(keys, vals, n - 1)[keys[n - 1] := vals[n - 1]]
  }

  /** Zipping distinct keys stores each value under its own key. */
  lemma {:induction false} ZipAt(keys: seq<string>, vals: seq<Coord>, n: nat)
    requires n <= |keys| == |vals|
    requires forall i, j :: 0 <= i < j < |keys| ==> keys[i] != keys[j]
    ensures forall i :: 0 <= i < n ==> Zip(keys, vals, n)[keys[i]] == vals[i]
  {
    if n > 0 {
      ZipAt(keys, vals, n - 1);
      forall i | 0 <= i < n - 1 ensures Zip(keys, vals, n)[keys[i]] == vals[i] {
        assert keys[i] != keys[n - 1];
      }
    }
  }

  /** The cache as the process starts with it. */
  function Seed(): (c: Cache)
    ensures WellFormed(c) && Inhabited(c)
    ensures c.keys == SeedKeys
    ensures forall i :: 0 <= i < |SeedKeys| ==> c.entries[SeedKeys[i]] == SeedCoords[i]
  {
    var c := Cache(SeedKeys, Zip(SeedKeys, SeedCoords, SeedCount));
    SeedWellFormed(c);
    c
  }

  lemma SeedWellFormed(c: Cache)
    requires c == Cache(SeedKeys, Zip(SeedKeys, SeedCoords, SeedCount))
    ensures WellFormed(c) && Inhabited(c)
    ensures forall i :: 0 <= i < |SeedKeys| ==> c.entries[SeedKeys[i]] == SeedCoords[i]
  {
    SeedKeysDistinct();
    SeedCoordsValid();
    SeedKeysAtLeastFiveChars();
    ZipWellFormed(SeedKeys, SeedCoords);
  }

  /** Distinct non-empty keys zipped with valid coordinates make a well-formed
      cache that lists them in order, each value under its own key. */
  lemma ZipWellFormed(keys: seq<string>, vals: seq<Coord>)
    requires |keys| == |vals|
    requires forall i, j :: 0 <= i < j < |keys| ==> keys[i] != keys[j]
    requires forall i :: 0 <= i < |keys| ==> keys[i] != "" && ValidCoord(vals[i])
    ensures WellFormed(Cache(keys, Zip(keys, vals, |keys|)))
    ensures keys != [] ==> Inhabited(Cache(keys, Zip(keys, vals, |keys|)))
    ensures forall i :: 0 <= i < |keys| ==> Zip(keys, vals, |keys|)[keys[i]] == vals[i]
  {
    var m := Zip(keys, vals, |keys|);
    ZipAt(keys, vals, |keys|);
    forall k | k in m ensures k in keys && ValidCoord(m[k]) && k != "" {
      var i :| 0 <= i < |keys| && keys[i] == k;
      assert m[k] == vals[i];
    }
  }

  lemma SeedKeysAtLeastFiveChars()
    ensures forall i :: 0 <= i < |SeedKeys| ==> |SeedKeys[i]| >= 5
  {
  }

  lemma SeedCoordsValid()
    ensures forall i :: 0 <= i < |SeedCoords| ==> ValidCoord(SeedCoords[i])
  {
  }

  /** The first and the third character of each seeded key, in order. */
  const SeedFirstChars: string := "lpntsdshaflctsmb"
  const SeedThirdChars: string := "nrwknbansasirdmn"

  /** The seeded keys differ in their first or third character. */
  lemma SeedKeysDistinct()
    ensures forall i, j :: 0 <= i < j < |SeedKeys| ==> SeedKeys[i] != SeedKeys[j]
  {
    SeedKeyChars();
    CharPairsDistinct();
    forall i, j | 0 <= i < j < |SeedKeys| ensures SeedKeys[i] != SeedKeys[j] {
      assert SeedFirstChars[i] != SeedFirstChars[j] || SeedThirdChars[i] != SeedThirdChars[j];
    }
  }

  lemma SeedKeyChars()
    ensures forall i :: 0 <= i < SeedCount ==>
      |SeedHub(i).0| >= 3 && SeedHub(i).0[0] == SeedFirstChars[i] && SeedHub(i).0[2] == SeedThirdChars[i]
  {
  }

  lemma CharPairsDistinct()
    ensures |SeedFirstChars| == |SeedThirdChars| == SeedCount
    ensures forall i, j :: 0 <= i < j < SeedCount ==>
      SeedFirstChars[i] != SeedFirstChars[j] || SeedThirdChars[i] != SeedThirdChars[j]
  {
  }

  /** `name.toLowerCase().trim()`: the form under which names are cached,
      with no upper-case letter and no white space at either end. */
  function Normalize(name: string): (n: string)
    ensures |n| <= |name|
    ensures forall i :: 0 <= i < |n| ==> !('A' <= n[i] <= 'Z')
    ensures Unpadded(n)
  {
    TrimLowerHasNoUpper(name);
    Trim(ToLower(name))
  }

  lemma {:induction false} TrimLowerHasNoUpper(name: string)
    ensures forall i :: 0 <= i < |Trim(ToLower(name))| ==> !('A' <= Trim(ToLower(name))[i] <= 'Z')
  {
    var lower := ToLower(name);
    var n := Trim(lower);
    var k := TrimOffset(lower);
    ToLowerHasNoUpper(name);
    forall i | 0 <= i < |n| ensures !('A' <= n[i] <= 'Z') {
      assert n[i] == lower[k + i];
    }
  }

  /** A stored key is its own normal form: normalizing twice is normalizing
      once. */
  lemma NormalizeIdempotent(name: string)
    ensures Normalize(Normalize(name)) == Normalize(name)
  {
    var n := Normalize(name);
    ToLowerPointwise(n, n);
    TrimUnpadded(n);
  }

  /** The test `find` applies to each key: `normalized.includes(key) ||
      key.includes(normalized)`. */
  predicate Matches(key: string, normalized: string)
  {
    Contains(normalized, key) || Contains(key, normalized)
  }

  /** The empty key matches every name, and every key matches itself. */
  lemma MatchesEmptyOrSelf(key: string, normalized: string)
    ensures key == "" || key == normalized ==> Matches(key, normalized)
  {
    ContainsEmpty(normalized);
    ContainsSelf(key);
  }

  /** Between a key and a name of the same length, matching is equality. */
  lemma SameLengthMatchIsEqual(key: string, normalized: string)
    requires |key| == |normalized|
    ensures Matches(key, normalized) <==> key == normalized
  {
    if Contains(normalized, key) {
      var i :| 0 <= i <= |normalized| - |key| && OccursAt(normalized, key, i);
      assert i == 0 && normalized[..] == key;
    }
    if Contains(key, normalized) {
      var i :| 0 <= i <= |key| - |normalized| && OccursAt(key, normalized, i);
      assert i == 0 && key[..] == normalized;
    }
    if key == normalized {
      ContainsSelf(key);
    }
  }

  /** The position of the first key, in insertion order, that matches. */
  function FirstMatch(keys: seq<string>, normalized: string): (r: Option<nat>)
    ensures r.Some? ==> r.value < |keys| && Matches(keys[r.value], normalized)
    ensures r.Some? ==> forall j :: 0 <= j < r.value ==> !Matches(keys[j], normalized)
    ensures r.None? ==> forall j :: 0 <= j < |keys| ==> !Matches(keys[j], normalized)
  {
    if keys == [] then None
    else if Matches(keys[0], normalized) then Some(0)
    else
      match FirstMatch(keys[1..], normalized)
      case None => None
      case Some(i) => Some(i + 1)
  }

  /** getCachedCoordinates: nothing for an empty name; otherwise the value of
      the first key that contains the normalized name or is contained in it,
      unless that key is itself empty. */
  function GetCached(c: Cache, name: string): (r: Option<Coord>)
    requires WellFormed(c)
    ensures name == "" ==> r.None?
    ensures r.Some? ==> ValidCoord(r.value)
    ensures r.Some? ==> exists k :: k in c.entries && k != "" && Matches(k, Normalize(name)) && r.value == c.entries[k]
  {
    if name == "" then None
    else
      match FirstMatch(c.keys, Normalize(name))
      case None => None
      case Some(i) =>
        var key := c.keys[i];
        if key == "" then None else Some(c.entries[key])
  }

  /** A lookup returns the value of the first matching key in insertion
      order, even when later keys match too. */
  lemma GetCachedFirstMatch(c: Cache, name: string, i: nat)
    requires WellFormed(c)
    requires name != "" && i < |c.keys| && c.keys[i] != ""
    requires Matches(c.keys[i], Normalize(name))
    requires forall j :: 0 <= j < i ==> !Matches(c.keys[j], Normalize(name))
    ensures GetCached(c, name) == Some(c.entries[c.keys[i]])
  {
    var m := FirstMatch(c.keys, Normalize(name));
    assert m.Some? && m.value == i;
  }

  /** An empty key matches every name, but `cacheKey ? ... : null` treats it
      as falsy: when it is the first match, the lookup misses. */
  lemma GetCachedEmptyKeyMisses(c: Cache, name: string, i: nat)
    requires WellFormed(c)
    requires i < |c.keys| && c.keys[i] == ""
    requires forall j :: 0 <= j < i ==> !Matches(c.keys[j], Normalize(name))
    ensures GetCached(c, name).None?
  {
    if name != "" {
      MatchesEmptyOrSelf(c.keys[i], Normalize(name));
      var m := FirstMatch(c.keys, Normalize(name));
      assert m.Some? && m.value == i;
    }
  }

  /** When no key matches the normalized name, the lookup misses. */
  lemma GetCachedMiss(c: Cache, name: string)
    requires WellFormed(c)
    requires forall j :: 0 <= j < |c.keys| ==> !Matches(c.keys[j], Normalize(name))
    ensures GetCached(c, name).None?
  {
  }

  /** A name that normalizes to the empty string is contained in every key,
      so it hits the oldest entry. */
  lemma BlankNameHitsFirstEntry(c: Cache, name: string)
    requires WellFormed(c) && Inhabited(c)
    requires name != "" && Normalize(name) == ""
    ensures GetCached(c, name) == Some(c.entries[c.keys[0]])
  {
    ContainsEmpty(c.keys[0]);
    GetCachedFirstMatch(c, name, 0);
  }

  /** GetCachedFirstMatch, for a name whose normalized form is known. */
  lemma GetCachedHitAt(c: Cache, name: string, normalized: string, i: nat)
    requires WellFormed(c)
    requires name != "" && Normalize(name) == normalized
    requires i < |c.keys| && c.keys[i] != ""
    requires Matches(c.keys[i], normalized)
    requires forall j :: 0 <= j < i ==> !Matches(c.keys[j], normalized)
    ensures GetCached(c, name) == Some(c.entries[c.keys[i]])
  {
    GetCachedFirstMatch(c, name, i);
  }

  /** A key whose first character does not occur in a longer normalized
      name does not match it. */
  lemma NoMatch(key: string, normalized: string)
    requires key != [] && key[0] !in normalized && |normalized| > |key|
    ensures !Matches(key, normalized)
  {
    forall i | 0 <= i <= |normalized| - |key| ensures !OccursAt(normalized, key, i) {
      assert normalized[i] != key[0];
      assert normalized[i..i + |key|][0] == normalized[i];
    }
  }

  /** The guard of cacheCoordinates: a non-empty name and a valid coordinate. */
  predicate Storable(name: string, coords: Coord)
  {
    name != "" && ValidCoord(coords)
  }

  /** Spelled out: a non-empty name and finite coordinates in range. */
  lemma StorableRanges(name: string, coords: Coord)
    ensures Storable(name, coords) <==>
      && name != ""
      && coords.lat.Finite? && -90.0 <= coords.lat.val <= 90.0
      && coords.lng.Finite? && -180.0 <= coords.lng.val <= 180.0
  {
  }

  /** The cache after cacheCoordinates(name, coords): unchanged when the guard
      fails or the name normalizes to "__proto__"; otherwise the coordinate
      stored under the normalized name (a new key goes last in insertion
      order) and every other key as before. */
  function Store(c: Cache, name: string, coords: Coord): (r: Cache)
    requires WellFormed(c)
    ensures WellFormed(r)
    ensures !Storable(name, coords) || Normalize(name) == ProtoKey ==> r == c
    ensures Storable(name, coords) && Normalize(name) != ProtoKey ==>
      Normalize(name) in r.entries && r.entries[Normalize(name)] == coords
    ensures forall k :: k != Normalize(name) ==> MapGet(r.entries, k) == MapGet(c.entries, k)
    ensures r.keys == c.keys || r.keys == c.keys + [Normalize(name)]
  {
    if !Storable(name, coords) then c else Insert(c, Normalize(name), coords)
  }

  /** The one key an assignment on a plain object does not create: writing
      `cache["__proto__"]` replaces the object's prototype instead, and
      `Object.keys` never lists it. */
  const ProtoKey: string := "__proto__"

  /** `cache[key] = { ...coords }` on the insertion-ordered object: a new key
      goes last, an existing one keeps its place, and "__proto__" adds no own
      key at all. */
  function Insert(c: Cache, key: string, coords: Coord): (r: Cache)
    requires WellFormed(c) && ValidCoord(coords)
    ensures WellFormed(r)
    ensures key == ProtoKey ==> r == c
    ensures key != ProtoKey ==> key in r.entries && r.entries[key] == coords
    ensures forall k :: k != key ==> MapGet(r.entries, k) == MapGet(c.entries, k)
    ensures r.keys == if key == ProtoKey || key in c.entries then c.keys else c.keys + [key]
  {
    if key == ProtoKey then c
    else Cache(if key in c.entries then c.keys else c.keys + [key], c.entries[key := coords])
  }

  // ---------------------------------------------------------------------
  // The geocoding fallback

  function TrimAll(xs: seq<string>): (r: seq<string>)
    ensures |r| == |xs| && forall i :: 0 <= i < |xs| ==> r[i] == Trim(xs[i])
  {
    if xs == [] then [] else [Trim(xs[0])] + TrimAll(xs[1..])
  }

  /** `filter(Boolean)` on strings: the non-empty ones, in order
      (NonEmptyMembers, NonEmptyAppend). */
  function NonEmpty(xs: seq<string>): (r: seq<string>)
    ensures |r| <= |xs| && forall i :: 0 <= i < |r| ==> r[i] != ""
  {
    if xs == [] then [] else (if xs[0] == "" then [] else [xs[0]]) + NonEmpty(xs[1..])
  }

  /** The filter keeps exactly the non-empty strings. */
  lemma {:induction false} NonEmptyMembers(xs: seq<string>)
    ensures forall x :: x in NonEmpty(xs) <==> x in xs && x != ""
  {
    if xs != [] {
      NonEmptyMembers(xs[1..]);
      assert xs == [xs[0]] + xs[1..];
    }
  }

  /** Filtering a concatenation filters each side and keeps them in order. */
  lemma {:induction false} NonEmptyAppend(xs: seq<string>, ys: seq<string>)
    ensures NonEmpty(xs + ys) == NonEmpty(xs) + NonEmpty(ys)
  {
    if xs == [] {
      assert xs + ys == ys;
    } else {
      var head := if xs[0] == "" then [] else [xs[0]];
      assert (xs + ys)[0] == xs[0];
      assert (xs + ys)[1..] == xs[1..] + ys;
      NonEmptyAppend(xs[1..], ys);
      assert NonEmpty(xs + ys) == head + NonEmpty(xs[1..] + ys);
      assert head + (NonEmpty(xs[1..]) + NonEmpty(ys)) == (head + NonEmpty(xs[1..])) + NonEmpty(ys);
    }
  }

  /** `name.split(',').map(p => p.trim()).filter(Boolean)` (CommaPartsSpec). */
  function CommaParts(name: string): (parts: seq<string>)
    ensures |parts| <= |Split(name, ',')|
    ensures forall i :: 0 <= i < |parts| ==> parts[i] != ""
  {
    NonEmpty(TrimAll(Split(name, ',')))
  }

  /** The comma parts are the trimmed comma-separated pieces of the name that
      are not empty, each without white space at either end. */
  lemma CommaPartsSpec(name: string)
    ensures forall p :: p in CommaParts(name) <==> p in TrimAll(Split(name, ',')) && p != ""
    ensures forall p :: p in CommaParts(name) ==> Unpadded(p)
  {
    var trimmed := TrimAll(Split(name, ','));
    NonEmptyMembers(trimmed);
    TrimAllUnpadded(Split(name, ','));
  }

  lemma TrimAllUnpadded(xs: seq<string>)
    ensures forall p :: p in TrimAll(xs) ==> Unpadded(p)
  {
    forall p | p in TrimAll(xs) ensures Unpadded(p) {
      var j :| 0 <= j < |xs| && TrimAll(xs)[j] == p;
      assert p == Trim(xs[j]);
    }
  }

  /** The parts the loop over `parts` actually sends: those of length at least 3, in order. */
  function LongParts(parts: seq<string>): (r: seq<string>)
    ensures |r| <= |parts| && forall i :: 0 <= i < |r| ==> |r[i]| >= 3
  {
    if parts == [] then [] else (if |parts[0]| >= 3 then [parts[0]] else []) + LongParts(parts[1..])
  }

  lemma {:induction false} LongPartsAppend(xs: seq<string>, ys: seq<string>)
    ensures LongParts(xs + ys) == LongParts(xs) + LongParts(ys)
  {
    if xs == [] {
      assert xs + ys == ys;
    } else {
      var head := if |xs[0]| >= 3 then [xs[0]] else [];
      assert (xs + ys)[0] == xs[0];
      assert (xs + ys)[1..] == xs[1..] + ys;
      LongPartsAppend(xs[1..], ys);
      assert LongParts(xs + ys) == head + LongParts(xs[1..] + ys);
      assert head + (LongParts(xs[1..]) + LongParts(ys)) == (head + LongParts(xs[1..])) + LongParts(ys);
    }
  }

  /** Every provider query getCoordinates may send for a cache miss, in
      order: the full name; then, when the comma split leaves more than one
      non-empty part, each part of length 3 or more; then the first
      white-space/comma delimited word when it is longer than 2. */
  function Queries(name: string): (qs: seq<string>)
    requires name != ""
    ensures |qs| >= 1 && qs[0] == name
    ensures forall i :: 0 <= i < |qs| ==> qs[i] != ""
  {
    var parts := CommaParts(name);
    var word := FirstWord(name);
    var long := if |parts| > 1 then LongParts(parts) else [];
    var last := if |word| > 2 then [word] else [];
    NoEmptyStringIn([name], long, last);
    [name] + long + last
  }

  lemma NoEmptyStringIn(a: seq<string>, b: seq<string>, c: seq<string>)
    requires forall i :: 0 <= i < |a| ==> |a[i]| > 0
    requires forall i :: 0 <= i < |b| ==> |b[i]| > 2
    requires forall i :: 0 <= i < |c| ==> |c[i]| > 2
    ensures forall i :: 0 <= i < |a + b + c| ==> (a + b + c)[i] != ""
  {
  }

  /** `coords && isValidCoordinate(coords)` for a provider answer. */
  predicate Accepted(o: Option<Coord>)
  {
    o.Some? && ValidCoord(o.value)
  }

  /** Spelled out: an answer with finite coordinates in range. */
  lemma AcceptedRanges(o: Option<Coord>)
    ensures Accepted(o) <==>
      && o.Some? && o.value.lat.Finite? && -90.0 <= o.value.lat.val <= 90.0
      && o.value.lng.Finite? && -180.0 <= o.value.lng.val <= 180.0
  {
  }

  /** What trying queries in order until one is accepted yields: the accepted
      coordinate, if any, and the queries sent. */
  datatype Attempted = Attempted(found: Option<Coord>, asked: seq<string>)

  /** Send `qs` to the provider in order and stop at the first accepted answer:
      the queries sent are a prefix of `qs`, every one but an accepted last one
      was answered unacceptably, and when none is accepted all were sent. */
  function Attempt(answer: string -> Option<Coord>, qs: seq<string>): (r: Attempted)
    ensures |r.asked| <= |qs| && r.asked == qs[..|r.asked|]
    ensures qs != [] ==> r.asked != []
    ensures r.found.Some? ==> ValidCoord(r.found.value)
  {
    if qs == [] then Attempted(None, [])
    else if Accepted(answer(qs[0])) then Attempted(answer(qs[0]), [qs[0]])
    else
      var rest := Attempt(answer, qs[1..]);
      Attempted(rest.found, [qs[0]] + rest.asked)
  }

  /** The attempt stops exactly at the first accepted query: an accepted
      last query whose answer is the result after rejected ones, or, when
      nothing is found, every query sent and rejected. */
  lemma {:induction false} AttemptSpec(answer: string -> Option<Coord>, qs: seq<string>)
    ensures var r := Attempt(answer, qs);
      && (r.found.Some? ==> |r.asked| >= 1 && answer(r.asked[|r.asked| - 1]) == r.found)
      && (r.found.Some? ==> forall i :: 0 <= i < |r.asked| - 1 ==> !Accepted(answer(r.asked[i])))
      && (r.found.None? ==> r.asked == qs && forall i :: 0 <= i < |qs| ==> !Accepted(answer(qs[i])))
  {
    if qs != [] && !Accepted(answer(qs[0])) {
      AttemptSpec(answer, qs[1..]);
      var rest := Attempt(answer, qs[1..]);
      assert Attempt(answer, qs).asked == [qs[0]] + rest.asked;
      if rest.found.None? {
        assert qs == [qs[0]] + qs[1..];
      }
    }
  }

  /** Queries all rejected before `rest` do not change what `rest` yields;
      they are only sent first. */
  lemma {:induction false} AttemptAfterRejections(answer: string -> Option<Coord>, rejected: seq<string>, rest: seq<string>)
    requires forall q :: q in rejected ==> !Accepted(answer(q))
    ensures Attempt(answer, rejected + rest)
         == Attempted(Attempt(answer, rest).found, rejected + Attempt(answer, rest).asked)
  {
    var tail := Attempt(answer, rest);
    if rejected == [] {
      assert rejected + rest == rest;
      assert rejected + tail.asked == tail.asked;
    } else {
      var qs := rejected + rest;
      assert qs[0] == rejected[0] && !Accepted(answer(qs[0]));
      assert qs[1..] == rejected[1..] + rest;
      AttemptAfterRejections(answer, rejected[1..], rest);
      assert Attempt(answer, qs) == Attempted(tail.found, [qs[0]] + (rejected[1..] + tail.asked));
      assert [qs[0]] + (rejected[1..] + tail.asked) == rejected + tail.asked;
    }
  }

  /** Attempting `xs + ys` is attempting `xs` and, only when nothing in
      `xs` is accepted, going on with `ys`. */
  lemma {:induction false} AttemptAppend(answer: string -> Option<Coord>, xs: seq<string>, ys: seq<string>)
    ensures Attempt(answer, xs + ys)
         == if Attempt(answer, xs).found.Some? then Attempt(answer, xs)
            else Attempted(Attempt(answer, ys).found, xs + Attempt(answer, ys).asked)
  {
    if xs == [] {
      assert xs + ys == ys;
    } else {
      var zs := xs + ys;
      assert zs[0] == xs[0];
      assert zs[1..] == xs[1..] + ys;
      if !Accepted(answer(xs[0])) {
        AttemptAppend(answer, xs[1..], ys);
        var t, u, v := Attempt(answer, xs[1..]), Attempt(answer, xs[1..] + ys), Attempt(answer, ys);
        assert Attempt(answer, xs) == Attempted(t.found, [xs[0]] + t.asked);
        assert Attempt(answer, zs) == Attempted(u.found, [xs[0]] + u.asked);
        if t.found.None? {
          assert u == Attempted(v.found, xs[1..] + v.asked);
          assert [xs[0]] + (xs[1..] + v.asked) == xs + v.asked;
        }
      }
    }
  }

  /** When every query is rejected, all are sent and nothing is found. */
  lemma {:induction false} AttemptAllRejected(answer: string -> Option<Coord>, qs: seq<string>)
    requires forall q :: q in qs ==> !Accepted(answer(q))
    ensures Attempt(answer, qs) == Attempted(None, qs)
  {
    AttemptAfterRejections(answer, qs, []);
    assert qs + [] == qs;
  }

  /** The first accepted query ends the attempt: it is the last one sent and
      its answer is the result. */
  lemma {:induction false} AttemptStopsAt(answer: string -> Option<Coord>, qs: seq<string>, i: nat)
    requires i < |qs| && Accepted(answer(qs[i]))
    requires forall j :: 0 <= j < i ==> !Accepted(answer(qs[j]))
    ensures Attempt(answer, qs) == Attempted(answer(qs[i]), qs[..i + 1])
  {
    var rest := qs[i..];
    assert qs == qs[..i] + rest;
    AttemptAfterRejections(answer, qs[..i], rest);
    assert rest[0] == qs[i];
    assert Attempt(answer, rest) == Attempted(answer(qs[i]), [qs[i]]);
    assert qs[..i] + [qs[i]] == qs[..i + 1];
  }

  /** Queries all rejected before an accepted one: the attempt stops there
      with that query's answer. */
  lemma AttemptStopsAfter(answer: string -> Option<Coord>, rejected: seq<string>, q: string, more: seq<string>)
    requires forall p :: p in rejected ==> !Accepted(answer(p))
    requires Accepted(answer(q))
    ensures Attempt(answer, rejected + [q] + more) == Attempted(answer(q), rejected + [q])
  {
    var qs := rejected + [q] + more;
    assert qs[..|rejected|] == rejected;
    assert qs[|rejected|] == q;
    assert qs[..|rejected| + 1] == rejected + [q];
    AttemptStopsAt(answer, qs, |rejected|);
  }

  /** One call of getCoordinates: the coordinate returned, the cache
      afterwards and the provider queries sent. */
  datatype Resolution = Resolution(coords: Option<Coord>, cache: Cache, asked: seq<string>)

  /** getCoordinates: nothing and no query for an empty name; the cached value
      and no query on a cache hit; otherwise the queries of Queries(name) up to
      the first accepted answer, which is returned and cached under the full
      name. Nothing that fails isValidCoordinate is returned or cached. */
  function Resolve(c: Cache, answer: string -> Option<Coord>, name: string): (r: Resolution)
    requires WellFormed(c)
    ensures WellFormed(r.cache)
  {
    if name == "" then Resolution(None, c, [])
    else
      var hit := GetCached(c, name);
      if hit.Some? then Resolution(hit, c, [])
      else
        var a := Attempt(answer, Queries(name));
        match a.found
        case Some(coords) => Resolution(a.found, Store(c, name, coords), a.asked)
        case None => Resolution(None, c, a.asked)
  }

  /** On a cache miss, Resolve is the attempt over Queries(name), stored
      when it finds a coordinate. */
  lemma ResolveMiss(c: Cache, answer: string -> Option<Coord>, name: string)
    requires WellFormed(c) && name != "" && GetCached(c, name).None?
    ensures var a := Attempt(answer, Queries(name));
      Resolve(c, answer, name)
        == if a.found.Some? then Resolution(a.found, Store(c, name, a.found.value), a.asked)
           else Resolution(None, c, a.asked)
  {
  }

  /** What getCoordinates promises: nothing and no query for an empty name;
      the cached value and no query on a hit; otherwise exactly the queries
      Attempt sends over Queries(name), a non-empty prefix of them, are sent
      and the result is what Attempt finds; only a valid
      coordinate is returned, and the cache changes only by storing it. */
  lemma ResolveSpec(c: Cache, answer: string -> Option<Coord>, name: string)
    requires WellFormed(c)
    ensures var r := Resolve(c, answer, name);
      && (r.coords.Some? ==> ValidCoord(r.coords.value))
      && (name == "" ==> r == Resolution(None, c, []))
      && (GetCached(c, name).Some? ==> r == Resolution(GetCached(c, name), c, []))
      && (name != "" && GetCached(c, name).None? ==>
            && 1 <= |r.asked| <= |Queries(name)| && r.asked == Queries(name)[..|r.asked|]
            && r.asked == Attempt(answer, Queries(name)).asked
            && r.coords == Attempt(answer, Queries(name)).found)
      && (r.coords.None? ==> r.cache == c)
      && (r.asked != [] && r.coords.Some? ==> r.cache == Store(c, name, r.coords.value))
  {
    if name != "" && GetCached(c, name).None? {
      ResolveMiss(c, answer, name);
    }
  }

  /** A name that misses the cache is cached, on success, under its own
      normalized form as a new last key, never under the query that succeeded;
      a name that normalizes to "__proto__" is not cached at all. */
  lemma ResolveCachesUnderFullName(c: Cache, answer: string -> Option<Coord>, name: string)
    requires WellFormed(c) && Inhabited(c)
    requires name != "" && GetCached(c, name).None?
    requires Resolve(c, answer, name).coords.Some?
    ensures var r := Resolve(c, answer, name);
      && (Normalize(name) != ProtoKey ==>
            && r.cache.keys == c.keys + [Normalize(name)]
            && r.cache.entries == c.entries[Normalize(name) := r.coords.value])
      && (Normalize(name) == ProtoKey ==> r.cache == c)
  {
    var r := Resolve(c, answer, name);
    var n := Normalize(name);
    MissMatchesNoKey(c, name);
    ContainsSelf(n);
    forall j | 0 <= j < |c.keys| ensures c.keys[j] != n {
      assert !Matches(c.keys[j], n);
    }
    assert n !in c.entries;
    assert r.cache == Store(c, name, r.coords.value);
  }

  /** In an inhabited cache a lookup misses only when no key matches at all. */
  lemma MissMatchesNoKey(c: Cache, name: string)
    requires WellFormed(c) && Inhabited(c)
    requires name != "" && GetCached(c, name).None?
    ensures forall j :: 0 <= j < |c.keys| ==> !Matches(c.keys[j], Normalize(name))
  {
  }

  /** Once a name has resolved, resolving it again returns the same
      coordinate with no provider query and no cache change, unless the name
      normalizes to "__proto__": that one is never cached, so a second call
      repeats the first, queries included. */
  lemma ResolveAgainIsCacheHit(c: Cache, answer: string -> Option<Coord>, name: string)
    requires WellFormed(c) && Inhabited(c)
    requires Resolve(c, answer, name).coords.Some?
    ensures var r := Resolve(c, answer, name);
      Normalize(name) != ProtoKey ==> Resolve(r.cache, answer, name) == Resolution(r.coords, r.cache, [])
    ensures var r := Resolve(c, answer, name);
      Normalize(name) == ProtoKey ==> r.cache == c && Resolve(r.cache, answer, name) == r
  {
    var r := Resolve(c, answer, name);
    if GetCached(c, name).None? && Normalize(name) == ProtoKey {
      ResolveCachesUnderFullName(c, answer, name);
    } else if GetCached(c, name).None? {
      var n := Normalize(name);
      if n == "" {
        BlankNameHitsFirstEntry(c, name);
      }
      assert n != "";
      MissMatchesNoKey(c, name);
      ResolveCachesUnderFullName(c, answer, name);
      var keys := r.cache.keys;
      assert keys[|c.keys|] == n;
      ContainsSelf(n);
      forall j | 0 <= j < |c.keys| ensures !Matches(keys[j], n) {
        assert keys[j] == c.keys[j];
      }
      GetCachedFirstMatch(r.cache, name, |c.keys|);
    }
  }

  /** Resolving keeps the cache inhabited: keys are never removed and the
      only key ever added is the normalized form of a name that missed, which
      is not empty. */
  lemma {:induction false} ResolveKeepsInhabited(c: Cache, answer: string -> Option<Coord>, name: string)
    requires WellFormed(c) && Inhabited(c)
    ensures Inhabited(Resolve(c, answer, name).cache)
  {
    var r := Resolve(c, answer, name);
    ResolveSpec(c, answer, name);
    if r.cache != c {
      if Normalize(name) == "" {
        BlankNameHitsFirstEntry(c, name);
      }
      assert r.cache.keys == c.keys || r.cache.keys == c.keys + [Normalize(name)];
    }
  }

  /** A one-word name (no comma, no white space) longer than two characters
      is sent twice on a miss: once as the full name and once as its own first
      word. */
  lemma SingleWordQueriedTwice(name: string)
    requires |name| > 2
    requires forall i :: 0 <= i < |name| ==> !IsWordBreak(name[i])
    ensures Queries(name) == [name, name]
  {
    SplitWithoutSeparator(name, ',');
    var t := Split(name, ',');
    assert t == [name];
    assert TrimStart(name) == name;
    assert TrimEnd(name) == name;
    assert TrimAll(t) == [name];
    assert NonEmpty([name]) == [name] + NonEmpty([]);
    assert CommaParts(name) == [name];
    assert FirstWord(name) == name;
  }

  lemma {:induction false} SplitWithoutSeparator(s: string, sep: char)
    requires sep !in s
    ensures Split(s, sep) == [s]
  {
    if s != [] {
      SplitWithoutSeparator(s[1..], sep);
      assert [s[0]] + s[1..] == s;
    }
  }

  // ---------------------------------------------------------------------
  // The batch resolver

  /** One call of batchGetCoordinates: the name-to-coordinate results, the
      cache afterwards and every provider query sent, in order. */
  datatype Batch = Batch(results: map<string, Coord>, cache: Cache, asked: seq<string>)

  /** Resolve `names` one after the other, each against the cache the
      previous ones left, recording only the names that resolved. */
  function ResolveEach(c: Cache, answer: string -> Option<Coord>, names: seq<string>): (b: Batch)
    requires WellFormed(c)
    ensures WellFormed(b.cache)
    ensures forall k :: k in b.results ==> k in names && ValidCoord(b.results[k])
    decreases |names|
  {
    if names == [] then Batch(map[], c, [])
    else
      var prev := ResolveEach(c, answer, names[..|names| - 1]);
      var name := names[|names| - 1];
      var r := Resolve(prev.cache, answer, name);
      Batch(if r.coords.Some? then prev.results[name := r.coords.value] else prev.results,
            r.cache, prev.asked + r.asked)
  }

  /** batchGetCoordinates: de-duplicates the non-empty names in order of first
      occurrence and resolves them one at a time; only names that resolved
      appear in the results, each with a valid coordinate. */
  function BatchResolve(c: Cache, answer: string -> Option<Coord>, names: seq<string>): (b: Batch)
    requires WellFormed(c)
    ensures WellFormed(b.cache)
    ensures forall k :: k in b.results ==> k != "" && k in names && ValidCoord(b.results[k])
    ensures (forall x :: x in names ==> x == "") ==> b == Batch(map[], c, [])
  {
    var unique := DistinctNonEmpty(names);
    assert unique != [] ==> unique[0] in names && unique[0] != "";
    ResolveEach(c, answer, unique)
  }

  /** Each of the distinct names is in the results exactly when its own
      resolution, against the cache left by the names before it, succeeded,
      and then with that coordinate. */
  lemma {:induction false} ResolveEachResults(c: Cache, answer: string -> Option<Coord>, names: seq<string>, i: nat)
    requires WellFormed(c)
    requires forall p, q :: 0 <= p < q < |names| ==> names[p] != names[q]
    requires i < |names|
    ensures var r := Resolve(ResolveEach(c, answer, names[..i]).cache, answer, names[i]);
      && MapGet(ResolveEach(c, answer, names).results, names[i]) == r.coords
    decreases |names|
  {
    var last := |names| - 1;
    var prefix := names[..last];
    var prev := ResolveEach(c, answer, prefix);
    if i < last {
      assert prefix[..i] == names[..i];
      assert prefix[i] == names[i];
      ResolveEachResults(c, answer, prefix, i);
      assert names[last] != names[i];
    } else {
      assert names[..i] == prefix;
      forall j | 0 <= j < |prefix| ensures prefix[j] != names[last] {
        assert prefix[j] == names[j];
      }
      assert names[i] !in prev.results;
    }
  }

  // ---------------------------------------------------------------------
  // Format conversions and the distance guard

  /** arrayToCoordinate: a two-element array of numbers becomes
      `{ lat, lng }` with no range check; anything else gives null. */
  function ArrayToCoordinate(v: JsValue): (r: JsValue)
    ensures r.Null? <==> !(v.Arr? && |v.items| == 2 && v.items[0].Num? && v.items[1].Num?)
    ensures r.Obj? ==> r.fields == map["lat" := v.items[0], "lng" := v.items[1]]
    ensures r.Null? || r.Obj?
  {
    if v.Arr? && |v.items| == 2 && v.items[0].Num? && v.items[1].Num?
    then Obj(map["lat" := v.items[0], "lng" := v.items[1]])
    else Null
  }

  /** coordinateToArray: `[lat, lng]` for a valid coordinate, else null. */
  function CoordinateToArray(v: JsValue): (r: JsValue)
    ensures r.Null? <==> !IsValidCoordinate(v)
    ensures r.Arr? ==> r.items == [v.fields["lat"], v.fields["lng"]]
  {
    if IsValidCoordinate(v) then Arr([Property(v, "lat"), Property(v, "lng")]) else Null
  }

  /** A `[lat, lng]` array of finite numbers within range. */
  predicate InRangePair(v: JsValue)
  {
    && v.Arr? && |v.items| == 2
    && v.items[0].Num? && v.items[0].n.Finite? && -90.0 <= v.items[0].n.val <= 90.0
    && v.items[1].Num? && v.items[1].n.Finite? && -180.0 <= v.items[1].n.val <= 180.0
  }

  /** Converting an array to an object and back gives the array back when it
      is an in-range `[lat, lng]` pair, and null for every other value. */
  lemma ArrayRoundTrip(v: JsValue)
    ensures CoordinateToArray(ArrayToCoordinate(v)) == if InRangePair(v) then v else Null
  {
    if InRangePair(v) {
      assert v == Arr([v.items[0], v.items[1]]);
    }
  }

  /** Converting a valid coordinate to an array and back gives a valid
      coordinate with the same lat and lng (other properties are dropped). */
  lemma CoordinateRoundTrip(v: JsValue)
    requires IsValidCoordinate(v)
    ensures var w := ArrayToCoordinate(CoordinateToArray(v));
      IsValidCoordinate(w) && w.fields["lat"] == v.fields["lat"] && w.fields["lng"] == v.fields["lng"]
  {
  }

  /** calculateDistance: 0 when either argument fails isValidCoordinate;
      otherwise the Haversine formula, given here as `haversine` over the two
      latitudes and longitudes in degrees. */
  function CalculateDistance(from: JsValue, to: JsValue, haversine: (real, real, real, real) -> real): (d: real)
    ensures !IsValidCoordinate(from) || !IsValidCoordinate(to) ==> d == 0.0
    ensures IsValidCoordinate(from) && IsValidCoordinate(to) ==>
      d == haversine(from.fields["lat"].n.val, from.fields["lng"].n.val, to.fields["lat"].n.val, to.fields["lng"].n.val)
  {
    if !IsValidCoordinate(from) || !IsValidCoordinate(to) then 0.0
    else haversine(Property(from, "lat").n.val, Property(from, "lng").n.val,
                   Property(to, "lat").n.val, Property(to, "lng").n.val)
  }
}
