/** The geocoding service of coordinates.js as it runs: the module-level
    cache object that getCoordinates and cacheCoordinates update in place, and
    the provider that fetchNominatimCoordinates asks. Each method is proved
    against the pure definitions of module Coordinates. */
module CoordinateCache {
  import opened Common
  import opened Coordinates

  /** The geocoding provider behind fetchNominatimCoordinates. Its answer to
      a query is a fixed function of the query (an HTTP failure, an empty
      result list or a thrown error are all `None`); `log` records the
      queries actually sent, in order. */
  class Geocoder {
    const answer: string -> Option<Coord>
    var log: seq<string>

    constructor(answer: string -> Option<Coord>)
      ensures this.answer == answer && log == []
    {
      this.answer := answer;
      log := [];
    }

    /** fetchNominatimCoordinates: an empty query sends nothing and yields
        nothing; any other query is sent once and yields the provider's
        answer unchecked (it may be out of range or NaN). */
    method Fetch(query: string) returns (r: Option<Coord>)
      modifies this
      ensures query == "" ==> r.None? && log == old(log)
      ensures query != "" ==> r == answer(query) && log == old(log) + [query]
    {
      if query == "" {
        return None;
      }
      log := log + [query];
      r := answer(query);
    }
  }

  /** The object `locationCoordinateCache` together with the functions that
      read and update it. */
  class LocationCache {
    var state: Cache

    ghost predicate Valid()
      reads this
    {
      WellFormed(state)
    }

    /** The cache as module load leaves it: the sixteen seeded hubs. */
    constructor()
      ensures Valid() && state == Seed()
    {
      state := Seed();
    }

    /** cacheCoordinates: refuses an empty name or an invalid coordinate and
        leaves the cache alone; otherwise stores a copy of the coordinate
        under the normalized name, which for "__proto__" adds no key. */
    method CacheCoordinates(name: string, coords: Coord) returns (ok: bool)
      requires Valid()
      modifies this
      ensures ok == Storable(name, coords)
      ensures state == Store(old(state), name, coords)
      ensures Valid()
    {
      if name == "" || !ValidCoord(coords) {
        return false;
      }
      var key := Normalize(name);
      // Assigning "__proto__" replaces the prototype and adds no own key.
      if key != ProtoKey {
        state := Cache(if key in state.entries then state.keys else state.keys + [key],
                       state.entries[key := coords]);
      }
      ok := true;
    }

    /** getCoordinates: the cache first; on a miss the provider queries of
        FetchWithFallbacks, and the first valid answer is cached under the
        full name and returned. */
    method GetCoordinates(geo: Geocoder, name: string) returns (r: Option<Coord>)
      requires Valid()
      modifies this, geo
      ensures var res := Resolve(old(state), geo.answer, name);
        && r == res.coords
        && state == res.cache
        && geo.log == old(geo.log) + res.asked
      ensures Valid()
    {
      if name == "" {
        return None;
      }
      var cached := GetCached(state, name);
      if cached.Some? {
        return cached;
      }
      ResolveMiss(state, geo.answer, name);
      r := FetchWithFallbacks(geo, name);
      if r.Some? {
        var _ := CacheCoordinates(name, r.value);
      }
    }

    /** batchGetCoordinates: resolves each distinct non-empty name once, in
        order of first occurrence, and keeps the names that resolved. */
    method BatchGetCoordinates(geo: Geocoder, locations: seq<string>) returns (results: map<string, Coord>)
      requires Valid()
      modifies this, geo
      ensures var b := BatchResolve(old(state), geo.answer, locations);
        && results == b.results
        && state == b.cache
        && geo.log == old(geo.log) + b.asked
      ensures Valid()
    {
      var unique := DistinctNonEmpty(locations);
      results := ResolveInOrder(geo, unique);
    }

    /** The loop of batchGetCoordinates: getCoordinates on each name in turn,
        recording the names that resolved. */
    method ResolveInOrder(geo: Geocoder, names: seq<string>) returns (results: map<string, Coord>)
      requires Valid()
      modifies this, geo
      ensures var b := ResolveEach(old(state), geo.answer, names);
        && results == b.results
        && state == b.cache
        && geo.log == old(geo.log) + b.asked
      ensures Valid()
    {
      results := map[];
      for i := 0 to |names|
        invariant var b := ResolveEach(old(state), geo.answer, names[..i]);
          && results == b.results
          && state == b.cache
          && geo.log == old(geo.log) + b.asked
        invariant Valid()
      {
        ghost var prevLog := geo.log;
        var coords := GetCoordinates(geo, names[i]);
        if coords.Some? {
          results := results[names[i] := coords.value];
        }
        ResolveEachStep(old(state), geo.answer, names, i, old(geo.log), prevLog, coords, results, state, geo.log);
      }
      assert names[..|names|] == names;
    }
  }

  /** Steps 2 to 4 of getCoordinates: the full name, then the fallbacks
      (FetchFallbacks); the first answer that passes isValidCoordinate ends
      the search. */
  method FetchWithFallbacks(geo: Geocoder, name: string) returns (r: Option<Coord>)
    requires name != ""
    modifies geo
    ensures var a := Attempt(geo.answer, Queries(name));
      && r == a.found
      && geo.log == old(geo.log) + a.asked
  {
    ghost var answer := geo.answer;
    ghost var rest := Queries(name)[1..];
    assert Queries(name) == [name] + rest;
    AttemptAppend(answer, [name], rest);
    r := geo.Fetch(name);
    if r.Some? && ValidCoord(r.value) {
      AttemptStopsAfter(answer, [], name, []);
      assert [] + [name] + [] == [name];
      return;
    }
    AttemptAllRejected(answer, [name]);
    r := FetchFallbacks(geo, name);
    ConcatAssoc(old(geo.log), [name], Attempt(answer, rest).asked);
  }

  /** Steps 3 and 4 of getCoordinates: when the comma split leaves more than
      one non-empty part, the parts (FetchParts), then the first word when it
      is longer than two characters. */
  method FetchFallbacks(geo: Geocoder, name: string) returns (r: Option<Coord>)
    requires name != ""
    modifies geo
    ensures var a := Attempt(geo.answer, Queries(name)[1..]);
      && r == a.found
      && geo.log == old(geo.log) + a.asked
  {
    ghost var answer := geo.answer;
    var parts := CommaParts(name);
    var word := FirstWord(name);
    ghost var long := if |parts| > 1 then LongParts(parts) else [];
    ghost var last := if |word| > 2 then [word] else [];
    QueriesAfterName(name);
    AttemptAppend(answer, long, last);
    // the comma-separated parts
    if |parts| > 1 {
      r := FetchParts(geo, parts);
      if r.Some? {
        return;
      }
      AttemptSpec(answer, long);
    } else {
      assert long == [];
    }
    assert Attempt(answer, long) == Attempted(None, long);
    ConcatAssoc(old(geo.log), long, Attempt(answer, last).asked);
    // the first word
    r := FetchWord(geo, word);
  }

  /** The fallback queries: the long comma parts, when there are several
      parts, then the first word, when it is longer than two characters. */
  lemma QueriesAfterName(name: string)
    requires name != ""
    ensures Queries(name)[1..]
         == (if |CommaParts(name)| > 1 then LongParts(CommaParts(name)) else [])
            + (if |FirstWord(name)| > 2 then [FirstWord(name)] else [])
  {
    var parts, word := CommaParts(name), FirstWord(name);
    var long := if |parts| > 1 then LongParts(parts) else [];
    var last := if |word| > 2 then [word] else [];
    assert Queries(name) == [name] + long + last;
    DropHead(name, long, last);
  }

  /** Step 4 of getCoordinates: the text before the first white space or
      comma, sent only when it is longer than two characters. */
  method FetchWord(geo: Geocoder, word: string) returns (r: Option<Coord>)
    modifies geo
    ensures var a := Attempt(geo.answer, if |word| > 2 then [word] else []);
      && r == a.found
      && geo.log == old(geo.log) + a.asked
  {
    ghost var answer := geo.answer;
    if |word| > 2 {
      r := geo.Fetch(word);
      if r.Some? && ValidCoord(r.value) {
        AttemptStopsAfter(answer, [], word, []);
        assert [] + [word] + [] == [word];
        return;
      }
      AttemptAllRejected(answer, [word]);
    } else {
      AttemptAllRejected(answer, []);
    }
    r := None;
  }

  /** The loop over the comma parts: each part of three or more characters
      is sent in order until one is answered with a valid coordinate. */
  method FetchParts(geo: Geocoder, parts: seq<string>) returns (r: Option<Coord>)
    modifies geo
    ensures var a := Attempt(geo.answer, LongParts(parts));
      && r == a.found
      && geo.log == old(geo.log) + a.asked
  {
    ghost var answer := geo.answer;
    for i := 0 to |parts|
      invariant geo.log == old(geo.log) + LongParts(parts[..i])
      invariant forall q :: q in LongParts(parts[..i]) ==> !Accepted(answer(q))
    {
      var part := parts[i];
      LongPartsStep(parts, i);
      if |part| < 3 {
        continue;
      }
      var coords := geo.Fetch(part);
      if coords.Some? && ValidCoord(coords.value) {
        LongPartsSplit(parts, i);
        AttemptStopsAfter(answer, LongParts(parts[..i]), part, LongParts(parts[i + 1..]));
        return coords;
      }
    }
    assert parts[..|parts|] == parts;
    AttemptAllRejected(answer, LongParts(parts));
    return None;
  }

  /** The loop invariant of ResolveInOrder carried over one more name. */
  lemma {:induction false} ResolveEachStep(c: Cache, answer: string -> Option<Coord>, names: seq<string>, i: nat,
                        log0: seq<string>, log1: seq<string>, coords: Option<Coord>,
                        results: map<string, Coord>, cache: Cache, log2: seq<string>)
    requires WellFormed(c) && i < |names|
    requires var prev := ResolveEach(c, answer, names[..i]);
      var r := Resolve(prev.cache, answer, names[i]);
      && log1 == log0 + prev.asked
      && coords == r.coords && cache == r.cache && log2 == log1 + r.asked
      && results == (if coords.Some? then prev.results[names[i] := coords.value] else prev.results)
    ensures var b := ResolveEach(c, answer, names[..i + 1]);
      && results == b.results && cache == b.cache && log2 == log0 + b.asked
  {
    var prev := ResolveEach(c, answer, names[..i]);
    var r := Resolve(prev.cache, answer, names[i]);
    var s := names[..i + 1];
    assert s[..|s| - 1] == names[..i];
    assert s[|s| - 1] == names[i];
    assert ResolveEach(c, answer, s)
        == Batch(if r.coords.Some? then prev.results[names[i] := r.coords.value] else prev.results,
                 r.cache, prev.asked + r.asked);
    ConcatAssoc(log0, prev.asked, r.asked);
  }

  lemma LongPartsSplit(parts: seq<string>, i: nat)
    requires i < |parts| && |parts[i]| >= 3
    ensures LongParts(parts) == LongParts(parts[..i]) + [parts[i]] + LongParts(parts[i + 1..])
  {
    assert parts == parts[..i] + ([parts[i]] + parts[i + 1..]);
    LongPartsAppend(parts[..i], [parts[i]] + parts[i + 1..]);
    LongPartsAppend([parts[i]], parts[i + 1..]);
    assert [parts[i]][1..] == [];
    assert LongParts([parts[i]]) == [parts[i]];
  }

  /** Moving past index i adds parts[i] to the queries sent exactly when it
      is long enough to be sent. */
  lemma LongPartsStep(parts: seq<string>, i: nat)
    requires i < |parts|
    ensures LongParts(parts[..i + 1]) == LongParts(parts[..i]) + (if |parts[i]| >= 3 then [parts[i]] else [])
  {
    assert parts[..i + 1] == parts[..i] + [parts[i]];
    LongPartsAppend(parts[..i], [parts[i]]);
    assert [parts[i]][1..] == [];
  }

  // ---------------------------------------------------------------------
  // The cache at startup

  /** "New York, NY" hits the seeded key "new york": the normalized name
      contains it, and neither "london" nor "paris" before it matches. */
  lemma NewYorkHitsSeed(c: Cache, name: string)
    requires c == Seed() && name == "New York, NY"
    ensures GetCached(c, name) == Some(Coord(Finite(40.7128), Finite(-74.0060)))
  {
    NormalizeNewYork();
    NewYorkThirdEntry(c, name, "new york, ny");
    SeedNewYork();
  }

  lemma NewYorkThirdEntry(c: Cache, name: string, normalized: string)
    requires WellFormed(c) && c.keys == SeedKeys
    requires normalized == "new york, ny"
    requires name != "" && Normalize(name) == normalized
    ensures GetCached(c, name) == Some(c.entries[c.keys[2]])
  {
    NewYorkPassesLondonAndParis(c.keys, normalized);
    GetCachedHitAt(c, name, normalized, 2);
  }

  lemma NewYorkPassesLondonAndParis(keys: seq<string>, normalized: string)
    requires keys == SeedKeys && normalized == "new york, ny"
    ensures |keys| > 2 && keys[2] != ""
    ensures Matches(keys[2], normalized)
    ensures forall j :: 0 <= j < 2 ==> !Matches(keys[j], normalized)
  {
    SeedFirstKeys();
    NewYorkAfterLondonAndParis(keys, normalized);
  }

  lemma SeedFirstKeys()
    ensures |SeedKeys| > 2 && SeedKeys[0] == "london" && SeedKeys[1] == "paris" && SeedKeys[2] == "new york"
  {
  }

  lemma NewYorkAfterLondonAndParis(keys: seq<string>, normalized: string)
    requires |keys| > 2 && keys[0] == "london" && keys[1] == "paris" && keys[2] == "new york"
    requires normalized == "new york, ny"
    ensures Matches(keys[2], normalized)
    ensures forall j :: 0 <= j < 2 ==> !Matches(keys[j], normalized)
  {
    assert OccursAt(normalized, keys[2], 0);
    assert 'l' !in normalized && 'p' !in normalized;
    NoMatch(keys[0], normalized);
    NoMatch(keys[1], normalized);
  }

  lemma SeedNewYork()
    ensures SeedCoords[2] == Coord(Finite(40.7128), Finite(-74.0060))
  {
  }

  lemma NormalizeNewYork()
    ensures Normalize("New York, NY") == "new york, ny"
  {
    calc {
      Normalize("New York, NY");
      Trim(ToLower("New York, NY"));
      { LowerNewYork(); }
      Trim("new york, ny");
      { TrimUnpadded("new york, ny"); }
      "new york, ny";
    }
  }

  lemma LowerNewYork()
    ensures ToLower("New York, NY") == "new york, ny"
  {
    var s, t := "New York, NY", "new york, ny";
    forall i | 0 <= i < |s| ensures LowerChar(s[i]) == t[i] {
    }
    ToLowerPointwise(s, t);
  }

  /** A batch that repeats a seeded hub: "London" twice gives one entry, the
      seeded London coordinate, with no provider query and no cache change. */
  lemma LondonTwice(c: Cache, answer: string -> Option<Coord>, names: seq<string>)
    requires c == Seed() && names == ["London", "London"]
    ensures BatchResolve(c, answer, names)
         == Batch(map["London" := Coord(Finite(51.5074), Finite(-0.1278))], c, [])
  {
    DedupeLondon(names);
    NormalizeLondon();
    LondonFirstEntry(c, "London", "london");
    SeedLondon();
    ResolveEachCacheHit(c, answer, "London", SeedCoords[0]);
  }

  lemma DedupeLondon(names: seq<string>)
    requires names == ["London", "London"]
    ensures DistinctNonEmpty(names) == ["London"]
  {
    var one := names[..1];
    assert one[..0] == [];
    assert DistinctNonEmpty(one) == ["London"];
  }

  lemma LondonFirstEntry(c: Cache, name: string, normalized: string)
    requires WellFormed(c) && c.keys == SeedKeys
    requires normalized == "london"
    requires name != "" && Normalize(name) == normalized
    ensures GetCached(c, name) == Some(c.entries[c.keys[0]])
  {
    ContainsSelf(normalized);
    GetCachedHitAt(c, name, normalized, 0);
  }

  lemma SeedLondon()
    ensures SeedCoords[0] == Coord(Finite(51.5074), Finite(-0.1278))
  {
  }

  lemma NormalizeLondon()
    ensures Normalize("London") == "london"
  {
    calc {
      Normalize("London");
      Trim(ToLower("London"));
      { LowerLondon(); }
      Trim("london");
      { TrimUnpadded("london"); }
      "london";
    }
  }

  lemma LowerLondon()
    ensures ToLower("London") == "london"
  {
    var s, t := "London", "london";
    forall i | 0 <= i < |s| ensures LowerChar(s[i]) == t[i] {
    }
    ToLowerPointwise(s, t);
  }

  /** A batch of one name the cache already holds asks nothing and changes
      nothing. */
  lemma ResolveEachCacheHit(c: Cache, answer: string -> Option<Coord>, name: string, hit: Coord)
    requires WellFormed(c) && name != ""
    requires GetCached(c, name) == Some(hit)
    ensures ResolveEach(c, answer, [name]) == Batch(map[name := hit], c, [])
  {
    ResolveEachSingle(c, answer, name);
    ResolveSpec(c, answer, name);
  }

  /** A batch of one name is that name's resolution. */
  lemma ResolveEachSingle(c: Cache, answer: string -> Option<Coord>, name: string)
    requires WellFormed(c)
    ensures var r := Resolve(c, answer, name);
      ResolveEach(c, answer, [name])
        == Batch(if r.coords.Some? then map[name := r.coords.value] else map[], r.cache, r.asked)
  {
    assert [name][..0] == [];
  }
}
