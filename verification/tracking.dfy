/** The public tracking route of packages.js, GET /track/:trackingNumber:
    check the parameter, read the row, collect the locations of its history
    and its current location, geocode them in one batch through the shared
    location cache, and answer with the row and every history entry enriched
    by its coordinate. */
module Tracking {
  import opened Common
  import opened Coordinates
  import opened CoordinateCache
  import opened Admin

  // ---------------------------------------------------------------------
  // The route parameter

  /** Joi's `alphanum()` as the route applies it: a non-empty string of ASCII
      letters and digits. */
  predicate IsAlphanumeric(s: string)
    ensures IsAlphanumeric(s) ==> '_' !in s && '-' !in s
  {
    s != "" && forall i :: 0 <= i < |s| ==> IsAsciiLetterOrDigit(s[i])
  }

  /** As written, the check refuses a tracking number exactly when the nanoid
      it came from holds a '_' or a '-': such numbers are issued by register
      and then answered 400 by the tracking route. */
  lemma AlphanumRejectsRegisteredNumbers(id: string)
    requires IsNanoid(id)
    ensures IsAlphanumeric(TrackingNumberFor(id)) <==> forall i :: 0 <= i < |id| ==> IsAsciiLetterOrDigit(id[i])
  {
    var tn := TrackingNumberFor(id);
    TrackingNumberShape(id);
    forall i | 0 <= i < |id| ensures IsAsciiLetterOrDigit(tn[i + 2]) <==> IsAsciiLetterOrDigit(id[i]) {
      assert tn[i + 2] == UpperChar(id[i]);
    }
    assert IsAsciiLetterOrDigit(tn[0]) && IsAsciiLetterOrDigit(tn[1]);
  }

  /** A concrete number register can issue that the check as written refuses. */
  lemma AlphanumRejectsUnderscore(id: string)
    requires id == "abc_123-xy"
    ensures IsNanoid(id) && !IsAlphanumeric(TrackingNumberFor(id))
  {
    assert TrackingNumberFor(id)[5] == UpperChar(id[3]) == '_';
  }

  /** The check as intended: a non-empty string over nanoid's alphabet, so
      that every number register issues is accepted. */
  predicate IsTrackingParam(s: string)
    ensures IsAlphanumeric(s) ==> IsTrackingParam(s)
    ensures IsTrackingParam(s) && !IsAlphanumeric(s) ==>
      exists i :: 0 <= i < |s| && (s[i] == '_' || s[i] == '-')
  {
    s != "" && forall i :: 0 <= i < |s| ==> IsNanoidChar(s[i])
  }

  lemma RegisteredNumbersPass(id: string)
    requires IsNanoid(id)
    ensures IsTrackingParam(TrackingNumberFor(id))
  {
    TrackingNumberShape(id);
  }

  // ---------------------------------------------------------------------
  // Locations to geocode

  /** `item.location` of each history entry. */
  function Locations(h: seq<HistoryEntry>): (r: seq<string>)
    ensures |r| == |h| && forall i :: 0 <= i < |h| ==> r[i] == h[i].location
  {
    seq(|h|, i requires 0 <= i < |h| => h[i].location)
  }

  /** A nullable location as text; NULL is falsy like the empty string. */
  function LocationText(o: Option<string>): string
  {
    if o.Some? then o.value else ""
  }

  /** The list the handler geocodes: each truthy location of the history,
      then the current location, each once, in order of first occurrence. */
  function LocationsToGeocode(h: seq<HistoryEntry>, current: Option<string>): (r: seq<string>)
    ensures forall i, j :: 0 <= i < j < |r| ==> r[i] != r[j]
    ensures forall x :: x in r <==> x != "" && (x in Locations(h) || x == LocationText(current))
  {
    DistinctNonEmpty(Locations(h) + [LocationText(current)])
  }

  /** The list has no repeats and holds exactly the truthy locations; the
      current location comes last, and only when the history does not
      already name it. */
  lemma {:induction false} LocationsToGeocodeSpec(h: seq<HistoryEntry>, current: Option<string>)
    ensures var r := LocationsToGeocode(h, current);
      && (forall i, j :: 0 <= i < j < |r| ==> r[i] != r[j])
      && (forall x :: x in r <==> x != "" && (x in Locations(h) || x == LocationText(current)))
      && r == if LocationText(current) != "" && LocationText(current) !in Locations(h)
              then DistinctNonEmpty(Locations(h)) + [LocationText(current)]
              else DistinctNonEmpty(Locations(h))
  {
    DistinctNonEmptySnoc(Locations(h), LocationText(current));
  }

  /** The handler's `forEach` over the history, pushing each truthy
      location the list does not yet `includes`, then the current location
      likewise. */
  method CollectLocations(h: seq<HistoryEntry>, current: Option<string>) returns (locs: seq<string>)
    ensures locs == LocationsToGeocode(h, current)
  {
    ghost var all := Locations(h);
    locs := [];
    for i := 0 to |h|
      invariant locs == DistinctNonEmpty(all[..i])
    {
      var location := h[i].location;
      DistinctNonEmptySnoc(all[..i], location);
      TakeNext(all, i);
      if location != "" && location !in locs {
        locs := locs + [location];
      }
    }
    assert all[..|h|] == all;
    var here := LocationText(current);
    DistinctNonEmptySnoc(all, here);
    if here != "" && here !in locs {
      locs := locs + [here];
    }
  }

  // ---------------------------------------------------------------------
  // The response

  /** A history entry with `coordinates` added by object spread. */
  datatype TrackedEntry = TrackedEntry(entry: HistoryEntry, coordinates: Option<Coord>)

  datatype TrackResponse = TrackResponse(
    trackingNumber: string,
    sender: Option<Person>,
    receiver: Option<Person>,
    shipmentInfo: Option<ShipmentInfo>,
    status: Option<string>,
    location: Option<string>,
    coordinates: Option<Coord>,
    history: seq<TrackedEntry>)

  /** 200 with the response, 400 for a refused parameter, 404 "Package not
      found." for an unknown number. */
  datatype TrackReply = Tracked(response: TrackResponse) | Rejected | Missing

  /** `row.history || []`. */
  function HistoryOf(row: Package): seq<HistoryEntry>
  {
    if row.history.Some? then row.history.value else []
  }

  /** `v || null` for a nullable string: NULL and "" both become null. */
  function OrNull(v: Option<string>): (r: Option<string>)
    ensures r.Some? <==> v.Some? && v.value != ""
    ensures r.Some? ==> r == v
  {
    if v.Some? && v.value != "" then v else None
  }

  /** The property name `coordinateMap[v]` reads: a NULL location is looked
      up under the string "null". */
  function PropertyKey(v: Option<string>): (k: string)
    ensures v.Some? ==> k == v.value
    ensures v.None? ==> k == "null"
  {
    if v.Some? then v.value else "null"
  }

  /** The `map` over the history: every entry kept, in order, with
      `coordinateMap[item.location] || null` added (the map holds only
      objects, all truthy). */
  function Enrich(h: seq<HistoryEntry>, m: map<string, Coord>): (r: seq<TrackedEntry>)
    ensures |r| == |h|
    ensures forall i :: 0 <= i < |h| ==> r[i].entry == h[i]
    ensures forall i :: 0 <= i < |h| ==> (r[i].coordinates.Some? <==> h[i].location in m)
    ensures forall i :: 0 <= i < |h| ==> r[i].coordinates.Some? ==> r[i].coordinates.value == m[h[i].location]
  {
    seq(|h|, i requires 0 <= i < |h| => TrackedEntry(h[i], MapGet(m, h[i].location)))
  }

  /** The JSON the handler answers with: the row's number and sections
      copied, falsy status and location as null, the top-level coordinate
      `coordinateMap[row.location] || null` looked up under the current
      location (under "null" when that is NULL), and the enriched history. */
  function Respond(row: Package, m: map<string, Coord>): (r: TrackResponse)
    ensures r.trackingNumber == row.trackingNumber
    ensures r.sender == row.sender && r.receiver == row.receiver && r.shipmentInfo == row.shipmentInfo
    ensures r.status == OrNull(row.status) && r.location == OrNull(row.location)
    ensures row.location.Some? ==> (r.coordinates.Some? <==> row.location.value in m)
    ensures row.location.None? ==> (r.coordinates.Some? <==> "null" in m)
    ensures r.coordinates.Some? ==> r.coordinates.value == m[PropertyKey(row.location)]
    ensures r.history == Enrich(HistoryOf(row), m)
  {
    TrackResponse(row.trackingNumber, row.sender, row.receiver, row.shipmentInfo,
                  OrNull(row.status), OrNull(row.location),
                  MapGet(m, PropertyKey(row.location)),
                  Enrich(HistoryOf(row), m))
  }

  /** The reply with the cache and the provider queries it leaves. */
  datatype TrackResult = TrackResult(reply: TrackReply, cache: Cache, asked: seq<string>)

  /** GET /track/:trackingNumber over the table and the cache, with the
      parameter check as intended (IsTrackingParam). */
  function TrackOutcome(table: map<string, Package>, c: Cache, answer: string -> Option<Coord>, tn: string): (r: TrackResult)
    requires WellFormed(c)
    ensures WellFormed(r.cache)
    ensures r.reply.Rejected? <==> !IsTrackingParam(tn)
    ensures r.reply.Missing? <==> IsTrackingParam(tn) && tn !in table
    ensures !r.reply.Tracked? ==> r.cache == c && r.asked == []
  {
    if !IsTrackingParam(tn) then TrackResult(Rejected, c, [])
    else if tn !in table then TrackResult(Missing, c, [])
    else
      var b := GeocodeRow(c, answer, table[tn]);
      TrackResult(Tracked(Respond(table[tn], b.results)), b.cache, b.asked)
  }

  /** The handler's batch over the row's locations, skipped when there is
      none: every key of the coordinate map is a non-empty location of the
      row, with a valid coordinate. */
  function GeocodeRow(c: Cache, answer: string -> Option<Coord>, row: Package): (b: Batch)
    requires WellFormed(c)
    ensures WellFormed(b.cache)
    ensures forall k :: k in b.results ==>
      && k != "" && k in LocationsToGeocode(HistoryOf(row), row.location)
      && ValidCoord(b.results[k])
  {
    var locs := LocationsToGeocode(HistoryOf(row), row.location);
    if |locs| > 0 then BatchResolve(c, answer, locs) else Batch(map[], c, [])
  }

  /** A tracked response describes the row filed under the number asked for:
      its history in order, each entry with a valid coordinate only when its
      location is non-empty, and the row's status and location. */
  lemma {:induction false} TrackedResponse(table: map<string, Package>, c: Cache, answer: string -> Option<Coord>, tn: string)
    requires WellFormed(c) && ValidTable(table)
    requires TrackOutcome(table, c, answer, tn).reply.Tracked?
    ensures var resp := TrackOutcome(table, c, answer, tn).reply.response;
      var row := table[tn];
      && resp.trackingNumber == tn
      && resp.sender == row.sender && resp.receiver == row.receiver && resp.shipmentInfo == row.shipmentInfo
      && resp.status == row.status && resp.location == row.location
      && |resp.history| == |row.history.value|
      && (forall i :: 0 <= i < |resp.history| ==> resp.history[i].entry == row.history.value[i])
      && (forall i :: 0 <= i < |resp.history| && resp.history[i].coordinates.Some? ==>
            resp.history[i].entry.location != "" && ValidCoord(resp.history[i].coordinates.value))
      && (resp.coordinates.Some? ==> ValidCoord(resp.coordinates.value))
  {
    var row := table[tn];
    var b := GeocodeRow(c, answer, row);
    assert TrackOutcome(table, c, answer, tn).reply.response == Respond(row, b.results);
    assert Stored(tn, row);
    EmptyIsNoStatus();
    assert HistoryOf(row) == row.history.value;
    assert OrNull(row.status) == row.status && OrNull(row.location) == row.location;
    RespondKeepsRow(row, b.results);
  }

  /** With a map whose keys are non-empty and whose values are valid, the
      response keeps the row's history in order and adds only valid
      coordinates, and only to entries with a location. */
  lemma RespondKeepsRow(row: Package, m: map<string, Coord>)
    requires forall k :: k in m ==> k != "" && ValidCoord(m[k])
    ensures var resp := Respond(row, m);
      && |resp.history| == |HistoryOf(row)|
      && (forall i :: 0 <= i < |resp.history| ==> resp.history[i].entry == HistoryOf(row)[i])
      && (forall i :: 0 <= i < |resp.history| && resp.history[i].coordinates.Some? ==>
            resp.history[i].entry.location != "" && ValidCoord(resp.history[i].coordinates.value))
      && (resp.coordinates.Some? ==> ValidCoord(resp.coordinates.value))
  {
  }

  /** A package just registered is found by the tracking route under the
      number register answered with: pending, at its origin, with one
      history entry. */
  lemma RegisteredPackageIsTracked(table: map<string, Package>, b: RegisterBody, id: string, now: string,
                                   c: Cache, answer: string -> Option<Coord>)
    requires IsNanoid(id) && WellFormed(c)
    requires RegisterOutcome(table, b, id, now).reply.Created?
    ensures var tn := TrackingNumberFor(id);
      var r := TrackOutcome(RegisterOutcome(table, b, id, now).table, c, answer, tn);
      && r.reply.Tracked?
      && r.reply.response.status == Some("pending")
      && r.reply.response.location == Some(b.origin)
      && |r.reply.response.history| == 1
  {
    RegisteredNumbersPass(id);
  }

  // ---------------------------------------------------------------------
  // The handler

  /** The route handler: the batch geocoder runs only when there is a
      location to geocode. */
  method Track(store: PackageStore, cache: LocationCache, geo: Geocoder, tn: string) returns (reply: TrackReply)
    requires cache.Valid()
    modifies cache, geo
    ensures var r := TrackOutcome(store.table, old(cache.state), geo.answer, tn);
      && reply == r.reply
      && cache.state == r.cache
      && geo.log == old(geo.log) + r.asked
    ensures cache.Valid()
  {
    if !IsTrackingParam(tn) {
      return Rejected;
    }
    if tn !in store.table {
      return Missing;
    }
    var row := store.table[tn];
    var locs := CollectLocations(HistoryOf(row), row.location);
    var coordinateMap: map<string, Coord> := map[];
    if |locs| > 0 {
      coordinateMap := cache.BatchGetCoordinates(geo, locs);
    }
    reply := Tracked(Respond(row, coordinateMap));
  }
}
