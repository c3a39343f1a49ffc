/** The station directory handler (api/stations.ts): a single-slot,
    process-wide cache of the raw upstream station payload with a 24-hour
    time-to-live, and the record-by-record normalisation into `Station`s.
    The clock reading `now`, the upstream fetch result and the deployment
    mode are parameters; the slot is threaded through explicitly. */
module StationsApi {
  import opened Wrappers
  import opened Types

  /** 24 hours in milliseconds. */
  const CacheTtl: nat := 24 * 60 * 60 * 1000

  const CacheControl := "s-maxage=86400, stale-while-revalidate=604800"
  const GenericFailure := "Failed to fetch stations. Please try again."

  datatype StationNames = StationNames(zhTw: string, en: string)

  datatype Position = Position(positionLat: Option<real>, positionLon: Option<real>)

  /** One upstream station record; `StationPosition` may be absent. */
  datatype RawStation = RawStation(
    stationId: string,
    stationName: StationNames,
    stationPosition: Option<Position>)

  /** The upstream payload: a bare array, or an object whose `Stations`
      field may be absent. */
  datatype StationPayload =
    | StationArray(items: seq<RawStation>)
    | StationObject(stations: Option<seq<RawStation>>)

  /** The cached raw payload and the instant (epoch ms) it goes stale. */
  datatype CacheSlot = CacheSlot(data: StationPayload, expires: int)

  type Cache = Option<CacheSlot>

  /** The reply, the `Cache-Control` header if one was set, the slot after
      the call, and whether an upstream fetch was made. */
  datatype Served = Served(reply: HttpReply<seq<Station>>, cacheControl: Option<string>,
                           cache: Cache, fetched: bool)

  /** The raw records of a payload: the array itself, the `Stations` field of
      an object, or nothing when that field is absent. */
  function RawList(p: StationPayload): seq<RawStation> {
    match p
    case StationArray(items) => items
    case StationObject(stations) => stations.GetOr([])
  }

  function Normalize(s: RawStation): Station {
    Station(
      id := s.stationId,
      name := s.stationName.zhTw,
      nameEn := s.stationName.en,
      lat := if s.stationPosition.Some? then s.stationPosition.value.positionLat else None,
      lon := if s.stationPosition.Some? then s.stationPosition.value.positionLon else None)
  }

  /** The directory as served: one `Station` per raw record, same order. */
  function NormalizeAll(p: StationPayload): (r: seq<Station>)
    ensures |r| == |RawList(p)|
    ensures forall i :: 0 <= i < |r| ==>
              && r[i].id == RawList(p)[i].stationId
              && r[i].name == RawList(p)[i].stationName.zhTw
              && r[i].nameEn == RawList(p)[i].stationName.en
              && (RawList(p)[i].stationPosition.None? ==> r[i].lat.None? && r[i].lon.None?)
              && (RawList(p)[i].stationPosition.Some? ==>
                    r[i].lat == RawList(p)[i].stationPosition.value.positionLat
                    && r[i].lon == RawList(p)[i].stationPosition.value.positionLon)
  {
    var raw := RawList(p);
    seq(|raw|, i requires 0 <= i < |raw| => Normalize(raw[i]))
  }

  /** A cache hit: the slot is filled and strictly not yet expired. */
  predicate IsFresh(cache: Cache, now: int) {
    cache.Some? && cache.value.expires > now
  }

  /** One request to the directory handler. */
  function Handle(cache: Cache, now: int, fetch: Result<StationPayload>, development: bool): (s: Served)
    ensures s.fetched <==> !(cache.Some? && cache.value.expires > now)
    ensures !s.fetched ==>
              s.cache == cache && s.reply == HttpReply(200, Json(NormalizeAll(cache.value.data)))
    ensures s.fetched && fetch.Ok? ==>
              && s.cache == Some(CacheSlot(fetch.value, now + CacheTtl))
              && s.reply == HttpReply(200, Json(NormalizeAll(fetch.value)))
    ensures s.fetched && fetch.Err? ==>
              && s.cache == cache
              && s.reply == HttpReply(500, ErrorJson(if development then fetch.error else GenericFailure))
    ensures s.reply.status == 200 <==> s.cacheControl == Some(CacheControl)
  {
    if IsFresh(cache, now) then
      Served(HttpReply(200, Json(NormalizeAll(cache.value.data))), Some(CacheControl), cache, false)
    else
      match fetch
      case Ok(data) =>
        Served(HttpReply(200, Json(NormalizeAll(data))), Some(CacheControl),
               Some(CacheSlot(data, now + CacheTtl)), true)
      case Err(e) =>
        Served(HttpReply(500, ErrorJson(if development then e else GenericFailure)), None, cache, true)
  }

  /** After a successful refresh at `t1`, any request before `t1 + CacheTtl`
      is answered from the slot, without a fetch, with the same directory,
      whatever the upstream would have answered. */
  lemma RefreshServesWholeWindow(cache: Cache, t1: int, data: StationPayload, dev1: bool,
                                 t2: int, fetch2: Result<StationPayload>, dev2: bool)
    requires Handle(cache, t1, Ok(data), dev1).fetched
    requires t1 <= t2 < t1 + CacheTtl
    ensures var first := Handle(cache, t1, Ok(data), dev1);
            var second := Handle(first.cache, t2, fetch2, dev2);
            !second.fetched && second.reply == first.reply && second.cache == first.cache
  {
  }

  /** Once the window of a refresh has elapsed the next request fetches again. */
  lemma ExpiredSlotRefetches(cache: Cache, t1: int, data: StationPayload, dev1: bool,
                             t2: int, fetch2: Result<StationPayload>, dev2: bool)
    requires Handle(cache, t1, Ok(data), dev1).fetched
    requires t2 >= t1 + CacheTtl
    ensures var first := Handle(cache, t1, Ok(data), dev1);
            Handle(first.cache, t2, fetch2, dev2).fetched
  {
  }

  /** A failed refresh keeps the stale slot, so the next request retries. */
  lemma FailedRefreshRetriesNextTime(cache: Cache, now: int, e: string, dev: bool,
                                     later: int, fetch2: Result<StationPayload>, dev2: bool)
    requires !IsFresh(cache, now)
    requires later >= now
    ensures var first := Handle(cache, now, Err(e), dev);
            first.reply.status == 500 && Handle(first.cache, later, fetch2, dev2).fetched
  {
  }
}
