# OnTrack train finder: a Dafny model of its core

OnTrack ("Mom, Come Pick Me Up!") lists the Taiwan Railway trains between
two stations and composes a pick-me-up message for the chosen train. This
project models the parts of it where the logic lives, and proves their
properties:

- **Schedule handler** (`Schedule`). It joins the day's timetable with the
  live-delay feed by train number. It keeps the trains whose first stop at
  the origin comes before their first stop at the destination. It derives
  each train's delay and status, sorts the result stably by departure time,
  and answers 400 or 500 on the error paths.
- **Station directory handler** (`StationsApi`). A single-slot cache with a
  24-hour lifetime sits in front of the upstream station list. The list is
  normalised to `{id, name, nameEn, lat, lon}` on every request.
- **Browser fetch coordinator** (`Client`). `fetchJson` keeps a registry of
  in-flight requests keyed by `url-attempt`, so a call that finds its key
  pending joins the existing request. A 429 reply is retried with backoffs
  of 1 s, 2 s and 4 s. Every other non-OK reply becomes
  `API Error <status>: <body>`; a network failure rejects with its own
  message.
- **Endpoints** (`Api`). These are the two URLs the client requests. The
  schedule query is serialised the way `URLSearchParams` does it
  (`FormEncoding`): the application/x-www-form-urlencoded serializer of
  section 5.2 of the WHATWG URL Standard, over UTF-8 as in section 3 of
  RFC 3629.
- **Persisted settings** (`Persistence`). Five local-storage slots are read
  once at start-up and written through setters. The setters for station
  ids accept an id only when it passes a validator.
- **Share message** (`ShareCard`). The message is built from the user's
  template by a chain of seven `String.prototype.replace` calls, each with a
  string pattern. Each call replaces only the first occurrence of its
  pattern. Each call works on the previous call's output. The replacement
  text's `$` patterns are expanded.
- **Station picker** (`StationDropdown`). It is a substring filter over the
  station list, plus the small search/open state behind the text input.

Supporting modules:

- `Wrappers`: `Option` and `Result`.
- `Strings`: decimal rendering, substring search, ASCII lower-casing and
  lexicographic order.
- `Types`: the shared records.

Modelling choices:

- **Inputs instead of effects.** The clock, the Taipei-calendar "today",
  the upstream payloads, the network's replies and browser storage are
  parameters. Every operation is a pure function of its inputs.
- **Thrown errors.** An upstream request that throws is a `Result` error.
- **Replies by attempt.** The network's answers to the client are a
  function from attempt number to reply.
- **Backoff waits.** The client's waits are returned as values rather than
  slept.

Behaviours the model reproduces as the code has them:

- **The 429 retry limit.** `fetchJson` retries a 429 while the attempt
  number is below 3 (`src/api/client.ts:20`). So a request retries after
  attempts 0, 1 and 2, and only a 429 on attempt 3 (the fourth fetch)
  becomes an error, although the retry's log line counts attempts out of
  3 (`src/api/client.ts:23`). The model follows the retry condition:
  `Client.AlwaysRateLimited` proves three waits and four fetches.
- **The default share template.** It is modelled character for character
  as the source spells it (`src/hooks/usePersistence.ts:11`). Its middle
  three characters (U+00E5 U+02C6 U+00B0) are the UTF-8 bytes of U+5230
  mis-read as Windows-1252. Its `{adjusted_time}` is not one of the seven
  placeholders the message replaces, so it stays in the message verbatim
  (`ShareCard.DefaultTemplateMessage`).
- **Saving an empty template.** The empty template is accepted and shown.
  A reload then falls back to the default (`Persistence.EmptyTemplateDrifts`).

## Model

| member | source | states |
|---|---|---|
| Schedule.RecordDelaysSpec | api/schedule.ts:51-56 | filling a map from a delay feed: a train is in the result iff it was in the start map or the feed reports it; an unreported train keeps its old entry; a reported one holds the delay of its last report |
| Schedule.DelayTableLastWriteWins | api/schedule.ts:50-56 | the delay table (built report by report) holds exactly the reported trains, each with the delay of its last report; an absent feed gives the empty table |
| Schedule.FindStop | api/schedule.ts:61-70 | the stop index found for a station is its first stop there, and nothing is found iff the train never calls there |
| Schedule.ResolveTrain | api/schedule.ts:60-91 | a train is kept iff its first origin stop precedes its first destination stop; it then carries origin departure time, destination arrival time, both station names, number, type, direction; status is unknown without a delay entry, delayed for a positive one, on time otherwise, never cancelled; delay is the entry or 0 |
| Schedule.TimetablePath | api/schedule.ts:33-44 | the query date is the requested one or today's when none is given; the Today endpoint is used iff no date or today's date was requested, otherwise the dated endpoint for the requested date |
| Schedule.PresentMembership | api/schedule.ts:59-93 | the filter step of map-then-filter: a value survives iff some mapped position holds it |
| Schedule.PresentCount | api/schedule.ts:59-93 | the filter step keeps each value exactly as many times as mapped positions hold it |
| Schedule.PresentAppend | api/schedule.ts:59-93 | the filter step keeps order: filtering two runs one after the other gives the first run's values followed by the second's; one entry gives its value or nothing |
| Schedule.ResolveAllAppend | api/schedule.ts:59-60 | the map step works entry by entry: two runs of entries resolve to the first run's results followed by the second's |
| Schedule.CandidatesInTimetableOrder | api/schedule.ts:59-93 | the candidates keep timetable order: the candidates of two runs of entries are the first run's followed by the second's, and a single entry gives its own resolved train or nothing |
| Schedule.CandidatesCount | api/schedule.ts:59-93 | each train is a candidate exactly as often as timetable entries resolve to it |
| Schedule.CandidatesMembership | api/schedule.ts:59-93 | a train is in the candidate list (each timetable entry resolved, the unresolved dropped) iff some timetable entry resolves to it |
| Schedule.InsertByDeparture | api/schedule.ts:96 | inserting into a list sorted by departure time keeps it sorted and adds exactly the new train to its multiset |
| Schedule.SortByDeparture | api/schedule.ts:96 | the sorted list is ordered by departure time and is a permutation of the input |
| Schedule.InsertKeepsTies | api/schedule.ts:96 | insertion appends the new train after every train with the same departure time |
| Schedule.SortKeepsTiesInOrder | api/schedule.ts:96 | the sort is stable: trains with equal departure time keep their input order |
| Schedule.Handle | api/schedule.ts:26-108 | 400 with the fixed message and no upstream request iff origin or dest is missing; otherwise the timetable path (Today endpoint iff the date is today), then the delay path; a failed timetable request answers 500 with its message, and so does a failed delay request after a successful timetable one; 200 with the date, the echoed stations and a sorted permutation of the resolved trains |
| Schedule.ReturnedTrainsRunOriginToDest | api/schedule.ts:61-91 | every returned train comes from a timetable entry whose first origin stop precedes its first destination stop and carries that entry's times and names |
| Schedule.EveryForwardTrainIsReturned | api/schedule.ts:59-93 | every timetable entry calling at the origin and later at the destination resolves to a train with its number, and that very record appears in the reply |
| Schedule.ReturnedStatusFollowsDelayFeed | api/schedule.ts:73-89 | a returned train's status and delay follow its last delay report: none gives unknown and 0, positive gives delayed, otherwise on time; never cancelled |
| Schedule.SameStationListsNothing | api/schedule.ts:68-71 | a query with origin equal to destination lists no train |
| Schedule.AbsentListsBehaveAsEmpty | api/schedule.ts:52-61 | absent timetable, stop and delay lists behave as empty lists |
| Schedule.Train152WrongDirection | api/schedule.ts:68-71 | a train calling at A then B is not listed for the trip B to A, and the reply is still 200 |
| Schedule.Train152Forward | api/schedule.ts:42-91 | for a trip today the Today endpoint is used and a 15-minute report lists the train as delayed by 15 |
| Schedule.UnknownDestinationListsNothing | api/schedule.ts:42-66 | a dated query uses the dated endpoint, and a destination no train calls at gives an empty 200 list |
| StationsApi.NormalizeAll | api/stations.ts:41-56 | the raw records are the bare array or the wrapped `Stations` list; one station per raw record in the same order, taking id, Chinese and English names, and coordinates only when a position is present; a wrapped payload without a list gives none |
| StationsApi.Handle | api/stations.ts:17-73 | a fetch happens iff the slot is empty or expired; a hit serves the cached data and keeps the slot; a successful fetch stores the raw data with expiry now + 24 h; a failed fetch keeps the slot and answers 500 with the error only in development, else the generic text; the CDN header is set iff the status is 200 |
| StationsApi.RefreshServesWholeWindow | api/stations.ts:23-36 | after a refresh, every request within the next 24 hours is served from the slot without a fetch, with the same reply |
| StationsApi.ExpiredSlotRefetches | api/stations.ts:23-36 | once 24 hours have passed since a refresh, the next request fetches again |
| StationsApi.FailedRefreshRetriesNextTime | api/stations.ts:29-71 | a failed refresh answers 500 and leaves the slot stale, so the next request fetches again |
| Client.CacheKeyInjective | src/api/client.ts:8 | a registry key is the URL, a hyphen and the attempt number; two keys are equal iff their URL and attempt number are equal |
| Client.Lookup | src/api/client.ts:9-12 | a pending request is found iff its key is registered, and it is the registered one |
| Client.Settle | src/api/client.ts:31-36 | a reply that is not retried settles as: network failure rejects with its message; a non-2xx status rejects with "API Error <status>: <body>"; a 2xx resolves with the body |
| Client.FetchJson | src/api/client.ts:6-45 | a registered key is joined without fetching; otherwise the i-th fetch uses key url-(attempt+i), each wait follows a 429 below attempt 3 and the one after attempt a lasts 2^a seconds, the last reply settles the call, fetched keys were not pending, and the registry ends as it started |
| Client.Attempt | src/api/client.ts:15-43 | one attempt registers its key, fetches, and either retries or settles; its key is removed on every path and the registry ends as it started |
| Client.Retry | src/api/client.ts:20-28 | after a 429 below attempt 3: one wait of 2^attempt seconds, then the next attempt under the next key |
| Client.FetchJsonKeys | src/api/client.ts:8-28 | the keys of one call are url-attempt, url-(attempt+1), ..., at most 1 + (3 - attempt) of them |
| Client.FetchJsonWaits | src/api/client.ts:20-28 | the i-th wait lasts 2^(attempt+i) seconds, each follows a 429 below attempt 3, and there are at most 3 - attempt of them |
| Client.FetchedKeysDistinct | src/api/client.ts:8-28 | one call never fetches twice under the same key |
| Client.Call | src/api/client.ts:47-53 | a call from attempt 0 makes at most four fetches, waits a prefix of 1 s, 2 s, 4 s, leaves the registry as found, and fetches only under keys not pending |
| Client.BackoffLadder | src/api/client.ts:21 | the wait after attempt a is 2^a seconds; from attempt 0 the waits for 0 to 3 retries are the prefixes of 1000, 2000, 4000 ms |
| Client.RateLimitMessage | src/api/client.ts:31-33 | a 429 that is no longer retried rejects with "API Error 429: " and the body |
| Client.AlwaysRateLimited | src/api/client.ts:20-34 | a URL that always answers 429 gets waits of 1 s, 2 s, 4 s, four fetches, and then the 429 error |
| Client.RateLimitedOnce | src/api/client.ts:20-36 | one 429 then success: one 1 s wait, two fetches, the payload |
| Client.ConcurrentCallJoins | src/api/client.ts:9-12 | a call whose key is already pending joins that request, fetches nothing and leaves the registry alone |
| Api.StationsAndScheduleNeverShareKey | src/api/client.ts:8-53 | a station-list request and a schedule request never share a registry key, whatever their attempt numbers and query, so neither ever joins the other |
| Api.ScheduleParams | src/api/client.ts:50-52 | origin and dest always, in that order, and date third exactly when it is non-empty |
| Api.ScheduleUrlRoundTrip | src/api/client.ts:50-53 | the schedule URL (built from the serialised parameters) is the endpoint path followed by a query that parses back to exactly the parameters, whatever characters they hold |
| Api.ScheduleUrlHasDateIffGiven | src/api/client.ts:52 | the parsed query names a date iff a non-empty date was passed |
| Api.ScheduleUrlForIds | src/api/client.ts:51-53 | for plain station ids and no date the URL is /api/schedule?origin=O&dest=D |
| FormEncoding.DecodeFirstUtf8Char | src/api/client.ts:51-53 | the first character decoded from an encoded character followed by anything is that character, with its encoded length |
| FormEncoding.Utf8RoundTrip | src/api/client.ts:51-53 | decoding the UTF-8 encoding of any string gives it back |
| FormEncoding.DecodeEncodedByte | src/api/client.ts:51-53 | the percent or plus encoding of one byte decodes back to that byte, whatever follows |
| FormEncoding.BytesRoundTrip | src/api/client.ts:51-53 | percent-decoding the encoding of any byte sequence gives it back |
| FormEncoding.SerializeRoundTrip | src/api/client.ts:51-53 | deserialising a serialised name or value gives it back |
| FormEncoding.SerializedHasNoSeparators | src/api/client.ts:51-53 | a serialised name or value contains neither '&' nor '=' |
| FormEncoding.IdSerializesToItself | src/api/client.ts:51-53 | text of ASCII letters, digits and '-' is serialised unchanged |
| FormEncoding.SplitFirst | src/api/client.ts:51-53 | splitting at the first separator: the head holds no separator, and head, separator and tail rejoin to the input |
| FormEncoding.PairRoundTrip | src/api/client.ts:51-53 | a serialised name=value pair is non-empty, has no '&', and parses back to the pair |
| FormEncoding.QueryRoundTrip | src/api/client.ts:51-53 | parsing a serialised parameter list gives the list back, order included |
| Persistence.IsValidStationId | src/hooks/usePersistence.ts:14-16 | an id is valid iff it has at most 10 characters, all ASCII letters of either case, digits or '-' (the empty id included) |
| Persistence.ValidatedStationId | src/hooks/usePersistence.ts:19-22 | the stored id when present and valid, otherwise ""; always valid |
| Persistence.Init | src/hooks/usePersistence.ts:25-39 | each loaded id is the stored one when present and valid, else "", so always valid; the template is the stored one unless it is missing or empty, then the default; auto-detect is on iff the stored text is exactly "true" |
| Persistence.SaveOrigin | src/hooks/usePersistence.ts:41-45 | an invalid id changes nothing; a valid one updates memory and the origin slot only |
| Persistence.SaveDest | src/hooks/usePersistence.ts:47-51 | an invalid id changes nothing; a valid one updates memory and the destination slot only |
| Persistence.SaveTemplate | src/hooks/usePersistence.ts:53-56 | any template, the empty one included, is shown and stored |
| Persistence.BoolText | src/hooks/usePersistence.ts:60 | the stored flag text is "true" iff the flag is on |
| Persistence.SaveAutoDetectOrigin | src/hooks/usePersistence.ts:58-61 | the flag is set in memory and stored as its text |
| Persistence.SaveDefaultDest | src/hooks/usePersistence.ts:63-67 | an invalid id changes nothing; a valid one updates memory and the default-destination slot only |
| Persistence.ResetTemplate | src/hooks/usePersistence.ts:76 | resetting shows the default template and stores it in the template slot; every other setting and slot is unchanged |
| Persistence.LoadIsInSync | src/hooks/usePersistence.ts:19-39 | whatever the store holds, a fresh load agrees with a reload and holds only valid ids |
| Persistence.SaveOriginRoundTrip | src/hooks/usePersistence.ts:41-45 | a saved valid origin is read back by the next load, and the destination and template read as before |
| Persistence.SaveDestRoundTrip | src/hooks/usePersistence.ts:47-51 | a saved valid destination is read back by the next load |
| Persistence.SaveDefaultDestRoundTrip | src/hooks/usePersistence.ts:63-67 | a saved valid default destination is read back by the next load |
| Persistence.SaveAutoDetectOriginRoundTrip | src/hooks/usePersistence.ts:58-61 | a saved flag is read back by the next load |
| Persistence.SaveTemplateRoundTrip | src/hooks/usePersistence.ts:53-56 | a saved non-empty template is read back by the next load |
| Persistence.SettersPreserveSync | src/hooks/usePersistence.ts:41-67 | starting in sync with the store, every id setter, a non-empty template save and the flag setter keep memory and store in sync |
| Persistence.EmptyTemplateDrifts | src/hooks/usePersistence.ts:31-56 | saving the empty template shows it, but the next load gives the default, so memory and store disagree |
| Persistence.ValidIdExamples | src/hooks/usePersistence.ts:14-16 | the empty id, a mixed-case id with '-' and a ten-digit id are accepted |
| Persistence.InvalidIdExamples | src/hooks/usePersistence.ts:14-16 | eleven characters, a space and an underscore are rejected |
| ShareCard.SubstitutionLiteral | src/components/ShareCard.tsx:24-33 | the expansion of a replacement's '$' patterns leaves a replacement without '$' verbatim |
| ShareCard.ReplaceFirst | src/components/ShareCard.tsx:23-33 | a pattern that never occurs leaves the text unchanged; otherwise only the first occurrence is replaced by the expanded replacement |
| ShareCard.ReplaceLiteral | src/components/ShareCard.tsx:23-33 | with a '$'-free replacement the first occurrence is swapped for it and the rest of the text is kept |
| ShareCard.DirectionText | src/components/ShareCard.tsx:26-29 | direction 0 reads clockwise and every other value counter-clockwise |
| ShareCard.StatusText | src/components/ShareCard.tsx:33 | a delayed train reads "Delayed <delay>m"; every other status reads "On Time" |
| ShareCard.Message | src/components/ShareCard.tsx:21-22 | without a train the message is the fixed prompt |
| ShareCard.Preview | src/components/ShareCard.tsx:21-54 | the card is shown iff a train is selected, and it shows the message |
| ShareCard.NoPlaceholderTemplateUnchanged | src/components/ShareCard.tsx:23-33 | a template naming none of the seven placeholders is the message itself |
| ShareCard.TimeIsArrivalTime | src/components/ShareCard.tsx:23-33 | in a template without the five earlier placeholders, the first "{time}" is filled with the destination arrival time, not the departure time, and the "{status}" step then runs on that text |
| ShareCard.TimeFilledOnce | src/components/ShareCard.tsx:32 | of two "{time}" placeholders only the first is filled |
| ShareCard.DestinationNameIsRescanned | src/components/ShareCard.tsx:31-33 | the steps after "{dest}" work on the text with the destination name inserted, so placeholders inside the name are filled too |
| ShareCard.DestinationNamedTime | src/components/ShareCard.tsx:31-32 | a destination named "{time}" under the template "{dest}" becomes the arrival time |
| ShareCard.DefaultTemplateMessage | src/components/ShareCard.tsx:23-33 | the default template gives its literal lead, "{adjusted_time}" included, followed by the destination name |
| ShareCard.PrefixPatternExpands | src/components/ShareCard.tsx:25 | a "$`" in a replacement brings in the text before the placeholder |
| ShareCard.MatchAndDollarPatternsExpand | src/components/ShareCard.tsx:25 | "$&" brings in the placeholder itself and "$$" a single dollar sign |
| StationDropdown.KeepMatching | src/components/StationDropdown.tsx:45-51 | the matching stations in list order: a subsequence holding every matching station as often as the list does, and no other |
| StationDropdown.FilterStations | src/components/StationDropdown.tsx:45-51 | an empty search shows the whole list; otherwise exactly the stations whose Chinese name contains the text or whose English name contains it ignoring case, in list order |
| StationDropdown.NarrowingKeepsMatches | src/components/StationDropdown.tsx:48-49 | a station matching a longer search also matches every search that the longer one extends |
| StationDropdown.HandleSelect | src/components/StationDropdown.tsx:53-60 | a pick reports the id, then to the cache callback when there is one, then clears the search and closes the list |
| StationDropdown.OnChange | src/components/StationDropdown.tsx:69-72 | typing sets the search to the text and opens the list |
| StationDropdown.OnFocus | src/components/StationDropdown.tsx:73-76 | focusing clears the search and opens the list |
| StationDropdown.OnMouseDown | src/components/StationDropdown.tsx:33-43 | a press leaves the search alone and keeps the list open iff it was open and the press is inside the component |
| StationDropdown.InputValue | src/components/StationDropdown.tsx:68 | the input shows the search if any, else the selected station's name, else nothing |
| StationDropdown.Visible | src/components/StationDropdown.tsx:78-92 | nothing is listed while closed; the filtered list while open |
| StationDropdown.SelectClosesAndClears | src/components/StationDropdown.tsx:53-60 | after a pick the list is closed and the search empty whatever the state before, and exactly the picked id was reported |
| StationDropdown.SelectShowsStation | src/components/StationDropdown.tsx:53-68 | after a pick the input shows the picked station's name |
| StationDropdown.FocusShowsAllSelectHidesAll | src/components/StationDropdown.tsx:73-92 | focus lists every station; a pick lists none |
| StationDropdown.TypingListsMatches | src/components/StationDropdown.tsx:69-92 | while typing, exactly the matching stations are listed, in list order |
| Strings.NatToDecimalRoundTrip | src/api/client.ts:8 | the decimal text of an attempt number is all digits and reads back as that number |
| Strings.NatToDecimalInjective | src/api/client.ts:8 | distinct numbers have distinct decimal texts |
| Strings.IntToString | src/components/ShareCard.tsx:33 | a delay is written in decimal, with a leading '-' when negative |
| Strings.IndexOf | src/components/ShareCard.tsx:23-33 | the position found is an occurrence with none before it, and one is found iff the pattern occurs |
| Strings.ContainsMeansOccurs | src/components/StationDropdown.tsx:48-49 | includes holds iff the pattern occurs somewhere; the empty pattern is always included |
| Strings.ToLowerAscii | src/components/StationDropdown.tsx:49 | lower-casing keeps the length and maps each character on its own |
| Strings.LexLessEqTotal | api/schedule.ts:96 | any two departure times compare one way or the other |
| Strings.LexLessEqTransitive | api/schedule.ts:96 | the departure-time order is transitive |
| Strings.LexLessEqAntisymmetric | api/schedule.ts:96 | two times ordered both ways are equal |

## Left out

- HTTP plumbing (`req`, `res`, `fetchTDX`, the `$select`/`$top` upstream options, TDX tiers): each handler is a function from its inputs to a reply; upstream answers are parameters.
- `new Date()`, `Date.now()` and the Asia/Taipei calendar: "today" and "now" are parameters.
- Console logging: no observable effect on results.
- `req.query` values that are arrays: only single string parameters are modelled, an absent one being "".
- A thrown value that is not an `Error` (reply "Unknown error"): upstream failures always carry a message.
- Malformed upstream records (a stop without `StationName`, a raw station without `StationName`): the source would throw a TypeError there; the model's records always have the fields.
- Schedule.ResolveTrain: delays are integers; a NaN delay (which `|| 0` would turn into 0) and non-integer minutes are not modelled.
- Strings.LexLessEqTotal: `localeCompare` is modelled as plain lexicographic order on characters, which agrees with it on the "HH:mm" times the feed carries but not on arbitrary text.
- Strings.ToLowerAscii: lower-cases ASCII letters only, whereas `toLowerCase` follows full Unicode case mapping.
- JSON parsing (`response.json()` and the body text): a successful reply's body is the payload; a body that fails to parse is not modelled.
- Promise interleavings in `fetchJson`: requests are modelled one after another, so a second call is modelled only as joining a key that is pending when it starts (`Client.ConcurrentCallJoins`), not as arbitrary interleavings of waits and settlements.
- The actual sleep of the backoff: waits are returned as values.
- FormEncoding.DecodeFirst: the decoder used to state round trips is strict (it rejects malformed UTF-8 and bad escapes); the browser's lenient form parser is not modelled, and strings holding lone surrogates are not modelled because `char` excludes them.
- `navigator.share`, the clipboard, `alert`: the share action only sends the message text, which is modelled.
- React rendering details: CSS classes, the highlighted selected item, `ref.current` being null before mount.
- StationSelector, the install prompt, badges, icon buttons, the PWA script and the UI string table: not part of this model.
