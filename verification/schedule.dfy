/** The schedule resolver (api/schedule.ts): joins the day's timetable with
    the live-delay feed by train number, keeps the trains that call at the
    origin and later at the destination, derives delay and status, and sorts
    the survivors by departure time. The two upstream payloads, the
    Taipei-calendar "today" and the query are parameters. */
module Schedule {
  import opened Wrappers
  import opened Strings
  import opened Types

  // ---------------------------------------------------------------------
  // Upstream payloads (only the fields the handler reads)
  // ---------------------------------------------------------------------

  datatype StopTime = StopTime(
    stationId: string,
    stationName: string,     // StationName.Zh_tw
    departureTime: string,
    arrivalTime: string)

  datatype TrainHeader = TrainHeader(
    trainNo: string,
    trainTypeName: string,   // TrainTypeName.Zh_tw
    direction: int)

  /** One train of the full-day timetable; `StopTimes` may be absent. */
  datatype TimetableEntry = TimetableEntry(trainInfo: TrainHeader, stopTimes: Option<seq<StopTime>>)

  /** The timetable payload; `TrainTimetables` may be absent. */
  datatype TimetableFeed = TimetableFeed(trainTimetables: Option<seq<TimetableEntry>>)

  datatype LiveDelay = LiveDelay(trainNo: string, delayTime: int)

  /** The live-delay payload; `LiveTrainDelays` may be absent. */
  datatype DelayFeed = DelayFeed(liveTrainDelays: Option<seq<LiveDelay>>)

  /** The query string; an absent or empty parameter is "". */
  datatype Query = Query(origin: string, dest: string, date: string)

  /** What the two upstream requests yield: a payload or a thrown error. */
  datatype Upstream = Upstream(timetable: Result<TimetableFeed>, delays: Result<DelayFeed>)

  /** The handler's reply together with the upstream paths it requested,
      in order. */
  datatype Outcome = Outcome(reply: HttpReply<ScheduleResponse>, requested: seq<string>)

  const MissingParamsMessage := "Missing origin or dest parameters"
  const TodayTimetablePath := "v3/Rail/TRA/DailyTrainTimetable/Today"
  const DatedTimetablePrefix := "v3/Rail/TRA/DailyTrainTimetable/TrainDate/"
  const LiveDelayPath := "v3/Rail/TRA/LiveTrainDelay"

  // ---------------------------------------------------------------------
  // Delay table: TrainNo -> DelayTime, filled in feed order
  // ---------------------------------------------------------------------

  function RecordDelays(m: map<string, int>, feed: seq<LiveDelay>): map<string, int>
    decreases |feed|
  {
    if feed == [] then m
    else RecordDelays(m[feed[0].trainNo := feed[0].delayTime], feed[1..])
  }

  /** The delay map, filled report by report so a later report for the same
      train overwrites an earlier one; an absent
      feed leaves it empty. */
  function DelayTable(feed: Option<seq<LiveDelay>>): map<string, int> {
    RecordDelays(map[], feed.GetOr([]))
  }

  /** Position `i` holds the last report in `feed` for train `no`. */
  predicate IsLastReport(feed: seq<LiveDelay>, no: string, i: int) {
    0 <= i < |feed| && feed[i].trainNo == no
    && forall j :: i < j < |feed| ==> feed[j].trainNo != no
  }

  lemma {:induction false} RecordDelaysSpec(m: map<string, int>, feed: seq<LiveDelay>, no: string)
    ensures no in RecordDelays(m, feed) <==>
            no in m || exists i :: 0 <= i < |feed| && feed[i].trainNo == no
    ensures (forall i :: 0 <= i < |feed| ==> feed[i].trainNo != no) && no in m ==>
            RecordDelays(m, feed)[no] == m[no]
    ensures forall i :: IsLastReport(feed, no, i) ==> RecordDelays(m, feed)[no] == feed[i].delayTime
    decreases |feed|
  {
    if feed != [] {
      var m' := m[feed[0].trainNo := feed[0].delayTime];
      var rest := feed[1..];
      RecordDelaysSpec(m', rest, no);
      if exists i :: 0 <= i < |feed| && feed[i].trainNo == no {
        var i :| 0 <= i < |feed| && feed[i].trainNo == no;
        if i > 0 {
          assert rest[i - 1].trainNo == no;
        }
      }
      forall i | IsLastReport(feed, no, i)
        ensures RecordDelays(m, feed)[no] == feed[i].delayTime
      {
        if i > 0 {
          assert IsLastReport(rest, no, i - 1);
        } else {
          assert forall j :: 0 <= j < |rest| ==> rest[j].trainNo != no by {
            forall j | 0 <= j < |rest| ensures rest[j].trainNo != no {
              assert feed[j + 1] == rest[j];
            }
          }
        }
      }
    }
  }

  /** Last write wins: a train number is in the table iff the feed reports
      it, and its entry is the delay of its last report. */
  lemma DelayTableLastWriteWins(feed: seq<LiveDelay>, no: string)
    ensures no in DelayTable(Some(feed)) <==> exists i :: 0 <= i < |feed| && feed[i].trainNo == no
    ensures forall i :: IsLastReport(feed, no, i) ==> DelayTable(Some(feed))[no] == feed[i].delayTime
    ensures DelayTable(None) == map[]
  {
    RecordDelaysSpec(map[], feed, no);
  }

  // ---------------------------------------------------------------------
  // First-occurrence stop lookup
  // ---------------------------------------------------------------------

  /** Position `i` is the first stop of `stops` at station `id`. */
  predicate IsFirstStop(stops: seq<StopTime>, id: string, i: int) {
    0 <= i < |stops| && stops[i].stationId == id
    && forall j :: 0 <= j < i ==> stops[j].stationId != id
  }

  lemma FirstStopUnique(stops: seq<StopTime>, id: string, i: int, k: int)
    requires IsFirstStop(stops, id, i) && IsFirstStop(stops, id, k)
    ensures i == k
  {
  }

  function FindStopFrom(stops: seq<StopTime>, id: string, from: nat): (r: Option<nat>)
    requires from <= |stops|
    requires forall j :: 0 <= j < from ==> stops[j].stationId != id
    ensures r.Some? ==> IsFirstStop(stops, id, r.value)
    ensures r.None? ==> forall j :: 0 <= j < |stops| ==> stops[j].stationId != id
    decreases |stops| - from
  {
    if from == |stops| then None
    else if stops[from].stationId == id then Some(from)
    else FindStopFrom(stops, id, from + 1)
  }

  /** The position of the first stop at station `id`, if the train calls
      there at all. */
  function FindStop(stops: seq<StopTime>, id: string): (r: Option<nat>)
    ensures r.Some? <==> exists i :: IsFirstStop(stops, id, i)
    ensures r.Some? ==> IsFirstStop(stops, id, r.value)
  {
    FindStopFrom(stops, id, 0)
  }

  // ---------------------------------------------------------------------
  // Joining one train with the delay table
  // ---------------------------------------------------------------------

  function StopsOf(t: TimetableEntry): seq<StopTime> {
    t.stopTimes.GetOr([])
  }

  /** `status`: unknown without a delay entry, delayed for a positive one,
      on time otherwise. */
  function StatusOf(delay: Option<int>): Status {
    match delay
    case None => Unknown
    case Some(d) => if d > 0 then Delayed else OnTime
  }

  /** The train's entry in the result list, or None when it does not call
      at the origin and later at the destination. */
  function ResolveTrain(t: TimetableEntry, origin: string, dest: string, delays: map<string, int>)
    : (r: Option<TrainInfo>)
    ensures r.Some? <==>
            exists oi, di :: IsFirstStop(StopsOf(t), origin, oi) && IsFirstStop(StopsOf(t), dest, di) && oi < di
    ensures r.Some? ==>
            forall oi, di :: IsFirstStop(StopsOf(t), origin, oi) && IsFirstStop(StopsOf(t), dest, di) ==>
              && r.value.originStation == StopsOf(t)[oi].stationName
              && r.value.departureTime == StopsOf(t)[oi].departureTime
              && r.value.destinationStation == StopsOf(t)[di].stationName
              && r.value.arrivalTime == StopsOf(t)[di].arrivalTime
    ensures r.Some? ==>
              && r.value.trainNo == t.trainInfo.trainNo
              && r.value.trainType == t.trainInfo.trainTypeName
              && r.value.direction == t.trainInfo.direction
    ensures r.Some? ==>
              && (r.value.status == Unknown <==> t.trainInfo.trainNo !in delays)
              && (r.value.status == Delayed <==>
                    t.trainInfo.trainNo in delays && delays[t.trainInfo.trainNo] > 0)
              && (r.value.status == OnTime <==>
                    t.trainInfo.trainNo in delays && delays[t.trainInfo.trainNo] <= 0)
              && r.value.status != Cancelled
    ensures r.Some? ==>
              r.value.delay == (if t.trainInfo.trainNo in delays then delays[t.trainInfo.trainNo] else 0)
  {
    var stops := StopsOf(t);
    match (FindStop(stops, origin), FindStop(stops, dest))
    case (Some(oi), Some(di)) =>
      if di <= oi then
        assert forall o, d :: IsFirstStop(stops, origin, o) && IsFirstStop(stops, dest, d) ==> o == oi && d == di;
        None
      else
        var no := t.trainInfo.trainNo;
        var delay := if no in delays then Some(delays[no]) else None;
        Some(TrainInfo(
          trainNo := no,
          trainType := t.trainInfo.trainTypeName,
          direction := t.trainInfo.direction,
          originStation := stops[oi].stationName,
          destinationStation := stops[di].stationName,
          departureTime := stops[oi].departureTime,
          arrivalTime := stops[di].arrivalTime,
          delay := delay.GetOr(0),
          status := StatusOf(delay)))
    case _ => None
  }

  /** The values of the present entries, in order: the filter that drops
      the trains the map skipped. */
  function Present<T>(os: seq<Option<T>>): (r: seq<T>)
    ensures |r| <= |os|
    decreases |os|
  {
    if os == [] then []
    else (if os[0].Some? then [os[0].value] else []) + Present(os[1..])
  }

  /** A value is kept by the filter exactly when some entry holds it. */
  lemma {:induction false} PresentMembership<T>(os: seq<Option<T>>, x: T)
    ensures x in Present(os) <==> exists i :: 0 <= i < |os| && os[i] == Some(x)
    decreases |os|
  {
    if os != [] {
      var rest := os[1..];
      PresentMembership(rest, x);
      var head := if os[0].Some? then [os[0].value] else [];
      assert Present(os) == head + Present(rest);
      if exists i :: 0 <= i < |os| && os[i] == Some(x) {
        var i :| 0 <= i < |os| && os[i] == Some(x);
        if i > 0 {
          assert rest[i - 1] == os[i];
        }
      }
      if x in Present(rest) {
        var i :| 0 <= i < |rest| && rest[i] == Some(x);
        assert os[i + 1] == rest[i];
      }
    }
  }

  /** The filter keeps each value exactly as often as entries hold it. */
  lemma {:induction false} PresentCount<T>(os: seq<Option<T>>, x: T)
    ensures multiset(Present(os))[x] == multiset(os)[Some(x)]
    decreases |os|
  {
    if os != [] {
      var rest := os[1..];
      PresentCount(rest, x);
      var head := if os[0].Some? then [os[0].value] else [];
      assert Present(os) == head + Present(rest);
      assert os == [os[0]] + rest;
      assert multiset(os) == multiset{os[0]} + multiset(rest);
      assert multiset(Present(os)) == multiset(head) + multiset(Present(rest));
    }
  }

  /** The filter keeps order: filtering two runs of entries one after the
      other gives the first run's values followed by the second's, and a
      single entry gives its value or nothing. */
  lemma {:induction false} PresentAppend<T>(a: seq<Option<T>>, b: seq<Option<T>>)
    ensures Present(a + b) == Present(a) + Present(b)
    ensures |a| == 1 ==> Present(a) == (if a[0].Some? then [a[0].value] else [])
    decreases |a|
  {
    if a == [] {
      assert a + b == b;
    } else {
      PresentAppend(a[1..], b);
      var head := if a[0].Some? then [a[0].value] else [];
      assert (a + b)[1..] == a[1..] + b;
      assert Present(a + b) == head + Present(a[1..] + b);
      assert Present(a) == head + Present(a[1..]);
      if |a| == 1 {
        assert a[1..] == [];
      }
    }
  }

  /** Every timetable entry resolved, in timetable order; None stands for
      a train the map skips. */
  function ResolveAll(ts: seq<TimetableEntry>, origin: string, dest: string, delays: map<string, int>)
    : seq<Option<TrainInfo>>
  {
    seq(|ts|, i requires 0 <= i < |ts| => ResolveTrain(ts[i], origin, dest, delays))
  }

  /** The map-then-filter over the timetable, in timetable order. */
  function Candidates(ts: seq<TimetableEntry>, origin: string, dest: string, delays: map<string, int>)
    : (r: seq<TrainInfo>)
    ensures |r| <= |ts|
  {
    Present(ResolveAll(ts, origin, dest, delays))
  }

  /** A train is a candidate exactly when some timetable entry resolves to it. */
  lemma CandidatesMembership(ts: seq<TimetableEntry>, origin: string, dest: string,
                             delays: map<string, int>, x: TrainInfo)
    ensures x in Candidates(ts, origin, dest, delays) <==>
            exists i :: 0 <= i < |ts| && ResolveTrain(ts[i], origin, dest, delays) == Some(x)
  {
    var os := ResolveAll(ts, origin, dest, delays);
    PresentMembership(os, x);
    if exists i :: 0 <= i < |os| && os[i] == Some(x) {
      var i :| 0 <= i < |os| && os[i] == Some(x);
      assert ResolveTrain(ts[i], origin, dest, delays) == Some(x);
    }
    if exists i :: 0 <= i < |ts| && ResolveTrain(ts[i], origin, dest, delays) == Some(x) {
      var i :| 0 <= i < |ts| && ResolveTrain(ts[i], origin, dest, delays) == Some(x);
      assert os[i] == Some(x);
    }
  }

  /** Resolving entry by entry: two runs of timetable entries resolve to
      the first run's results followed by the second's. */
  lemma ResolveAllAppend(ts: seq<TimetableEntry>, us: seq<TimetableEntry>, origin: string, dest: string,
                         delays: map<string, int>)
    ensures ResolveAll(ts + us, origin, dest, delays)
         == ResolveAll(ts, origin, dest, delays) + ResolveAll(us, origin, dest, delays)
  {
    var l := ResolveAll(ts + us, origin, dest, delays);
    var r := ResolveAll(ts, origin, dest, delays) + ResolveAll(us, origin, dest, delays);
    assert |l| == |r|;
    forall i | 0 <= i < |l| ensures l[i] == r[i] {
      if i >= |ts| {
        assert (ts + us)[i] == us[i - |ts|];
      }
    }
  }

  /** The candidates keep timetable order: the candidates of two runs of
      entries are the first run's followed by the second's, and one entry
      gives its own resolved train or nothing. */
  lemma CandidatesInTimetableOrder(ts: seq<TimetableEntry>, us: seq<TimetableEntry>, origin: string,
                                   dest: string, delays: map<string, int>)
    ensures Candidates(ts + us, origin, dest, delays)
         == Candidates(ts, origin, dest, delays) + Candidates(us, origin, dest, delays)
    ensures |ts| == 1 ==>
              var o := ResolveTrain(ts[0], origin, dest, delays);
              Candidates(ts, origin, dest, delays) == (if o.Some? then [o.value] else [])
  {
    ResolveAllAppend(ts, us, origin, dest, delays);
    var os := ResolveAll(ts, origin, dest, delays);
    PresentAppend(os, ResolveAll(us, origin, dest, delays));
  }

  /** Each train is a candidate exactly as often as timetable entries
      resolve to it. */
  lemma CandidatesCount(ts: seq<TimetableEntry>, origin: string, dest: string,
                        delays: map<string, int>, x: TrainInfo)
    ensures multiset(Candidates(ts, origin, dest, delays))[x]
         == multiset(ResolveAll(ts, origin, dest, delays))[Some(x)]
  {
    PresentCount(ResolveAll(ts, origin, dest, delays), x);
  }

  // ---------------------------------------------------------------------
  // Sorting by departure time (a stable sort, like Array.prototype.sort)
  // ---------------------------------------------------------------------

  predicate SortedByDeparture(xs: seq<TrainInfo>) {
    forall i, j :: 0 <= i < j < |xs| ==> LexLessEq(xs[i].departureTime, xs[j].departureTime)
  }

  /** Appending a train that departs no earlier than every train of a
      sorted list keeps the list sorted. */
  lemma SortedSnoc(xs: seq<TrainInfo>, y: TrainInfo)
    requires SortedByDeparture(xs)
    requires forall i :: 0 <= i < |xs| ==> LexLessEq(xs[i].departureTime, y.departureTime)
    ensures SortedByDeparture(xs + [y])
  {
    var r := xs + [y];
    forall i, j | 0 <= i < j < |r| ensures LexLessEq(r[i].departureTime, r[j].departureTime) {
      assert r[i] == xs[i];
      if j < |xs| {
        assert r[j] == xs[j];
      }
    }
  }

  /** The front of a sorted list is sorted, and departs no later than its last train. */
  lemma SortedFront(xs: seq<TrainInfo>)
    requires SortedByDeparture(xs) && xs != []
    ensures SortedByDeparture(xs[..|xs| - 1])
    ensures forall e :: e in xs[..|xs| - 1] ==> LexLessEq(e.departureTime, xs[|xs| - 1].departureTime)
  {
    var front := xs[..|xs| - 1];
    forall e | e in front ensures LexLessEq(e.departureTime, xs[|xs| - 1].departureTime) {
      var i :| 0 <= i < |front| && front[i] == e;
      assert xs[i] == e;
    }
  }

  /** Every train of a sorted list departs no later than a time its last train does not exceed. */
  lemma NoLaterThanLast(xs: seq<TrainInfo>, time: string)
    requires SortedByDeparture(xs) && xs != []
    requires LexLessEq(xs[|xs| - 1].departureTime, time)
    ensures forall i :: 0 <= i < |xs| ==> LexLessEq(xs[i].departureTime, time)
  {
    forall i | 0 <= i < |xs| ensures LexLessEq(xs[i].departureTime, time) {
      if i < |xs| - 1 {
        LexLessEqTransitive(xs[i].departureTime, xs[|xs| - 1].departureTime, time);
      }
    }
  }

  /** Inserts `x` after every element that departs no later than it. */
  function InsertByDeparture(xs: seq<TrainInfo>, x: TrainInfo): (r: seq<TrainInfo>)
    requires SortedByDeparture(xs)
    ensures SortedByDeparture(r)
    ensures multiset(r) == multiset(xs) + multiset{x}
    ensures forall e :: e in r ==> e in xs || e == x
    decreases |xs|
  {
    if xs == [] then [x]
    else
      var last := xs[|xs| - 1];
      var front := xs[..|xs| - 1];
      assert xs == front + [last];
      if LexLessEq(last.departureTime, x.departureTime) then
        NoLaterThanLast(xs, x.departureTime);
        SortedSnoc(xs, x);
        xs + [x]
      else
        LexLessEqTotal(last.departureTime, x.departureTime);
        SortedFront(xs);
        var inserted := InsertByDeparture(front, x);
        assert forall i :: 0 <= i < |inserted| ==> LexLessEq(inserted[i].departureTime, last.departureTime) by {
          forall i | 0 <= i < |inserted| ensures LexLessEq(inserted[i].departureTime, last.departureTime) {
            assert inserted[i] in inserted;
          }
        }
        SortedSnoc(inserted, last);
        inserted + [last]
  }

  function SortByDeparture(xs: seq<TrainInfo>): (r: seq<TrainInfo>)
    ensures SortedByDeparture(r)
    ensures multiset(r) == multiset(xs)
    decreases |xs|
  {
    if xs == [] then []
    else
      assert xs == xs[..|xs| - 1] + [xs[|xs| - 1]];
      InsertByDeparture(SortByDeparture(xs[..|xs| - 1]), xs[|xs| - 1])
  }

  /** The trains of `xs` that depart at `time`, in order. */
  function DepartingAt(xs: seq<TrainInfo>, time: string): seq<TrainInfo>
    decreases |xs|
  {
    if xs == [] then []
    else DepartingAt(xs[..|xs| - 1], time)
         + (if xs[|xs| - 1].departureTime == time then [xs[|xs| - 1]] else [])
  }

  /** The trains of a one-element extension that depart at `time`. */
  lemma DepartingAtSnoc(xs: seq<TrainInfo>, y: TrainInfo, time: string)
    ensures DepartingAt(xs + [y], time) ==
            DepartingAt(xs, time) + (if y.departureTime == time then [y] else [])
  {
    assert (xs + [y])[..|xs + [y]| - 1] == xs;
  }

  /** The step of InsertKeepsTies where x lands before `last`: as the two
      depart at different times, at most one of them departs at `time`. */
  lemma TiesAcrossLast(front: seq<TrainInfo>, last: TrainInfo, x: TrainInfo, inserted: seq<TrainInfo>, time: string)
    requires last.departureTime != x.departureTime
    requires DepartingAt(inserted, time) == DepartingAt(front, time) + (if x.departureTime == time then [x] else [])
    ensures DepartingAt(inserted + [last], time) ==
            DepartingAt(front + [last], time) + (if x.departureTime == time then [x] else [])
  {
    DepartingAtSnoc(inserted, last, time);
    DepartingAtSnoc(front, last, time);
    var d := DepartingAt(front, time);
    if x.departureTime == time {
      assert DepartingAt(inserted + [last], time) == d + [x];
      assert DepartingAt(front + [last], time) == d;
    } else {
      assert DepartingAt(inserted, time) == d + [];
      if last.departureTime == time {
        assert DepartingAt(inserted + [last], time) == d + [] + [last];
      }
    }
  }

  lemma {:induction false} InsertKeepsTies(xs: seq<TrainInfo>, x: TrainInfo, time: string)
    requires SortedByDeparture(xs)
    ensures DepartingAt(InsertByDeparture(xs, x), time) ==
            DepartingAt(xs, time) + (if x.departureTime == time then [x] else [])
    decreases |xs|
  {
    if xs == [] {
      DepartingAtSnoc([], x, time);
      assert [] + [x] == [x];
    } else {
      var last := xs[|xs| - 1];
      var front := xs[..|xs| - 1];
      assert xs == front + [last];
      if LexLessEq(last.departureTime, x.departureTime) {
        assert InsertByDeparture(xs, x) == xs + [x];
        DepartingAtSnoc(xs, x, time);
      } else {
        LexLessEqReflexive(x.departureTime);
        assert last.departureTime != x.departureTime;
        var inserted := InsertByDeparture(front, x);
        assert InsertByDeparture(xs, x) == inserted + [last];
        InsertKeepsTies(front, x, time);
        TiesAcrossLast(front, last, x, inserted, time);
      }
    }
  }

  /** Stability: trains with equal departure times keep their relative
      order. Together with sortedness and the permutation property this
      pins the sorted list down completely. */
  lemma {:induction false} SortKeepsTiesInOrder(xs: seq<TrainInfo>, time: string)
    ensures DepartingAt(SortByDeparture(xs), time) == DepartingAt(xs, time)
    decreases |xs|
  {
    if xs != [] {
      var front := xs[..|xs| - 1];
      SortKeepsTiesInOrder(front, time);
      InsertKeepsTies(SortByDeparture(front), xs[|xs| - 1], time);
    }
  }

  // ---------------------------------------------------------------------
  // The handler
  // ---------------------------------------------------------------------

  /** The calendar date the query is about: the requested date, or today's
      when none (or an empty one) was given. */
  function QueryDate(q: Query, today: string): string {
    if q.date != "" then q.date else today
  }

  /** The timetable endpoint: the "Today" feed when the date is today. */
  function TimetablePath(q: Query, today: string): (r: string)
    ensures r == TodayTimetablePath <==> q.date == "" || q.date == today
    ensures r != TodayTimetablePath ==> r == DatedTimetablePrefix + q.date
  {
    var date := QueryDate(q, today);
    if date == today then TodayTimetablePath else DatedTimetablePrefix + date
  }

  function TimetableOf(feed: TimetableFeed): seq<TimetableEntry> {
    feed.trainTimetables.GetOr([])
  }

  /** The trains the handler returns for a successful upstream exchange. */
  function ResolveTrains(q: Query, timetable: TimetableFeed, delays: DelayFeed): seq<TrainInfo> {
    SortByDeparture(Candidates(TimetableOf(timetable), q.origin, q.dest, DelayTable(delays.liveTrainDelays)))
  }

  function Handle(q: Query, today: string, up: Upstream): (o: Outcome)
    ensures o.reply.status == 400 <==> q.origin == "" || q.dest == ""
    ensures o.reply.status == 400 ==>
              o.requested == [] && o.reply.body == ErrorJson(MissingParamsMessage)
    ensures o.reply.status == 200 <==>
              q.origin != "" && q.dest != "" && up.timetable.Ok? && up.delays.Ok?
    ensures q.origin != "" && q.dest != "" && up.timetable.Err? ==>
              o.reply == HttpReply(500, ErrorJson(up.timetable.error))
    ensures q.origin != "" && q.dest != "" && up.timetable.Ok? && up.delays.Err? ==>
              o.reply == HttpReply(500, ErrorJson(up.delays.error))
    ensures o.reply.status == 500 ==>
              && o.requested == (if up.timetable.Err? then [TimetablePath(q, today)]
                                 else [TimetablePath(q, today), LiveDelayPath])
              && o.reply.body == ErrorJson(if up.timetable.Err? then up.timetable.error
                                           else up.delays.error)
    ensures o.reply.status == 200 ==>
              && o.requested == [TimetablePath(q, today), LiveDelayPath]
              && o.reply.body.Json?
              && o.reply.body.value.date == QueryDate(q, today)
              && o.reply.body.value.origin == StationRef(q.origin, q.origin)
              && o.reply.body.value.destination == StationRef(q.dest, q.dest)
              && SortedByDeparture(o.reply.body.value.trains)
              && multiset(o.reply.body.value.trains) ==
                 multiset(Candidates(TimetableOf(up.timetable.value), q.origin, q.dest,
                                     DelayTable(up.delays.value.liveTrainDelays)))
  {
    if q.origin == "" || q.dest == "" then
      Outcome(HttpReply(400, ErrorJson(MissingParamsMessage)), [])
    else
      var path := TimetablePath(q, today);
      match up.timetable
      case Err(e) => Outcome(HttpReply(500, ErrorJson(e)), [path])
      case Ok(timetable) =>
        match up.delays
        case Err(e) => Outcome(HttpReply(500, ErrorJson(e)), [path, LiveDelayPath])
        case Ok(delays) =>
          var trains := ResolveTrains(q, timetable, delays);
          var response := ScheduleResponse(
            QueryDate(q, today), StationRef(q.origin, q.origin), StationRef(q.dest, q.dest), trains);
          Outcome(HttpReply(200, Json(response)), [path, LiveDelayPath])
  }

  // ---------------------------------------------------------------------
  // Properties of the handler's result
  // ---------------------------------------------------------------------

  /** Direction guard and field provenance: every returned train comes from
      a timetable entry whose first origin stop precedes its first
      destination stop, and carries that entry's data. */
  lemma ReturnedTrainsRunOriginToDest(q: Query, today: string, up: Upstream, x: TrainInfo)
    requires Handle(q, today, up).reply.status == 200
    requires x in Handle(q, today, up).reply.body.value.trains
    ensures exists i, oi, di ::
              && 0 <= i < |TimetableOf(up.timetable.value)|
              && var t := TimetableOf(up.timetable.value)[i];
              && IsFirstStop(StopsOf(t), q.origin, oi) && IsFirstStop(StopsOf(t), q.dest, di) && oi < di
              && x.trainNo == t.trainInfo.trainNo
              && x.departureTime == StopsOf(t)[oi].departureTime
              && x.arrivalTime == StopsOf(t)[di].arrivalTime
              && x.originStation == StopsOf(t)[oi].stationName
              && x.destinationStation == StopsOf(t)[di].stationName
  {
    var ts := TimetableOf(up.timetable.value);
    var dm := DelayTable(up.delays.value.liveTrainDelays);
    var trains := Handle(q, today, up).reply.body.value.trains;
    assert x in multiset(trains);
    CandidatesMembership(ts, q.origin, q.dest, dm, x);
    var i :| 0 <= i < |ts| && ResolveTrain(ts[i], q.origin, q.dest, dm) == Some(x);
    var oi, di :| IsFirstStop(StopsOf(ts[i]), q.origin, oi) && IsFirstStop(StopsOf(ts[i]), q.dest, di) && oi < di;
  }

  /** Completeness: every timetable entry that calls at the origin and later
      at the destination is returned. */
  lemma EveryForwardTrainIsReturned(q: Query, today: string, up: Upstream, i: int)
    requires Handle(q, today, up).reply.status == 200
    requires 0 <= i < |TimetableOf(up.timetable.value)|
    requires exists oi, di :: IsFirstStop(StopsOf(TimetableOf(up.timetable.value)[i]), q.origin, oi)
                           && IsFirstStop(StopsOf(TimetableOf(up.timetable.value)[i]), q.dest, di)
                           && oi < di
    ensures var t := TimetableOf(up.timetable.value)[i];
            var r := ResolveTrain(t, q.origin, q.dest, DelayTable(up.delays.value.liveTrainDelays));
            && r.Some?
            && r.value in Handle(q, today, up).reply.body.value.trains
            && r.value.trainNo == t.trainInfo.trainNo
  {
    var ts := TimetableOf(up.timetable.value);
    var dm := DelayTable(up.delays.value.liveTrainDelays);
    var x := ResolveTrain(ts[i], q.origin, q.dest, dm).value;
    CandidatesMembership(ts, q.origin, q.dest, dm, x);
    assert x in multiset(Handle(q, today, up).reply.body.value.trains);
  }

  /** The status and delay of a returned train follow its last delay report:
      no report gives unknown and 0, a positive one delayed, any other on
      time; the reported value is passed through. */
  lemma ReturnedStatusFollowsDelayFeed(q: Query, today: string, up: Upstream, x: TrainInfo)
    requires Handle(q, today, up).reply.status == 200
    requires x in Handle(q, today, up).reply.body.value.trains
    ensures var feed := up.delays.value.liveTrainDelays.GetOr([]);
            && x.status != Cancelled
            && ((forall j :: 0 <= j < |feed| ==> feed[j].trainNo != x.trainNo) ==>
                  x.status == Unknown && x.delay == 0)
            && (forall j :: IsLastReport(feed, x.trainNo, j) ==>
                  x.delay == feed[j].delayTime
                  && (x.status == Delayed <==> feed[j].delayTime > 0)
                  && (x.status == OnTime <==> feed[j].delayTime <= 0))
  {
    var ts := TimetableOf(up.timetable.value);
    var feed := up.delays.value.liveTrainDelays.GetOr([]);
    var dm := DelayTable(up.delays.value.liveTrainDelays);
    assert dm == DelayTable(Some(feed));
    assert x in multiset(Handle(q, today, up).reply.body.value.trains);
    CandidatesMembership(ts, q.origin, q.dest, dm, x);
    var i :| 0 <= i < |ts| && ResolveTrain(ts[i], q.origin, q.dest, dm) == Some(x);
    DelayTableLastWriteWins(feed, x.trainNo);
  }

  /** A query whose origin equals its destination never lists a train. */
  lemma SameStationListsNothing(t: TimetableEntry, id: string, delays: map<string, int>)
    ensures ResolveTrain(t, id, id, delays) == None
  {
  }

  /** Absent `TrainTimetables`, `StopTimes` or `LiveTrainDelays` behave as
      empty lists. */
  lemma AbsentListsBehaveAsEmpty(q: Query, header: TrainHeader, delays: map<string, int>)
    ensures Candidates(TimetableOf(TimetableFeed(None)), q.origin, q.dest, delays) == []
    ensures ResolveTrain(TimetableEntry(header, None), q.origin, q.dest, delays)
         == ResolveTrain(TimetableEntry(header, Some([])), q.origin, q.dest, delays)
    ensures DelayTable(None) == DelayTable(Some([]))
  {
  }

  // ---------------------------------------------------------------------
  // A worked example: train 152 calls at A 08:00, B 08:30, C 09:00
  // ---------------------------------------------------------------------

  function Train152(): TimetableEntry {
    TimetableEntry(
      TrainHeader("152", "Local", 0),
      Some([StopTime("A", "A", "08:00", "08:00"),
            StopTime("B", "B", "08:30", "08:30"),
            StopTime("C", "C", "09:00", "09:00")]))
  }

  function Upstream152(): Upstream {
    Upstream(Ok(TimetableFeed(Some([Train152()]))), Ok(DelayFeed(Some([LiveDelay("152", 15)]))))
  }

  /** Travelling B to A runs against the train's direction: nothing listed. */
  lemma Train152WrongDirection()
    ensures Handle(Query("B", "A", "2024-05-01"), "2024-05-01", Upstream152()).reply
         == HttpReply(200, Json(ScheduleResponse("2024-05-01", StationRef("B", "B"), StationRef("A", "A"), [])))
  {
    assert FindStop(StopsOf(Train152()), "B") == Some(1);
    assert FindStop(StopsOf(Train152()), "A") == Some(0);
  }

  /** Travelling A to C lists train 152, delayed by the 15 minutes reported. */
  lemma Train152Forward()
    ensures Handle(Query("A", "C", ""), "2024-05-01", Upstream152()).reply.body.value.trains
         == [TrainInfo("152", "Local", 0, "A", "C", "08:00", "09:00", 15, Delayed)]
    ensures Handle(Query("A", "C", ""), "2024-05-01", Upstream152()).requested
         == [TodayTimetablePath, LiveDelayPath]
  {
    assert FindStop(StopsOf(Train152()), "A") == Some(0);
    assert FindStop(StopsOf(Train152()), "C") == Some(2);
    assert DelayTable(Some([LiveDelay("152", 15)])) == map["152" := 15];
  }

  /** A destination no train calls at gives an empty list, still with 200. */
  lemma UnknownDestinationListsNothing()
    ensures Handle(Query("A", "Z", "2024-05-02"), "2024-05-01", Upstream152()).reply.status == 200
    ensures Handle(Query("A", "Z", "2024-05-02"), "2024-05-01", Upstream152()).reply.body.value.trains == []
    ensures Handle(Query("A", "Z", "2024-05-02"), "2024-05-01", Upstream152()).requested
         == [DatedTimetablePrefix + "2024-05-02", LiveDelayPath]
  {
    assert FindStop(StopsOf(Train152()), "Z") == None;
  }
}
