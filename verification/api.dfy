/** The two endpoints the app calls (the `api` object of
    src/api/client.ts): the station list and a schedule query whose URL is
    built with URLSearchParams. */
module Api {
  import opened Wrappers
  import opened Strings
  import opened FormEncoding
  import Client

  const StationsUrl := "/api/stations"
  const SchedulePrefix := "/api/schedule?"

  /** The query of a schedule request: origin and dest always, in that
      order, and date last and only when it is non-empty (an absent date
      and the empty one are both falsy). */
  function ScheduleParams(origin: string, dest: string, date: string): (ps: seq<Param>)
    ensures |ps| == if date == [] then 2 else 3
    ensures ps[0] == Param("origin", origin) && ps[1] == Param("dest", dest)
    ensures date != [] ==> ps[2] == Param("date", date)
  {
    [Param("origin", origin), Param("dest", dest)] + (if date != [] then [Param("date", date)] else [])
  }

  function ScheduleUrl(origin: string, dest: string, date: string): string {
    SchedulePrefix + SerializeQuery(ScheduleParams(origin, dest, date))
  }

  /** The station list and a schedule query never share a pending request:
      whatever the attempt numbers and the query, their registry keys differ. */
  lemma StationsAndScheduleNeverShareKey(a: nat, b: nat, origin: string, dest: string, date: string)
    ensures Client.CacheKey(StationsUrl, a) != Client.CacheKey(ScheduleUrl(origin, dest, date), b)
  {
    var url := ScheduleUrl(origin, dest, date);
    assert |url| >= |SchedulePrefix| > |StationsUrl|;
    Client.CacheKeyInjective(StationsUrl, a, url, b);
  }

  /** The URL carries exactly the schedule parameters: what follows the
      prefix parses back to them, whatever characters the inputs hold. */
  lemma ScheduleUrlRoundTrip(origin: string, dest: string, date: string)
    ensures var url := ScheduleUrl(origin, dest, date);
            url[..|SchedulePrefix|] == SchedulePrefix &&
            ParseQuery(url[|SchedulePrefix|..]) == Some(ScheduleParams(origin, dest, date))
  {
    QueryRoundTrip(ScheduleParams(origin, dest, date));
  }

  /** The parsed request names a date iff a non-empty date was passed. */
  lemma ScheduleUrlHasDateIffGiven(origin: string, dest: string, date: string)
    ensures var ps := ParseQuery(ScheduleUrl(origin, dest, date)[|SchedulePrefix|..]);
            ps.Some? && ((exists i :: 0 <= i < |ps.value| && ps.value[i].name == "date") <==> date != [])
  {
    ScheduleUrlRoundTrip(origin, dest, date);
    var ps := ScheduleParams(origin, dest, date);
    assert ps[0].name != "date" && ps[1].name != "date";
    if date != [] {
      assert ps[2].name == "date";
    }
  }

  /** A pair of id-like texts serializes without any escaping. */
  lemma PlainPair(name: string, value: string)
    requires IsIdText(name) && IsIdText(value)
    ensures PairText(Param(name, value)) == name + "=" + value
  {
    IdSerializesToItself(name);
    IdSerializesToItself(value);
  }

  lemma NamesArePlain()
    ensures IsIdText("origin") && IsIdText("dest")
  {
  }

  /** For plain station ids and no date the URL is the familiar
      "/api/schedule?origin=<origin>&dest=<dest>". */
  lemma ScheduleUrlForIds(origin: string, dest: string)
    requires IsIdText(origin) && IsIdText(dest)
    ensures ScheduleUrl(origin, dest, "") == SchedulePrefix + (("origin" + "=" + origin) + "&" + ("dest" + "=" + dest))
  {
    NamesArePlain();
    PlainPair("origin", origin);
    PlainPair("dest", dest);
    var ps := ScheduleParams(origin, dest, "");
    assert ps[1..] == [Param("dest", dest)];
    assert SerializeQuery(ps) == PairText(ps[0]) + "&" + PairText(ps[1]);
  }
}
