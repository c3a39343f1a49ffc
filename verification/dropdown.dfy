/** The station picker: a substring filter over the station list and the
    small search/open state behind the text input. */
module StationDropdown {
  import opened Wrappers
  import opened Strings
  import opened Types

  /** A station matches a search when its Chinese name contains the text as
      typed, or its English name contains it ignoring case. */
  predicate Matches(s: Station, search: string) {
    Contains(s.name, search) || Contains(ToLowerAscii(s.nameEn), ToLowerAscii(search))
  }

  /** xs can be obtained from ys by deleting elements: order is kept. */
  predicate IsSubsequence<T(==)>(xs: seq<T>, ys: seq<T>)
    decreases |ys|
  {
    if xs == [] then true
    else if ys == [] then false
    else (xs[0] == ys[0] && IsSubsequence(xs[1..], ys[1..])) || IsSubsequence(xs, ys[1..])
  }

  /** The matching stations, in list order. */
  function KeepMatching(stations: seq<Station>, search: string): (r: seq<Station>)
    ensures IsSubsequence(r, stations)
    ensures forall x :: x in r <==> x in stations && Matches(x, search)
    ensures forall x :: multiset(r)[x] == if Matches(x, search) then multiset(stations)[x] else 0
  {
    if stations == [] then []
    else
      var rest := KeepMatching(stations[1..], search);
      assert stations == [stations[0]] + stations[1..];
      assert multiset(stations) == multiset{stations[0]} + multiset(stations[1..]);
      if Matches(stations[0], search) then
        assert ([stations[0]] + rest)[1..] == rest;
        [stations[0]] + rest
      else rest
  }

  /** The list the dropdown shows for a search: everything when the search
      is empty, otherwise the matching stations in list order. */
  function FilterStations(stations: seq<Station>, search: string): (r: seq<Station>)
    ensures search == [] ==> r == stations
    ensures IsSubsequence(r, stations)
    ensures search != [] ==> forall x :: x in r <==> x in stations && Matches(x, search)
    ensures search != [] ==> forall x :: multiset(r)[x] == if Matches(x, search) then multiset(stations)[x] else 0
  {
    if search == [] then
      SubsequenceReflexive(stations);
      stations
    else KeepMatching(stations, search)
  }

  lemma {:induction false} SubsequenceReflexive<T>(xs: seq<T>)
    ensures IsSubsequence(xs, xs)
    decreases |xs|
  {
    if xs != [] {
      SubsequenceReflexive(xs[1..]);
    }
  }

  /** A subsequence is no longer than the sequence it is taken from. */
  lemma {:induction false} SubsequenceNoLonger<T>(xs: seq<T>, ys: seq<T>)
    requires IsSubsequence(xs, ys)
    ensures |xs| <= |ys|
    decreases |ys|
  {
    if xs != [] {
      if xs[0] == ys[0] && IsSubsequence(xs[1..], ys[1..]) {
        SubsequenceNoLonger(xs[1..], ys[1..]);
      } else {
        SubsequenceNoLonger(xs, ys[1..]);
      }
    }
  }

  /** Narrowing a search never brings a station back: whatever matches a
      longer search (one that extends the shorter) matches the shorter. */
  lemma NarrowingKeepsMatches(s: Station, search: string, more: string)
    requires Matches(s, search + more)
    ensures Matches(s, search)
  {
    var longer := search + more;
    if Contains(s.name, longer) {
      ContainsMeansOccurs(s.name, longer);
      var j :| OccursAt(s.name, longer, j);
      assert s.name[j..j + |search|] == longer[..|search|] == search;
      assert OccursAt(s.name, search, j);
      ContainsMeansOccurs(s.name, search);
    } else {
      var name := ToLowerAscii(s.nameEn);
      ContainsMeansOccurs(name, ToLowerAscii(longer));
      var j :| OccursAt(name, ToLowerAscii(longer), j);
      assert ToLowerAscii(longer)[..|search|] == ToLowerAscii(search);
      assert name[j..j + |search|] == ToLowerAscii(longer)[..|search|];
      assert OccursAt(name, ToLowerAscii(search), j);
      ContainsMeansOccurs(name, ToLowerAscii(search));
    }
  }

  /** The search text and whether the list is open. */
  datatype DropdownState = DropdownState(search: string, isOpen: bool)

  /** The callbacks a selection fires, in the order it fires them. */
  datatype Effect =
    | SelectReported(id: string)
    | CacheReported(id: string)
    | SearchSet(value: string)
    | OpenSet(open: bool)

  /** Picking a station reports it, reports it to the cache callback when
      one is given, clears the search and closes the list. */
  function HandleSelect(id: string, hasCacheCallback: bool): (effects: seq<Effect>)
    ensures |effects| == if hasCacheCallback then 4 else 3
    ensures effects[0] == SelectReported(id)
    ensures hasCacheCallback ==> effects[1] == CacheReported(id)
    ensures effects[|effects| - 2] == SearchSet("") && effects[|effects| - 1] == OpenSet(false)
  {
    [SelectReported(id)] + (if hasCacheCallback then [CacheReported(id)] else []) + [SearchSet(""), OpenSet(false)]
  }

  /** The dropdown state after a sequence of callbacks; reports to the
      parent leave it alone. */
  function Apply(st: DropdownState, effects: seq<Effect>): (r: DropdownState)
    decreases |effects|
  {
    if effects == [] then st
    else
      var next := match effects[0]
        case SearchSet(v) => st.(search := v)
        case OpenSet(o) => st.(isOpen := o)
        case _ => st;
      Apply(next, effects[1..])
  }

  /** The ids a sequence of callbacks reports as selected. */
  function Reported(effects: seq<Effect>): (ids: seq<string>)
    decreases |effects|
  {
    if effects == [] then []
    else (if effects[0].SelectReported? then [effects[0].id] else []) + Reported(effects[1..])
  }

  /** Typing replaces the search and opens the list. */
  function OnChange(st: DropdownState, value: string): (r: DropdownState)
    ensures r.search == value && r.isOpen
  {
    DropdownState(value, true)
  }

  /** Focusing the input clears the search and opens the list. */
  function OnFocus(st: DropdownState): (r: DropdownState)
    ensures r.search == [] && r.isOpen
  {
    DropdownState([], true)
  }

  /** A mouse press closes the list unless it lands inside the component. */
  function OnMouseDown(st: DropdownState, insideComponent: bool): (r: DropdownState)
    ensures r.search == st.search
    ensures r.isOpen <==> st.isOpen && insideComponent
  {
    if insideComponent then st else st.(isOpen := false)
  }

  /** The text shown in the input: the search when there is one, else the
      selected station's name, else nothing. */
  function InputValue(search: string, selected: Option<Station>): (v: string)
    ensures search != [] ==> v == search
    ensures search == [] && selected.Some? ==> v == selected.value.name
    ensures search == [] && selected.None? ==> v == []
  {
    if search != [] then search
    else if selected.Some? && selected.value.name != [] then selected.value.name
    else []
  }

  /** The stations listed under the input. */
  function Visible(st: DropdownState, stations: seq<Station>): (r: seq<Station>)
    ensures !st.isOpen ==> r == []
    ensures st.isOpen ==> r == FilterStations(stations, st.search)
  {
    if st.isOpen then FilterStations(stations, st.search) else []
  }

  /** After a pick the list is closed and the search empty, whatever the
      state before, and exactly the picked id was reported. */
  lemma {:induction false} SelectClosesAndClears(st: DropdownState, id: string, hasCacheCallback: bool)
    ensures Apply(st, HandleSelect(id, hasCacheCallback)) == DropdownState([], false)
    ensures Reported(HandleSelect(id, hasCacheCallback)) == [id]
  {
    var e := HandleSelect(id, hasCacheCallback);
    var tail := [SearchSet(""), OpenSet(false)];
    assert Apply(st.(search := ""), [OpenSet(false)]) == DropdownState([], false) by {
      assert [OpenSet(false)][1..] == [];
    }
    assert tail[1..] == [OpenSet(false)];
    assert Reported([OpenSet(false)]) == [] by {
      assert [OpenSet(false)][1..] == [];
    }
    assert Reported(tail) == [];
    if hasCacheCallback {
      assert e[1..] == [CacheReported(id)] + tail;
      assert ([CacheReported(id)] + tail)[1..] == tail;
      assert Apply(st, e) == Apply(st, e[1..]) == Apply(st, tail);
      assert Reported(e[1..]) == Reported(tail);
    } else {
      assert e[1..] == tail;
    }
  }

  /** After a pick the input shows the picked station's name. */
  lemma SelectShowsStation(st: DropdownState, picked: Station, hasCacheCallback: bool)
    ensures InputValue(Apply(st, HandleSelect(picked.id, hasCacheCallback)).search, Some(picked)) == picked.name
  {
    SelectClosesAndClears(st, picked.id, hasCacheCallback);
  }

  /** Focus shows the whole list; a pick hides it. */
  lemma FocusShowsAllSelectHidesAll(st: DropdownState, stations: seq<Station>, id: string, hasCacheCallback: bool)
    ensures Visible(OnFocus(st), stations) == stations
    ensures Visible(Apply(st, HandleSelect(id, hasCacheCallback)), stations) == []
  {
    SelectClosesAndClears(st, id, hasCacheCallback);
  }

  /** While typing, exactly the matching stations are listed. */
  lemma TypingListsMatches(st: DropdownState, stations: seq<Station>, value: string)
    requires value != []
    ensures var shown := Visible(OnChange(st, value), stations);
            IsSubsequence(shown, stations) &&
            forall x :: x in shown <==> x in stations && Matches(x, value)
  {
  }
}
