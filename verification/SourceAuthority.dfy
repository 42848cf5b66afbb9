/**
  Source authority windows of packages/sync/src/sync-user.ts: the interval arithmetic that
  decides over which period a run may delete events.  Windows are the half-open intervals of
  packages/calendar/src/core/sync/sync-range.ts; times are integers and ids are ordered numbers.
*/
module SourceAuthority {
  import opened Wrappers

  type SourceId = nat

  datatype Window = Window(timeMin: int, timeMax: int) {
    predicate Valid() {
      timeMin < timeMax
    }

    predicate Within(outer: Window) {
      outer.timeMin <= timeMin && timeMax <= outer.timeMax
    }
  }

  /** None stands for the RangeError. */
  function CreateSyncWindow(timeMin: int, timeMax: int): (w: Option<Window>)
    ensures w.Some? ==> w.value.Valid()
  {
    if timeMin >= timeMax then None else Some(Window(timeMin, timeMax))
  }

  /** The largest window inside both, if there is one. */
  function IntersectSyncWindows(first: Window, second: Window): (w: Option<Window>)
    ensures w.Some? ==> w.value.Valid()
    ensures forall x: Window :: x.Valid() ==>
              (x.Within(first) && x.Within(second) <==> w.Some? && x.Within(w.value))
  {
    var timeMin := if first.timeMin > second.timeMin then first.timeMin else second.timeMin;
    var timeMax := if first.timeMax < second.timeMax then first.timeMax else second.timeMax;
    if timeMin >= timeMax then None else Some(Window(timeMin, timeMax))
  }

  /** A calendar row; an invalid date in the database counts as absent. */
  datatype StoredSource = StoredSource(
    id: SourceId, windowStart: Option<int>, windowEnd: Option<int>, recorded: bool, rangesAllowed: bool)

  function StoredCoverage(s: StoredSource): Option<Window> {
    if s.windowStart.None? || s.windowEnd.None? || !s.recorded || !s.rangesAllowed then None
    else CreateSyncWindow(s.windowStart.value, s.windowEnd.value)
  }

  ghost predicate AllValid(windows: map<SourceId, Window>) {
    forall id :: id in windows ==> windows[id].Valid()
  }

  // ---------------------------------------------------------------------------------------
  // The aggregate window
  // ---------------------------------------------------------------------------------------

  /** w lies inside the requested window and inside the window of every listed source. */
  ghost predicate InsideAll(w: Window, ids: seq<SourceId>, windows: map<SourceId, Window>, requested: Window) {
    w.Within(requested) && forall id :: id in ids ==> id in windows && w.Within(windows[id])
  }

  /** Every listed source has a window, and no other source does. */
  predicate Covered(ids: seq<SourceId>, windows: map<SourceId, Window>) {
    ids != [] && |windows| == |ids| && forall id :: id in ids ==> id in windows
  }

  /**
    The aggregate is the greatest window the run is authoritative over: a window lies inside it
    exactly when it lies inside the requested window and every source window.  It is null when
    there is no such window, when there are no sources and when a source has no window.
  */
  ghost predicate IsAggregate(agg: Option<Window>, ids: seq<SourceId>, windows: map<SourceId, Window>, requested: Window) {
    && (agg.Some? ==> agg.value.Valid())
    && forall w: Window :: w.Valid() ==>
         ((agg.Some? && w.Within(agg.value)) <==> Covered(ids, windows) && InsideAll(w, ids, windows, requested))
  }

  lemma AggregateIsUnique(a: Option<Window>, b: Option<Window>, ids: seq<SourceId>, windows: map<SourceId, Window>, requested: Window)
    requires IsAggregate(a, ids, windows, requested) && IsAggregate(b, ids, windows, requested)
    ensures a == b
  {
    if a.Some? {
      assert a.value.Within(a.value);
    }
    if b.Some? {
      assert b.value.Within(b.value);
    }
  }

  method CreateAggregateAuthorityWindow(ids: seq<SourceId>, windows: map<SourceId, Window>, requested: Window)
    returns (agg: Option<Window>)
    requires requested.Valid() && AllValid(windows)
    ensures IsAggregate(agg, ids, windows, requested)
  {
    if |ids| == 0 {
      return None;
    }
    if |windows| != |ids| {
      return None;
    }
    var current := requested;
    var n := 0;
    while n < |ids|
      invariant 0 <= n <= |ids| && current.Valid()
      invariant forall i :: 0 <= i < n ==> ids[i] in windows
      invariant forall w: Window :: w.Valid() ==> (w.Within(current) <==> InsideAll(w, ids[..n], windows, requested))
    {
      assert ids[..n + 1] == ids[..n] + [ids[n]];
      if ids[n] !in windows {
        return None;
      }
      var next := IntersectSyncWindows(current, windows[ids[n]]);
      forall w: Window | w.Valid()
        ensures InsideAll(w, ids[..n + 1], windows, requested) <==> InsideAll(w, ids[..n], windows, requested) && w.Within(windows[ids[n]])
      {
      }
      if next.None? {
        forall w: Window | w.Valid()
          ensures !InsideAll(w, ids, windows, requested)
        {
          assert !InsideAll(w, ids[..n + 1], windows, requested);
        }
        return None;
      }
      current := next.value;
      n := n + 1;
    }
    assert ids[..n] == ids;
    agg := Some(current);
  }

  // ---------------------------------------------------------------------------------------
  // Reading, narrowing and bounding
  // ---------------------------------------------------------------------------------------

  /** The window loop of `resolveSourceAuthority` over the rows the query returned. */
  method ResolveSourceWindows(sources: seq<StoredSource>, requested: Window) returns (windows: map<SourceId, Window>)
    requires requested.Valid()
    requires forall i, j :: 0 <= i < j < |sources| ==> sources[i].id != sources[j].id
    ensures AllValid(windows)
    ensures forall id :: id in windows ==> windows[id].Within(requested)
    ensures forall i :: 0 <= i < |sources| ==>
              var coverage := StoredCoverage(sources[i]);
              var window := if coverage.None? then None else IntersectSyncWindows(requested, coverage.value);
              (sources[i].id in windows <==> window.Some?) && (window.Some? ==> windows[sources[i].id] == window.value)
    ensures forall id :: id in windows ==> exists i :: 0 <= i < |sources| && sources[i].id == id
    ensures forall i :: 0 <= i < |sources| ==> HasItsPart(sources[i], windows, requested)
  {
    windows := map[];
    var n := 0;
    while n < |sources|
      invariant 0 <= n <= |sources| && AllValid(windows)
      invariant forall id :: id in windows ==> windows[id].Within(requested)
      invariant forall i :: 0 <= i < n ==>
                  var coverage := StoredCoverage(sources[i]);
                  var window := if coverage.None? then None else IntersectSyncWindows(requested, coverage.value);
                  (sources[i].id in windows <==> window.Some?) && (window.Some? ==> windows[sources[i].id] == window.value)
      invariant forall id :: id in windows ==> exists i :: 0 <= i < n && sources[i].id == id
    {
      var coverage := StoredCoverage(sources[n]);
      if coverage.Some? {
        var window := IntersectSyncWindows(requested, coverage.value);
        if window.Some? {
          assert window.value.Within(window.value);
          windows := windows[sources[n].id := window.value];
        }
      }
      n := n + 1;
    }
    forall i | 0 <= i < |sources|
      ensures HasItsPart(sources[i], windows, requested)
    {
      PartOfStoredWindow(sources[i], windows, requested);
    }
  }

  /** A source has a window exactly if its coverage was recorded, is allowed and meets the request. */
  ghost predicate HasItsPart(s: StoredSource, windows: map<SourceId, Window>, requested: Window) {
    if s.windowStart.Some? && s.windowEnd.Some? && s.recorded && s.rangesAllowed && s.windowStart.value < s.windowEnd.value then
      var (start, end) := (s.windowStart.value, s.windowEnd.value);
      var overlaps := start < requested.timeMax && requested.timeMin < end;
      && (s.id in windows <==> overlaps)
      && (overlaps ==>
            && windows[s.id].timeMin == (if start < requested.timeMin then requested.timeMin else start)
            && windows[s.id].timeMax == (if end < requested.timeMax then end else requested.timeMax))
    else s.id !in windows
  }

  lemma PartOfStoredWindow(s: StoredSource, windows: map<SourceId, Window>, requested: Window)
    requires requested.Valid()
    requires var coverage := StoredCoverage(s);
             var window := if coverage.None? then None else IntersectSyncWindows(requested, coverage.value);
             (s.id in windows <==> window.Some?) && (window.Some? ==> windows[s.id] == window.value)
    ensures HasItsPart(s, windows, requested)
  {
  }

  ghost predicate IsNarrowing(narrowed: map<SourceId, Window>, initial: map<SourceId, Window>, current: map<SourceId, Window>) {
    forall id ::
      var both := if id in initial && id in current then IntersectSyncWindows(initial[id], current[id]) else None;
      (id in narrowed <==> both.Some?) && (both.Some? ==> narrowed[id] == both.value)
  }

  method NarrowSourceAuthority(initial: map<SourceId, Window>, current: map<SourceId, Window>) returns (narrowed: map<SourceId, Window>)
    ensures IsNarrowing(narrowed, initial, current)
    ensures AllValid(narrowed)
  {
    narrowed := map[];
    var rest := initial.Keys;
    while rest != {}
      invariant rest <= initial.Keys && narrowed.Keys <= initial.Keys - rest
      invariant forall id :: id in initial && id !in rest ==>
                  var both := if id in current then IntersectSyncWindows(initial[id], current[id]) else None;
                  (id in narrowed <==> both.Some?) && (both.Some? ==> narrowed[id] == both.value)
    {
      var id :| id in rest;
      if id in current {
        var both := IntersectSyncWindows(initial[id], current[id]);
        if both.Some? {
          narrowed := narrowed[id := both.value];
        }
      }
      rest := rest - {id};
    }
  }

  /** The smallest window around all source windows. */
  method GetBoundingSourceAuthorityWindow(windows: map<SourceId, Window>) returns (bounds: Option<Window>)
    requires AllValid(windows)
    ensures bounds.None? <==> windows == map[]
    ensures bounds.Some? ==> bounds.value.Valid()
    ensures bounds.Some? ==> forall outer: Window ::
              bounds.value.Within(outer) <==> forall id :: id in windows ==> windows[id].Within(outer)
  {
    var timeMin: Option<int> := None;
    var timeMax: Option<int> := None;
    var rest := windows.Keys;
    while rest != {}
      invariant rest <= windows.Keys
      invariant timeMin.Some? == timeMax.Some? == (rest != windows.Keys)
      invariant timeMin.Some? ==> exists id :: id in windows && id !in rest && windows[id].timeMin == timeMin.value
      invariant timeMax.Some? ==> exists id :: id in windows && id !in rest && windows[id].timeMax == timeMax.value
      invariant forall id :: id in windows && id !in rest ==>
                  timeMin.Some? && timeMin.value <= windows[id].timeMin && windows[id].timeMax <= timeMax.value
    {
      var id :| id in rest;
      if timeMin.None? || windows[id].timeMin < timeMin.value {
        timeMin := Some(windows[id].timeMin);
      }
      if timeMax.None? || windows[id].timeMax > timeMax.value {
        timeMax := Some(windows[id].timeMax);
      }
      rest := rest - {id};
    }
    if timeMin.None? || timeMax.None? {
      return None;
    }
    bounds := CreateSyncWindow(timeMin.value, timeMax.value);
  }

  // ---------------------------------------------------------------------------------------
  // Comparing source lists
  // ---------------------------------------------------------------------------------------

  predicate Ascending(s: seq<SourceId>) {
    |s| <= 1 || (s[0] <= s[1] && Ascending(s[1..]))
  }

  function Insert(x: SourceId, s: seq<SourceId>): (r: seq<SourceId>)
    requires Ascending(s)
    ensures Ascending(r) && multiset(r) == multiset(s) + multiset{x}
    ensures r != [] && (r[0] == x || (s != [] && r[0] == s[0]))
  {
    if s == [] || x <= s[0] then
      assert ([x] + s)[1..] == s;
      [x] + s
    else
      var tail := Insert(x, s[1..]);
      assert s == [s[0]] + s[1..];
      assert ([s[0]] + tail)[1..] == tail;
      [s[0]] + tail
  }

  function ToSorted(s: seq<SourceId>): (r: seq<SourceId>)
    ensures Ascending(r) && multiset(r) == multiset(s) && |r| == |s|
  {
    if s == [] then []
    else
      assert s == [s[0]] + s[1..];
      var r := Insert(s[0], ToSorted(s[1..]));
      assert |multiset(r)| == |r| && |multiset(s)| == |s|;
      r
  }

  lemma {:induction false} HeadIsLeast(s: seq<SourceId>, x: SourceId)
    requires Ascending(s) && x in s
    ensures s[0] <= x
  {
    if |s| > 1 && x != s[0] {
      HeadIsLeast(s[1..], x);
    }
  }

  lemma SameHead(a: seq<SourceId>, b: seq<SourceId>)
    requires a != [] && b != [] && Ascending(a) && Ascending(b) && multiset(a) == multiset(b)
    ensures a[0] == b[0]
  {
    assert a[0] in multiset(b) && b[0] in multiset(a);
    HeadIsLeast(a, b[0]);
    HeadIsLeast(b, a[0]);
  }

  lemma TailMultiset(s: seq<SourceId>)
    requires s != []
    ensures multiset(s[1..]) == multiset(s) - multiset{s[0]}
  {
    assert s == [s[0]] + s[1..];
  }

  lemma {:induction false} SortedIsUnique(a: seq<SourceId>, b: seq<SourceId>)
    requires Ascending(a) && Ascending(b) && multiset(a) == multiset(b)
    ensures a == b
  {
    if a == [] || b == [] {
      assert |a| == |multiset(a)| && |b| == |multiset(b)|;
    } else {
      SameHead(a, b);
      TailMultiset(a);
      TailMultiset(b);
      SortedIsUnique(a[1..], b[1..]);
      assert a == [a[0]] + a[1..] && b == [b[0]] + b[1..];
    }
  }

  predicate HaveSourceCalendarsChanged(before: seq<SourceId>, after: seq<SourceId>) {
    if |before| != |after| then true
    else exists i :: 0 <= i < |before| && ToSorted(before)[i] != ToSorted(after)[i]
  }

  /** The comparison reports a change exactly when the lists differ other than in order. */
  lemma ChangeIsByContent(before: seq<SourceId>, after: seq<SourceId>)
    ensures HaveSourceCalendarsChanged(before, after) <==> multiset(before) != multiset(after)
  {
    if multiset(before) == multiset(after) {
      assert |multiset(before)| == |before| && |multiset(after)| == |after|;
      SortedIsUnique(ToSorted(before), ToSorted(after));
    } else if |before| == |after| {
      assert ToSorted(before) != ToSorted(after);
    }
  }

  // ---------------------------------------------------------------------------------------
  // Authority never grows during a run
  // ---------------------------------------------------------------------------------------

  lemma SameSourcesSameCover(ids: seq<SourceId>, ids': seq<SourceId>, windows: map<SourceId, Window>)
    requires multiset(ids) == multiset(ids')
    ensures forall id :: id in ids <==> id in ids'
    ensures Covered(ids, windows) <==> Covered(ids', windows)
  {
    assert |multiset(ids)| == |ids| && |multiset(ids')| == |ids'|;
    assert forall id :: id in ids <==> id in multiset(ids);
    assert forall id :: id in ids' <==> id in multiset(ids');
  }

  lemma {:induction false} KeysAreFewerThanList(keys: set<SourceId>, ids: seq<SourceId>)
    requires forall id :: id in keys ==> id in ids
    ensures |keys| <= |ids|
  {
    if ids == [] {
      assert keys == {};
    } else {
      KeysAreFewerThanList(keys - {ids[0]}, ids[1..]);
    }
  }

  /** Windows read for the listed sources that lose a source can no longer cover the list. */
  lemma NarrowedCoverWasCovered(ids: seq<SourceId>, initial: map<SourceId, Window>, current: map<SourceId, Window>, narrowed: map<SourceId, Window>)
    requires IsNarrowing(narrowed, initial, current) && Covered(ids, narrowed)
    requires forall id :: id in initial ==> id in ids
    ensures Covered(ids, initial)
  {
    assert narrowed.Keys <= initial.Keys;
    KeysAreFewerThanList(initial.Keys, ids);
    assert |initial.Keys| == |narrowed.Keys| + |initial.Keys - narrowed.Keys|;
  }

  /**
    The aggregate computed from the re-read, narrowed windows lies inside the one the run started
    with, and stays null if that was null, whenever the list of sources has not changed.
  */
  lemma AuthorityNeverGrows(
    ids: seq<SourceId>, ids': seq<SourceId>, requested: Window,
    initial: map<SourceId, Window>, current: map<SourceId, Window>, narrowed: map<SourceId, Window>,
    before: Option<Window>, after: Option<Window>)
    requires !HaveSourceCalendarsChanged(ids, ids')
    requires AllValid(initial) && forall id :: id in initial ==> id in ids
    requires IsNarrowing(narrowed, initial, current)
    requires IsAggregate(before, ids, initial, requested) && IsAggregate(after, ids', narrowed, requested)
    ensures after.Some? ==> before.Some? && after.value.Within(before.value)
    ensures after.Some? ==> forall id :: id in ids ==> id in current && after.value.Within(current[id])
  {
    ChangeIsByContent(ids, ids');
    if after.Some? {
      var w := after.value;
      assert w.Within(w);
      assert Covered(ids', narrowed) && InsideAll(w, ids', narrowed, requested);
      SameSourcesSameCover(ids, ids', narrowed);
      NarrowedCoverWasCovered(ids, initial, current, narrowed);
      forall id | id in ids
        ensures id in initial && id in current && w.Within(initial[id]) && w.Within(current[id])
      {
        assert id in narrowed && w.Within(narrowed[id]);
      }
      assert InsideAll(w, ids, initial, requested);
    }
  }

  /** aggregate ⊆ each source window ⊆ bounding window ⊆ requested window */
  lemma AuthorityIsNested(
    ids: seq<SourceId>, windows: map<SourceId, Window>, requested: Window, agg: Option<Window>, bounds: Window, id: SourceId)
    requires forall i :: i in windows ==> windows[i].Within(requested)
    requires IsAggregate(agg, ids, windows, requested) && id in ids && id in windows
    requires forall outer: Window :: bounds.Within(outer) <==> forall i :: i in windows ==> windows[i].Within(outer)
    ensures agg.Some? ==> agg.value.Within(windows[id])
    ensures windows[id].Within(bounds) && bounds.Within(requested)
  {
    assert bounds.Within(bounds);
    if agg.Some? {
      assert agg.value.Within(agg.value);
    }
  }

  ghost predicate QueriedFor(sources: seq<StoredSource>, ids: seq<SourceId>) {
    && (forall i, j :: 0 <= i < j < |sources| ==> sources[i].id != sources[j].id)
    && (forall i :: 0 <= i < |sources| ==> sources[i].id in ids)
  }

  /**
    One run: authority is read before the remote read, and again under the source locks after
    it.  A changed source list forfeits all authority.  `localRead` is the window the local
    events are read over.
  */
  method ReadAuthorityTwice(
    ids: seq<SourceId>, sources: seq<StoredSource>, ids': seq<SourceId>, sources': seq<StoredSource>, requested: Window)
    returns (before: Option<Window>, after: Option<Window>, localRead: Option<Window>)
    requires requested.Valid() && QueriedFor(sources, ids) && QueriedFor(sources', ids')
    ensures multiset(ids) != multiset(ids') ==> after.None? && localRead.None?
    ensures after.Some? ==> before.Some? && after.value.Within(before.value)
    ensures after.Some? ==> localRead.Some? && after.value.Within(localRead.value)
    ensures localRead.Some? ==> localRead.value.Within(requested)
  {
    var initial := ResolveSourceWindows(sources, requested);
    before := CreateAggregateAuthorityWindow(ids, initial, requested);
    ChangeIsByContent(ids, ids');
    if HaveSourceCalendarsChanged(ids, ids') {
      after, localRead := None, None;
      return;
    }
    var current := ResolveSourceWindows(sources', requested);
    var narrowed := NarrowSourceAuthority(initial, current);
    after := CreateAggregateAuthorityWindow(ids', narrowed, requested);
    localRead := GetBoundingSourceAuthorityWindow(narrowed);
    AuthorityNeverGrows(ids, ids', requested, initial, current, narrowed, before, after);
    forall id | id in narrowed
      ensures narrowed[id].Within(requested)
    {
      assert narrowed[id].Within(narrowed[id]);
    }
    if after.Some? {
      assert after.value.Within(after.value);
      assert ids'[0] in ids' && ids'[0] in narrowed;
      AuthorityIsNested(ids', narrowed, requested, after, localRead.value, ids'[0]);
    }
  }
}
