/** Planning kline requests for missing dates (liquidity_migration/data/archive_manifest.py).
    Hours and days are counted from one epoch; a missing day needs its hours 24d to 24d + 23. */
module RequestWindows {
  import opened Ordered

  /** A request for the hours `first` to `last`, both included. */
  datatype Window = Window(first: int, last: int)

  function Hours(maxHours: int): int { if maxHours > 1 then maxHours else 1 }

  ghost predicate OnDay(day: int, hour: int) { 24 * day <= hour < 24 * day + 24 }

  ghost predicate Required(days: set<int>, hour: int) { exists d :: d in days && OnDay(d, hour) }

  ghost predicate InWindow(w: Window, hour: int) { w.first <= hour <= w.last }

  ghost predicate Asked(windows: seq<Window>, hour: int) {
    exists i :: 0 <= i < |windows| && InWindow(windows[i], hour)
  }

  ghost predicate Covers(windows: seq<Window>, days: set<int>) {
    forall h {:trigger Asked(windows, h)} :: Required(days, h) ==> Asked(windows, h)
  }

  ghost predicate Fits(windows: seq<Window>, hours: int) {
    forall i :: 0 <= i < |windows| ==> windows[i].last < windows[i].first + hours
  }

  /** Windows in order and apart, each running from a required hour to a required hour, no two
      starts close enough for one request to reach both. */
  ghost predicate Planned(windows: seq<Window>, days: set<int>, hours: int) {
    && Fits(windows, hours)
    && (forall i :: 0 <= i < |windows| ==>
          && windows[i].first <= windows[i].last
          && Required(days, windows[i].first) && Required(days, windows[i].last))
    && (forall i, j :: 0 <= i < j < |windows| ==>
          && windows[i].last < windows[j].first
          && windows[i].first + hours <= windows[j].first)
  }

  /** The required hours before `bound` that no window holds: none. */
  ghost predicate CoveredBefore(windows: seq<Window>, days: set<int>, bound: int) {
    forall h {:trigger Asked(windows, h)} :: Required(days, h) && h < bound ==> Asked(windows, h)
  }

  /** No required hour lies strictly between one listed day and the next. */
  lemma NothingBetween(list: seq<int>, days: set<int>, k: nat, h: int)
    requires Ascending(list) && (forall x :: x in list <==> x in days)
    requires k < |list| && 24 * list[k] + 23 < h && (k + 1 < |list| ==> h < 24 * list[k + 1])
    ensures !Required(days, h)
  {
    forall d | d in days
      ensures !OnDay(d, h)
    {
      assert d in list;
      var j :| 0 <= j < |list| && list[j] == d;
      assert j < k ==> list[j] < list[k];
      assert j > k + 1 ==> list[k + 1] < list[j];
    }
  }

  lemma Extend(windows: seq<Window>, w: Window, days: set<int>, hours: int, bound: int, next: int)
    requires Planned(windows, days, hours) && CoveredBefore(windows, days, bound)
    requires w.first == bound && bound <= w.last < bound + hours
    requires Required(days, w.first) && Required(days, w.last)
    requires forall i :: 0 <= i < |windows| ==> windows[i].last < bound && windows[i].first + hours <= bound
    requires forall h :: w.last < h < next ==> !Required(days, h)
    ensures Planned(windows + [w], days, hours)
    ensures CoveredBefore(windows + [w], days, next)
  {
    var more := windows + [w];
    forall h | Required(days, h) && h < next
      ensures Asked(more, h)
    {
      if h < bound {
        assert Asked(windows, h);
        var i :| 0 <= i < |windows| && InWindow(windows[i], h);
        assert InWindow(more[i], h);
      } else {
        assert InWindow(more[|windows|], h);
      }
    }
  }

  function DayEnd(day: int): int { 24 * day + 23 }

  function Lesser(a: int, b: int): int { if a < b then a else b }

  /** The days `list[index..]` are still to plan, the first of them from the hour `cursor`. */
  ghost predicate Progress(windows: seq<Window>, list: seq<int>, days: set<int>, hours: int, index: int, cursor: int) {
    && 0 <= index <= |list|
    && Planned(windows, days, hours)
    && (index < |list| ==>
          && OnDay(list[index], cursor)
          && CoveredBefore(windows, days, cursor)
          && (forall i :: 0 <= i < |windows| ==> windows[i].last < cursor && windows[i].first + hours <= cursor))
    && (index == |list| ==> Covers(windows, days))
  }

  lemma NothingBefore(list: seq<int>, days: set<int>)
    requires Ascending(list) && (forall x :: x in list <==> x in days) && list != []
    ensures forall h :: h < 24 * list[0] ==> !Required(days, h)
  {
    forall h, d | h < 24 * list[0] && d in days
      ensures !OnDay(d, h)
    {
      assert d in list;
      LeastFirst(list, d);
    }
  }

  lemma NothingAfter(list: seq<int>, days: set<int>)
    requires Ascending(list) && (forall x :: x in list <==> x in days) && list != []
    ensures forall h :: h > DayEnd(list[|list| - 1]) ==> !Required(days, h)
  {
    forall h | h > DayEnd(list[|list| - 1])
      ensures !Required(days, h)
    {
      NothingBetween(list, days, |list| - 1, h);
    }
  }

  /** The request that starts at `cursor` and whose reach takes in day `k` and no later day. */
  ghost predicate Reaches(list: seq<int>, hours: int, index: int, cursor: int, k: int) {
    && 0 <= index <= k < |list| && hours >= 1
    && OnDay(list[index], cursor)
    && 24 * list[k] <= cursor + hours - 1
    && (k + 1 < |list| ==> 24 * list[k + 1] > cursor + hours - 1)
  }

  lemma EndsRequired(list: seq<int>, days: set<int>, hours: int, index: int, cursor: int, k: int)
    requires Ascending(list) && (forall x :: x in list <==> x in days)
    requires Reaches(list, hours, index, cursor, k)
    ensures var last := Lesser(DayEnd(list[k]), cursor + hours - 1);
            && Required(days, cursor) && Required(days, last) && cursor <= last
  {
    assert index < k ==> list[index] < list[k];
    assert OnDay(list[k], Lesser(DayEnd(list[k]), cursor + hours - 1));
    assert list[index] in days && list[k] in days;
  }

  /** The request ran out of hours inside day `k`. */
  lemma RanOut(windows: seq<Window>, list: seq<int>, days: set<int>, hours: int, index: int, cursor: int, k: int)
    requires Ascending(list) && (forall x :: x in list <==> x in days)
    requires Progress(windows, list, days, hours, index, cursor) && Reaches(list, hours, index, cursor, k)
    requires DayEnd(list[k]) > cursor + hours - 1
    ensures Progress(windows + [Window(cursor, cursor + hours - 1)], list, days, hours, k, cursor + hours)
  {
    EndsRequired(list, days, hours, index, cursor, k);
    Extend(windows, Window(cursor, cursor + hours - 1), days, hours, cursor, cursor + hours);
  }

  /** The request reached the end of day `k`. */
  lemma Finished(windows: seq<Window>, list: seq<int>, days: set<int>, hours: int, index: int, cursor: int, k: int)
    requires Ascending(list) && (forall x :: x in list <==> x in days)
    requires Progress(windows, list, days, hours, index, cursor) && Reaches(list, hours, index, cursor, k)
    requires DayEnd(list[k]) <= cursor + hours - 1
    ensures Progress(windows + [Window(cursor, DayEnd(list[k]))], list, days, hours, k + 1,
                     if k + 1 < |list| then 24 * list[k + 1] else cursor)
  {
    var w := Window(cursor, DayEnd(list[k]));
    EndsRequired(list, days, hours, index, cursor, k);
    var next := if k + 1 < |list| then 24 * list[k + 1] else w.last + 1;
    forall h | w.last < h < next
      ensures !Required(days, h)
    {
      NothingBetween(list, days, k, h);
    }
    Extend(windows, w, days, hours, cursor, next);
    if k + 1 == |list| {
      NothingAfter(list, days);
    } else {
      assert forall i :: 0 <= i < |windows| ==> windows[i].last < cursor;
    }
  }

  /** The last day whose first hour one request from `cursor` still reaches. */
  method LastReached(days: seq<int>, hours: int, index: nat, cursor: int) returns (lastIncluded: int, requestEnd: int)
    requires index < |days| && OnDay(days[index], cursor) && hours >= 1
    ensures Reaches(days, hours, index, cursor, lastIncluded)
    ensures requestEnd == Lesser(DayEnd(days[lastIncluded]), cursor + hours - 1)
  {
    var capacityEnd := cursor + hours - 1;
    lastIncluded := index;
    requestEnd := Lesser(DayEnd(days[lastIncluded]), capacityEnd);
    var candidate := index + 1;
    while candidate < |days| && 24 * days[candidate] <= capacityEnd
      invariant index < candidate <= |days| && lastIncluded == candidate - 1
      invariant 24 * days[lastIncluded] <= capacityEnd
      invariant requestEnd == Lesser(DayEnd(days[lastIncluded]), capacityEnd)
    {
      lastIncluded := candidate;
      requestEnd := Lesser(DayEnd(days[candidate]), capacityEnd);
      candidate := candidate + 1;
    }
  }

  method MissingDateWindows(dates: set<int>, maxHours: int) returns (windows: seq<Window>)
    ensures Planned(windows, dates, Hours(maxHours))
    ensures Covers(windows, dates)
  {
    var days := Sorted(dates);
    if days == [] {
      return [];
    }
    var hours := Hours(maxHours);
    windows := [];
    var index := 0;
    var cursor := 24 * days[0];
    NothingBefore(days, dates);
    while index < |days|
      invariant Progress(windows, days, dates, hours, index, cursor)
      decreases |days| - index, (if index < |days| then DayEnd(days[index]) - cursor else 0)
    {
      var lastIncluded, requestEnd := LastReached(days, hours, index, cursor);
      if DayEnd(days[lastIncluded]) > cursor + hours - 1 {
        RanOut(windows, days, dates, hours, index, cursor, lastIncluded);
        windows := windows + [Window(cursor, requestEnd)];
        index := lastIncluded;
        cursor := cursor + hours;
        continue;
      }
      Finished(windows, days, dates, hours, index, cursor, lastIncluded);
      windows := windows + [Window(cursor, requestEnd)];
      index := lastIncluded + 1;
      if index < |days| {
        cursor := 24 * days[index];
      }
    }
  }

  /** Every required hour is asked for exactly once. */
  lemma CoveredOnce(windows: seq<Window>, days: set<int>, hours: int, h: int)
    requires Planned(windows, days, hours) && Covers(windows, days) && Required(days, h)
    ensures Asked(windows, h)
    ensures forall i, j ::
              0 <= i < |windows| && 0 <= j < |windows| && InWindow(windows[i], h) && InWindow(windows[j], h) ==> i == j
  {
    forall i, j | 0 <= i < j < |windows|
      ensures !(InWindow(windows[i], h) && InWindow(windows[j], h))
    {
      assert windows[i].last < windows[j].first;
    }
  }

  lemma {:induction false} NoMorePigeonsThanHoles(holes: seq<nat>, count: nat)
    requires forall i :: 0 <= i < |holes| ==> holes[i] < count
    requires forall i, j :: 0 <= i < j < |holes| ==> holes[i] != holes[j]
    ensures |holes| <= count
    decreases |holes|
  {
    if holes != [] {
      var n := |holes| - 1;
      // Renumber so that the last pigeon's hole is the last hole.
      var moved := seq(n, i requires 0 <= i < n => if holes[i] == count - 1 then holes[n] else holes[i]);
      NoMorePigeonsThanHoles(moved, count - 1);
    }
  }

  /** No cover by requests of the same size is shorter than the plan. */
  lemma PlanIsShortest(windows: seq<Window>, other: seq<Window>, days: set<int>, hours: int)
    requires Planned(windows, days, hours)
    requires Covers(other, days) && Fits(other, hours)
    ensures |windows| <= |other|
  {
    var holes: seq<nat> := [];
    while |holes| < |windows|
      invariant |holes| <= |windows|
      invariant forall i :: 0 <= i < |holes| ==> holes[i] < |other| && InWindow(other[holes[i]], windows[i].first)
    {
      assert Asked(other, windows[|holes|].first);
      var k :| 0 <= k < |other| && InWindow(other[k], windows[|holes|].first);
      holes := holes + [k];
    }
    forall i, j | 0 <= i < j < |holes|
      ensures holes[i] != holes[j]
    {
      assert windows[i].first + hours <= windows[j].first;
    }
    NoMorePigeonsThanHoles(holes, |other|);
  }
}
