/** Fetching the rows of a half-open time range from a venue that answers in pages
    (liquidity_migration/marketdata/bybit_market_data.py and binance.py). The venue is its ascending
    list of timestamps, one row each; `end` is exclusive for the caller and inclusive at the venue. */
module Paging {
  import opened Ordered

  predicate InTurn(v: seq<int>, i: int, j: int)
    requires 0 <= i < j < |v|
  {
    v[i] < v[j]
  }

  /** Ascending; named, so that a proof says which pairs it uses. */
  ghost predicate Rising(v: seq<int>) {
    forall i, j :: 0 <= i < j < |v| ==> InTurn(v, i, j)
  }

  lemma RisingAscends(v: seq<int>)
    requires Rising(v)
    ensures Ascending(v)
  {
    forall i, j | 0 <= i < j < |v| ensures v[i] < v[j] { assert InTurn(v, i, j); }
  }

  lemma RisingPart(v: seq<int>, a: int, b: int)
    requires Rising(v) && 0 <= a <= b <= |v|
    ensures Rising(v[a..b])
  {
    forall i, j | 0 <= i < j < b - a ensures InTurn(v[a..b], i, j) { assert InTurn(v, a + i, a + j); }
  }

  /** How many rows are older than `t`. */
  function Before(v: seq<int>, t: int): nat {
    if v == [] then 0 else Before(v[..|v| - 1], t) + (if v[|v| - 1] < t then 1 else 0)
  }

  lemma {:induction false} BeforeSplits(v: seq<int>, t: int)
    requires Rising(v)
    ensures Before(v, t) <= |v|
    ensures forall i :: 0 <= i < |v| ==> (i < Before(v, t) <==> v[i] < t)
  {
    if v != [] {
      var n := |v| - 1;
      RisingPart(v, 0, n);
      assert v[0..n] == v[..n];
      BeforeSplits(v[..n], t);
      forall i | 0 <= i < n ensures v[i] < v[n] { assert InTurn(v, i, n); }
    }
  }

  lemma BeforeIs(v: seq<int>, t: int, k: nat)
    requires Rising(v) && k <= |v| && (k > 0 ==> v[k - 1] < t) && (k < |v| ==> t <= v[k])
    ensures Before(v, t) == k
  {
    BeforeSplits(v, t);
  }

  lemma BeforeRow(v: seq<int>, k: nat)
    requires Rising(v) && k < |v|
    ensures Before(v, v[k]) == k
  {
    assert k > 0 ==> InTurn(v, k - 1, k);
    BeforeIs(v, v[k], k);
  }

  lemma BeforeGrows(v: seq<int>, t: int, u: int)
    requires Rising(v) && t <= u
    ensures Before(v, t) <= Before(v, u) <= |v|
  {
    BeforeSplits(v, t);
    BeforeSplits(v, u);
    if Before(v, t) > 0 { assert v[Before(v, t) - 1] < t; }
  }

  /** The rows a fetch of `[start, end)` promises. */
  function Range(v: seq<int>, start: int, end: int): seq<int>
    requires Rising(v)
  {
    BeforeGrows(v, end, end);
    if start >= end then [] else BeforeGrows(v, start, end); v[Before(v, start)..Before(v, end)]
  }

  function Elements(s: seq<int>): set<int> { set x | x in s }

  lemma SortedAgain(v: seq<int>, i: nat, j: nat)
    requires Rising(v) && i <= j <= |v|
    ensures Sorted(Elements(v[i..j])) == v[i..j]
  {
    RisingPart(v, i, j);
    RisingAscends(v[i..j]);
    AscendingUnique(Sorted(Elements(v[i..j])), v[i..j]);
  }

  lemma Joined(v: seq<int>, i: nat, j: nat, k: nat)
    requires i <= j <= k <= |v|
    ensures Elements(v[i..j]) + Elements(v[j..k]) == Elements(v[i..k])
  {
    assert v[i..j] + v[j..k] == v[i..k];
    assert forall x :: x in v[i..j] + v[j..k] <==> x in v[i..j] || x in v[j..k];
  }

  predicate Apart(v: seq<int>, step: int, i: int)
    requires 0 < i < |v|
  {
    v[i - 1] + step <= v[i]
  }

  /** Rows at least `step` apart, as aligned bars are. */
  ghost predicate Spaced(v: seq<int>, step: int) {
    forall i :: 0 < i < |v| ==> Apart(v, step, i)
  }

  /** One attempt at one request. */
  datatype Attempt = Attempt(request: nat, attempt: nat)

  datatype Fetch = Rows(list: seq<int>) | Refused

  // ---------------------------------------------------------------- forward cursor

  /** The venue's oldest `limit` rows from `cursor` up to `end - 1`. */
  function OldestPage(v: seq<int>, cursor: int, end: int, limit: nat): seq<int>
    requires Rising(v)
  {
    BeforeGrows(v, end, end);
    var p, hi := Before(v, cursor), Before(v, end);
    if p >= hi then [] else v[p..if p + limit < hi then p + limit else hi]
  }

  /** So many rows fill whole pages. */
  predicate FillsPages(n: int, limit: nat)
    requires limit > 0
  {
    n == 0 || (n >= limit && FillsPages(n - limit, limit))
  }

  lemma {:induction false} PartPage(n: nat, m: nat, limit: nat)
    requires limit > 0 && FillsPages(n, limit) && 0 < m < limit
    ensures !FillsPages(n + m, limit)
  {
    if n > 0 { PartPage(n - limit, m, limit); }
  }

  /** Where a forward fetch stands after collecting rows `lo..p` in whole pages. */
  ghost predicate Walked(v: seq<int>, start: int, end: int, step: int, limit: nat, cursor: int, p: int, prevFull: bool)
    requires limit > 0
  {
    var lo, hi := Before(v, start), Before(v, end);
    && lo <= p <= hi <= |v| && start <= cursor
    && Before(v, cursor) == p
    && (if p == lo then cursor == start && !prevFull
        else cursor == v[p - 1] + step && (prevFull <==> FillsPages(p - lo, limit)))
    && (p < hi ==> FillsPages(p - lo, limit))
  }

  function PageEnd(v: seq<int>, end: int, limit: nat, p: int): int {
    if p + limit < Before(v, end) then p + limit else Before(v, end)
  }

  lemma NextPage(v: seq<int>, cursor: int, end: int, limit: nat)
    requires Rising(v) && cursor < end
    ensures var p := Before(v, cursor); var q := PageEnd(v, end, limit, p);
            p <= q <= Before(v, end) <= |v| && OldestPage(v, cursor, end, limit) == v[p..q]
  {
    BeforeGrows(v, cursor, end);
  }

  lemma StepPast(v: seq<int>, step: int, q: int)
    requires Rising(v) && Spaced(v, step) && step > 0 && 0 < q <= |v|
    ensures Before(v, v[q - 1] + step) == q
  {
    assert q < |v| ==> Apart(v, step, q);
    BeforeIs(v, v[q - 1] + step, q);
  }

  /** The rows of a page lie between the cursor and the end; a row after it is before the end. */
  lemma PageBounds(v: seq<int>, cursor: int, end: int, p: int, q: int)
    requires Rising(v) && Before(v, cursor) == p && 0 <= p < q <= Before(v, end)
    ensures q <= |v| && cursor <= v[p] <= v[q - 1] < end
    ensures q < Before(v, end) ==> q < |v| && v[q] < end
  {
    BeforeSplits(v, cursor);
    BeforeSplits(v, end);
    assert p < q - 1 ==> InTurn(v, p, q - 1);
  }

  /** The cursor after a page that was not empty. */
  lemma WalkOn(v: seq<int>, start: int, end: int, step: int, limit: nat, cursor: int, p: int, prevFull: bool, q: int)
    requires limit > 0 && step > 0 && Walked(v, start, end, step, limit, cursor, p, prevFull) && p < Before(v, end)
    requires q == PageEnd(v, end, limit, p) && q <= |v| && cursor <= v[q - 1] && Before(v, v[q - 1] + step) == q
    ensures Walked(v, start, end, step, limit, v[q - 1] + step, q, q - p >= limit)
  {
    var lo := Before(v, start);
    if q - p < limit { PartPage(p - lo, q - p, limit); }
  }

  /** The rows collected so far, and one page more. */
  lemma Collect(v: seq<int>, start: int, end: int, p: int, q: int)
    requires Rising(v) && start <= end && Before(v, start) <= p <= q <= Before(v, end)
    ensures q <= |v|
    ensures forall x :: x in v[p..q] ==> start <= x < end
    ensures Elements(v[Before(v, start)..p]) + Elements(v[p..q]) == Elements(v[Before(v, start)..q])
  {
    BeforeSplits(v, start);
    BeforeSplits(v, end);
    Joined(v, Before(v, start), p, q);
  }

  function InRange(batch: seq<int>, start: int, end: int): set<int> { set x | x in batch && start <= x < end }

  /** When a forward fetch of an honest venue refuses: the rows fill whole pages exactly, so a page after
      the last is asked for, and it is far enough from the end to look like a truncated reply. */
  ghost predicate EndsOnFullPage(v: seq<int>, start: int, end: int, limit: nat, margin: int)
    requires Rising(v) && limit > 0
  {
    var all := Range(v, start, end);
    all != [] && FillsPages(|all|, limit) && all[|all| - 1] + margin <= end
  }

  /** A page joins the rows collected, and the fetch stands one page further. */
  lemma TakePage(v: seq<int>, start: int, end: int, step: int, limit: nat, cursor: int, p: int, prevFull: bool,
                 rows: set<int>, batch: seq<int>)
    returns (q: int)
    requires Rising(v) && Spaced(v, step) && step > 0 && limit > 0 && start < end && cursor < end
    requires Walked(v, start, end, step, limit, cursor, p, prevFull) && rows == Elements(v[Before(v, start)..p])
    requires batch == OldestPage(v, cursor, end, limit)
    ensures batch == [] ==> q == p == Before(v, end)
    ensures batch != [] ==>
              && p < q <= Before(v, end) <= |v| && |batch| == q - p && batch[|batch| - 1] == v[q - 1]
              && Walked(v, start, end, step, limit, v[q - 1] + step, q, q - p >= limit)
              && rows + InRange(batch, start, end) == Elements(v[Before(v, start)..q])
              && v[q - 1] + step > cursor
              && (v[q - 1] + step >= end || q - p < limit ==> q == Before(v, end))
  {
    q := PageEnd(v, end, limit, p);
    NextPage(v, cursor, end, limit);
    if p < q {
      PageBounds(v, cursor, end, p, q);
      StepPast(v, step, q);
      WalkOn(v, start, end, step, limit, cursor, p, prevFull, q);
      Collect(v, start, end, p, q);
      assert InRange(batch, start, end) == Elements(v[p..q]);
      if q < Before(v, end) { assert Apart(v, step, q); }
    }
  }

  /** Klines: pages until an empty one, or until the cursor passes the end. */
  method PagedKline(v: seq<int>, start: int, end: int, step: int, limit: nat) returns (r: Fetch)
    requires Rising(v) && Spaced(v, step) && step > 0 && limit > 0
    ensures r.Refused? <==> EndsOnFullPage(v, start, end, limit, 2 * step)
    ensures r.Rows? ==> r.list == Range(v, start, end)
  {
    if start >= end { return Rows([]); }
    var rows: set<int> := {};
    var cursor, prevFull := start, false;
    ghost var p: int := Before(v, start);
    BeforeGrows(v, start, end);
    while cursor < end
      invariant Walked(v, start, end, step, limit, cursor, p, prevFull)
      invariant rows == Elements(v[Before(v, start)..p])
      invariant cursor >= end ==> p == Before(v, end)
      decreases end - cursor
    {
      var batch := OldestPage(v, cursor, end, limit);
      ghost var q := TakePage(v, start, end, step, limit, cursor, p, prevFull, rows, batch);
      if batch == [] {
        if prevFull && cursor <= end - step {
          Verdict(v, start, end, step, limit, cursor, p, prevFull);
          return Refused;
        }
        break;
      }
      rows := rows + InRange(batch, start, end);
      prevFull := |batch| >= limit;
      cursor := batch[|batch| - 1] + step;
      p := q;
    }
    Verdict(v, start, end, step, limit, cursor, p, prevFull);
    SortedAgain(v, Before(v, start), p);
    r := Rows(Sorted(rows));
  }

  /** At an empty page everything has been collected, and the guard reads off the verdict. */
  lemma Verdict(v: seq<int>, start: int, end: int, step: int, limit: nat, cursor: int, p: int, prevFull: bool)
    requires Rising(v) && step > 0 && limit > 0 && start < end && p == Before(v, end)
    requires Walked(v, start, end, step, limit, cursor, p, prevFull)
    ensures prevFull && cursor <= end - step <==> EndsOnFullPage(v, start, end, limit, 2 * step)
  {
    BeforeGrows(v, start, end);
  }

  /** An honest venue that is refused: its one row fills a page of one, two steps before the end. */
  lemma FullPageIsRefused(step: int)
    requires step > 0
    ensures Rising([0]) && Spaced([0], step) && EndsOnFullPage([0], 0, 2 * step, 1, 2 * step)
  {
    BeforeIs([0], 0, 0);
    BeforeIs([0], 2 * step, 1);
    assert FillsPages(1, 1);
  }

  datatype Cadence = Irregular | Every(ms: int)

  function Step(cadence: Cadence): int { if cadence.Every? then cadence.ms else 1 }

  /** Other series: a short page ends the fetch too. With no known cadence the cursor moves by one
      millisecond, and any empty page after a full one is refused. */
  method PagedForward(v: seq<int>, start: int, end: int, cadence: Cadence, limit: nat) returns (r: Fetch)
    requires Rising(v) && Step(cadence) > 0 && Spaced(v, Step(cadence)) && limit > 0
    ensures r.Refused? <==> EndsOnFullPage(v, start, end, limit, 2 * Step(cadence))
    ensures r.Rows? ==> r.list == Range(v, start, end)
  {
    if start >= end { return Rows([]); }
    var step := Step(cadence);
    var rows: set<int> := {};
    var cursor, prevFull := start, false;
    ghost var p: int := Before(v, start);
    BeforeGrows(v, start, end);
    while cursor < end
      invariant Walked(v, start, end, step, limit, cursor, p, prevFull)
      invariant rows == Elements(v[Before(v, start)..p])
      invariant cursor >= end ==> p == Before(v, end)
      decreases end - cursor
    {
      var batch := OldestPage(v, cursor, end, limit);
      ghost var q := TakePage(v, start, end, step, limit, cursor, p, prevFull, rows, batch);
      if batch == [] {
        if prevFull && (cadence.Irregular? || cursor <= end - step) {
          Verdict(v, start, end, step, limit, cursor, p, prevFull);
          return Refused;
        }
        break;
      }
      rows := rows + InRange(batch, start, end);
      prevFull := |batch| >= limit;
      cursor := batch[|batch| - 1] + step;
      p := q;
      if |batch| < limit { break; }
    }
    Verdict(v, start, end, step, limit, cursor, p, prevFull);
    SortedAgain(v, Before(v, start), p);
    r := Rows(Sorted(rows));
  }

  // ---------------------------------------------------------------- backward cursor

  /** The venue's newest `limit` rows from `start` up to and including `cursorEnd`. */
  function NewestPage(v: seq<int>, start: int, cursorEnd: int, limit: nat): seq<int>
    requires Rising(v)
  {
    BeforeGrows(v, cursorEnd + 1, cursorEnd + 1);
    var lo, p := Before(v, start), Before(v, cursorEnd + 1);
    if lo >= p then [] else v[if p - limit > lo then p - limit else lo..p]
  }

  /** A request that came back empty on every attempt it was given: one for the first page, three for
      a page after a full one. `lost` lists the attempts the venue blanks. */
  predicate GivenUp(lost: set<Attempt>, k: nat) {
    Attempt(k, 0) in lost && (k > 0 ==> Attempt(k, 1) in lost && Attempt(k, 2) in lost)
  }

  /** Some request still owed rows was given up. */
  ghost predicate Truncated(lost: set<Attempt>, rows: nat, limit: nat) {
    exists k: nat :: k * limit < rows && GivenUp(lost, k)
  }

  /** After `k` full pages a backward fetch holds the newest `k * limit` rows. */
  ghost predicate Backed(v: seq<int>, start: int, end: int, limit: nat, cursorEnd: int, p: int, k: nat, rows: set<int>)
  {
    var lo, hi := Before(v, start), Before(v, end);
    && lo <= p <= hi <= |v|
    && p == hi - k * limit && Before(v, cursorEnd + 1) == p && cursorEnd < end
    && rows == Elements(v[p..hi])
  }

  lemma BackPage(v: seq<int>, start: int, cursorEnd: int, limit: nat, p: int) returns (q: int)
    requires Rising(v) && limit > 0 && start <= cursorEnd && Before(v, cursorEnd + 1) == p
    ensures Before(v, start) <= q <= p <= |v| && NewestPage(v, start, cursorEnd, limit) == v[q..p]
    ensures q == if p - limit > Before(v, start) then p - limit else Before(v, start)
    ensures q < p ==> start <= v[q] <= cursorEnd && Before(v, v[q]) == q
    ensures q < p && v[q] <= start ==> q == Before(v, start)
  {
    var lo := Before(v, start);
    BeforeGrows(v, start, cursorEnd + 1);
    q := if p - limit > lo then p - limit else lo;
    assert Range(v, start, cursorEnd + 1) == v[lo..p];
    if q < p {
      PageBounds(v, start, cursorEnd + 1, lo, p);
      BeforeSplits(v, start);
      BeforeSplits(v, cursorEnd + 1);
      BeforeRow(v, q);
    }
  }

  /** A page joins the rows; unless it is short or reaches the start, the fetch stands a page further back. */
  lemma BackOn(v: seq<int>, start: int, end: int, limit: nat, cursorEnd: int, p: int, k: nat, rows: set<int>,
               batch: seq<int>) returns (q: int)
    requires Rising(v) && limit > 0 && start <= cursorEnd && Backed(v, start, end, limit, cursorEnd, p, k, rows)
    requires batch == NewestPage(v, start, cursorEnd, limit)
    ensures Before(v, start) <= q <= p && |batch| == p - q
    ensures batch == [] <==> p == Before(v, start)
    ensures rows + InRange(batch, start, end) == Elements(v[q..Before(v, end)])
    ensures batch != [] && (|batch| < limit || batch[0] <= start) ==>
              q == Before(v, start) && Before(v, end) - q <= (k + 1) * limit
    ensures batch != [] && |batch| >= limit ==>
              && Backed(v, start, end, limit, batch[0] - 1, q, k + 1, rows + InRange(batch, start, end))
              && batch[0] - 1 < cursorEnd && start <= batch[0]
  {
    q := BackPage(v, start, cursorEnd, limit, p);
    Joined(v, q, p, Before(v, end));
    BackInRange(v, start, end, q, p);
    assert (k + 1) * limit == k * limit + limit;
    if batch != [] { assert batch[0] == v[q]; }
  }

  lemma BackInRange(v: seq<int>, start: int, end: int, q: int, p: int)
    requires Rising(v) && Before(v, start) <= q <= p <= Before(v, end) <= |v|
    ensures InRange(v[q..p], start, end) == Elements(v[q..p])
  {
    BeforeSplits(v, start);
    BeforeSplits(v, end);
  }

  /** Ask for a page: once, and after a full page twice more while the answer is empty. */
  method Ask(reply: seq<int>, lost: set<Attempt>, k: nat, priorFull: bool) returns (batch: seq<int>)
    requires priorFull <==> k > 0
    ensures batch == if GivenUp(lost, k) then [] else reply
  {
    batch := if Attempt(k, 0) in lost then [] else reply;
    if batch == [] && priorFull {
      var attempt := 1;
      while attempt <= 2 && batch == []
        invariant 1 <= attempt <= 3
        invariant batch == if forall a :: 0 <= a < attempt ==> Attempt(k, a) in lost then [] else reply
        decreases 3 - attempt
      {
        batch := if Attempt(k, attempt) in lost then [] else reply;
        attempt := attempt + 1;
      }
    }
  }

  lemma PagesGrow(j: nat, k: nat, limit: nat)
    ensures k <= j ==> k * limit <= j * limit
  {
    if k <= j { assert (j - k) * limit >= 0; }
  }

  ghost predicate Answered(lost: set<Attempt>, k: nat) { forall j: nat :: j < k ==> !GivenUp(lost, j) }

  /** Request `k` is the first that is given up. */
  ghost predicate FirstGivenUp(lost: set<Attempt>, k: nat) { GivenUp(lost, k) && Answered(lost, k) }

  /** The newest `n` of a list of rows. */
  predicate Newest(list: seq<int>, whole: seq<int>, n: nat) { n <= |whole| && list == whole[|whole| - n..] }

  /** The fetch holds the rows from index `f` on, after `k` requests were answered. */
  ghost predicate Ended(v: seq<int>, start: int, end: int, limit: nat, lost: set<Attempt>, k: nat, f: int) {
    && Answered(lost, k)
    && (if f == Before(v, start) then Before(v, end) - f <= k * limit
        else Before(v, end) - f == k * limit && GivenUp(lost, k))
  }

  /** The rows from index `f` on are the rows from some time on. */
  lemma CutRange(v: seq<int>, start: int, end: int, f: int) returns (cut: int)
    requires Rising(v) && start < end && Before(v, start) <= f <= Before(v, end) <= |v|
    ensures start <= cut && Range(v, cut, end) == v[f..Before(v, end)]
  {
    if f == Before(v, end) {
      cut := end;
    } else {
      cut := v[f];
      BeforeRow(v, f);
      BeforeSplits(v, start);
      BeforeSplits(v, end);
    }
  }

  /** A backward fetch that ended holds everything exactly when it was not given up on a page it was owed. */
  lemma EndedExact(v: seq<int>, start: int, end: int, limit: nat, lost: set<Attempt>, k: nat, f: int)
    requires limit > 0 && Before(v, start) <= f <= Before(v, end)
    requires Ended(v, start, end, limit, lost, k, f)
    ensures f == Before(v, start) <==> !Truncated(lost, Before(v, end) - Before(v, start), limit)
  {
    var lo, hi := Before(v, start), Before(v, end);
    if f == lo {
      forall j: nat | j * limit < hi - lo ensures !GivenUp(lost, j) {
        PagesGrow(j, k, limit);
      }
    } else {
      assert k * limit < hi - lo;
    }
  }

  lemma BackEnds(v: seq<int>, start: int, end: int, limit: nat, lost: set<Attempt>, k: nat, f: int)
    requires Rising(v) && limit > 0 && start < end && Before(v, start) <= f <= Before(v, end) <= |v|
    requires Ended(v, start, end, limit, lost, k, f)
    ensures exists cut :: v[f..Before(v, end)] == Range(v, cut, end) && start <= cut
    ensures Truncated(lost, |Range(v, start, end)|, limit) ==>
              FirstGivenUp(lost, k) && Newest(v[f..Before(v, end)], Range(v, start, end), k * limit)
    ensures v[f..Before(v, end)] == Range(v, start, end) <==> !Truncated(lost, |Range(v, start, end)|, limit)
  {
    var cut := CutRange(v, start, end, f);
    EndedExact(v, start, end, limit, lost, k, f);
    var whole := Range(v, start, end);
    assert |whole| == Before(v, end) - Before(v, start);
    assert v[f..Before(v, end)] == whole[f - Before(v, start)..];
  }

  method CollectBack(v: seq<int>, start: int, end: int, limit: nat, lost: set<Attempt>)
    returns (rows: set<int>, ghost k: nat, ghost f: int)
    requires Rising(v) && limit > 0 && start < end
    ensures Before(v, start) <= f <= Before(v, end) <= |v| && rows == Elements(v[f..Before(v, end)])
    ensures Ended(v, start, end, limit, lost, k, f)
  {
    var cursorEnd, priorFull, request := end - 1, false, 0;
    rows, k, f := {}, 0, Before(v, end);
    BeforeGrows(v, start, end);
    while cursorEnd >= start
      invariant Backed(v, start, end, limit, cursorEnd, f, request, rows)
      invariant (priorFull <==> request > 0) && k == request && Answered(lost, k)
      invariant cursorEnd < start ==> f == Before(v, start)
      decreases cursorEnd - start
    {
      var reply := NewestPage(v, start, cursorEnd, limit);
      var batch := Ask(reply, lost, request, priorFull);
      ghost var q := BackOn(v, start, end, limit, cursorEnd, f, request, rows, reply);
      if batch == [] { return; }
      rows := rows + InRange(batch, start, end);
      f, k := q, k + 1;
      if |batch| < limit || batch[0] <= start { return; }
      cursorEnd := batch[0] - 1;
      priorFull, request := true, request + 1;
    }
  }

  /** Newest page first, moving the inclusive end back. Blanked replies can only cut off an older part, the rows
      are exact exactly when no request still owed rows was given up, and otherwise they are the full pages
      answered before the first that was. */
  method PagedTimeRange(v: seq<int>, start: int, end: int, limit: nat, lost: set<Attempt>) returns (list: seq<int>)
    requires Rising(v) && limit > 0
    ensures exists cut :: list == Range(v, cut, end) && start <= cut
    ensures list == Range(v, start, end) <==> !Truncated(lost, |Range(v, start, end)|, limit)
    ensures Truncated(lost, |Range(v, start, end)|, limit) ==>
              exists k: nat :: FirstGivenUp(lost, k) && Newest(list, Range(v, start, end), k * limit)
  {
    if start >= end {
      assert Range(v, start, end) == [];
      return [];
    }
    var rows, k, f := CollectBack(v, start, end, limit, lost);
    BackEnds(v, start, end, limit, lost, k, f);
    SortedAgain(v, f, Before(v, end));
    list := Sorted(rows);
  }

  // ------------------------------------------------------------------- time windows

  datatype Window = Window(first: int, last: int)

  function Span(interval: int, limit: nat): int {
    interval * (if limit > 2 then limit - 1 else 1)
  }

  function WindowEnd(cursor: int, end: int, span: int): int {
    if end - 1 < cursor + span then end - 1 else cursor + span
  }

  /** The windows asked for, each starting where the one before ends. */
  function Windows(cursor: int, end: int, span: int): seq<Window>
    requires span > 0
    decreases end - cursor
  {
    if cursor >= end then []
    else
      var last := WindowEnd(cursor, end, span);
      [Window(cursor, last)] + (if last >= end - 1 then [] else Windows(last, end, span))
  }

  /** What window `w`, the `j`th request, brings: its page, or nothing when both attempts are blanked. */
  function Reply(v: seq<int>, w: Window, limit: nat, lost: set<Attempt>, j: nat): seq<int>
    requires Rising(v)
  {
    if Blanked(lost, j) then [] else NewestPage(v, w.first, w.last, limit)
  }

  function Replies(v: seq<int>, ws: seq<Window>, limit: nat, lost: set<Attempt>): seq<seq<int>>
    requires Rising(v)
  {
    seq(|ws|, j requires 0 <= j < |ws| => Reply(v, ws[j], limit, lost, j))
  }

  function Counts(pages: seq<seq<int>>): seq<nat> {
    seq(|pages|, j requires 0 <= j < |pages| => |pages[j]|)
  }

  function Union(pages: seq<seq<int>>): set<int> {
    if pages == [] then {} else Union(pages[..|pages| - 1]) + Elements(pages[|pages| - 1])
  }

  lemma {:induction false} IntoUnion(pages: seq<seq<int>>, j: nat, x: int)
    requires j < |pages| && x in pages[j]
    ensures x in Union(pages)
  {
    var n := |pages| - 1;
    if j < n { IntoUnion(pages[..n], j, x); }
  }

  lemma {:induction false} FromUnion(pages: seq<seq<int>>, x: int) returns (j: nat)
    requires x in Union(pages)
    ensures j < |pages| && x in pages[j]
  {
    var n := |pages| - 1;
    if x in pages[n] { j := n; } else { j := FromUnion(pages[..n], x); }
  }

  /** An empty window between two that are not. */
  ghost predicate Bracketed(counts: seq<nat>) {
    exists i, j, k :: 0 <= i < j < k < |counts| && counts[i] > 0 && counts[j] == 0 && counts[k] > 0
  }

  method RaiseOnBracketedEmpty(counts: seq<nat>) returns (refuse: bool)
    ensures refuse <==> Bracketed(counts)
  {
    var first := 0;
    while first < |counts| && counts[first] == 0
      invariant first <= |counts| && forall i :: 0 <= i < first ==> counts[i] == 0
    {
      first := first + 1;
    }
    if first == |counts| { return false; }
    var last := |counts| - 1;
    while counts[last] == 0
      invariant first <= last < |counts| && forall i :: last < i < |counts| ==> counts[i] == 0
      decreases last
    {
      last := last - 1;
    }
    refuse := false;
    for j := first to last
      invariant refuse <==> exists k :: first <= k < j && counts[k] == 0
    {
      if counts[j] == 0 { refuse := true; }
    }
    if refuse {
      var k :| first <= k < last && counts[k] == 0;
      assert counts[first] > 0 && counts[k] == 0 && counts[last] > 0;
    }
  }

  /** The outcome of a windowed fetch. */
  ghost function Windowed(v: seq<int>, start: int, end: int, interval: int, limit: nat, lost: set<Attempt>): Fetch
    requires Rising(v) && interval > 0
  {
    var pages := Replies(v, Windows(start, end, Span(interval, limit)), limit, lost);
    if Bracketed(Counts(pages)) then Refused else Rows(Sorted(Union(pages)))
  }

  /** A reply to a window inside the range passes the row filter whole. */
  lemma ReplyInRange(v: seq<int>, start: int, end: int, w: Window, limit: nat, lost: set<Attempt>, j: nat)
    requires Rising(v) && start <= w.first && w.last < end
    ensures InRange(Reply(v, w, limit, lost, j), start, end) == Elements(Reply(v, w, limit, lost, j))
  {
    var page := Reply(v, w, limit, lost, j);
    forall x | x in page ensures start <= x < end {
      var i :| 0 <= i < |page| && page[i] == x;
      InNewest(v, w, limit, i);
    }
  }

  lemma InNewest(v: seq<int>, w: Window, limit: nat, i: nat)
    requires Rising(v) && i < |NewestPage(v, w.first, w.last, limit)|
    ensures w.first <= NewestPage(v, w.first, w.last, limit)[i] <= w.last
  {
    BeforeSplits(v, w.first);
    BeforeSplits(v, w.last + 1);
  }

  lemma InPage(v: seq<int>, a: int, b: int, x: int)
    requires Rising(v)
    ensures x in Range(v, a, b) <==> x in v && a <= x < b
  {
    BeforeSplits(v, a);
    BeforeSplits(v, b);
    if x in v && a <= x < b {
      var i :| 0 <= i < |v| && v[i] == x;
      assert Before(v, a) <= i < Before(v, b);
      assert Range(v, a, b)[i - Before(v, a)] == x;
    }
    if x in Range(v, a, b) {
      var i :| 0 <= i < |Range(v, a, b)| && Range(v, a, b)[i] == x;
      assert v[Before(v, a) + i] == x;
    }
  }

  lemma OneMorePage(pages: seq<seq<int>>, n: nat)
    requires n < |pages|
    ensures Counts(pages[..n + 1]) == Counts(pages[..n]) + [|pages[n]|]
    ensures Union(pages[..n + 1]) == Union(pages[..n]) + Elements(pages[n])
  {
    assert pages[..n + 1][..n] == pages[..n];
  }

  /** Asked once, and once more when the answer is empty. */
  method AskTwice(reply: seq<int>, lost: set<Attempt>, j: nat) returns (batch: seq<int>)
    ensures batch == if Blanked(lost, j) then [] else reply
  {
    batch := [];
    var attempt := 0;
    while attempt < 2 && batch == []
      invariant 0 <= attempt <= 2
      invariant batch == if forall a :: 0 <= a < attempt ==> Attempt(j, a) in lost then [] else reply
      decreases 2 - attempt
    {
      batch := if Attempt(j, attempt) in lost then [] else reply;
      attempt := attempt + 1;
    }
  }

  /** Where a windowed fetch stands before window `n`. */
  ghost predicate Windowing(ws: seq<Window>, pages: seq<seq<int>>, start: int, end: int, span: int, n: nat,
                            cursor: int, counts: seq<nat>, rows: set<int>)
    requires span > 0
  {
    && n <= |ws| == |pages| && start <= cursor
    && ws[n..] == Windows(cursor, end, span)
    && counts == Counts(pages[..n]) && rows == Union(pages[..n])
  }

  lemma WindowOn(ws: seq<Window>, end: int, span: int, n: nat, cursor: int)
    requires span > 0 && cursor < end && n <= |ws| && ws[n..] == Windows(cursor, end, span)
    ensures n < |ws| && ws[n] == Window(cursor, WindowEnd(cursor, end, span))
    ensures ws[n + 1..] == if ws[n].last >= end - 1 then [] else Windows(ws[n].last, end, span)
  {
    assert ws[n] == ws[n..][0];
    assert ws[n + 1..] == ws[n..][1..];
  }

  /** One window's reply joins the counts and the rows. */
  lemma WindowStep(v: seq<int>, ws: seq<Window>, pages: seq<seq<int>>, start: int, end: int, span: int, limit: nat,
                   lost: set<Attempt>, n: nat, cursor: int, counts: seq<nat>, rows: set<int>, batch: seq<int>)
    requires Rising(v) && span > 0 && cursor < end && pages == Replies(v, ws, limit, lost)
    requires Windowing(ws, pages, start, end, span, n, cursor, counts, rows)
    requires batch == Reply(v, Window(cursor, WindowEnd(cursor, end, span)), limit, lost, n)
    ensures n < |ws| && counts + [|batch|] == Counts(pages[..n + 1])
            && rows + InRange(batch, start, end) == Union(pages[..n + 1])
    ensures var last := WindowEnd(cursor, end, span);
            ws[n + 1..] == if last >= end - 1 then [] else Windows(last, end, span)
  {
    WindowOn(ws, end, span, n, cursor);
    assert pages[n] == Reply(v, ws[n], limit, lost, n);
    ReplyInRange(v, start, end, ws[n], limit, lost, n);
    OneMorePage(pages, n);
  }

  /** The windows one after the other, each asked for twice at most. */
  method CollectWindows(v: seq<int>, start: int, end: int, interval: int, limit: nat, lost: set<Attempt>,
                        ghost ws: seq<Window>)
    returns (counts: seq<nat>, rows: set<int>)
    requires Rising(v) && interval > 0 && ws == Windows(start, end, Span(interval, limit))
    ensures counts == Counts(Replies(v, ws, limit, lost)) && rows == Union(Replies(v, ws, limit, lost))
  {
    var span := Span(interval, limit);
    var cursor, n := start, 0;
    ghost var pages := Replies(v, ws, limit, lost);
    counts, rows := [], {};
    WindowsBegin(ws, pages, start, end, span);
    while cursor < end
      invariant Windowing(ws, pages, start, end, span, n, cursor, counts, rows)
      decreases end - cursor
    {
      var last := WindowEnd(cursor, end, span);
      var batch := AskTwice(NewestPage(v, cursor, last, limit), lost, n);
      WindowStep(v, ws, pages, start, end, span, limit, lost, n, cursor, counts, rows, batch);
      counts := counts + [|batch|];
      rows := rows + InRange(batch, start, end);
      n := n + 1;
      if last >= end - 1 { break; }
      cursor := if last > cursor then last else cursor + interval;
    }
    WindowsEnd(ws, pages, n);
  }

  lemma WindowsBegin(ws: seq<Window>, pages: seq<seq<int>>, start: int, end: int, span: int)
    requires span > 0 && ws == Windows(start, end, span) && |pages| == |ws|
    ensures Windowing(ws, pages, start, end, span, 0, start, [], {})
  {
    assert ws[0..] == ws && pages[..0] == [];
  }

  lemma WindowsEnd(ws: seq<Window>, pages: seq<seq<int>>, n: nat)
    requires n <= |ws| == |pages| && ws[n..] == []
    ensures pages[..n] == pages
  {
  }

  method PagedWindowKlines(v: seq<int>, start: int, end: int, interval: int, limit: nat, lost: set<Attempt>)
    returns (r: Fetch)
    requires Rising(v) && interval > 0
    ensures r == Windowed(v, start, end, interval, limit, lost)
  {
    var counts, rows := CollectWindows(v, start, end, interval, limit, lost,
                                       Windows(start, end, Span(interval, limit)));
    var refuse := RaiseOnBracketedEmpty(counts);
    r := if refuse then Refused else Rows(Sorted(rows));
  }

  // What a windowed fetch returns.

  lemma {:induction false} FarApart(v: seq<int>, step: int, i: int, j: int)
    requires Spaced(v, step) && 0 <= i <= j < |v|
    ensures v[i] + (j - i) * step <= v[j]
    decreases j
  {
    if i < j {
      FarApart(v, step, i, j - 1);
      assert Apart(v, step, j);
      assert (j - i) * step == (j - 1 - i) * step + step;
    }
  }

  lemma FewSteps(m: nat, limit: nat, interval: int)
    requires interval > 0 && m * interval <= interval * (limit - 1)
    ensures m < limit
  {
    PagesGrow(m, limit, interval);
    assert limit * interval == interval * (limit - 1) + interval;
  }

  /** With a limit of two or more a window cannot hold more rows than a page does. */
  lemma PageIsWhole(v: seq<int>, interval: int, limit: nat, w: Window)
    requires Rising(v) && Spaced(v, interval) && interval > 0 && limit >= 2 && w.last <= w.first + Span(interval, limit)
    ensures NewestPage(v, w.first, w.last, limit) == Range(v, w.first, w.last + 1)
  {
    var a, b := Before(v, w.first), Before(v, w.last + 1);
    if w.first <= w.last {
      BeforeGrows(v, w.first, w.last + 1);
      FitsPage(v, interval, limit, w, a, b);
    } else {
      BeforeGrows(v, w.last + 1, w.first);
    }
  }

  lemma FitsPage(v: seq<int>, interval: int, limit: nat, w: Window, a: int, b: int)
    requires Rising(v) && Spaced(v, interval) && interval > 0 && limit >= 2
             && w.last <= w.first + interval * (limit - 1)
    requires a == Before(v, w.first) <= b == Before(v, w.last + 1)
    ensures b - a <= limit
  {
    if a < b {
      PageBounds(v, w.first, w.last + 1, a, b);
      FarApart(v, interval, a, b - 1);
      FewSteps(b - 1 - a, limit, interval);
    }
  }

  /** Every window's page holds all its rows. */
  ghost predicate Whole(v: seq<int>, ws: seq<Window>, limit: nat)
    requires Rising(v)
  {
    forall j :: 0 <= j < |ws| ==> NewestPage(v, ws[j].first, ws[j].last, limit) == Range(v, ws[j].first, ws[j].last + 1)
  }

  lemma PagesAreWhole(v: seq<int>, ws: seq<Window>, interval: int, limit: nat, start: int, end: int)
    requires Rising(v) && Spaced(v, interval) && interval > 0 && limit >= 2
             && Chain(ws, start, end, Span(interval, limit))
    ensures Whole(v, ws, limit)
  {
    forall j | 0 <= j < |ws|
      ensures NewestPage(v, ws[j].first, ws[j].last, limit) == Range(v, ws[j].first, ws[j].last + 1) {
      PageIsWhole(v, interval, limit, ws[j]);
    }
  }

  predicate Follows(ws: seq<Window>, i: int)
    requires 0 < i < |ws|
  {
    ws[i].first == ws[i - 1].last
  }

  ghost predicate Chain(ws: seq<Window>, start: int, end: int, span: int) {
    && (forall i :: 0 <= i < |ws| ==> start <= ws[i].first <= ws[i].last < end && ws[i].last <= ws[i].first + span)
    && (forall i :: 0 < i < |ws| ==> Follows(ws, i))
  }

  lemma {:induction false} WindowsChain(cursor: int, end: int, span: int)
    requires span > 0 && cursor < end
    ensures var ws := Windows(cursor, end, span);
            ws != [] && Chain(ws, cursor, end, span) && ws[0].first == cursor && ws[|ws| - 1].last == end - 1
    decreases end - cursor
  {
    var last := WindowEnd(cursor, end, span);
    if last < end - 1 {
      WindowsChain(last, end, span);
      var rest, ws := Windows(last, end, span), Windows(cursor, end, span);
      assert forall i :: 1 <= i < |ws| ==> ws[i] == rest[i - 1];
      forall i | 0 < i < |ws| ensures Follows(ws, i) {
        assert i > 1 ==> Follows(rest, i - 1);
      }
    }
  }

  lemma {:induction false} ChainRises(ws: seq<Window>, start: int, end: int, span: int, i: int, j: int)
    requires Chain(ws, start, end, span) && 0 <= i <= j < |ws|
    ensures ws[i].first <= ws[j].first && ws[i].last <= ws[j].last
    decreases j
  {
    if i < j {
      ChainRises(ws, start, end, span, i, j - 1);
      assert Follows(ws, j);
    }
  }

  /** A time between the start of one window and the end of a later one is in a window between them. */
  lemma {:induction false} ChainCovers(ws: seq<Window>, start: int, end: int, span: int, i: int, j: int, x: int)
    returns (k: int)
    requires Chain(ws, start, end, span) && 0 <= i <= j < |ws| && ws[i].first <= x <= ws[j].last
    ensures i <= k <= j && ws[k].first <= x <= ws[k].last
    decreases j
  {
    if ws[j].first <= x {
      k := j;
    } else {
      assert Follows(ws, j);
      k := ChainCovers(ws, start, end, span, i, j - 1, x);
    }
  }

  /** Every window from `f` to `l` brought its rows, and no other window brought any. */
  ghost predicate Run(v: seq<int>, ws: seq<Window>, pages: seq<seq<int>>, f: int, l: int)
    requires Rising(v)
  {
    && 0 <= f <= l < |ws| == |pages|
    && (forall j :: f <= j <= l ==> pages[j] == Range(v, ws[j].first, ws[j].last + 1))
    && (forall j :: 0 <= j < f || l < j < |ws| ==> pages[j] == [])
  }

  lemma InRun(v: seq<int>, ws: seq<Window>, pages: seq<seq<int>>, start: int, end: int, span: int, f: int, l: int,
              x: int)
    requires Rising(v) && Chain(ws, start, end, span) && Run(v, ws, pages, f, l)
    ensures x in Union(pages) <==> x in v && ws[f].first <= x <= ws[l].last
  {
    if x in Union(pages) {
      var j := FromUnion(pages, x);
      InPage(v, ws[j].first, ws[j].last + 1, x);
      ChainRises(ws, start, end, span, f, j);
      ChainRises(ws, start, end, span, j, l);
    }
    if x in v && ws[f].first <= x <= ws[l].last {
      var j := ChainCovers(ws, start, end, span, f, l, x);
      InPage(v, ws[j].first, ws[j].last + 1, x);
      IntoUnion(pages, j, x);
    }
  }

  lemma RunIsRange(v: seq<int>, ws: seq<Window>, pages: seq<seq<int>>, start: int, end: int, span: int, f: int, l: int)
    requires Rising(v) && Chain(ws, start, end, span) && Run(v, ws, pages, f, l)
    ensures Sorted(Union(pages)) == Range(v, ws[f].first, ws[l].last + 1)
  {
    forall x ensures x in Union(pages) <==> x in Range(v, ws[f].first, ws[l].last + 1) {
      InRun(v, ws, pages, start, end, span, f, l, x);
      InPage(v, ws[f].first, ws[l].last + 1, x);
    }
    RangeAscends(v, ws[f].first, ws[l].last + 1);
    AscendingUnique(Sorted(Union(pages)), Range(v, ws[f].first, ws[l].last + 1));
  }

  lemma RangeAscends(v: seq<int>, a: int, b: int)
    requires Rising(v)
    ensures Ascending(Range(v, a, b))
  {
    if a < b {
      BeforeGrows(v, a, b);
      RisingPart(v, Before(v, a), Before(v, b));
      RisingAscends(v[Before(v, a)..Before(v, b)]);
    }
  }

  ghost predicate SomeRows(counts: seq<nat>) { exists j :: 0 <= j < |counts| && counts[j] > 0 }

  /** With nothing bracketed, the windows that brought rows are one run. */
  lemma OneRun(counts: seq<nat>) returns (f: int, l: int)
    requires !Bracketed(counts) && SomeRows(counts)
    ensures 0 <= f <= l < |counts|
    ensures forall j :: 0 <= j < |counts| ==> (counts[j] > 0 <==> f <= j <= l)
  {
    f := First(counts, 0);
    l := Last(counts, |counts|);
    forall j | f <= j <= l ensures counts[j] > 0 {
      assert counts[f] > 0 && counts[l] > 0;
      assert counts[j] == 0 ==> f < j < l;
    }
  }

  lemma {:induction false} First(counts: seq<nat>, i: nat) returns (f: nat)
    requires exists j :: i <= j < |counts| && counts[j] > 0
    ensures i <= f < |counts| && counts[f] > 0 && forall j :: i <= j < f ==> counts[j] == 0
    decreases |counts| - i
  {
    if counts[i] > 0 { f := i; } else { f := First(counts, i + 1); }
  }

  lemma {:induction false} Last(counts: seq<nat>, n: nat) returns (l: nat)
    requires n <= |counts| && exists j :: 0 <= j < n && counts[j] > 0
    ensures l < n && counts[l] > 0 && forall j :: l < j < n ==> counts[j] == 0
    decreases n
  {
    if counts[n - 1] > 0 { l := n - 1; } else { l := Last(counts, n - 1); }
  }

  predicate Blanked(lost: set<Attempt>, j: nat) { Attempt(j, 0) in lost && Attempt(j, 1) in lost }

  /** Nothing came of window `j`: both attempts were blanked, or the venue has no row in it. */
  ghost predicate Nothing(v: seq<int>, ws: seq<Window>, lost: set<Attempt>, j: int)
    requires Rising(v) && 0 <= j < |ws|
  {
    Blanked(lost, j) || Range(v, ws[j].first, ws[j].last + 1) == []
  }

  /** Window `j` was answered with rows. */
  ghost predicate Something(v: seq<int>, ws: seq<Window>, lost: set<Attempt>, j: int)
    requires Rising(v) && 0 <= j < |ws|
  {
    !Blanked(lost, j) && Range(v, ws[j].first, ws[j].last + 1) != []
  }

  lemma WhatCame(v: seq<int>, ws: seq<Window>, limit: nat, lost: set<Attempt>, j: nat)
    requires Rising(v) && Whole(v, ws, limit) && j < |ws|
    ensures Replies(v, ws, limit, lost)[j] == [] <==> Nothing(v, ws, lost, j)
    ensures Replies(v, ws, limit, lost)[j] != [] <==> Something(v, ws, lost, j)
  {
    assert Replies(v, ws, limit, lost)[j] == Reply(v, ws[j], limit, lost, j);
  }

  /** The rows are those of windows `f` to `l`, each answered with rows, and nothing came of any other window. */
  ghost predicate Stretch(v: seq<int>, ws: seq<Window>, lost: set<Attempt>, f: int, l: int, list: seq<int>)
    requires Rising(v)
  {
    && 0 <= f <= l < |ws| && list == Range(v, ws[f].first, ws[l].last + 1)
    && (forall j :: f <= j <= l ==> Something(v, ws, lost, j))
    && (forall j :: 0 <= j < |ws| && !(f <= j <= l) ==> Nothing(v, ws, lost, j))
  }

  lemma OneStretch(v: seq<int>, start: int, end: int, span: int, limit: nat, lost: set<Attempt>, ws: seq<Window>)
    returns (f: int, l: int)
    requires Rising(v) && Chain(ws, start, end, span) && Whole(v, ws, limit)
    requires !Bracketed(Counts(Replies(v, ws, limit, lost))) && SomeRows(Counts(Replies(v, ws, limit, lost)))
    ensures Stretch(v, ws, lost, f, l, Sorted(Union(Replies(v, ws, limit, lost))))
  {
    var pages := Replies(v, ws, limit, lost);
    f, l := OneRun(Counts(pages));
    forall j | 0 <= j < |ws|
      ensures f <= j <= l ==> Something(v, ws, lost, j) && pages[j] == Range(v, ws[j].first, ws[j].last + 1)
      ensures !(f <= j <= l) ==> Nothing(v, ws, lost, j) && pages[j] == []
    {
      assert Counts(pages)[j] == |pages[j]| && pages[j] == Reply(v, ws[j], limit, lost, j);
      WhatCame(v, ws, limit, lost, j);
    }
    RunIsRange(v, ws, pages, start, end, span, f, l);
  }

  lemma NoStretch(v: seq<int>, limit: nat, lost: set<Attempt>, ws: seq<Window>)
    requires Rising(v) && Whole(v, ws, limit) && !SomeRows(Counts(Replies(v, ws, limit, lost)))
    ensures Sorted(Union(Replies(v, ws, limit, lost))) == []
    ensures forall j :: 0 <= j < |ws| ==> Nothing(v, ws, lost, j)
    ensures forall j :: 0 <= j < |ws| ==> !Something(v, ws, lost, j)
  {
    var pages := Replies(v, ws, limit, lost);
    NothingBrought(pages);
    forall j | 0 <= j < |ws| ensures Nothing(v, ws, lost, j) && !Something(v, ws, lost, j) {
      assert Counts(pages)[j] == |pages[j]|;
      WhatCame(v, ws, limit, lost, j);
    }
  }

  lemma WindowsWhole(v: seq<int>, start: int, end: int, interval: int, limit: nat) returns (ws: seq<Window>)
    requires Rising(v) && Spaced(v, interval) && interval > 0 && limit >= 2 && start < end
    ensures ws == Windows(start, end, Span(interval, limit)) && ws != []
    ensures Chain(ws, start, end, Span(interval, limit)) && Whole(v, ws, limit)
    ensures ws[0].first == start && ws[|ws| - 1].last == end - 1
  {
    ws := Windows(start, end, Span(interval, limit));
    WindowsChain(start, end, Span(interval, limit));
    PagesAreWhole(v, ws, interval, limit, start, end);
  }

  /** Whatever replies are blanked, a windowed fetch that returns can only miss a leading and a trailing run of
      windows: its rows are those of one run of windows that were all answered, and every window before or after
      was blanked on both attempts or has no row. With no such run nothing is returned. */
  lemma OnlyEndsAreMissed(v: seq<int>, start: int, end: int, interval: int, limit: nat, lost: set<Attempt>)
    returns (f: int, l: int)
    requires Rising(v) && Spaced(v, interval) && interval > 0 && limit >= 2
    requires Windowed(v, start, end, interval, limit, lost).Rows?
    ensures var ws := Windows(start, end, Span(interval, limit));
            var list := Windowed(v, start, end, interval, limit, lost).list;
            if exists j :: 0 <= j < |ws| && Something(v, ws, lost, j) then Stretch(v, ws, lost, f, l, list)
            else list == [] && forall j :: 0 <= j < |ws| ==> Nothing(v, ws, lost, j)
  {
    f, l := 0, 0;
    if start < end {
      var ws := WindowsWhole(v, start, end, interval, limit);
      if SomeRows(Counts(Replies(v, ws, limit, lost))) {
        f, l := OneStretch(v, start, end, Span(interval, limit), limit, lost, ws);
        assert Something(v, ws, lost, f);
      } else {
        NoStretch(v, limit, lost, ws);
      }
    } else {
      assert Union([]) == {};
    }
  }

  lemma {:induction false} NothingBrought(pages: seq<seq<int>>)
    requires !SomeRows(Counts(pages))
    ensures Union(pages) == {}
  {
    forall j | 0 <= j < |pages| ensures pages[j] == [] { assert Counts(pages)[j] == |pages[j]|; }
    AllEmpty(pages);
  }

  lemma {:induction false} AllEmpty(pages: seq<seq<int>>)
    requires forall j :: 0 <= j < |pages| ==> pages[j] == []
    ensures Union(pages) == {}
  {
    if pages != [] { AllEmpty(pages[..|pages| - 1]); }
  }

  /** Every request is answered by its second attempt. */
  ghost predicate Answering(lost: set<Attempt>) { forall j: nat :: !Blanked(lost, j) }

  lemma WholeRun(v: seq<int>, ws: seq<Window>, limit: nat, lost: set<Attempt>)
    requires Rising(v) && ws != [] && Whole(v, ws, limit) && Answering(lost)
    ensures Run(v, ws, Replies(v, ws, limit, lost), 0, |ws| - 1)
  {
    forall j | 0 <= j < |ws| ensures Replies(v, ws, limit, lost)[j] == Range(v, ws[j].first, ws[j].last + 1) {
      assert Replies(v, ws, limit, lost)[j] == Reply(v, ws[j], limit, lost, j);
      assert !Blanked(lost, j);
    }
  }

  /** Against a venue that answers every request, a windowed fetch that returns is exact. */
  lemma WindowedIsExact(v: seq<int>, start: int, end: int, interval: int, limit: nat, lost: set<Attempt>)
    requires Rising(v) && Spaced(v, interval) && interval > 0 && limit >= 2 && Answering(lost)
    requires Windowed(v, start, end, interval, limit, lost).Rows?
    ensures Windowed(v, start, end, interval, limit, lost).list == Range(v, start, end)
  {
    if start < end {
      var ws := WindowsWhole(v, start, end, interval, limit);
      WholeRun(v, ws, limit, lost);
      RunIsRange(v, ws, Replies(v, ws, limit, lost), start, end, Span(interval, limit), 0, |ws| - 1);
    }
  }

  /** Which windows the venue has rows for. */
  function Occupied(v: seq<int>, ws: seq<Window>): seq<bool>
    requires Rising(v)
  {
    seq(|ws|, j requires 0 <= j < |ws| => Range(v, ws[j].first, ws[j].last + 1) != [])
  }

  /** A window without rows between two windows with rows. */
  ghost predicate Hole(occupied: seq<bool>) {
    exists i, j, k :: 0 <= i < j < k < |occupied| && occupied[i] && !occupied[j] && occupied[k]
  }

  lemma SameHoles(counts: seq<nat>, occupied: seq<bool>)
    requires |counts| == |occupied| && forall j :: 0 <= j < |counts| ==> (counts[j] > 0 <==> occupied[j])
    ensures Bracketed(counts) <==> Hole(occupied)
  {
    if Bracketed(counts) {
      var i, j, k :| 0 <= i < j < k < |counts| && counts[i] > 0 && counts[j] == 0 && counts[k] > 0;
      assert occupied[i] && !occupied[j] && occupied[k];
    }
    if Hole(occupied) {
      var i, j, k :| 0 <= i < j < k < |occupied| && occupied[i] && !occupied[j] && occupied[k];
      assert counts[i] > 0 && counts[j] == 0 && counts[k] > 0;
    }
  }

  /** A venue that answers is refused exactly when its own rows leave such a hole. */
  lemma RefusedOnHole(v: seq<int>, start: int, end: int, interval: int, limit: nat, lost: set<Attempt>)
    requires Rising(v) && Spaced(v, interval) && interval > 0 && limit >= 2 && Answering(lost) && start < end
    ensures Windowed(v, start, end, interval, limit, lost).Refused? <==>
              Hole(Occupied(v, Windows(start, end, Span(interval, limit))))
  {
    var ws := WindowsWhole(v, start, end, interval, limit);
    WholeRun(v, ws, limit, lost);
    RunOccupied(v, ws, Replies(v, ws, limit, lost));
    SameHoles(Counts(Replies(v, ws, limit, lost)), Occupied(v, ws));
  }

  /** An honest venue that is refused: two bars three windows apart leave two windows empty between them. */
  lemma QuietMarketIsRefused()
    ensures Rising([0, 4]) && Spaced([0, 4], 1) && Windowed([0, 4], 0, 5, 1, 2, {}).Refused?
  {
    var v := [0, 4];
    var w := Windows(3, 5, 1);
    assert w == [Window(3, 4)];
    assert Windows(2, 5, 1) == [Window(2, 3)] + w;
    assert Windows(1, 5, 1) == [Window(1, 2), Window(2, 3), Window(3, 4)];
    var ws := Windows(0, 5, 1);
    assert ws == [Window(0, 1), Window(1, 2), Window(2, 3), Window(3, 4)];
    assert Rising(v) && Spaced(v, 1);
    BeforeIs(v, 0, 0);
    BeforeIs(v, 1, 1);
    BeforeIs(v, 2, 1);
    BeforeIs(v, 3, 1);
    BeforeIs(v, 5, 2);
    var occupied := Occupied(v, ws);
    assert occupied[0] && !occupied[1] && occupied[3];
    assert Hole(occupied);
    RefusedOnHole(v, 0, 5, 1, 2, {});
  }

  lemma RunOccupied(v: seq<int>, ws: seq<Window>, pages: seq<seq<int>>)
    requires Rising(v) && ws != [] && Run(v, ws, pages, 0, |ws| - 1)
    ensures forall j :: 0 <= j < |ws| ==> (Counts(pages)[j] > 0 <==> Occupied(v, ws)[j])
  {
    forall j | 0 <= j < |ws| ensures Counts(pages)[j] > 0 <==> Occupied(v, ws)[j] {
      assert Counts(pages)[j] == |pages[j]|;
    }
  }

  /** A venue that answers every request blanks no attempt. */
  const HONEST: set<Attempt> := {}

  ghost predicate ExactFor(v: seq<int>, start: int, end: int, interval: int, limit: nat)
    requires interval > 0
  {
    Rising(v) && Spaced(v, interval) && Windowed(v, start, end, interval, limit, HONEST).Rows? ==>
      Windowed(v, start, end, interval, limit, HONEST).list == Range(v, start, end)
  }

  ghost predicate ExactForEveryVenue(interval: int, limit: nat)
    requires interval > 0
  {
    forall v, start, end :: ExactFor(v, start, end, interval, limit)
  }

  lemma TwoIsEnough(interval: int, limit: nat)
    requires interval > 0 && limit >= 2
    ensures ExactForEveryVenue(interval, limit)
  {
    forall v, start, end ensures ExactFor(v, start, end, interval, limit) {
      HonestIsExact(v, start, end, interval, limit);
    }
  }

  /** A page of one row loses the older of two bars in a window: windowed fetching is exact for every
      honest venue exactly when the page limit is two or more. */
  lemma ExactFromTwo(interval: int, limit: nat)
    requires interval > 0 && limit > 0
    ensures ExactForEveryVenue(interval, limit) <==> limit >= 2
  {
    if limit >= 2 {
      TwoIsEnough(interval, limit);
    } else {
      OneIsNot(interval, limit);
    }
  }

  lemma OneIsNot(interval: int, limit: nat)
    requires interval > 0 && limit == 1
    ensures !ExactForEveryVenue(interval, limit)
  {
    OneRowPages(interval, limit);
  }

  lemma HonestIsExact(v: seq<int>, start: int, end: int, interval: int, limit: nat)
    requires interval > 0 && limit >= 2
    ensures ExactFor(v, start, end, interval, limit)
  {
    if Rising(v) && Spaced(v, interval) {
      if Windowed(v, start, end, interval, limit, HONEST).Rows? {
        WindowedIsExact(v, start, end, interval, limit, HONEST);
      }
    }
  }

  lemma OneRowPages(interval: int, limit: nat)
    requires interval > 0 && limit == 1
    ensures !ExactFor([0, interval], 0, interval + 1, interval, limit)
  {
    var v := [0, interval];
    var ws := Windows(0, interval + 1, Span(interval, 1));
    assert ws == [Window(0, interval)];
    BeforeIs(v, 0, 0);
    BeforeIs(v, interval + 1, 2);
    assert Range(v, 0, interval + 1) == v;
    assert NewestPage(v, 0, interval, 1) == v[1..];
    OneWindow(v, ws, interval);
    assert 0 in v;
  }

  lemma OneWindow(v: seq<int>, ws: seq<Window>, interval: int)
    requires Rising(v) && interval > 0 && |ws| == 1 && NewestPage(v, ws[0].first, ws[0].last, 1) == [interval]
    ensures !Bracketed(Counts(Replies(v, ws, 1, HONEST))) && Union(Replies(v, ws, 1, HONEST)) == {interval}
  {
    var pages := Replies(v, ws, 1, HONEST);
    assert pages == [[interval]];
    assert Union(pages[..0]) == {};
  }
}
