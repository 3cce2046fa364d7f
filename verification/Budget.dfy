/** Shedding and restoring feeds to keep the month's bytes under an allowance
    (market_tape/record.py, `BudgetController`). Gigabytes and rates are real numbers. */
module BudgetControl {
  import opened Metering
  import opened Options

  datatype Pair = Pair(tier: string, feed: string)

  datatype Settings = Settings(monthlyGb: Option<real>, shed: seq<Pair>, restoreBelow: real, actEveryMinutes: real)

  const MIN_WINDOW_NS: int := 60 * MINUTE_NS

  function KeyOf(p: Pair): Key { OfFeed(p.tier, p.feed) }

  function Keys(pairs: seq<Pair>): seq<Key> { seq(|pairs|, i requires 0 <= i < |pairs| => KeyOf(pairs[i])) }

  /** Gigabytes a month at `bytes` a window. */
  function MonthGb(bytes: int, windowNs: int): real
    requires windowNs > 0
  {
    bytes as real / (windowNs as real / 1_000_000_000.0) * 2_592_000.0 / 1_000_000_000.0
  }

  lemma MonthGbMinus(a: int, b: int, windowNs: int)
    requires windowNs > 0
    ensures MonthGb(a, windowNs) - MonthGb(b, windowNs) == MonthGb(a - b, windowNs)
  {
    var s := windowNs as real / 1_000_000_000.0;
    assert a as real / s - b as real / s == (a - b) as real / s;
  }

  lemma MonthGbShrinks(a: int, b: int, windowA: int, windowB: int)
    requires 0 <= a <= b && 0 < windowB <= windowA
    ensures MonthGb(a, windowA) <= MonthGb(b, windowB)
  {
    var s, t := windowA as real / 1_000_000_000.0, windowB as real / 1_000_000_000.0;
    QuotientShrinks(a as real, b as real, s, t);
  }

  lemma QuotientShrinks(x: real, y: real, s: real, t: real)
    requires 0.0 <= x <= y && 0.0 < t <= s
    ensures x / s <= y / t
  {
    assert x / s * s == x && y / t * t == y;
    assert y / t * s >= y / t * t;
  }

  /** What the log says the shed pairs leave, over the day before `nowNs`. */
  function Left(log: seq<Add>, shed: seq<Pair>, nowNs: int): int {
    LoggedAfter(log, All, MinuteOf(nowNs) - DAY_MINUTES)
    - LoggedTogether(log, Keys(shed), MinuteOf(nowNs) - DAY_MINUTES)
  }

  /** The month the pairs still subscribed would make, had `shed` been given up. */
  function Projected(log: seq<Add>, startedNs: int, shed: seq<Pair>, nowNs: int): real
    requires WindowAt(startedNs, nowNs) > 0
  {
    MonthGb(Left(log, shed, nowNs), WindowAt(startedNs, nowNs))
  }

  /** A pair's month at its rate over the window before `ns`. */
  function PairMonth(log: seq<Add>, startedNs: int, p: Pair, ns: int): real
    requires WindowAt(startedNs, ns) > 0
  {
    MonthGb(LoggedAfter(log, KeyOf(p), MinuteOf(ns) - DAY_MINUTES), WindowAt(startedNs, ns))
  }

  predicate Differ(pairs: seq<Pair>, i: int, j: int)
    requires 0 <= i < j < |pairs|
  {
    pairs[i] != pairs[j]
  }

  ghost predicate Distinct(pairs: seq<Pair>) {
    forall i, j :: 0 <= i < j < |pairs| ==> Differ(pairs, i, j)
  }

  lemma DistinctPrefix(pairs: seq<Pair>, n: nat)
    requires Distinct(pairs) && n <= |pairs|
    ensures Distinct(pairs[..n])
  {
    forall i, j | 0 <= i < j < n ensures Differ(pairs[..n], i, j) { assert Differ(pairs, i, j); }
  }

  lemma OnlyOnce(pairs: seq<Pair>, i: nat, j: nat)
    requires Distinct(pairs) && i < |pairs| && j < |pairs| && pairs[i] == pairs[j]
    ensures i == j
  {
    assert i < j ==> Differ(pairs, i, j);
    assert j < i ==> Differ(pairs, j, i);
  }

  lemma KeysMore(pairs: seq<Pair>, p: Pair)
    ensures Keys(pairs + [p]) == Keys(pairs) + [KeyOf(p)]
  {
  }

  lemma LeftMore(log: seq<Add>, pairs: seq<Pair>, p: Pair, nowNs: int)
    ensures Left(log, pairs + [p], nowNs)
            == Left(log, pairs, nowNs) - LoggedAfter(log, KeyOf(p), MinuteOf(nowNs) - DAY_MINUTES)
  {
    KeysMore(pairs, p);
    assert (Keys(pairs) + [KeyOf(p)])[..|pairs|] == Keys(pairs);
  }

  /** Giving up one more pair takes its month off the projection. */
  lemma PairOff(log: seq<Add>, startedNs: int, pairs: seq<Pair>, p: Pair, nowNs: int)
    requires WindowAt(startedNs, nowNs) > 0
    ensures Projected(log, startedNs, pairs + [p], nowNs)
         == Projected(log, startedNs, pairs, nowNs)
            - PairMonth(log, startedNs, p, nowNs)
  {
    LeftMore(log, pairs, p, nowNs);
    MonthGbMinus(Left(log, pairs, nowNs), LoggedAfter(log, KeyOf(p), MinuteOf(nowNs) - DAY_MINUTES),
                 WindowAt(startedNs, nowNs));
  }

  lemma LeftIsNatural(frames: seq<Frame>, pairs: seq<Pair>, nowNs: int)
    requires Distinct(pairs)
    ensures Left(FrameLog(frames), pairs, nowNs) >= 0
  {
    var keys := Keys(pairs);
    forall i, j | 0 <= i < j < |keys| ensures keys[i] != keys[j] { assert Differ(pairs, i, j); }
    FeedsWithinAll(frames, keys, MinuteOf(nowNs) - DAY_MINUTES);
  }

  /** `gb` is what `p` brings in a month, going by `log` at `atNs`. */
  ghost predicate Carried(log: seq<Add>, startedNs: int, p: Pair, atNs: int, gb: real) {
    WindowAt(startedNs, atNs) > 0 && gb == PairMonth(log, startedNs, p, atNs)
  }

  /** What was remembered of a shed pair is what it carried when it was shed. */
  ghost predicate RememberedIn(log: seq<Add>, startedNs: int, last: int, gbs: map<Pair, real>, atNs: map<Pair, int>,
                               atLog: map<Pair, nat>, p: Pair) {
    && p in gbs && p in atNs && p in atLog
    && atLog[p] <= |log| && atNs[p] <= last
    && Carried(log[..atLog[p]], startedNs, p, atNs[p], gbs[p])
  }

  ghost predicate RememberedPlace(log: seq<Add>, startedNs: int, last: int, gbs: map<Pair, real>,
                                  atNs: map<Pair, int>, atLog: map<Pair, nat>, shed: seq<Pair>, i: int)
    requires 0 <= i < |shed|
  {
    RememberedIn(log, startedNs, last, gbs, atNs, atLog, shed[i])
  }

  ghost predicate AllRemembered(log: seq<Add>, startedNs: int, last: int, gbs: map<Pair, real>,
                                atNs: map<Pair, int>, atLog: map<Pair, nat>, shed: seq<Pair>)
  {
    forall i :: 0 <= i < |shed| ==> RememberedPlace(log, startedNs, last, gbs, atNs, atLog, shed, i)
  }

  lemma RememberedLater(log: seq<Add>, more: seq<Add>, startedNs: int, last: int, gbs: map<Pair, real>,
                        atNs: map<Pair, int>, atLog: map<Pair, nat>, shed: seq<Pair>)
    requires AllRemembered(log, startedNs, last, gbs, atNs, atLog, shed) && log <= more
    ensures AllRemembered(more, startedNs, last, gbs, atNs, atLog, shed)
  {
    forall i | 0 <= i < |shed| ensures RememberedPlace(more, startedNs, last, gbs, atNs, atLog, shed, i) {
      assert RememberedPlace(log, startedNs, last, gbs, atNs, atLog, shed, i);
      assert more[..atLog[shed[i]]] == log[..atLog[shed[i]]];
    }
  }

  lemma RememberedFewer(log: seq<Add>, startedNs: int, last: int, nowNs: int, gbs: map<Pair, real>,
                        atNs: map<Pair, int>, atLog: map<Pair, nat>, shed: seq<Pair>, n: nat)
    requires AllRemembered(log, startedNs, last, gbs, atNs, atLog, shed) && n <= |shed| && last <= nowNs
    ensures AllRemembered(log, startedNs, nowNs, gbs, atNs, atLog, shed[..n])
  {
    var fewer := shed[..n];
    forall i | 0 <= i < n ensures RememberedPlace(log, startedNs, nowNs, gbs, atNs, atLog, fewer, i) {
      assert RememberedPlace(log, startedNs, last, gbs, atNs, atLog, shed, i);
    }
  }

  lemma RememberOld(log: seq<Add>, startedNs: int, last: int, nowNs: int, was: map<Pair, real>, gbs: map<Pair, real>,
                    atNs: map<Pair, int>, atLog: map<Pair, nat>, added: seq<Pair>, p: Pair)
    requires RememberedIn(log, startedNs, last, was, atNs, atLog, p) && last <= nowNs && p in gbs && gbs[p] == was[p]
             && p !in added
    ensures RememberedIn(log, startedNs, nowNs, gbs, MarkedAt(atNs, added, nowNs), MarkedAt(atLog, added, |log|), p)
  {
  }

  lemma RememberNew(log: seq<Add>, startedNs: int, nowNs: int, gbs: map<Pair, real>,
                    atNs: map<Pair, int>, atLog: map<Pair, nat>, added: seq<Pair>, p: Pair)
    requires p in gbs && Carried(log, startedNs, p, nowNs, gbs[p]) && p in added
    ensures RememberedIn(log, startedNs, nowNs, gbs, MarkedAt(atNs, added, nowNs), MarkedAt(atLog, added, |log|), p)
  {
    assert log[..|log|] == log;
  }

  ghost function MarkedAt<T>(at: map<Pair, T>, added: seq<Pair>, x: T): map<Pair, T> {
    at + map p | p in added :: x
  }

  /** The pairs at places `from` to `upto` of the order noted at `x`; nothing new when none went. */
  ghost function Marked<T>(at: map<Pair, T>, order: seq<Pair>, from: nat, upto: nat, x: T): map<Pair, T>
    requires from <= |order| && upto <= |order|
  {
    if from < upto then MarkedAt(at, order[from..upto], x) else at
  }

  lemma MarkedNone<T>(at: map<Pair, T>, order: seq<Pair>, from: nat, upto: nat, x: T)
    requires from <= upto <= |order|
    ensures Marked(at, order, from, upto, x) == MarkedAt(at, order[from..upto], x)
  {
  }

  /** `n` pairs of the configured order are the fewest, from `before` on, that bring the projection to the
      limit, or all of them. */
  ghost predicate JustEnough(log: seq<Add>, startedNs: int, order: seq<Pair>, before: nat, n: nat, limit: real,
                             nowNs: int) {
    && WindowAt(startedNs, nowNs) > 0 && before <= n <= |order|
    && (n < |order| ==> Projected(log, startedNs, order[..n], nowNs) <= limit)
    && (forall m :: before <= m < n ==> Projected(log, startedNs, order[..m], nowNs) > limit)
  }

  /** A month can be projected and there is an allowance to hold it against. */
  predicate Judged(settings: Settings, startedNs: int, nowNs: int) {
    settings.monthlyGb.Some? && WindowAt(startedNs, nowNs) >= MIN_WINDOW_NS
  }

  /** With the first `shed` pairs given up the month is still over the allowance. */
  predicate Over(settings: Settings, log: seq<Add>, startedNs: int, shed: nat, nowNs: int)
    requires shed <= |settings.shed|
  {
    Judged(settings, startedNs, nowNs)
    && Projected(log, startedNs, settings.shed[..shed], nowNs) > settings.monthlyGb.value
  }

  /** What a step does to the number of pairs given up: over the allowance just enough more go, otherwise
      at most one comes back, and nothing moves when no action is due. */
  ghost predicate Decided(settings: Settings, log: seq<Add>, startedNs: int, due: bool, nowNs: int, before: nat,
                          after: nat) {
    && before <= |settings.shed| && after <= |settings.shed|
    && (if due && Over(settings, log, startedNs, before, nowNs)
        then JustEnough(log, startedNs, settings.shed, before, after, settings.monthlyGb.value, nowNs)
        else if due && Judged(settings, startedNs, nowNs) then before - 1 <= after <= before
        else after == before)
  }

  /** With `after` pairs left given up, the projection stays under the restore line, unless the pair that came
      back was metered since place `since` of the log. */
  ghost predicate Fits(settings: Settings, log: seq<Add>, startedNs: int, nowNs: int, after: nat, since: nat) {
    && after < |settings.shed| && Judged(settings, startedNs, nowNs)
    && (QuietSince(log, since, settings.shed[after]) ==>
          Projected(log, startedNs, settings.shed[..after], nowNs) < settings.monthlyGb.value * settings.restoreBelow)
  }

  /** Nothing was metered for the pair from place `n` of the log on. */
  ghost predicate QuietSince(log: seq<Add>, n: nat, p: Pair) {
    forall i :: n <= i < |log| ==> log[i].key != KeyOf(p)
  }

  class BudgetController {
    const settings: Settings
    const meter: ByteMeter
    var shedActive: seq<Pair>
    var shedGb: map<Pair, real>
    var lastActionNs: int
    var projectedGb: Option<real>
    ghost var shedAtNs: map<Pair, int>   // when each shed pair was shed
    ghost var shedAtLog: map<Pair, nat>  // how much had been metered then

    function GapNs(): real { GapOf(settings) }

    ghost predicate Remembered(p: Pair)
      reads this, meter
    {
      RememberedIn(meter.log, meter.startedNs, lastActionNs, shedGb, shedAtNs, shedAtLog, p)
    }

    ghost predicate Valid()
      reads this, meter
    {
      && meter.Valid() && Distinct(settings.shed) && settings.actEveryMinutes > 0.0
      && |shedActive| <= |settings.shed| && shedActive == settings.shed[..|shedActive|]
      && AllRemembered(meter.log, meter.startedNs, lastActionNs, shedGb, shedAtNs, shedAtLog, shedActive)
    }

    lemma RememberedHere(i: nat)
      requires Valid() && i < |shedActive|
      ensures Remembered(shedActive[i]) && shedActive[i] == settings.shed[i]
    {
      assert RememberedPlace(meter.log, meter.startedNs, lastActionNs, shedGb, shedAtNs, shedAtLog, shedActive, i);
    }

    /** What the last pair given up carried when it went. */
    ghost function LastGb(): real
      requires Valid() && shedActive != []
      reads this, meter
    {
      RememberedHere(|shedActive| - 1);
      shedGb[shedActive[|shedActive| - 1]]
    }

    constructor (settings: Settings, meter: ByteMeter)
      requires meter.Valid() && Distinct(settings.shed) && settings.actEveryMinutes > 0.0
      ensures Valid() && this.settings == settings && this.meter == meter && shedActive == [] && lastActionNs == 0
    {
      this.settings, this.meter := settings, meter;
      shedActive, shedGb, lastActionNs, projectedGb := [], map[], 0, None;
      shedAtNs, shedAtLog := map[], map[];
    }

    /** Metering more never unsettles the controller. */
    twostate lemma MeteringKeepsValid()
      requires old(Valid()) && meter.Valid() && old(meter.log) <= meter.log && unchanged(this)
      ensures Valid()
    {
      RememberedLater(old(meter.log), meter.log, meter.startedNs, lastActionNs, shedGb, shedAtNs, shedAtLog,
                      shedActive);
    }

    /** Every byte was metered by now, and no earlier than the last action. */
    ghost predicate Current(nowNs: int, frames: seq<Frame>)
      reads this, meter
    {
      && nowNs > 0 && lastActionNs <= nowNs
      && meter.log == FrameLog(frames)
      && Until(meter.log, MinuteOf(nowNs))
    }

    method WindowSeconds(nowNs: int) returns (windowNs: Option<int>)
      ensures windowNs
              == if WindowAt(meter.startedNs, nowNs) < MIN_WINDOW_NS then None
                 else Some(WindowAt(meter.startedNs, nowNs))
    {
      var w := WindowAt(meter.startedNs, nowNs);
      windowNs := if w < MIN_WINDOW_NS then None else Some(w);
    }

    /** The clip at zero never shows: the projection is what the whole log says is left. */
    method Projection(nowNs: int, ghost frames: seq<Frame>) returns (gb: Option<real>)
      requires Valid() && Current(nowNs, frames)
      ensures gb.Some? <==> WindowAt(meter.startedNs, nowNs) >= MIN_WINDOW_NS
      ensures gb.Some? ==> gb.value == Projected(meter.log, meter.startedNs, shedActive, nowNs)
    {
      var windowNs := WindowSeconds(nowNs);
      if windowNs.None? { return None; }
      var received: int := meter.LastDay(All, nowNs);
      UntilReaches(meter.log, All, MinuteOf(nowNs));
      meter.LastDayIsExact(All, nowNs);
      for i := 0 to |shedActive|
        invariant received == Left(meter.log, shedActive[..i], nowNs)
      {
        received := received - meter.LastDay(KeyOf(shedActive[i]), nowNs);
        UntilReaches(meter.log, KeyOf(shedActive[i]), MinuteOf(nowNs));
        meter.LastDayIsExact(KeyOf(shedActive[i]), nowNs);
        LeftMore(meter.log, shedActive[..i], shedActive[i], nowNs);
        assert shedActive[..i + 1] == shedActive[..i] + [shedActive[i]];
      }
      assert shedActive[..|shedActive|] == shedActive;
      DistinctPrefix(settings.shed, |shedActive|);
      LeftIsNatural(frames, shedActive, nowNs);
      gb := Some(MonthGb(if received > 0 then received else 0, windowNs.value));
    }

    predicate Due(nowNs: int)
      reads this
    {
      lastActionNs == 0 || (nowNs - lastActionNs) as real >= GapNs()
    }

    ghost predicate ShedJustEnough(limit: real, before: nat, nowNs: int)
      reads this, meter
    {
      && JustEnough(meter.log, meter.startedNs, settings.shed, before, |shedActive|, limit, nowNs)
      && shedActive == settings.shed[..|shedActive|]
    }

    /** One pair's month at its rate over the window. */
    function PairGb(p: Pair, nowNs: int): real
      requires WindowAt(meter.startedNs, nowNs) > 0
      reads meter
    {
      MonthGb(meter.LastDay(KeyOf(p), nowNs), WindowAt(meter.startedNs, nowNs))
    }

    /** What giving up the pairs `from` to `n` of the configured order takes off the projection. */
    function Freed(from: nat, n: nat, nowNs: int): real
      requires from <= n <= |settings.shed| && WindowAt(meter.startedNs, nowNs) > 0
      reads meter
    {
      if n == from then 0.0 else Freed(from, n - 1, nowNs) + PairGb(settings.shed[n - 1], nowNs)
    }

    /** What is remembered once they are given up. */
    function WithGbs(gbs: map<Pair, real>, from: nat, n: nat, nowNs: int): map<Pair, real>
      requires from <= n <= |settings.shed| && WindowAt(meter.startedNs, nowNs) > 0
      reads meter
    {
      if n == from then gbs
      else WithGbs(gbs, from, n - 1, nowNs)[settings.shed[n - 1] := PairGb(settings.shed[n - 1], nowNs)]
    }

    lemma {:induction false} FreedIsProjected(from: nat, n: nat, nowNs: int)
      requires meter.Valid() && from <= n <= |settings.shed| && WindowAt(meter.startedNs, nowNs) > 0
      requires Until(meter.log, MinuteOf(nowNs))
      ensures Projected(meter.log, meter.startedNs, settings.shed[..n], nowNs)
           == Projected(meter.log, meter.startedNs, settings.shed[..from], nowNs) - Freed(from, n, nowNs)
    {
      if n > from {
        var p := settings.shed[n - 1];
        FreedIsProjected(from, n - 1, nowNs);
        assert settings.shed[..n] == settings.shed[..n - 1] + [p];
        UntilReaches(meter.log, KeyOf(p), MinuteOf(nowNs));
        meter.LastDayIsExact(KeyOf(p), nowNs);
        PairOff(meter.log, meter.startedNs, settings.shed[..n - 1], p, nowNs);
      }
    }

    lemma {:induction false} WithGbsAt(gbs: map<Pair, real>, from: nat, n: nat, nowNs: int, i: nat)
      requires Distinct(settings.shed) && from <= n <= |settings.shed| && i < n && WindowAt(meter.startedNs, nowNs) > 0
      requires i < from ==> settings.shed[i] in gbs
      ensures var p := settings.shed[i];
              && p in WithGbs(gbs, from, n, nowNs)
              && WithGbs(gbs, from, n, nowNs)[p] == if i < from then gbs[p] else PairGb(p, nowNs)
    {
      if n > from && i < n - 1 {
        WithGbsAt(gbs, from, n - 1, nowNs, i);
        assert Differ(settings.shed, i, n - 1);
      }
    }

    /** How many pairs, from `from` on, bring `projected` to the limit. */
    method FewestPairs(limit: real, projected: real, nowNs: int) returns (n: nat, gbs: map<Pair, real>)
      requires |shedActive| <= |settings.shed| && WindowAt(meter.startedNs, nowNs) > 0
      ensures |shedActive| <= n <= |settings.shed|
      ensures n < |settings.shed| ==> projected - Freed(|shedActive|, n, nowNs) <= limit
      ensures forall m :: |shedActive| <= m < n ==> projected - Freed(|shedActive|, m, nowNs) > limit
      ensures gbs == WithGbs(shedGb, |shedActive|, n, nowNs)
    {
      n, gbs := |shedActive|, shedGb;
      var left := projected;
      while left > limit && n < |settings.shed|
        invariant |shedActive| <= n <= |settings.shed|
        invariant left == projected - Freed(|shedActive|, n, nowNs)
        invariant forall m :: |shedActive| <= m < n ==> projected - Freed(|shedActive|, m, nowNs) > limit
        invariant gbs == WithGbs(shedGb, |shedActive|, n, nowNs)
        decreases |settings.shed| - n
      {
        var gb := PairGb(settings.shed[n], nowNs);
        gbs := gbs[settings.shed[n] := gb];
        left := left - gb;
        n := n + 1;
      }
    }

    lemma ShedProjected(n: nat, nowNs: int)
      requires meter.Valid() && |shedActive| <= n <= |settings.shed| && WindowAt(meter.startedNs, nowNs) > 0
      requires shedActive == settings.shed[..|shedActive|]
      requires Until(meter.log, MinuteOf(nowNs))
      ensures forall m: nat :: |shedActive| <= m <= n ==> FreedTo(m, nowNs)
    {
      forall m: nat | |shedActive| <= m <= n ensures FreedTo(m, nowNs) {
        FreedIsProjected(|shedActive|, m, nowNs);
      }
    }

    /** Giving up the pairs up to `m` takes just what they carry off the projection. */
    ghost predicate FreedTo(m: nat, nowNs: int)
      requires |shedActive| <= m <= |settings.shed| && WindowAt(meter.startedNs, nowNs) > 0
      reads this, meter
    {
      Projected(meter.log, meter.startedNs, settings.shed[..m], nowNs)
      == Projected(meter.log, meter.startedNs, shedActive, nowNs) - Freed(|shedActive|, m, nowNs)
    }

    /** The fewest pairs that bring the projection to the limit, in terms of the log. */
    lemma FewestIsJustEnough(n: nat, limit: real, nowNs: int)
      requires Valid() && |shedActive| <= n <= |settings.shed| && WindowAt(meter.startedNs, nowNs) > 0
      requires Until(meter.log, MinuteOf(nowNs))
      requires var gb := Projected(meter.log, meter.startedNs, shedActive, nowNs);
               && (n < |settings.shed| ==> gb - Freed(|shedActive|, n, nowNs) <= limit)
               && (forall m :: |shedActive| <= m < n ==> gb - Freed(|shedActive|, m, nowNs) > limit)
      ensures JustEnough(meter.log, meter.startedNs, settings.shed, |shedActive|, n, limit, nowNs)
    {
      ShedProjected(n, nowNs);
      assert FreedTo(n, nowNs);
      forall m | |shedActive| <= m < n
        ensures Projected(meter.log, meter.startedNs, settings.shed[..m], nowNs) > limit {
        assert FreedTo(m, nowNs);
      }
    }

    /** What is remembered for a pair that goes now, and for one that went before. */
    ghost predicate Noted(gbs: map<Pair, real>, nowNs: int, i: nat)
      requires i < |settings.shed|
      reads this, meter
    {
      var p := settings.shed[i];
      && p in gbs
      && (i < |shedActive| ==> Remembered(p) && gbs[p] == shedGb[p])
      && (i >= |shedActive| ==> Carried(meter.log, meter.startedNs, p, nowNs, gbs[p]))
    }

    lemma ShedNoted(n: nat, nowNs: int, i: nat)
      requires Valid() && |shedActive| <= n <= |settings.shed| && i < n && WindowAt(meter.startedNs, nowNs) > 0
      requires Until(meter.log, MinuteOf(nowNs))
      ensures Noted(WithGbs(shedGb, |shedActive|, n, nowNs), nowNs, i)
    {
      if i < |shedActive| { RememberedHere(i); }
      WithGbsAt(shedGb, |shedActive|, n, nowNs, i);
      UntilReaches(meter.log, KeyOf(settings.shed[i]), MinuteOf(nowNs));
      meter.LastDayIsExact(KeyOf(settings.shed[i]), nowNs);
    }

    method ShedPairs(nowNs: int, limit: real, ghost frames: seq<Frame>) returns (changed: bool)
      requires Valid() && Current(nowNs, frames) && WindowAt(meter.startedNs, nowNs) > 0
      requires projectedGb == Some(Projected(meter.log, meter.startedNs, shedActive, nowNs))
               && projectedGb.value > limit
      modifies this
      ensures Valid() && ShedJustEnough(limit, |old(shedActive)|, nowNs)
      ensures changed <==> shedActive != old(shedActive)
      ensures lastActionNs == nowNs && projectedGb == old(projectedGb)
      ensures shedAtNs == Marked(old(shedAtNs), settings.shed, |old(shedActive)|, |shedActive|, nowNs)
      ensures shedAtLog == Marked(old(shedAtLog), settings.shed, |old(shedActive)|, |shedActive|, |meter.log|)
    {
      var n, gbs := FewestPairs(limit, projectedGb.value, nowNs);
      FewestIsJustEnough(n, limit, nowNs);
      forall i: nat | i < n ensures Noted(gbs, nowNs, i) { ShedNoted(n, nowNs, i); }
      changed := n > |shedActive|;
      Remember(n, gbs, nowNs);
    }

    method Remember(n: nat, gbs: map<Pair, real>, nowNs: int)
      requires |shedActive| <= n <= |settings.shed| && Distinct(settings.shed)
               && shedActive == settings.shed[..|shedActive|]
      requires lastActionNs <= nowNs && forall i: nat :: i < n ==> Noted(gbs, nowNs, i)
      modifies this
      ensures shedActive == settings.shed[..n] && lastActionNs == nowNs
      ensures projectedGb == old(projectedGb)
      ensures shedAtNs == Marked(old(shedAtNs), settings.shed, |old(shedActive)|, n, nowNs)
      ensures shedAtLog == Marked(old(shedAtLog), settings.shed, |old(shedActive)|, n, |meter.log|)
      ensures AllRemembered(meter.log, meter.startedNs, lastActionNs, shedGb, shedAtNs, shedAtLog, shedActive)
    {
      ghost var from, added := |shedActive|, settings.shed[|shedActive|..n];
      forall i: nat | i < n
        ensures RememberedIn(meter.log, meter.startedNs, nowNs, gbs, MarkedAt(shedAtNs, added, nowNs),
                             MarkedAt(shedAtLog, added, |meter.log|), settings.shed[i])
      {
        var p := settings.shed[i];
        assert Noted(gbs, nowNs, i);
        if i < from {
          forall j | 0 <= j < |added| ensures added[j] != p { assert Differ(settings.shed, i, from + j); }
          RememberOld(meter.log, meter.startedNs, lastActionNs, nowNs, shedGb, gbs, shedAtNs, shedAtLog, added, p);
        } else {
          assert p == added[i - from];
          RememberNew(meter.log, meter.startedNs, nowNs, gbs, shedAtNs, shedAtLog, added, p);
        }
      }
      MarkedNone(shedAtNs, settings.shed, from, n, nowNs);
      MarkedNone(shedAtLog, settings.shed, from, n, |meter.log|);
      shedAtNs := MarkedAt(shedAtNs, added, nowNs);
      shedAtLog := MarkedAt(shedAtLog, added, |meter.log|);
      shedActive, shedGb, lastActionNs := settings.shed[..n], gbs, nowNs;
    }

    /** A quiet pair brings back no more than it took away when it was shed. */
    lemma QuietPairFits(nowNs: int, p: Pair, rest: seq<Pair>)
      requires Valid() && lastActionNs <= nowNs && Remembered(p) && QuietSince(meter.log, shedAtLog[p], p)
      ensures WindowAt(meter.startedNs, nowNs) > 0
      ensures Projected(meter.log, meter.startedNs, rest, nowNs)
           <= Projected(meter.log, meter.startedNs, rest + [p], nowNs) + shedGb[p]
    {
      var key, since, at := KeyOf(p), MinuteOf(shedAtNs[p]) - DAY_MINUTES, MinuteOf(nowNs) - DAY_MINUTES;
      assert since <= at;
      QuietShrinks(meter.log, shedAtLog[p], key, since, at);
      PairOff(meter.log, meter.startedNs, rest, p, nowNs);
      MonthGbShrinks(LoggedAfter(meter.log, key, at), LoggedAfter(meter.log[..shedAtLog[p]], key, since),
                     WindowAt(meter.startedNs, nowNs), WindowAt(meter.startedNs, shedAtNs[p]));
    }

    method RestoreLast(nowNs: int, ghost frames: seq<Frame>) returns (changed: bool)
      requires Valid() && Current(nowNs, frames) && Judged(settings, meter.startedNs, nowNs)
               && shedActive != []
      requires projectedGb == Some(Projected(meter.log, meter.startedNs, shedActive, nowNs))
      modifies this
      ensures Valid() && projectedGb == old(projectedGb) && shedAtNs == old(shedAtNs) && shedAtLog == old(shedAtLog)
      ensures changed <==> projectedGb.value + old(LastGb()) < settings.monthlyGb.value * settings.restoreBelow
      ensures shedActive == if changed then old(shedActive)[..|old(shedActive)| - 1] else old(shedActive)
      ensures lastActionNs == if changed then nowNs else old(lastActionNs)
      ensures changed ==> LastFits(nowNs, |shedActive|)
    {
      var n := |shedActive| - 1;
      var pair := shedActive[n];
      RememberedHere(n);
      changed := projectedGb.value + shedGb[pair] < settings.monthlyGb.value * settings.restoreBelow;
      if changed {
        RestoredFits(nowNs);
        shedActive := shedActive[..n];
        lastActionNs := nowNs;
        RememberedFewer(meter.log, meter.startedNs, old(lastActionNs), nowNs, shedGb, shedAtNs, shedAtLog,
                        old(shedActive), n);
      }
    }

    /** Bringing the pair at place `n` back fits, unless it was metered since it was given up. */
    ghost predicate LastFits(nowNs: int, n: nat)
      reads this, meter
    {
      && n < |settings.shed| && settings.shed[n] in shedAtLog
      && Fits(settings, meter.log, meter.startedNs, nowNs, n, shedAtLog[settings.shed[n]])
    }

    lemma RestoredFits(nowNs: int)
      requires Valid() && lastActionNs <= nowNs && Judged(settings, meter.startedNs, nowNs) && shedActive != []
      requires Projected(meter.log, meter.startedNs, shedActive, nowNs) + LastGb()
             < settings.monthlyGb.value * settings.restoreBelow
      ensures LastFits(nowNs, |shedActive| - 1)
    {
      var n := |shedActive| - 1;
      var pair := shedActive[n];
      RememberedHere(n);
      assert pair == settings.shed[n];
      if QuietSince(meter.log, shedAtLog[pair], pair) {
        assert shedActive == settings.shed[..n] + [pair];
        QuietPairFits(nowNs, pair, settings.shed[..n]);
      }
    }

    method Reproject(nowNs: int, ghost frames: seq<Frame>)
      requires Valid() && Current(nowNs, frames)
      modifies this`projectedGb
      ensures Valid() && Current(nowNs, frames)
      ensures projectedGb.Some? <==> WindowAt(meter.startedNs, nowNs) >= MIN_WINDOW_NS
      ensures projectedGb.Some? ==> projectedGb.value == Projected(meter.log, meter.startedNs, shedActive, nowNs)
    {
      var gb := Projection(nowNs, frames);
      projectedGb := gb;
    }

    /** Re-project, then shed or restore when due. */
    method Step(nowNs: int, ghost frames: seq<Frame>) returns (changed: bool)
      requires Valid() && Current(nowNs, frames)
      modifies this
      ensures Valid()
      ensures projectedGb.Some? <==> WindowAt(meter.startedNs, nowNs) >= MIN_WINDOW_NS
      ensures projectedGb.Some? ==> projectedGb.value == Projected(meter.log, meter.startedNs, old(shedActive), nowNs)
      ensures Decided(settings, meter.log, meter.startedNs, old(Due(nowNs)), nowNs, |old(shedActive)|, |shedActive|)
      ensures changed <==> |shedActive| != |old(shedActive)|
      ensures var over := Over(settings, meter.log, meter.startedNs, |old(shedActive)|, nowNs);
              lastActionNs == if changed || (old(Due(nowNs)) && over) then nowNs else old(lastActionNs)
      ensures shedAtNs == Marked(old(shedAtNs), settings.shed, |old(shedActive)|, |shedActive|, nowNs)
      ensures shedAtLog == Marked(old(shedAtLog), settings.shed, |old(shedActive)|, |shedActive|, |meter.log|)
      ensures old(Due(nowNs)) && old(shedActive) != [] && Judged(settings, meter.startedNs, nowNs)
              && !Over(settings, meter.log, meter.startedNs, |old(shedActive)|, nowNs) ==>
                (changed <==> projectedGb.value + old(LastGb()) < settings.monthlyGb.value * settings.restoreBelow)
      ensures |shedActive| < |old(shedActive)| ==> LastFits(nowNs, |shedActive|)
    {
      changed := false;
      Reproject(nowNs, frames);
      assert shedActive == settings.shed[..|shedActive|];
      if settings.monthlyGb.None? || projectedGb.None? { return; }
      if lastActionNs != 0 && (nowNs - lastActionNs) as real < GapNs() { return; }
      if projectedGb.value > settings.monthlyGb.value {
        changed := ShedPairs(nowNs, settings.monthlyGb.value, frames);
        return;
      }
      if shedActive != [] {
        changed := RestoreLast(nowNs, frames);
      }
    }
  }

  // --------------------------------------------------------------------- whole runs

  /** What happens to a recorder: a frame is metered, or the controller takes a step. */
  datatype Happening = Heard(tier: string, feed: Option<string>, count: nat, ns: int) | Asked(ns: int)

  /** One step of a run: how many frames were metered before it, how many pairs were given up before and after
      it, and whether it counts as an action. */
  datatype Tick = Tick(ns: int, frames: nat, before: nat, after: nat, acted: bool)

  function FramesOf(events: seq<Happening>): seq<Frame> {
    if events == [] then []
    else
      var n := |events| - 1;
      FramesOf(events[..n])
      + (if events[n].Heard? then [Frame(events[n].tier, events[n].feed, events[n].count, MinuteOf(events[n].ns))]
         else [])
  }

  /** When the steps were, and how many frames each came after. */
  function PlacesOf(events: seq<Happening>): seq<(int, nat)> {
    if events == [] then []
    else
      var n := |events| - 1;
      PlacesOf(events[..n]) + (if events[n].Asked? then [(events[n].ns, |FramesOf(events[..n])|)] else [])
  }

  function Places(ticks: seq<Tick>): seq<(int, nat)> {
    seq(|ticks|, i requires 0 <= i < |ticks| => (ticks[i].ns, ticks[i].frames))
  }

  predicate NotBefore(events: seq<Happening>, i: int, j: int)
    requires 0 <= i < j < |events|
  {
    events[i].ns <= events[j].ns
  }

  /** Time does not go back. */
  ghost predicate InTurn(events: seq<Happening>) {
    && (forall i, j :: 0 <= i < j < |events| ==> NotBefore(events, i, j))
    && (forall i :: 0 <= i < |events| ==> events[i].ns > 0)
  }

  ghost function LogAt(frames: seq<Frame>, n: nat): seq<Add>
    requires n <= |frames|
  {
    FrameLog(frames[..n])
  }

  /** How many pairs are given up before step `i`. */
  function Level(ticks: seq<Tick>, i: nat): nat
    requires i <= |ticks|
  {
    if i == 0 then 0 else ticks[i - 1].after
  }

  predicate SpacedFrom(ticks: seq<Tick>, j: int, ns: int, gapNs: real)
    requires 0 <= j < |ticks|
  {
    ticks[j].acted ==> (ns - ticks[j].ns) as real >= gapNs
  }

  /** No action in the gap before `ns`. */
  ghost predicate DueAt(ticks: seq<Tick>, i: nat, ns: int, gapNs: real)
    requires i <= |ticks|
  {
    forall j :: 0 <= j < i ==> SpacedFrom(ticks, j, ns, gapNs)
  }

  predicate Sheds(t: Tick, p: nat) { t.before <= p < t.after }

  /** Step `k` is the last before step `i` that gave up the pair at place `p`. */
  ghost predicate ShedBy(ticks: seq<Tick>, i: nat, k: int, p: nat)
    requires i <= |ticks|
  {
    0 <= k < i && Sheds(ticks[k], p) && forall j :: k < j < i ==> !Sheds(ticks[j], p)
  }

  function GapOf(settings: Settings): real { settings.actEveryMinutes * MINUTE_NS as real }

  /** Step `t`, taken after `log`, against the step at `ns` that gave its last pair up after `then_`: the pair comes
      back exactly when what it carried then fits under the restore line, and if nothing was metered for it since,
      the month with the pair back is under that line. */
  ghost predicate Returns(settings: Settings, startedNs: int, log: seq<Add>, due: bool, t: Tick, then_: seq<Add>,
                          ns: int) {
    && 0 < t.before <= |settings.shed| && WindowAt(startedNs, ns) > 0
    && (due && Judged(settings, startedNs, t.ns) && !Over(settings, log, startedNs, t.before, t.ns) ==>
          (t.after < t.before <==>
             Projected(log, startedNs, settings.shed[..t.before], t.ns)
             + PairMonth(then_, startedNs, settings.shed[t.before - 1], ns)
             < settings.monthlyGb.value * settings.restoreBelow))
    && (t.after < t.before ==> Fits(settings, log, startedNs, t.ns, t.after, |then_|))
  }

  ghost predicate TickSound(settings: Settings, startedNs: int, frames: seq<Frame>, ticks: seq<Tick>, i: nat)
    requires i < |ticks|
  {
    var t, due := ticks[i], DueAt(ticks, i, ticks[i].ns, GapOf(settings));
    && t.frames <= |frames| && t.before == Level(ticks, i)
    && Decided(settings, LogAt(frames, t.frames), startedNs, due, t.ns, t.before, t.after)
    && (t.acted <==> t.after != t.before || (due && Over(settings, LogAt(frames, t.frames), startedNs, t.before, t.ns)))
    && (t.before > 0 ==> forall k :: ShedBy(ticks, i, k, t.before - 1) ==>
          ticks[k].frames <= |frames|
          && Returns(settings, startedNs, LogAt(frames, t.frames), due, t, LogAt(frames, ticks[k].frames), ticks[k].ns))
  }

  ghost predicate RunSound(settings: Settings, startedNs: int, frames: seq<Frame>, ticks: seq<Tick>) {
    forall i :: 0 <= i < |ticks| ==> TickSound(settings, startedNs, frames, ticks, i)
  }

  /** Over every run, two changes of what is given up are at least the configured gap apart. */
  lemma ChangesAreApart(settings: Settings, startedNs: int, frames: seq<Frame>, ticks: seq<Tick>, i: nat, j: nat)
    requires RunSound(settings, startedNs, frames, ticks) && i < j < |ticks|
    requires ticks[i].after != ticks[i].before && ticks[j].after != ticks[j].before
    ensures (ticks[j].ns - ticks[i].ns) as real >= GapOf(settings)
  {
    assert TickSound(settings, startedNs, frames, ticks, i) && TickSound(settings, startedNs, frames, ticks, j);
    assert SpacedFrom(ticks, i, ticks[j].ns, GapOf(settings));
  }

  /** A pair that is given up was given up by some step. */
  lemma {:induction false} SomeStepShed(settings: Settings, startedNs: int, frames: seq<Frame>, ticks: seq<Tick>,
                                        i: nat, p: nat) returns (k: nat)
    requires RunSound(settings, startedNs, frames, ticks) && i <= |ticks| && p < Level(ticks, i)
    ensures ShedBy(ticks, i, k, p)
  {
    var t := ticks[i - 1];
    assert TickSound(settings, startedNs, frames, ticks, i - 1);
    if t.before <= p {
      k := i - 1;
    } else {
      k := SomeStepShed(settings, startedNs, frames, ticks, i - 1, p);
    }
  }

  // What the controller remembers of the run so far.

  ghost predicate Acted(ticks: seq<Tick>, j: int, last: int)
    requires 0 <= j < |ticks|
  {
    ticks[j].acted ==> 0 < ticks[j].ns <= last
  }

  ghost predicate LastActed(ticks: seq<Tick>, last: int) {
    && (forall j :: 0 <= j < |ticks| ==> Acted(ticks, j, last))
    && (last == 0 || exists j :: 0 <= j < |ticks| && ticks[j].acted && ticks[j].ns == last)
  }

  ghost predicate NotedBy(settings: Settings, frames: seq<Frame>, ticks: seq<Tick>, atNs: map<Pair, int>,
                          atLog: map<Pair, nat>, p: nat, k: nat)
    requires p < |settings.shed| && k < |ticks|
  {
    var pair := settings.shed[p];
    && pair in atNs && pair in atLog && ticks[k].frames <= |frames|
    && atNs[pair] == ticks[k].ns && atLog[pair] == |LogAt(frames, ticks[k].frames)|
  }

  /** The pairs given up were noted when they last went. */
  ghost predicate AllNoted(settings: Settings, frames: seq<Frame>, ticks: seq<Tick>, level: nat, atNs: map<Pair, int>,
                           atLog: map<Pair, nat>)
    requires level <= |settings.shed|
  {
    forall p: nat, k: nat :: p < level && ShedBy(ticks, |ticks|, k, p) ==>
        NotedBy(settings, frames, ticks, atNs, atLog, p, k)
  }

  lemma DueIsDueAt(ticks: seq<Tick>, last: int, ns: int, gapNs: real)
    requires LastActed(ticks, last) && gapNs > 0.0
    ensures (last == 0 || (ns - last) as real >= gapNs) <==> DueAt(ticks, |ticks|, ns, gapNs)
  {
    if last == 0 || (ns - last) as real >= gapNs {
      forall j | 0 <= j < |ticks| ensures SpacedFrom(ticks, j, ns, gapNs) { assert Acted(ticks, j, last); }
    }
    if DueAt(ticks, |ticks|, ns, gapNs) && last != 0 {
      var j :| 0 <= j < |ticks| && ticks[j].acted && ticks[j].ns == last;
      assert SpacedFrom(ticks, j, ns, gapNs);
    }
  }

  lemma LastActedMore(ticks: seq<Tick>, t: Tick, last: int)
    requires LastActed(ticks, last) && t.ns > 0 && last <= t.ns
    ensures LastActed(ticks + [t], if t.acted then t.ns else last)
  {
    var more, now := ticks + [t], if t.acted then t.ns else last;
    forall j | 0 <= j < |more| ensures Acted(more, j, now) { assert j < |ticks| ==> Acted(ticks, j, last); }
    if t.acted {
      assert more[|ticks|].acted;
    } else if last != 0 {
      var j :| 0 <= j < |ticks| && ticks[j].acted && ticks[j].ns == last;
      assert more[j].acted && more[j].ns == last;
    }
  }

  lemma LogAtMore(frames: seq<Frame>, f: Frame, n: nat)
    requires n <= |frames|
    ensures LogAt(frames + [f], n) == LogAt(frames, n)
  {
    assert (frames + [f])[..n] == frames[..n];
  }

  lemma NotedFrame(settings: Settings, frames: seq<Frame>, f: Frame, ticks: seq<Tick>, level: nat,
                   atNs: map<Pair, int>, atLog: map<Pair, nat>)
    requires level <= |settings.shed| && AllNoted(settings, frames, ticks, level, atNs, atLog)
    ensures AllNoted(settings, frames + [f], ticks, level, atNs, atLog)
  {
    var more := frames + [f];
    forall p: nat, k: nat | p < level && ShedBy(ticks, |ticks|, k, p)
      ensures NotedBy(settings, more, ticks, atNs, atLog, p, k) {
      assert NotedBy(settings, frames, ticks, atNs, atLog, p, k);
      LogAtMore(frames, f, ticks[k].frames);
    }
  }

  lemma ShedByBefore(ticks: seq<Tick>, t: Tick, i: nat, k: int, p: nat)
    requires i <= |ticks|
    ensures ShedBy(ticks + [t], i, k, p) <==> ShedBy(ticks, i, k, p)
  {
    var more := ticks + [t];
    assert forall j :: 0 <= j < |ticks| ==> more[j] == ticks[j];
  }

  lemma ShedByMore(ticks: seq<Tick>, t: Tick, k: int, p: nat)
    requires ShedBy(ticks + [t], |ticks| + 1, k, p)
    ensures if k == |ticks| then Sheds(t, p) else ShedBy(ticks, |ticks|, k, p) && !Sheds(t, p)
  {
    var more := ticks + [t];
    assert more[|ticks|] == t && forall j :: 0 <= j < |ticks| ==> more[j] == ticks[j];
  }

  /** Where a pair of the order falls among the ones marked. */
  lemma MarkedPlace<T>(at: map<Pair, T>, order: seq<Pair>, from: nat, upto: nat, x: T, p: nat)
    requires Distinct(order) && from <= |order| && upto <= |order| && p < |order|
    ensures from <= p < upto ==>
              order[p] in Marked(at, order, from, upto, x) && Marked(at, order, from, upto, x)[order[p]] == x
    ensures !(from <= p < upto) && order[p] in at ==>
              order[p] in Marked(at, order, from, upto, x) && Marked(at, order, from, upto, x)[order[p]] == at[order[p]]
  {
    if from < upto {
      var added := order[from..upto];
      if from <= p < upto { assert added[p - from] == order[p]; }
      if !(from <= p < upto) {
        forall j | 0 <= j < |added| ensures added[j] != order[p] {
          if added[j] == order[p] { OnlyOnce(order, from + j, p); }
        }
      }
    }
  }

  lemma NotedTick(settings: Settings, frames: seq<Frame>, ticks: seq<Tick>, t: Tick, atNs: map<Pair, int>,
                  atLog: map<Pair, nat>)
    requires Distinct(settings.shed) && t.before <= |settings.shed| && t.after <= |settings.shed|
             && t.frames == |frames|
    requires AllNoted(settings, frames, ticks, t.before, atNs, atLog)
    ensures AllNoted(settings, frames, ticks + [t], t.after, Marked(atNs, settings.shed, t.before, t.after, t.ns),
                     Marked(atLog, settings.shed, t.before, t.after, |FrameLog(frames)|))
  {
    var more := ticks + [t];
    var ns := Marked(atNs, settings.shed, t.before, t.after, t.ns);
    var logged := Marked(atLog, settings.shed, t.before, t.after, |FrameLog(frames)|);
    forall p: nat, k: nat | p < t.after && ShedBy(more, |more|, k, p)
      ensures NotedBy(settings, frames, more, ns, logged, p, k) {
      ShedByMore(ticks, t, k, p);
      MarkedPlace(atNs, settings.shed, t.before, t.after, t.ns, p);
      MarkedPlace(atLog, settings.shed, t.before, t.after, |FrameLog(frames)|, p);
      if k == |ticks| {
        assert frames[..|frames|] == frames;
      } else {
        assert NotedBy(settings, frames, ticks, atNs, atLog, p, k);
      }
    }
  }

  /** A run stays sound as frames come in, and its earlier steps are not touched by a later one. */
  lemma SoundFrame(settings: Settings, startedNs: int, frames: seq<Frame>, f: Frame, ticks: seq<Tick>, i: nat)
    requires i < |ticks| && TickSound(settings, startedNs, frames, ticks, i)
    ensures TickSound(settings, startedNs, frames + [f], ticks, i)
  {
    LogAtMore(frames, f, ticks[i].frames);
    if ticks[i].before > 0 {
      forall k | ShedBy(ticks, i, k, ticks[i].before - 1) && ticks[k].frames <= |frames|
        ensures LogAt(frames + [f], ticks[k].frames) == LogAt(frames, ticks[k].frames)
      {
        LogAtMore(frames, f, ticks[k].frames);
      }
    }
  }

  lemma SoundBefore(settings: Settings, startedNs: int, frames: seq<Frame>, ticks: seq<Tick>, t: Tick, i: nat)
    requires i < |ticks| && TickSound(settings, startedNs, frames, ticks, i)
    ensures TickSound(settings, startedNs, frames, ticks + [t], i)
  {
    var more := ticks + [t];
    assert forall j :: 0 <= j < |ticks| ==> more[j] == ticks[j];
    DueBefore(ticks, t, i, ticks[i].ns, GapOf(settings));
    if ticks[i].before > 0 {
      var p: nat := ticks[i].before - 1;
      forall k | ShedBy(more, i, k, p) ensures ShedBy(ticks, i, k, p) { ShedByBefore(ticks, t, i, k, p); }
    }
  }

  lemma DueBefore(ticks: seq<Tick>, t: Tick, i: nat, ns: int, gapNs: real)
    requires i <= |ticks|
    ensures DueAt(ticks + [t], i, ns, gapNs) <==> DueAt(ticks, i, ns, gapNs)
  {
    var more := ticks + [t];
    forall j | 0 <= j < i ensures SpacedFrom(more, j, ns, gapNs) == SpacedFrom(ticks, j, ns, gapNs) { }
  }

  lemma {:induction false} LogPrefix(frames: seq<Frame>, n: nat)
    requires n <= |frames|
    ensures LogAt(frames, n) <= FrameLog(frames)
    decreases |frames|
  {
    if n < |frames| {
      var m := |frames| - 1;
      LogPrefix(frames[..m], n);
      assert frames[..m][..n] == frames[..n];
    } else {
      assert frames[..n] == frames;
    }
  }

  /** What a step found and did, in the values it worked with. */
  ghost predicate Took(settings: Settings, startedNs: int, log: seq<Add>, due: bool, t: Tick,
                       gbs: map<Pair, real>, atNs: map<Pair, int>, atLog: map<Pair, nat>, last: int)
  {
    && Decided(settings, log, startedNs, due, t.ns, t.before, t.after)
    && (t.acted <==> t.after != t.before || (due && Over(settings, log, startedNs, t.before, t.ns)))
    && (t.before > 0 ==>
          var p := settings.shed[t.before - 1];
          && RememberedIn(log, startedNs, last, gbs, atNs, atLog, p)
          && (due && Judged(settings, startedNs, t.ns) && !Over(settings, log, startedNs, t.before, t.ns) ==>
                (t.after < t.before <==>
                   Projected(log, startedNs, settings.shed[..t.before], t.ns) + gbs[p]
                   < settings.monthlyGb.value * settings.restoreBelow))
          && (t.after < t.before ==> Fits(settings, log, startedNs, t.ns, t.after, atLog[p])))
  }

  lemma TookReturns(settings: Settings, startedNs: int, frames: seq<Frame>, due: bool, ticks: seq<Tick>, t: Tick,
                    k: nat, gbs: map<Pair, real>, atNs: map<Pair, int>, atLog: map<Pair, nat>, last: int)
    requires Took(settings, startedNs, FrameLog(frames), due, t, gbs, atNs, atLog, last) && t.before > 0
    requires k < |ticks| && NotedBy(settings, frames, ticks, atNs, atLog, t.before - 1, k)
    ensures Returns(settings, startedNs, FrameLog(frames), due, t, LogAt(frames, ticks[k].frames), ticks[k].ns)
  {
    var log, then_ := FrameLog(frames), LogAt(frames, ticks[k].frames);
    LogPrefix(frames, ticks[k].frames);
    assert log[..|then_|] == then_;
  }

  lemma NewTickSound(settings: Settings, startedNs: int, frames: seq<Frame>, ticks: seq<Tick>, t: Tick,
                     gbs: map<Pair, real>, atNs: map<Pair, int>, atLog: map<Pair, nat>, last: int)
    requires t.frames == |frames| && t.before == Level(ticks, |ticks|) <= |settings.shed| && GapOf(settings) > 0.0
    requires LastActed(ticks, last) && AllNoted(settings, frames, ticks, t.before, atNs, atLog)
    requires Took(settings, startedNs, FrameLog(frames),
                  last == 0 || (t.ns - last) as real >= GapOf(settings), t, gbs, atNs, atLog, last)
    ensures TickSound(settings, startedNs, frames, ticks + [t], |ticks|)
  {
    var more, n := ticks + [t], |ticks|;
    var due := last == 0 || (t.ns - last) as real >= GapOf(settings);
    assert frames[..|frames|] == frames && more[n] == t;
    DueIsDueAt(ticks, last, t.ns, GapOf(settings));
    DueBefore(ticks, t, n, t.ns, GapOf(settings));
    assert Level(more, n) == Level(ticks, n);
    if t.before > 0 {
      var p: nat := t.before - 1;
      forall k | ShedBy(more, n, k, p)
        ensures more[k].frames <= |frames|
        ensures Returns(settings, startedNs, FrameLog(frames), due, t, LogAt(frames, more[k].frames), more[k].ns)
      {
        ShedByBefore(ticks, t, n, k, p);
        assert NotedBy(settings, frames, ticks, atNs, atLog, p, k) && more[k] == ticks[k];
        TookReturns(settings, startedNs, frames, due, ticks, t, k, gbs, atNs, atLog, last);
      }
    }
  }

  /** The controller has lived through `frames` and `ticks`. */
  ghost predicate Running(c: BudgetController, frames: seq<Frame>, ticks: seq<Tick>)
    reads c, c.meter
  {
    && c.Valid() && c.meter.log == FrameLog(frames)
    && Lived(c.settings, c.meter.startedNs, frames, ticks, |c.shedActive|, c.lastActionNs, c.shedAtNs, c.shedAtLog)
  }

  /** A sound run that ends with `level` pairs given up, remembered as the two maps say. */
  ghost predicate Lived(settings: Settings, startedNs: int, frames: seq<Frame>, ticks: seq<Tick>,
                        level: nat, last: int, atNs: map<Pair, int>, atLog: map<Pair, nat>)
  {
    && level == Level(ticks, |ticks|) && level <= |settings.shed|
    && LastActed(ticks, last) && AllNoted(settings, frames, ticks, level, atNs, atLog)
    && RunSound(settings, startedNs, frames, ticks)
  }

  lemma LivedFrame(settings: Settings, startedNs: int, frames: seq<Frame>, f: Frame, ticks: seq<Tick>,
                   level: nat, last: int, atNs: map<Pair, int>, atLog: map<Pair, nat>)
    requires Lived(settings, startedNs, frames, ticks, level, last, atNs, atLog)
    ensures Lived(settings, startedNs, frames + [f], ticks, level, last, atNs, atLog)
  {
    var more := frames + [f];
    NotedFrame(settings, frames, f, ticks, level, atNs, atLog);
    forall i | 0 <= i < |ticks| ensures TickSound(settings, startedNs, more, ticks, i) {
      SoundFrame(settings, startedNs, frames, f, ticks, i);
    }
  }

  method HearFrame(c: BudgetController, e: Happening, ghost frames: seq<Frame>, ghost ticks: seq<Tick>)
    requires e.Heard? && Running(c, frames, ticks) && UpTo(c, e.ns)
    modifies c.meter
    ensures Running(c, frames + [Frame(e.tier, e.feed, e.count, MinuteOf(e.ns))], ticks) && UpTo(c, e.ns)
  {
    ghost var f := Frame(e.tier, e.feed, e.count, MinuteOf(e.ns));
    MeterFrame(c.meter, e.tier, e.feed, e.count, e.ns, frames);
    FrameLogMore(frames, f);
    UntilMore(old(c.meter.log), FrameAdds(f), MinuteOf(e.ns));
    c.MeteringKeepsValid();
    LivedFrame(c.settings, c.meter.startedNs, frames, f, ticks, |c.shedActive|, c.lastActionNs, c.shedAtNs,
               c.shedAtLog);
  }

  /** One step, told in the values the controller had before it. */
  method StepTook(c: BudgetController, ns: int, heard: nat, ghost frames: seq<Frame>) returns (t: Tick)
    requires c.Valid() && c.Current(ns, frames)
    modifies c
    ensures c.Valid() && t.ns == ns && t.frames == heard && t.before == |old(c.shedActive)| && t.after == |c.shedActive|
    ensures c.lastActionNs == if t.acted then ns else old(c.lastActionNs)
    ensures c.shedAtNs == Marked(old(c.shedAtNs), c.settings.shed, t.before, t.after, ns)
    ensures c.shedAtLog == Marked(old(c.shedAtLog), c.settings.shed, t.before, t.after, |c.meter.log|)
    ensures Took(c.settings, c.meter.startedNs, c.meter.log, old(c.Due(ns)), t, old(c.shedGb), old(c.shedAtNs),
                 old(c.shedAtLog), old(c.lastActionNs))
  {
    var before, due := |c.shedActive|, c.Due(ns);
    assert c.shedActive == c.settings.shed[..before];
    if before > 0 { c.RememberedHere(before - 1); }
    var changed := c.Step(ns, frames);
    var over := due && c.settings.monthlyGb.Some? && c.projectedGb.Some?
      && c.projectedGb.value > c.settings.monthlyGb.value;
    t := Tick(ns, heard, before, |c.shedActive|, changed || over);
  }

  lemma LivedStep(settings: Settings, startedNs: int, frames: seq<Frame>, ticks: seq<Tick>, t: Tick, due: bool,
                  gbs: map<Pair, real>, atNs: map<Pair, int>, atLog: map<Pair, nat>, last: int)
    requires Lived(settings, startedNs, frames, ticks, t.before, last, atNs, atLog)
    requires t.frames == |frames| && GapOf(settings) > 0.0 && Distinct(settings.shed) && t.ns > 0 && last <= t.ns
    requires due <==> last == 0 || (t.ns - last) as real >= GapOf(settings)
    requires Took(settings, startedNs, FrameLog(frames), due, t, gbs, atNs, atLog, last)
    ensures Lived(settings, startedNs, frames, ticks + [t], t.after, if t.acted then t.ns else last,
                  Marked(atNs, settings.shed, t.before, t.after, t.ns),
                  Marked(atLog, settings.shed, t.before, t.after, |FrameLog(frames)|))
  {
    LastActedMore(ticks, t, last);
    NotedTick(settings, frames, ticks, t, atNs, atLog);
    NewTickSound(settings, startedNs, frames, ticks, t, gbs, atNs, atLog, last);
    var more := ticks + [t];
    forall i | 0 <= i < |more| ensures TickSound(settings, startedNs, frames, more, i) {
      if i < |ticks| { SoundBefore(settings, startedNs, frames, ticks, t, i); }
    }
  }

  method TakeStep(c: BudgetController, ns: int, heard: nat, ghost frames: seq<Frame>, ghost ticks: seq<Tick>)
    returns (t: Tick)
    requires Running(c, frames, ticks) && ns > 0 && UpTo(c, ns) && heard == |frames|
    modifies c
    ensures Running(c, frames, ticks + [t]) && t.ns == ns && t.frames == heard && UpTo(c, ns)
  {
    ghost var due := c.Due(ns);
    t := StepTook(c, ns, heard, frames);
    LivedStep(c.settings, c.meter.startedNs, frames, ticks, t, due, old(c.shedGb), old(c.shedAtNs), old(c.shedAtLog),
              old(c.lastActionNs));
  }

  /** Everything heard so far is no later than `ns`, and so is the last action. */
  ghost predicate UpTo(c: BudgetController, ns: int)
    reads c, c.meter
  {
    c.lastActionNs <= ns && Until(c.meter.log, MinuteOf(ns))
  }

  lemma StillUpTo(c: BudgetController, ns: int, later: int)
    requires UpTo(c, ns) && ns <= later
    ensures UpTo(c, later)
  {
    assert MinuteOf(ns) <= MinuteOf(later);
    forall i | 0 <= i < |c.meter.log| ensures NoLater(c.meter.log, i, MinuteOf(later)) {
      assert NoLater(c.meter.log, i, MinuteOf(ns));
    }
  }

  lemma EventsMore(events: seq<Happening>, n: nat)
    requires n < |events|
    ensures var e := events[n];
            && FramesOf(events[..n + 1]) == FramesOf(events[..n])
               + (if e.Heard? then [Frame(e.tier, e.feed, e.count, MinuteOf(e.ns))] else [])
            && PlacesOf(events[..n + 1]) == PlacesOf(events[..n])
              + (if e.Asked? then [(e.ns, |FramesOf(events[..n])|)] else [])
  {
    assert events[..n + 1][..n] == events[..n];
  }

  lemma PlacesMore(ticks: seq<Tick>, t: Tick)
    ensures Places(ticks + [t]) == Places(ticks) + [(t.ns, t.frames)]
  {
  }

  /** A recorder's whole life, frames and steps in any order that time allows. What is given up is always the first
      so many pairs of the configured order, and every step of the run is sound. */
  method Operate(settings: Settings, startedNs: int, events: seq<Happening>) returns (ticks: seq<Tick>, shed: seq<Pair>)
    requires Distinct(settings.shed) && settings.actEveryMinutes > 0.0 && InTurn(events)
    ensures Places(ticks) == PlacesOf(events)
    ensures RunSound(settings, startedNs, FramesOf(events), ticks)
    ensures Level(ticks, |ticks|) <= |settings.shed| && shed == settings.shed[..Level(ticks, |ticks|)]
  {
    var meter := new ByteMeter(startedNs);
    var c := new BudgetController(settings, meter);
    ticks := [];
    var heard := 0;
    for n := 0 to |events|
      invariant fresh(meter) && fresh(c) && c.meter == meter && c.settings == settings && meter.startedNs == startedNs
      invariant Running(c, FramesOf(events[..n]), ticks)
      invariant heard == |FramesOf(events[..n])| && Places(ticks) == PlacesOf(events[..n])
      invariant n < |events| ==> UpTo(c, events[n].ns)
    {
      var e := events[n];
      ghost var frames := FramesOf(events[..n]);
      EventsMore(events, n);
      if e.Heard? {
        HearFrame(c, e, frames, ticks);
        heard := heard + 1;
      } else {
        var t := TakeStep(c, e.ns, heard, frames, ticks);
        assert FramesOf(events[..n + 1]) == frames;
        PlacesMore(ticks, t);
        ticks := ticks + [t];
      }
      if n + 1 < |events| {
        assert NotBefore(events, n, n + 1);
        StillUpTo(c, e.ns, events[n + 1].ns);
      }
    }
    assert events[..|events|] == events;
    shed := c.shedActive;
  }
}
