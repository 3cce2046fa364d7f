/** Bytes received by key over the last day (market_tape/record.py, `ByteMeter`), and how the writer
    feeds it. The log of everything ever added is what the pruned minutes must answer like. */
module Metering {
  import opened Options

  datatype Key = All | OfTier(tier: string) | OfFeed(tier: string, feed: string)

  /** One `add`: so many bytes under a key in a minute. */
  datatype Add = Add(key: Key, count: nat, minute: int)

  datatype Slot = Slot(minute: int, count: nat)

  const MINUTE_NS: int := 60 * 1_000_000_000
  const DAY_NS: int := 24 * 60 * MINUTE_NS
  const DAY_MINUTES: int := 1440

  function MinuteOf(ns: int): int { ns / MINUTE_NS }

  /** Bytes in slots later than `minute`. */
  function SlotsAfter(slots: seq<Slot>, minute: int): nat {
    if slots == [] then 0
    else
      var last := slots[|slots| - 1];
      SlotsAfter(slots[..|slots| - 1], minute) + (if last.minute > minute then last.count else 0)
  }

  /** Bytes ever added under `key` later than `minute`. */
  function LoggedAfter(log: seq<Add>, key: Key, minute: int): nat {
    if log == [] then 0
    else
      var last := log[|log| - 1];
      LoggedAfter(log[..|log| - 1], key, minute) + (if last.key == key && last.minute > minute then last.count else 0)
  }

  /** No add under `key` is more than a day past `minute`. */
  ghost predicate Reaches(log: seq<Add>, key: Key, minute: int) {
    forall i :: 0 <= i < |log| ==> ReachedAt(log, i, key, minute)
  }

  predicate ReachedAt(log: seq<Add>, i: int, key: Key, minute: int)
    requires 0 <= i < |log|
  {
    log[i].key == key ==> log[i].minute - DAY_MINUTES <= minute
  }

  predicate NoLater(log: seq<Add>, i: int, minute: int)
    requires 0 <= i < |log|
  {
    log[i].minute <= minute
  }

  /** Everything was added by `minute`. */
  ghost predicate Until(log: seq<Add>, minute: int) {
    forall i :: 0 <= i < |log| ==> NoLater(log, i, minute)
  }

  lemma UntilReaches(log: seq<Add>, key: Key, minute: int)
    requires Until(log, minute)
    ensures Reaches(log, key, minute - DAY_MINUTES)
  {
    var since := minute - DAY_MINUTES;
    forall i | 0 <= i < |log| ensures ReachedAt(log, i, key, since) { assert NoLater(log, i, minute); }
  }

  lemma UntilMore(log: seq<Add>, more: seq<Add>, minute: int)
    requires Until(log, minute) && forall i :: 0 <= i < |more| ==> more[i].minute <= minute
    ensures Until(log + more, minute)
  {
    var all := log + more;
    forall i | 0 <= i < |all| ensures NoLater(all, i, minute) { assert i < |log| ==> NoLater(log, i, minute); }
  }

  lemma {:induction false} DropOldest(slots: seq<Slot>, minute: int)
    requires slots != [] && slots[0].minute <= minute
    ensures SlotsAfter(slots[1..], minute) == SlotsAfter(slots, minute)
  {
    if |slots| > 1 {
      DropOldest(slots[..|slots| - 1], minute);
      assert slots[1..][..|slots| - 2] == slots[..|slots| - 1][1..];
    }
  }

  /** The slots answer like the log for every minute the log does not run a day past. */
  ghost predicate Answers(slots: seq<Slot>, log: seq<Add>, key: Key) {
    forall m {:trigger SlotsAfter(slots, m)} :: Reaches(log, key, m) ==>
        SlotsAfter(slots, m) == LoggedAfter(log, key, m)
  }

  /** Minutes rise and span less than a day, so there are at most 1440. */
  ghost predicate Tidy(slots: seq<Slot>) {
    && Rises(slots)
    && (slots != [] ==> slots[|slots| - 1].minute - slots[0].minute < DAY_MINUTES)
  }

  ghost predicate Rises(slots: seq<Slot>) {
    forall i, j :: 0 <= i < j < |slots| ==> slots[i].minute < slots[j].minute
  }

  ghost predicate InTime(slots: seq<Slot>, minute: int) {
    Rises(slots) && (slots != [] ==> slots[|slots| - 1].minute <= minute)
  }

  lemma {:induction false} RisingSpan(slots: seq<Slot>)
    requires Rises(slots)
    ensures slots != [] ==> |slots| - 1 <= slots[|slots| - 1].minute - slots[0].minute
  {
    if |slots| > 1 { RisingSpan(slots[..|slots| - 1]); }
  }

  lemma TidyIsShort(slots: seq<Slot>)
    requires Tidy(slots)
    ensures |slots| <= DAY_MINUTES
  {
    RisingSpan(slots);
  }

  function SlotsIn(minutes: map<Key, seq<Slot>>, key: Key): seq<Slot> {
    if key in minutes then minutes[key] else []
  }

  /** Every key's slots answer like the log. */
  ghost predicate AllAnswer(minutes: map<Key, seq<Slot>>, log: seq<Add>) {
    forall key: Key {:trigger SlotsIn(minutes, key)} :: Answers(SlotsIn(minutes, key), log, key)
  }

  predicate NotLater(log: seq<Add>, i: int, j: int)
    requires 0 <= i < j < |log|
  {
    log[i].minute <= log[j].minute
  }

  /** Adds came in nondecreasing time. */
  ghost predicate InOrder(log: seq<Add>) {
    forall i, j :: 0 <= i < j < |log| ==> NotLater(log, i, j)
  }

  /** Tidy slots, the newest no later than the newest add. */
  ghost predicate TidyTo(slots: seq<Slot>, log: seq<Add>) {
    Tidy(slots) && (slots != [] ==> log != [] && slots[|slots| - 1].minute <= log[|log| - 1].minute)
  }

  ghost predicate AllTidy(minutes: map<Key, seq<Slot>>, log: seq<Add>) {
    forall key: Key {:trigger SlotsIn(minutes, key)} :: TidyTo(SlotsIn(minutes, key), log)
  }

  lemma AnswersMore(minutes: map<Key, seq<Slot>>, log: seq<Add>, add: Add, trimmed: seq<Slot>)
    requires AllAnswer(minutes, log) && Answers(trimmed, log + [add], add.key)
    ensures AllAnswer(minutes[add.key := trimmed], log + [add])
  {
    var after := minutes[add.key := trimmed];
    forall key: Key ensures Answers(SlotsIn(after, key), log + [add], key) {
      if key != add.key {
        assert Answers(SlotsIn(minutes, key), log, key);
        OtherAnswers(SlotsIn(minutes, key), log, key, add);
      }
    }
  }

  lemma TidyMore(minutes: map<Key, seq<Slot>>, log: seq<Add>, add: Add, trimmed: seq<Slot>)
    requires AllTidy(minutes, log) && (log != [] ==> log[|log| - 1].minute <= add.minute)
    requires Tidy(trimmed) && trimmed != [] && trimmed[|trimmed| - 1].minute == add.minute
    ensures AllTidy(minutes[add.key := trimmed], log + [add])
  {
    var after := minutes[add.key := trimmed];
    forall key: Key ensures TidyTo(SlotsIn(after, key), log + [add]) {
      if key != add.key { assert TidyTo(SlotsIn(minutes, key), log); }
    }
  }

  lemma InOrderBefore(log: seq<Add>, add: Add)
    requires InOrder(log + [add])
    ensures InOrder(log) && (log != [] ==> log[|log| - 1].minute <= add.minute)
  {
    var more := log + [add];
    forall i, j | 0 <= i < j < |log| ensures NotLater(log, i, j) { assert NotLater(more, i, j); }
    if log != [] { assert NotLater(more, |log| - 1, |log|); }
  }

  /** How much of the last day a meter started at `startedNs` has seen. */
  function WindowAt(startedNs: int, nowNs: int): int {
    var seen := if nowNs - startedNs < DAY_NS then nowNs - startedNs else DAY_NS;
    if seen > 0 then seen else 0
  }

  class ByteMeter {
    const startedNs: int
    var totals: map<Key, nat>
    var minutes: map<Key, seq<Slot>>
    ghost var log: seq<Add>

    function Slots(key: Key): seq<Slot>
      reads this
    {
      SlotsIn(minutes, key)
    }

    ghost predicate Valid()
      reads this
    {
      AllAnswer(minutes, log) && (InOrder(log) ==> AllTidy(minutes, log))
    }

    constructor (startedNs: int)
      ensures Valid() && log == [] && this.startedNs == startedNs && minutes == map[]
    {
      this.startedNs := startedNs;
      totals, minutes, log := map[], map[], [];
    }

    method Record(key: Key, count: nat, nowNs: int)
      requires Valid()
      modifies this
      ensures Valid() && log == old(log) + [Add(key, count, MinuteOf(nowNs))]
      ensures totals == old(totals)[key := (if key in old(totals) then old(totals)[key] else 0) + count]
      ensures forall other :: other != key ==> Slots(other) == old(Slots(other))
      ensures Slots(key) != [] && Slots(key)[|Slots(key)| - 1].minute == MinuteOf(nowNs)
      ensures InTime(old(Slots(key)), MinuteOf(nowNs)) ==> Tidy(Slots(key))
    {
      var minute := MinuteOf(nowNs);
      ghost var add := Add(key, count, minute);
      var slots := Slots(key);
      assert Answers(slots, log, key);
      AddAnswers(slots, log, add);
      var trimmed := Trim(WithCount(slots, count, minute), minute, log + [add], key);
      if InTime(slots, minute) { StillRises(slots, count, minute); }
      AnswersMore(minutes, log, add, trimmed);
      if InOrder(log + [add]) {
        InOrderBefore(log, add);
        assert TidyTo(slots, log);
        TidyMore(minutes, log, add, trimmed);
      }
      totals := totals[key := (if key in totals then totals[key] else 0) + count];
      minutes := minutes[key := trimmed];
      log := log + [add];
    }

    /** After any adds in nondecreasing time, a key keeps at most a day of minutes. */
    lemma SlotsAreFew(key: Key)
      requires Valid() && InOrder(log)
      ensures |Slots(key)| <= DAY_MINUTES
    {
      assert TidyTo(SlotsIn(minutes, key), log);
      TidyIsShort(Slots(key));
    }

    /** Bytes of the last day. */
    function LastDay(key: Key, nowNs: int): nat
      reads this
    {
      SlotsAfter(Slots(key), MinuteOf(nowNs) - DAY_MINUTES)
    }

    /** The pruned slots tell exactly what the whole log would, at any time not before the key's latest add. */
    lemma LastDayIsExact(key: Key, nowNs: int)
      requires Valid()
      requires Reaches(log, key, MinuteOf(nowNs) - DAY_MINUTES)
      ensures LastDay(key, nowNs) == LoggedAfter(log, key, MinuteOf(nowNs) - DAY_MINUTES)
    {
      assert Answers(SlotsIn(minutes, key), log, key);
    }
  }

  /** Any adds one after the other: nothing forgotten inside a day, and bounded slots while time does not go back. */
  method RecordAll(startedNs: int, adds: seq<Add>) returns (minutes: map<Key, seq<Slot>>)
    ensures AllAnswer(minutes, adds)
    ensures InOrder(adds) ==> forall key: Key {:trigger SlotsIn(minutes, key)} :: |SlotsIn(minutes, key)| <= DAY_MINUTES
  {
    var meter := new ByteMeter(startedNs);
    for i := 0 to |adds|
      invariant fresh(meter) && meter.Valid() && meter.log == adds[..i]
    {
      assert adds[..i + 1] == adds[..i] + [adds[i]];
      MinuteStart(adds[i].minute);
      meter.Record(adds[i].key, adds[i].count, adds[i].minute * MINUTE_NS);
    }
    assert adds[..|adds|] == adds;
    minutes := meter.minutes;
    if InOrder(adds) {
      forall key: Key ensures |SlotsIn(minutes, key)| <= DAY_MINUTES { meter.SlotsAreFew(key); }
    }
  }

  lemma MinuteStart(minute: int)
    ensures MinuteOf(minute * MINUTE_NS) == minute
  {
  }

  /** Into the newest slot when it is this minute's, else a new one. */
  function WithCount(slots: seq<Slot>, count: nat, minute: int): seq<Slot> {
    if slots != [] && slots[|slots| - 1].minute == minute
    then slots[..|slots| - 1] + [Slot(minute, slots[|slots| - 1].count + count)]
    else slots + [Slot(minute, count)]
  }

  lemma StillRises(slots: seq<Slot>, count: nat, minute: int)
    requires InTime(slots, minute)
    ensures Rises(WithCount(slots, count, minute))
  {
  }

  /** Let go of slots a day old. */
  method Trim(slots: seq<Slot>, minute: int, ghost log: seq<Add>, ghost key: Key) returns (bucket: seq<Slot>)
    requires Answers(slots, log, key) && slots != [] && slots[|slots| - 1].minute == minute
    requires log != [] && log[|log| - 1].key == key && log[|log| - 1].minute == minute
    ensures Answers(bucket, log, key) && bucket != [] && bucket[|bucket| - 1].minute == minute
    ensures Rises(slots) ==> Tidy(bucket)
  {
    bucket := slots;
    while bucket != [] && bucket[0].minute <= minute - DAY_MINUTES
      invariant Answers(bucket, log, key)
      invariant bucket != [] && bucket[|bucket| - 1].minute == minute
      invariant Rises(slots) ==> Rises(bucket)
    {
      DropAnswers(bucket, log, key, minute);
      bucket := bucket[1..];
    }
  }

  lemma ReachesBefore(log: seq<Add>, add: Add, key: Key, m: int)
    requires Reaches(log + [add], key, m)
    ensures Reaches(log, key, m) && (add.key == key ==> add.minute - DAY_MINUTES <= m)
  {
    var more := log + [add];
    forall i | 0 <= i < |log| ensures ReachedAt(log, i, key, m) { assert ReachedAt(more, i, key, m); }
    assert ReachedAt(more, |log|, key, m);
  }

  lemma AddAnswers(was: seq<Slot>, log: seq<Add>, add: Add)
    requires Answers(was, log, add.key)
    ensures Answers(WithCount(was, add.count, add.minute), log + [add], add.key)
  {
    var bucket := WithCount(was, add.count, add.minute);
    var more := log + [add];
    assert more[..|log|] == log;
    forall m | Reaches(more, add.key, m)
      ensures SlotsAfter(bucket, m) == LoggedAfter(more, add.key, m)
    {
      ReachesBefore(log, add, add.key, m);
      assert SlotsAfter(was, m) == LoggedAfter(log, add.key, m);
      assert bucket[..|bucket| - 1] == was || bucket[..|bucket| - 1] == was[..|was| - 1];
    }
  }

  lemma DropAnswers(bucket: seq<Slot>, log: seq<Add>, key: Key, minute: int)
    requires Answers(bucket, log, key) && bucket != [] && bucket[0].minute <= minute - DAY_MINUTES
    requires exists i :: 0 <= i < |log| && log[i].key == key && log[i].minute == minute
    ensures Answers(bucket[1..], log, key)
  {
    var i :| 0 <= i < |log| && log[i].key == key && log[i].minute == minute;
    forall m | Reaches(log, key, m)
      ensures SlotsAfter(bucket[1..], m) == LoggedAfter(log, key, m)
    {
      assert ReachedAt(log, i, key, m);
      assert SlotsAfter(bucket, m) == LoggedAfter(log, key, m);
      DropOldest(bucket, m);
    }
  }

  lemma OtherAnswers(slots: seq<Slot>, log: seq<Add>, key: Key, add: Add)
    requires Answers(slots, log, key) && add.key != key
    ensures Answers(slots, log + [add], key)
  {
    var more := log + [add];
    assert more[..|log|] == log;
    forall m | Reaches(more, key, m)
      ensures SlotsAfter(slots, m) == LoggedAfter(more, key, m)
    {
      ReachesBefore(log, add, key, m);
    }
  }

  // ------------------------------------------------------ what the writer meters

  /** A frame off the wire; without a feed when the disk gate kept it from being read. */
  datatype Frame = Frame(tier: string, feed: Option<string>, count: nat, minute: int)

  function FrameAdds(f: Frame): seq<Add> {
    [Add(All, f.count, f.minute), Add(OfTier(f.tier), f.count, f.minute)]
    + (if f.feed.Some? then [Add(OfFeed(f.tier, f.feed.value), f.count, f.minute)] else [])
  }

  function FrameLog(frames: seq<Frame>): seq<Add> {
    if frames == [] then [] else FrameLog(frames[..|frames| - 1]) + FrameAdds(frames[|frames| - 1])
  }

  method MeterFrame(meter: ByteMeter, tier: string, feed: Option<string>, count: nat, nowNs: int,
                    ghost frames: seq<Frame>)
    requires meter.Valid() && meter.log == FrameLog(frames)
    modifies meter
    ensures meter.Valid() && meter.log == FrameLog(frames + [Frame(tier, feed, count, MinuteOf(nowNs))])
  {
    ghost var f := Frame(tier, feed, count, MinuteOf(nowNs));
    meter.Record(All, count, nowNs);
    meter.Record(OfTier(tier), count, nowNs);
    if feed.Some? {
      meter.Record(OfFeed(tier, feed.value), count, nowNs);
    }
    FrameLogMore(frames, f);
    FrameAddsInTurn(FrameLog(frames), f);
  }

  lemma FrameLogMore(frames: seq<Frame>, f: Frame)
    ensures FrameLog(frames + [f]) == FrameLog(frames) + FrameAdds(f)
  {
    assert (frames + [f])[..|frames|] == frames;
  }

  lemma FrameAddsInTurn(log: seq<Add>, f: Frame)
    ensures var two := log + [Add(All, f.count, f.minute)] + [Add(OfTier(f.tier), f.count, f.minute)];
            log + FrameAdds(f)
            == if f.feed.None? then two else two + [Add(OfFeed(f.tier, f.feed.value), f.count, f.minute)]
  {
  }

  lemma {:induction false} LoggedApart(a: seq<Add>, b: seq<Add>, key: Key, minute: int)
    ensures LoggedAfter(a + b, key, minute) == LoggedAfter(a, key, minute) + LoggedAfter(b, key, minute)
  {
    if b == [] {
      assert a + b == a;
    } else {
      LoggedApart(a, b[..|b| - 1], key, minute);
      assert (a + b)[..|a + b| - 1] == a + b[..|b| - 1];
    }
  }

  /** One frame's bytes under a key. */
  function FrameAfter(f: Frame, key: Key, minute: int): nat {
    if f.minute <= minute then 0
    else match key
         case All => f.count
         case OfTier(t) => if t == f.tier then f.count else 0
         case OfFeed(t, d) => if t == f.tier && f.feed == Some(d) then f.count else 0
  }

  lemma FrameAddsAfter(f: Frame, key: Key, minute: int)
    ensures LoggedAfter(FrameAdds(f), key, minute) == FrameAfter(f, key, minute)
  {
    var adds := FrameAdds(f);
    assert adds[..2][..1] == adds[..1] && adds[..1][..0] == [];
    assert LoggedAfter(adds[..1], key, minute) == LoggedAfter([], key, minute)
           + (if adds[0].key == key && f.minute > minute then f.count else 0);
    assert LoggedAfter(adds[..2], key, minute) == LoggedAfter(adds[..1], key, minute)
           + (if adds[1].key == key && f.minute > minute then f.count else 0);
    if |adds| == 2 {
      assert adds[..2] == adds;
    } else {
      assert LoggedAfter(adds, key, minute) == LoggedAfter(adds[..2], key, minute)
             + (if adds[2].key == key && f.minute > minute then f.count else 0);
    }
  }

  /** The bytes under several keys together. */
  function LoggedTogether(log: seq<Add>, keys: seq<Key>, minute: int): nat {
    if keys == [] then 0
    else LoggedTogether(log, keys[..|keys| - 1], minute) + LoggedAfter(log, keys[|keys| - 1], minute)
  }

  ghost predicate DistinctFeeds(keys: seq<Key>) {
    && (forall i :: 0 <= i < |keys| ==> keys[i].OfFeed?)
    && (forall i, j :: 0 <= i < j < |keys| ==> keys[i] != keys[j])
  }

  function FrameTogether(f: Frame, keys: seq<Key>, minute: int): nat {
    if keys == [] then 0 else FrameTogether(f, keys[..|keys| - 1], minute) + FrameAfter(f, keys[|keys| - 1], minute)
  }

  lemma {:induction false} TogetherByFrame(frames: seq<Frame>, keys: seq<Key>, minute: int)
    requires frames != []
    ensures LoggedTogether(FrameLog(frames), keys, minute)
         == LoggedTogether(FrameLog(frames[..|frames| - 1]), keys, minute)
           + FrameTogether(frames[|frames| - 1], keys, minute)
  {
    if keys != [] {
      var n := |frames| - 1;
      TogetherByFrame(frames, keys[..|keys| - 1], minute);
      LoggedApart(FrameLog(frames[..n]), FrameAdds(frames[n]), keys[|keys| - 1], minute);
      FrameAddsAfter(frames[n], keys[|keys| - 1], minute);
    }
  }

  /** A frame belongs to one feed at most. */
  lemma {:induction false} FrameOnce(f: Frame, keys: seq<Key>, minute: int)
    requires DistinctFeeds(keys)
    ensures FrameTogether(f, keys, minute) <= FrameAfter(f, All, minute)
    ensures f.feed.None? || OfFeed(f.tier, f.feed.value) !in keys ==> FrameTogether(f, keys, minute) == 0
  {
    if keys != [] {
      var n := |keys| - 1;
      FrameOnce(f, keys[..n], minute);
      if f.feed.Some? && keys[n] == OfFeed(f.tier, f.feed.value) {
        forall i | 0 <= i < n
          ensures keys[..n][i] != keys[n]
        {
        }
      } else {
        assert FrameAfter(f, keys[n], minute) == 0;
      }
    }
  }

  /** Distinct feeds never add up to more than everything received. */
  lemma {:induction false} FeedsWithinAll(frames: seq<Frame>, keys: seq<Key>, minute: int)
    requires DistinctFeeds(keys)
    ensures LoggedTogether(FrameLog(frames), keys, minute) <= LoggedAfter(FrameLog(frames), All, minute)
  {
    if frames == [] {
      NothingLogged(keys, minute);
    } else {
      var n := |frames| - 1;
      FeedsWithinAll(frames[..n], keys, minute);
      TogetherByFrame(frames, keys, minute);
      FrameOnce(frames[n], keys, minute);
      LoggedApart(FrameLog(frames[..n]), FrameAdds(frames[n]), All, minute);
      FrameAddsAfter(frames[n], All, minute);
    }
  }

  lemma {:induction false} NothingLogged(keys: seq<Key>, minute: int)
    ensures LoggedTogether([], keys, minute) == 0
  {
    if keys != [] { NothingLogged(keys[..|keys| - 1], minute); }
  }

  /** A key nothing was added to since `n` carries no more bytes at a later minute than it did then. */
  lemma {:induction false} QuietShrinks(log: seq<Add>, n: nat, key: Key, minute: int, later: int)
    requires n <= |log| && minute <= later
    requires forall i :: n <= i < |log| ==> log[i].key != key
    ensures LoggedAfter(log, key, later) <= LoggedAfter(log[..n], key, minute)
    decreases |log|
  {
    if log != [] {
      var m := |log| - 1;
      if n <= m {
        QuietShrinks(log[..m], n, key, minute, later);
        assert log[..m][..n] == log[..n];
      } else {
        assert log[..n] == log;
        QuietShrinks(log[..m], m, key, minute, later);
        assert log[..m][..m] == log[..m];
      }
    }
  }
}
