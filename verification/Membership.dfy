/** Which symbols a universe tier holds (market_tape/record.py, `_ranked` and `_sticky`), against closed
    forms over the whole history of resolutions. Nothing is assumed of the clock. */
module Membership {
  /** Symbols are numbered in sort order. */
  datatype Symbol = Symbol(order: nat)

  // --------------------------------------------------------------- qualification stamps

  /** One pass over the stamps: who qualified, and who is listed (`known` is false while no
      instrument table has been seen). */
  datatype Pass = Pass(now: int, hits: set<Symbol>, listed: set<Symbol>, known: bool)

  predicate Lapsed(stamp: int, s: Symbol, p: Pass, sticky: nat) {
    p.now - stamp >= sticky || (p.known && s !in p.listed)
  }

  ghost predicate LastHit(passes: seq<Pass>, m: int, s: Symbol) {
    0 <= m < |passes| && s in passes[m].hits && forall j :: m < j < |passes| ==> s !in passes[j].hits
  }

  ghost predicate HeldSince(passes: seq<Pass>, sticky: nat, m: int, s: Symbol)
    requires 0 <= m < |passes|
  {
    forall j :: m <= j < |passes| ==> !Lapsed(passes[m].now, s, passes[j], sticky)
  }

  /** Qualified some time, and neither ran out nor was delisted at any pass since the last time. */
  ghost predicate Alive(passes: seq<Pass>, sticky: nat, s: Symbol) {
    exists m :: LastHit(passes, m, s) && HeldSince(passes, sticky, m, s)
  }

  /** The stamps are the times of the last qualification of the symbols still alive. */
  ghost predicate Stamped(passes: seq<Pass>, sticky: nat, stamps: map<Symbol, int>) {
    && (forall s :: s in stamps <==> Alive(passes, sticky, s))
    && (forall s, m :: s in stamps && LastHit(passes, m, s) ==> stamps[s] == passes[m].now)
  }

  function Marked(stamps: map<Symbol, int>, now: int, hits: set<Symbol>): map<Symbol, int> {
    map s | s in stamps.Keys + hits :: if s in hits then now else stamps[s]
  }

  function Swept(stamps: map<Symbol, int>, p: Pass, sticky: nat): map<Symbol, int> {
    map s | s in stamps && !Lapsed(stamps[s], s, p, sticky) :: stamps[s]
  }

  lemma StampHit(passes: seq<Pass>, sticky: nat, p: Pass, s: Symbol)
    requires s in p.hits
    ensures forall m :: LastHit(passes + [p], m, s) <==> m == |passes|
    ensures Alive(passes + [p], sticky, s) <==> !Lapsed(p.now, s, p, sticky)
  {
    var more := passes + [p];
    forall m | LastHit(more, m, s) ensures m == |passes| {
      assert more[|passes|] == p;
    }
    assert LastHit(more, |passes|, s);
    assert HeldSince(more, sticky, |passes|, s) <==> !Lapsed(p.now, s, p, sticky);
  }

  lemma StampMiss(passes: seq<Pass>, sticky: nat, p: Pass, s: Symbol)
    requires s !in p.hits
    ensures forall m :: LastHit(passes + [p], m, s) <==> LastHit(passes, m, s)
    ensures forall m :: 0 <= m < |passes| ==>
              (HeldSince(passes + [p], sticky, m, s) <==>
                HeldSince(passes, sticky, m, s) && !Lapsed(passes[m].now, s, p, sticky))
  {
    var more := passes + [p];
    assert more[|passes|] == p;
    forall m | LastHit(more, m, s) ensures LastHit(passes, m, s) {
      assert forall j :: m < j < |passes| ==> more[j] == passes[j];
    }
    forall m | 0 <= m < |passes| && HeldSince(more, sticky, m, s)
      ensures HeldSince(passes, sticky, m, s) && !Lapsed(passes[m].now, s, p, sticky) {
      assert forall j :: m <= j < |passes| ==> more[j] == passes[j];
    }
  }

  lemma StampStep(passes: seq<Pass>, sticky: nat, stamps: map<Symbol, int>, p: Pass)
    requires Stamped(passes, sticky, stamps)
    ensures Stamped(passes + [p], sticky, Swept(Marked(stamps, p.now, p.hits), p, sticky))
  {
    var after := Swept(Marked(stamps, p.now, p.hits), p, sticky);
    forall s
      ensures s in after <==> Alive(passes + [p], sticky, s)
      ensures forall m :: s in after && LastHit(passes + [p], m, s) ==> after[s] == (passes + [p])[m].now
    {
      if s in p.hits {
        StampHit(passes, sticky, p, s);
      } else {
        StampMiss(passes, sticky, p, s);
        StampKept(passes, sticky, stamps, p, s);
      }
    }
  }

  lemma StampKept(passes: seq<Pass>, sticky: nat, stamps: map<Symbol, int>, p: Pass, s: Symbol)
    requires Stamped(passes, sticky, stamps) && s !in p.hits
    ensures s in stamps && !Lapsed(stamps[s], s, p, sticky) <==> Alive(passes + [p], sticky, s)
  {
    StampMiss(passes, sticky, p, s);
    if s in stamps {
      var m :| LastHit(passes, m, s) && HeldSince(passes, sticky, m, s);
      assert stamps[s] == passes[m].now;
      if !Lapsed(stamps[s], s, p, sticky) {
        assert LastHit(passes + [p], m, s) && HeldSince(passes + [p], sticky, m, s);
      }
    }
    if Alive(passes + [p], sticky, s) {
      var m :| LastHit(passes + [p], m, s) && HeldSince(passes + [p], sticky, m, s);
      assert LastHit(passes, m, s) && HeldSince(passes, sticky, m, s);
    }
  }

  /** Under a clock that never goes back, a symbol is alive exactly while it stayed listed and the
      floor after some qualification has not run out. */
  lemma AliveInPlainTerms(passes: seq<Pass>, sticky: nat, s: Symbol)
    requires passes != [] && forall i, j :: 0 <= i < j < |passes| ==> passes[i].now <= passes[j].now
    ensures Alive(passes, sticky, s) <==>
            exists m :: 0 <= m < |passes| && s in passes[m].hits && passes[|passes| - 1].now - passes[m].now < sticky
                        && forall j :: m <= j < |passes| ==> passes[j].known ==> s in passes[j].listed
  {
    var n := |passes|;
    if Alive(passes, sticky, s) {
      var m :| LastHit(passes, m, s) && HeldSince(passes, sticky, m, s);
      assert !Lapsed(passes[m].now, s, passes[n - 1], sticky);
      assert forall j :: m <= j < n ==> !Lapsed(passes[m].now, s, passes[j], sticky);
    }
    if m :| 0 <= m < n && s in passes[m].hits && passes[n - 1].now - passes[m].now < sticky
            && forall j :: m <= j < n ==> passes[j].known ==> s in passes[j].listed
    {
      var last := FindLastHit(passes, m, s);
      assert passes[m].now <= passes[last].now;
      forall j | last <= j < n ensures !Lapsed(passes[last].now, s, passes[j], sticky) {
        assert passes[j].now <= passes[n - 1].now;
      }
      assert HeldSince(passes, sticky, last, s);
    }
  }

  lemma {:induction false} FindLastHit(passes: seq<Pass>, m: nat, s: Symbol) returns (last: nat)
    requires m < |passes| && s in passes[m].hits
    ensures m <= last && LastHit(passes, last, s)
    decreases |passes| - m
  {
    last := m;
    if j :| m < j < |passes| && s in passes[j].hits {
      last := FindLastHit(passes, j, s);
    }
  }

  method MarkHits(stamps: map<Symbol, int>, now: int, hits: set<Symbol>) returns (after: map<Symbol, int>)
    ensures after == Marked(stamps, now, hits)
  {
    after := stamps;
    var todo := hits;
    while todo != {}
      invariant todo <= hits
      invariant after == Marked(stamps, now, hits - todo)
      decreases |todo|
    {
      var s :| s in todo;
      after := after[s := now];
      todo := todo - {s};
    }
    assert hits - {} == hits;
  }

  method DropLapsed(stamps: map<Symbol, int>, p: Pass, sticky: nat) returns (after: map<Symbol, int>)
    ensures after == Swept(stamps, p, sticky)
  {
    after := stamps;
    var todo := stamps.Keys;
    while todo != {}
      invariant todo <= stamps.Keys
      invariant after == map s | s in stamps && (s in todo || !Lapsed(stamps[s], s, p, sticky)) :: stamps[s]
      decreases |todo|
    {
      var s :| s in todo;
      if Lapsed(after[s], s, p, sticky) {
        after := after - {s};
      }
      todo := todo - {s};
    }
  }

  /** A tier of a sticky kind: it holds what qualified within the window and stayed listed. */
  class StickyTier {
    const sticky: nat
    var stamps: map<Symbol, int>
    ghost var passes: seq<Pass>

    ghost predicate Valid() reads this { Stamped(passes, sticky, stamps) }

    constructor (sticky: nat)
      ensures Valid() && passes == [] && this.sticky == sticky
    {
      this.sticky, stamps, passes := sticky, map[], [];
    }

    method Resolve(p: Pass) returns (members: set<Symbol>)
      requires Valid()
      modifies this
      ensures Valid() && passes == old(passes) + [p]
      ensures forall s :: s in members <==> Alive(passes, sticky, s)
    {
      var marked := MarkHits(stamps, p.now, p.hits);
      var swept := DropLapsed(marked, p, sticky);
      StampStep(passes, sticky, stamps, p);
      stamps, passes := swept, passes + [p];
      members := stamps.Keys;
    }
  }

  // ------------------------------------------------------------------------ ranking

  /** What one resolution of a ranked tier sees: the live symbols with a measure, and who is allowed. */
  datatype Tick = Tick(now: int, scores: map<Symbol, real>, allowed: set<Symbol>)

  function Names(t: Tick): set<Symbol> { set s | s in t.scores && s in t.allowed }

  predicate Better(t: Tick, a: Symbol, b: Symbol)
    requires a in t.scores && b in t.scores
  {
    t.scores[a] > t.scores[b] || (t.scores[a] == t.scores[b] && a.order < b.order)
  }

  function Ahead(t: Tick, s: Symbol): set<Symbol>
    requires s in t.scores
  {
    set x | x in Names(t) && Better(t, x, s)
  }

  function Rank(t: Tick, s: Symbol): nat
    requires s in Names(t)
  {
    |Ahead(t, s)| + 1
  }

  predicate Within(t: Tick, limit: nat, s: Symbol) { s in Names(t) && Rank(t, s) <= limit }

  function WithinSet(t: Tick, limit: nat): set<Symbol> { set s | s in Names(t) && Within(t, limit, s) }

  ghost predicate RankedList(t: Tick, ranked: seq<Symbol>) {
    && (forall i :: 0 <= i < |ranked| ==> ranked[i] in Names(t))
    && (forall i, j {:trigger Better(t, ranked[i], ranked[j])} :: 0 <= i < j < |ranked| ==>
        Better(t, ranked[i], ranked[j]))
  }

  function Position(t: Tick, ranked: seq<Symbol>, s: Symbol): nat
    requires s in t.scores && forall i :: 0 <= i < |ranked| ==> ranked[i] in t.scores
  {
    if ranked == [] || Better(t, s, ranked[0]) then 0 else 1 + Position(t, ranked[1..], s)
  }

  lemma {:induction false} PositionSplits(t: Tick, ranked: seq<Symbol>, s: Symbol)
    requires RankedList(t, ranked) && s in Names(t) && s !in ranked
    ensures Position(t, ranked, s) <= |ranked|
    ensures forall i :: 0 <= i < Position(t, ranked, s) ==> Better(t, ranked[i], s)
    ensures forall i :: Position(t, ranked, s) <= i < |ranked| ==> Better(t, s, ranked[i])
  {
    if ranked != [] {
      assert ranked[0] in ranked;
      if Better(t, s, ranked[0]) {
        forall i | 0 < i < |ranked| ensures Better(t, s, ranked[i]) { assert Better(t, ranked[0], ranked[i]); }
      } else {
        PositionSplits(t, ranked[1..], s);
        assert forall i :: 1 <= i < |ranked| ==> ranked[i] == ranked[1..][i - 1];
      }
    }
  }

  /** The measured, allowed symbols, best first. */
  method SortNames(t: Tick) returns (ranked: seq<Symbol>)
    ensures RankedList(t, ranked) && forall s :: s in ranked <==> s in Names(t)
  {
    ranked := [];
    var todo := Names(t);
    while todo != {}
      invariant todo <= Names(t)
      invariant RankedList(t, ranked) && forall s :: s in ranked <==> s in Names(t) && s !in todo
      decreases |todo|
    {
      var s :| s in todo;
      var at := Position(t, ranked, s);
      PositionSplits(t, ranked, s);
      ranked := ranked[..at] + [s] + ranked[at..];
      todo := todo - {s};
    }
  }

  /** In the sorted list, position is rank. */
  lemma PositionIsRank(t: Tick, ranked: seq<Symbol>, k: nat)
    requires RankedList(t, ranked) && (forall s :: s in ranked <==> s in Names(t)) && k < |ranked|
    ensures Rank(t, ranked[k]) == k + 1
  {
    forall x
      ensures x in Ahead(t, ranked[k]) <==> x in ranked[..k]
    {
      if x in Names(t) {
        var i :| 0 <= i < |ranked| && ranked[i] == x;
        assert i < k ==> ranked[..k][i] == x;
        assert i > k ==> Better(t, ranked[k], ranked[i]);
      }
    }
    CountPrefix(t, ranked, k);
    assert Ahead(t, ranked[k]) == Elements(ranked[..k]);
  }

  function Elements(list: seq<Symbol>): set<Symbol> { set x | x in list }

  lemma {:induction false} CountPrefix(t: Tick, ranked: seq<Symbol>, k: nat)
    requires RankedList(t, ranked) && k <= |ranked|
    ensures |Elements(ranked[..k])| == k
  {
    if k > 0 {
      CountPrefix(t, ranked, k - 1);
      forall i | 0 <= i < k - 1 ensures ranked[i] != ranked[k - 1] { assert Better(t, ranked[i], ranked[k - 1]); }
      assert ranked[k - 1] !in ranked[..k - 1];
      assert ranked[..k] == ranked[..k - 1] + [ranked[k - 1]];
      assert Elements(ranked[..k]) == Elements(ranked[..k - 1]) + {ranked[k - 1]};
    }
  }

  /** The first `n` of the list have their ranks. */
  ghost predicate RanksOf(t: Tick, ranked: seq<Symbol>, n: nat, rank: map<Symbol, nat>)
    requires n <= |ranked|
  {
    && rank.Keys == Elements(ranked[..n])
    && forall s :: s in rank ==> s in Names(t) && rank[s] == Rank(t, s)
  }

  lemma RankNext(t: Tick, ranked: seq<Symbol>, n: nat, rank: map<Symbol, nat>)
    requires n < |ranked| && ranked[n] in Names(t) && Rank(t, ranked[n]) == n + 1
    requires RanksOf(t, ranked, n, rank)
    ensures RanksOf(t, ranked, n + 1, rank[ranked[n] := n + 1])
  {
    assert ranked[..n + 1] == ranked[..n] + [ranked[n]];
    assert Elements(ranked[..n + 1]) == Elements(ranked[..n]) + {ranked[n]};
  }

  method RankNames(t: Tick) returns (rank: map<Symbol, nat>)
    ensures rank.Keys == Names(t) && forall s :: s in rank ==> rank[s] == Rank(t, s)
  {
    var ranked := SortNames(t);
    rank := map[];
    for i := 0 to |ranked|
      invariant RanksOf(t, ranked, i, rank)
    {
      PositionIsRank(t, ranked, i);
      RankNext(t, ranked, i, rank);
      rank := rank[ranked[i] := i + 1];
    }
    assert ranked[..|ranked|] == ranked;
  }

  /** Some symbol of a set is behind all the others. */
  lemma {:induction false} HasLast(t: Tick, names: set<Symbol>) returns (w: Symbol)
    requires names != {} && names <= Names(t)
    ensures w in names && forall x :: x in names && x != w ==> Better(t, x, w)
    decreases |names|
  {
    var x :| x in names;
    if names == {x} {
      w := x;
    } else {
      var rest := names - {x};
      assert names == rest + {x};
      var v := HasLast(t, rest);
      w := if Better(t, v, x) then x else v;
    }
  }

  /** No more than `limit` symbols rank within `limit`. */
  lemma FewRankWithin(t: Tick, limit: nat)
    ensures |WithinSet(t, limit)| <= limit
  {
    var names := WithinSet(t, limit);
    if names != {} {
      var w := HasLast(t, names);
      assert names - {w} <= Ahead(t, w);
      Subset(names - {w}, Ahead(t, w));
    }
  }

  lemma {:induction false} Subset(a: set<Symbol>, b: set<Symbol>)
    requires a <= b
    ensures |a| <= |b|
  {
    if a != {} {
      var x :| x in a;
      Subset(a - {x}, b - {x});
    }
  }

  // ----------------------------------------------------------------------- ranked tiers

  function Passes(history: seq<Tick>, top: nat): seq<Pass> {
    seq(|history|, i requires 0 <= i < |history| =>
      Pass(history[i].now, WithinSet(history[i], top), history[i].allowed, true))
  }

  /** At tick `j` the symbol ranked within `leave`, or the time floor held it. */
  ghost predicate Held(history: seq<Tick>, top: nat, leave: nat, sticky: nat, j: nat, s: Symbol)
    requires j < |history|
  {
    Within(history[j], leave, s) || (sticky > 0 && Alive(Passes(history[..j + 1], top), sticky, s))
  }

  /** Ranked within `top` some time, and held at every tick since. */
  ghost predicate Member(history: seq<Tick>, top: nat, leave: nat, sticky: nat, s: Symbol) {
    exists m :: 0 <= m < |history| && Within(history[m], top, s)
                && forall j :: m <= j < |history| ==> Held(history, top, leave, sticky, j, s)
  }

  lemma HeldBefore(history: seq<Tick>, t: Tick, top: nat, leave: nat, sticky: nat, s: Symbol)
    ensures forall j :: 0 <= j < |history| ==>
              Held(history + [t], top, leave, sticky, j, s) == Held(history, top, leave, sticky, j, s)
  {
    forall j | 0 <= j < |history|
      ensures Held(history + [t], top, leave, sticky, j, s) == Held(history, top, leave, sticky, j, s)
    {
      assert (history + [t])[..j + 1] == history[..j + 1];
    }
  }

  /** What the time floor keeps was ranked within `top` and kept at every tick since. */
  lemma AliveIsMember(history: seq<Tick>, top: nat, leave: nat, sticky: nat, s: Symbol)
    requires sticky > 0 && Alive(Passes(history, top), sticky, s)
    ensures Member(history, top, leave, sticky, s)
  {
    var passes := Passes(history, top);
    var m :| LastHit(passes, m, s) && HeldSince(passes, sticky, m, s);
    assert Within(history[m], top, s);
    forall j | m <= j < |history|
      ensures Held(history, top, leave, sticky, j, s)
    {
      var short := Passes(history[..j + 1], top);
      assert short == passes[..j + 1];
      assert LastHit(short, m, s) && HeldSince(short, sticky, m, s);
    }
  }

  lemma MemberStep(history: seq<Tick>, t: Tick, top: nat, leave: nat, sticky: nat, s: Symbol)
    requires top <= leave
    ensures Member(history + [t], top, leave, sticky, s) <==>
            || Within(t, top, s)
            || (Member(history, top, leave, sticky, s) && Within(t, leave, s))
            || (sticky > 0 && Alive(Passes(history + [t], top), sticky, s))
  {
    var more, n := history + [t], |history|;
    HeldBefore(history, t, top, leave, sticky, s);
    assert more[..n + 1] == more;
    if Within(t, top, s) {
      assert Within(more[n], top, s) && Held(more, top, leave, sticky, n, s);
    } else if Member(history, top, leave, sticky, s) && Within(t, leave, s) {
      var m :| 0 <= m < n && Within(history[m], top, s)
               && forall j :: m <= j < n ==> Held(history, top, leave, sticky, j, s);
      assert Within(more[m], top, s) && Held(more, top, leave, sticky, n, s);
    } else if sticky > 0 && Alive(Passes(more, top), sticky, s) {
      AliveIsMember(more, top, leave, sticky, s);
    }
    if Member(more, top, leave, sticky, s) {
      var m :| 0 <= m < n + 1 && Within(more[m], top, s)
               && forall j :: m <= j < n + 1 ==> Held(more, top, leave, sticky, j, s);
      assert Held(more, top, leave, sticky, n, s);
      if m < n {
        assert Within(history[m], top, s) && forall j :: m <= j < n ==> Held(history, top, leave, sticky, j, s);
      }
    }
  }

  /** With no time floor at most `leave` symbols are members. */
  lemma FewMembers(history: seq<Tick>, top: nat, leave: nat, members: set<Symbol>)
    requires forall s :: s in members ==> Member(history, top, leave, 0, s)
    ensures |members| <= leave
  {
    if history != [] {
      var last := history[|history| - 1];
      forall s | s in members ensures s in WithinSet(last, leave) {
        assert Held(history, top, leave, 0, |history| - 1, s);
      }
      Subset(members, WithinSet(last, leave));
      FewRankWithin(last, leave);
    } else {
      forall s ensures s !in members {
        assert !Member(history, top, leave, 0, s);
      }
      assert members == {};
    }
  }

  /** A tier of a ranked kind. */
  class RankedTier {
    const top: nat
    const leaveTop: nat
    const sticky: nat
    var members: set<Symbol>
    var stamps: map<Symbol, int>
    ghost var history: seq<Tick>

    function Leave(): nat { if leaveTop > top then leaveTop else top }

    ghost predicate Valid() reads this {
      && (forall s :: s in members <==> Member(history, top, Leave(), sticky, s))
      && (if sticky > 0 then Stamped(Passes(history, top), sticky, stamps) else stamps == map[])
    }

    constructor (top: nat, leaveTop: nat, sticky: nat)
      ensures Valid() && history == []
      ensures this.top == top && this.leaveTop == leaveTop && this.sticky == sticky
    {
      this.top, this.leaveTop, this.sticky := top, leaveTop, sticky;
      members, stamps, history := {}, map[], [];
    }

    method Resolve(t: Tick)
      requires Valid()
      modifies this
      ensures Valid() && history == old(history) + [t]
      ensures sticky == 0 ==> |members| <= Leave()
    {
      var rank := RankNames(t);
      var found := set s | s in rank && (rank[s] <= top || (s in members && rank[s] <= Leave()));
      var swept := stamps;
      if sticky > 0 {
        var hits := set s | s in rank && rank[s] <= top;
        assert hits == WithinSet(t, top);
        var marked := MarkHits(stamps, t.now, hits);
        var p := Pass(t.now, hits, t.allowed, true);
        swept := DropLapsed(marked, p, sticky);
        StampStep(Passes(history, top), sticky, stamps, p);
        assert Passes(history, top) + [p] == Passes(history + [t], top);
        found := found + swept.Keys;
      }
      forall s ensures s in found <==> Member(history + [t], top, Leave(), sticky, s) {
        MemberStep(history, t, top, Leave(), sticky, s);
      }
      members, stamps, history := found, swept, history + [t];
      if sticky == 0 { FewMembers(history, top, Leave(), members); }
    }
  }
}
