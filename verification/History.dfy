/** One symbol's sampled ticker history (market_tape/record.py, `LiveState._sample` and `earlier`). */
module TickerHistory {
  import opened Options

  datatype Sample = Sample(ns: int, reading: int)

  const SPACING_NS: int := 60 * 1_000_000_000

  predicate Gap(samples: seq<Sample>, i: int, j: int)
    requires 0 <= i < j < |samples|
  {
    samples[i].ns + SPACING_NS * (j - i) <= samples[j].ns
  }

  ghost predicate Spaced(samples: seq<Sample>) {
    forall i, j :: 0 <= i < j < |samples| ==> Gap(samples, i, j)
  }

  lemma SpacedPart(samples: seq<Sample>, a: nat, b: nat)
    requires Spaced(samples) && a <= b <= |samples|
    ensures Spaced(samples[a..b])
  {
    forall i, j | 0 <= i < j < b - a ensures Gap(samples[a..b], i, j) { assert Gap(samples, a + i, a + j); }
  }

  /** The newest sample taken at or before `at`. */
  function Newest(samples: seq<Sample>, at: int): Option<Sample> {
    if samples == [] then None
    else if samples[|samples| - 1].ns <= at then Some(samples[|samples| - 1])
    else Newest(samples[..|samples| - 1], at)
  }

  /** Samples before one at or before `at` do not matter. */
  lemma {:induction false} OlderDoNotMatter(all: seq<Sample>, k: nat, at: int)
    requires k < |all| && all[k].ns <= at
    ensures Newest(all[k..], at) == Newest(all, at)
    decreases |all|
  {
    var n := |all| - 1;
    if all[n].ns > at {
      OlderDoNotMatter(all[..n], k, at);
      assert all[k..][..n - k] == all[..n][k..];
    }
  }

  lemma {:induction false} NoneYet(samples: seq<Sample>, at: int)
    requires Spaced(samples) && samples != [] && samples[0].ns > at
    ensures Newest(samples, at) == None
  {
    var n := |samples| - 1;
    if n > 0 {
      SpacedPart(samples, 0, n);
      assert samples[0..n] == samples[..n];
      NoneYet(samples[..n], at);
      assert Gap(samples, 0, n);
    }
  }

  lemma SpacedMore(all: seq<Sample>, s: Sample)
    requires Spaced(all) && (all != [] ==> all[|all| - 1].ns + SPACING_NS <= s.ns)
    ensures Spaced(all + [s])
  {
    var n, more := |all|, all + [s];
    forall i, j | 0 <= i < j < |more| ensures Gap(more, i, j) {
      if j < n { assert Gap(all, i, j); } else if i < n - 1 { assert Gap(all, i, n - 1); }
    }
  }

  class History {
    const historyNs: int
    var samples: seq<Sample>
    ghost var all: seq<Sample>     // every sample ever taken
    ghost var dropped: nat

    ghost predicate Valid()
      reads this
    {
      && historyNs > 0 && Spaced(all)
      && dropped <= |all| && samples == all[dropped..] && (all != [] ==> samples != [])
      && (dropped > 0 ==> samples[0].ns <= all[|all| - 1].ns - historyNs)
      && (|samples| > 1 ==> samples[1].ns > all[|all| - 1].ns - historyNs)
    }

    constructor (historyNs: int)
      requires historyNs > 0
      ensures Valid() && all == [] && this.historyNs == historyNs
    {
      this.historyNs := historyNs;
      samples, all, dropped := [], [], 0;
    }

    /** Take a sample unless the last one is less than a minute old, and let go of what no
        lookback inside the window can need. */
    method Observe(nowNs: int, reading: int)
      requires Valid()
      modifies this
      ensures Valid()
      ensures all == if old(all) != [] && nowNs - old(all)[|old(all)| - 1].ns < SPACING_NS then old(all)
                     else old(all) + [Sample(nowNs, reading)]
    {
      if samples != [] && nowNs - samples[|samples| - 1].ns < SPACING_NS {
        assert samples[|samples| - 1] == all[|all| - 1];
        return;
      }
      ghost var taken := all + [Sample(nowNs, reading)];
      assert all != [] ==> samples[|samples| - 1] == all[|all| - 1];
      SpacedMore(all, Sample(nowNs, reading));
      var kept := samples + [Sample(nowNs, reading)];
      ghost var gone := dropped;
      assert kept == taken[gone..];
      while |kept| > 1 && kept[1].ns <= nowNs - historyNs
        invariant gone < |taken| && kept == taken[gone..]
        invariant gone > 0 ==> kept[0].ns <= nowNs - historyNs
      {
        kept := kept[1..];
        gone := gone + 1;
      }
      samples, all, dropped := kept, taken, gone;
    }

    /** The newest remembered sample at or before `at`; none when the history does not reach that far. */
    method Earlier(at: int) returns (found: Option<Sample>)
      requires Valid()
      ensures found == Newest(samples, at)
      ensures all != [] && at >= all[|all| - 1].ns - historyNs ==> found == Newest(all, at)
      ensures |samples| <= (historyNs - 1) / SPACING_NS + 2
    {
      LookbackIsExact(at);
      LengthIsBounded();
      if samples == [] || samples[0].ns > at {
        if samples != [] {
          SpacedPart(all, dropped, |all|);
          assert all[dropped..|all|] == samples;
          NoneYet(samples, at);
        }
        return None;
      }
      found := None;
      var i := 0;
      while i < |samples| && samples[i].ns <= at
        invariant 0 <= i <= |samples|
        invariant found == Newest(samples[..i], at)
        invariant i > 0 ==> samples[i - 1].ns <= at
      {
        found := Some(samples[i]);
        assert samples[..i + 1][..i] == samples[..i];
        i := i + 1;
      }
      SpacedPart(all, dropped, |all|);
      assert all[dropped..|all|] == samples;
      LaterDoNotMatter(samples, i, at);
    }

    /** Trimmed or not, a lookback inside the window gets the same answer. */
    lemma LookbackIsExact(at: int)
      requires Valid()
      ensures all != [] && at >= all[|all| - 1].ns - historyNs ==> Newest(samples, at) == Newest(all, at)
    {
      if all != [] && at >= all[|all| - 1].ns - historyNs {
        if dropped > 0 { OlderDoNotMatter(all, dropped, at); } else { assert all[0..] == all; }
      }
    }

    lemma LengthIsBounded()
      requires Valid()
      ensures |samples| <= (historyNs - 1) / SPACING_NS + 2
    {
      if |samples| > 2 {
        var n := |all| - 1;
        assert Gap(all, dropped + 1, n);
        assert SPACING_NS * (|samples| - 2) <= historyNs - 1;
      }
    }
  }

  lemma {:induction false} LaterDoNotMatter(samples: seq<Sample>, i: nat, at: int)
    requires Spaced(samples) && i <= |samples| && (i < |samples| ==> samples[i].ns > at)
    ensures Newest(samples, at) == Newest(samples[..i], at)
    decreases |samples|
  {
    if i < |samples| {
      var n := |samples| - 1;
      SpacedPart(samples, 0, n);
      assert samples[0..n] == samples[..n];
      LaterDoNotMatter(samples[..n], i, at);
      assert samples[..n][..i] == samples[..i];
      assert i < n ==> Gap(samples, i, n);
    } else {
      assert samples[..i] == samples;
    }
  }
}
