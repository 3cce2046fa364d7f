/** Fixed-interval bars from tape rows in one pass (market_tape/bars.py, `build_bars`, `_take` and
    `_Bar.row`), against bars grouped by symbol and bucket. Sums are taken over the reals. */
module TapeBars {
  import opened Options

  datatype Symbol = Symbol(name: string)

  datatype What = Trade(price: real, qty: real, buy: bool) | BookUpdate | Ticker | Liquidation(amount: real)

  datatype Row = Row(ns: int, symbol: Symbol, what: What)

  datatype Prices = Prices(open: real, high: real, low: real, close: real)

  datatype Bar = Bar(symbol: Symbol, start: int, trades: nat, volume: real, buyVolume: real, sellVolume: real,
                     notional: real, prices: Option<Prices>, bookUpdates: nat, liquidations: nat, liquidationQty: real)

  function NewBar(symbol: Symbol, start: int): Bar {
    Bar(symbol, start, 0, 0.0, 0.0, 0.0, 0.0, None, 0, 0, 0.0)
  }

  function Max(a: real, b: real): real { if b > a then b else a }

  function Min(a: real, b: real): real { if b < a then b else a }

  function TakePrice(prices: Option<Prices>, price: real): Option<Prices> {
    if prices.None? then Some(Prices(price, price, price, price))
    else var p := prices.value; Some(Prices(p.open, Max(p.high, price), Min(p.low, price), price))
  }

  function Take(bar: Bar, what: What): Bar {
    match what
    case Trade(price, qty, buy) =>
      bar.(trades := bar.trades + 1, volume := bar.volume + qty, notional := bar.notional + price * qty,
           buyVolume := if buy then bar.buyVolume + qty else bar.buyVolume,
           sellVolume := if buy then bar.sellVolume else bar.sellVolume + qty,
           prices := TakePrice(bar.prices, price))
    case BookUpdate => bar.(bookUpdates := bar.bookUpdates + 1)
    case Ticker => bar
    case Liquidation(amount) =>
      bar.(liquidations := bar.liquidations + 1, liquidationQty := bar.liquidationQty + amount)
  }

  function Bucket(ns: int, step: int): int
    requires step > 0
  {
    ns / step * step
  }

  function Vwap(bar: Bar): Option<real> {
    if bar.volume > 0.0 then Some(bar.notional / bar.volume) else None
  }

  // ------------------------------------------------------------- grouped by bucket

  function OfSymbol(rows: seq<Row>, s: Symbol): seq<Row> {
    if rows == [] then []
    else OfSymbol(rows[..|rows| - 1], s) + (if rows[|rows| - 1].symbol == s then [rows[|rows| - 1]] else [])
  }

  function InBucket(rows: seq<Row>, start: int, step: int): seq<Row>
    requires step > 0
  {
    if rows == [] then []
    else
      var last := rows[|rows| - 1];
      InBucket(rows[..|rows| - 1], start, step) + (if Bucket(last.ns, step) == start then [last] else [])
  }

  /** One bar over rows taken in order. */
  function Summarize(symbol: Symbol, start: int, rows: seq<Row>): Bar {
    if rows == [] then NewBar(symbol, start)
    else Take(Summarize(symbol, start, rows[..|rows| - 1]), rows[|rows| - 1].what)
  }

  /** A symbol's own bars: a new one whenever the bucket changes. */
  function Bars(symbol: Symbol, rows: seq<Row>, step: int): seq<Bar>
    requires step > 0
  {
    if rows == [] then []
    else
      var n := |rows| - 1;
      var before, start := Bars(symbol, rows[..n], step), Bucket(rows[n].ns, step);
      if before == [] || before[|before| - 1].start != start
      then before + [Take(NewBar(symbol, start), rows[n].what)]
      else before[..|before| - 1] + [Take(before[|before| - 1], rows[n].what)]
  }

  ghost predicate TimeOrdered(rows: seq<Row>) {
    forall i, j :: 0 <= i < j < |rows| ==> rows[i].ns <= rows[j].ns
  }

  lemma TimesGrow(m: int, n: int, step: int)
    requires step > 0
    ensures m <= n ==> m * step <= n * step
  {
    if m <= n { assert (n - m) * step >= 0; }
  }

  lemma BucketHolds(a: int, step: int)
    requires step > 0
    ensures Bucket(a, step) <= a < Bucket(a, step) + step
  {
    assert a == (a / step) * step + a % step;
  }

  lemma BucketsRise(a: int, b: int, step: int)
    requires step > 0 && a <= b
    ensures Bucket(a, step) <= Bucket(b, step)
  {
    BucketHolds(a, step);
    BucketHolds(b, step);
    var m, n := a / step, b / step;
    TimesGrow(n + 1, m, step);
    TimesGrow(m, n, step);
    assert (n + 1) * step == n * step + step;
  }

  ghost predicate HasBar(bars: seq<Bar>, start: int) {
    exists i :: 0 <= i < |bars| && bars[i].start == start
  }

  /** A bar summarizes exactly its bucket's rows. */
  ghost predicate Whole(symbol: Symbol, rows: seq<Row>, step: int, bar: Bar)
    requires step > 0
  {
    var mine := InBucket(rows, bar.start, step);
    mine != [] && bar == Summarize(symbol, bar.start, mine)
  }

  predicate Earlier(bars: seq<Bar>, i: int, j: int)
    requires 0 <= i < j < |bars|
  {
    bars[i].start < bars[j].start
  }

  /** Bars in strictly rising buckets, each whole, none missing. */
  ghost predicate Grouped(symbol: Symbol, rows: seq<Row>, step: int, bars: seq<Bar>)
    requires step > 0
  {
    && (forall i, j :: 0 <= i < j < |bars| ==> Earlier(bars, i, j))
    && (forall i :: 0 <= i < |bars| ==> Whole(symbol, rows, step, bars[i]))
    && (forall k :: 0 <= k < |rows| ==> HasBar(bars, Bucket(rows[k].ns, step)))
  }

  lemma OneMoreRow(rows: seq<Row>, r: Row, start: int, step: int)
    requires step > 0
    ensures InBucket(rows + [r], start, step) == InBucket(rows, start, step)
            + (if Bucket(r.ns, step) == start then [r] else [])
  {
    assert (rows + [r])[..|rows|] == rows;
  }

  lemma {:induction false} NoneInBucket(rows: seq<Row>, start: int, step: int)
    requires step > 0 && forall k :: 0 <= k < |rows| ==> Bucket(rows[k].ns, step) != start
    ensures InBucket(rows, start, step) == []
  {
    if rows != [] { NoneInBucket(rows[..|rows| - 1], start, step); }
  }

  lemma WholeMore(symbol: Symbol, rows: seq<Row>, r: Row, step: int, bar: Bar)
    requires step > 0 && Whole(symbol, rows, step, bar)
    ensures Bucket(r.ns, step) != bar.start ==> Whole(symbol, rows + [r], step, bar)
    ensures Bucket(r.ns, step) == bar.start ==> Whole(symbol, rows + [r], step, Take(bar, r.what))
  {
    OneMoreRow(rows, r, bar.start, step);
    var mine := InBucket(rows, bar.start, step);
    assert (mine + [r])[..|mine|] == mine;
    assert Summarize(symbol, bar.start, mine + [r]) == Take(bar, r.what);
    assert Take(bar, r.what).start == bar.start;
    if Bucket(r.ns, step) == bar.start {
      assert InBucket(rows + [r], bar.start, step) == mine + [r];
      assert Whole(symbol, rows + [r], step, Take(bar, r.what));
    } else {
      assert InBucket(rows + [r], bar.start, step) == mine;
    }
  }

  lemma WholeNew(symbol: Symbol, rows: seq<Row>, r: Row, step: int)
    requires step > 0 && InBucket(rows, Bucket(r.ns, step), step) == []
    ensures Whole(symbol, rows + [r], step, Take(NewBar(symbol, Bucket(r.ns, step)), r.what))
  {
    var start := Bucket(r.ns, step);
    OneMoreRow(rows, r, start, step);
    assert [r][..0] == [];
    assert Summarize(symbol, start, [r]) == Take(Summarize(symbol, start, [r][..0]), r.what);
  }

  /** A row joins the last bar. */
  lemma GroupedSame(symbol: Symbol, rows: seq<Row>, r: Row, step: int, bars: seq<Bar>)
    requires step > 0 && Grouped(symbol, rows, step, bars) && bars != [] && bars[|bars| - 1].start == Bucket(r.ns, step)
    ensures Grouped(symbol, rows + [r], step, bars[..|bars| - 1] + [Take(bars[|bars| - 1], r.what)])
  {
    var n := |bars| - 1;
    var after := bars[..n] + [Take(bars[n], r.what)];
    assert forall i :: 0 <= i < |bars| ==> after[i].start == bars[i].start;
    forall i, j | 0 <= i < j < |after| ensures Earlier(after, i, j) { assert Earlier(bars, i, j); }
    forall i | 0 <= i < |after| ensures Whole(symbol, rows + [r], step, after[i]) {
      if i < n { assert Earlier(bars, i, n); }
      WholeMore(symbol, rows, r, step, bars[i]);
    }
    SameStarts(bars, after);
    forall k | 0 <= k < |rows + [r]| ensures HasBar(after, Bucket((rows + [r])[k].ns, step)) {
      if k < |rows| { assert HasBar(bars, Bucket(rows[k].ns, step)); } else { assert HasBar(bars, bars[n].start); }
    }
  }

  lemma SameStarts(bars: seq<Bar>, after: seq<Bar>)
    requires |bars| <= |after| && forall i :: 0 <= i < |bars| ==> after[i].start == bars[i].start
    ensures forall start :: HasBar(bars, start) ==> HasBar(after, start)
  {
    forall start | HasBar(bars, start) ensures HasBar(after, start) {
      var i :| 0 <= i < |bars| && bars[i].start == start;
      assert after[i].start == start;
    }
  }

  /** A row of a later bucket starts a bar. */
  lemma GroupedNew(symbol: Symbol, rows: seq<Row>, r: Row, step: int, bars: seq<Bar>)
    requires step > 0 && Grouped(symbol, rows, step, bars)
    requires forall i :: 0 <= i < |bars| ==> bars[i].start < Bucket(r.ns, step)
    ensures Grouped(symbol, rows + [r], step, bars + [Take(NewBar(symbol, Bucket(r.ns, step)), r.what)])
  {
    var start := Bucket(r.ns, step);
    var after := bars + [Take(NewBar(symbol, start), r.what)];
    forall i, j | 0 <= i < j < |after| ensures Earlier(after, i, j) { assert j < |bars| ==> Earlier(bars, i, j); }
    NoneYet(symbol, rows, start, step, bars);
    WholeNew(symbol, rows, r, step);
    forall i | 0 <= i < |bars| ensures Whole(symbol, rows + [r], step, after[i]) {
      WholeMore(symbol, rows, r, step, bars[i]);
    }
    SameStarts(bars, after);
    forall k | 0 <= k < |rows + [r]| ensures HasBar(after, Bucket((rows + [r])[k].ns, step)) {
      if k < |rows| { assert HasBar(bars, Bucket(rows[k].ns, step)); } else { assert after[|bars|].start == start; }
    }
  }

  lemma NoneYet(symbol: Symbol, rows: seq<Row>, start: int, step: int, bars: seq<Bar>)
    requires step > 0 && Grouped(symbol, rows, step, bars) && forall i :: 0 <= i < |bars| ==> bars[i].start < start
    ensures InBucket(rows, start, step) == []
  {
    forall k | 0 <= k < |rows| ensures Bucket(rows[k].ns, step) != start {
      assert HasBar(bars, Bucket(rows[k].ns, step));
    }
    NoneInBucket(rows, start, step);
  }

  /** For rows in time order the bars are the group-by: one per bucket with rows, over all its rows. */
  lemma {:induction false} BarsAreGrouped(symbol: Symbol, rows: seq<Row>, step: int)
    requires step > 0 && TimeOrdered(rows)
    ensures Grouped(symbol, rows, step, Bars(symbol, rows, step))
  {
    if rows != [] {
      var n := |rows| - 1;
      var before, r := Bars(symbol, rows[..n], step), rows[n];
      BarsAreGrouped(symbol, rows[..n], step);
      assert rows == rows[..n] + [r];
      LastIsLatest(symbol, rows[..n], r, step, before);
      if before == [] || before[|before| - 1].start != Bucket(r.ns, step) {
        GroupedNew(symbol, rows[..n], r, step, before);
      } else {
        GroupedSame(symbol, rows[..n], r, step, before);
      }
    }
  }

  lemma LastIsLatest(symbol: Symbol, rows: seq<Row>, r: Row, step: int, bars: seq<Bar>)
    requires step > 0 && Grouped(symbol, rows, step, bars) && TimeOrdered(rows + [r])
    ensures bars != [] ==> bars[|bars| - 1].start <= Bucket(r.ns, step)
    ensures bars != [] && bars[|bars| - 1].start != Bucket(r.ns, step) ==>
              forall i :: 0 <= i < |bars| ==> bars[i].start < Bucket(r.ns, step)
  {
    if bars != [] {
      var n := |bars| - 1;
      assert Whole(symbol, rows, step, bars[n]);
      var k := FromBucket(rows, bars[n].start, step);
      assert (rows + [r])[k] == rows[k] && (rows + [r])[|rows|] == r;
      BucketsRise(rows[k].ns, r.ns, step);
      forall i | 0 <= i < |bars| && bars[n].start != Bucket(r.ns, step) ensures bars[i].start < Bucket(r.ns, step) {
        assert i < n ==> Earlier(bars, i, n);
      }
    }
  }

  lemma {:induction false} FromBucket(rows: seq<Row>, start: int, step: int) returns (k: nat)
    requires step > 0 && InBucket(rows, start, step) != []
    ensures k < |rows| && Bucket(rows[k].ns, step) == start
  {
    var n := |rows| - 1;
    if Bucket(rows[n].ns, step) == start { k := n; } else { k := FromBucket(rows[..n], start, step); }
  }

  // ----------------------------------------------------------- what a bar says

  /** The trades among the rows. */
  function Trades(rows: seq<Row>): nat {
    if rows == [] then 0 else Trades(rows[..|rows| - 1]) + (if rows[|rows| - 1].what.Trade? then 1 else 0)
  }

  function Qty(rows: seq<Row>): real {
    if rows == [] then 0.0
    else Qty(rows[..|rows| - 1]) + (if rows[|rows| - 1].what.Trade? then rows[|rows| - 1].what.qty else 0.0)
  }

  function Bought(rows: seq<Row>): real {
    if rows == [] then 0.0
    else
      var w := rows[|rows| - 1].what;
      Bought(rows[..|rows| - 1]) + (if w.Trade? && w.buy then w.qty else 0.0)
  }

  function Notional(rows: seq<Row>): real {
    if rows == [] then 0.0
    else
      var w := rows[|rows| - 1].what;
      Notional(rows[..|rows| - 1]) + (if w.Trade? then w.price * w.qty else 0.0)
  }

  function Updates(rows: seq<Row>): nat {
    if rows == [] then 0 else Updates(rows[..|rows| - 1]) + (if rows[|rows| - 1].what.BookUpdate? then 1 else 0)
  }

  function Liquidated(rows: seq<Row>): (nat, real) {
    if rows == [] then (0, 0.0)
    else
      var (count, amount) := Liquidated(rows[..|rows| - 1]);
      var w := rows[|rows| - 1].what;
      if w.Liquidation? then (count + 1, amount + w.amount) else (count, amount)
  }

  ghost predicate PositiveTrades(rows: seq<Row>) {
    forall i :: 0 <= i < |rows| && rows[i].what.Trade? ==> rows[i].what.qty > 0.0
  }

  /** What trades leave behind in a bar: the sides add up, prices exist once there is a trade, all prices lie
      between low and high, and the notional lies between what low and what high would make it. */
  ghost predicate Sensible(bar: Bar) {
    && bar.buyVolume + bar.sellVolume == bar.volume && bar.buyVolume >= 0.0 && bar.sellVolume >= 0.0
    && (bar.trades == 0 ==> bar.volume == 0.0 && bar.prices.None? && bar.notional == 0.0)
    && (bar.trades > 0 ==>
          bar.volume > 0.0 && bar.prices.Some? && PricesHold(bar.prices.value, bar.volume, bar.notional))
  }

  ghost predicate PricesHold(p: Prices, volume: real, notional: real) {
    && p.low <= p.open <= p.high && p.low <= p.close <= p.high
    && p.low * volume <= notional <= p.high * volume
  }

  lemma TimesLe(a: real, b: real, c: real)
    requires a <= b && c >= 0.0
    ensures a * c <= b * c
  {
  }

  lemma TradePrices(p: Prices, volume: real, notional: real, price: real, qty: real)
    requires PricesHold(p, volume, notional) && volume > 0.0 && qty > 0.0
    ensures PricesHold(Prices(p.open, Max(p.high, price), Min(p.low, price), price),
                       volume + qty, notional + price * qty)
  {
    var low, high := Min(p.low, price), Max(p.high, price);
    TimesLe(low, p.low, volume);
    TimesLe(low, price, qty);
    TimesLe(p.high, high, volume);
    TimesLe(price, high, qty);
    assert low * (volume + qty) == low * volume + low * qty;
    assert high * (volume + qty) == high * volume + high * qty;
  }

  lemma TakeSensible(bar: Bar, what: What)
    requires Sensible(bar) && (what.Trade? ==> what.qty > 0.0)
    ensures Sensible(Take(bar, what))
  {
    if what.Trade? {
      if bar.trades > 0 {
        TradePrices(bar.prices.value, bar.volume, bar.notional, what.price, what.qty);
      }
    }
  }

  lemma {:induction false} BarsSensible(symbol: Symbol, rows: seq<Row>, step: int)
    requires step > 0 && PositiveTrades(rows)
    ensures forall i :: 0 <= i < |Bars(symbol, rows, step)| ==> Sensible(Bars(symbol, rows, step)[i])
  {
    if rows != [] {
      var n := |rows| - 1;
      BarsSensible(symbol, rows[..n], step);
      var before := Bars(symbol, rows[..n], step);
      TakeSensible(NewBar(symbol, Bucket(rows[n].ns, step)), rows[n].what);
      if before != [] { TakeSensible(before[|before| - 1], rows[n].what); }
    }
  }

  /** The volume-weighted price lies between low and high. */
  lemma VwapIsBetween(bar: Bar)
    requires Sensible(bar)
    ensures Vwap(bar).Some? <==> bar.trades > 0
    ensures Vwap(bar).Some? ==> bar.prices.Some? && bar.prices.value.low <= Vwap(bar).value <= bar.prices.value.high
  {
    if bar.trades > 0 {
      var p, w := bar.prices.value, bar.notional / bar.volume;
      assert w * bar.volume == bar.notional;
      Cancel(p.low, w, bar.volume);
      Cancel(w, p.high, bar.volume);
    }
  }

  lemma Cancel(a: real, b: real, c: real)
    requires c > 0.0 && a * c <= b * c
    ensures a <= b
  {
    assert (b - a) * c >= 0.0;
  }

  function TradesOf(rows: seq<Row>): seq<What> {
    if rows == [] then []
    else
      TradesOf(rows[..|rows| - 1]) + (if rows[|rows| - 1].what.Trade? then [rows[|rows| - 1].what] else [])
  }

  /** First, last, highest and lowest of the trades. */
  ghost predicate PricesOf(trades: seq<What>, prices: Option<Prices>) {
    && (forall i :: 0 <= i < |trades| ==> trades[i].Trade?)
    && (prices.Some? <==> trades != [])
    && (trades != [] ==>
          && prices.value.open == trades[0].price && prices.value.close == trades[|trades| - 1].price
          && (forall i :: 0 <= i < |trades| ==> prices.value.low <= trades[i].price <= prices.value.high)
          && (exists i :: 0 <= i < |trades| && trades[i].price == prices.value.high)
          && (exists i :: 0 <= i < |trades| && trades[i].price == prices.value.low))
  }

  lemma OneMoreTrade(trades: seq<What>, prices: Option<Prices>, t: What)
    requires PricesOf(trades, prices) && t.Trade?
    ensures PricesOf(trades + [t], TakePrice(prices, t.price))
  {
    var more, after := trades + [t], TakePrice(prices, t.price).value;
    assert more[|trades|] == t;
    if trades != [] {
      var h :| 0 <= h < |trades| && trades[h].price == prices.value.high;
      var l :| 0 <= l < |trades| && trades[l].price == prices.value.low;
      assert more[h] == trades[h] && more[l] == trades[l];
      assert more[if t.price > prices.value.high then |trades| else h].price == after.high;
      assert more[if t.price < prices.value.low then |trades| else l].price == after.low;
    }
  }

  /** What the bar over some rows holds, in terms of those rows. */
  lemma {:induction false} SummarizeMeans(symbol: Symbol, start: int, rows: seq<Row>)
    ensures Summarize(symbol, start, rows).trades == Trades(rows) == |TradesOf(rows)|
    ensures Summarize(symbol, start, rows).volume == Qty(rows)
    ensures PricesOf(TradesOf(rows), Summarize(symbol, start, rows).prices)
  {
    if rows != [] {
      var n := |rows| - 1;
      SummarizeMeans(symbol, start, rows[..n]);
      var before := Summarize(symbol, start, rows[..n]);
      if rows[n].what.Trade? {
        assert TradesOf(rows) == TradesOf(rows[..n]) + [rows[n].what];
        OneMoreTrade(TradesOf(rows[..n]), before.prices, rows[n].what);
      } else {
        assert TradesOf(rows) == TradesOf(rows[..n]);
        assert Take(before, rows[n].what).prices == before.prices;
      }
    }
  }

  /** The other sums: the buy side, the notional, book updates and liquidations. */
  lemma {:induction false} SummarizeCounts(symbol: Symbol, start: int, rows: seq<Row>)
    ensures var bar := Summarize(symbol, start, rows);
            && bar.symbol == symbol && bar.start == start
            && bar.buyVolume == Bought(rows) && bar.sellVolume == Qty(rows) - Bought(rows)
              && bar.notional == Notional(rows)
            && bar.bookUpdates == Updates(rows) && (bar.liquidations, bar.liquidationQty) == Liquidated(rows)
  {
    if rows != [] {
      SummarizeCounts(symbol, start, rows[..|rows| - 1]);
    }
  }

  // ------------------------------------------------------------------ one pass

  function OfBars(bars: seq<Bar>, s: Symbol): seq<Bar> {
    if bars == [] then []
    else OfBars(bars[..|bars| - 1], s) + (if bars[|bars| - 1].symbol == s then [bars[|bars| - 1]] else [])
  }

  function TotalTrades(bars: seq<Bar>): nat {
    if bars == [] then 0 else TotalTrades(bars[..|bars| - 1]) + bars[|bars| - 1].trades
  }

  function TotalVolume(bars: seq<Bar>): real {
    if bars == [] then 0.0 else TotalVolume(bars[..|bars| - 1]) + bars[|bars| - 1].volume
  }

  lemma OfBarsMore(bars: seq<Bar>, b: Bar, s: Symbol)
    ensures OfBars(bars + [b], s) == OfBars(bars, s) + (if b.symbol == s then [b] else [])
  {
    assert (bars + [b])[..|bars|] == bars;
  }

  lemma {:induction false} OfBarsApart(a: seq<Bar>, b: seq<Bar>, s: Symbol)
    ensures OfBars(a + b, s) == OfBars(a, s) + OfBars(b, s)
  {
    if b == [] {
      assert a + b == a;
    } else {
      OfBarsApart(a, b[..|b| - 1], s);
      assert (a + b)[..|a + b| - 1] == a + b[..|b| - 1];
    }
  }

  /** Open bars, one a symbol, in the order their symbols first appeared. */
  ghost predicate Distinct(bars: seq<Bar>) {
    forall i, j :: 0 <= i < j < |bars| ==> Apart(bars, i, j)
  }

  predicate Apart(bars: seq<Bar>, i: int, j: int)
    requires 0 <= i < j < |bars|
  {
    bars[i].symbol != bars[j].symbol
  }

  lemma DistinctPut(bars: seq<Bar>, i: nat, b: Bar)
    requires Distinct(bars) && i < |bars| && b.symbol == bars[i].symbol
    ensures Distinct(bars[i := b])
  {
    var after := bars[i := b];
    forall j, k | 0 <= j < k < |after| ensures Apart(after, j, k) { assert Apart(bars, j, k); }
  }

  lemma DistinctPart(bars: seq<Bar>, n: nat)
    requires Distinct(bars) && n <= |bars|
    ensures Distinct(bars[..n])
  {
    forall j, k | 0 <= j < k < n ensures Apart(bars[..n], j, k) { assert Apart(bars, j, k); }
  }

  lemma DistinctMore(bars: seq<Bar>, b: Bar)
    requires Distinct(bars) && !IsOpen(bars, b.symbol)
    ensures Distinct(bars + [b])
  {
    var more := bars + [b];
    forall j, k | 0 <= j < k < |more| ensures Apart(more, j, k) { assert k < |bars| ==> Apart(bars, j, k); }
  }

  predicate IsOpen(bars: seq<Bar>, s: Symbol) { exists i :: 0 <= i < |bars| && bars[i].symbol == s }

  lemma {:induction false} OfNone(bars: seq<Bar>, s: Symbol)
    requires !IsOpen(bars, s)
    ensures OfBars(bars, s) == []
  {
    if bars != [] {
      var n := |bars| - 1;
      assert bars[n].symbol != s;
      assert !IsOpen(bars[..n], s);
      OfNone(bars[..n], s);
    }
  }

  lemma {:induction false} OfOne(bars: seq<Bar>, i: nat)
    requires Distinct(bars) && i < |bars|
    ensures OfBars(bars, bars[i].symbol) == [bars[i]]
  {
    var n := |bars| - 1;
    if i < n {
      DistinctPart(bars, n);
      assert Apart(bars, i, n);
      OfOne(bars[..n], i);
    } else {
      forall j | 0 <= j < n ensures bars[j].symbol != bars[n].symbol { assert Apart(bars, j, n); }
      assert !IsOpen(bars[..n], bars[n].symbol);
      OfNone(bars[..n], bars[n].symbol);
    }
  }

  lemma {:induction false} OfPut(bars: seq<Bar>, i: nat, b: Bar, s: Symbol)
    requires i < |bars| && b.symbol == bars[i].symbol && s != b.symbol
    ensures OfBars(bars[i := b], s) == OfBars(bars, s)
  {
    var n := |bars| - 1;
    if i < n {
      OfPut(bars[..n], i, b, s);
      assert bars[i := b][..n] == bars[..n][i := b];
    } else {
      assert bars[i := b][..n] == bars[..n];
    }
  }

  lemma {:induction false} TotalsPut(bars: seq<Bar>, i: nat, b: Bar)
    requires i < |bars|
    ensures TotalTrades(bars[i := b]) + bars[i].trades == TotalTrades(bars) + b.trades
    ensures TotalVolume(bars[i := b]) + bars[i].volume == TotalVolume(bars) + b.volume
  {
    var n := |bars| - 1;
    if i < n {
      TotalsPut(bars[..n], i, b);
      assert bars[i := b][..n] == bars[..n][i := b];
    } else {
      assert bars[i := b][..n] == bars[..n];
    }
  }

  lemma TotalsMore(bars: seq<Bar>, b: Bar)
    ensures TotalTrades(bars + [b]) == TotalTrades(bars) + b.trades
    ensures TotalVolume(bars + [b]) == TotalVolume(bars) + b.volume
  {
    assert (bars + [b])[..|bars|] == bars;
  }

  lemma {:induction false} TotalsApart(a: seq<Bar>, b: seq<Bar>)
    ensures TotalTrades(a + b) == TotalTrades(a) + TotalTrades(b)
    ensures TotalVolume(a + b) == TotalVolume(a) + TotalVolume(b)
  {
    if b == [] {
      assert a + b == a;
    } else {
      TotalsApart(a, b[..|b| - 1]);
      assert (a + b)[..|a + b| - 1] == a + b[..|b| - 1];
    }
  }

  /** A symbol's finished bars and its open one are the bars of its own rows. */
  ghost predicate Tracks(finished: seq<Bar>, current: seq<Bar>, rows: seq<Row>, step: int, s: Symbol)
    requires step > 0
  {
    && OfBars(finished, s) + OfBars(current, s) == Bars(s, OfSymbol(rows, s), step)
    && (!IsOpen(current, s) ==> OfBars(finished, s) == [])
  }

  ghost predicate Building(finished: seq<Bar>, current: seq<Bar>, rows: seq<Row>, step: int)
    requires step > 0
  {
    && Distinct(current)
    && (forall s :: Tracks(finished, current, rows, step, s))
    && Conserved(finished, current, rows)
  }

  ghost predicate Conserved(finished: seq<Bar>, current: seq<Bar>, rows: seq<Row>) {
    && TotalTrades(finished) + TotalTrades(current) == Trades(rows)
    && TotalVolume(finished) + TotalVolume(current) == Qty(rows)
  }

  lemma ConservedNext(finished: seq<Bar>, current: seq<Bar>, rows: seq<Row>, r: Row, start: int, i: nat)
    requires Conserved(finished, current, rows) && i < |current|
    ensures Conserved(finished + [current[i]], current[i := Take(NewBar(r.symbol, start), r.what)], rows + [r])
  {
    RowCounts(rows, r);
    TotalsPut(current, i, Take(NewBar(r.symbol, start), r.what));
    TotalsMore(finished, current[i]);
  }

  lemma RowApart(rows: seq<Row>, r: Row, s: Symbol)
    ensures OfSymbol(rows + [r], s) == if r.symbol == s then OfSymbol(rows, s) + [r] else OfSymbol(rows, s)
  {
    assert (rows + [r])[..|rows|] == rows;
  }

  lemma RowCounts(rows: seq<Row>, r: Row)
    ensures Trades(rows + [r]) == Trades(rows) + (if r.what.Trade? then 1 else 0)
    ensures Qty(rows + [r]) == Qty(rows) + (if r.what.Trade? then r.what.qty else 0.0)
  {
    assert (rows + [r])[..|rows|] == rows;
  }

  lemma BarsMore(symbol: Symbol, rows: seq<Row>, r: Row, step: int)
    requires step > 0
    ensures var before, start := Bars(symbol, rows, step), Bucket(r.ns, step);
            Bars(symbol, rows + [r], step) ==
              if before == [] || before[|before| - 1].start != start then before + [Take(NewBar(symbol, start), r.what)]
              else before[..|before| - 1] + [Take(before[|before| - 1], r.what)]
  {
    assert (rows + [r])[..|rows|] == rows;
  }

  method FindOpen(current: seq<Bar>, s: Symbol) returns (i: nat)
    ensures i <= |current| && (i < |current| ==> current[i].symbol == s) && (i == |current| ==> !IsOpen(current, s))
  {
    i := 0;
    while i < |current| && current[i].symbol != s
      invariant i <= |current| && forall j :: 0 <= j < i ==> current[j].symbol != s
    {
      i := i + 1;
    }
  }

  lemma TracksElse(finished: seq<Bar>, current: seq<Bar>, rows: seq<Row>, r: Row, step: int, s: Symbol,
                   done: seq<Bar>, after: seq<Bar>)
    requires step > 0 && Tracks(finished, current, rows, step, s) && OfSymbol(rows + [r], s) == OfSymbol(rows, s)
    requires OfBars(done, s) == OfBars(finished, s) && OfBars(after, s) == OfBars(current, s)
             && (IsOpen(current, s) ==> IsOpen(after, s))
    ensures Tracks(done, after, rows + [r], step, s)
  {
  }

  lemma StaysOpen(current: seq<Bar>, after: seq<Bar>, s: Symbol)
    requires |current| <= |after| && forall i :: 0 <= i < |current| ==> after[i].symbol == current[i].symbol
    ensures IsOpen(current, s) ==> IsOpen(after, s)
  {
    if IsOpen(current, s) {
      var i :| 0 <= i < |current| && current[i].symbol == s;
      assert after[i].symbol == s;
    }
  }

  /** The first row of a symbol opens its bar. */
  lemma TracksFirst(finished: seq<Bar>, current: seq<Bar>, rows: seq<Row>, r: Row, step: int)
    requires step > 0 && !IsOpen(current, r.symbol) && Tracks(finished, current, rows, step, r.symbol)
    ensures Tracks(finished, current + [Take(NewBar(r.symbol, Bucket(r.ns, step)), r.what)], rows + [r], step, r.symbol)
  {
    var s, b := r.symbol, Take(NewBar(r.symbol, Bucket(r.ns, step)), r.what);
    RowApart(rows, r, s);
    OfNone(current, s);
    OfBarsMore(current, b, s);
    BarsMore(s, OfSymbol(rows, s), r, step);
    assert (current + [b])[|current|].symbol == s;
  }

  /** Replacing a symbol's bar leaves that bar as the symbol's only one. */
  lemma OfReplaced(bars: seq<Bar>, i: nat, b: Bar)
    requires Distinct(bars) && i < |bars| && b.symbol == bars[i].symbol
    ensures OfBars(bars, b.symbol) == [bars[i]] && OfBars(bars[i := b], b.symbol) == [b]
            && IsOpen(bars[i := b], b.symbol)
  {
    DistinctPut(bars, i, b);
    OfOne(bars, i);
    OfOne(bars[i := b], i);
    assert bars[i := b][i].symbol == b.symbol;
  }

  /** A row in the open bar's bucket joins it. */
  lemma TracksSame(finished: seq<Bar>, current: seq<Bar>, rows: seq<Row>, r: Row, step: int, i: nat)
    requires step > 0 && Distinct(current) && i < |current| && current[i].symbol == r.symbol
    requires current[i].start == Bucket(r.ns, step) && Tracks(finished, current, rows, step, r.symbol)
    ensures Tracks(finished, current[i := Take(current[i], r.what)], rows + [r], step, r.symbol)
  {
    var s, b := r.symbol, Take(current[i], r.what);
    var after, done := current[i := b], OfBars(finished, s);
    RowApart(rows, r, s);
    OfReplaced(current, i, b);
    BarsMore(s, OfSymbol(rows, s), r, step);
    assert (done + [current[i]])[..|done|] == done;
  }

  /** A row in another bucket finishes the open bar and opens one. */
  lemma TracksNext(finished: seq<Bar>, current: seq<Bar>, rows: seq<Row>, r: Row, step: int, i: nat)
    requires step > 0 && Distinct(current) && i < |current| && current[i].symbol == r.symbol
    requires current[i].start != Bucket(r.ns, step) && Tracks(finished, current, rows, step, r.symbol)
    ensures Tracks(finished + [current[i]], current[i := Take(NewBar(r.symbol, Bucket(r.ns, step)), r.what)],
                   rows + [r], step, r.symbol)
  {
    var s, b := r.symbol, Take(NewBar(r.symbol, Bucket(r.ns, step)), r.what);
    var after := current[i := b];
    RowApart(rows, r, s);
    OfReplaced(current, i, b);
    OfBarsMore(finished, current[i], s);
    BarsMore(s, OfSymbol(rows, s), r, step);
  }

  lemma BuildFirst(finished: seq<Bar>, current: seq<Bar>, rows: seq<Row>, r: Row, step: int)
    requires step > 0 && Building(finished, current, rows, step) && !IsOpen(current, r.symbol)
    ensures Building(finished, current + [Take(NewBar(r.symbol, Bucket(r.ns, step)), r.what)], rows + [r], step)
  {
    var b := Take(NewBar(r.symbol, Bucket(r.ns, step)), r.what);
    var after := current + [b];
    RowCounts(rows, r);
    TotalsMore(current, b);
    DistinctMore(current, b);
    forall s ensures Tracks(finished, after, rows + [r], step, s) {
      assert Tracks(finished, current, rows, step, s);
      if s == r.symbol {
        TracksFirst(finished, current, rows, r, step);
      } else {
        OfBarsMore(current, b, s);
        RowApart(rows, r, s);
        StaysOpen(current, after, s);
        TracksElse(finished, current, rows, r, step, s, finished, after);
      }
    }
  }

  lemma BuildSame(finished: seq<Bar>, current: seq<Bar>, rows: seq<Row>, r: Row, step: int, i: nat)
    requires step > 0 && Building(finished, current, rows, step) && i < |current| && current[i].symbol == r.symbol
    requires current[i].start == Bucket(r.ns, step)
    ensures Building(finished, current[i := Take(current[i], r.what)], rows + [r], step)
  {
    var b := Take(current[i], r.what);
    var after := current[i := b];
    RowCounts(rows, r);
    TotalsPut(current, i, b);
    DistinctPut(current, i, b);
    forall s ensures Tracks(finished, after, rows + [r], step, s) {
      assert Tracks(finished, current, rows, step, s);
      if s == r.symbol {
        TracksSame(finished, current, rows, r, step, i);
      } else {
        OfPut(current, i, b, s);
        RowApart(rows, r, s);
        StaysOpen(current, after, s);
        TracksElse(finished, current, rows, r, step, s, finished, after);
      }
    }
  }

  lemma NextElsewhere(finished: seq<Bar>, current: seq<Bar>, rows: seq<Row>, r: Row, step: int, i: nat, b: Bar,
                      s: Symbol)
    requires step > 0 && Tracks(finished, current, rows, step, s) && i < |current|
    requires current[i].symbol == b.symbol == r.symbol != s
    ensures Tracks(finished + [current[i]], current[i := b], rows + [r], step, s)
  {
    var done, after := finished + [current[i]], current[i := b];
    OfPut(current, i, b, s);
    OfBarsMore(finished, current[i], s);
    RowApart(rows, r, s);
    StaysOpen(current, after, s);
    TracksElse(finished, current, rows, r, step, s, done, after);
  }

  lemma BuildNext(finished: seq<Bar>, current: seq<Bar>, rows: seq<Row>, r: Row, step: int, i: nat)
    requires step > 0 && Building(finished, current, rows, step) && i < |current| && current[i].symbol == r.symbol
    requires current[i].start != Bucket(r.ns, step)
    ensures Building(finished + [current[i]], current[i := Take(NewBar(r.symbol, Bucket(r.ns, step)), r.what)],
                     rows + [r], step)
  {
    var b := Take(NewBar(r.symbol, Bucket(r.ns, step)), r.what);
    var done, after := finished + [current[i]], current[i := b];
    ConservedNext(finished, current, rows, r, Bucket(r.ns, step), i);
    DistinctPut(current, i, b);
    forall s ensures Tracks(done, after, rows + [r], step, s) {
      assert Tracks(finished, current, rows, step, s);
      if s == r.symbol {
        TracksNext(finished, current, rows, r, step, i);
      } else {
        NextElsewhere(finished, current, rows, r, step, i, b, s);
      }
    }
  }

  lemma {:induction false} StreamTimeOrdered(rows: seq<Row>, s: Symbol)
    requires TimeOrdered(rows)
    ensures TimeOrdered(OfSymbol(rows, s))
    ensures forall k :: 0 <= k < |OfSymbol(rows, s)| ==> OfSymbol(rows, s)[k] in rows
  {
    if rows != [] {
      var n := |rows| - 1;
      StreamTimeOrdered(rows[..n], s);
      var before := OfSymbol(rows[..n], s);
      forall k | 0 <= k < |before| ensures before[k] in rows && before[k].ns <= rows[n].ns {
        var j :| 0 <= j < n && rows[j] == before[k];
      }
    }
  }

  lemma {:induction false} PositiveOfSymbol(rows: seq<Row>, s: Symbol)
    requires PositiveTrades(rows)
    ensures PositiveTrades(OfSymbol(rows, s))
  {
    if rows != [] {
      PositiveOfSymbol(rows[..|rows| - 1], s);
    }
  }

  /** A bar is among its symbol's bars. */
  lemma {:induction false} AmongItsOwn(bars: seq<Bar>, i: nat) returns (k: nat)
    requires i < |bars|
    ensures k < |OfBars(bars, bars[i].symbol)| && OfBars(bars, bars[i].symbol)[k] == bars[i]
  {
    var n := |bars| - 1;
    if i == n {
      k := |OfBars(bars[..n], bars[i].symbol)|;
    } else {
      k := AmongItsOwn(bars[..n], i);
    }
  }

  lemma BuiltSensible(bars: seq<Bar>, rows: seq<Row>, step: int, i: nat)
    requires step > 0 && PositiveTrades(rows) && i < |bars|
    requires OfBars(bars, bars[i].symbol) == Bars(bars[i].symbol, OfSymbol(rows, bars[i].symbol), step)
    ensures Sensible(bars[i])
  {
    var s := bars[i].symbol;
    var k := AmongItsOwn(bars, i);
    PositiveOfSymbol(rows, s);
    BarsSensible(s, OfSymbol(rows, s), step);
  }

  /** Every symbol's bars depend on its own rows alone, trades and volume are conserved over all bars, and
      for rows in time order there is one bar per symbol and bucket, over all of that bucket's rows. With positive
      quantities every bar is sensible. */
  method BuildBars(rows: seq<Row>, step: int) returns (r: Option<seq<Bar>>)
    ensures r.None? <==> step <= 0
    ensures r.Some? ==> forall s :: OfBars(r.value, s) == Bars(s, OfSymbol(rows, s), step)
    ensures r.Some? ==> TotalTrades(r.value) == Trades(rows) && TotalVolume(r.value) == Qty(rows)
    ensures r.Some? && TimeOrdered(rows) ==> forall s :: Grouped(s, OfSymbol(rows, s), step, OfBars(r.value, s))
    ensures r.Some? && PositiveTrades(rows) ==> forall i :: 0 <= i < |r.value| ==> Sensible(r.value[i])
  {
    if step <= 0 { return None; }
    var finished: seq<Bar>, current: seq<Bar> := [], [];
    for k := 0 to |rows|
      invariant Building(finished, current, rows[..k], step)
    {
      var row := rows[k];
      assert rows[..k + 1] == rows[..k] + [row];
      var i := FindOpen(current, row.symbol);
      if i == |current| {
        BuildFirst(finished, current, rows[..k], row, step);
        current := current + [Take(NewBar(row.symbol, Bucket(row.ns, step)), row.what)];
      } else if current[i].start != Bucket(row.ns, step) {
        BuildNext(finished, current, rows[..k], row, step, i);
        finished := finished + [current[i]];
        current := current[i := Take(NewBar(row.symbol, Bucket(row.ns, step)), row.what)];
      } else {
        BuildSame(finished, current, rows[..k], row, step, i);
        current := current[i := Take(current[i], row.what)];
      }
    }
    assert rows[..|rows|] == rows;
    BuiltBars(finished, current, rows, step);
    var bars := finished + current;
    if PositiveTrades(rows) {
      forall i | 0 <= i < |bars| ensures Sensible(bars[i]) { BuiltSensible(bars, rows, step, i); }
    }
    r := Some(bars);
  }

  lemma BuiltBars(finished: seq<Bar>, current: seq<Bar>, rows: seq<Row>, step: int)
    requires step > 0 && Building(finished, current, rows, step)
    ensures forall s :: OfBars(finished + current, s) == Bars(s, OfSymbol(rows, s), step)
    ensures TotalTrades(finished + current) == Trades(rows) && TotalVolume(finished + current) == Qty(rows)
    ensures TimeOrdered(rows) ==> forall s :: Grouped(s, OfSymbol(rows, s), step, OfBars(finished + current, s))
  {
    TotalsApart(finished, current);
    forall s
      ensures OfBars(finished + current, s) == Bars(s, OfSymbol(rows, s), step)
      ensures TimeOrdered(rows) ==> Grouped(s, OfSymbol(rows, s), step, OfBars(finished + current, s))
    {
      OfBarsApart(finished, current, s);
      assert Tracks(finished, current, rows, step, s);
      if TimeOrdered(rows) {
        StreamTimeOrdered(rows, s);
        BarsAreGrouped(s, OfSymbol(rows, s), step);
      }
    }
  }
}
