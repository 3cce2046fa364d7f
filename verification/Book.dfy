/** Rebuilding one symbol's order book from the tape (market_tape/book.py).

    `Rebuild` is the value of a book's fields and `Apply` what one row does to it;
    the class `Book` is the source's object, each method proved against that value.
    The venue is a log of numbered level updates per side. */
module OrderBook {
  import opened Options

  datatype Venue = Bybit | Binance

  datatype Level = Level(price: int, size: int)

  datatype Row = Row(
    venue: Venue, symbol: string, depth: int, snapshot: bool,
    bids: seq<Level>, asks: seq<Level>,
    updateId: int, previousUpdateId: int, firstUpdateId: int, sequenceGap: bool)

  /** One side of a book: size by price. */
  type Side = map<int, int>

  datatype Owner = Nobody | Owns(symbol: string, venue: Venue, depth: int)

  datatype Rebuild = Rebuild(
    owner: Owner, bids: Side, asks: Side,
    last: int, snap: int, applied: nat,
    valid: bool, awaiting: bool, held: seq<Row>)

  /** Diffs held while a Binance book waits for a snapshot it can chain onto. */
  const HELD_DELTAS: nat := 5000

  const FRESH := Rebuild(Nobody, map[], map[], 0, 0, 0, false, false, [])

  // ---------------------------------------------------------------- one row

  function SetLevel(side: Side, l: Level): Side {
    if l.size > 0 then side[l.price := l.size] else side - {l.price}
  }

  /** A delta's levels on a side: a size replaces, a zero removes. */
  function ChangeSide(side: Side, levels: seq<Level>): Side {
    if levels == [] then side
    else SetLevel(ChangeSide(side, levels[..|levels| - 1]), levels[|levels| - 1])
  }

  /** A snapshot's levels: zero sizes are left out. */
  function SnapshotSide(levels: seq<Level>): Side {
    if levels == [] then map[]
    else
      var rest := SnapshotSide(levels[..|levels| - 1]);
      var l := levels[|levels| - 1];
      if l.size > 0 then rest[l.price := l.size] else rest
  }

  function Change(s: Rebuild, row: Row): Rebuild {
    s.(bids := ChangeSide(s.bids, row.bids), asks := ChangeSide(s.asks, row.asks),
       last := row.updateId, applied := s.applied + 1)
  }

  /** The venue's chaining rule for one Binance diff; false is a diff that broke the book. */
  function BinanceDelta(s: Rebuild, row: Row): (Rebuild, bool) {
    if row.updateId < s.snap then (s, true)
    else if s.awaiting then
      if row.firstUpdateId <= s.snap <= row.updateId then (Change(s.(awaiting := false), row), true)
      else (s.(valid := false), false)
    else if row.sequenceGap || row.previousUpdateId != s.last then (s.(valid := false), false)
    else (Change(s, row), true)
  }

  /** Appending to the bounded deque: the oldest diff gives way. */
  function Hold(held: seq<Row>, row: Row): seq<Row> {
    if |held| < HELD_DELTAS then held + [row] else held[|held| + 1 - HELD_DELTAS..] + [row]
  }

  function TakeDelta(s: Rebuild, row: Row): Rebuild {
    if row.venue == Binance then
      if !s.valid then s.(held := Hold(s.held, row))
      else
        var (t, ok) := BinanceDelta(s, row);
        if !ok && !t.valid then t.(held := Hold(t.held, row)) else t
    else if !s.valid then s
    else if row.sequenceGap || row.updateId != s.last + 1 then s.(valid := false)
    else Change(s, row)
  }

  /** The held diffs against the snapshot that just landed, `s` having let go of them. */
  function Replay(s: Rebuild, held: seq<Row>): Rebuild
    decreases |held|
  {
    if held == [] then s
    else
      var (t, ok) := BinanceDelta(s, held[0]);
      if !ok && !t.valid then t.(held := t.held + held) else Replay(t, held[1..])
  }

  function Rebased(s: Rebuild, row: Row): Rebuild {
    s.(bids := SnapshotSide(row.bids), asks := SnapshotSide(row.asks),
       last := row.updateId, snap := row.updateId, applied := s.applied + 1,
       valid := true, awaiting := row.venue == Binance)
  }

  function TakeSnapshot(s: Rebuild, row: Row): Rebuild {
    var t := Rebased(s, row);
    if row.venue == Binance then Replay(t.(held := []), t.held) else t
  }

  predicate Accepts(owner: Owner, row: Row) {
    owner == Nobody || (owner.symbol == row.symbol && owner.depth == row.depth)
  }

  function Claim(owner: Owner, row: Row): Owner {
    if owner == Nobody then Owns(row.symbol, row.venue, row.depth) else owner
  }

  /** One row; a row of another symbol or depth is refused and changes nothing. */
  function Apply(s: Rebuild, row: Row): Rebuild {
    if !Accepts(s.owner, row) then s
    else
      var t := s.(owner := Claim(s.owner, row));
      if row.snapshot then TakeSnapshot(t, row) else TakeDelta(t, row)
  }

  function Run(s: Rebuild, rows: seq<Row>): Rebuild {
    if rows == [] then s else Apply(Run(s, rows[..|rows| - 1]), rows[|rows| - 1])
  }

  function RunDeltas(s: Rebuild, rows: seq<Row>): Rebuild {
    if rows == [] then s else TakeDelta(RunDeltas(s, rows[..|rows| - 1]), rows[|rows| - 1])
  }

  // -------------------------------------------------------------- the object

  class Book {
    var owner: Owner
    var bids: Side
    var asks: Side
    var lastUpdateId: int
    var snapshotUpdateId: int
    var rowsApplied: nat
    var valid: bool
    var awaitingFirstDelta: bool
    var held: seq<Row>

    function View(): Rebuild
      reads this
    {
      Rebuild(owner, bids, asks, lastUpdateId, snapshotUpdateId, rowsApplied, valid, awaitingFirstDelta, held)
    }

    constructor ()
      ensures View() == FRESH
    {
      owner, bids, asks, held := Nobody, map[], map[], [];
      lastUpdateId, snapshotUpdateId, rowsApplied := 0, 0, 0;
      valid, awaitingFirstDelta := false, false;
    }

    /** `None` is the refusal; otherwise whether the book is the venue's book afterwards. */
    method ApplyRow(row: Row) returns (good: Option<bool>)
      modifies this
      ensures View() == Apply(old(View()), row)
      ensures good == if Accepts(old(owner), row) then Some(valid) else None
    {
      if owner == Nobody {
        owner := Owns(row.symbol, row.venue, row.depth);
      } else if row.symbol != owner.symbol || row.depth != owner.depth {
        return None;
      }
      var verdict: bool;
      if row.snapshot {
        verdict := SnapshotRow(row);
      } else {
        verdict := DeltaRow(row);
      }
      good := Some(verdict);
    }

    method SnapshotRow(row: Row) returns (good: bool)
      modifies this
      ensures View() == TakeSnapshot(old(View()), row)
      ensures good == valid
    {
      var side: Side := map[];
      for i := 0 to |row.bids|
        invariant side == SnapshotSide(row.bids[..i])
      {
        assert row.bids[..i + 1][..i] == row.bids[..i];
        if row.bids[i].size > 0 { side := side[row.bids[i].price := row.bids[i].size]; }
      }
      assert row.bids[..|row.bids|] == row.bids;
      var other: Side := map[];
      for i := 0 to |row.asks|
        invariant other == SnapshotSide(row.asks[..i])
      {
        assert row.asks[..i + 1][..i] == row.asks[..i];
        if row.asks[i].size > 0 { other := other[row.asks[i].price := row.asks[i].size]; }
      }
      assert row.asks[..|row.asks|] == row.asks;
      bids, asks := side, other;
      lastUpdateId, snapshotUpdateId := row.updateId, row.updateId;
      awaitingFirstDelta := row.venue == Binance;
      valid := true;
      rowsApplied := rowsApplied + 1;
      if row.venue == Binance {
        ReplayHeld();
      }
      good := valid;
    }

    method ReplayHeld()
      modifies this
      ensures View() == Replay(old(View()).(held := []), old(held))
    {
      var waiting := held;
      held := [];
      var i := 0;
      while i < |waiting|
        invariant 0 <= i <= |waiting|
        invariant held == []
        invariant Replay(View(), waiting[i..]) == Replay(old(View()).(held := []), waiting)
      {
        assert waiting[i..][1..] == waiting[i + 1..];
        var ok := BinanceRow(waiting[i]);
        if !ok && !valid {
          held := held + waiting[i..];
          return;
        }
        i := i + 1;
      }
    }

    method DeltaRow(row: Row) returns (good: bool)
      modifies this
      ensures View() == TakeDelta(old(View()), row)
      ensures good == valid
    {
      if row.venue == Binance {
        if !valid {
          held := Hold(held, row);
          return false;
        }
        good := BinanceRow(row);
        if !good && !valid {
          held := Hold(held, row);
        }
        return;
      }
      if !valid {
        return false;
      }
      if row.sequenceGap || row.updateId != lastUpdateId + 1 {
        valid := false;
        return false;
      }
      ChangeLevels(row);
      return true;
    }

    method BinanceRow(row: Row) returns (ok: bool)
      modifies this
      ensures (View(), ok) == BinanceDelta(old(View()), row)
    {
      if row.updateId < snapshotUpdateId {
        return true;
      }
      if awaitingFirstDelta {
        if !(row.firstUpdateId <= snapshotUpdateId <= row.updateId) {
          valid := false;
          return false;
        }
        awaitingFirstDelta := false;
      } else if row.sequenceGap || row.previousUpdateId != lastUpdateId {
        valid := false;
        return false;
      }
      ChangeLevels(row);
      return true;
    }

    method ChangeLevels(row: Row)
      modifies this
      ensures View() == Change(old(View()), row)
    {
      for i := 0 to |row.bids|
        invariant View() == old(View()).(bids := ChangeSide(old(bids), row.bids[..i]))
      {
        assert row.bids[..i + 1][..i] == row.bids[..i];
        if row.bids[i].size > 0 {
          bids := bids[row.bids[i].price := row.bids[i].size];
        } else {
          bids := bids - {row.bids[i].price};
        }
      }
      assert row.bids[..|row.bids|] == row.bids;
      for i := 0 to |row.asks|
        invariant View() == old(View()).(bids := ChangeSide(old(bids), row.bids),
                                         asks := ChangeSide(old(asks), row.asks[..i]))
      {
        assert row.asks[..i + 1][..i] == row.asks[..i];
        if row.asks[i].size > 0 {
          asks := asks[row.asks[i].price := row.asks[i].size];
        } else {
          asks := asks - {row.asks[i].price};
        }
      }
      assert row.asks[..|row.asks|] == row.asks;
      lastUpdateId := row.updateId;
      rowsApplied := rowsApplied + 1;
    }
  }

  // --------------------------------------------------------------- the venue

  /** Update `n + 1` of the venue changes the levels `bids[n]` and `asks[n]`. */
  datatype Log = Log(bids: seq<seq<Level>>, asks: seq<seq<Level>>) {
    ghost predicate Valid() { |bids| == |asks| }
  }

  /** The venue's side once it has made its first `n` updates. */
  function SideAt(log: seq<seq<Level>>, n: nat): Side
    requires n <= |log|
  {
    if n == 0 then map[] else ChangeSide(SideAt(log, n - 1), log[n - 1])
  }

  function SizeOf(side: Side, price: int): int {
    if price in side then side[price] else 0
  }

  ghost predicate Positive(side: Side) {
    forall p :: p in side ==> side[p] > 0
  }

  ghost predicate Lists(levels: seq<Level>, price: int) {
    exists k :: 0 <= k < |levels| && levels[k].price == price
  }

  /** `levels` carries the size, as of update `to`, of every price the updates `(from, to]`
      touched: what a coalesced diff says. It may carry others. */
  ghost predicate Coalesces(log: seq<seq<Level>>, levels: seq<Level>, from: int, to: int) {
    && 0 <= from <= to <= |log|
    && (forall k :: 0 <= k < |levels| ==>
          SizeOf(SideAt(log, to), levels[k].price) == (if levels[k].size > 0 then levels[k].size else 0))
    && (forall n, j :: from <= n < to && 0 <= j < |log[n]| ==> Lists(levels, log[n][j].price))
  }

  /** A row the venue sent about this log. A Bybit delta carries the one update its id names;
      a Binance diff carries `(pu, u]`, its first id somewhere in that range. */
  ghost predicate Honest(log: Log, row: Row) {
    if row.snapshot then
      && 0 <= row.updateId <= |log.bids|
      && log.Valid()
      && SnapshotSide(row.bids) == SideAt(log.bids, row.updateId)
      && SnapshotSide(row.asks) == SideAt(log.asks, row.updateId)
    else
      var from := if row.venue == Binance then row.previousUpdateId else row.updateId - 1;
      && (row.venue == Binance ==> from < row.firstUpdateId)
      && log.Valid()
      && Coalesces(log.bids, row.bids, from, row.updateId)
      && Coalesces(log.asks, row.asks, from, row.updateId)
  }

  lemma {:induction false} ChangeKeepsPositive(side: Side, levels: seq<Level>)
    requires Positive(side)
    ensures Positive(ChangeSide(side, levels))
  {
    if levels != [] { ChangeKeepsPositive(side, levels[..|levels| - 1]); }
  }

  lemma {:induction false} VenuePositive(log: seq<seq<Level>>, n: nat)
    requires n <= |log|
    ensures Positive(SideAt(log, n))
  {
    if n > 0 {
      VenuePositive(log, n - 1);
      ChangeKeepsPositive(SideAt(log, n - 1), log[n - 1]);
    }
  }

  /** Where a price ends up when every listing of it names the same size. */
  lemma {:induction false} Settles(side: Side, levels: seq<Level>, price: int, size: int)
    requires forall k :: 0 <= k < |levels| && levels[k].price == price ==>
                           size == (if levels[k].size > 0 then levels[k].size else 0)
    ensures SizeOf(ChangeSide(side, levels), price) == if Lists(levels, price) then size else SizeOf(side, price)
  {
    if levels != [] {
      var n := |levels| - 1;
      Settles(side, levels[..n], price, size);
      if levels[n].price != price && Lists(levels, price) {
        var k :| 0 <= k < |levels| && levels[k].price == price;
        assert levels[..n][k].price == price;
      }
      if Lists(levels[..n], price) {
        var k :| 0 <= k < n && levels[..n][k].price == price;
        assert levels[k].price == price;
      }
    }
  }

  lemma {:induction false} Untouched(log: seq<seq<Level>>, from: nat, upto: nat, price: int)
    requires from <= upto <= |log|
    requires forall n :: from <= n < upto ==> !Lists(log[n], price)
    ensures SizeOf(SideAt(log, upto), price) == SizeOf(SideAt(log, from), price)
    decreases upto
  {
    if from < upto {
      Untouched(log, from, upto - 1, price);
      assert !Lists(log[upto - 1], price);
      Settles(SideAt(log, upto - 1), log[upto - 1], price, 0);
    }
  }

  /** A coalesced diff carries the book from any update inside its range to its last one. */
  lemma DiffReaches(log: seq<seq<Level>>, levels: seq<Level>, from: int, at: int, to: int)
    requires Coalesces(log, levels, from, to) && from <= at <= to
    ensures ChangeSide(SideAt(log, at), levels) == SideAt(log, to)
  {
    var before, after := SideAt(log, at), SideAt(log, to);
    var got := ChangeSide(before, levels);
    VenuePositive(log, at);
    VenuePositive(log, to);
    ChangeKeepsPositive(before, levels);
    forall p
      ensures SizeOf(got, p) == SizeOf(after, p)
    {
      Settles(before, levels, p, SizeOf(after, p));
      if !Lists(levels, p) {
        forall n | at <= n < to
          ensures !Lists(log[n], p)
        {
        }
        Untouched(log, at, to, p);
      }
    }
    forall p
      ensures p in got <==> p in after
      ensures p in got ==> got[p] == after[p]
    {
      assert SizeOf(got, p) == SizeOf(after, p);
    }
  }

  // --------------------------------------------------------------- the theorems

  /** What every reachable book keeps: when it says it is good it is the venue's book at the id it
      names, nothing is held then, and whatever is held came from the venue. */
  ghost predicate Sound(log: Log, s: Rebuild) {
    && log.Valid()
    && |s.held| <= HELD_DELTAS
    && (forall i :: 0 <= i < |s.held| ==> s.held[i].venue == Binance && !s.held[i].snapshot && Honest(log, s.held[i]))
    && (s.valid ==>
          && 0 <= s.last <= |log.bids|
          && s.bids == SideAt(log.bids, s.last)
          && s.asks == SideAt(log.asks, s.last)
          && s.held == []
          && (s.awaiting ==> s.last == s.snap))
  }

  lemma BinanceDeltaSound(log: Log, s: Rebuild, row: Row)
    requires Sound(log, s) && s.valid
    requires Honest(log, row) && !row.snapshot && row.venue == Binance
    ensures Sound(log, BinanceDelta(s, row).0)
    ensures BinanceDelta(s, row).1 == BinanceDelta(s, row).0.valid
  {
    if BinanceDelta(s, row).1 && row.updateId >= s.snap {
      DiffReaches(log.bids, row.bids, row.previousUpdateId, s.last, row.updateId);
      DiffReaches(log.asks, row.asks, row.previousUpdateId, s.last, row.updateId);
    }
  }

  lemma {:induction false} ReplaySound(log: Log, s: Rebuild, held: seq<Row>)
    requires Sound(log, s) && s.valid
    requires |held| <= HELD_DELTAS
    requires forall i :: 0 <= i < |held| ==> held[i].venue == Binance && !held[i].snapshot && Honest(log, held[i])
    ensures Sound(log, Replay(s, held))
    decreases |held|
  {
    if held != [] {
      BinanceDeltaSound(log, s, held[0]);
      var (t, ok) := BinanceDelta(s, held[0]);
      if ok { ReplaySound(log, t, held[1..]); }
    }
  }

  lemma ApplySound(log: Log, s: Rebuild, row: Row)
    requires Sound(log, s) && Honest(log, row)
    requires row.venue == Bybit ==> s.held == [] && !s.awaiting
    ensures Sound(log, Apply(s, row))
    ensures row.venue == Bybit ==> Apply(s, row).held == [] && !Apply(s, row).awaiting
  {
    if Accepts(s.owner, row) {
      var t := s.(owner := Claim(s.owner, row));
      if row.snapshot {
        if row.venue == Binance {
          ReplaySound(log, Rebased(t, row).(held := []), t.held);
        }
      } else if row.venue == Binance {
        if s.valid { BinanceDeltaSound(log, t, row); }
      } else if s.valid && !row.sequenceGap && row.updateId == s.last + 1 {
        DiffReaches(log.bids, row.bids, s.last, s.last, row.updateId);
        DiffReaches(log.asks, row.asks, s.last, s.last, row.updateId);
      }
    }
  }

  /** Safety of the rebuild: whatever rows of one venue arrive, dropped, repeated or out of order,
      a book that says it is good holds the venue's levels at its last id, all sizes positive. */
  lemma {:induction false} RunIsSafe(log: Log, venue: Venue, rows: seq<Row>)
    requires log.Valid()
    requires forall i :: 0 <= i < |rows| ==> rows[i].venue == venue && Honest(log, rows[i])
    ensures var s := Run(FRESH, rows);
            && Sound(log, s)
            && (venue == Bybit ==> s.held == [] && !s.awaiting)
            && (s.valid ==>
                  && 0 <= s.last <= |log.bids|
                  && s.bids == SideAt(log.bids, s.last) && Positive(s.bids)
                  && s.asks == SideAt(log.asks, s.last) && Positive(s.asks))
  {
    if rows != [] {
      var n := |rows| - 1;
      RunIsSafe(log, venue, rows[..n]);
      ApplySound(log, Run(FRESH, rows[..n]), rows[n]);
    }
    var s := Run(FRESH, rows);
    if s.valid {
      VenuePositive(log.bids, s.last);
      VenuePositive(log.asks, s.last);
    }
  }

  predicate IsDiff(row: Row) { row.venue == Binance && !row.snapshot }

  predicate AllDiffs(rows: seq<Row>) { forall i :: 0 <= i < |rows| ==> IsDiff(rows[i]) }

  function Min(a: int, b: int): int { if a < b then a else b }

  /** What the deque keeps of `rows` appended to `held`. */
  function Newest(rows: seq<Row>): seq<Row> {
    rows[|rows| - Min(|rows|, HELD_DELTAS)..]
  }

  lemma {:induction false} RunDeltasApart(s: Rebuild, a: seq<Row>, b: seq<Row>)
    ensures RunDeltas(s, a + b) == RunDeltas(RunDeltas(s, a), b)
  {
    if b == [] {
      assert a + b == a;
    } else {
      var n := |b| - 1;
      RunDeltasApart(s, a, b[..n]);
      assert (a + b)[..|a + b| - 1] == a + b[..n];
    }
  }

  lemma DropTwice(rows: seq<Row>, a: nat)
    requires a < |rows|
    ensures rows[a..][1..] == rows[a + 1..]
  {
  }

  lemma DropAppend(rows: seq<Row>, row: Row, a: nat)
    requires a <= |rows|
    ensures (rows + [row])[a..] == rows[a..] + [row]
  {
  }

  lemma NewestAll(rows: seq<Row>)
    requires |rows| <= HELD_DELTAS
    ensures Newest(rows) == rows
  {
  }

  lemma NewestHolds(rows: seq<Row>, row: Row)
    ensures Newest(rows + [row]) == Hold(Newest(rows), row)
  {
    if |rows| < HELD_DELTAS {
      NewestAll(rows);
      NewestAll(rows + [row]);
    } else {
      var a := |rows| - HELD_DELTAS;
      DropTwice(rows, a);
      DropAppend(rows, row, a + 1);
    }
  }

  function HoldAll(held: seq<Row>, rows: seq<Row>): seq<Row> {
    if rows == [] then held else Hold(HoldAll(held, rows[..|rows| - 1]), rows[|rows| - 1])
  }

  lemma {:induction false} HoldAllIsNewest(held: seq<Row>, rows: seq<Row>)
    requires |held| <= HELD_DELTAS
    ensures HoldAll(held, rows) == Newest(held + rows)
  {
    if rows == [] {
      assert held + rows == held;
    } else {
      var n := |rows| - 1;
      HoldAllIsNewest(held, rows[..n]);
      NewestHolds(held + rows[..n], rows[n]);
      assert held + rows == held + rows[..n] + [rows[n]];
    }
  }

  lemma {:induction false} InvalidCollects(s: Rebuild, rows: seq<Row>)
    requires !s.valid && AllDiffs(rows)
    ensures RunDeltas(s, rows) == s.(held := HoldAll(s.held, rows))
  {
    if rows != [] {
      var n := |rows| - 1;
      InvalidCollects(s, rows[..n]);
      assert IsDiff(rows[n]);
    }
  }

  /** A book without a snapshot only collects, newest first to stay. */
  lemma InvalidHolds(s: Rebuild, rows: seq<Row>)
    requires !s.valid && AllDiffs(rows) && |s.held| <= HELD_DELTAS
    ensures RunDeltas(s, rows) == s.(held := Newest(s.held + rows))
  {
    InvalidCollects(s, rows);
    HoldAllIsNewest(s.held, rows);
  }

  lemma OneDelta(s: Rebuild, held: seq<Row>)
    requires held != []
    ensures RunDeltas(s, held) == RunDeltas(TakeDelta(s, held[0]), held[1..])
  {
    assert held == [held[0]] + held[1..];
    RunDeltasApart(s, [held[0]], held[1..]);
    assert [held[0]][..0] == [];
    assert RunDeltas(s, [held[0]]) == TakeDelta(RunDeltas(s, []), held[0]);
  }

  /** A replay that breaks holds what was left, as taking the rest one at a time does. */
  lemma BrokenHoldsRest(t: Rebuild, held: seq<Row>)
    requires !t.valid && t.held == [] && held != [] && AllDiffs(held) && |held| <= HELD_DELTAS
    ensures RunDeltas(t.(held := Hold(t.held, held[0])), held[1..]) == t.(held := t.held + held)
  {
    assert Hold([], held[0]) == [held[0]];
    InvalidHolds(t.(held := [held[0]]), held[1..]);
    assert [held[0]] + held[1..] == held && [] + held == held;
    NewestAll(held);
  }

  /** Replaying held diffs is applying them one at a time, as many as the buffer takes. */
  lemma {:induction false} ReplayIsInOrder(s: Rebuild, held: seq<Row>)
    requires s.valid && s.held == [] && AllDiffs(held) && |held| <= HELD_DELTAS
    ensures Replay(s, held) == RunDeltas(s, held)
    decreases |held|
  {
    if held != [] {
      var (t, ok) := BinanceDelta(s, held[0]);
      OneDelta(s, held);
      assert IsDiff(held[0]) && t.held == [];
      if ok {
        ReplayIsInOrder(t, held[1..]);
      } else {
        BrokenHoldsRest(t, held);
      }
    }
  }

  /** Diffs of the snapshot's own book. */
  ghost predicate Matching(snapshot: Row, diffs: seq<Row>) {
    forall i :: 0 <= i < |diffs| ==>
      IsDiff(diffs[i]) && diffs[i].symbol == snapshot.symbol && diffs[i].depth == snapshot.depth
  }

  lemma SnapshotAmong(snapshot: Row, before: seq<Row>, after: seq<Row>)
    requires Matching(snapshot, before) && Matching(snapshot, after) && snapshot.snapshot && snapshot.venue == Binance
    ensures Run(FRESH, before + [snapshot] + after) == Run(FRESH, [snapshot] + (Newest(before) + after))
  {
    var kept := Newest(before);
    var landed := Rebased(FRESH.(owner := Owns(snapshot.symbol, Binance, snapshot.depth)), snapshot);
    HeldThenLanded(snapshot, before);
    RunAfter(before, snapshot, after, RunDeltas(landed, kept), landed.owner);
    RunDeltasApart(landed, kept, after);
    SnapshotFirst(snapshot, kept + after, landed);
  }

  lemma SnapshotFirst(snapshot: Row, diffs: seq<Row>, landed: Rebuild)
    requires Matching(snapshot, diffs) && snapshot.snapshot && snapshot.venue == Binance
    requires landed == Rebased(FRESH.(owner := Owns(snapshot.symbol, Binance, snapshot.depth)), snapshot)
    ensures Run(FRESH, [snapshot] + diffs) == RunDeltas(landed, diffs)
  {
    RunAfter([], snapshot, diffs, landed, landed.owner);
    assert [] + [snapshot] + diffs == [snapshot] + diffs;
  }

  /** A fresh book that takes `diffs` with one snapshot at place `k` ends in every field where it
      would with the snapshot first and then the diffs still held at that point and after: for
      `k` within the hold buffer that is all of them, so where the snapshot falls does not matter. */
  lemma SnapshotPlaceDoesNotMatter(snapshot: Row, diffs: seq<Row>, k: nat)
    requires Matching(snapshot, diffs) && snapshot.snapshot && snapshot.venue == Binance && k <= |diffs|
    ensures Run(FRESH, diffs[..k] + [snapshot] + diffs[k..])
         == Run(FRESH, [snapshot] + diffs[k - Min(k, HELD_DELTAS)..])
  {
    SnapshotAmong(snapshot, diffs[..k], diffs[k..]);
    assert Newest(diffs[..k]) + diffs[k..] == diffs[k - Min(k, HELD_DELTAS)..];
  }

  /** What a fresh book is after diffs alone: it has held the newest. */
  lemma FreshHolds(snapshot: Row, diffs: seq<Row>)
    requires Matching(snapshot, diffs) && snapshot.venue == Binance
    ensures var owner := Owns(snapshot.symbol, Binance, snapshot.depth);
            Run(FRESH, diffs) == if diffs == [] then FRESH else FRESH.(owner := owner, held := Newest(diffs))
  {
    var owner := Owns(snapshot.symbol, Binance, snapshot.depth);
    RunIsDeltas(FRESH, owner, diffs);
    InvalidHolds(FRESH.(owner := owner), diffs);
    assert [] + diffs == diffs;
  }

  /** A snapshot on a fresh book's held diffs leaves what applying those diffs after it would. */
  lemma HeldThenLanded(snapshot: Row, diffs: seq<Row>)
    requires Matching(snapshot, diffs) && snapshot.snapshot && snapshot.venue == Binance
    ensures var owner := Owns(snapshot.symbol, Binance, snapshot.depth);
            var landed := Rebased(FRESH.(owner := owner), snapshot);
            && Apply(Run(FRESH, diffs), snapshot) == RunDeltas(landed, Newest(diffs))
            && RunDeltas(landed, Newest(diffs)).owner == owner
  {
    var owner := Owns(snapshot.symbol, Binance, snapshot.depth);
    var landed := Rebased(FRESH.(owner := owner), snapshot);
    FreshHolds(snapshot, diffs);
    assert diffs == [] ==> Newest(diffs) == [];
    assert Apply(Run(FRESH, diffs), snapshot) == Replay(landed, Newest(diffs));
    MatchingNewest(snapshot, diffs);
    ReplayIsInOrder(landed, Newest(diffs));
    RunIsDeltas(landed, owner, Newest(diffs));
  }

  lemma MatchingNewest(snapshot: Row, diffs: seq<Row>)
    requires Matching(snapshot, diffs)
    ensures Matching(snapshot, Newest(diffs)) && AllDiffs(Newest(diffs))
  {
  }

  /** A row of the owner's own book that is no snapshot. */
  predicate DeltaOf(owner: Owner, row: Row) {
    owner.Owns? && !row.snapshot && row.symbol == owner.symbol && row.depth == owner.depth && row.venue == owner.venue
  }

  ghost predicate AllDeltasOf(owner: Owner, rows: seq<Row>) {
    forall i :: 0 <= i < |rows| ==> DeltaOf(owner, rows[i])
  }

  lemma ApplyIsDelta(s: Rebuild, owner: Owner, row: Row)
    requires DeltaOf(owner, row) && (s.owner == Nobody || s.owner == owner)
    ensures Apply(s, row) == TakeDelta(s.(owner := owner), row) && TakeDelta(s.(owner := owner), row).owner == owner
  {
  }

  /** Rows of the book's own symbol and depth, none a snapshot, reach the book as deltas. */
  lemma {:induction false} RunIsDeltas(s: Rebuild, owner: Owner, rows: seq<Row>)
    requires owner.Owns? && (s.owner == Nobody || s.owner == owner) && AllDeltasOf(owner, rows)
    ensures Run(s, rows) == if rows == [] then s else RunDeltas(s.(owner := owner), rows)
    ensures RunDeltas(s.(owner := owner), rows).owner == owner
  {
    if rows != [] {
      var n := |rows| - 1;
      var init := rows[..n];
      RunIsDeltas(s, owner, init);
      assert DeltaOf(owner, rows[n]);
      var before, taken := Run(s, init), RunDeltas(s.(owner := owner), init);
      ApplyIsDelta(before, owner, rows[n]);
      assert before.(owner := owner) == taken;
    }
  }

  lemma {:induction false} RunApart(s: Rebuild, a: seq<Row>, b: seq<Row>)
    ensures Run(s, a + b) == Run(Run(s, a), b)
  {
    if b == [] {
      assert a + b == a;
    } else {
      var n := |b| - 1;
      RunApart(s, a, b[..n]);
      assert (a + b)[..|a + b| - 1] == a + b[..n];
    }
  }

  lemma RunAfter(before: seq<Row>, snapshot: Row, after: seq<Row>, landed: Rebuild, owner: Owner)
    requires Apply(Run(FRESH, before), snapshot) == landed && landed.owner == owner && owner.Owns?
    requires AllDeltasOf(owner, after)
    ensures Run(FRESH, before + [snapshot] + after) == RunDeltas(landed, after)
  {
    RunApart(FRESH, before + [snapshot], after);
    assert (before + [snapshot])[..|before|] == before;
    assert landed.(owner := owner) == landed;
    RunIsDeltas(landed, owner, after);
  }

  /** Diffs as the venue streams them: each names the one before it, and only the first of a
      connection carries the recorder's gap flag. */
  ghost predicate Chained(diffs: seq<Row>) {
    && AllDiffs(diffs)
    && (forall i :: 0 <= i < |diffs| ==> diffs[i].previousUpdateId < diffs[i].updateId)
    && (forall i :: 0 < i < |diffs| ==> Follows(diffs, i))
  }

  predicate Follows(diffs: seq<Row>, i: int)
    requires 0 < i < |diffs|
  {
    diffs[i].previousUpdateId == diffs[i - 1].updateId && !diffs[i].sequenceGap
  }

  /** The first diff not older than `id` starts at or before it. */
  ghost predicate Spanned(diffs: seq<Row>, id: int) {
    forall i :: 0 <= i < |diffs| ==> SpannedAt(diffs, i, id)
  }

  predicate SpannedAt(diffs: seq<Row>, i: int, id: int)
    requires 0 <= i < |diffs|
  {
    diffs[i].updateId >= id && (i == 0 || diffs[i - 1].updateId < id) ==> diffs[i].firstUpdateId <= id
  }

  /** An unbroken stream makes the book good exactly when it spans the snapshot; the book then
      stands at the stream's last id, or still at the snapshot when every diff is older. */
  lemma {:induction false} UnbrokenStreamVerdict(s: Rebuild, diffs: seq<Row>)
    requires s.valid && s.awaiting && s.held == [] && s.last == s.snap
    requires Chained(diffs)
    ensures var t := RunDeltas(s, diffs);
            && (t.valid <==> Spanned(diffs, s.snap))
            && t.snap == s.snap
            && (t.valid ==>
                  var past := diffs != [] && diffs[|diffs| - 1].updateId >= s.snap;
                  && t.awaiting == !past
                  && t.last == if past then diffs[|diffs| - 1].updateId else s.snap)
  {
    if diffs != [] {
      var n := |diffs| - 1;
      ChainedPart(diffs, n);
      UnbrokenStreamVerdict(s, diffs[..n]);
      SpannedByOneMore(diffs, s.snap);
      if n > 0 {
        assert Follows(diffs, n) && diffs[..n][n - 1] == diffs[n - 1];
      }
    }
  }

  lemma SpannedByOneMore(diffs: seq<Row>, id: int)
    requires diffs != []
    ensures Spanned(diffs, id) <==> Spanned(diffs[..|diffs| - 1], id) && SpannedAt(diffs, |diffs| - 1, id)
  {
    var n := |diffs| - 1;
    forall i | 0 <= i < n ensures SpannedAt(diffs[..n], i, id) == SpannedAt(diffs, i, id) { }
    if Spanned(diffs[..n], id) && SpannedAt(diffs, n, id) {
      forall i | 0 <= i < |diffs| ensures SpannedAt(diffs, i, id) {
        if i < n { assert SpannedAt(diffs[..n], i, id); }
      }
    }
  }

  lemma ChainedPart(diffs: seq<Row>, n: nat)
    requires Chained(diffs) && n <= |diffs|
    ensures Chained(diffs[..n]) && Chained(diffs[n..])
  {
    forall i | 0 < i < n ensures Follows(diffs[..n], i) { assert Follows(diffs, i); }
    forall i | 0 < i < |diffs| - n ensures Follows(diffs[n..], i) { assert Follows(diffs, n + i); }
  }

  /** Wherever the one snapshot falls in an unbroken stream, the book ends good exactly when the
      diffs the buffer still had then, and those after, span it. */
  lemma UnbrokenStreamAtAnyPlace(snapshot: Row, diffs: seq<Row>, k: nat)
    requires Chained(diffs) && Matching(snapshot, diffs) && snapshot.snapshot && snapshot.venue == Binance
             && k <= |diffs|
    ensures Run(FRESH, diffs[..k] + [snapshot] + diffs[k..]).valid
       <==> Spanned(diffs[k - Min(k, HELD_DELTAS)..], snapshot.updateId)
  {
    var seen := diffs[k - Min(k, HELD_DELTAS)..];
    var landed := Rebased(FRESH.(owner := Owns(snapshot.symbol, Binance, snapshot.depth)), snapshot);
    SnapshotPlaceDoesNotMatter(snapshot, diffs, k);
    SnapshotFirst(snapshot, seen, landed);
    ChainedPart(diffs, k - Min(k, HELD_DELTAS));
    UnbrokenStreamVerdict(landed, seen);
  }

  /** Bybit: after a snapshot the book is good exactly while the ids count up by one, unflagged. */
  lemma {:induction false} BybitVerdict(s: Rebuild, deltas: seq<Row>)
    requires s.valid
    requires forall i :: 0 <= i < |deltas| ==> deltas[i].venue == Bybit && !deltas[i].snapshot
    ensures var t := RunDeltas(s, deltas);
            && (t.valid <==> forall i :: 0 <= i < |deltas| ==>
                  deltas[i].updateId == s.last + 1 + i && !deltas[i].sequenceGap)
            && (t.valid ==> t.last == s.last + |deltas| && t.applied == s.applied + |deltas|)
  {
    if deltas != [] {
      var n := |deltas| - 1;
      var init := deltas[..n];
      BybitVerdict(s, init);
      assert forall i :: 0 <= i < n ==> init[i] == deltas[i];
    }
  }
}
