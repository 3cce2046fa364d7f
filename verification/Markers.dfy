/** Download coverage markers of one dataset, symbol and suffix
    (liquidity_migration/data/downloaders.py, `_download_symbol_dataset` and its marker helpers).
    A marker file claims a half-open range; an empty file claims nothing. A download may be killed
    between any two changes it makes on disk. */
module CoverageMarkers {
  import opened Options

  datatype Row = Row(ms: int)

  datatype Marker = Marker(start: int, end: int)

  /** Which marker files exist, and whether each has been written. */
  type Files = map<Marker, bool>

  predicate Claims(files: Files, m: Marker) { m in files && files[m] }

  predicate Inside(x: Row, start: int, end: int) { start <= x.ms < end }

  /** Storage holds every row the provider has in the range. */
  ghost predicate Backed(provider: set<Row>, storage: set<Row>, start: int, end: int) {
    forall x :: x in provider && Inside(x, start, end) ==> x in storage
  }

  /** No marker claims more than storage holds. */
  ghost predicate Sound(provider: set<Row>, storage: set<Row>, files: Files) {
    forall m :: Claims(files, m) ==> Backed(provider, storage, m.start, m.end)
  }

  predicate Relevant(files: Files, start: int, m: Marker) { Claims(files, m) && m.start <= start }

  /** The answer a coverage lookup must give: the latest end among claims that start in time. */
  ghost predicate Covers(files: Files, start: int, best: Option<int>) {
    && (forall m :: Relevant(files, start, m) ==> best.Some? && m.end <= best.value)
    && (best.Some? ==> exists m :: Relevant(files, start, m) && m.end == best.value)
  }

  /** Every lookup answers the same. */
  ghost predicate SameAnswers(a: Files, b: Files) {
    forall start, best :: Covers(a, start, best) <==> Covers(b, start, best)
  }

  ghost predicate Contained(files: Files, m: Marker) {
    exists n :: Claims(files, n) && n.start <= m.start && m.end <= n.end
  }

  /** What was claimed is still claimed, perhaps by a wider marker: no lookup answers less. */
  ghost predicate NoLess(before: Files, after: Files) {
    forall m {:trigger Contained(after, m)} :: Claims(before, m) ==> Contained(after, m)
  }

  ghost predicate NoMore(before: Files, after: Files) {
    forall m :: Claims(after, m) ==> Claims(before, m)
  }

  lemma NoLessTwice(a: Files, b: Files, c: Files)
    requires NoLess(a, b) && NoLess(b, c)
    ensures NoLess(a, c)
  {
    forall m | Claims(a, m) ensures Contained(c, m) {
      assert Contained(b, m);
      var n :| Claims(b, n) && n.start <= m.start && m.end <= n.end;
      assert Contained(c, n);
    }
  }

  /** Claims that only lost contained ones answer every lookup as before. */
  lemma NoLessNoMore(a: Files, b: Files)
    requires NoLess(a, b) && NoMore(a, b)
    ensures SameAnswers(a, b)
  {
    forall start, best ensures Covers(a, start, best) <==> Covers(b, start, best) {
      if Covers(b, start, best) { CoversMore(a, b, start, best); }
      if Covers(a, start, best) { CoversLess(a, b, start, best); }
    }
  }

  lemma CoversMore(a: Files, b: Files, start: int, best: Option<int>)
    requires NoLess(a, b) && NoMore(a, b) && Covers(b, start, best)
    ensures Covers(a, start, best)
  {
    forall m | Relevant(a, start, m) ensures best.Some? && m.end <= best.value {
      assert Contained(b, m);
      var n :| Claims(b, n) && n.start <= m.start && m.end <= n.end;
      assert Relevant(b, start, n);
    }
    if best.Some? {
      var m :| Relevant(b, start, m) && m.end == best.value;
      assert Relevant(a, start, m);
    }
  }

  lemma CoversLess(a: Files, b: Files, start: int, best: Option<int>)
    requires NoLess(a, b) && NoMore(a, b) && Covers(a, start, best)
    ensures Covers(b, start, best)
  {
    forall m | Relevant(b, start, m) ensures best.Some? && m.end <= best.value {
      assert Relevant(a, start, m);
    }
    if best.Some? {
      var m :| Relevant(a, start, m) && m.end == best.value;
      assert Contained(b, m);
      var n :| Claims(b, n) && n.start <= m.start && m.end <= n.end;
      assert Relevant(a, start, n) && Relevant(b, start, n);
    }
  }

  /** Emptying a marker that claims nothing loses no claim, and writing it loses none. */
  lemma StillClaimed(files: Files, m: Marker)
    ensures NoLess(files, files[m := true])
    ensures !Claims(files, m) ==> NoLess(files, files[m := false])
  {
    forall n | Claims(files, n) ensures Contained(files[m := true], n) {
      assert Claims(files[m := true], n);
    }
    forall n | Claims(files, n) && !Claims(files, m) ensures Contained(files[m := false], n) {
      assert Claims(files[m := false], n);
    }
  }

  /** Only claims the marker contains are gone. */
  ghost predicate Thinned(m: Marker, before: Files, after: Files) {
    Claims(after, m) && NoLess(before, after) && NoMore(before, after)
  }

  /** `n` lies inside `m`. */
  predicate Inner(n: Marker, m: Marker) { n.start >= m.start && n.end <= m.end }

  /** Markers that are not inside `m` are all as they were, and so is `m`. */
  ghost predicate Outside(m: Marker, before: Files, after: Files) {
    forall n :: n in before && (n == m || !Inner(n, m)) ==> n in after && after[n] == before[n]
  }

  lemma ThinOnce(m: Marker, before: Files, now: Files, gone: Marker)
    requires Thinned(m, before, now) && gone != m && Inner(gone, m)
    ensures Thinned(m, before, now - {gone})
  {
    var after := now - {gone};
    assert Claims(after, m);
    forall n | Claims(now, n) ensures Contained(after, n) {
      assert n != gone ==> Claims(after, n);
    }
    NoLessTwice(before, now, after);
  }

  /** When a download has rows to claim, the range it marks is backed. */
  lemma ClaimIsBacked(provider: set<Row>, storage: set<Row>, files: Files, start: int, best: Option<int>, end: int)
    requires Sound(provider, storage, files) && Covers(files, start, best)
    ensures best.Some? ==> Backed(provider, storage, start, best.value)
    ensures best.Some? && best.value >= end ==> Backed(provider, storage, start, end)
  {
    if best.Some? {
      var m :| Relevant(files, start, m) && m.end == best.value;
      assert Backed(provider, storage, m.start, m.end);
    }
  }

  /** A lookup reaches the end exactly when some claim contains the range. */
  lemma CachedIffCovered(files: Files, start: int, end: int, best: Option<int>)
    requires Covers(files, start, best)
    ensures best.Some? && best.value >= end <==> Contained(files, Marker(start, end))
  {
    if best.Some? && best.value >= end {
      var m :| Relevant(files, start, m) && m.end == best.value;
      assert Claims(files, m) && m.start <= start && end <= m.end;
    }
    if Contained(files, Marker(start, end)) {
      var n :| Claims(files, n) && n.start <= start && end <= n.end;
      assert Relevant(files, start, n);
    }
  }

  function Max(a: int, b: int): int { if a > b then a else b }

  class Disk {
    const provider: set<Row>
    var storage: set<Row>
    var files: Files

    ghost predicate Valid() reads this { Sound(provider, storage, files) }

    constructor (provider: set<Row>)
      ensures Valid() && storage == {} && files == map[] && this.provider == provider
    {
      this.provider, storage, files := provider, {}, map[];
    }

    method CoverageEnd(start: int) returns (best: Option<int>)
      ensures Covers(files, start, best)
    {
      best := None;
      var todo := files.Keys;
      while todo != {}
        invariant todo <= files.Keys
        invariant forall m :: Relevant(files, start, m) && m !in todo ==> best.Some? && m.end <= best.value
        invariant best.Some? ==> exists m :: Relevant(files, start, m) && m.end == best.value
        decreases |todo|
      {
        var m :| m in todo;
        if files[m] && m.start <= start && (best.None? || m.end > best.value) {
          assert Relevant(files, start, m);
          best := Some(m.end);
        }
        todo := todo - {m};
      }
    }

    /** Write a marker, then drop the markers it contains. Each change is one step, and the download is
        killed once `steps` of them are spent. */
    method MarkComplete(m: Marker, steps: nat) returns (finished: bool)
      requires Valid() && Backed(provider, storage, m.start, m.end)
      modifies this`files
      ensures Valid()
      ensures !old(Claims(files, m)) ==> NoLess(old(files), files)
      ensures finished ==> Claims(files, m) && SameAnswers(old(files)[m := true], files)
    {
      if steps == 0 { return false; }
      files := files[m := false];   // opening the file to write empties it
      ghost var written := old(files)[m := true];
      StillClaimed(old(files), m);
      if steps == 1 { return false; }
      files := files[m := true];
      assert files == written;
      finished := UnlinkSuperseded(m, steps - 2);
      NoLessNoMore(written, files);
      NoLessTwice(old(files), written, files);
    }

    method UnlinkSuperseded(m: Marker, steps: nat) returns (finished: bool)
      requires Claims(files, m)
      modifies this`files
      ensures Thinned(m, old(files), files)
      ensures finished ==> forall n :: n in files && n != m ==> !Inner(n, m)
      ensures Outside(m, old(files), files)
    {
      var todo, left := files.Keys, steps;
      while todo != {}
        invariant Thinned(m, old(files), files)
        invariant forall n :: n in files && n !in todo && n != m ==> !Inner(n, m)
        invariant Outside(m, old(files), files)
        decreases |todo|
      {
        var other :| other in todo;
        todo := todo - {other};
        if other != m && Inner(other, m) {
          if left == 0 { return false; }
          left := left - 1;
          ThinOnce(m, old(files), files, other);
          files := files - {other};
        }
      }
      finished := true;
    }

    /** Fetch what is not covered yet, store it, then claim the range. `answered` is whether the provider
        replies with the rows it has; an empty reply claims nothing. A kill in the middle of the dataset write leaves
        what of the rows is in `partial`. */
    method Download(start: int, end: int, answered: bool, steps: nat, partial: set<Row>) returns (finished: bool)
      requires Valid()
      modifies this
      ensures Valid() && old(storage) <= storage <= old(storage) + provider
      ensures NoLess(old(files), files)
      ensures finished && answered ==> Backed(provider, storage, start, end)
      ensures finished && storage != old(storage) ==> Contained(files, Marker(start, end))
      ensures old(Contained(files, Marker(start, end))) ==> storage == old(storage)
      ensures !answered && !old(Contained(files, Marker(start, end))) ==> files == old(files) && storage == old(storage)
    {
      var exact := Marker(start, end);
      if exact in files && files[exact] { return true; }
      var best := CoverageEnd(start);
      ClaimIsBacked(provider, storage, files, start, best, end);
      CachedIffCovered(files, start, end, best);
      if best.Some? && best.value >= end {
        finished := MarkComplete(exact, steps);
        return;
      }
      var from := if best.Some? then Max(start, best.value) else start;
      var rows := if answered then (set x | x in provider && Inside(x, from, end)) else {};
      if steps == 0 {
        storage := storage + rows * partial;
        return false;
      }
      storage := storage + rows;
      if rows != {} {
        // The whole requested range is claimed, not only the tail fetched.
        assert Backed(provider, storage, start, end);
        finished := MarkComplete(exact, steps - 1);
      } else {
        finished := true;
      }
    }
  }

  datatype Request = Request(start: int, end: int, answered: bool, steps: nat, partial: set<Row>)

  /** Any requests, empty replies and kills, one after the other: no marker ever overclaims, and no
      lookup ever answers less than before. */
  method Session(disk: Disk, requests: seq<Request>)
    requires disk.Valid()
    modifies disk
    ensures disk.Valid() && NoLess(old(disk.files), disk.files)
  {
    assert NoLess(disk.files, disk.files) by { forall m | Claims(disk.files, m) ensures Contained(disk.files, m) { } }
    for i := 0 to |requests|
      invariant disk.Valid() && NoLess(old(disk.files), disk.files)
    {
      ghost var before := disk.files;
      var r := requests[i];
      var finished := disk.Download(r.start, r.end, r.answered, r.steps, r.partial);
      NoLessTwice(old(disk.files), before, disk.files);
    }
  }
}
