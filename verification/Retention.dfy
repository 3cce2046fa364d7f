/** Deleting tape for age and for room (market_tape/storage.py), and the pruner's retry burst
    (market_tape/record.py). The tape is its compressed files oldest first, which is the order a
    pass sorts them in; free space is what the kernel reports. */
module TapeRetention {
  datatype File = File(mtime: int, path: nat, size: nat, snapshot: bool)

  predicate Older(f: File, g: File) { f.mtime < g.mtime || (f.mtime == g.mtime && f.path < g.path) }

  /** Listed by modification time and then path. */
  ghost predicate Listed(files: seq<File>) {
    forall i, j {:trigger Older(files[i], files[j])} :: 0 <= i < j < |files| ==> Older(files[i], files[j])
  }

  function Total(files: seq<File>): nat {
    if files == [] then 0 else Total(files[..|files| - 1]) + files[|files| - 1].size
  }

  /** The files past their retention. */
  function Expired(files: seq<File>, cutoff: int): seq<File> {
    if files == [] then []
    else
      var f := files[|files| - 1];
      Expired(files[..|files| - 1], cutoff) + (if f.mtime < cutoff then [f] else [])
  }

  /** The segments still inside it: what may go for room. */
  function Segments(files: seq<File>, cutoff: int): seq<File> {
    if files == [] then []
    else
      var f := files[|files| - 1];
      Segments(files[..|files| - 1], cutoff) + (if f.mtime >= cutoff && !f.snapshot then [f] else [])
  }

  datatype Limits = Limits(maxBytes: int, minFreeBytes: nat) {
    /** A pass frees past the floor the writer is blocked on. */
    function FreeTarget(): int { minFreeBytes + minFreeBytes * 5 / 100 }

    predicate Met(total: int, free: int) { total <= maxBytes && free >= FreeTarget() }
  }

  lemma {:induction false} TotalApart(a: seq<File>, b: seq<File>)
    ensures Total(a + b) == Total(a) + Total(b)
  {
    if b == [] {
      assert a + b == a;
    } else {
      TotalApart(a, b[..|b| - 1]);
      assert (a + b)[..|a + b| - 1] == a + b[..|b| - 1];
    }
  }

  /** What a pass should delete: every expired file, and of the segments inside retention the
      shortest oldest-first run that meets both limits, or all of them. */
  ghost predicate Pruned(limits: Limits, files: seq<File>, cutoff: int, free: int, deleted: seq<File>, k: nat) {
    var expired, segments := Expired(files, cutoff), Segments(files, cutoff);
    && k <= |segments| && deleted == expired + segments[..k]
    && (k < |segments| ==> limits.Met(Total(files) - Total(deleted), free + Total(deleted)))
    && (forall j :: 0 <= j < k ==> !Enough(limits, files, cutoff, free, j))
  }

  /** Would the first `j` segments have done? */
  ghost predicate Enough(limits: Limits, files: seq<File>, cutoff: int, free: int, j: nat)
    requires j <= |Segments(files, cutoff)|
  {
    var gone := Total(Expired(files, cutoff)) + Total(Segments(files, cutoff)[..j]);
    limits.Met(Total(files) - gone, free + gone)
  }

  /** Expired files come first. */
  lemma {:induction false} YoungAfterOld(files: seq<File>, cutoff: int)
    requires Listed(files)
    ensures files != [] && files[|files| - 1].mtime < cutoff ==> Segments(files, cutoff) == []
  {
    if files != [] && files[|files| - 1].mtime < cutoff {
      var n := |files| - 1;
      if n > 0 { assert Older(files[n - 1], files[n]); }
      YoungAfterOld(files[..n], cutoff);
    }
  }

  lemma {:induction false} NothingOldAfter(files: seq<File>, i: nat, cutoff: int)
    requires Listed(files) && i <= |files| && (exists k :: 0 <= k < i && files[k].mtime >= cutoff)
    ensures Expired(files, cutoff) == Expired(files[..i], cutoff)
  {
    var n := |files| - 1;
    if i <= n {
      var k :| 0 <= k < i && files[k].mtime >= cutoff;
      assert Older(files[k], files[n]);
      assert files[..n][k] == files[k];
      NothingOldAfter(files[..n], i, cutoff);
      assert files[..n][..i] == files[..i];
    } else {
      assert files[..i] == files;
    }
  }

  lemma {:induction false} SegmentsGrow(files: seq<File>, i: nat, cutoff: int)
    requires i <= |files|
    ensures Segments(files[..i], cutoff) <= Segments(files, cutoff)
  {
    if i < |files| {
      SegmentsGrow(files[..|files| - 1], i, cutoff);
      assert files[..|files| - 1][..i] == files[..i];
    } else {
      assert files[..i] == files;
    }
  }

  /** A pass that has looked at the first `i` files: what it deleted, `k` of it for room. */
  ghost predicate Gone(limits: Limits, files: seq<File>, cutoff: int, free: int, i: nat, deleted: seq<File>, k: nat) {
    && i <= |files| && k <= |Segments(files[..i], cutoff)|
    && deleted == Expired(files[..i], cutoff) + Segments(files[..i], cutoff)[..k]
    && (k < |Segments(files[..i], cutoff)| ==> limits.Met(Total(files) - Total(deleted), free + Total(deleted)))
    && k <= |Segments(files, cutoff)|
    && (forall j :: 0 <= j < k ==> !Enough(limits, files, cutoff, free, j))
  }

  /** What it kept: the other segments, and snapshots. */
  ghost predicate Kept(files: seq<File>, cutoff: int, i: nat, deleted: seq<File>, kept: seq<File>, k: nat) {
    && i <= |files| && k <= |Segments(files[..i], cutoff)|
    && Expired(kept, cutoff) == [] && Segments(kept, cutoff) == Segments(files[..i], cutoff)[k..]
    && Total(kept) + Total(deleted) == Total(files[..i])
  }

  lemma OneMore(files: seq<File>, i: nat, cutoff: int)
    requires i < |files|
    ensures files[..i + 1][..i] == files[..i] && files[..i + 1][i] == files[i]
    ensures Total(files[..i + 1]) == Total(files[..i]) + files[i].size
    ensures Expired(files[..i + 1], cutoff)
            == Expired(files[..i], cutoff) + if files[i].mtime < cutoff then [files[i]] else []
    ensures Segments(files[..i + 1], cutoff)
            == Segments(files[..i], cutoff)
               + if files[i].mtime >= cutoff && !files[i].snapshot then [files[i]] else []
  {
    assert files[..i + 1][..i] == files[..i];
  }

  lemma Append(files: seq<File>, f: File, cutoff: int)
    ensures Total(files + [f]) == Total(files) + f.size
    ensures Expired(files + [f], cutoff) == Expired(files, cutoff) + if f.mtime < cutoff then [f] else []
    ensures Segments(files + [f], cutoff)
            == Segments(files, cutoff) + if f.mtime >= cutoff && !f.snapshot then [f] else []
  {
    assert (files + [f])[..|files|] == files;
  }

  lemma DeleteExpired(limits: Limits, files: seq<File>, cutoff: int, free: int, i: nat, deleted: seq<File>, k: nat)
    requires Listed(files) && i < |files| && files[i].mtime < cutoff
    requires Gone(limits, files, cutoff, free, i, deleted, k)
    ensures Gone(limits, files, cutoff, free, i + 1, deleted + [files[i]], k)
  {
    OneMore(files, i, cutoff);
    YoungAfterOld(files[..i + 1], cutoff);
  }

  lemma SegmentsBegin(files: seq<File>, i: nat, cutoff: int)
    requires i < |files| && files[i].mtime >= cutoff && !files[i].snapshot
    ensures var segments := Segments(files[..i], cutoff);
            |segments| < |Segments(files, cutoff)| && Segments(files, cutoff)[..|segments|] == segments
  {
    OneMore(files, i, cutoff);
    SegmentsGrow(files, i + 1, cutoff);
  }

  /** Every segment seen so far went and it was not enough. */
  lemma NotEnoughYet(limits: Limits, files: seq<File>, cutoff: int, free: int, i: nat, deleted: seq<File>)
    requires Listed(files) && i < |files| && files[i].mtime >= cutoff && !files[i].snapshot
    requires deleted == Expired(files[..i], cutoff) + Segments(files[..i], cutoff)
    requires !limits.Met(Total(files) - Total(deleted), free + Total(deleted))
    ensures |Segments(files[..i], cutoff)| < |Segments(files, cutoff)|
    ensures !Enough(limits, files, cutoff, free, |Segments(files[..i], cutoff)|)
  {
    var segments := Segments(files[..i], cutoff);
    SegmentsBegin(files, i, cutoff);
    assert Expired(files, cutoff) == Expired(files[..i], cutoff) by {
      OneMore(files, i, cutoff);
      NothingOldAfter(files, i + 1, cutoff);
    }
    TotalApart(Expired(files, cutoff), segments);
  }

  lemma DeleteForRoom(limits: Limits, files: seq<File>, cutoff: int, free: int, i: nat, deleted: seq<File>, k: nat)
    requires Listed(files) && i < |files| && files[i].mtime >= cutoff && !files[i].snapshot
    requires Gone(limits, files, cutoff, free, i, deleted, k)
    requires !limits.Met(Total(files) - Total(deleted), free + Total(deleted))
    ensures Gone(limits, files, cutoff, free, i + 1, deleted + [files[i]], k + 1)
    ensures k == |Segments(files[..i], cutoff)|
  {
    assert k == |Segments(files[..i], cutoff)|;
    RoomList(files, cutoff, i, deleted);
    NotEnoughYet(limits, files, cutoff, free, i, deleted);
  }

  lemma RoomList(files: seq<File>, cutoff: int, i: nat, deleted: seq<File>)
    requires i < |files| && files[i].mtime >= cutoff && !files[i].snapshot
    requires var segments := Segments(files[..i], cutoff);
             deleted == Expired(files[..i], cutoff) + segments[..|segments|]
    ensures deleted == Expired(files[..i], cutoff) + Segments(files[..i], cutoff)
    ensures var segments := Segments(files[..i + 1], cutoff);
            |segments| == |Segments(files[..i], cutoff)| + 1
              && deleted + [files[i]] == Expired(files[..i + 1], cutoff) + segments[..|segments|]
  {
    var segments := Segments(files[..i], cutoff);
    OneMore(files, i, cutoff);
    assert segments[..|segments|] == segments;
    var more := segments + [files[i]];
    assert more[..|more|] == more;
  }

  lemma PassOver(limits: Limits, files: seq<File>, cutoff: int, free: int, i: nat, deleted: seq<File>, k: nat)
    requires i < |files| && files[i].mtime >= cutoff && Gone(limits, files, cutoff, free, i, deleted, k)
    requires files[i].snapshot || limits.Met(Total(files) - Total(deleted), free + Total(deleted))
    ensures Gone(limits, files, cutoff, free, i + 1, deleted, k)
  {
    OneMore(files, i, cutoff);
    FirstOf(Segments(files[..i], cutoff), if files[i].snapshot then [] else [files[i]], k);
  }

  lemma FirstOf(a: seq<File>, b: seq<File>, k: nat)
    requires k <= |a|
    ensures (a + b)[..k] == a[..k]
  {
  }

  lemma KeepFile(files: seq<File>, cutoff: int, i: nat, deleted: seq<File>, kept: seq<File>, k: nat)
    requires i < |files| && files[i].mtime >= cutoff && Kept(files, cutoff, i, deleted, kept, k)
    ensures Kept(files, cutoff, i + 1, deleted, kept + [files[i]], k)
  {
    OneMore(files, i, cutoff);
    Append(kept, files[i], cutoff);
    RestMore(Segments(files[..i], cutoff), files[i], k);
  }

  lemma RestMore(segments: seq<File>, f: File, k: nat)
    requires k <= |segments|
    ensures (segments + [f])[k..] == segments[k..] + [f]
  {
  }

  lemma StillKept(files: seq<File>, cutoff: int, i: nat, deleted: seq<File>, kept: seq<File>, k: nat, more: nat)
    requires i < |files| && Kept(files, cutoff, i, deleted, kept, k)
    requires files[i].mtime < cutoff ==> more == k
    requires files[i].mtime >= cutoff ==> !files[i].snapshot && k == |Segments(files[..i], cutoff)| && more == k + 1
    ensures Kept(files, cutoff, i + 1, deleted + [files[i]], kept, more)
  {
    OneMore(files, i, cutoff);
    Append(deleted, files[i], cutoff);
  }

  /** No file inside retention at `cutoff` is expired at `later`. */
  ghost predicate Lasting(files: seq<File>, cutoff: int, later: int) {
    forall j :: 0 <= j < |files| && files[j].mtime >= cutoff ==> files[j].mtime >= later
  }

  /** A deleted file was expired or a segment. */
  predicate Fair(deleted: seq<File>, j: int, cutoff: int)
    requires 0 <= j < |deleted|
  {
    deleted[j].mtime < cutoff || !deleted[j].snapshot
  }

  /** A kept file is inside retention, now and, where nothing expires meanwhile, later. */
  predicate Stays(kept: seq<File>, j: int, cutoff: int, later: int, lasting: bool)
    requires 0 <= j < |kept|
  {
    kept[j].mtime >= cutoff && (lasting ==> kept[j].mtime >= later)
  }

  predicate Behind(kept: seq<File>, j: int, next: File)
    requires 0 <= j < |kept|
  {
    Older(kept[j], next)
  }

  /** Whatever other processes took: nothing inside retention but segments went, nothing expired stayed. */
  ghost predicate Accounted(files: seq<File>, cutoff: int, later: int, i: nat, deleted: seq<File>, kept: seq<File>) {
    && (forall j :: 0 <= j < |deleted| ==> Fair(deleted, j, cutoff))
    && (forall j :: 0 <= j < |kept| ==> Stays(kept, j, cutoff, later, Lasting(files, cutoff, later)))
    && |kept| + |deleted| <= i && Listed(kept)
    && (i < |files| ==> forall j :: 0 <= j < |kept| ==> Behind(kept, j, files[i]))
  }

  lemma AccountOne(files: seq<File>, cutoff: int, later: int, i: nat, deleted: seq<File>, kept: seq<File>)
    requires Listed(files) && i < |files| && Accounted(files, cutoff, later, i, deleted, kept)
    ensures files[i].mtime >= cutoff ==> Accounted(files, cutoff, later, i + 1, deleted, kept + [files[i]])
    ensures Accounted(files, cutoff, later, i + 1, deleted, kept)
    ensures files[i].mtime < cutoff || !files[i].snapshot ==>
              Accounted(files, cutoff, later, i + 1, deleted + [files[i]], kept)
  {
    var f, more, gone := files[i], kept + [files[i]], deleted + [files[i]];
    if i + 1 < |files| { assert Older(f, files[i + 1]); }
    if i + 1 < |files| {
      var next := files[i + 1];
      forall j | 0 <= j < |kept| ensures Behind(kept, j, next) {
        assert Behind(kept, j, f);
      }
    }
    if f.mtime >= cutoff {
      forall j | 0 <= j < |more| ensures Stays(more, j, cutoff, later, Lasting(files, cutoff, later)) {
        assert j < |kept| ==> Stays(kept, j, cutoff, later, Lasting(files, cutoff, later));
      }
      forall j, k | 0 <= j < k < |more| ensures Older(more[j], more[k]) {
        if k < |kept| { assert Older(kept[j], kept[k]); } else { assert Behind(kept, j, f); }
      }
      if i + 1 < |files| {
        var next := files[i + 1];
        forall j | 0 <= j < |more| ensures Behind(more, j, next) {
          assert j < |kept| ==> Behind(kept, j, next);
        }
      }
    }
    if f.mtime < cutoff || !f.snapshot {
      forall j | 0 <= j < |gone| ensures Fair(gone, j, cutoff) {
        assert j < |deleted| ==> Fair(deleted, j, cutoff);
      }
    }
  }

  /** A pass under way. `taken` are files another process unlinks between this pass's stat and its unlink. */
  datatype Pass = Pass(total: int, free: int, deleted: seq<File>, kept: seq<File>)

  ghost predicate Sound(limits: Limits, files: seq<File>, cutoff: int, later: int, free: int, taken: set<File>,
                        i: nat, p: Pass, k: nat) {
    && Accounted(files, cutoff, later, i, p.deleted, p.kept)
    && (taken == {} ==>
          && Gone(limits, files, cutoff, free, i, p.deleted, k) && Kept(files, cutoff, i, p.deleted, p.kept, k)
          && p.total == Total(files) - Total(p.deleted) && p.free == free + Total(p.deleted))
  }

  lemma Removed(limits: Limits, files: seq<File>, cutoff: int, later: int, free: int, i: nat, p: Pass, k: nat)
    returns (more: nat)
    requires Listed(files) && i < |files| && Sound(limits, files, cutoff, later, free, {}, i, p, k)
    requires files[i].mtime < cutoff || (!files[i].snapshot && !limits.Met(p.total, p.free))
    ensures Gone(limits, files, cutoff, free, i + 1, p.deleted + [files[i]], more)
    ensures Kept(files, cutoff, i + 1, p.deleted + [files[i]], p.kept, more)
  {
    if files[i].mtime < cutoff {
      more := k;
      DeleteExpired(limits, files, cutoff, free, i, p.deleted, k);
    } else {
      more := k + 1;
      DeleteForRoom(limits, files, cutoff, free, i, p.deleted, k);
    }
    StillKept(files, cutoff, i, p.deleted, p.kept, k, more);
  }

  method Consider(limits: Limits, files: seq<File>, cutoff: int, ghost later: int, ghost free: int, taken: set<File>,
                  i: nat, p: Pass, ghost k: nat)
    returns (q: Pass, ghost more: nat)
    requires Listed(files) && i < |files| && Sound(limits, files, cutoff, later, free, taken, i, p, k)
    ensures Sound(limits, files, cutoff, later, free, taken, i + 1, q, more)
  {
    var f := files[i];
    AccountOne(files, cutoff, later, i, p.deleted, p.kept);
    more := k;
    var pressured := p.total > limits.maxBytes || p.free < limits.FreeTarget();
    if f.mtime >= cutoff && !(pressured && !f.snapshot) {
      if taken == {} {
        PassOver(limits, files, cutoff, free, i, p.deleted, k);
        KeepFile(files, cutoff, i, p.deleted, p.kept, k);
      }
      q := p.(kept := p.kept + [f]);
    } else if f in taken {
      q := p.(total := p.total - f.size);
    } else {
      if taken == {} {
        Append(p.deleted, f, cutoff);
        more := Removed(limits, files, cutoff, later, free, i, p, k);
      }
      q := Pass(p.total - f.size, p.free + f.size, p.deleted + [f], p.kept);
    }
  }

  /** The files one after the other, oldest first. */
  method ConsiderAll(limits: Limits, files: seq<File>, cutoff: int, ghost later: int, free: int, taken: set<File>)
    returns (p: Pass, ghost k: nat)
    requires Listed(files)
    ensures Sound(limits, files, cutoff, later, free, taken, |files|, p, k)
  {
    p, k := Pass(Total(files), free, [], []), 0;
    PassBegins(limits, files, cutoff, later, free, taken);
    for i := 0 to |files|
      invariant Sound(limits, files, cutoff, later, free, taken, i, p, k)
    {
      p, k := Consider(limits, files, cutoff, later, free, taken, i, p, k);
    }
  }

  /** One pass over the tape: exact when nobody else deletes, and never an unexpired table snapshot. */
  method Prune(limits: Limits, files: seq<File>, cutoff: int, kernelFree: int, credit: int, taken: set<File>,
               ghost later: int)
    returns (deleted: seq<File>, kept: seq<File>, ghost k: nat)
    requires Listed(files)
    ensures taken == {} ==>
              && Pruned(limits, files, cutoff, kernelFree + credit, deleted, k)
              && Kept(files, cutoff, |files|, deleted, kept, k)
    ensures Accounted(files, cutoff, later, |files|, deleted, kept)
  {
    var p;
    p, k := ConsiderAll(limits, files, cutoff, later, kernelFree + credit, taken);
    deleted, kept := p.deleted, p.kept;
    PassEnds(limits, files, cutoff, later, kernelFree + credit, taken, p, k);
  }

  lemma PassBegins(limits: Limits, files: seq<File>, cutoff: int, later: int, free: int, taken: set<File>)
    ensures Sound(limits, files, cutoff, later, free, taken, 0, Pass(Total(files), free, [], []), 0)
  {
    assert files[..0] == [];
  }

  lemma PassEnds(limits: Limits, files: seq<File>, cutoff: int, later: int, free: int, taken: set<File>, p: Pass,
                 k: nat)
    requires Sound(limits, files, cutoff, later, free, taken, |files|, p, k)
    ensures taken == {} ==>
              Pruned(limits, files, cutoff, free, p.deleted, k) && Kept(files, cutoff, |files|, p.deleted, p.kept, k)
    ensures Accounted(files, cutoff, later, |files|, p.deleted, p.kept)
  {
    assert files[..|files|] == files;
  }

  // ------------------------------------------------------------- the burst

  lemma {:induction false} SameClasses(files: seq<File>, a: int, b: int)
    requires forall j :: 0 <= j < |files| ==> files[j].mtime >= a && files[j].mtime >= b
    ensures Expired(files, b) == [] && Segments(files, a) == Segments(files, b)
  {
    if files != [] { SameClasses(files[..|files| - 1], a, b); }
  }

  /** A pass after an exact one, credited with what that one freed, finds nothing to delete. */
  lemma NextPassIsIdle(limits: Limits, files: seq<File>, cutoff: int, free: int, deleted: seq<File>, kept: seq<File>,
                       k: nat, later: int, more: int, deleted': seq<File>, k': nat)
    requires Pruned(limits, files, cutoff, free, deleted, k) && Kept(files, cutoff, |files|, deleted, kept, k)
    requires forall j :: 0 <= j < |kept| ==> kept[j].mtime >= cutoff && kept[j].mtime >= later
    requires more >= free + Total(deleted)
    requires Pruned(limits, kept, later, more, deleted', k')
    ensures deleted' == []
  {
    SameClasses(kept, cutoff, later);
    assert files[..|files|] == files;
    assert Segments(kept, later) == Segments(files, cutoff)[k..];
    if Segments(kept, later) != [] {
      assert limits.Met(Total(kept), more);
      assert Total(Expired(kept, later)) == 0 && Segments(kept, later)[..0] == [];
      assert Enough(limits, kept, later, more, 0);
    }
  }

  lemma StillInside(files: seq<File>, cutoff: int, later: int, deleted: seq<File>, kept: seq<File>)
    requires Accounted(files, cutoff, later, |files|, deleted, kept) && Lasting(files, cutoff, later)
    ensures forall j :: 0 <= j < |kept| ==> kept[j].mtime >= cutoff && kept[j].mtime >= later
  {
    forall j | 0 <= j < |kept| ensures kept[j].mtime >= cutoff && kept[j].mtime >= later {
      assert Stays(kept, j, cutoff, later, true);
    }
  }

  /** What each pass after the first finds on disk, given what the one before left: it is listed, and at most
      `arrivals(n)` files more than were left appeared before pass `n`. */
  ghost predicate Finds(find: (nat, seq<File>) -> seq<File>, arrivals: nat -> nat) {
    forall n, left {:trigger find(n, left)} ::
      Listed(left) ==> Listed(find(n, left)) && |find(n, left)| <= |left| + arrivals(n)
  }

  /** How many files appeared at most between the first pass and pass `n`. */
  function Appeared(arrivals: nat -> nat, n: nat): nat {
    if n == 0 then 0 else Appeared(arrivals, n - 1) + arrivals(n)
  }

  /** The kernel shows no less free space than at the first pass, no file appears and none expires meanwhile. */
  ghost predicate Calm(files: seq<File>, find: (nat, seq<File>) -> seq<File>, cutoffs: nat -> int, kernel: nat -> int) {
    && (forall n :: kernel(n) >= kernel(0))
    && (forall n :: Lasting(files, cutoffs(0), cutoffs(n)))
    && (forall n, left {:trigger find(n, left)} :: find(n, left) == left)
  }

  /** What the first pass of a burst leaves: `k` segments went for room. */
  ghost predicate FirstPass(limits: Limits, files: seq<File>, cutoffs: nat -> int, free: int, deleted: seq<File>,
                            kept: seq<File>, k: nat) {
    && Pruned(limits, files, cutoffs(0), free, deleted, k) && Kept(files, cutoffs(0), |files|, deleted, kept, k)
    && Accounted(files, cutoffs(0), cutoffs(1), |files|, deleted, kept)
  }

  method PassFirst(limits: Limits, files: seq<File>, cutoffs: nat -> int, free: int)
    returns (deleted: seq<File>, kept: seq<File>, ghost k: nat)
    requires Listed(files)
    ensures Listed(kept) && |kept| + |deleted| <= |files|
    ensures FirstPass(limits, files, cutoffs, free, deleted, kept, k)
  {
    deleted, kept, k := Prune(limits, files, cutoffs(0), free, 0, {}, cutoffs(1));
  }

  /** Pass `n` of a burst; in calm the second one, credited with what the first freed, deletes nothing. */
  method PassAgain(limits: Limits, find: (nat, seq<File>) -> seq<File>, ghost arrivals: nat -> nat,
                   cutoffs: nat -> int, kernel: nat -> int, n: nat, tape: seq<File>, credit: nat,
                   ghost files: seq<File>, ghost first: seq<File>, ghost left: seq<File>, ghost k: nat)
    returns (deleted: seq<File>, rest: seq<File>)
    requires Listed(tape) && Finds(find, arrivals)
    requires FirstPass(limits, files, cutoffs, kernel(0), first, left, k)
    ensures Listed(rest) && |rest| + |deleted| <= |tape| + arrivals(n)
    ensures Calm(files, find, cutoffs, kernel) && n == 1 && tape == left && credit == Total(first) ==> deleted == []
  {
    var found := find(n, tape);
    ghost var m;
    deleted, rest, m := Prune(limits, found, cutoffs(n), kernel(n), credit, {}, cutoffs(n));
    if Calm(files, find, cutoffs, kernel) && n == 1 && tape == left && credit == Total(first) {
      StillInside(files, cutoffs(0), cutoffs(1), first, left);
      NextPassIsIdle(limits, files, cutoffs(0), kernel(0), first, left, k, cutoffs(n), kernel(n) + credit, deleted, m);
    }
  }

  /** Every pass but the last deleted something. */
  ghost predicate Worked(passes: seq<seq<File>>) { forall n :: 0 <= n < |passes| - 1 ==> passes[n] != [] }

  /** Only the first pass deleted something. */
  ghost predicate OnlyFirst(passes: seq<seq<File>>) { forall n :: 1 <= n < |passes| ==> passes[n] == [] }

  /** Passes until one deletes nothing, the writer is not blocked, there is room to write again, or the recorder
      stops after `stop` of them. At pass `n` the kernel reads `kernel(n)` free before it and `after(n)` when asked
      whether to go on. A burst makes at most one pass more than there were files, those that appeared included. */
  method Burst(limits: Limits, files: seq<File>, find: (nat, seq<File>) -> seq<File>, ghost arrivals: nat -> nat,
               cutoffs: nat -> int, kernel: nat -> int, blocked: nat -> bool, after: nat -> int, stop: nat)
    returns (passes: seq<seq<File>>)
    requires Listed(files) && Finds(find, arrivals)
    ensures |passes| <= stop && (stop > 0 ==> passes != [])
    ensures passes != [] ==> |passes| - 1 <= |files| + Appeared(arrivals, |passes| - 1)
    ensures 0 < |passes| < stop ==>
              var n := |passes| - 1; passes[n] == [] || !blocked(n) || after(n) >= limits.minFreeBytes
    ensures Worked(passes)
    ensures Calm(files, find, cutoffs, kernel) ==> OnlyFirst(passes)
  {
    if stop == 0 { return []; }
    var deleted, tape, k := PassFirst(limits, files, cutoffs, kernel(0));
    passes := [deleted];
    ghost var first, left := deleted, tape;
    var n, credit: nat := 0, Total(deleted);
    var owed := deleted != [] && blocked(0) && after(0) < limits.minFreeBytes;
    while owed && n + 1 < stop
      invariant Listed(tape) && |passes| == n + 1 <= stop && deleted == passes[n]
      invariant |tape| + n < |files| + Appeared(arrivals, n) + (if owed then 0 else 1)
      invariant owed <==> deleted != [] && blocked(n) && after(n) < limits.minFreeBytes
      invariant Worked(passes)
      invariant Calm(files, find, cutoffs, kernel) ==> OnlyFirst(passes)
      invariant n == 0 ==> tape == left && credit == Total(first)
    {
      PassesMore(passes, n);
      n := n + 1;
      deleted, tape := PassAgain(limits, find, arrivals, cutoffs, kernel, n, tape, credit, files, first, left, k);
      passes := passes + [deleted];
      credit := credit + Total(deleted);
      owed := deleted != [] && blocked(n) && after(n) < limits.minFreeBytes;
    }
  }

  lemma PassesMore(passes: seq<seq<File>>, n: nat)
    requires |passes| == n + 1 && Worked(passes) && passes[n] != []
    ensures forall deleted :: Worked(passes + [deleted])
    ensures OnlyFirst(passes) && n == 0 ==> OnlyFirst(passes + [[]])
    ensures OnlyFirst(passes) ==> n == 0
  {
  }
}
