/** Log file rotation (src/zlog/src/rotater.c) on a file system that maps names to contents. */
module Rotater {
  import opened Options
  import opened ArrayList

  /** The log file, its archives (one canonical name per index), and everything else. */
  datatype Path = Base | Archive(index: int) | Other(name: string)

  type Content = string

  type Files = map<Path, Content>

  /** `rename`: an existing target is replaced. */
  function Moved(fs: Files, p: Path, q: Path): Files
    requires p in fs
  {
    (fs - {p})[q := fs[p]]
  }

  /** The directory. `fault` says which system calls fail for reasons of their own. */
  class Disk {
    var files: Files
    var calls: nat
    const fault: nat -> bool

    constructor (files: Files, fault: nat -> bool)
      ensures this.files == files && this.fault == fault && calls == 0
    {
      this.files, this.fault, calls := files, fault, 0;
    }

    method Unlink(p: Path) returns (rc: int)
      modifies this
      ensures rc == if p in old(files) && !fault(old(calls)) then 0 else -1
      ensures files == if rc == 0 then old(files) - {p} else old(files)
    {
      rc := if p in files && !fault(calls) then 0 else -1;
      calls := calls + 1;
      if rc == 0 {
        files := files - {p};
      }
    }

    method Rename(p: Path, q: Path) returns (rc: int)
      modifies this
      ensures rc == if p in old(files) && !fault(old(calls)) then 0 else -1
      ensures files == if rc == 0 then Moved(old(files), p, q) else old(files)
    {
      rc := if p in files && !fault(calls) then 0 else -1;
      calls := calls + 1;
      if rc == 0 {
        files := Moved(files, p, q);
      }
    }

    /** `glob` with GLOB_NOSORT: every name once, in any order. */
    method Glob() returns (paths: seq<Path>)
      ensures forall i, j :: 0 <= i < j < |paths| ==> paths[i] != paths[j]
      ensures forall p :: p in paths <==> p in files
    {
      paths := [];
      var rest := files.Keys;
      while rest != {}
        invariant forall i, j :: 0 <= i < j < |paths| ==> paths[i] != paths[j]
        invariant forall p :: p in files <==> p in rest || p in paths
        invariant forall p :: p in rest ==> p !in paths
        decreases |rest|
      {
        var p :| p in rest;
        paths := paths + [p];
        rest := rest - {p};
      }
    }
  }

  // Listing -----------------------------------------------------------------------------------

  datatype File = File(index: int, path: Path)

  /** `zlog_file_cmp`: only whether the first index is greater. */
  function FileCmp(a: File, b: File): int { if a.index > b.index then 1 else 0 }

  function FilesOf(ix: seq<int>): seq<File> { seq(|ix|, i requires 0 <= i < |ix| => File(ix[i], Archive(ix[i]))) }

  ghost predicate Increasing(ix: seq<int>) {
    forall i, j :: 0 <= i < j < |ix| ==> ix[i] < ix[j]
  }

  /** `ix` are the indices of all archives, smallest first. */
  ghost predicate Lists(fs: Files, ix: seq<int>) {
    Increasing(ix) && forall k :: Archive(k) in fs <==> k in ix
  }

  /** The contents of the archives, by index. */
  ghost function Queue(fs: Files, ix: seq<int>): seq<Content> {
    seq(|ix|, i requires 0 <= i < |ix| => ContentOf(fs, ix[i]))
  }

  function ContentOf(fs: Files, k: int): Content { if Archive(k) in fs then fs[Archive(k)] else [] }

  /** A set of indices has one increasing listing only. */
  lemma {:induction false} ListsUnique(fs: Files, ix: seq<int>, iy: seq<int>)
    requires Lists(fs, ix) && Lists(fs, iy)
    ensures ix == iy
  {
    SameMembers(ix, iy);
  }

  lemma {:induction false} SameMembers(ix: seq<int>, iy: seq<int>)
    requires Increasing(ix) && Increasing(iy) && forall k :: k in ix <==> k in iy
    ensures ix == iy
  {
    assert ix != [] ==> ix[0] in ix;
    assert iy != [] ==> iy[0] in iy;
    if ix != [] && iy != [] {
      var m, n := |ix| - 1, |iy| - 1;
      assert ix[m] in iy && iy[n] in ix;
      assert ix[m] == iy[n];
      forall k ensures k in ix[..m] <==> k in iy[..n] {
        if k in ix[..m] { assert k in ix && k != ix[m]; }
        if k in iy[..n] { assert k in iy && k != iy[n]; }
      }
      SameMembers(ix[..m], iy[..n]);
      assert ix == ix[..m] + [ix[m]] && iy == iy[..n] + [iy[n]];
    }
  }

  /** Sorted insertion of an index that is not there yet. */
  lemma InsertIndex(ix: seq<int>, k: int)
    requires Increasing(ix) && k !in ix
    ensures var p := Place(FileCmp, FilesOf(ix), File(k, Archive(k)));
      p <= |ix| && Increasing(InsertAt(ix, p, k))
      && InsertAt(FilesOf(ix), p, File(k, Archive(k))) == FilesOf(InsertAt(ix, p, k))
  {
    hide Place;
    var f, fs := File(k, Archive(k)), FilesOf(ix);
    var p := Place(FileCmp, fs, f);
    forall i | 0 <= i < p ensures ix[i] < k {
      assert FileCmp(fs[i], f) <= 0 && ix[i] in ix;
    }
    forall i | p <= i < |ix| ensures ix[i] > k {
      assert FileCmp(fs[p], f) > 0;
    }
    assert InsertAt(fs, p, f) == FilesOf(InsertAt(ix, p, k));
  }

  // Rolling -----------------------------------------------------------------------------------

  /** How many of `n` archives a rolling rotation keeps: those before position `max - 1`. */
  function Kept(n: nat, max: int): (m: nat)
    ensures m <= n && (max > 0 ==> m <= max - 1)
  {
    if max > 0 && n > max - 1 then max - 1 else n
  }

  /** No kept archive is moved on top of one that still waits to be moved. */
  ghost predicate NoClobber(ix: seq<int>, m: nat)
    requires m <= |ix|
  {
    forall j :: 0 <= j < m ==> ix[j] <= j + 1 || ix[j] > m
  }

  /** Index `k` is taken by an archive that was moved there and has not been moved again. */
  ghost predicate Settled(ix: seq<int>, m: nat, i: nat, k: int)
    requires i <= |ix| && m <= |ix|
  {
    i < k <= m && forall l :: i <= l < k - 1 ==> ix[l] != k
  }

  /** Which archives exist when the positions from `i` on have been dealt with. */
  ghost predicate RollNames(fs: Files, ix: seq<int>, m: nat, i: nat)
    requires i <= |ix| && m <= |ix|
  {
    forall k :: Archive(k) in fs <==> k in ix[..i] || Settled(ix, m, i, k)
  }

  /** The position whose content ends up where position `l` is moved to: its own, unless another
      archive has been moved on top of it before its turn came. */
  function Source(ix: seq<int>, m: nat, l: nat): (j: nat)
    requires l < m <= |ix|
    ensures l <= j < m
    decreases m - l
  {
    if l + 1 < ix[l] <= m then Source(ix, m, ix[l] - 1) else l
  }

  lemma OwnSource(ix: seq<int>, m: nat, l: nat)
    requires l < m <= |ix| && NoClobber(ix, m)
    ensures Source(ix, m, l) == l
  {
  }

  /** Where the contents are then. */
  ghost predicate RollContents(fs0: Files, fs: Files, ix: seq<int>, m: nat, i: nat)
    requires i <= |ix| && m <= |ix|
  {
    forall k :: Archive(k) in fs ==>
      fs[Archive(k)] == ContentOf(fs0, if i < k <= m then ix[Source(ix, m, k - 1)] else k)
  }

  /** Nothing but archives has changed. */
  ghost predicate SameRest(fs0: Files, fs: Files) {
    forall p: Path :: !p.Archive? ==> (p in fs <==> p in fs0) && (p in fs ==> fs[p] == fs0[p])
  }

  ghost predicate SameOthers(fs0: Files, fs: Files) {
    forall s :: (Other(s) in fs <==> Other(s) in fs0) && (Other(s) in fs ==> fs[Other(s)] == fs0[Other(s)])
  }

  lemma OthersStay(fs0: Files, fs: Files, j: int)
    requires SameRest(fs0, fs) && Base in fs
    ensures SameOthers(fs0, Moved(fs, Base, Archive(j)))
  {
  }

  ghost predicate RollState(fs0: Files, fs: Files, ix: seq<int>, m: nat, i: nat)
    requires i <= |ix| && m <= |ix|
  {
    RollNames(fs, ix, m, i) && SameRest(fs0, fs) && RollContents(fs0, fs, ix, m, i)
  }

  lemma RollStart(fs: Files, ix: seq<int>, m: nat)
    requires Lists(fs, ix) && m <= |ix|
    ensures RollState(fs, fs, ix, m, |ix|)
  {
    assert ix[..|ix|] == ix;
  }

  lemma UnlinkNames(fs: Files, ix: seq<int>, m: nat, i: nat)
    requires Increasing(ix) && m <= i < |ix| && RollNames(fs, ix, m, i + 1)
    ensures Archive(ix[i]) in fs && RollNames(fs - {Archive(ix[i])}, ix, m, i)
  {
    assert ix[..i + 1] == ix[..i] + [ix[i]];
    assert ix[i] !in ix[..i];
  }

  lemma UnlinkStep(fs0: Files, fs: Files, ix: seq<int>, m: nat, i: nat)
    requires Increasing(ix) && m <= i < |ix| && RollState(fs0, fs, ix, m, i + 1)
    ensures Archive(ix[i]) in fs && RollState(fs0, fs - {Archive(ix[i])}, ix, m, i)
  {
    hide RollNames;
    UnlinkNames(fs, ix, m, i);
  }

  lemma RenameNames(fs: Files, ix: seq<int>, m: nat, i: nat)
    requires Increasing(ix) && i < m <= |ix| && RollNames(fs, ix, m, i + 1)
    ensures Archive(ix[i]) in fs && RollNames(Moved(fs, Archive(ix[i]), Archive(i + 1)), ix, m, i)
  {
    assert ix[..i + 1] == ix[..i] + [ix[i]];
    assert ix[i] in ix[..i + 1] && ix[i] !in ix[..i];
    var fs' := Moved(fs, Archive(ix[i]), Archive(i + 1));
    forall k ensures Archive(k) in fs' <==> k in ix[..i] || Settled(ix, m, i, k) {
      if k == i + 1 {
        assert Settled(ix, m, i, k);
      } else if k == ix[i] {
        assert !Settled(ix, m, i, k);
      } else {
        assert Settled(ix, m, i, k) <==> Settled(ix, m, i + 1, k);
      }
    }
  }

  lemma RenameContents(fs0: Files, fs: Files, ix: seq<int>, m: nat, i: nat)
    requires i < m <= |ix| && RollContents(fs0, fs, ix, m, i + 1) && Archive(ix[i]) in fs
    ensures RollContents(fs0, Moved(fs, Archive(ix[i]), Archive(i + 1)), ix, m, i)
  {
  }

  lemma RenameStep(fs0: Files, fs: Files, ix: seq<int>, m: nat, i: nat)
    requires Increasing(ix) && i < m <= |ix| && RollState(fs0, fs, ix, m, i + 1)
    ensures Archive(ix[i]) in fs && RollState(fs0, Moved(fs, Archive(ix[i]), Archive(i + 1)), ix, m, i)
  {
    hide RollNames, RollContents;
    RenameNames(fs, ix, m, i);
    RenameContents(fs0, fs, ix, m, i);
  }

  /** The directory after a complete rolling rotation. */
  ghost predicate Rolled(fs0: Files, fs: Files, ix: seq<int>, m: nat)
    requires m <= |ix|
  {
    && Base in fs0 && Base !in fs && Archive(0) in fs && fs[Archive(0)] == fs0[Base]
    && (forall k :: Archive(k) in fs <==> k == 0 || Settled(ix, m, 0, k))
    && (forall k :: Archive(k) in fs && k != 0 ==>
          0 < k <= m && fs[Archive(k)] == ContentOf(fs0, ix[Source(ix, m, k - 1)]))
    && SameOthers(fs0, fs)
  }

  lemma BaseStep(fs0: Files, fs: Files, ix: seq<int>, m: nat)
    requires m <= |ix| && RollState(fs0, fs, ix, m, 0) && Base in fs
    ensures Rolled(fs0, Moved(fs, Base, Archive(0)), ix, m)
  {
    assert ix[..0] == [];
  }

  /** The kept archives all survive exactly when none of them lies in a gap beyond its own place. */
  lemma RollLossless(fs0: Files, fs: Files, ix: seq<int>, m: nat)
    requires m <= |ix| && Rolled(fs0, fs, ix, m)
    ensures (forall k :: 0 < k <= m ==> Archive(k) in fs) <==> NoClobber(ix, m)
  {
    if !NoClobber(ix, m) {
      var j :| 0 <= j < m && j + 1 < ix[j] <= m;
      var k := ix[j];
      assert !Settled(ix, m, 0, k);
    }
  }

  /** With a gap, say only the indices 2 and 3 in use, one of two archives is lost. */
  lemma GapLoses(fs0: Files, fs: Files)
    requires Rolled(fs0, fs, [2, 3], 2)
    ensures Archive(1) in fs && fs[Archive(1)] == ContentOf(fs0, 3)
    ensures forall k :: Archive(k) in fs ==> k == 0 || k == 1
  {
    var ix := [2, 3];
    assert ix[0] == 2 && Settled(ix, 2, 0, 1) && !Settled(ix, 2, 0, 2);
    assert Source(ix, 2, 1) == 1 && Source(ix, 2, 0) == 1;
  }

  function Count(n: nat): seq<int> { seq(n, i => i) }

  /** The first `max` entries, or all of them when there is no limit. */
  function Newest<T>(max: int, q: seq<T>): seq<T> { if max > 0 && |q| > max then q[..max] else q }

  /** A rolling rotation that loses nothing is a step of a bounded newest-first queue. */
  lemma RollRefines(fs0: Files, fs: Files, ix: seq<int>, max: int)
    requires Lists(fs0, ix) && NoClobber(ix, Kept(|ix|, max)) && Rolled(fs0, fs, ix, Kept(|ix|, max))
    ensures Lists(fs, Count(Kept(|ix|, max) + 1))
    ensures Queue(fs, Count(Kept(|ix|, max) + 1)) == Newest(max, [fs0[Base]] + Queue(fs0, ix))
  {
    hide Source, Lists, Rolled, Settled, NoClobber;
    var m := Kept(|ix|, max);
    RolledNames(fs0, fs, ix, m);
    RolledContents(fs0, fs, ix, m);
    assert [fs0[Base]] + Queue(fs0, ix)[..m] == ([fs0[Base]] + Queue(fs0, ix))[..m + 1];
  }

  lemma RolledNames(fs0: Files, fs: Files, ix: seq<int>, m: nat)
    requires m <= |ix| && NoClobber(ix, m) && Rolled(fs0, fs, ix, m)
    ensures Lists(fs, Count(m + 1))
  {
    RollLossless(fs0, fs, ix, m);
    hide Source, Settled, NoClobber;
    var iy := Count(m + 1);
    forall k ensures Archive(k) in fs <==> k in iy {
      assert 0 <= k <= m ==> iy[k] == k;
    }
  }

  lemma RolledContents(fs0: Files, fs: Files, ix: seq<int>, m: nat)
    requires m <= |ix| && NoClobber(ix, m) && Rolled(fs0, fs, ix, m)
    ensures Base in fs0 && Queue(fs, Count(m + 1)) == [fs0[Base]] + Queue(fs0, ix)[..m]
  {
    RollLossless(fs0, fs, ix, m);
    forall i | 0 < i <= m ensures ContentOf(fs, i) == ContentOf(fs0, ix[i - 1]) {
      OwnSource(ix, m, i - 1);
      hide Source, Settled, NoClobber, SameOthers;
      assert Archive(i) in fs;
    }
    assert ContentOf(fs, 0) == fs0[Base];
    hide Rolled, NoClobber, ContentOf, Source, Settled;
    QueueLike(fs0, fs, ix, m, fs0[Base]);
  }

  lemma QueueLike(fs0: Files, fs: Files, ix: seq<int>, m: nat, x: Content)
    requires m <= |ix| && ContentOf(fs, 0) == x
    requires forall i :: 0 < i <= m ==> ContentOf(fs, i) == ContentOf(fs0, ix[i - 1])
    ensures Queue(fs, Count(m + 1)) == [x] + Queue(fs0, ix)[..m]
  {
    hide ContentOf;
  }

  /** Position and index of an archive differ by at most one: what rotations leave behind. */
  ghost predicate Dense(ix: seq<int>) {
    forall i :: 0 <= i < |ix| ==> i <= ix[i] <= i + 1
  }

  /** The listing of a dense directory after a rotation stopped at position `i`. */
  function Stopped(ix: seq<int>, m: nat, i: nat): seq<int>
    requires i <= |ix| && m <= |ix|
  {
    ix[..i] + if i < m then seq(m - i, j => i + j + 1) else []
  }

  /** A rolling rotation of a dense directory that a failing system call stops anywhere leaves a
      dense directory, in which no archive is lost but those past the limit. */
  lemma RollStopped(fs0: Files, fs: Files, ix: seq<int>, m: nat, i: nat)
    requires m <= |ix| && i <= |ix| && Lists(fs0, ix) && Dense(ix) && RollState(fs0, fs, ix, m, i)
    ensures Lists(fs, Stopped(ix, m, i)) && Dense(Stopped(ix, m, i))
    ensures Queue(fs, Stopped(ix, m, i)) == Queue(fs0, ix)[..if i < m then m else i]
  {
    hide RollNames, RollContents, Dense, Increasing, Stopped, Queue;
    StoppedDense(ix, m, i);
    StoppedNames(fs, ix, m, i);
    StoppedQueue(fs0, fs, ix, m, i);
  }

  lemma StoppedQueue(fs0: Files, fs: Files, ix: seq<int>, m: nat, i: nat)
    requires m <= |ix| && i <= |ix| && Dense(ix) && RollContents(fs0, fs, ix, m, i)
    requires forall k :: Archive(k) in fs <==> k in Stopped(ix, m, i)
    ensures Queue(fs, Stopped(ix, m, i)) == Queue(fs0, ix)[..if i < m then m else i]
  {
    hide Source;
    DenseNoClobber(ix, m);
    var iy := Stopped(ix, m, i);
    forall j | 0 <= j < |iy| ensures ContentOf(fs, iy[j]) == ContentOf(fs0, ix[j]) {
      assert iy[j] in iy;
      if j >= i {
        OwnSource(ix, m, j);
      }
    }
  }

  lemma StoppedDense(ix: seq<int>, m: nat, i: nat)
    requires i <= |ix| && m <= |ix| && Increasing(ix) && Dense(ix)
    ensures Increasing(Stopped(ix, m, i)) && Dense(Stopped(ix, m, i))
    ensures |Stopped(ix, m, i)| == if i < m then m else i
  {
  }

  lemma StoppedNames(fs: Files, ix: seq<int>, m: nat, i: nat)
    requires i <= |ix| && m <= |ix| && Increasing(ix) && Dense(ix) && RollNames(fs, ix, m, i)
    ensures forall k :: Archive(k) in fs <==> k in Stopped(ix, m, i)
  {
    var iy := Stopped(ix, m, i);
    forall k ensures Settled(ix, m, i, k) <==> i < k <= m {
    }
    forall k ensures k in iy <==> k in ix[..i] || i < k <= m {
      if i < k <= m {
        assert iy[k - 1] == k;
      }
      if k in iy {
        var j :| 0 <= j < |iy| && iy[j] == k;
        assert j < i ==> k == ix[..i][j];
      }
      if k in ix[..i] {
        var j :| 0 <= j < i && ix[..i][j] == k;
        assert iy[j] == k;
      }
    }
  }

  lemma DenseNoClobber(ix: seq<int>, m: nat)
    requires Dense(ix) && m <= |ix|
    ensures NoClobber(ix, m)
  {
  }

  // Sequence ----------------------------------------------------------------------------------

  /** How many of `n` archives a sequence rotation unlinks. */
  function Dropped(n: nat, max: int): (d: nat)
    ensures d <= n
  {
    if max > 0 && n > max then n - max else 0
  }

  /** The index of the next archive. */
  function NextIndex(ix: seq<int>): int {
    if ix == [] then 0
    else (if |ix| - 1 > ix[|ix| - 1] then |ix| - 1 else ix[|ix| - 1]) + 1
  }

  /** The first `i` archives are gone, and nothing else has changed. */
  ghost predicate SeqState(fs0: Files, fs: Files, ix: seq<int>, i: nat)
    requires i <= |ix|
  {
    && Lists(fs, ix[i..]) && SameRest(fs0, fs)
    && forall k :: Archive(k) in fs ==> Archive(k) in fs0 && fs[Archive(k)] == fs0[Archive(k)]
  }

  lemma SeqStart(fs: Files, ix: seq<int>)
    requires Lists(fs, ix)
    ensures SeqState(fs, fs, ix, 0)
  {
    assert ix[0..] == ix;
  }

  lemma SeqStep(fs0: Files, fs: Files, ix: seq<int>, i: nat)
    requires Lists(fs0, ix) && i < |ix| && SeqState(fs0, fs, ix, i)
    ensures Archive(ix[i]) in fs && SeqState(fs0, fs - {Archive(ix[i])}, ix, i + 1)
  {
    hide Increasing, ContentOf;
    RestIncreasing(ix, i);
    assert Lists(fs - {Archive(ix[i])}, ix[i + 1..]);
  }

  lemma RestIncreasing(ix: seq<int>, i: nat)
    requires Increasing(ix) && i < |ix|
    ensures Increasing(ix[i + 1..]) && ix[i] in ix[i..] && ix[i] !in ix[i + 1..]
    ensures forall k :: k in ix[i..] <==> k == ix[i] || k in ix[i + 1..]
  {
    assert ix[i..] == [ix[i]] + ix[i + 1..];
  }

  lemma QueueSame(fs0: Files, fs: Files, ix: seq<int>, d: nat)
    requires d <= |ix| && SeqState(fs0, fs, ix, d)
    ensures Queue(fs, ix[d..]) == Queue(fs0, ix)[d..]
  {
    assert forall i :: 0 <= i < |ix| - d ==> ix[d..][i] in ix[d..];
  }

  /** The directory after a complete sequence rotation. */
  ghost predicate Sequenced(fs0: Files, fs: Files, ix: seq<int>, max: int)
    requires Lists(fs0, ix)
  {
    var d, j := Dropped(|ix|, max), NextIndex(ix);
    && Base in fs0 && Base !in fs && j !in ix
    && (forall k :: k in ix ==> k < j)
    && Lists(fs, ix[d..] + [j])
    && Queue(fs, ix[d..] + [j]) == Queue(fs0, ix)[d..] + [fs0[Base]]
    && (max > 0 ==> |ix[d..] + [j]| <= max + 1)
    && SameOthers(fs0, fs)
  }

  lemma NextIndexAbove(ix: seq<int>)
    requires Increasing(ix)
    ensures forall k :: k in ix ==> k < NextIndex(ix)
  {
  }

  lemma AppendLists(fs: Files, iy: seq<int>, j: int)
    requires Lists(fs, iy) && Base in fs && forall k :: k in iy ==> k < j
    ensures Lists(Moved(fs, Base, Archive(j)), iy + [j])
    ensures Queue(Moved(fs, Base, Archive(j)), iy + [j]) == Queue(fs, iy) + [fs[Base]]
  {
    var fs' := Moved(fs, Base, Archive(j));
    assert forall i :: 0 <= i < |iy| ==> iy[i] in iy;
    assert forall k :: k in iy + [j] <==> k in iy || k == j;
  }

  lemma SeqBase(fs0: Files, fs: Files, ix: seq<int>, max: int)
    requires Lists(fs0, ix) && SeqState(fs0, fs, ix, Dropped(|ix|, max)) && Base in fs
    ensures Sequenced(fs0, Moved(fs, Base, Archive(NextIndex(ix))), ix, max)
  {
    hide NextIndex, Queue, SameOthers;
    var d, j := Dropped(|ix|, max), NextIndex(ix);
    OthersStay(fs0, fs, j);
    NextIndexAbove(ix);
    assert forall k :: k in ix[d..] ==> k in ix;
    AppendLists(fs, ix[d..], j);
    QueueSame(fs0, fs, ix, d);
  }

  // The rotater -------------------------------------------------------------------------------

  /** `zlog_file_check_new`: a name that is not the log file and has the form of an archive. */
  function CheckNew(p: Path): Option<File> {
    match p
    case Archive(k) => Some(File(k, p))
    case _ => None
  }

  /** What a rotation has done to a directory with the archives `ix`: all of it when `rc` is 0,
      else the part up to the system call that failed. */
  ghost predicate Outcome(fs0: Files, fs: Files, rolling: bool, max: int, ix: seq<int>, i: nat, rc: int) {
    && Lists(fs0, ix) && i <= |ix| && Base in fs0
    && (if rolling then
          if rc == 0 then Rolled(fs0, fs, ix, Kept(|ix|, max)) else RollState(fs0, fs, ix, Kept(|ix|, max), i)
        else if rc == 0 then Sequenced(fs0, fs, ix, max)
        else i <= Dropped(|ix|, max) && SeqState(fs0, fs, ix, i))
  }

  class Rotater {
    const disk: Disk
    var files: ArrayList<File>
    var maxCount: int
    var rolling: bool

    constructor (disk: Disk)
      ensures this.disk == disk
    {
      this.disk := disk;
      files := new ArrayList<File>();
      maxCount, rolling := 0, true;
    }

    /** The list holds the archives of the directory, sorted by index. */
    ghost predicate Holds(ix: seq<int>)
      reads this, files, files.slots
    {
      files.Valid() && files.Slots() == Somes(FilesOf(ix))
    }

    /** `zlog_rotater_add_archive_files`. */
    method AddArchiveFiles() returns (ghost ix: seq<int>)
      modifies this`files
      ensures fresh(files) && fresh(files.slots) && Holds(ix) && Lists(disk.files, ix)
    {
      hide Increasing, FilesOf, Place, InsertAt;
      files := new ArrayList<File>();
      ix := [];
      NoFiles();
      var paths := disk.Glob();
      for n := 0 to |paths|
        invariant fresh(files) && fresh(files.slots) && Holds(ix)
        invariant Increasing(ix) && forall k :: k in ix <==> Archive(k) in paths[..n]
      {
        assert paths[..n + 1] == paths[..n] + [paths[n]];
        var f := CheckNew(paths[n]);
        if f.Some? {
          ghost var k, p := f.value.index, Place(FileCmp, FilesOf(ix), f.value);
          InsertIndex(ix, k);
          InsertMembers(ix, p, k);
          files.SortAdd(FileCmp, f.value, FilesOf(ix));
          ix := InsertAt(ix, p, k);
        }
      }
      assert paths[..|paths|] == paths;
    }

    /** `zlog_rotater_roll_files`; `i` is the position at which it stopped. */
    method RollFiles(ghost ix: seq<int>) returns (rc: int, ghost i: nat)
      requires Holds(ix) && Lists(disk.files, ix)
      modifies disk
      ensures i <= |ix|
      ensures rc == 0 ==> Rolled(old(disk.files), disk.files, ix, Kept(|ix|, maxCount))
      ensures rc != 0 ==> rc == -1 && RollState(old(disk.files), disk.files, ix, Kept(|ix|, maxCount), i)
      ensures Base in old(disk.files) && (forall c :: !disk.fault(c)) ==> rc == 0
    {
      hide RollState, Rolled, Increasing, FilesOf;
      ListedFiles(ix);
      ghost var m := Kept(|ix|, maxCount);
      RollStart(disk.files, ix, m);
      i := |ix|;
      var n := files.len;
      while n > 0
        invariant n == i <= |ix| && RollState(old(disk.files), disk.files, ix, m, i)
        invariant Holds(ix)
      {
        var f := files.Get(n - 1);
        assert f == Some(File(ix[n - 1], Archive(ix[n - 1])));
        if maxCount > 0 && n - 1 >= maxCount - 1 {
          UnlinkStep(old(disk.files), disk.files, ix, m, n - 1);
          rc := disk.Unlink(f.value.path);
        } else {
          RenameStep(old(disk.files), disk.files, ix, m, n - 1);
          rc := disk.Rename(f.value.path, Archive(n));
        }
        if rc != 0 {
          return;
        }
        n := n - 1;
        i := i - 1;
      }
      RollBase(old(disk.files), disk.files, ix, m, 0);
      if Base in disk.files {
        BaseStep(old(disk.files), disk.files, ix, m);
      }
      rc := disk.Rename(Base, Archive(0));
    }

    /** `zlog_rotater_seq_files`; `i` archives are gone when it stops. */
    method SeqFiles(ghost ix: seq<int>) returns (rc: int, ghost i: nat)
      requires Holds(ix) && Lists(disk.files, ix)
      modifies disk
      ensures i <= Dropped(|ix|, maxCount)
      ensures rc == 0 ==> Sequenced(old(disk.files), disk.files, ix, maxCount)
      ensures rc != 0 ==> rc == -1 && SeqState(old(disk.files), disk.files, ix, i)
      ensures Base in old(disk.files) && (forall c :: !disk.fault(c)) ==> rc == 0
    {
      hide SeqState, Sequenced, Lists, FilesOf;
      ListedFiles(ix);
      ghost var d := Dropped(|ix|, maxCount);
      SeqStart(disk.files, ix);
      i := 0;
      for n := 0 to files.len
        invariant i == (if n < d then n else d) && SeqState(old(disk.files), disk.files, ix, i)
        invariant Holds(ix)
      {
        var f := files.Get(n);
        assert f == Some(File(ix[n], Archive(ix[n])));
        if maxCount > 0 && n < files.len - maxCount {
          SeqStep(old(disk.files), disk.files, ix, n);
          rc := disk.Unlink(f.value.path);
          if rc != 0 {
            return;
          }
          i := i + 1;
        }
      }
      var j := 0;
      if files.len > 0 {
        var f := files.Get(files.len - 1);
        assert f == Some(File(ix[|ix| - 1], Archive(ix[|ix| - 1])));
        j := (if files.len - 1 > f.value.index then files.len - 1 else f.value.index) + 1;
      }
      assert j == NextIndex(ix);
      SeqBaseKept(old(disk.files), disk.files, ix, d);
      if Base in disk.files {
        SeqBase(old(disk.files), disk.files, ix, maxCount);
      }
      rc := disk.Rename(Base, Archive(j));
    }

    /** `zlog_rotater_lsmv`. */
    method Lsmv(rolling: bool, max: int) returns (rc: int, ghost ix: seq<int>, ghost i: nat)
      requires Base in disk.files
      modifies this, disk
      ensures Outcome(old(disk.files), disk.files, rolling, max, ix, i, rc)
      ensures rc == 0 || (rc == -1 && exists c :: disk.fault(c))
    {
      hide Lists, Rolled, RollState, Sequenced, SeqState, Holds;
      maxCount, this.rolling := max, rolling;
      ix := AddArchiveFiles();
      if this.rolling {
        rc, i := RollFiles(ix);
      } else {
        rc, i := SeqFiles(ix);
      }
      maxCount := 0;
      files := new ArrayList<File>();
    }

    /** `zlog_rotater_rotate` once the lock is held, for the next message of `msgLen` bytes. */
    method Rotate(rolling: bool, msgLen: nat, maxSize: nat, max: int)
          returns (rc: int, ghost ix: seq<int>, ghost i: nat)
      modifies this, disk
      ensures Base !in old(disk.files) ==> rc == -1
      ensures Due(old(disk.files), msgLen, maxSize) ==> Outcome(old(disk.files), disk.files, rolling, max, ix, i, rc)
      ensures !Due(old(disk.files), msgLen, maxSize) ==> disk.files == old(disk.files)
      ensures Base in old(disk.files) && (forall c :: !disk.fault(c)) ==> rc == 0
    {
      hide Outcome;
      ix, i := [], 0;
      if Base !in disk.files {
        return -1, ix, i;
      }
      if |disk.files[Base]| + msgLen <= maxSize {
        return 0, ix, i;
      }
      rc, ix, i := Lsmv(rolling, max);
      if rc != 0 {
        rc := -1;
      }
    }
  }

  /** The log file would outgrow `maxSize`. */
  predicate Due(fs: Files, msgLen: nat, maxSize: nat) {
    Base in fs && |fs[Base]| + msgLen > maxSize
  }

  /** A run in which an archive is lost: of the two archives 2 and 3, the content of 2 is gone. */
  method LostArchive() returns (files: Files)
    ensures files == map[Archive(0) := "log", Archive(1) := "three"]
  {
    hide Queue, Settled;
    var disk := new Disk(map[Base := "log", Archive(2) := "two", Archive(3) := "three"], _ => false);
    var r := new Rotater(disk);
    ghost var fs0, ix, i := disk.files, [], 0;
    assert Lists(fs0, [2, 3]) by {
      assert [2, 3][0] == 2 && [2, 3][1] == 3;
    }
    var rc;
    rc, ix, i := r.Rotate(true, 0, 0, 0);
    ListsUnique(fs0, ix, [2, 3]);
    GapLoses(fs0, disk.files);
    files := disk.files;
    forall p ensures p in files <==> p == Archive(0) || p == Archive(1) {
      match p
      case Base =>
      case Archive(k) =>
      case Other(s) => assert Other(s) !in fs0;
    }
  }

  // Runs --------------------------------------------------------------------------------------

  /** What a directory stands for: the log file and the archives by index, which is newest first
      under rolling rotation and oldest first under sequence rotation. */
  datatype Log = Log(base: Option<Content>, archives: seq<Content>)

  ghost predicate Shows(fs: Files, rolling: bool, ix: seq<int>, l: Log) {
    && Lists(fs, ix) && (rolling ==> Dense(ix)) && l.archives == Queue(fs, ix)
    && l.base == if Base in fs then Some(fs[Base]) else None
  }

  datatype Op = Write(text: string) | Rotate(msgLen: nat, maxSize: nat, max: int)

  /** The archives after a rotation of `text`. */
  function Archived(rolling: bool, archives: seq<Content>, text: Content, max: int): seq<Content> {
    if rolling then Newest(max, [text] + archives) else archives[Dropped(|archives|, max)..] + [text]
  }

  predicate Rotates(l: Log, op: Op) {
    op.Rotate? && l.base.Some? && |l.base.value| + op.msgLen > op.maxSize
  }

  /** One operation on the abstract log. */
  function ApplyOp(rolling: bool, l: Log, op: Op): Log {
    if op.Write? then l.(base := Some((if l.base.Some? then l.base.value else []) + op.text))
    else if Rotates(l, op) then Log(None, Archived(rolling, l.archives, l.base.value, op.max))
    else l
  }

  function ApplyOps(rolling: bool, l: Log, ops: seq<Op>): Log {
    if ops == [] then l else ApplyOp(rolling, ApplyOps(rolling, l, ops[..|ops| - 1]), ops[|ops| - 1])
  }

  /** `h` ends in `a`. */
  ghost predicate EndOf<T>(a: seq<T>, h: seq<T>) {
    |a| <= |h| && forall i :: 0 <= i < |a| ==> a[i] == h[|h| - |a| + i]
  }

  /** The log has lost nothing but archives that are past the limit. */
  ghost predicate LostOnlyOld(rolling: bool, l: Log, l': Log, max: int) {
    && l'.base == l.base && |l'.archives| <= |l.archives|
    && (if rolling then l'.archives <= l.archives && |l'.archives| >= Kept(|l.archives|, max)
        else
          && EndOf(l'.archives, l.archives)
          && |l'.archives| >= |l.archives| - Dropped(|l.archives|, max))
  }

  /** A complete rolling rotation of a directory that shows a log is one step of that log; one
      that fails on the way keeps everything that is to be kept. */
  lemma RollingOutcome(fs0: Files, fs: Files, ix0: seq<int>, l: Log, max: int, ix: seq<int>, i: nat, rc: int)
      returns (iy: seq<int>, l': Log)
    requires Shows(fs0, true, ix0, l) && Outcome(fs0, fs, true, max, ix, i, rc)
    ensures Shows(fs, true, iy, l')
    ensures rc == 0 ==> l' == Log(None, Archived(true, l.archives, fs0[Base], max))
    ensures rc != 0 ==> LostOnlyOld(true, l, l', max)
  {
    hide Lists, Rolled, RollState, Queue, Increasing, NoClobber, Dense, Stopped;
    ListsUnique(fs0, ix0, ix);
    var m := Kept(|ix|, max);
    DenseNoClobber(ix, m);
    QueueLength(fs0, ix);
    if rc == 0 {
      RollRefines(fs0, fs, ix, max);
      iy := Count(m + 1);
      CountDense(m + 1);
      RolledBase(fs0, fs, ix, m);
      l' := Log(None, Queue(fs, iy));
    } else {
      RollStopped(fs0, fs, ix, m, i);
      iy := Stopped(ix, m, i);
      RollBase(fs0, fs, ix, m, i);
      l' := Log(l.base, Queue(fs, iy));
    }
  }

  /** The same for a sequence rotation. */
  lemma SequenceOutcome(fs0: Files, fs: Files, ix0: seq<int>, l: Log, max: int, ix: seq<int>, i: nat, rc: int)
      returns (iy: seq<int>, l': Log)
    requires Shows(fs0, false, ix0, l) && Outcome(fs0, fs, false, max, ix, i, rc)
    ensures Shows(fs, false, iy, l')
    ensures rc == 0 ==> l' == Log(None, Archived(false, l.archives, fs0[Base], max))
    ensures rc != 0 ==> LostOnlyOld(false, l, l', max)
  {
    hide Lists, Queue, Increasing, NextIndex;
    ListsUnique(fs0, ix0, ix);
    QueueLength(fs0, ix);
    if rc == 0 {
      iy := ix[Dropped(|ix|, max)..] + [NextIndex(ix)];
      l' := Log(None, Queue(fs, iy));
    } else {
      QueueSame(fs0, fs, ix, i);
      iy := ix[i..];
      l' := Log(l.base, Queue(fs, iy));
    }
  }

  lemma QueueLength(fs: Files, ix: seq<int>)
    ensures |Queue(fs, ix)| == |ix|
  {
  }

  lemma CountDense(n: nat)
    ensures Dense(Count(n))
  {
  }

  lemma RolledBase(fs0: Files, fs: Files, ix: seq<int>, m: nat)
    requires m <= |ix| && Rolled(fs0, fs, ix, m)
    ensures Base !in fs
  {
  }

  lemma RollBase(fs0: Files, fs: Files, ix: seq<int>, m: nat, i: nat)
    requires i <= |ix| && m <= |ix| && RollState(fs0, fs, ix, m, i)
    ensures (Base in fs <==> Base in fs0) && (Base in fs ==> fs[Base] == fs0[Base])
  {
  }

  lemma SeqBaseKept(fs0: Files, fs: Files, ix: seq<int>, i: nat)
    requires i <= |ix| && SeqState(fs0, fs, ix, i)
    ensures Base in fs <==> Base in fs0
  {
  }

  lemma NoFiles()
    ensures Increasing([]) && Somes(FilesOf([])) == []
  {
  }

  lemma ListedFiles(ix: seq<int>)
    ensures |FilesOf(ix)| == |ix| && forall i :: 0 <= i < |ix| ==> FilesOf(ix)[i] == File(ix[i], Archive(ix[i]))
  {
  }

  lemma InsertMembers(ix: seq<int>, p: nat, k: int)
    requires p <= |ix|
    ensures forall l :: l in InsertAt(ix, p, k) <==> l in ix || l == k
  {
    assert ix == ix[..p] + ix[p..];
  }

  /** The text of the log file, and all text written by a run. */
  function Text(base: Option<Content>): Content { if base.Some? then base.value else [] }

  function Texts(ops: seq<Op>): Content {
    if ops == [] then []
    else Texts(ops[..|ops| - 1]) + if ops[|ops| - 1].Write? then ops[|ops| - 1].text else []
  }

  function Joined(history: seq<Content>): Content {
    if history == [] then [] else Joined(history[..|history| - 1]) + history[|history| - 1]
  }

  /** One operation: it is carried out, or it is a rotation that fails on the way. */
  ghost predicate Steps(rolling: bool, l: Log, op: Op, l': Log) {
    l' == ApplyOp(rolling, l, op) || (Rotates(l, op) && LostOnlyOld(rolling, l, l', op.max))
  }

  /** The contents archived so far, in order of time. */
  function Archiving(history: seq<Content>, l: Log, op: Op, l': Log): seq<Content> {
    if Rotates(l, op) && l'.base == None then history + [l.base.value] else history
  }

  /** Of everything that was ever archived, at least the newest `max - 1` are there (`max` under
      sequence rotation), and without a limit all. */
  ghost predicate KeepsNewest(rolling: bool, max: int, history: seq<Content>, archives: seq<Content>) {
    if rolling then
      && archives <= Reversed(history)
      && |archives| >= if max > 0 && |history| > max - 1 then max - 1 else |history|
    else
      && EndOf(archives, history)
      && |archives| >= if max > 0 && |history| > max then max else |history|
  }

  lemma {:induction false} KeepRolling(max: int, history: seq<Content>, l: Log, op: Op, l': Log)
    requires KeepsNewest(true, max, history, l.archives) && Steps(true, l, op, l') && (op.Rotate? ==> op.max == max)
    ensures KeepsNewest(true, max, Archiving(history, l, op, l'), l'.archives)
  {
    if Rotates(l, op) && l'.base == None {
      var b, all := l.base.value, history + [l.base.value];
      assert all[..|history|] == history;
      assert Reversed(all) == [b] + Reversed(history);
      hide Reversed;
      assert [b] + l.archives <= [b] + Reversed(history);
    }
  }

  lemma {:induction false} KeepSequence(max: int, history: seq<Content>, l: Log, op: Op, l': Log)
    requires KeepsNewest(false, max, history, l.archives) && Steps(false, l, op, l') && (op.Rotate? ==> op.max == max)
    ensures KeepsNewest(false, max, Archiving(history, l, op, l'), l'.archives)
  {
    hide *;
    SequenceStep(l, op, l');
    ArchivingIs(history, l, op, l');
    if Rotates(l, op) {
      if l'.base == None {
        NewestKnown(max, history, l.archives);
        DropAndAppend(l.archives, history, Dropped(|l.archives|, max), l.base.value);
        OneLonger(history, l.base.value);
        EnoughAfter(max, |history|, |l.archives|);
        NewestMade(max, history + [l.base.value], l'.archives);
      } else {
        KeepStopped(max, history, l.archives, l'.archives);
      }
    }
  }

  lemma EnoughAfter(max: int, h: nat, n: nat)
    requires n >= if max > 0 && h > max then max else h
    ensures n - Dropped(n, max) + 1 >= if max > 0 && h + 1 > max then max else h + 1
  {
  }

  /** The end of a sequence without its first `d`, and one more element on both. */
  lemma DropAndAppend<T>(a: seq<T>, h: seq<T>, d: nat, x: T)
    requires EndOf(a, h) && d <= |a|
    ensures EndOf(a[d..] + [x], h + [x])
  {
    hide EndOf;
    EndDrop(a, d);
    EndTrans(a[d..], a, h);
    EndAppend(a[d..], h, x);
  }

  lemma OneLonger<T>(s: seq<T>, x: T)
    ensures |s + [x]| == |s| + 1
  {
  }

  lemma NewestKnown(max: int, history: seq<Content>, a: seq<Content>)
    requires KeepsNewest(false, max, history, a)
    ensures EndOf(a, history) && |a| <= |history|
    ensures |a| >= if max > 0 && |history| > max then max else |history|
  {
  }

  lemma NewestMade(max: int, history: seq<Content>, a: seq<Content>)
    requires EndOf(a, history) && |a| >= if max > 0 && |history| > max then max else |history|
    ensures KeepsNewest(false, max, history, a)
  {
  }

  lemma KeepStopped(max: int, history: seq<Content>, a: seq<Content>, a': seq<Content>)
    requires KeepsNewest(false, max, history, a) && EndOf(a', a) && |a'| >= |a| - Dropped(|a|, max)
    ensures KeepsNewest(false, max, history, a')
  {
    hide EndOf, KeepsNewest;
    NewestKnown(max, history, a);
    EndTrans(a', a, history);
    NewestMade(max, history, a');
  }

  lemma EndDrop<T>(a: seq<T>, d: nat)
    requires d <= |a|
    ensures EndOf(a[d..], a)
  {
  }

  lemma ArchivingIs(history: seq<Content>, l: Log, op: Op, l': Log)
    ensures Rotates(l, op) ==> l.base.Some?
    ensures Archiving(history, l, op, l')
         == if Rotates(l, op) && l'.base == None then history + [l.base.value] else history
  {
  }

  lemma EndTrans<T>(a: seq<T>, b: seq<T>, c: seq<T>)
    requires EndOf(a, b) && EndOf(b, c)
    ensures EndOf(a, c)
  {
  }

  lemma EndAppend<T>(a: seq<T>, h: seq<T>, x: T)
    requires EndOf(a, h)
    ensures EndOf(a + [x], h + [x])
  {
  }

  lemma SequenceStep(l: Log, op: Op, l': Log)
    requires Steps(false, l, op, l')
    ensures !Rotates(l, op) ==> l'.archives == l.archives
    ensures Rotates(l, op) ==>
              var a, a', d := l.archives, l'.archives, Dropped(|l.archives|, op.max);
              && l.base.Some? && op.Rotate?
              && if l'.base == None then a' == a[d..] + [l.base.value] && EndOf(a[d..], a)
                 else EndOf(a', a) && |a'| >= |a| - d
  {
  }

  /** Text moves from the log file to the archives and is never lost on the way. */
  lemma {:induction false} TextStays(rolling: bool, history: seq<Content>, l: Log, op: Op, l': Log)
    requires Steps(rolling, l, op, l')
    ensures Joined(Archiving(history, l, op, l')) + Text(l'.base)
         == Joined(history) + Text(l.base) + if op.Write? then op.text else []
  {
    hide Archived, LostOnlyOld;
    assert (history + [Text(l.base)])[..|history|] == history;
    assert l'.base == l.base || l' == ApplyOp(rolling, l, op) by {
      StopKeepsBase(rolling, l, op, l');
    }
  }

  lemma StopKeepsBase(rolling: bool, l: Log, op: Op, l': Log)
    requires Steps(rolling, l, op, l')
    ensures l'.base == l.base || l' == ApplyOp(rolling, l, op)
  {
  }

  /** Any run of writes and rotations of one kind, starting from a directory without archives, with
      any failing system calls: the directory always shows a log, and no text is lost but with
      archives past the limit. When no system call fails, the log is exactly what the abstract
      operations produce. */
  method Run(r: Rotater, rolling: bool, ops: seq<Op>)
      returns (ghost ix: seq<int>, ghost l: Log, ghost history: seq<Content>)
    requires forall k :: Archive(k) !in r.disk.files
    modifies r, r.disk
    ensures Shows(r.disk.files, rolling, ix, l)
    ensures Joined(history) + Text(l.base)
         == (if Base in old(r.disk.files) then old(r.disk.files)[Base] else []) + Texts(ops)
    ensures forall max :: OneLimit(ops, max) ==> KeepsNewest(rolling, max, history, l.archives)
    ensures (forall c :: !r.disk.fault(c)) ==>
              var fs := old(r.disk.files);
              l == ApplyOps(rolling, Log(if Base in fs then Some(fs[Base]) else None, []), ops)
  {
    hide KeepsNewest, Steps, Archiving, ApplyOp, Shows, Joined, OneLimit;
    ghost var l0 := Log(if Base in r.disk.files then Some(r.disk.files[Base]) else None, []);
    ix, l, history := [], l0, [];
    EmptyShows(r.disk.files, rolling);
    EmptyHistory(rolling);
    for n := 0 to |ops|
      invariant Shows(r.disk.files, rolling, ix, l)
      invariant Joined(history) + Text(l.base) == Text(l0.base) + Texts(ops[..n])
      invariant forall max :: OneLimit(ops, max) ==> KeepsNewest(rolling, max, history, l.archives)
      invariant (forall c :: !r.disk.fault(c)) ==> l == ApplyOps(rolling, l0, ops[..n])
    {
      assert ops[..n + 1][..n] == ops[..n];
      ghost var l', history';
      ix, l' := Perform(r, rolling, ops[n], ix, l);
      history' := Archiving(history, l, ops[n], l');
      TextStays(rolling, history, l, ops[n], l');
      forall max | OneLimit(ops, max) ensures KeepsNewest(rolling, max, history', l'.archives) {
        KeepStep(rolling, max, history, l, ops, n, l');
      }
      l, history := l', history';
    }
    assert ops[..|ops|] == ops;
  }

  ghost predicate OneLimit(ops: seq<Op>, max: int) {
    forall i :: 0 <= i < |ops| && ops[i].Rotate? ==> ops[i].max == max
  }

  lemma EmptyHistory(rolling: bool)
    ensures Joined([]) == [] && Texts([]) == [] && forall max :: KeepsNewest(rolling, max, [], [])
  {
  }

  lemma KeepStep(rolling: bool, max: int, history: seq<Content>, l: Log, ops: seq<Op>, n: nat, l': Log)
    requires n < |ops| && OneLimit(ops, max) && KeepsNewest(rolling, max, history, l.archives)
    requires Steps(rolling, l, ops[n], l')
    ensures KeepsNewest(rolling, max, Archiving(history, l, ops[n], l'), l'.archives)
  {
    hide KeepsNewest, Steps, Archiving;
    if rolling {
      KeepRolling(max, history, l, ops[n], l');
    } else {
      KeepSequence(max, history, l, ops[n], l');
    }
  }

  method Perform(r: Rotater, rolling: bool, op: Op, ghost ix: seq<int>, ghost l: Log)
      returns (ghost iy: seq<int>, ghost l': Log)
    requires Shows(r.disk.files, rolling, ix, l)
    modifies r, r.disk
    ensures Shows(r.disk.files, rolling, iy, l') && Steps(rolling, l, op, l')
    ensures (forall c :: !r.disk.fault(c)) ==> l' == ApplyOp(rolling, l, op)
  {
    hide Lists, Queue, Dense, Outcome, Archived, LostOnlyOld;
    var d := r.disk;
    match op
    case Write(text) =>
      WriteShows(d.files, rolling, ix, l, text);
      d.files := d.files[Base := (if Base in d.files then d.files[Base] else []) + text];
      iy, l' := ix, ApplyOp(rolling, l, op);
    case Rotate(msgLen, maxSize, max) =>
      ghost var fs0 := d.files;
      ghost var jx, i;
      var rc;
      rc, jx, i := r.Rotate(rolling, msgLen, maxSize, max);
      if !Due(fs0, msgLen, maxSize) {
        iy, l' := ix, l;
      } else if rolling {
        iy, l' := RollingOutcome(fs0, d.files, ix, l, max, jx, i, rc);
      } else {
        iy, l' := SequenceOutcome(fs0, d.files, ix, l, max, jx, i, rc);
      }
  }

  lemma EmptyShows(fs: Files, rolling: bool)
    requires forall k :: Archive(k) !in fs
    ensures Shows(fs, rolling, [], Log(if Base in fs then Some(fs[Base]) else None, []))
  {
  }

  lemma WriteShows(fs: Files, rolling: bool, ix: seq<int>, l: Log, text: string)
    requires Shows(fs, rolling, ix, l)
    ensures Shows(fs[Base := (if Base in fs
            then fs[Base] else []) + text], rolling, ix, ApplyOp(rolling, l, Write(text)))
  {
    var fs' := fs[Base := (if Base in fs then fs[Base] else []) + text];
    assert Queue(fs', ix) == Queue(fs, ix);
  }

  /** The contents that the rotations of a run have archived, in order of time. */
  function Rotations(rolling: bool, l: Log, ops: seq<Op>): seq<Content> {
    if ops == [] then []
    else
      var before, op := ApplyOps(rolling, l, ops[..|ops| - 1]), ops[|ops| - 1];
      Rotations(rolling, l, ops[..|ops| - 1]) + if Rotates(before, op) then [before.base.value] else []
  }

  function Reversed<T>(q: seq<T>): (r: seq<T>)
    ensures |r| == |q|
  {
    if q == [] then [] else [q[|q| - 1]] + Reversed(q[..|q| - 1])
  }

  /** What is kept of a history `q`: rolling rotation keeps the newest `max`, newest first, and
      sequence rotation the newest `max` and one more, oldest first; all of it without a limit. */
  function Remembered(rolling: bool, max: int, q: seq<Content>): seq<Content> {
    if rolling then Newest(max, Reversed(q))
    else if max > 0 && |q| > max + 1 then q[|q| - (max + 1)..]
    else q
  }

  lemma {:induction false} Remember(rolling: bool, max: int, q: seq<Content>, text: Content)
    ensures Archived(rolling, Remembered(rolling, max, q), text, max) == Remembered(rolling, max, q + [text])
  {
    var all := q + [text];
    if rolling {
      assert all[..|q|] == q;
      assert Reversed(all) == [text] + Reversed(q);
      hide Reversed;
      NewestTwice(max, text, Reversed(q));
    } else if max > 0 && |q| > max {
      hide Reversed;
      assert all[|q| - max..] == q[|q| - max..] + [text];
      if |q| > max + 1 {
        assert q[|q| - (max + 1)..][1..] == q[|q| - max..];
      }
    } else {
      hide Reversed;
      assert q[0..] == q;
    }
  }

  /** Cutting before the next entry comes makes no difference. */
  lemma NewestTwice<T>(max: int, x: T, r: seq<T>)
    ensures Newest(max, [x] + Newest(max, r)) == Newest(max, [x] + r)
  {
  }

  lemma {:induction false} HistoryRemembered(rolling: bool, max: int, base: Option<Content>, ops: seq<Op>)
    requires OneLimit(ops, max)
    ensures ApplyOps(rolling, Log(base, []), ops).archives
            == Remembered(rolling, max, Rotations(rolling, Log(base, []), ops))
  {
    hide Remembered, Archived;
    if ops == [] {
      Forgotten(rolling, max);
    } else {
      var l, n := Log(base, []), |ops| - 1;
      HistoryRemembered(rolling, max, base, ops[..n]);
      var before := ApplyOps(rolling, l, ops[..n]);
      var q := Rotations(rolling, l, ops[..n]);
      if Rotates(before, ops[n]) {
        Remember(rolling, max, q, before.base.value);
      } else {
        assert q + [] == q;
      }
    }
  }

  lemma Forgotten(rolling: bool, max: int)
    ensures Remembered(rolling, max, []) == []
  {
  }

  /** With one limit throughout, the archives are the newest ones of the whole history: `max` of them,
      newest first, or under sequence rotation `max + 1`, oldest first. */
  lemma NewestKept(rolling: bool, max: int, base: Option<Content>, ops: seq<Op>)
    requires OneLimit(ops, max)
    ensures var q, a := Rotations(rolling, Log(base, []), ops), ApplyOps(rolling, Log(base, []), ops).archives;
            if rolling then
              && |a| == (if max > 0 && |q| > max then max else |q|)
              && forall i :: 0 <= i < |a| ==> a[i] == q[|q| - 1 - i]
            else
              && |a| == (if max > 0 && |q| > max + 1 then max + 1 else |q|)
              && forall i :: 0 <= i < |a| ==> a[i] == q[|q| - |a| + i]
  {
    hide Rotations, ApplyOps;
    var q := Rotations(rolling, Log(base, []), ops);
    HistoryRemembered(rolling, max, base, ops);
    ReversedAt(q);
  }

  lemma {:induction false} ReversedAt<T>(q: seq<T>)
    ensures forall i :: 0 <= i < |q| ==> Reversed(q)[i] == q[|q| - 1 - i]
  {
    if q != [] {
      ReversedAt(q[..|q| - 1]);
    }
  }

  // Logging -----------------------------------------------------------------------------------

  /** Every text is preceded by the rotation that makes room for it. */
  function Logging(texts: seq<Content>, maxSize: nat, max: int): seq<Op> {
    if texts == [] then []
    else
      var text := texts[|texts| - 1];
      Logging(texts[..|texts| - 1], maxSize, max) + [Rotate(|text|, maxSize, max)] + [Write(text)]
  }

  function Flat(groups: seq<seq<Content>>): seq<Content> {
    if groups == [] then [] else Flat(groups[..|groups| - 1]) + groups[|groups| - 1]
  }

  /** The texts came into the contents in groups, one group for each content, behind what the log
      file held before. A content stays within `maxSize`, unless it is a single text or that earlier
      log file; and the first text of the next group would not have fitted any more. */
  ghost predicate Grouped(base: Option<Content>, texts: seq<Content>, maxSize: nat,
                          groups: seq<seq<Content>>, contents: seq<Content>)
  {
    && |groups| == |contents| > 0 && Flat(groups) == texts
    && contents[0] == Text(base) + Joined(groups[0])
    && (forall k :: 0 < k < |groups| ==> groups[k] != [] && contents[k] == Joined(groups[k]))
    && (forall k {:trigger contents[k]} :: 0 <= k < |groups| - 1 ==> |contents[k]| + |groups[k + 1][0]| > maxSize)
    && (forall k :: 0 <= k < |groups| ==>
          |contents[k]| <= maxSize || |groups[k]| <= if k == 0 && base.Some? then 0 else 1)
  }

  /** One text with its rotation. */
  lemma LogOne(rolling: bool, l: Log, ops: seq<Op>, text: Content, maxSize: nat, max: int)
    ensures var l1 := ApplyOps(rolling, l, ops);
            var more := ops + [Rotate(|text|, maxSize, max)] + [Write(text)];
            var full := l1.base.Some? && |l1.base.value| + |text| > maxSize;
            && ApplyOps(rolling, l, more).base == Some(if full then text else Text(l1.base) + text)
            && Rotations(rolling, l, more) == Rotations(rolling, l, ops) + if full then [l1.base.value] else []
  {
    hide *;
    var r := Rotate(|text|, maxSize, max);
    OpMore(rolling, l, ops, r);
    OpMore(rolling, l, ops + [r], Write(text));
    PairIs(rolling, ApplyOps(rolling, l, ops), text, maxSize, max);
    var q := Rotations(rolling, l, ops);
    assert q + [] == q;
  }

  /** What an output rule does for a text: write it, and rotate unless the text alone is too long or
      another one of that length is sure to fit. */
  function Output(text: Content, size: nat, maxSize: nat, max: int): seq<Op> {
    [Write(text)] + if |text| > maxSize || size + |text| < maxSize then [] else [Rotate(|text|, maxSize, max)]
  }

  /** The file is rotated exactly if another text of that length would not fit, and the text alone does. */
  lemma OutputOne(rolling: bool, l: Log, ops: seq<Op>, text: Content, maxSize: nat, max: int)
    ensures var l1 := ApplyOps(rolling, l, ops);
            var content := Text(l1.base) + text;
            var more := ops + Output(text, |content|, maxSize, max);
            var l2 := ApplyOps(rolling, l, more);
            if |text| <= maxSize < |content| + |text| then
              l2.base == None && Rotations(rolling, l, more) == Rotations(rolling, l, ops) + [content]
            else
              l2 == l1.(base := Some(content)) && Rotations(rolling, l, more) == Rotations(rolling, l, ops)
  {
    hide ApplyOps, Rotations, Archived;
    var size := |Text(ApplyOps(rolling, l, ops).base) + text|;
    OpMore(rolling, l, ops, Write(text));
    OpMore(rolling, l, ops + [Write(text)], Rotate(|text|, maxSize, max));
    assert ops + Output(text, size, maxSize, max)
        == if |text| > maxSize || size + |text| < maxSize then ops + [Write(text)]
           else ops + [Write(text)] + [Rotate(|text|, maxSize, max)];
    var q := Rotations(rolling, l, ops);
    assert q + [] == q && q + [] + [] == q;
  }

  lemma PairIs(rolling: bool, l: Log, text: Content, maxSize: nat, max: int)
    ensures var r := Rotate(|text|, maxSize, max);
            var l1 := ApplyOp(rolling, l, r);
            && (Rotates(l, r) <==> l.base.Some? && |l.base.value| + |text| > maxSize)
            && !Rotates(l1, Write(text))
            && ApplyOp(rolling, l1, Write(text)).base == Some(if Rotates(l, r) then text else Text(l.base) + text)
  {
    assert [] + text == text;
    hide Archived;
  }

  lemma OpMore(rolling: bool, l: Log, ops: seq<Op>, op: Op)
    ensures Rotates(ApplyOps(rolling, l, ops), op) ==> ApplyOps(rolling, l, ops).base.Some?
    ensures var before := ApplyOps(rolling, l, ops);
            && ApplyOps(rolling, l, ops + [op]) == ApplyOp(rolling, before, op)
            && Rotations(rolling, l, ops + [op])
               == Rotations(rolling, l, ops) + if Rotates(before, op) then [before.base.value] else []
  {
    assert (ops + [op])[..|ops|] == ops;
    hide ApplyOp;
  }

  /** A log that is written text by text, each with its rotation: what has been archived and what is in
      the log file is the text in groups, as large as they fit. */
  lemma {:induction false} LoggedInGroups(rolling: bool, base: Option<Content>, texts: seq<Content>,
                                          maxSize: nat, max: int)
      returns (groups: seq<seq<Content>>)
    ensures var l, ops := Log(base, []), Logging(texts, maxSize, max);
            && Grouped(base, texts, maxSize, groups,
                       Rotations(rolling, l, ops) + [Text(ApplyOps(rolling, l, ops).base)])
            && (ApplyOps(rolling, l, ops).base.Some? <==> base.Some? || texts != [])
    decreases texts
  {
    var l := Log(base, []);
    if texts == [] {
      groups := [[]];
      NoTexts(rolling, base, maxSize);
    } else {
      var n := |texts| - 1;
      var before := Logging(texts[..n], maxSize, max);
      var sofar := LoggedInGroups(rolling, base, texts[..n], maxSize, max);
      LogOne(rolling, l, before, texts[n], maxSize, max);
      LastSplit(texts);
      hide Rotations, ApplyOps, Grouped;
      var last := ApplyOps(rolling, l, before).base;
      groups := if last.Some? && |last.value| + |texts[n]| > maxSize then sofar + [[texts[n]]]
                else Behind(sofar, texts[n]);
      OneMoreText(base, texts[..n], maxSize, sofar, Rotations(rolling, l, before), last, texts[n]);
    }
  }

  lemma LastSplit<T>(s: seq<T>)
    requires s != []
    ensures s[..|s| - 1] + [s[|s| - 1]] == s
  {
  }

  lemma NoTexts(rolling: bool, base: Option<Content>, maxSize: nat)
    ensures Grouped(base, [], maxSize, [[]], Rotations(rolling, Log(base, []), []) + [Text(base)])
  {
    assert Flat([[]]) == Flat([]) + [];
    assert Rotations(rolling, Log(base, []), []) + [Text(base)] == [Text(base)] && Text(base) + [] == Text(base);
  }

  /** One more text in the last group. */
  function Behind(groups: seq<seq<Content>>, text: Content): seq<seq<Content>> {
    if groups == [] then [[text]] else groups[..|groups| - 1] + [groups[|groups| - 1] + [text]]
  }

  lemma OneMoreText(base: Option<Content>, texts: seq<Content>, maxSize: nat, groups: seq<seq<Content>>,
                    done: seq<Content>, last: Option<Content>, text: Content)
    requires Grouped(base, texts, maxSize, groups, done + [Text(last)])
    requires last.Some? <==> base.Some? || texts != []
    ensures if last.Some? && |last.value| + |text| > maxSize then
              Grouped(base, texts + [text], maxSize, groups + [[text]], done + [last.value] + [text])
            else
              Grouped(base, texts + [text], maxSize, Behind(groups, text), done + [] + [Text(last) + text])
  {
    assert Text(last) == if last.Some? then last.value else [];
    assert done + [] == done;
    if last.Some? && |last.value| + |text| > maxSize {
      NextGroup(base, texts, maxSize, groups, done, last.value, text);
    } else {
      if last == None {
        NoneYet(base, maxSize, groups, done);
      }
      SameGroup(base, texts, maxSize, groups, done, Text(last), text);
    }
  }

  lemma NoneYet(base: Option<Content>, maxSize: nat, groups: seq<seq<Content>>, done: seq<Content>)
    requires base == None && Grouped(base, [], maxSize, groups, done + [[]])
    ensures groups == [[]] && done == []
  {
    var n := |groups| - 1;
    assert groups[..n] + [groups[n]] == groups;
    FlatMore(groups[..n], groups[n]);
    assert groups[n] == [];
  }

  lemma JoinedMore(history: seq<Content>, text: Content)
    ensures Joined(history + [text]) == Joined(history) + text
  {
    assert (history + [text])[..|history|] == history;
  }

  lemma FlatMore(groups: seq<seq<Content>>, group: seq<Content>)
    ensures Flat(groups + [group]) == Flat(groups) + group
  {
    assert (groups + [group])[..|groups|] == groups;
  }

  lemma NextGroup(base: Option<Content>, texts: seq<Content>, maxSize: nat, groups: seq<seq<Content>>,
                  done: seq<Content>, last: Content, text: Content)
    requires Grouped(base, texts, maxSize, groups, done + [last]) && |last| + |text| > maxSize
    ensures Grouped(base, texts + [text], maxSize, groups + [[text]], done + [last] + [text])
  {
    FlatMore(groups, [text]);
    JoinedMore([], text);
    assert [] + [text] == [text] && [] + text == text;
    hide Flat, Joined, Text;
  }

  /** The text still fits, or it is the very first one in a new file. */
  lemma SameGroup(base: Option<Content>, texts: seq<Content>, maxSize: nat, groups: seq<seq<Content>>,
                  done: seq<Content>, last: Content, text: Content)
    requires Grouped(base, texts, maxSize, groups, done + [last])
    requires |last| + |text| <= maxSize || (base == None && groups == [[]])
    ensures Grouped(base, texts + [text], maxSize, Behind(groups, text), done + [last + text])
  {
    hide Flat, Joined, Text, Grouped;
    var gs, cs := Behind(groups, text), done + [last + text];
    BehindParts(base, texts, maxSize, groups, done, last, text);
    FirstsKept(base, texts, maxSize, groups, done + [last], gs, cs);
    SizesKept(base, texts, maxSize, groups, done, last, text);
    MakeGrouped(base, texts + [text], maxSize, gs, cs);
  }

  lemma MakeGrouped(base: Option<Content>, texts: seq<Content>, maxSize: nat, gs: seq<seq<Content>>, cs: seq<Content>)
    requires |gs| == |cs| > 0 && Flat(gs) == texts && cs[0] == Text(base) + Joined(gs[0])
    requires forall k :: 0 < k < |gs| ==> gs[k] != [] && cs[k] == Joined(gs[k])
    requires forall k {:trigger cs[k]} :: 0 <= k < |gs| - 1 ==> |cs[k]| + |gs[k + 1][0]| > maxSize
    requires forall k :: 0 <= k < |gs| ==> |cs[k]| <= maxSize || |gs[k]| <= if k == 0 && base.Some? then 0 else 1
    ensures Grouped(base, texts, maxSize, gs, cs)
  {
    hide Flat, Joined, Text;
  }

  lemma BehindParts(base: Option<Content>, texts: seq<Content>, maxSize: nat, groups: seq<seq<Content>>,
                    done: seq<Content>, last: Content, text: Content)
    requires Grouped(base, texts, maxSize, groups, done + [last])
    ensures var gs, cs := Behind(groups, text), done + [last + text];
            && |gs| == |groups| == |cs| > 0 && Flat(gs) == texts + [text]
            && (forall j :: 0 <= j < |groups| ==> groups[j] <= gs[j])
            && (forall j :: 0 <= j < |groups| - 1 ==> cs[j] == (done + [last])[j])
            && cs[0] == Text(base) + Joined(gs[0])
            && forall k :: 0 < k < |gs| ==> gs[k] != [] && cs[k] == Joined(gs[k])
  {
    hide Flat, Joined, Text, Behind;
    var k := |groups| - 1;
    var gs, cs := Behind(groups, text), done + [last + text];
    FlatBehind(groups, text);
    BehindAt(groups, text);
    JoinedMore(groups[k], text);
    assert (done + [last])[k] == last && cs[k] == last + text;
    assert forall j :: 0 <= j < k ==> cs[j] == (done + [last])[j];
    assert cs[0] == Text(base) + Joined(gs[0]) by {
      assert Text(base) + Joined(groups[0]) + text == Text(base) + (Joined(groups[0]) + text);
    }
  }

  lemma BehindAt(groups: seq<seq<Content>>, text: Content)
    requires groups != []
    ensures var gs, k := Behind(groups, text), |groups| - 1;
            && |gs| == |groups| && gs[k] == groups[k] + [text]
            && (forall j :: 0 <= j < k ==> gs[j] == groups[j]) && forall j :: 0 <= j <= k ==> groups[j] <= gs[j]
  {
  }

  lemma FlatBehind(groups: seq<seq<Content>>, text: Content)
    requires groups != []
    ensures Flat(Behind(groups, text)) == Flat(groups) + [text]
  {
    var k := |groups| - 1;
    assert groups == groups[..k] + [groups[k]];
    FlatMore(groups[..k], groups[k]);
    FlatMore(groups[..k], groups[k] + [text]);
  }

  lemma SizesKept(base: Option<Content>, texts: seq<Content>, maxSize: nat, groups: seq<seq<Content>>,
                  done: seq<Content>, last: Content, text: Content)
    requires Grouped(base, texts, maxSize, groups, done + [last])
    requires |last| + |text| <= maxSize || (base == None && groups == [[]])
    ensures var gs, cs := Behind(groups, text), done + [last + text];
            |gs| == |cs|
            && forall k :: 0 <= k < |gs| ==> |cs[k]| <= maxSize || |gs[k]| <= if k == 0 && base.Some? then 0 else 1
  {
    hide Flat, Joined, Text;
    assert forall k :: 0 <= k < |groups| - 1 ==> (done + [last])[k] == done[k];
  }

  lemma FirstsKept(base: Option<Content>, texts: seq<Content>, maxSize: nat, groups: seq<seq<Content>>,
                   contents: seq<Content>, gs: seq<seq<Content>>, cs: seq<Content>)
    requires Grouped(base, texts, maxSize, groups, contents)
    requires |gs| == |cs| == |groups| && forall j :: 0 <= j < |groups| ==> groups[j] <= gs[j]
    requires forall j :: 0 <= j < |groups| - 1 ==> cs[j] == contents[j]
    ensures forall k {:trigger cs[k]} :: 0 <= k < |groups| - 1 ==>
              gs[k + 1] != [] && |cs[k]| + |gs[k + 1][0]| > maxSize
  {
    hide Flat, Joined, Text;
    forall k | 0 <= k < |groups| - 1 ensures gs[k + 1] != [] && |cs[k]| + |gs[k + 1][0]| > maxSize {
      assert |contents[k]| + |groups[k + 1][0]| > maxSize && groups[k + 1] <= gs[k + 1];
    }
  }
}
