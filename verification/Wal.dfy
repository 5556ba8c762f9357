/** The write-ahead log as pure functions on disk images: what every single-block write
    of a commit and of a recovery leaves on the disk (log.c), and what recovery makes
    of each of those images. */
module Wal {
  import opened Common
  import opened Blocks

  const LOGSIZE: nat := 30

  /** log.start, log.size and the number of blocks of the device. */
  datatype Layout = Layout(start: nat, size: nat, blocks: nat) {
    predicate Valid() { 1 <= size && start + size <= blocks <= UINT }
    predicate InLog(b: nat) { start <= b < start + size }
    /** Blocks that the log area and the header's list both have room for. */
    function Capacity(): nat requires Valid() { if size - 1 < LOGSIZE then size - 1 else LOGSIZE }
  }

  /** Block numbers a transaction may hold. */
  predicate Loggable(lay: Layout, bl: seq<nat>)
    requires lay.Valid()
  {
    && |bl| <= lay.Capacity()
    && Distinct(bl)
    && forall k :: 0 <= k < |bl| ==> bl[k] < lay.blocks && !lay.InLog(bl[k])
  }

  /** The block numbers in a header block: word 0 is n, the next n words are the blocks. */
  function Head(h: Block): (bl: seq<nat>)
    requires Word(h, 0) < WORDS
  {
    seq(Word(h, 0), i requires 0 <= i < Word(h, 0) => Word(h, 1 + i))
  }

  /** Header block h after write_head: n and n block numbers replaced, the rest stale. */
  function WithHead(h: Block, bl: seq<nat>): (r: Block)
    requires |bl| <= LOGSIZE && forall k :: 0 <= k < |bl| ==> bl[k] < UINT
  {
    SetWords(SetWord(h, 0, |bl|), 1, bl)
  }

  lemma HeadOfWithHead(h: Block, bl: seq<nat>)
    requires |bl| <= LOGSIZE && forall k :: 0 <= k < |bl| ==> bl[k] < UINT
    ensures Word(WithHead(h, bl), 0) == |bl|
    ensures Head(WithHead(h, bl)) == bl
  {
    hide Word, SetWord, SetWords;
    var h1 := SetWord(h, 0, |bl|);
    WordOfSetWord(h, 0, |bl|, 0);
    WordOfSetWords(h1, 1, bl, 0);
    forall i | 0 <= i < |bl| ensures Word(WithHead(h, bl), 1 + i) == bl[i] {
      WordOfSetWords(h1, 1, bl, 1 + i);
    }
  }

  /** The on-disk log names a transaction that recovery can install. */
  predicate LogOk(lay: Layout, d: Disk)
  {
    && lay.Valid()
    && |d| == lay.blocks
    && Word(d[lay.start], 0) < WORDS
    && Loggable(lay, Head(d[lay.start]))
  }

  predicate LogEmpty(lay: Layout, d: Disk)
  {
    && lay.Valid()
    && |d| == lay.blocks
    && Word(d[lay.start], 0) == 0
  }

  predicate SameHome(lay: Layout, d: Disk, e: Disk)
  {
    && |d| == |e| == lay.blocks
    && forall b :: 0 <= b < |d| && !lay.InLog(b) ==> d[b] == e[b]
  }

  /** The home blocks bl overwritten by data: the whole transaction, installed at once. */
  function Apply(d: Disk, bl: seq<nat>, data: seq<Block>): (r: Disk)
    requires |bl| == |data| && forall k :: 0 <= k < |bl| ==> bl[k] < |d|
    ensures |r| == |d|
  {
    if bl == [] then d
    else Apply(d, bl[..|bl| - 1], data[..|bl| - 1])[bl[|bl| - 1] := data[|bl| - 1]]
  }

  lemma {:induction false} ApplyAt(d: Disk, bl: seq<nat>, data: seq<Block>)
    requires |bl| == |data| && (forall k :: 0 <= k < |bl| ==> bl[k] < |d|) && Distinct(bl)
    ensures forall k :: 0 <= k < |bl| ==> Apply(d, bl, data)[bl[k]] == data[k]
    ensures forall b :: 0 <= b < |d| && b !in bl ==> Apply(d, bl, data)[b] == d[b]
  {
    if bl != [] {
      var n := |bl| - 1;
      ApplyAt(d, bl[..n], data[..n]);
      assert bl == bl[..n] + [bl[n]];
    }
  }

  // ---- the images a commit and a recovery pass through ----

  /** After write_log has copied k of the data blocks into the log area. */
  function LogWritten(lay: Layout, d: Disk, data: seq<Block>, k: nat): (r: Disk)
    requires lay.Valid() && |d| == lay.blocks && k <= |data| <= lay.size - 1
    ensures |r| == |d|
  {
    if k == 0 then d
    else LogWritten(lay, d, data, k - 1)[lay.start + k := data[k - 1]]
  }

  /** After install_trans has copied the first k log blocks home. */
  function Installed(lay: Layout, d: Disk, bl: seq<nat>, k: nat): (r: Disk)
    requires lay.Valid() && |d| == lay.blocks && Loggable(lay, bl) && k <= |bl|
    ensures |r| == |d|
  {
    if k == 0 then d
    else var e := Installed(lay, d, bl, k - 1); e[bl[k - 1] := e[lay.start + k]]
  }

  function Cleared(lay: Layout, d: Disk): (r: Disk)
    requires lay.Valid() && |d| == lay.blocks
    ensures |r| == |d|
  {
    d[lay.start := WithHead(d[lay.start], [])]
  }

  function Logged(lay: Layout, d: Disk, bl: seq<nat>, data: seq<Block>): (r: Disk)
    requires lay.Valid() && |d| == lay.blocks && Loggable(lay, bl) && |data| == |bl|
    ensures |r| == |d|
  {
    var e := LogWritten(lay, d, data, |bl|);
    e[lay.start := WithHead(e[lay.start], bl)]
  }

  /** The disk after i block writes of a commit (log.c:193-202), 0 <= i <= 2n+2. */
  function CommitState(lay: Layout, d: Disk, bl: seq<nat>, data: seq<Block>, i: nat): (r: Disk)
    requires lay.Valid() && |d| == lay.blocks && Loggable(lay, bl) && |data| == |bl|
    requires i <= 2 * |bl| + 2
    ensures |r| == |d|
  {
    var n := |bl|;
    if i <= n then LogWritten(lay, d, data, i)
    else if i <= 2 * n + 1 then Installed(lay, Logged(lay, d, bl, data), bl, i - n - 1)
    else Cleared(lay, Installed(lay, Logged(lay, d, bl, data), bl, n))
  }

  /** The disk after i block writes of a recovery (log.c:115-122), 0 <= i <= n+1. */
  function RecoverState(lay: Layout, d: Disk, i: nat): (r: Disk)
    requires LogOk(lay, d) && i <= |Head(d[lay.start])| + 1
    ensures |r| == |d|
  {
    var bl := Head(d[lay.start]);
    if i <= |bl| then Installed(lay, d, bl, i) else Cleared(lay, Installed(lay, d, bl, |bl|))
  }

  /** What a recovery that runs to its end makes of the disk. */
  function Recover(lay: Layout, d: Disk): (r: Disk)
    requires LogOk(lay, d)
    ensures |r| == |d|
  {
    RecoverState(lay, d, |Head(d[lay.start])| + 1)
  }

  lemma {:induction false} LogWrittenAt(lay: Layout, d: Disk, data: seq<Block>, k: nat)
    requires lay.Valid() && |d| == lay.blocks && k <= |data| <= lay.size - 1
    ensures forall j :: 0 <= j < k ==> LogWritten(lay, d, data, k)[lay.start + 1 + j] == data[j]
    ensures forall b :: 0 <= b < |d| && !(lay.start < b <= lay.start + k) ==> LogWritten(lay, d, data, k)[b] == d[b]
  {
    if k > 0 { LogWrittenAt(lay, d, data, k - 1); }
  }

  lemma {:induction false} InstalledAt(lay: Layout, d: Disk, bl: seq<nat>, k: nat)
    requires lay.Valid() && |d| == lay.blocks && Loggable(lay, bl) && k <= |bl|
    ensures forall j :: 0 <= j < k ==> Installed(lay, d, bl, k)[bl[j]] == d[lay.start + 1 + j]
    ensures forall b :: 0 <= b < |d| && b !in bl[..k] ==> Installed(lay, d, bl, k)[b] == d[b]
  {
    if k > 0 {
      InstalledAt(lay, d, bl, k - 1);
      assert bl[..k] == bl[..k - 1] + [bl[k - 1]];
      assert lay.start + k !in bl[..k - 1];
    }
  }

  /** Installing again over a partial installation gives the full installation. */
  lemma InstalledTwice(lay: Layout, d: Disk, bl: seq<nat>, k: nat)
    requires lay.Valid() && |d| == lay.blocks && Loggable(lay, bl) && k <= |bl|
    ensures Installed(lay, Installed(lay, d, bl, k), bl, |bl|) == Installed(lay, d, bl, |bl|)
  {
    var e := Installed(lay, d, bl, k);
    var l, r := Installed(lay, e, bl, |bl|), Installed(lay, d, bl, |bl|);
    InstalledAt(lay, d, bl, k);
    InstalledAt(lay, d, bl, |bl|);
    InstalledAt(lay, e, bl, |bl|);
    assert bl[..|bl|] == bl;
    forall b | 0 <= b < |d| ensures l[b] == r[b] {
      if b in bl {
        var j :| 0 <= j < |bl| && bl[j] == b;
        assert lay.start + 1 + j !in bl[..k];
      }
    }
  }

  lemma HeaderUntouched(lay: Layout, d: Disk, bl: seq<nat>, k: nat)
    requires lay.Valid() && |d| == lay.blocks && Loggable(lay, bl) && k <= |bl|
    ensures Installed(lay, d, bl, k)[lay.start] == d[lay.start]
  {
    InstalledAt(lay, d, bl, k);
    assert lay.start !in bl[..k];
  }

  lemma ClearedIsEmpty(lay: Layout, d: Disk)
    requires lay.Valid() && |d| == lay.blocks
    ensures LogEmpty(lay, Cleared(lay, d)) && SameHome(lay, d, Cleared(lay, d))
    ensures Cleared(lay, Cleared(lay, d)) == Cleared(lay, d)
  {
    HeadOfWithHead(d[lay.start], []);
    var h := WithHead(d[lay.start], []);
    SetWordSame(h, 0);
    assert WithHead(h, []) == h;
  }

  lemma RecoverOfEmpty(lay: Layout, d: Disk)
    requires LogEmpty(lay, d)
    ensures LogOk(lay, d) && Recover(lay, d) == d
  {
    SetWordSame(d[lay.start], 0);
    assert WithHead(d[lay.start], []) == d[lay.start];
  }

  /** A crash after any write of a recovery changes nothing: running recovery
      from that image gives the very disk the first recovery would have given. */
  lemma RecoveryCrashSafe(lay: Layout, d: Disk, i: nat)
    requires LogOk(lay, d) && i <= |Head(d[lay.start])| + 1
    ensures LogOk(lay, RecoverState(lay, d, i))
    ensures Recover(lay, RecoverState(lay, d, i)) == Recover(lay, d)
  {
    var bl := Head(d[lay.start]);
    if i <= |bl| {
      HeaderUntouched(lay, d, bl, i);
      InstalledTwice(lay, d, bl, i);
    } else {
      ClearedIsEmpty(lay, Installed(lay, d, bl, |bl|));
      RecoverOfEmpty(lay, Recover(lay, d));
    }
  }

  /** ds is a history of crashed recoveries: each image is where a recovery
      started from the previous one was cut off (or finished). */
  ghost predicate CrashChain(lay: Layout, ds: seq<Disk>)
  {
    && |ds| > 0
    && (forall k :: 0 <= k < |ds| ==> LogOk(lay, ds[k]))
    && forall k :: 0 < k < |ds| ==> CutOff(lay, ds[k - 1], ds[k])
  }

  ghost predicate CutOff(lay: Layout, d: Disk, e: Disk)
    requires LogOk(lay, d)
  {
    exists i :: 0 <= i <= |Head(d[lay.start])| + 1 && e == RecoverState(lay, d, i)
  }

  lemma {:induction false} ChainSafe(lay: Layout, ds: seq<Disk>)
    requires CrashChain(lay, ds)
    ensures Recover(lay, ds[|ds| - 1]) == Recover(lay, ds[0])
  {
    if |ds| > 1 {
      var init := ds[..|ds| - 1];
      ChainSafe(lay, init);
      var d, e := ds[|ds| - 2], ds[|ds| - 1];
      assert CutOff(lay, d, e);
      var i :| 0 <= i <= |Head(d[lay.start])| + 1 && e == RecoverState(lay, d, i);
      RecoveryCrashSafe(lay, d, i);
    }
  }

  /** The commit point is the header write: up to it recovery restores the home
      blocks as they were, from it on recovery yields the whole transaction. */
  lemma CommitCrashSafe(lay: Layout, d: Disk, bl: seq<nat>, data: seq<Block>, i: nat)
    requires LogEmpty(lay, d) && Loggable(lay, bl) && |data| == |bl| && i <= 2 * |bl| + 2
    ensures LogOk(lay, CommitState(lay, d, bl, data, i))
    ensures i <= |bl| ==> SameHome(lay, Recover(lay, CommitState(lay, d, bl, data, i)), d)
    ensures |bl| < i ==> SameHome(lay, Recover(lay, CommitState(lay, d, bl, data, i)), Apply(d, bl, data))
  {
    var n := |bl|;
    var e := CommitState(lay, d, bl, data, i);
    if i <= n {
      LogWrittenAt(lay, d, data, i);
      RecoverOfEmpty(lay, e);
    } else {
      var g := Logged(lay, d, bl, data);
      LoggedRecovers(lay, d, bl, data);
      if i <= 2 * n + 1 {
        assert e == RecoverState(lay, g, i - n - 1);
        RecoveryCrashSafe(lay, g, i - n - 1);
      } else {
        RecoveryCrashSafe(lay, g, n + 1);
      }
    }
  }

  lemma LoggedHead(lay: Layout, d: Disk, bl: seq<nat>, data: seq<Block>)
    requires LogEmpty(lay, d) && Loggable(lay, bl) && |data| == |bl|
    ensures LogOk(lay, Logged(lay, d, bl, data))
    ensures Head(Logged(lay, d, bl, data)[lay.start]) == bl
  {
    HeadOfWithHead(LogWritten(lay, d, data, |bl|)[lay.start], bl);
  }

  lemma LoggedInstalls(lay: Layout, d: Disk, bl: seq<nat>, data: seq<Block>)
    requires lay.Valid() && |d| == lay.blocks && Loggable(lay, bl) && |data| == |bl|
    ensures SameHome(lay, Installed(lay, Logged(lay, d, bl, data), bl, |bl|), Apply(d, bl, data))
  {
    hide WithHead;
    LogWrittenAt(lay, d, data, |bl|);
    InstalledAt(lay, Logged(lay, d, bl, data), bl, |bl|);
    ApplyAt(d, bl, data);
    assert bl[..|bl|] == bl;
  }

  lemma LoggedRecovers(lay: Layout, d: Disk, bl: seq<nat>, data: seq<Block>)
    requires LogEmpty(lay, d) && Loggable(lay, bl) && |data| == |bl|
    ensures LogOk(lay, Logged(lay, d, bl, data))
    ensures Head(Logged(lay, d, bl, data)[lay.start]) == bl
    ensures SameHome(lay, Recover(lay, Logged(lay, d, bl, data)), Apply(d, bl, data))
  {
    LoggedHead(lay, d, bl, data);
    LoggedInstalls(lay, d, bl, data);
    ClearedIsEmpty(lay, Installed(lay, Logged(lay, d, bl, data), bl, |bl|));
  }

  /** A commit that runs to its end leaves the transaction installed and the log empty. */
  lemma CommitFinal(lay: Layout, d: Disk, bl: seq<nat>, data: seq<Block>)
    requires LogEmpty(lay, d) && Loggable(lay, bl) && |data| == |bl|
    ensures SameHome(lay, CommitState(lay, d, bl, data, 2 * |bl| + 2), Apply(d, bl, data))
    ensures LogEmpty(lay, CommitState(lay, d, bl, data, 2 * |bl| + 2))
  {
    LoggedInstalls(lay, d, bl, data);
    ClearedIsEmpty(lay, Installed(lay, Logged(lay, d, bl, data), bl, |bl|));
  }

  /** Crash atomicity: cut a commit off after any of its writes, then cut off any
      number of recoveries; the recovery that finishes leaves the home blocks
      exactly as before the transaction or exactly as after all of it, and which
      of the two depends only on whether the header write had happened. */
  lemma CrashAtomic(lay: Layout, d: Disk, bl: seq<nat>, data: seq<Block>, i: nat, ds: seq<Disk>)
    requires LogEmpty(lay, d) && Loggable(lay, bl) && |data| == |bl| && i <= 2 * |bl| + 2
    requires CrashChain(lay, ds) && ds[0] == CommitState(lay, d, bl, data, i)
    ensures SameHome(lay, Recover(lay, ds[|ds| - 1]), if i <= |bl| then d else Apply(d, bl, data))
    ensures LogEmpty(lay, Recover(lay, ds[|ds| - 1]))
  {
    ChainSafe(lay, ds);
    CommitCrashSafe(lay, d, bl, data, i);
    var last := ds[|ds| - 1];
    var bl' := Head(last[lay.start]);
    ClearedIsEmpty(lay, Installed(lay, last, bl', |bl'|));
  }
}
