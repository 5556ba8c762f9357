/** log.c: the in-memory log header and the commit and recovery procedures,
    run against the buffer cache. Every disk image they pass through is one of Wal's. */
module Log {
  import opened Common
  import opened Blocks
  import opened Wal
  import opened BufferCache

  ghost predicate DirtyIn(s: seq<Buf>, b: nat) {
    exists i :: 0 <= i < |s| && s[i].Holds(DEV, b) && s[i].dirty
  }

  lemma CleanContent(s: seq<Buf>, d: Disk, b: nat)
    requires |s| == NBUF && Unique(s) && CoherentWith(s, d) && b < |d| && !DirtyIn(s, b)
    requires forall i :: 0 <= i < NBUF ==> !s[i].locked
    ensures ContentOf(s, d, b) == d[b]
  {}

  lemma DirtyKept(s: seq<Buf>, t: seq<Buf>, i: nat)
    requires |s| == |t| == NBUF && i < NBUF && forall j :: 0 <= j < NBUF && j != i ==> t[j] == s[j]
    requires s[i].dirty ==> t[i].Holds(s[i].dev, s[i].blockno) && t[i].dirty
    requires t[i].dirty ==> s[i].Holds(t[i].dev, t[i].blockno) && s[i].dirty
    ensures forall c :: DirtyIn(t, c) == DirtyIn(s, c)
  {
    forall c ensures DirtyIn(t, c) == DirtyIn(s, c) {
      assert forall j :: 0 <= j < NBUF ==> (t[j].Holds(DEV, c) && t[j].dirty <==> s[j].Holds(DEV, c) && s[j].dirty);
    }
  }

  /** The header after logging block b: absorbed if already there. */
  function Absorb(bl: seq<nat>, b: nat): (r: seq<nat>)
    ensures b in r && (forall x :: x in r <==> x in bl || x == b) && bl <= r
    ensures Distinct(bl) ==> Distinct(r)
  {
    if b in bl then bl else bl + [b]
  }

  /** The images after the first m writes of a commit. */
  ghost function CommitImages(lay: Layout, d: Disk, bl: seq<nat>, data: seq<Block>, m: nat): (r: seq<Disk>)
    requires lay.Valid() && |d| == lay.blocks && Loggable(lay, bl) && |data| == |bl| && m <= 2 * |bl| + 2
  {
    seq(m, i requires 0 <= i < m => CommitState(lay, d, bl, data, i + 1))
  }

  ghost function InstallImages(lay: Layout, g: Disk, bl: seq<nat>, m: nat): (r: seq<Disk>)
    requires lay.Valid() && |g| == lay.blocks && Loggable(lay, bl) && m <= |bl|
  {
    seq(m, i requires 0 <= i < m => Installed(lay, g, bl, i + 1))
  }

  ghost function RecoverImages(lay: Layout, d: Disk, m: nat): (r: seq<Disk>)
    requires LogOk(lay, d) && m <= |Head(d[lay.start])| + 1
  {
    seq(m, i requires 0 <= i < m => RecoverState(lay, d, i + 1))
  }

  /** Buffer `to` of s takes the data D of buffer `from`, is written out, and both are let go. */
  ghost predicate Copied(s: seq<Buf>, d: Disk, t: seq<Buf>, e: Disk, from: nat, to: nat)
    requires |s| == NBUF && from < NBUF && to < NBUF && s[to].blockno < |d|
  {
    && |t| == NBUF && from != to
    && e == d[s[to].blockno := s[from].data]
    && (forall i :: 0 <= i < NBUF && i != from && i != to ==> t[i] == s[i])
    && s[from].refcnt > 0 && s[to].refcnt > 0
    && t[from] == s[from].(locked := false, refcnt := s[from].refcnt - 1)
    && t[to] == s[to].(data := s[from].data, dirty := false, valid := true, locked := false, refcnt := s[to].refcnt - 1)
  }

  lemma CopiedContent(s: seq<Buf>, d: Disk, t: seq<Buf>, e: Disk, from: nat, to: nat)
    requires |s| == NBUF && from < NBUF && to < NBUF && s[to].blockno < |d| && s[from].blockno < |d|
    requires Copied(s, d, t, e, from, to) && Unique(s) && CoherentWith(s, d)
    requires s[from].dev == s[to].dev == DEV && s[from].valid && s[to].valid
    requires !s[from].dirty ==> s[from].data == d[s[from].blockno]
    requires forall i :: 0 <= i < NBUF && s[i].locked ==> i == from || i == to
    ensures Unique(t) && CoherentWith(t, e)
    ensures forall i :: 0 <= i < NBUF ==> !t[i].locked
    ensures ContentOf(t, e, s[to].blockno) == s[from].data
    ensures forall c :: 0 <= c < |d| && c != s[to].blockno ==> ContentOf(t, e, c) == ContentOf(s, d, c)
    ensures !DirtyIn(t, s[to].blockno)
    ensures forall c :: c != s[to].blockno ==> DirtyIn(t, c) == DirtyIn(s, c)
  {
    ContentIs(t, e, to);
    forall c | 0 <= c < |d| && c != s[to].blockno ensures ContentOf(t, e, c) == ContentOf(s, d, c) {
      if i :| 0 <= i < NBUF && s[i].Holds(DEV, c) && s[i].valid {
        ContentIs(s, d, i);
        ContentIs(t, e, i);
      } else {
        assert forall i :: 0 <= i < NBUF ==> t[i].Holds(DEV, c) == s[i].Holds(DEV, c) && t[i].valid == s[i].valid;
      }
    }
    forall c | c != s[to].blockno ensures DirtyIn(t, c) == DirtyIn(s, c) {
      assert forall i :: 0 <= i < NBUF ==>
        (t[i].Holds(DEV, c) && t[i].dirty <==> s[i].Holds(DEV, c) && s[i].dirty);
    }
  }

  // ---- which buffers are free ----

  /** Two breads in a row: the second succeeds exactly when there were Enough buffers to begin with. */
  lemma EnoughExactly(s: seq<Buf>, t: seq<Buf>, i: nat, x: nat, y: nat)
    requires Took(s, t, i, x) && x != y && Unique(s)
    ensures Cached(t, y) || Spare(t) <==> Enough(s, x, y)
  {
    if Cached(t, y) {
      var k :| 0 <= k < NBUF && t[k].Holds(DEV, y);
      assert s[k].Holds(DEV, y);
    }
    if Spare(t) {
      var k :| 0 <= k < NBUF && t[k].Recyclable();
      assert s[k].Recyclable();
    }
    if Enough(s, x, y) {
      EnoughSuffices(s, t, i, x, y);
    }
  }

  lemma EnoughSuffices(s: seq<Buf>, t: seq<Buf>, i: nat, x: nat, y: nat)
    requires Took(s, t, i, x) && x != y && Unique(s) && Enough(s, x, y)
    ensures Cached(t, y) || Spare(t)
  {
    if Cached(s, x) && Cached(s, y) {
      var j :| 0 <= j < NBUF && s[j].Holds(DEV, x);
      var k :| 0 <= k < NBUF && s[k].Holds(DEV, y);
      assert i == j && t[k].Holds(DEV, y);
    } else if TwoSpare(s) {
      var j, k :| 0 <= j < k < NBUF && s[j].Recyclable() && s[k].Recyclable();
      assert t[if i == j then k else j].Recyclable();
    } else if Pinned(s, x) {
      var j :| 0 <= j < NBUF && s[j].Recyclable();
      var k :| 0 <= k < NBUF && s[k].Holds(DEV, x) && !s[k].Recyclable();
      assert i == k && t[j].Recyclable();
    } else {
      var k :| 0 <= k < NBUF && s[k].Holds(DEV, y) && !s[k].Recyclable();
      assert t[k].Holds(DEV, y);
    }
  }

  lemma EnoughSwaps(s: seq<Buf>, x: nat, y: nat)
    ensures Enough(s, x, y) == Enough(s, y, x)
  {}

  /** Buffers were borrowed and given back: only recyclable ones changed blocks, and only that of dst may be cleaner. */
  ghost predicate Lent(s: seq<Buf>, t: seq<Buf>, dst: nat) {
    && |s| == |t| == NBUF
    && (forall k :: 0 <= k < NBUF && s[k].Recyclable() ==> t[k].Recyclable())
    && forall k :: 0 <= k < NBUF && !s[k].Recyclable() ==>
         && t[k].Holds(s[k].dev, s[k].blockno) && t[k].refcnt == s[k].refcnt
         && (t[k].dirty == s[k].dirty || s[k].Holds(DEV, dst))
  }

  lemma CopyLent(s0: seq<Buf>, s1: seq<Buf>, s2: seq<Buf>, d: Disk, t: seq<Buf>, e: Disk, i: nat, x: nat, j: nat,
                 y: nat, from: nat, to: nat)
    requires Took(s0, s1, i, x) && Took(s1, s2, j, y) && i != j && ((from == i && to == j) || (from == j && to == i))
    requires s2[to].blockno < |d| && Copied(s2, d, t, e, from, to)
    ensures Lent(s0, t, s2[to].blockno)
  {}

  lemma HeadClean(s0: seq<Buf>, s1: seq<Buf>, i: nat, b: nat)
    requires Took(s0, s1, i, b) && !DirtyIn(s0, b)
    ensures !s1[i].dirty && s1[i].Holds(DEV, b)
  {}

  lemma HeadLent(s0: seq<Buf>, s1: seq<Buf>, t: seq<Buf>, i: nat, b: nat)
    requires Took(s0, s1, i, b) && |t| == NBUF && forall k :: 0 <= k < NBUF && k != i ==> t[k] == s1[k]
    requires t[i].Holds(DEV, b) && t[i].refcnt == s1[i].refcnt - 1 && !t[i].dirty
    ensures Lent(s0, t, b)
  {}

  /** What lending keeps: spare buffers, pinned blocks, and, where none was spare, which blocks are cached. */
  lemma LentKeeps(s: seq<Buf>, t: seq<Buf>, dst: nat)
    requires Lent(s, t, dst)
    ensures Spare(s) ==> Spare(t)
    ensures TwoSpare(s) ==> TwoSpare(t)
    ensures forall c :: Pinned(s, c) && c != dst ==> Pinned(t, c)
    ensures !Spare(s) ==> forall c :: Cached(s, c) <==> Cached(t, c)
    ensures !Spare(s) && !DirtyIn(s, dst) ==> !Spare(t)
  {
    forall c | Pinned(s, c) && c != dst
      ensures Pinned(t, c)
    {
      var k :| 0 <= k < NBUF && s[k].Holds(DEV, c) && !s[k].Recyclable();
      assert t[k].Holds(DEV, c) && !t[k].Recyclable();
    }
    if !Spare(s) {
      forall c
        ensures Cached(s, c) <==> Cached(t, c)
      {
        assert forall k :: 0 <= k < NBUF ==> t[k].Holds(DEV, c) == s[k].Holds(DEV, c);
      }
    }
  }

  /** Spare buffers as before, and where there is none the same blocks cached. */
  ghost predicate Kept(s: seq<Buf>, t: seq<Buf>) {
    (Spare(s) <==> Spare(t)) && (!Spare(s) ==> forall c :: Cached(s, c) <==> Cached(t, c))
  }

  lemma KeptStep(s0: seq<Buf>, s: seq<Buf>, t: seq<Buf>, dst: nat)
    requires Kept(s0, s) && Lent(s, t, dst) && !DirtyIn(s, dst)
    ensures Kept(s0, t)
  {
    hide Cached, Spare, Lent, DirtyIn;
    LentKeeps(s, t, dst);
  }

  lemma EnoughCases(s: seq<Buf>, x: nat, y: nat)
    ensures Pinned(s, x) && Cached(s, x) ==> (Enough(s, x, y) <==> Spare(s) || Cached(s, y))
    ensures Enough(s, x, y) && !Spare(s) ==> Cached(s, y)
    ensures TwoSpare(s) ==> Enough(s, x, y) && Spare(s)
  {}

  /** The first m log blocks are cached, if no buffer is spare. */
  ghost predicate SlotsCached(lay: Layout, s: seq<Buf>, m: nat) {
    Spare(s) || forall b :: lay.start < b <= lay.start + m ==> Cached(s, b)
  }

  lemma DirtyPinned(s: seq<Buf>, b: nat)
    requires DirtyIn(s, b)
    ensures Pinned(s, b) && Cached(s, b)
  {
    var k :| 0 <= k < |s| && s[k].Holds(DEV, b) && s[k].dirty;
    assert s[k].Holds(DEV, b) && !s[k].Recyclable();
  }

  /** The header and the first n log blocks are cached. */
  ghost predicate LogCached(lay: Layout, s: seq<Buf>, n: nat)
  {
    forall b :: lay.start <= b <= lay.start + n ==> Cached(s, b)
  }

  /** A commit of n blocks, all pinned, finds its buffers exactly then. */
  ghost predicate CommitFits(lay: Layout, s: seq<Buf>, n: nat) { n == 0 || Spare(s) || LogCached(lay, s, n) }

  /** Log blocks, then the header. */
  lemma FitsParts(lay: Layout, s: seq<Buf>, t: seq<Buf>, n: nat)
    ensures n > 0 && !SlotsCached(lay, s, n) ==> !CommitFits(lay, s, n)
    ensures Kept(s, t) && n > 0 && SlotsCached(lay, s, n) ==>
      (CommitFits(lay, s, n) <==> Cached(t, lay.start) || Spare(t))
          && (CommitFits(lay, s, n) <==> CommitFits(lay, t, n))
  {}

  lemma FitsHead(lay: Layout, s: seq<Buf>, n: nat)
    ensures n > 0 && CommitFits(lay, s, n) ==> Cached(s, lay.start) || Spare(s)
  {}

  lemma FitsSlot(lay: Layout, s: seq<Buf>, n: nat, k: nat)
    requires k < n
    ensures CommitFits(lay, s, n) ==> Spare(s) || Cached(s, lay.start + k + 1)
  {}

  lemma InstallFits(lay: Layout, s: seq<Buf>, n: nat, k: nat, b: nat)
    requires k < n
    ensures DirtyIn(s, b) && CommitFits(lay, s, n) ==> Enough(s, lay.start + k + 1, b)
    ensures TwoSpare(s) ==> Enough(s, lay.start + k + 1, b)
  {
    hide DirtyIn, CommitFits, Enough, TwoSpare, Spare, Cached, Pinned;
    EnoughCases(s, b, lay.start + k + 1);
    EnoughSwaps(s, b, lay.start + k + 1);
    if DirtyIn(s, b) { DirtyPinned(s, b); }
    FitsSlot(lay, s, n, k);
  }

  lemma FitsStep(lay: Layout, s: seq<Buf>, t: seq<Buf>, dst: nat, n: nat)
    requires Lent(s, t, dst)
    ensures CommitFits(lay, s, n) ==> CommitFits(lay, t, n)
    ensures TwoSpare(s) ==> TwoSpare(t)
  {
    hide Cached, Spare, Lent, TwoSpare, DirtyIn;
    LentKeeps(s, t, dst);
  }

  // ---- which buffers installing takes ----

  /** The buffer of block b is dirty and unused: writing it out makes it recyclable. */
  ghost predicate Frees(s: seq<Buf>, b: nat) {
    exists i :: 0 <= i < |s| && s[i].Holds(DEV, b) && s[i].dirty && s[i].refcnt == 0
  }

  ghost predicate FreesBefore(s: seq<Buf>, bl: seq<nat>,
                              k: nat) { exists j :: 0 <= j < k && j < |bl| && Frees(s, bl[j]) }

  /** Buffers for the log's copy of block k and its home block: they are there, or installing frees one before. */
  ghost predicate RoomAt(lay: Layout, s: seq<Buf>, bl: seq<nat>, k: nat) {
    k < |bl| && (Enough(s, lay.start + k + 1, bl[k]) || FreesBefore(s, bl, k))
  }

  /** Installing the blocks bl finds its buffers exactly then. */
  ghost predicate InstallRoom(lay: Layout, s: seq<Buf>,
                              bl: seq<nat>) { forall k :: 0 <= k < |bl| ==> RoomAt(lay, s, bl, k) }

  /** The same pairs of blocks find buffers. */
  ghost predicate SameRoom(s: seq<Buf>, t: seq<Buf>) {
    Kept(s, t) && forall x, y :: x != y ==> (Enough(s, x, y) <==> Enough(t, x, y))
  }

  /** With one recyclable buffer, two cached blocks are not both in it. */
  lemma EnoughByPins(s: seq<Buf>, x: nat, y: nat)
    requires x != y
    ensures Enough(s, x, y) <==>
      TwoSpare(s) || (Spare(s) && (Pinned(s, x) || Pinned(s, y))) || (!Spare(s) && Cached(s, x) && Cached(s, y))
  {
    if Cached(s, x) && Cached(s, y) && Spare(s) && !TwoSpare(s) {
      var i :| 0 <= i < |s| && s[i].Holds(DEV, x);
      var j :| 0 <= j < |s| && s[j].Holds(DEV, y);
      assert i != j && !(s[i].Recyclable() && s[j].Recyclable());
    }
  }

  /** Lending for a clean block leaves the same buffers recyclable and the same blocks in the others. */
  lemma LentSame(s: seq<Buf>, t: seq<Buf>, dst: nat)
    requires Lent(s, t, dst) && !DirtyIn(s, dst)
    ensures TwoSpare(s) == TwoSpare(t) && Spare(s) == Spare(t) && forall c :: Pinned(s, c) == Pinned(t, c)
  {
    assert forall k :: 0 <= k < NBUF ==> s[k].Recyclable() == t[k].Recyclable();
    forall c
      ensures Pinned(s, c) == Pinned(t, c)
    {
      assert forall k :: 0 <= k < NBUF && !s[k].Recyclable() ==> s[k].Holds(DEV, c) == t[k].Holds(DEV, c);
    }
  }

  lemma LentAlike(s: seq<Buf>, t: seq<Buf>, dst: nat)
    requires Lent(s, t, dst) && !DirtyIn(s, dst)
    ensures SameRoom(s, t)
  {
    hide Lent, DirtyIn, Spare, TwoSpare, Cached, Pinned, Enough;
    LentSame(s, t, dst);
    LentKeeps(s, t, dst);
    forall x, y | x != y
      ensures Enough(s, x, y) <==> Enough(t, x, y)
    {
      EnoughByPins(s, x, y);
      EnoughByPins(t, x, y);
    }
  }

  /** After k of the blocks bl, all dirty before, were installed. */
  ghost predicate Loosened(s0: seq<Buf>, s: seq<Buf>, bl: seq<nat>, k: nat) {
    && (Spare(s) <==> Spare(s0) || FreesBefore(s0, bl, k))
    && (!Spare(s) ==> forall c :: Cached(s, c) <==> Cached(s0, c))
    && k <= |bl| && forall c :: c !in bl[..k] ==> (Frees(s, c) <==> Frees(s0, c))
  }

  lemma InstallingFrees(s: seq<Buf>, t: seq<Buf>, dst: nat)
    requires Lent(s, t, dst) && !DirtyIn(t, dst)
    ensures Spare(t) <==> Spare(s) || Frees(s, dst)
    ensures forall c :: c != dst ==> (Frees(s, c) <==> Frees(t, c))
  {
    if Frees(s, dst) {
      var i :| 0 <= i < |s| && s[i].Holds(DEV, dst) && s[i].dirty && s[i].refcnt == 0;
      assert t[i].Holds(DEV, dst);
      assert t[i].Recyclable();
    }
    if Spare(t) && !Spare(s) {
      var i :| 0 <= i < |t| && t[i].Recyclable();
      assert !s[i].Recyclable();
    }
    forall c | c != dst
      ensures Frees(s, c) <==> Frees(t, c)
    {
      assert forall i :: 0 <= i < NBUF ==>
        (s[i].Holds(DEV, c) && s[i].dirty && s[i].refcnt == 0 <==>
          t[i].Holds(DEV, c) && t[i].dirty && t[i].refcnt == 0);
    }
  }

  lemma LoosenedStep(s0: seq<Buf>, s: seq<Buf>, t: seq<Buf>, bl: seq<nat>, k: nat)
    requires k < |bl| && Distinct(bl) && Loosened(s0, s, bl, k) && Lent(s, t, bl[k]) && !DirtyIn(t, bl[k])
    ensures Loosened(s0, t, bl, k + 1)
  {
    hide Lent, DirtyIn, Spare, Cached, Frees;
    InstallingFrees(s, t, bl[k]);
    LentKeeps(s, t, bl[k]);
    assert bl[k] !in bl[..k];
    assert bl[..k + 1] == bl[..k] + [bl[k]];
    assert FreesBefore(s0, bl, k + 1) <==> FreesBefore(s0, bl, k) || Frees(s0, bl[k]);
  }

  lemma LoosenedStart(s: seq<Buf>, bl: seq<nat>)
    ensures Loosened(s, s, bl, 0) && SameRoom(s, s)
  {
    hide Enough, Frees;
  }

  lemma SameRoomTrans(s0: seq<Buf>, s: seq<Buf>, t: seq<Buf>)
    requires SameRoom(s0, s) && SameRoom(s, t)
    ensures SameRoom(s0, t)
  {
    hide Enough, Cached, Spare;
  }

  /** Whether block k can be installed, told before the first one is. */
  lemma RoomNow(lay: Layout, s0: seq<Buf>, s: seq<Buf>, bl: seq<nat>, k: nat)
    requires k < |bl| && lay.start + k + 1 != bl[k]
    ensures SameRoom(s0, s) && CleanIn(s0) ==>
      (Enough(s, lay.start + k + 1, bl[k]) <==> RoomAt(lay, s0, bl, k))
    ensures Loosened(s0, s, bl, k) && DirtyIn(s0, bl[k]) && DirtyIn(s, bl[k]) ==>
      (Enough(s, lay.start + k + 1, bl[k]) <==> RoomAt(lay, s0, bl, k))
  {
    hide Enough, Spare, Cached, Pinned, DirtyIn, Frees;
    var x := lay.start + k + 1;
    if CleanIn(s0) { CleanFrees(s0, bl, k); }
    if DirtyIn(s0, bl[k]) && DirtyIn(s, bl[k]) {
      DirtyPinned(s0, bl[k]);
      DirtyPinned(s, bl[k]);
      EnoughCases(s0, bl[k], x);
      EnoughCases(s, bl[k], x);
      EnoughSwaps(s0, bl[k], x);
      EnoughSwaps(s, bl[k], x);
    }
  }

  /** Recovery, with nothing dirty, finds its buffers exactly then: for the header, and for each block. */
  ghost predicate RecoverRoom(lay: Layout, s: seq<Buf>, bl: seq<nat>) {
    (Cached(s, lay.start) || Spare(s)) && InstallRoom(lay, s, bl)
  }

  lemma RoomKept(lay: Layout, s: seq<Buf>, t: seq<Buf>, bl: seq<nat>)
    requires SameRoom(s, t) && CleanIn(s) && CleanIn(t)
    requires forall k :: 0 <= k < |bl| ==> lay.start + k + 1 != bl[k]
    ensures RecoverRoom(lay, s, bl) <==> RecoverRoom(lay, t, bl)
    ensures Cached(s, lay.start) || Spare(s) <==> Cached(t, lay.start) || Spare(t)
  {
    hide Enough, Spare, Cached, DirtyIn, Frees;
    forall k | 0 <= k < |bl|
      ensures RoomAt(lay, s, bl, k) <==> RoomAt(lay, t, bl, k)
    {
      CleanFrees(s, bl, k);
      CleanFrees(t, bl, k);
    }
  }

  lemma CleanRoom(lay: Layout, s: seq<Buf>, t: seq<Buf>, d: Disk)
    requires LogOk(lay, d) && SameRoom(s, t) && CleanIn(s) && CleanIn(t)
    ensures RecoverRoom(lay, s, Head(d[lay.start])) <==> RecoverRoom(lay, t, Head(d[lay.start]))
    ensures Cached(s, lay.start) || Spare(s) <==> Cached(t, lay.start) || Spare(t)
  {
    hide SameRoom, DirtyIn, Head, Cached, Spare, RecoverRoom, Distinct, CleanIn;
    var bl := Head(d[lay.start]);
    assert Loggable(lay, bl);
    forall k | 0 <= k < |bl| ensures lay.start + k + 1 != bl[k] { assert !lay.InLog(bl[k]); }
    RoomKept(lay, s, t, bl);
  }

  ghost predicate CleanIn(s: seq<Buf>) { forall b: nat :: !DirtyIn(s, b) }

  ghost predicate AllDirtyIn(s: seq<Buf>, bl: seq<nat>) { forall k :: 0 <= k < |bl| ==> DirtyIn(s, bl[k]) }

  /** k blocks have been installed from buffers s0, which were all clean or held all of bl dirty. */
  ghost predicate Stage(lay: Layout, s0: seq<Buf>, s: seq<Buf>, bl: seq<nat>, k: nat) {
    && Loosened(s0, s, bl, k) && (CleanIn(s0) ==> SameRoom(s0, s))
    && (CleanIn(s0) || AllDirtyIn(s0, bl) ==> forall j :: 0 <= j < k ==> RoomAt(lay, s0, bl, j))
  }

  ghost predicate DirtyLeft(s0: seq<Buf>, s: seq<Buf>, bl: seq<nat>, k: nat)
    requires k <= |bl|
  {
    forall b: nat :: DirtyIn(s, b) <==> DirtyIn(s0, b) && b !in bl[..k]
  }

  lemma LeftAt(s0: seq<Buf>, s: seq<Buf>, bl: seq<nat>, k: nat, b: nat)
    requires k < |bl| && DirtyLeft(s0, s, bl, k) && Distinct(bl)
    ensures !DirtyIn(s0, b) ==> !DirtyIn(s, b)
    ensures AllDirtyIn(s0, bl) ==> DirtyIn(s, bl[k])
  {
    hide DirtyIn;
    assert bl[k] !in bl[..k];
  }

  lemma LeftStep(s0: seq<Buf>, s: seq<Buf>, t: seq<Buf>, bl: seq<nat>, k: nat)
    requires k < |bl| && DirtyLeft(s0, s, bl, k)
    requires forall c: nat :: DirtyIn(t, c) <==> DirtyIn(s, c) && c != bl[k]
    ensures DirtyLeft(s0, t, bl, k + 1)
  {
    hide DirtyIn;
    assert bl[..k + 1] == bl[..k] + [bl[k]];
  }

  lemma LeftMeans(s0: seq<Buf>, s: seq<Buf>, bl: seq<nat>)
    requires DirtyLeft(s0, s, bl, |bl|)
    ensures forall b: nat :: DirtyIn(s, b) <==> DirtyIn(s0, b) && b !in bl
  {
    hide DirtyIn;
    assert bl[..|bl|] == bl;
  }

  lemma StageStart(lay: Layout, s: seq<Buf>, bl: seq<nat>)
    ensures Stage(lay, s, s, bl, 0) && DirtyLeft(s, s, bl, 0)
  {
    hide Loosened, SameRoom, DirtyIn;
    LoosenedStart(s, bl);
  }

  /** Whether the next block finds its buffers. */
  lemma StageTells(lay: Layout, s0: seq<Buf>, s: seq<Buf>, bl: seq<nat>, k: nat)
    requires k < |bl| && lay.start + k + 1 != bl[k] && Stage(lay, s0, s, bl, k) && DirtyLeft(s0, s, bl, k)
    requires Distinct(bl)
    ensures CleanIn(s0) || AllDirtyIn(s0, bl) ==> (Enough(s, lay.start + k + 1, bl[k]) <==> RoomAt(lay, s0, bl, k))
    ensures (CleanIn(s0) || AllDirtyIn(s0, bl)) && !Enough(s, lay.start + k + 1, bl[k]) ==> !InstallRoom(lay, s0, bl)
  {
    hide SameRoom, Enough, RoomAt, DirtyIn, Loosened;
    assert bl[k] !in bl[..k];
    RoomNow(lay, s0, s, bl, k);
  }

  lemma StageStep(lay: Layout, s0: seq<Buf>, s: seq<Buf>, t: seq<Buf>, bl: seq<nat>, k: nat)
    requires k < |bl| && lay.start + k + 1 != bl[k] && Stage(lay, s0, s, bl, k) && DirtyLeft(s0, s, bl, k)
    requires Distinct(bl)
    requires Lent(s, t, bl[k]) && !DirtyIn(t, bl[k]) && Enough(s, lay.start + k + 1, bl[k])
    ensures Stage(lay, s0, t, bl, k + 1)
  {
    hide SameRoom, Enough, RoomAt, DirtyIn, Loosened, Lent;
    StageTells(lay, s0, s, bl, k);
    LoosenedStep(s0, s, t, bl, k);
    if CleanIn(s0) {
      LentAlike(s, t, bl[k]);
      SameRoomTrans(s0, s, t);
    }
  }

  lemma StageEnd(lay: Layout, s0: seq<Buf>, s: seq<Buf>, bl: seq<nat>)
    requires Stage(lay, s0, s, bl, |bl|)
    ensures CleanIn(s0) || AllDirtyIn(s0, bl) ==> InstallRoom(lay, s0, bl)
    ensures CleanIn(s0) ==> SameRoom(s0, s)
  {
    hide SameRoom, RoomAt, Loosened;
  }

  /** Two recyclable buffers are enough for any recovery. */
  lemma TwoRecover(lay: Layout, s: seq<Buf>, bl: seq<nat>)
    requires TwoSpare(s)
    ensures RecoverRoom(lay, s, bl)
  {}

  lemma CleanFrees(s: seq<Buf>, bl: seq<nat>, k: nat)
    requires CleanIn(s)
    ensures !FreesBefore(s, bl, k)
  {
    forall b: nat
      ensures !Frees(s, b)
    {
      assert !DirtyIn(s, b);
    }
  }

  /** With as many pinned blocks as buffers nothing is left for the log: NBUF = LOGSIZE blocks cannot be committed. */
  lemma FullLogStuck(lay: Layout, s: seq<Buf>, bl: seq<nat>)
    requires lay.Valid() && |s| == NBUF && Unique(s) && |bl| == NBUF && Distinct(bl)
    requires forall k :: 0 <= k < NBUF ==> DirtyIn(s, bl[k]) && !lay.InLog(bl[k])
    ensures !CommitFits(lay, s, NBUF)
  {
    var f := Holders(s, bl);
    HoldersAll(s, bl, f);
    assert !Spare(s);
    assert !Cached(s, lay.start);
  }

  /** The buffer of each block. */
  ghost function Holders(s: seq<Buf>, bl: seq<nat>): (f: seq<nat>)
    requires |s| == NBUF && forall k :: 0 <= k < |bl| ==> DirtyIn(s, bl[k])
    ensures |f| == |bl| && forall k :: 0 <= k < |bl| ==> f[k] < NBUF && s[f[k]].Holds(DEV, bl[k]) && s[f[k]].dirty
  {
    if bl == [] then []
    else
      assert DirtyIn(s, bl[|bl| - 1]);
      var i :| 0 <= i < NBUF && s[i].Holds(DEV, bl[|bl| - 1]) && s[i].dirty;
      Holders(s, bl[..|bl| - 1]) + [i]
  }

  /** NBUF distinct buffers are all of them. */
  lemma HoldersAll(s: seq<Buf>, bl: seq<nat>, f: seq<nat>)
    requires |s| == NBUF == |f| == |bl| && Distinct(bl)
    requires forall k :: 0 <= k < NBUF ==> f[k] < NBUF && s[f[k]].Holds(DEV, bl[k]) && s[f[k]].dirty
    ensures forall i :: 0 <= i < NBUF ==> s[i].dirty && s[i].dev == DEV && s[i].blockno in bl
  {
    assert Distinct(f);
    AllIndexes(f, NBUF);
    forall i | 0 <= i < NBUF
      ensures s[i].dirty && s[i].dev == DEV && s[i].blockno in bl
    {
      assert i in f;
      var k :| 0 <= k < |f| && f[k] == i;
    }
  }

  lemma AllIndexes(f: seq<nat>, n: nat)
    requires Distinct(f) && |f| == n && forall k :: 0 <= k < n ==> f[k] < n
    ensures forall i :: 0 <= i < n ==> i in f
  {
    DistinctCard(f);
    forall i | 0 <= i < n
      ensures i in f
    {
      if i !in f {
        SubsetCard(Elems(f), Range(0, n) - {i});
      }
    }
  }

  ghost function ContentsOf(s: seq<Buf>, d: Disk, bl: seq<nat>): (r: seq<Block>)
    requires forall k :: 0 <= k < |bl| ==> bl[k] < |d|
  {
    seq(|bl|, k requires 0 <= k < |bl| => ContentOf(s, d, bl[k]))
  }

  /** Installing the contents of all dirty blocks makes every home block durable as it was seen. */
  lemma HomeAsBefore(lay: Layout, s: seq<Buf>, d: Disk, bl: seq<nat>, e: Disk)
    requires |s| == NBUF && Unique(s) && CoherentWith(s, d) && forall i :: 0 <= i < NBUF ==> !s[i].locked
    requires lay.Valid() && |d| == lay.blocks && Loggable(lay, bl)
    requires forall b :: DirtyIn(s, b) ==> b in bl
    requires SameHome(lay, e, Apply(d, bl, ContentsOf(s, d, bl)))
    ensures forall b :: 0 <= b < |d| && !lay.InLog(b) ==> e[b] == ContentOf(s, d, b)
  {
    ApplyAt(d, bl, ContentsOf(s, d, bl));
    forall b | 0 <= b < |d| && !lay.InLog(b) ensures e[b] == ContentOf(s, d, b) {
      if b !in bl { CleanContent(s, d, b); }
    }
  }

  lemma HeadFits(lay: Layout, d: Disk)
    requires LogOk(lay, d)
    ensures Word(d[lay.start], 0) <= LOGSIZE
  {
    assert |Head(d[lay.start])| == Word(d[lay.start], 0);
  }

  class LogFile {
    const cache: Cache
    const lay: Layout
    const block: array<nat>
    var n: nat
    var outstanding: int

    ghost predicate Ready()
      reads this, block, cache, cache.bufs, cache.next, cache.prev
    {
      && cache.Valid() && cache.Coherent()
      && lay.Valid() && |cache.disk| == lay.blocks
      && block.Length == LOGSIZE && n <= LOGSIZE
      && block != cache.next && block != cache.prev
      && forall i :: 0 <= i < NBUF ==> !cache.bufs[i].locked
    }

    ghost predicate Dirty(b: nat)
      reads cache, cache.bufs
    {
      DirtyIn(cache.bufs[..], b)
    }

    /** Every logged block is still in the cache, dirty: log_write pins it. */
    ghost predicate AllDirty()
      reads this, block, cache, cache.bufs
    {
      n <= block.Length && forall k :: 0 <= k < n ==> Dirty(block[k])
    }

    /** initlog before recovery. */
    constructor (cache: Cache, lay: Layout)
      requires cache.Valid() && cache.Coherent() && lay.Valid() && |cache.disk| == lay.blocks
      requires forall i :: 0 <= i < NBUF ==> !cache.bufs[i].locked
      ensures this.cache == cache && this.lay == lay && fresh(block)
      ensures Ready() && n == 0 && outstanding == 0
    {
      this.cache := cache;
      this.lay := lay;
      block := new nat[LOGSIZE](_ => 0);
      n, outstanding := 0, 0;
    }

    /** Copy one block through the cache: bread both, memmove, bwrite, brelse both. */
    method Copy(src: nat, dst: nat, dstFirst: bool) returns (ok: bool)
      requires Ready() && src != dst && src < lay.blocks && dst < lay.blocks
      modifies cache, cache.bufs, cache.next, cache.prev
      ensures ok ==> Ready()
      ensures ok ==>
        cache.disk == old(cache.disk)[dst := old(cache.Content(src))] && cache.trace == old(cache.trace) + [cache.disk]
      ensures ok ==> cache.Content(dst) == old(cache.Content(src))
      ensures ok ==> forall c :: 0 <= c < lay.blocks && c != dst ==> cache.Content(c) == old(cache.Content(c))
      ensures ok ==> !Dirty(dst) && forall c :: c != dst ==> Dirty(c) == old(Dirty(c))
      ensures !ok ==> cache.disk == old(cache.disk) && cache.trace == old(cache.trace)
      ensures ok <==> old(Enough(cache.bufs[..], src, dst))
      ensures ok ==> Lent(old(cache.bufs[..]), cache.bufs[..], dst)
    {
      hide Ring, ByRelease, Unique, Enough, Took, Lent, DirtyIn, ContentOf;
      var i, j;
      ghost var s1;
      EnoughSwaps(cache.bufs[..], src, dst);
      if dstFirst { ok, j, i, s1 := BreadBoth(dst, src); } else { ok, i, j, s1 := BreadBoth(src, dst); }
      if !ok { return; }
      ghost var s, d := cache.bufs[..], cache.disk;
      CopyLocked(i, j);
      CopiedContent(s, d, cache.bufs[..], cache.disk, i, j);
      if dstFirst {
        CopyLent(old(cache.bufs[..]), s1, s, d, cache.bufs[..], cache.disk, j, dst, i, src, i, j);
      } else {
        CopyLent(old(cache.bufs[..]), s1, s, d, cache.bufs[..], cache.disk, i, src, j, dst, i, j);
      }
    }

    method BreadBoth(x: nat, y: nat) returns (ok: bool, i: nat, j: nat, ghost mid: seq<Buf>)
      requires Ready() && x != y && x < lay.blocks && y < lay.blocks
      modifies cache.bufs
      ensures ok ==> i < NBUF && j < NBUF && i != j && cache.Valid() && cache.Coherent()
      ensures ok ==> Got(i, x) && Got(j, y) && forall k :: 0 <= k < NBUF && cache.bufs[k].locked ==> k == i || k == j
      ensures ok ==> cache.bufs[i].data == old(cache.Content(x))
      ensures ok ==> cache.bufs[j].data == old(cache.Content(y))
      ensures ok ==> forall c :: 0 <= c < lay.blocks ==> cache.Content(c) == old(cache.Content(c))
      ensures ok ==> forall c :: Dirty(c) == old(Dirty(c))
      ensures ok <==> old(Enough(cache.bufs[..], x, y))
      ensures ok ==> Took(old(cache.bufs[..]), mid, i, x) && Took(mid, cache.bufs[..], j, y)
    {
      hide Ring, ByRelease, Unique;
      i, j := 0, 0;
      ghost var s0 := cache.bufs[..];
      var a := cache.Bread(x);
      mid := cache.bufs[..];
      if a.None? { return false, 0, 0, mid; }
      EnoughExactly(s0, mid, a.value, x, y);
      DirtyKept(s0, mid, a.value);
      var b := cache.Bread(y);
      if b.None? { return false, 0, 0, mid; }
      DirtyKept(mid, cache.bufs[..], b.value);
      ok, i, j := true, a.value, b.value;
    }

    /** Buffer i is locked and holds block x, and if clean agrees with the disk. */
    ghost predicate Got(i: nat, x: nat)
      reads cache, cache.bufs
    {
      && i < cache.bufs.Length && x < |cache.disk|
      && cache.bufs[i].Holds(DEV, x) && cache.bufs[i].locked && cache.bufs[i].valid
      && (!cache.bufs[i].dirty ==> cache.bufs[i].data == cache.disk[x])
    }

    method CopyLocked(from: nat, to: nat)
      requires cache.Valid() && from < NBUF && to < NBUF && from != to
      requires cache.bufs[from].locked && cache.bufs[to].locked && cache.bufs[to].dev == DEV
      requires cache.bufs[to].blockno < |cache.disk|
      modifies cache, cache.bufs, cache.next, cache.prev
      ensures cache.Valid() && cache.trace == old(cache.trace) + [cache.disk]
      ensures Copied(old(cache.bufs[..]), old(cache.disk), cache.bufs[..], cache.disk, from, to)
    {
      cache.Memmove(to, cache.bufs[from].data);
      cache.Bwrite(to);
      cache.Brelse(from);
      cache.Brelse(to);
    }

    // ---- commit ----

    /** Where a commit of (bl, data) over image d stands after m writes. */
    ghost predicate At(d: Disk, bl: seq<nat>, data: seq<Block>, base: seq<Disk>, m: nat)
      requires lay.Valid() && |d| == lay.blocks && Loggable(lay, bl) && |data| == |bl| && m <= 2 * |bl| + 2
      reads cache
    {
      && cache.disk == CommitState(lay, d, bl, data, m)
      && cache.trace == base + CommitImages(lay, d, bl, data, m)
    }

    lemma Advance(d: Disk, bl: seq<nat>, data: seq<Block>, base: seq<Disk>, m: nat)
      requires lay.Valid() && |d| == lay.blocks && Loggable(lay, bl) && |data| == |bl| && m < 2 * |bl| + 2
      ensures base + CommitImages(lay, d, bl, data, m) + [CommitState(lay, d, bl, data, m + 1)]
           == base + CommitImages(lay, d, bl, data, m + 1)
    {
    }

    /** write_log: the logged blocks' cached contents go to the log area. */
    method WriteLog(ghost d: Disk, ghost data: seq<Block>, ghost base: seq<Disk>) returns (ok: bool, ghost m: nat)
      requires Ready() && Loggable(lay, block[..n]) && |d| == lay.blocks && |data| == n
      requires At(d, block[..n], data, base, 0)
      requires forall k :: 0 <= k < n ==> cache.Content(block[k]) == data[k]
      requires forall b :: lay.InLog(b) ==> !Dirty(b)
      modifies cache, cache.bufs, cache.next, cache.prev
      ensures m <= n && At(d, block[..n], data, base, m)
      ensures ok ==> m == n && Ready()
      ensures ok ==> forall b :: 0 <= b < lay.blocks && !lay.InLog(b) ==> cache.Content(b) == old(cache.Content(b))
      ensures ok ==> forall b :: Dirty(b) == old(Dirty(b))
      ensures old(AllDirty()) ==> (ok <==> SlotsCached(lay, old(cache.bufs[..]), n))
      ensures ok ==> Kept(old(cache.bufs[..]), cache.bufs[..]) && SlotsCached(lay, old(cache.bufs[..]), n)
    {
      hide CoherentWith, ContentOf, DirtyIn, Ring, ByRelease, Unique, WithHead, Word, Enough, Lent, Cached, Spare,
        Pinned, TwoSpare;
      ghost var bl, s0 := block[..n], cache.bufs[..];
      var tail := 0;
      m := 0;
      while tail < n
        invariant tail <= n && m == tail
        invariant Ready() && At(d, bl, data, base, tail)
        invariant forall b :: 0 <= b < lay.blocks && !lay.InLog(b) ==> cache.Content(b) == old(cache.Content(b))
        invariant forall b :: Dirty(b) == old(Dirty(b))
        invariant Kept(s0, cache.bufs[..]) && SlotsCached(lay, s0, tail)
      {
        assert bl[tail] == block[tail];
        ghost var s1, dst := cache.bufs[..], lay.start + tail + 1;
        assert lay.InLog(dst) && !Dirty(dst);
        EnoughCases(s1, block[tail], dst);
        if Dirty(block[tail]) { DirtyPinned(s1, block[tail]); }
        ok := Copy(block[tail], lay.start + tail + 1, true);
        if !ok { return; }
        KeptStep(s0, s1, cache.bufs[..], dst);
        Advance(d, bl, data, base, tail);
        tail := tail + 1;
        m := tail;
      }
      ok := true;
    }

    /** write_head: one block write of n and the n block numbers. */
    method WriteHead() returns (ok: bool)
      requires Ready() && !Dirty(lay.start) && forall k :: 0 <= k < n ==> block[k] < UINT
      modifies cache, cache.bufs, cache.next, cache.prev
      ensures ok ==> Ready()
      ensures ok ==> cache.disk == old(cache.disk)[lay.start := WithHead(old(cache.disk)[lay.start], block[..n])]
      ensures ok ==> cache.trace == old(cache.trace) + [cache.disk]
      ensures ok ==> forall c :: 0 <= c < lay.blocks && c != lay.start ==> cache.Content(c) == old(cache.Content(c))
      ensures ok ==> forall c :: Dirty(c) == old(Dirty(c))
      ensures !ok ==> cache.disk == old(cache.disk) && cache.trace == old(cache.trace)
      ensures ok <==> old(Cached(cache.bufs[..], lay.start)) || old(Spare(cache.bufs[..]))
      ensures ok ==> Lent(old(cache.bufs[..]), cache.bufs[..], lay.start)
    {
      hide Ring, ByRelease, Unique, Cached, Spare, Took, Lent;
      var a := cache.Bread(lay.start);
      if a.None? { return false; }
      ghost var s1 := cache.bufs[..];
      DirtyKept(old(cache.bufs[..]), cache.bufs[..], a.value);
      assert !cache.bufs[a.value].dirty by { assert !Dirty(lay.start); }
      var h := cache.bufs[a.value].data;
      ghost var h0 := h;
      h := SetWord(h, 0, n);
      var i := 0;
      while i < n
        invariant i <= n
        invariant forall k :: 0 <= k < n ==> block[k] < UINT
        invariant h == SetWords(SetWord(h0, 0, n), 1, block[..i])
      {
        assert block[..i + 1][..i] == block[..i];
        h := SetWord(h, 1 + i, block[i]);
        i := i + 1;
      }
      WriteOut(a.value, h);
      HeadLent(old(cache.bufs[..]), s1, cache.bufs[..], a.value, lay.start);
      ok := true;
    }

    method WriteOut(i: nat, h: Block)
      requires lay.Valid() && cache.Valid() && cache.Coherent() && |cache.disk| == lay.blocks && Got(i, lay.start)
      requires !cache.bufs[i].dirty && forall k :: 0 <= k < NBUF && cache.bufs[k].locked ==> k == i
      modifies cache, cache.bufs, cache.next, cache.prev
      ensures cache.Valid() && cache.Coherent() && forall i :: 0 <= i < NBUF ==> !cache.bufs[i].locked
      ensures cache.disk == old(cache.disk)[lay.start := h] && cache.trace == old(cache.trace) + [cache.disk]
      ensures forall c :: 0 <= c < lay.blocks && c != lay.start ==> cache.Content(c) == old(cache.Content(c))
      ensures forall c :: Dirty(c) == old(Dirty(c))
      ensures forall k :: 0 <= k < NBUF && k != i ==> cache.bufs[k] == old(cache.bufs[k])
      ensures cache.bufs[i].Holds(DEV, lay.start) && cache.bufs[i].refcnt == old(cache.bufs[i].refcnt) - 1
      ensures !cache.bufs[i].dirty
    {
      hide Ring, ByRelease, Word;
      ghost var s, d := cache.bufs[..], cache.disk;
      cache.Memmove(i, h);
      cache.Bwrite(i);
      cache.Brelse(i);
      ghost var t, e := cache.bufs[..], cache.disk;
      DirtyKept(s, t, i);
      forall c | 0 <= c < lay.blocks && c != lay.start ensures ContentOf(t, e, c) == ContentOf(s, d, c) {
        if k :| 0 <= k < NBUF && s[k].Holds(DEV, c) && s[k].valid {
          ContentIs(s, d, k);
          ContentIs(t, e, k);
        } else {
          assert forall k :: 0 <= k < NBUF ==> t[k].Holds(DEV, c) == s[k].Holds(DEV, c) && t[k].valid == s[k].valid;
        }
      }
    }

    /** install_trans: the log blocks go home, one at a time. */
    method InstallTrans(ghost g: Disk, ghost base: seq<Disk>) returns (ok: bool, ghost m: nat)
      requires Ready() && Loggable(lay, block[..n]) && cache.disk == g && cache.trace == base
      requires forall b :: lay.InLog(b) ==> !Dirty(b)
      modifies cache, cache.bufs, cache.next, cache.prev
      ensures m <= n && cache.disk == Installed(lay, g, block[..n], m)
      ensures cache.trace == base + InstallImages(lay, g, block[..n], m)
      ensures ok ==> m == n && Ready()
      ensures ok ==> forall b :: 0 <= b < lay.blocks && b !in block[..n] ==> cache.Content(b) == old(cache.Content(b))
      ensures ok ==> forall b :: Dirty(b) <==> old(Dirty(b)) && b !in block[..n]
      ensures old(AllDirty()) && CommitFits(lay, old(cache.bufs[..]), n) ==> ok
      ensures old(TwoSpare(cache.bufs[..])) ==> ok && TwoSpare(cache.bufs[..])
      ensures ok && n > 0 && CommitFits(lay, old(cache.bufs[..]), n) ==> CommitFits(lay, cache.bufs[..], n)
      ensures CleanIn(old(cache.bufs[..])) || AllDirtyIn(old(cache.bufs[..]), block[..n]) ==>
        (ok <==> InstallRoom(lay, old(cache.bufs[..]), block[..n]))
      ensures ok && CleanIn(old(cache.bufs[..])) ==> SameRoom(old(cache.bufs[..]), cache.bufs[..])
    {
      hide CoherentWith, ContentOf, DirtyIn, Ring, ByRelease, Unique, Enough, Lent, Cached, Spare, Pinned, TwoSpare,
        CommitFits, InstallRoom, SameRoom, Stage, CleanIn, AllDirtyIn, DirtyLeft, Distinct;
      ghost var bl, s0 := block[..n], cache.bufs[..];
      var tail := 0;
      m := 0;
      assert base + InstallImages(lay, g, bl, 0) == base;
      StageStart(lay, s0, bl);
      if AllDirty() { DirtyAll(); }
      while tail < n
        invariant tail <= n && m == tail && Ready()
        invariant cache.disk == Installed(lay, g, bl, tail) && cache.trace == base + InstallImages(lay, g, bl, tail)
        invariant forall b :: 0 <= b < lay.blocks && b !in bl[..tail] ==> cache.Content(b) == old(cache.Content(b))
        invariant TwoSpare(s0) ==> TwoSpare(cache.bufs[..])
        invariant CommitFits(lay, s0, n) ==> CommitFits(lay, cache.bufs[..], n)
        invariant Stage(lay, s0, cache.bufs[..], bl, tail) && DirtyLeft(s0, cache.bufs[..], bl, tail)
      {
        assert bl[tail] == block[tail];
        ok := InstallOne(tail, s0, bl);
        if !ok { return; }
        assert bl[..tail + 1] == bl[..tail] + [bl[tail]];
        assert base + InstallImages(lay, g, bl, tail) + [Installed(lay, g, bl, tail + 1)]
            == base + InstallImages(lay, g, bl, tail + 1);
        tail := tail + 1;
        m := tail;
      }
      assert bl[..n] == bl;
      StageEnd(lay, s0, cache.bufs[..], bl);
      LeftMeans(s0, cache.bufs[..], bl);
      ok := true;
    }

    /** One round of install_trans. */
    method InstallOne(k: nat, ghost s0: seq<Buf>, ghost bl: seq<nat>) returns (ok: bool)
      requires Ready() && bl == block[..n] && Loggable(lay, bl) && k < n && forall b :: lay.InLog(b) ==> !DirtyIn(s0, b)
      requires Stage(lay, s0, cache.bufs[..], bl, k) && DirtyLeft(s0, cache.bufs[..], bl, k)
      modifies cache, cache.bufs, cache.next, cache.prev
      ensures ok ==> Ready() && cache.disk == old(cache.disk)[bl[k] := old(cache.disk)[lay.start + k + 1]]
      ensures ok ==> cache.trace == old(cache.trace) + [cache.disk]
      ensures ok ==> forall c :: 0 <= c < lay.blocks && c != bl[k] ==> cache.Content(c) == old(cache.Content(c))
      ensures !ok ==> cache.disk == old(cache.disk) && cache.trace == old(cache.trace)
      ensures ok ==> Stage(lay, s0, cache.bufs[..], bl, k + 1) && DirtyLeft(s0, cache.bufs[..], bl, k + 1)
      ensures ok && CommitFits(lay, old(cache.bufs[..]), n) ==> CommitFits(lay, cache.bufs[..], n)
      ensures old(TwoSpare(cache.bufs[..])) ==> ok && TwoSpare(cache.bufs[..])
      ensures AllDirtyIn(s0, bl) && CommitFits(lay, old(cache.bufs[..]), n) ==> ok
      ensures !ok && (CleanIn(s0) || AllDirtyIn(s0, bl)) ==> !InstallRoom(lay, s0, bl)
    {
      hide CoherentWith, ContentOf, DirtyIn, Ring, ByRelease, Unique, Enough, Lent, Cached, Spare, Pinned, TwoSpare,
        CommitFits, InstallRoom, SameRoom, Stage, CleanIn, AllDirtyIn, DirtyLeft, Distinct;
      ghost var s1 := cache.bufs[..];
      assert lay.InLog(lay.start + k + 1) && !lay.InLog(bl[k]) && bl[k] == block[k];
      LeftAt(s0, s1, bl, k, lay.start + k + 1);
      CleanContent(s1, cache.disk, lay.start + k + 1);
      InstallFits(lay, s1, n, k, block[k]);
      StageTells(lay, s0, s1, bl, k);
      ok := Copy(lay.start + k + 1, block[k], false);
      if !ok { return; }
      FitsStep(lay, s1, cache.bufs[..], block[k], n);
      StageStep(lay, s0, s1, cache.bufs[..], bl, k);
      forall c: nat ensures DirtyIn(cache.bufs[..], c) <==> DirtyIn(s1, c) && c != bl[k] {
        assert c != bl[k] ==> Dirty(c) == old(Dirty(c));
      }
      LeftStep(s0, s1, cache.bufs[..], bl, k);
    }

    /** The part of a commit up to and including its commit point. */
    method WriteAhead(ghost d: Disk, ghost data: seq<Block>, ghost base: seq<Disk>) returns (ok: bool, ghost m: nat)
      requires Ready() && Loggable(lay, block[..n]) && |d| == lay.blocks && |data| == n
      requires At(d, block[..n], data, base, 0)
      requires forall k :: 0 <= k < n ==> cache.Content(block[k]) == data[k]
      requires forall b :: lay.InLog(b) ==> !Dirty(b)
      modifies cache, cache.bufs, cache.next, cache.prev
      ensures m <= n + 1 && At(d, block[..n], data, base, m)
      ensures ok ==> m == n + 1 && Ready()
      ensures ok ==> forall b :: Dirty(b) == old(Dirty(b))
      ensures old(AllDirty()) && n > 0 ==> (ok <==> CommitFits(lay, old(cache.bufs[..]), n))
      ensures ok && n > 0 ==> CommitFits(lay, old(cache.bufs[..]), n) && CommitFits(lay, cache.bufs[..], n)
    {
      hide CoherentWith, ContentOf, DirtyIn, Ring, ByRelease, Unique, WithHead, Word, Lent, Cached, Spare, Kept,
        SlotsCached, CommitFits;
      ghost var s0 := cache.bufs[..];
      ok, m := WriteLog(d, data, base);
      FitsParts(lay, s0, cache.bufs[..], n);
      if !ok { return; }
      ghost var s1 := cache.bufs[..];
      assert lay.InLog(lay.start) && !Dirty(lay.start);
      ok := WriteHead();
      if !ok { return; }
      FitsStep(lay, s1, cache.bufs[..], lay.start, n);
      Advance(d, block[..n], data, base, m);
      m := n + 1;
    }

    /** The part of a commit after its commit point. */
    method InstallAndClear(ghost d: Disk, ghost bl: seq<nat>, ghost data: seq<Block>,
                           ghost base: seq<Disk>) returns (ok: bool, ghost m: nat)
      requires Ready() && bl == block[..n] && Loggable(lay, bl) && |d| == lay.blocks && |data| == n
      requires At(d, bl, data, base, n + 1)
      requires forall b :: lay.InLog(b) ==> !Dirty(b)
      modifies this`n, cache, cache.bufs, cache.next, cache.prev
      ensures m <= 2 * |bl| + 2 && At(d, bl, data, base, m)
      ensures ok ==> m == 2 * |bl| + 2 && Ready() && n == 0
      ensures ok ==> forall b :: Dirty(b) ==> old(Dirty(b)) && b !in bl
      ensures old(AllDirty()) && |bl| > 0 && CommitFits(lay, old(cache.bufs[..]), |bl|) ==> ok
    {
      hide CoherentWith, ContentOf, DirtyIn, Ring, ByRelease, Unique, WithHead, Word, Lent, Cached, Spare, CommitFits,
        TwoSpare;
      ghost var k;
      ok, k := InstallTrans(cache.disk, cache.trace);
      m := n + 1 + k;
      ImagesJoin(d, bl, data, base, k);
      if !ok { return; }
      FitsHead(lay, cache.bufs[..], n);
      n := 0;
      assert lay.InLog(lay.start);
      ok := WriteHead();
      if !ok { return; }
      assert block[..0] == [];
      Advance(d, bl, data, base, m);
      m := m + 1;
    }

    lemma ImagesJoin(d: Disk, bl: seq<nat>, data: seq<Block>, base: seq<Disk>, k: nat)
      requires lay.Valid() && |d| == lay.blocks && Loggable(lay, bl) && |data| == |bl| && k <= |bl|
      ensures base + CommitImages(lay, d, bl, data, |bl| + 1) + InstallImages(lay, Logged(lay, d, bl, data), bl, k)
           == base + CommitImages(lay, d, bl, data, |bl| + 1 + k)
    {
    }

    lemma DirtyAll()
      requires AllDirty()
      ensures AllDirtyIn(cache.bufs[..], block[..n])
    {
      hide DirtyIn;
      forall k | 0 <= k < n ensures DirtyIn(cache.bufs[..], block[..n][k]) { assert Dirty(block[k]); }
    }

    lemma NothingDirty()
      requires forall b :: !Dirty(b)
      ensures CleanIn(cache.bufs[..])
    {
      forall b: nat ensures !DirtyIn(cache.bufs[..], b) { assert !Dirty(b); }
    }

    lemma AllClean()
      requires Ready() && forall b :: !Dirty(b)
      ensures forall b :: 0 <= b < lay.blocks ==> cache.Content(b) == cache.disk[b]
    {
      forall b | 0 <= b < lay.blocks ensures cache.Content(b) == cache.disk[b] {
        assert !Dirty(b);
        CleanContent(cache.bufs[..], cache.disk, b);
      }
    }

    /** The contents a commit would write for the logged blocks. */
    ghost function Pending(): (data: seq<Block>)
      requires Ready() && Loggable(lay, block[..n])
      reads this, block, cache, cache.bufs, cache.next, cache.prev
    {
      ContentsOf(cache.bufs[..], cache.disk, block[..n])
    }

    /** commit: ok is false when a bread inside it panics; either way the disk has gone through
        exactly the first m images of the commit of the logged blocks' current contents. */
    method Commit() returns (ok: bool, ghost m: nat)
      requires Ready() && Loggable(lay, block[..n]) && LogEmpty(lay, cache.disk)
      requires forall b :: Dirty(b) ==> b in block[..n]
      modifies this`n, cache, cache.bufs, cache.next, cache.prev
      ensures m <= 2 * old(n) + 2
      ensures cache.disk == CommitState(lay, old(cache.disk), old(block[..n]), old(Pending()), m)
      ensures cache.trace == old(cache.trace) + CommitImages(lay, old(cache.disk), old(block[..n]), old(Pending()), m)
      ensures ok ==> Ready() && n == 0 && (old(n) > 0 ==> m == 2 * old(n) + 2)
      ensures ok ==> forall b :: !Dirty(b)
      ensures ok ==> LogEmpty(lay, cache.disk)
      ensures ok ==>
        forall b :: 0 <= b < lay.blocks && !lay.InLog(b) ==> cache.Content(b) == cache.disk[b] == old(cache.Content(b))
      ensures old(AllDirty()) ==> (ok <==> CommitFits(lay, old(cache.bufs[..]), old(n)))
    {
      hide CoherentWith, ContentOf, DirtyIn, Ring, ByRelease, Unique, WithHead, Word, LogEmpty, Distinct, Cached, Spare,
        Lent, LogCached;
      m := 0;
      ghost var d, bl, data, base := cache.disk, block[..n], Pending(), cache.trace;
      ghost var s := cache.bufs[..];
      assert base + CommitImages(lay, d, bl, data, 0) == base;
      if n > 0 {
        ok, m := WriteAhead(d, data, base);
        if !ok { return; }
        ok, m := InstallAndClear(d, bl, data, base);
        if !ok { return; }
        CommitFinal(lay, d, bl, data);
        HomeAsBefore(lay, s, d, bl, cache.disk);
      }
      AllClean();
      ok := true;
    }

    // ---- recovery ----

    /** read_head: the on-disk header becomes the in-memory one. */
    method ReadHead() returns (ok: bool)
      requires Ready() && LogOk(lay, cache.disk) && forall b :: !Dirty(b)
      modifies this`n, block, cache.bufs, cache.next, cache.prev, cache`order, cache`stamp, cache`clock
      ensures ok ==> Ready() && block[..n] == Head(cache.disk[lay.start]) && forall b :: !Dirty(b)
      ensures ok <==> old(Cached(cache.bufs[..], lay.start)) || old(Spare(cache.bufs[..]))
      ensures ok ==> Lent(old(cache.bufs[..]), cache.bufs[..], lay.start)
    {
      hide Head, Word, Loggable, DirtyIn, Ring, ByRelease, Unique, Cached, Spare, Took, Lent;
      ghost var s0 := cache.bufs[..];
      forall b: nat ensures !DirtyIn(s0, b) { assert !Dirty(b); }
      CleanContent(s0, cache.disk, lay.start);
      var a := cache.Bread(lay.start);
      if a.None? { return false; }
      ghost var s1 := cache.bufs[..];
      DirtyKept(s0, s1, a.value);
      var h := cache.bufs[a.value].data;
      assert h == cache.disk[lay.start];
      HeadFits(lay, cache.disk);
      LoadHead(h);
      cache.Brelse(a.value);
      DirtyKept(s1, cache.bufs[..], a.value);
      HeadClean(s0, s1, a.value, lay.start);
      HeadLent(s0, s1, cache.bufs[..], a.value, lay.start);
      forall b: nat ensures !Dirty(b) { assert !DirtyIn(s0, b) && !DirtyIn(s1, b); }
      ok := true;
    }

    method LoadHead(h: Block)
      requires block.Length == LOGSIZE && Word(h, 0) <= LOGSIZE
      modifies this`n, block
      ensures n <= LOGSIZE && block[..n] == Head(h)
    {
      n := Word(h, 0);
      var i := 0;
      while i < n
        invariant i <= n
        invariant forall k :: 0 <= k < i ==> block[k] == Word(h, 1 + k)
        modifies block
      {
        block[i] := Word(h, 1 + i);
        i := i + 1;
      }
    }

    /** recover_from_log: m images of the recovery, all of them when ok. */
    method RecoverFromLog() returns (ok: bool, ghost m: nat)
      requires Ready() && LogOk(lay, cache.disk) && forall b :: !Dirty(b)
      modifies this`n, block, cache, cache.bufs, cache.next, cache.prev
      ensures m <= |Head(old(cache.disk)[lay.start])| + 1
      ensures cache.disk == RecoverState(lay, old(cache.disk), m)
      ensures cache.trace == old(cache.trace) + RecoverImages(lay, old(cache.disk), m)
      ensures ok ==> Ready() && n == 0 && cache.disk == Recover(lay, old(cache.disk))
      ensures ok ==> forall b :: !Dirty(b)
      ensures ok <==> RecoverRoom(lay, old(cache.bufs[..]), Head(old(cache.disk)[lay.start]))
      ensures old(TwoSpare(cache.bufs[..])) ==> ok
    {
      hide Word, WithHead, CoherentWith, ContentOf, DirtyIn, Ring, ByRelease, Unique, Cached, Spare, Lent, TwoSpare,
        CommitFits, Enough, Pinned, LogCached, Distinct, InstallRoom, SameRoom;
      ghost var s0 := cache.bufs[..];
      NothingDirty();
      if TwoSpare(s0) { TwoRecover(lay, s0, Head(cache.disk[lay.start])); }
      ghost var d, base := cache.disk, cache.trace;
      m := 0;
      assert base + RecoverImages(lay, d, 0) == base;
      ok := ReadHead();
      if !ok { return; }
      NothingDirty();
      LentAlike(s0, cache.bufs[..], lay.start);
      CleanRoom(lay, s0, cache.bufs[..], d);
      assert forall b :: lay.InLog(b) ==> !Dirty(b);
      ok, m := InstallRecovered(d, base);
    }

    /** The part of recovery after read_head. */
    method InstallRecovered(ghost d: Disk, ghost base: seq<Disk>) returns (ok: bool, ghost m: nat)
      requires Ready() && LogOk(lay, d) && cache.disk == d && cache.trace == base && block[..n] == Head(d[lay.start])
      requires forall b :: !Dirty(b)
      modifies this`n, cache, cache.bufs, cache.next, cache.prev
      ensures m <= |Head(d[lay.start])| + 1
      ensures cache.disk == RecoverState(lay, d, m) && cache.trace == base + RecoverImages(lay, d, m)
      ensures ok ==> Ready() && n == 0 && cache.disk == Recover(lay, d)
      ensures ok ==> forall b :: !Dirty(b)
      ensures ok <==> RecoverRoom(lay, old(cache.bufs[..]), Head(d[lay.start]))
    {
      hide Word, WithHead, CoherentWith, ContentOf, DirtyIn, Ring, ByRelease, Unique, Cached, Spare, Lent, TwoSpare,
        CommitFits, Enough, Pinned, LogCached, Distinct, InstallRoom, SameRoom;
      ghost var s0 := cache.bufs[..];
      NothingDirty();
      ok, m := InstallTrans(d, base);
      assert InstallImages(lay, d, block[..n], m) == RecoverImages(lay, d, m);
      if !ok { return; }
      n := 0;
      NothingDirty();
      CleanRoom(lay, s0, cache.bufs[..], d);
      assert !Dirty(lay.start);
      ok := WriteHead();
      if !ok { return; }
      assert block[..0] == [];
      assert base + RecoverImages(lay, d, m) + [cache.disk] == base + RecoverImages(lay, d, m + 1);
      m := m + 1;
    }

    // ---- system calls ----

    /** log_write on locked buffer i; not ok is a panic. */
    method LogWrite(i: nat) returns (ok: bool)
      requires cache.Valid() && i < NBUF && cache.bufs[i].locked
      requires block.Length == LOGSIZE && n <= LOGSIZE && Distinct(block[..n])
      requires block != cache.next && block != cache.prev
      modifies this`n, block, cache.bufs
      ensures ok <==> old(n) < LOGSIZE && old(n) < lay.size - 1 && outstanding >= 1
      ensures ok ==> cache.Valid() && n <= LOGSIZE && block[..n] == Absorb(old(block[..n]), old(cache.bufs[i]).blockno)
      ensures ok ==> cache.bufs[..] == old(cache.bufs[..])[i := old(cache.bufs[i]).(dirty := true)]
    {
      if n >= LOGSIZE || n >= lay.size - 1 { return false; }
      if outstanding < 1 { return false; }
      var b := cache.bufs[i].blockno;
      var k := 0;
      while k < n && block[k] != b
        invariant k <= n && forall j :: 0 <= j < k ==> block[j] != b
      {
        k := k + 1;
      }
      ghost var bl := block[..n];
      assert k < n ==> bl[k] == b;
      block[k] := b;
      if k == n {
        n := n + 1;
      }
      assert block[..n] == Absorb(bl, b);
      cache.bufs[i] := cache.bufs[i].(dirty := true);
      ok := true;
    }
  }
}
