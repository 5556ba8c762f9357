/** The buffer cache of bio.c over the memory disk of memide.c: a fixed array of buffers
    threaded on one doubly linked ring, most recently released first. */
module BufferCache {
  import opened Common
  import opened Blocks
  import opened Wal

  const NBUF: nat := 30
  const HEAD: nat := NBUF  // slot of bcache.head in the link arrays

  const DEV: nat := 1  // the one disk (memide.c:47), log.dev

  datatype Buf = Buf(valid: bool, dirty: bool, dev: nat, blockno: nat, locked: bool, refcnt: nat, data: Block) {
    predicate Holds(d: nat, b: nat) { dev == d && blockno == b }
    predicate Recyclable() { refcnt == 0 && !dirty }
  }

  /** order lists every buffer exactly once. */
  ghost predicate AllOnce(order: seq<nat>) {
    && |order| == NBUF
    && (forall k :: 0 <= k < NBUF ==> order[k] < NBUF)
    && Distinct(order)
    && forall i :: 0 <= i < NBUF ==> i in order
  }

  function Cycle(order: seq<nat>): (c: seq<nat>) { [HEAD] + order + [HEAD] }

  /** Following next from the head visits order; prev is its inverse. */
  ghost predicate Ring(next: seq<nat>, prev: seq<nat>, order: seq<nat>) {
    && |next| == |prev| == NBUF + 1
    && AllOnce(order)
    && forall k :: 0 <= k <= NBUF ==>
         next[Cycle(order)[k]] == Cycle(order)[k + 1] && prev[Cycle(order)[k + 1]] == Cycle(order)[k]
  }

  /** For a real device a block is in at most one buffer (all buffers start as device 0, block 0). */
  ghost predicate Unique(b: seq<Buf>)
    requires |b| == NBUF
  {
    forall i, j :: 0 <= i < NBUF && 0 <= j < NBUF && i != j && b[i].dev == b[j].dev && b[i].dev != 0
      ==> b[i].blockno != b[j].blockno
  }

  /** Ring order is the order of last release. */
  ghost predicate ByRelease(order: seq<nat>, stamp: seq<nat>) {
    && AllOnce(order)
    && |stamp| == NBUF
    && forall j, k :: 0 <= j < k < NBUF ==> stamp[order[j]] > stamp[order[k]]
  }

  /** What a bread of block b delivers: the valid buffer holding it, else the disk. */
  ghost function ContentOf(s: seq<Buf>, d: Disk, b: nat): (v: Block)
    requires b < |d|
  {
    if exists i :: 0 <= i < |s| && s[i].Holds(DEV, b) && s[i].valid
    then var i :| 0 <= i < |s| && s[i].Holds(DEV, b) && s[i].valid; s[i].data
    else d[b]
  }

  /** Some buffer is assigned to block b; bget can recycle some buffer, or two; b's buffer cannot be recycled. */
  ghost predicate Cached(s: seq<Buf>, b: nat) { exists i :: 0 <= i < |s| && s[i].Holds(DEV, b) }
  ghost predicate Spare(s: seq<Buf>) { exists i :: 0 <= i < |s| && s[i].Recyclable() }
  ghost predicate TwoSpare(s: seq<Buf>) { exists i, j :: 0 <= i < j < |s| && s[i].Recyclable() && s[j].Recyclable() }
  ghost predicate Pinned(s: seq<Buf>, b: nat) { exists i :: 0 <= i < |s| && s[i].Holds(DEV, b) && !s[i].Recyclable() }

  lemma NoBuffer(s: seq<Buf>, b: nat)
    ensures !Cached(s, b) && !Spare(s) <==> forall i :: 0 <= i < |s| ==> !s[i].Holds(DEV, b) && !s[i].Recyclable()
    ensures !Cached(s, b) <==> forall i :: 0 <= i < |s| ==> !s[i].Holds(DEV, b)
  {}

  /** Exactly when bread finds buffers for two blocks at once. */
  ghost predicate Enough(s: seq<Buf>, x: nat, y: nat) {
    (Cached(s, x) && Cached(s, y)) || (Spare(s) && (Pinned(s, x) || Pinned(s, y))) || TwoSpare(s)
  }

  /** Buffer i was found or recycled for block b, and has one reference more. */
  ghost predicate Took(s: seq<Buf>, t: seq<Buf>, i: nat, b: nat) {
    && |s| == |t| == NBUF && i < NBUF && t[i].Holds(DEV, b)
    && (forall j :: 0 <= j < NBUF && j != i ==> t[j] == s[j])
    && if s[i].Holds(DEV, b) then t[i].refcnt == s[i].refcnt + 1 && t[i].dirty == s[i].dirty
       else !Cached(s, b) && s[i].Recyclable() && t[i].refcnt == 1 && !t[i].dirty
  }

  /** Clean buffers that nobody is using agree with the disk. */
  ghost predicate CoherentWith(s: seq<Buf>, d: Disk) {
    forall i :: 0 <= i < |s| && s[i].dev == DEV && s[i].valid ==>
      s[i].blockno < |d| && (!s[i].dirty && !s[i].locked ==> s[i].data == d[s[i].blockno])
  }

  lemma ContentIs(s: seq<Buf>, d: Disk, i: nat)
    requires |s| == NBUF && Unique(s) && i < NBUF && s[i].dev == DEV && s[i].valid && s[i].blockno < |d|
    ensures ContentOf(s, d, s[i].blockno) == s[i].data
  {}

  /** Recycling a clean unlocked buffer, or handing out a reference, changes no block's content. */
  lemma ContentKept(s: seq<Buf>, t: seq<Buf>, d: Disk, i: nat)
    requires |s| == |t| == NBUF && Unique(s) && Unique(t) && CoherentWith(s, d) && i < NBUF
    requires forall j :: 0 <= j < NBUF && j != i ==> t[j] == s[j]
    requires t[i].dev == DEV && t[i].valid && t[i].blockno < |d|
    requires t[i].data == ContentOf(s, d, t[i].blockno)
    requires s[i].Holds(DEV, t[i].blockno) || (!s[i].dirty && !s[i].locked)
    ensures forall c :: 0 <= c < |d| ==> ContentOf(t, d, c) == ContentOf(s, d, c)
  {
    forall c | 0 <= c < |d| ensures ContentOf(t, d, c) == ContentOf(s, d, c) {
      if c == t[i].blockno {
        ContentIs(t, d, i);
      } else if j :| 0 <= j < NBUF && s[j].Holds(DEV, c) && s[j].valid {
        ContentIs(s, d, j);
        if j != i { ContentIs(t, d, j); }
      }
    }
  }

  lemma PlaceOf(order: seq<nat>, i: nat) returns (k: nat)
    requires AllOnce(order) && i < NBUF
    ensures k < NBUF && order[k] == i
  {
    assert i in order;
    k :| 0 <= k < |order| && order[k] == i;
  }

  // ---- relinking a buffer at the front of the ring (bio.c:132-137) ----

  ghost function MoveToFront(order: seq<nat>, p: nat): (r: seq<nat>)
    requires p < |order|
  {
    [order[p]] + order[..p] + order[p + 1..]
  }

  lemma MoveToFrontAllOnce(order: seq<nat>, p: nat)
    requires AllOnce(order) && p < NBUF
    ensures AllOnce(MoveToFront(order, p))
  {
    var r := MoveToFront(order, p);
    forall i | 0 <= i < NBUF ensures i in r {
      var k := PlaceOf(order, i);
      assert r[if k == p then 0 else if k < p then k + 1 else k] == i;
    }
  }

  /** The links after taking b, at place p, out of the ring (next', prev') and putting it back in front. */
  lemma Relinked(next: seq<nat>, prev: seq<nat>, order: seq<nat>, p: nat, first: nat, next': seq<nat>, prev': seq<nat>)
    requires Ring(next, prev, order) && p < NBUF
    requires next[order[p]] <= NBUF && prev[order[p]] <= NBUF
    requires first == next[prev[order[p]] := next[order[p]]][HEAD] <= NBUF
    requires next' == next[prev[order[p]] := next[order[p]]][order[p] := first][HEAD := order[p]]
    requires prev' == prev[next[order[p]] := prev[order[p]]][order[p] := HEAD][first := order[p]]
    ensures Ring(next', prev', MoveToFront(order, p))
  {
    var b, c, c' := order[p], Cycle(order), Cycle(MoveToFront(order, p));
    MoveToFrontAllOnce(order, p);
    assert c[p + 1] == b;
    assert next[c[p + 1]] == c[p + 2] && prev[c[p + 1]] == c[p];
    assert next[c[0]] == c[1];
    assert first == if p == 0 then c[2] else c[1];
    forall k | 0 <= k <= NBUF ensures next'[c'[k]] == c'[k + 1] && prev'[c'[k + 1]] == c'[k] {
      if 2 <= k {
        var i := if k <= p + 1 then k - 1 else k;  // place of c'[k] in the old cycle
        assert c'[k] == c[i];
        assert next[c[i]] == c[i + 1] && prev[c[i + 1]] == c[i];
        if i == p {
          assert c'[k + 1] == c[p + 2];
        } else {
          assert c'[k + 1] == c[i + 1];
        }
      }
    }
  }

  lemma LinksInRange(next: seq<nat>, prev: seq<nat>, order: seq<nat>, b: nat) returns (p: nat)
    requires Ring(next, prev, order) && b < NBUF
    ensures p < NBUF && order[p] == b
    ensures next[b] <= NBUF && prev[b] <= NBUF && next[HEAD] <= NBUF
    ensures next[b] != b && prev[b] != b
  {
    p := PlaceOf(order, b);
    var c := Cycle(order);
    assert c[p + 1] == b;
    assert next[c[p + 1]] == c[p + 2] && prev[c[p + 1]] == c[p] && next[c[0]] == c[1];
  }

  lemma MovedByRelease(order: seq<nat>, stamp: seq<nat>, p: nat, clock: nat)
    requires ByRelease(order, stamp) && p < NBUF
    requires forall i :: 0 <= i < NBUF ==> stamp[i] < clock
    ensures ByRelease(MoveToFront(order, p), stamp[order[p] := clock])
  {
    MoveToFrontAllOnce(order, p);
  }

  ghost function InitialOrder(): (r: seq<nat>) { seq(NBUF, k requires 0 <= k < NBUF => NBUF - 1 - k) }

  lemma InitialAllOnce()
    ensures AllOnce(InitialOrder())
  {
    var r := InitialOrder();
    forall i | 0 <= i < NBUF ensures i in r { assert r[NBUF - 1 - i] == i; }
  }

  class Cache {
    const bufs: array<Buf>
    const next: array<nat>
    const prev: array<nat>
    var disk: Disk
    /** Buffers in ring order, head.next first. */
    ghost var order: seq<nat>
    /** When each buffer's refcnt last fell to zero, on a clock of releases. */
    ghost var stamp: seq<nat>
    ghost var clock: nat
    /** Every image of the disk after a block write, oldest first. */
    ghost var trace: seq<Disk>

    ghost predicate Valid()
      reads this, bufs, next, prev
    {
      && bufs.Length == NBUF && next != prev
      && Ring(next[..], prev[..], order)
      && Unique(bufs[..])
      && ByRelease(order, stamp)
      && (forall i :: 0 <= i < NBUF ==> stamp[i] < clock)
      && forall i :: 0 <= i < NBUF && bufs[i].locked ==> bufs[i].refcnt > 0
    }

    ghost predicate Coherent()
      reads this, bufs
    {
      CoherentWith(bufs[..], disk)
    }

    ghost function Content(b: nat): (v: Block)
      requires b < |disk|
      reads this, bufs
    {
      ContentOf(bufs[..], disk, b)
    }

    /** binit: each buffer in turn is linked in right after the head. */
    constructor (image: Disk)
      ensures Valid() && fresh(bufs) && fresh(next) && fresh(prev)
      ensures disk == image && trace == []
      ensures forall i ::
        0 <= i < NBUF ==> bufs[i].refcnt == 0 && !bufs[i].valid && !bufs[i].dirty && !bufs[i].locked && bufs[i].dev == 0
      ensures order == InitialOrder()
    {
      bufs := new Buf[NBUF](_ => Buf(false, false, 0, 0, false, 0, Zeroes()));
      next := new nat[NBUF + 1](_ => HEAD);
      prev := new nat[NBUF + 1](_ => HEAD);
      disk := image;
      trace := [];
      order := InitialOrder();
      stamp := seq(NBUF, k requires 0 <= k < NBUF => k);
      clock := NBUF;
      new;
      var b := 0;
      while b < NBUF
        invariant b <= NBUF
        invariant next[HEAD] == if b == 0 then HEAD else b - 1
        invariant prev[HEAD] == if b == 0 then HEAD else 0
        invariant forall i :: 0 <= i < b ==> next[i] == (if i == 0 then HEAD else i - 1)
        invariant forall i :: 0 <= i < b ==> prev[i] == (if i == b - 1 then HEAD else i + 1)
        modifies next, prev
      {
        next[b] := next[HEAD];
        prev[b] := HEAD;
        prev[next[HEAD]] := b;
        next[HEAD] := b;
        b := b + 1;
      }
      InitialAllOnce();
    }

    /** bget up to releasing bcache.lock: hit, or recycle the least recently released clean
        unreferenced buffer; None is the panic "bget: no buffers". */
    method Bget(dev: nat, blockno: nat) returns (r: Option<nat>)
      requires Valid()
      modifies bufs
      ensures Valid()
      ensures r.None? ==> bufs[..] == old(bufs[..])
      ensures r.None? <==> forall i :: 0 <= i < NBUF ==> !old(bufs[i]).Holds(dev, blockno) && !old(bufs[i]).Recyclable()
      ensures r.Some? ==> r.value < NBUF && bufs[r.value].Holds(dev, blockno)
      ensures r.Some? && old(bufs[r.value]).Holds(dev, blockno) ==>
                bufs[..] == old(bufs[..])[r.value := old(bufs[r.value]).(refcnt := old(bufs[r.value]).refcnt + 1)]
      ensures r.Some? && !old(bufs[r.value]).Holds(dev, blockno) ==>
                && (forall i :: 0 <= i < NBUF ==> !old(bufs[i]).Holds(dev, blockno))
                && old(bufs[r.value]).Recyclable()
                && (forall i :: 0 <= i < NBUF && i != r.value && old(bufs[i]).Recyclable() ==>
                    stamp[r.value] < stamp[i])
                && bufs[..] == old(bufs[..])[r.value := old(bufs[r.value]).(dev := dev, blockno := blockno,
                                                                              valid := false, dirty := false,
                                                                                  refcnt := 1)]
    {
      ghost var c := Cycle(order);
      ghost var k := 0;
      var b := next[HEAD];
      assert next[..][c[0]] == c[1];
      while b != HEAD
        invariant 0 <= k <= NBUF && b == c[k + 1]
        invariant forall j :: 0 <= j < k ==> !bufs[order[j]].Holds(dev, blockno)
        decreases NBUF - k
      {
        assert b == order[k];
        if bufs[b].Holds(dev, blockno) {
          bufs[b] := bufs[b].(refcnt := bufs[b].refcnt + 1);
          return Some(b);
        }
        assert next[..][c[k + 1]] == c[k + 2];
        b := next[b];
        k := k + 1;
      }
      assert k == NBUF;
      forall i | 0 <= i < NBUF ensures !bufs[i].Holds(dev, blockno) {
        var j := PlaceOf(order, i);
      }

      b := prev[HEAD];
      assert prev[..][c[NBUF + 1]] == c[NBUF];
      while b != HEAD
        invariant 0 <= k <= NBUF && b == c[k]
        invariant forall j :: k <= j < NBUF ==> !bufs[order[j]].Recyclable()
        decreases k
      {
        assert b == order[k - 1];
        if bufs[b].Recyclable() {
          forall i | 0 <= i < NBUF && i != b && bufs[i].Recyclable() ensures stamp[b] < stamp[i] {
            var j := PlaceOf(order, i);
          }
          bufs[b] := bufs[b].(dev := dev, blockno := blockno, valid := false, dirty := false, refcnt := 1);
          return Some(b);
        }
        assert prev[..][c[k]] == c[k - 1];
        b := prev[b];
        k := k - 1;
      }
      assert k == 0;
      forall i | 0 <= i < NBUF ensures !bufs[i].Recyclable() {
        var j := PlaceOf(order, i);
      }
      r := None;
    }

    /** bread, once the buffer's sleep lock is free: the returned buffer is locked and holds
        the block's current content. None is a panic (no buffers, or block out of range). */
    method Bread(b: nat) returns (r: Option<nat>)
      requires Valid() && Coherent()
      requires forall i :: 0 <= i < NBUF && bufs[i].Holds(DEV, b) ==> !bufs[i].locked
      modifies bufs
      ensures Valid()
      ensures r.Some? <==> b < |disk| && (old(Cached(bufs[..], b)) || old(Spare(bufs[..])))
      ensures r.Some? ==> b < |disk| && r.value < NBUF && Coherent()
      ensures r.Some? ==> Took(old(bufs[..]), bufs[..], r.value, b)
      ensures r.Some? ==>
        bufs[r.value].Holds(DEV, b) && bufs[r.value].valid && bufs[r.value].locked && bufs[r.value].refcnt > 0
      ensures r.Some? ==> bufs[r.value].data == old(Content(b))
      ensures r.Some? && !bufs[r.value].dirty ==> bufs[r.value].data == disk[b]
      ensures r.Some? ==> forall j :: 0 <= j < NBUF && j != r.value ==> bufs[j] == old(bufs[j])
      ensures r.Some? ==> bufs[r.value].dirty == (old(bufs[r.value]).Holds(DEV, b) && old(bufs[r.value].dirty))
      ensures r.Some? ==> !old(bufs[r.value].locked) && (old(bufs[r.value].dirty) ==> old(bufs[r.value]).Holds(DEV, b))
      ensures r.Some? ==> forall c :: 0 <= c < |disk| ==> Content(c) == old(Content(c))
    {
      hide Ring, ByRelease, Cached, Spare;
      ghost var s := bufs[..];
      NoBuffer(s, b);
      r := Bget(DEV, b);
      if r.None? { return; }
      var i := r.value;
      if !bufs[i].valid {
        if b >= |disk| { return None; }
        bufs[i] := bufs[i].(data := disk[b], valid := true);
      }
      bufs[i] := bufs[i].(locked := true);
      if s[i].Holds(DEV, b) && s[i].valid { ContentIs(s, disk, i); }
      assert b < |disk| ==> bufs[i].data == ContentOf(s, disk, b);
      ContentKept(s, bufs[..], disk, i);
    }

    /** memmove into a locked buffer. */
    method Memmove(i: nat, data: Block)
      requires Valid() && i < NBUF && bufs[i].locked
      modifies bufs
      ensures Valid() && bufs[..] == old(bufs[..])[i := old(bufs[i]).(data := data)]
    {
      bufs[i] := bufs[i].(data := data);
    }

    /** bwrite: the buffer's data becomes the block on disk, the buffer clean. */
    method Bwrite(i: nat)
      requires Valid() && i < NBUF && bufs[i].locked && bufs[i].dev == DEV && bufs[i].blockno < |disk|
      modifies bufs, this`disk, this`trace
      ensures Valid()
      ensures bufs[..] == old(bufs[..])[i := old(bufs[i]).(dirty := false, valid := true)]
      ensures disk == old(disk)[old(bufs[i]).blockno := old(bufs[i]).data] && trace == old(trace) + [disk]
    {
      bufs[i] := bufs[i].(dirty := true);
      // iderw with B_DIRTY set
      bufs[i] := bufs[i].(dirty := false);
      disk := disk[bufs[i].blockno := bufs[i].data];
      bufs[i] := bufs[i].(valid := true);
      trace := trace + [disk];
    }

    /** brelse: drop a reference; the last one moves the buffer to the front of the ring. */
    method Brelse(b: nat)
      requires Valid() && b < NBUF && bufs[b].locked && bufs[b].refcnt > 0
      modifies bufs, next, prev, this`order, this`stamp, this`clock
      ensures Valid()
      ensures bufs[..] == old(bufs[..])[b := old(bufs[b]).(locked := false, refcnt := old(bufs[b]).refcnt - 1)]
      ensures old(bufs[b]).refcnt > 1 ==> order == old(order) && stamp == old(stamp)
      ensures old(bufs[b]).refcnt == 1 ==> order[0] == b && stamp == old(stamp)[b := old(clock)] && clock > old(clock)
    {
      bufs[b] := bufs[b].(locked := false);
      bufs[b] := bufs[b].(refcnt := bufs[b].refcnt - 1);
      if bufs[b].refcnt == 0 {
        MoveFirst(b);
      }
    }

    /** The relinking in brelse. */
    method MoveFirst(b: nat)
      requires Valid() && b < NBUF
      modifies next, prev, this`order, this`stamp, this`clock
      ensures Valid()
      ensures order[0] == b && stamp == old(stamp)[b := old(clock)] && clock > old(clock)
    {
      ghost var p := LinksInRange(next[..], prev[..], order, b);
      ghost var nx, pv := next[..], prev[..];
      prev[next[b]] := prev[b];
      next[prev[b]] := next[b];
      ghost var first := next[HEAD];
      assert next[..] == nx[pv[b] := nx[b]] && prev[..] == pv[nx[b] := pv[b]];
      next[b] := next[HEAD];
      prev[b] := HEAD;
      prev[next[HEAD]] := b;
      next[HEAD] := b;
      Relinked(nx, pv, order, p, first, next[..], prev[..]);
      MovedByRelease(order, stamp, p, clock);
      order := MoveToFront(order, p);
      stamp := stamp[b := clock];
      clock := clock + 1;
    }
  }
}
