/** balloc, bfree, bmap, itrunc, iupdate, readi and writei of fs.c, over the block contents that
    bread delivers. logged collects the blocks log_write was called on. */
module Files {
  import opened Common
  import opened Blocks
  import opened FsLayout
  import opened FsEffects

  const T_DEV: short := 3
  const NDEV: nat := 10
  const MAXBYTES: nat := MAXFILE * BSIZE

  /** An in-memory inode (struct inode). */
  class Inode {
    const inum: nat
    var typ: short
    var major: short
    var minor: short
    var nlink: short
    var size: word
    const addrs: array<word>

    constructor (inum: nat, i: DInode)
      requires i.Valid()
      ensures this.inum == inum && fresh(addrs) && addrs.Length == NDIRECT + 1 && Image() == i
    {
      this.inum := inum;
      typ, major, minor, nlink, size := i.typ, i.major, i.minor, i.nlink, i.size;
      addrs := new word[NDIRECT + 1](k requires 0 <= k < NDIRECT + 1 => i.addrs[k]);
      new;
      assert addrs[..] == i.addrs;
    }

    /** The dinode iupdate would write. */
    function Image(): (i: DInode)
      reads this, addrs
    {
      DInode(typ, major, minor, nlink, size, addrs[..])
    }
  }

  /** Bit bi of the bitmap block for b is the bit of block b + bi. */
  lemma BitAt(sb: Super, d: Disk, b: nat, bi: nat)
    requires sb.Valid() && sb.size <= |d| && b + bi < sb.size && b % BPB == 0 && bi < BPB
    ensures sb.BBlock(b) < sb.size && sb.BBlock(b + bi) == sb.BBlock(b) && Pow2(8) == 256
    ensures Used(sb, d, b + bi) <==> Bit(d[sb.BBlock(b)][bi / 8], bi % 8)
    ensures MarkUsed(sb, d, b + bi) ==
        d[sb.BBlock(b) := d[sb.BBlock(b)][bi / 8 := SetBit(d[sb.BBlock(b)][bi / 8], bi % 8, 8)]]
  {
    hide Bit, SetBit;
    BitPlace(b, bi);
    BBlockInRange(sb, b);
    assert Pow2(8) == 256;
  }

  lemma FreeBit(sb: Super, d: Disk, b: nat)
    requires sb.Valid() && sb.size <= |d| && b < sb.size
    ensures sb.BBlock(b) < sb.size && b % BPB / 8 < BSIZE && b % BPB % 8 == b % 8
    ensures Used(sb, d, b) <==> Bit(d[sb.BBlock(b)][b % BPB / 8], b % BPB % 8)
    ensures MarkFree(sb, d, b) ==
        d[sb.BBlock(b) := d[sb.BBlock(b)][b % BPB / 8 := ClearBit(d[sb.BBlock(b)][b % BPB / 8], b % BPB % 8)]]
  {
    hide Bit, ClearBit;
    BitPlace(b / BPB * BPB, b % BPB);
    BBlockInRange(sb, b);
  }

  lemma BitPlace(b: nat, bi: nat)
    requires b % BPB == 0 && bi < BPB
    ensures (b + bi) / BPB == b / BPB && (b + bi) % BPB == bi && (b + bi) % 8 == bi % 8 && bi / 8 < BSIZE
  {
    var q := b / BPB;
    assert b == BPB * q;
  }

  lemma BBlockInRange(sb: Super, b: nat)
    requires b < sb.size
    ensures sb.bmapstart <= sb.BBlock(b) <= sb.bmapstart + (sb.size - 1) / BPB
  {}

  lemma OkBasics(sb: Super, d: Disk, owner: Owner, inum: nat, nb: nat, addrs: seq<nat>)
    requires FsOk(sb, d, owner, inum, nb, addrs)
    ensures sb.Valid() && 0 < sb.size <= |d| && inum < sb.ninodes && |addrs| == NDIRECT + 1 && nb <= MAXFILE
  {
    NbInRange(sb, d, owner, inum, nb, addrs);
  }

  /** s with src written over it at off. */
  function Splice(s: seq<byte>, off: nat, src: seq<byte>): (r: seq<byte>)
    requires off <= |s|
    ensures |r| == if off + |src| < |s| then |s| else off + |src|
  {
    s[..off] + src + if off + |src| < |s| then s[off + |src|..] else []
  }

  /** Blocks touched by a transfer of tot bytes at off. */
  function Touched(off: nat, tot: nat): (r: nat) { if tot == 0 then 0 else (off + tot - 1) / BSIZE - off / BSIZE + 1 }

  /** A chunk of filewrite fits a transaction: at most 4 data blocks, an indirect block, the inode, and
      a bitmap block for each new data block and for a new indirect block. */
  lemma ChunkBudget(size: nat, off: nat, n: nat, nb: nat)
    requires off <= size && n <= 1536
    requires nb == if BlocksOf(off + n) < BlocksOf(size) then BlocksOf(size) else BlocksOf(off + n)
    ensures Touched(off, n) <= 4 && nb - BlocksOf(size) <= 3
  {}

  /** The blocks logged lie in a union of four small sets. */
  lemma UnionCard(s: set<nat>, a: set<nat>, b: set<nat>, c: set<nat>, d: set<nat>)
    requires s <= a + b + c + d
    ensures |s| <= |a| + |b| + |c| + |d|
  {
    SubsetCard(s, a + b + c + d);
    SumCard(a, b);
    SumCard(a + b, c);
    SumCard(a + b + c, d);
  }

  lemma SumCard(a: set<nat>, b: set<nat>)
    ensures |a + b| <= |a| + |b|
  {
    assert a + b == a + (b - a);
    assert |a + (b - a)| == |a| + |b - a|;
    SubsetCard(b - a, b);
  }

  /** Byte i after writing chunk at off into a file of nb blocks; fresh blocks were zero. */
  ghost function Written(d: Disk, addrs: seq<nat>, nb: nat, off: nat, chunk: seq<byte>, i: nat): (r: byte)
    requires |addrs| == NDIRECT + 1
  {
    if off <= i < off + |chunk| then chunk[i - off]
    else if i < BSIZE * nb then FileByte(d, addrs, i) else 0
  }

  /** The nb blocks of (e, addrs') hold the bytes of the nb0 blocks of (d, addrs) with chunk written at off. */
  ghost predicate BytesAre(e: Disk, addrs': seq<nat>, nb: nat, d: Disk, addrs: seq<nat>, nb0: nat, off: nat,
                           chunk: seq<byte>)
    requires |addrs| == |addrs'| == NDIRECT + 1
  {
    forall i :: 0 <= i < BSIZE * nb ==> FileByte(e, addrs', i) == Written(d, addrs, nb0, off, chunk, i)
  }

  /** Writing the next part of src after the part written so far. */
  lemma RoundBytes(d0: Disk, as0: seq<nat>, nb0: nat, d1: Disk, as1: seq<nat>, nb: nat, d2: Disk, as2: seq<nat>,
                   nb1: nat,
                   off0: nat, src: seq<byte>, tot: nat, m: nat)
    requires |as0| == |as1| == |as2| == NDIRECT + 1 && nb0 <= nb <= nb1 && tot + m <= |src| && off0 + tot <= BSIZE * nb
    requires BytesAre(d1, as1, nb, d0, as0, nb0, off0, src[..tot])
    requires BytesAre(d2, as2, nb1, d1, as1, nb, off0 + tot, src[tot..tot + m])
    ensures BytesAre(d2, as2, nb1, d0, as0, nb0, off0, src[..tot + m])
  {
    hide FileByte;
    forall i | 0 <= i < BSIZE * nb1
      ensures FileByte(d2, as2, i) == Written(d0, as0, nb0, off0, src[..tot + m], i)
    {
      if i < BSIZE * nb { assert FileByte(d1, as1, i) == Written(d0, as0, nb0, off0, src[..tot], i); }
    }
  }

  lemma NothingWritten(d: Disk, addrs: seq<nat>, nb: nat, off: nat)
    requires |addrs| == NDIRECT + 1
    ensures BytesAre(d, addrs, nb, d, addrs, nb, off, [])
  {}

  /** What writei may have logged so far: data blocks, bitmap blocks for the blocks added, the indirect block. */
  ghost predicate Budget(logged: set<nat>, logged0: set<nat>, data: set<nat>, bms: set<nat>, nb0: nat, nb: nat,
                         ind: nat, touched: nat) {
    && logged <= logged0 + data + bms + (if nb > NDIRECT then {ind} else {})
    && |data| <= touched
    && |bms| <= nb - nb0 + (if nb0 <= NDIRECT < nb then 1 else 0)
  }

  lemma BudgetRound(logged: set<nat>, logged0: set<nat>, data: set<nat>, bms: set<nat>, nb0: nat, nb: nat, ind: nat,
                    touched: nat,
                    logged': set<nat>, a: nat, more: set<nat>, nb': nat, ind': nat)
    requires Budget(logged, logged0, data, bms, nb0, nb, ind, touched) && nb0 <= nb <= nb' <= nb + 1
    requires nb' == nb ==> ind' == ind && logged' == logged + {a} && more == {}
    requires nb' > nb ==>
               && logged' <= logged + more + {a} + (if nb < NDIRECT then {} else {ind'})
               && |more| <= (if nb == NDIRECT then 2 else 1)
               && (nb > NDIRECT ==> ind' == ind)
    ensures Budget(logged', logged0, data + {a}, bms + more, nb0, nb', ind', touched + 1)
  {
    SumCard(data, {a});
    SumCard(bms, more);
  }

  lemma RoundArith(off0: nat, tot: nat, m: nat, n: nat, nb0: nat, nb: nat, nb1: nat)
    requires tot < n && off0 <= BSIZE * nb0 && off0 + n <= MAXBYTES
    requires nb == if tot > 0 && BlocksOf(off0 + tot) > nb0 then BlocksOf(off0 + tot) else nb0
    requires tot == 0 || (off0 + tot) % BSIZE == 0
    requires m == if n - tot < BSIZE - (off0 + tot) % BSIZE then n - tot else BSIZE - (off0 + tot) % BSIZE
    requires nb1 == if (off0 + tot) / BSIZE < nb then nb else nb + 1
    ensures 0 < m <= BSIZE - (off0 + tot) % BSIZE && tot + m <= n && off0 + tot <= BSIZE * nb
    ensures (off0 + tot) / BSIZE < MAXFILE
    ensures nb1 == if BlocksOf(off0 + tot + m) > nb0 then BlocksOf(off0 + tot + m) else nb0
    ensures nb0 <= nb <= nb1
    ensures tot + m < n ==> (off0 + tot + m) % BSIZE == 0
    ensures Touched(off0, tot + m) == Touched(off0, tot) + 1
  {
    var x := off0 + tot;
    assert x == x / BSIZE * BSIZE + x % BSIZE;
    assert (x + m - 1) / BSIZE == x / BSIZE;
    if tot > 0 { assert (x - 1) / BSIZE == x / BSIZE - 1; }
    assert BlocksOf(x + m) == x / BSIZE + 1;
  }

  /** A call of writei: what it writes where, and the image and log it started on. */
  datatype Task = Task(src: seq<byte>, off: nat, d0: Disk, addrs0: seq<nat>, nb0: nat, logged0: set<nat>) {
    ghost predicate Valid() { |addrs0| == NDIRECT + 1 && off <= BSIZE * nb0 && off + |src| <= MAXBYTES }
  }

  /** The state after tot bytes of the write. */
  ghost predicate Progress(sb: Super, inum: nat, d: Disk, addrs: seq<nat>, logged: set<nat>, t: Task, tot: nat, nb: nat,
                           data: set<nat>, bms: set<nat>)
    requires t.Valid() && |addrs| == NDIRECT + 1
  {
    && tot <= |t.src|
    && nb == (if tot > 0 && BlocksOf(t.off + tot) > t.nb0 then BlocksOf(t.off + tot) else t.nb0)
    && (tot < |t.src| ==> tot == 0 || (t.off + tot) % BSIZE == 0)
    && |d| == |t.d0| && sb.Valid() && 0 < sb.size <= |t.d0|
    && BytesAre(d, addrs, nb, t.d0, t.addrs0, t.nb0, t.off, t.src[..tot])
    && OthersSame(sb, t.d0, d, inum) && SameInodes(sb, t.d0, d)
    && (nb == t.nb0 ==> addrs == t.addrs0)
    && InBitmap(sb, bms) && Budget(logged, t.logged0, data, bms, t.nb0, nb, addrs[NDIRECT], Touched(t.off, tot))
  }

  /** How a round of m bytes moves the counters. */
  ghost predicate NextRound(t: Task, tot: nat, nb: nat, m: nat, nb1: nat) {
    && tot + m <= |t.src| && t.off + tot <= BSIZE * nb && t.nb0 <= nb <= nb1 <= nb + 1
    && nb1 == (if BlocksOf(t.off + tot + m) > t.nb0 then BlocksOf(t.off + tot + m) else t.nb0)
    && (tot + m < |t.src| ==> (t.off + tot + m) % BSIZE == 0)
    && Touched(t.off, tot + m) == Touched(t.off, tot) + 1
  }

  lemma ProgressArith(sb: Super, inum: nat, d: Disk, addrs: seq<nat>, logged: set<nat>, t: Task, tot: nat, nb: nat,
                      data: set<nat>, bms: set<nat>,
                      m: nat, nb1: nat)
    requires t.Valid() && |addrs| == NDIRECT + 1 && Progress(sb, inum, d, addrs, logged, t, tot, nb, data, bms)
    requires tot < |t.src|
    requires m == if |t.src| - tot < BSIZE - (t.off + tot) % BSIZE then |t.src| - tot else BSIZE - (t.off + tot) % BSIZE
    requires nb1 == if (t.off + tot) / BSIZE < nb then nb else nb + 1
    ensures 0 < m <= BSIZE - (t.off + tot) % BSIZE && (t.off + tot) / BSIZE < MAXFILE
    ensures NextRound(t, tot, nb, m, nb1)
  {
    hide OthersSame, BytesAre, Budget, SameInodes, BlocksOf;
    RoundArith(t.off, tot, m, |t.src|, t.nb0, nb, nb1);
  }

  lemma ProgressRound(sb: Super, inum: nat, d1: Disk, as1: seq<nat>, logged1: set<nat>, t: Task, tot: nat, nb: nat,
                      data: set<nat>, bms: set<nat>,
                      m: nat, d2: Disk, as2: seq<nat>, logged2: set<nat>, nb1: nat, a: nat, more: set<nat>)
    requires t.Valid() && |as1| == |as2| == NDIRECT + 1 && Progress(sb, inum, d1, as1, logged1, t, tot, nb, data, bms)
    requires tot < |t.src|
    requires 0 < m <= |t.src| - tot && NextRound(t, tot, nb, m, nb1)
    requires |d2| == |d1| && sb.Valid() && 0 < sb.size <= |d1| && OthersSame(sb, d1, d2, inum) && SameInodes(sb, d1, d2)
    requires tot + m <= |t.src|
    requires BytesAre(d2, as2, nb1, d1, as1, nb, t.off + tot, t.src[tot..tot + m])
    requires nb1 == nb ==> as2 == as1 && logged2 == logged1 + {a} && more == {}
    requires nb1 > nb ==>
               && logged2 <= logged1 + more + {a} + (if nb < NDIRECT then {} else {as2[NDIRECT]})
               && |more| <= (if nb == NDIRECT then 2 else 1) && InBitmap(sb, more)
               && (nb > NDIRECT ==> as2[NDIRECT] == as1[NDIRECT])
    ensures Progress(sb, inum, d2, as2, logged2, t, tot + m, nb1, data + {a}, bms + more)
  {
    hide OthersSame, BytesAre, Budget, SameInodes, BlocksOf, Touched;
    OthersSameTrans(sb, t.d0, d1, d2, inum);
    InodesSameTrans(sb, t.d0, d1, d2);
    RoundBytes(t.d0, t.addrs0, t.nb0, d1, as1, nb, d2, as2, nb1, t.off, t.src, tot, m);
    BudgetRound(logged1, t.logged0, data, bms, t.nb0, nb, as1[NDIRECT], Touched(t.off, tot), logged2, a, more, nb1,
                as2[NDIRECT]);
  }

  /** The blocks of a file of nb0 blocks after n bytes are written at off. */
  function LastBlocks(nb0: nat, off: nat, n: nat): (nb: nat)
    ensures nb0 <= nb
  {
    if n > 0 && BlocksOf(off + n) > nb0 then BlocksOf(off + n) else nb0
  }

  lemma RoundEnds(t: Task, tot: nat, nb: nat, m: nat, nb1: nat)
    requires 0 < m && NextRound(t, tot, nb, m, nb1)
    ensures nb1 <= LastBlocks(t.nb0, t.off, |t.src|) && tot + m <= |t.src| && t.off + tot <= BSIZE * nb
  {}

  ghost predicate InBitmap(sb: Super, bms: set<nat>)
  {
    forall x :: x in bms ==> sb.bmapstart <= x <= sb.bmapstart + (sb.size - 1) / BPB
  }

  lemma SizeFits(size: nat, off: nat, n: nat, nb: nat, size': nat)
    requires off <= size && size' == if off + n > size then off + n else size
    requires nb == if n > 0 && BlocksOf(off + n) > BlocksOf(size) then BlocksOf(off + n) else BlocksOf(size)
    ensures nb == BlocksOf(size') && size' <= BSIZE * nb
    ensures size' == size ==> nb == BlocksOf(size)
  {}

  /** Rewriting inode blocks changes no file's bytes. */
  lemma SameBytes(sb: Super, d: Disk, e: Disk, owner: Owner, inum: nat, nb: nat, addrs: seq<nat>, n: nat)
    requires FsOk(sb, d, owner, inum, nb, addrs) && |e| == |d| && n <= BSIZE * nb
    requires forall x :: sb.bmapstart <= x < |d| ==> e[x] == d[x]
    ensures FileBytes(e, addrs, n) == FileBytes(d, addrs, n)
  {
    hide FsCore, BlockNo;
    OkBasics(sb, d, owner, inum, nb, addrs);
    OwnedAreData(sb, d, owner, inum, nb, addrs);
    IndirectOwned(sb, d, owner, inum, nb, addrs, inum);
    SlotSame(d, e, addrs);
    forall i | 0 <= i < n ensures FileByte(e, addrs, i) == FileByte(d, addrs, i) {
      BlockOwned(sb, d, owner, inum, nb, addrs, i / BSIZE);
    }
  }

  /** When the write is done the file's bytes are the old ones with src spliced in. */
  lemma ContentSpliced(d: Disk, addrs: seq<nat>, nb: nat, d0: Disk, as0: seq<nat>, size: nat, off: nat, src: seq<byte>,
                       size': nat)
    requires |addrs| == |as0| == NDIRECT + 1 && off <= size && BytesAre(d, addrs, nb, d0, as0, BlocksOf(size), off, src)
    requires size' == (if off + |src| > size then off + |src| else size) && size' <= BSIZE * nb
    ensures FileBytes(d, addrs, size') == Splice(FileBytes(d0, as0, size), off, src)
  {
    hide FileByte;
    var l, r := FileBytes(d, addrs, size'), Splice(FileBytes(d0, as0, size), off, src);
    assert size <= BSIZE * BlocksOf(size);
    forall i | 0 <= i < size' ensures l[i] == r[i] {
      assert FileByte(d, addrs, i) == Written(d0, as0, BlocksOf(size), off, src, i);
    }
  }

  /** Transaction budget: a write of at most 1536 bytes logs at most ten distinct blocks, however many
      bitmap blocks there are; with one bitmap block at most seven. */
  lemma WithinTransaction(sb: Super, logged: set<nat>, logged0: set<nat>, data: set<nat>, bms: set<nat>, size: nat,
                          off: nat, n: nat, nb: nat, ind: nat, inode: nat)
    requires off <= size && n <= 1536
    requires nb == (if n > 0 && BlocksOf(off + n) > BlocksOf(size) then BlocksOf(off + n) else BlocksOf(size))
    requires InBitmap(sb, bms) && 0 < sb.size
    requires Budget(logged, logged0, data, bms, BlocksOf(size), nb, ind, Touched(off, n))
    ensures |logged + {inode} - logged0| <= 10
    ensures sb.size <= BPB ==> |logged + {inode} - logged0| <= 7
  {
    ChunkBudget(size, off, n, nb);
    UnionCard(logged + {inode} - logged0, data, bms, if nb > NDIRECT then {ind} else {}, {inode});
    if sb.size <= BPB {
      assert bms <= {sb.bmapstart};
      SubsetCard(bms, {sb.bmapstart});
    }
  }

  lemma TaskDone(sb: Super, inum: nat, d: Disk, addrs: seq<nat>, logged: set<nat>, t: Task, nb: nat, data: set<nat>,
                 bms: set<nat>, size: nat, size': nat)
    requires t.Valid() && |addrs| == NDIRECT + 1 && Progress(sb, inum, d, addrs, logged, t, |t.src|, nb, data, bms)
    requires t.off <= size && t.nb0 == BlocksOf(size)
    requires size' == if t.off + |t.src| > size then t.off + |t.src| else size
    ensures FileBytes(d, addrs, size') == Splice(FileBytes(t.d0, t.addrs0, size), t.off, t.src)
    ensures nb == BlocksOf(size') && size' <= BSIZE * nb && (size' == size ==> addrs == t.addrs0)
    ensures OthersSame(sb, t.d0, d, inum) && SameInodes(sb, t.d0, d)
    ensures |t.src| <= 1536 ==>
              var l := logged + {sb.IBlock(inum)} - t.logged0; |l| <= 10 && (sb.size <= BPB ==> |l| <= 7)
  {
    hide OthersSame, BytesAre, Budget, SameInodes, Touched, FileBytes, InBitmap;
    var n := |t.src|;
    assert t.src[..n] == t.src;
    SizeFits(size, t.off, n, nb, size');
    ContentSpliced(d, addrs, nb, t.d0, t.addrs0, size, t.off, t.src, size');
    if n <= 1536 {
      WithinTransaction(sb, logged, t.logged0, data, bms, size, t.off, n, nb, addrs[NDIRECT], sb.IBlock(inum));
    }
  }

  lemma WriteStart(off: nat, size: nat, logged: set<nat>, ind: nat)
    requires off <= size
    ensures off <= BSIZE * BlocksOf(size)
    ensures Budget(logged, logged, {}, {}, BlocksOf(size), BlocksOf(size), ind, Touched(off, 0))
  {}

  lemma InodesSameTrans(sb: Super, d: Disk, e: Disk, f: Disk)
    requires SameInodes(sb, d, e) && SameInodes(sb, e, f)
    ensures SameInodes(sb, d, f)
  {}

  lemma SelfSame(sb: Super, d: Disk, owner: Owner, inum: nat, nb: nat, addrs: seq<nat>)
    requires FsOk(sb, d, owner, inum, nb, addrs)
    ensures OthersSame(sb, d, d, inum) && SameInodes(sb, d, d)
  {
    OthersKept(sb, d, d, owner, inum, nb, addrs);
  }

  /** The bytes bmap leaves behind: the old ones, then zeroes. */
  lemma AllBytes(sb: Super, d: Disk, addrs: seq<nat>, e: Disk, addrs': seq<nat>, owner: Owner, inum: nat, nb: nat,
                 nb': nat, bn: nat)
    requires |addrs| == |addrs'| == NDIRECT + 1 && FsOk(sb, e, owner, inum, nb', addrs')
    requires bn <= nb <= MAXFILE && bn < MAXFILE && nb' == (if bn < nb then nb else nb + 1)
    requires OwnKept(d, addrs, e, addrs', nb)
    requires bn == nb ==> BlockNo(e, addrs', bn) < |e| && e[BlockNo(e, addrs', bn)] == Zeroes()
    ensures BlockNo(e, addrs', bn) < |e|
    ensures forall i ::
      0 <= i < BSIZE * nb' ==> FileByte(e, addrs', i) == if i < BSIZE * nb then FileByte(d, addrs, i) else 0
  {
    hide FsCore, BlockNo, FileByte;
    BlockOwned(sb, e, owner, inum, nb', addrs', bn);
    OwnedAreData(sb, e, owner, inum, nb', addrs');
    forall i | 0 <= i < BSIZE * nb'
        ensures FileByte(e, addrs', i) == if i < BSIZE * nb then FileByte(d, addrs, i) else 0 {
      if i < BSIZE * nb {
        BytesKept(d, addrs, e, addrs', nb, i);
      } else {
        assert i / BSIZE == nb == bn;
        FreshBytes(e, addrs', bn, i);
      }
    }
  }

  /** One block's bytes after splicing a chunk into it. */
  lemma Spliced(d: Disk, addrs: seq<nat>, off: nat, chunk: seq<byte>, bp: Block, i: nat)
    requires |addrs| == NDIRECT + 1 && off / BSIZE < MAXFILE && |chunk| <= BSIZE - off % BSIZE
    requires BlockNo(d, addrs, off / BSIZE) < |d|
    requires var v := d[BlockNo(d, addrs, off / BSIZE)]; bp == v[..off % BSIZE] + chunk + v[off % BSIZE + |chunk|..]
    ensures (if i / BSIZE == off / BSIZE then bp[i % BSIZE] else FileByte(d, addrs, i))
         == (if off <= i < off + |chunk| then chunk[i - off] else FileByte(d, addrs, i))
  {
    hide BlockNo;
    assert off <= i < off + |chunk| ==> i / BSIZE == off / BSIZE && i - off == i % BSIZE - off % BSIZE;
    assert i / BSIZE == off / BSIZE ==> i - off == i % BSIZE - off % BSIZE;
  }

  lemma NoBlocks(size: nat)
    requires size == 0
    ensures BlocksOf(size) == 0
  {}

  lemma FreeingSize(sb: Super, d: Disk, d0: Disk, owner: Owner, inum: nat, done: set<nat>)
    requires Freeing(sb, d, d0, owner, inum, done)
    ensures sb.Valid() && 0 < sb.size <= |d| == |d0| && forall x :: sb.IsData(x) ==> d[x] == d0[x]
  {}

  lemma StartFreeing(sb: Super, d: Disk, owner: Owner, inum: nat, nb: nat, addrs: seq<nat>)
    requires FsOk(sb, d, owner, inum, nb, addrs)
    ensures Freeing(sb, d, d, owner, inum, {})
  {
    hide Used;
    assert Without(owner, inum, {}) == owner.Keys;
  }

  /** The blocks one transaction may log; with one bitmap block fewer are enough. */
  ghost predicate WithinBudget(sb: Super, logged: set<nat>) { |logged| <= 10 && (sb.size <= BPB ==> |logged| <= 7) }

  lemma NothingLogged(sb: Super, logged: set<nat>)
    ensures WithinBudget(sb, logged - logged)
  {
    assert logged - logged == {};
  }

  /** writei's argument checks: beyond the end of the file, or past the largest file. */
  predicate Refused(size: nat, off: nat, n: nat) { off > size || off + n > MAXBYTES }

  /** The checks as the code makes them, in 32 bits. */
  lemma RefusedMeans(size: nat, off: nat, n: nat)
    requires off < UINT && n < UINT
    ensures Refused(size, off, n) <==> off > size || (off + n) % UINT < off || (off + n) % UINT > MAXBYTES
    ensures !Refused(size, off, n) ==> off <= size && off + n <= MAXBYTES
  {}

  /** What balloc's result says about the blocks left. */
  lemma AllocTells(sb: Super, d: Disk, owner: Owner, r: Option<nat>)
    requires sb.Valid() && sb.size <= |d| && UsedIs(sb, d, owner.Keys)
    requires r.None? ==> forall b :: 0 <= b < sb.size ==> Used(sb, d, b)
    requires r.Some? ==> r.value < sb.size && !Used(sb, d, r.value)
    ensures r.None? <==> DiskFull(sb, d)
    ensures r.Some? ==> r.value !in owner
  {
    hide Used;
  }

  class Fs {
    const sb: Super
    var disk: Disk
    ghost var owner: Owner
    ghost var logged: set<nat>

    constructor (sb: Super, image: Disk, ghost owner: Owner)
      ensures this.sb == sb && disk == image && this.owner == owner && logged == {}
    {
      this.sb, disk, this.owner, logged := sb, image, owner, {};
    }

    /** balloc: the lowest free block, marked in use and zeroed; None is "out of blocks". */
    method Balloc() returns (r: Option<nat>)
      requires sb.Valid() && sb.size <= |disk|
      modifies this`disk, this`logged
      ensures r.None? ==>
        disk == old(disk) && logged == old(logged) && forall b :: 0 <= b < sb.size ==> Used(sb, disk, b)
      ensures r.Some? ==> r.value < sb.size && !Used(sb, old(disk), r.value)
      ensures r.Some? ==> forall c :: 0 <= c < r.value ==> Used(sb, old(disk), c)
      ensures r.Some? ==> disk == Allocated(sb, old(disk), r.value)
      ensures r.Some? ==> logged == old(logged) + {sb.BBlock(r.value), r.value}
    {
      hide Bit, SetBit, Used, Allocated;
      var b := 0;
      while b < sb.size
        invariant b % BPB == 0 && disk == old(disk) && logged == old(logged)
        invariant forall c :: 0 <= c < b && c < sb.size ==> Used(sb, disk, c)
      {
        r := ScanBlock(b);
        if r.Some? { return; }
        b := b + BPB;
      }
      r := None;
    }

    /** The inner loop of balloc, over the bits of one bitmap block. */
    method ScanBlock(b: nat) returns (r: Option<nat>)
      requires sb.Valid() && sb.size <= |disk| && b < sb.size && b % BPB == 0
      modifies this`disk, this`logged
      ensures r.None? ==>
        disk == old(disk) && logged == old(logged) && forall c :: b <= c < b + BPB && c < sb.size ==> Used(sb, disk, c)
      ensures r.Some? ==> b <= r.value < sb.size && !Used(sb, old(disk), r.value)
      ensures r.Some? ==> forall c :: b <= c < r.value ==> Used(sb, old(disk), c)
      ensures r.Some? ==> disk == Allocated(sb, old(disk), r.value)
      ensures r.Some? ==> logged == old(logged) + {sb.BBlock(r.value), r.value}
    {
      hide Bit, SetBit, Used, MarkUsed;
      var bi := 0;
      while bi < BPB && b + bi < sb.size
        invariant bi <= BPB && disk == old(disk) && logged == old(logged)
        invariant forall c :: b <= c < b + bi && c < sb.size ==> Used(sb, disk, c)
      {
        BitAt(sb, disk, b, bi);
        var bp := disk[sb.BBlock(b)];
        if !Bit(bp[bi / 8], bi % 8) {
          LogWrite(sb.BBlock(b), bp[bi / 8 := SetBit(bp[bi / 8], bi % 8, 8)]);
          LogWrite(b + bi, Zeroes());  // bzero
          return Some(b + bi);
        }
        bi := bi + 1;
      }
      r := None;
    }

    /** A block changed in its locked buffer and handed to log_write. */
    method LogWrite(b: nat, data: Block)
      requires b < |disk|
      modifies this`disk, this`logged
      ensures disk == old(disk)[b := data] && logged == old(logged) + {b}
    {
      disk := disk[b := data];
      logged := logged + {b};
    }

    /** bfree; not ok is the panic "freeing free block". */
    method Bfree(b: nat) returns (ok: bool)
      requires sb.Valid() && sb.size <= |disk| && b < sb.size
      modifies this`disk, this`logged
      ensures ok <==> Used(sb, old(disk), b)
      ensures ok ==> disk == MarkFree(sb, old(disk), b) && logged == old(logged) + {sb.BBlock(b)}
      ensures !ok ==> disk == old(disk) && logged == old(logged)
    {
      hide Bit, ClearBit;
      FreeBit(sb, disk, b);
      hide Used, MarkFree;
      var bi := b % BPB;
      var bp := disk[sb.BBlock(b)];
      if !Bit(bp[bi / 8], bi % 8) { return false; }
      LogWrite(sb.BBlock(b), bp[bi / 8 := ClearBit(bp[bi / 8], bi % 8)]);
      ok := true;
    }

    /** Inode ip in memory, nb blocks mapped; every other inode on disk. */
    ghost predicate Ok(ip: Inode, nb: nat)
      reads this, ip, ip.addrs
    {
      ip.addrs.Length == NDIRECT + 1 && FsOk(sb, disk, owner, ip.inum, nb, ip.addrs[..])
    }

    /** bmap under the no-holes invariant: block bn of the file, mapped if it is the next one.
        None is a panic. bms are the bitmap blocks logged. */
    method Bmap(ip: Inode, bn: nat, ghost nb: nat) returns (r: Option<nat>, ghost bms: set<nat>)
      requires Ok(ip, nb) && bn <= nb
      modifies this, ip.addrs
      ensures bn < nb ==> r.Some? && r.value < |disk|
      ensures r.Some? ==> bn < MAXFILE && Ok(ip, if bn < nb then nb else nb + 1) && |disk| == |old(disk)|
      ensures r.Some? ==> r.value == BlockNo(disk, ip.addrs[..], bn) && OthersSame(sb, old(disk), disk, ip.inum)
      ensures r.Some? ==> nb <= MAXFILE && OwnKept(old(disk), old(ip.addrs[..]), disk, ip.addrs[..], nb)
      ensures r.Some? && bn < nb ==>
        disk == old(disk) && ip.addrs[..] == old(ip.addrs[..]) && owner == old(owner) && logged == old(logged)
      ensures r.Some? && bn == nb ==> r.value < |disk| && disk[r.value] == Zeroes()
      ensures r.Some? && bn == nb ==>
                logged <= old(logged) + bms + {r.value} + if bn < NDIRECT then {} else {ip.addrs[NDIRECT]}
      ensures r.Some? && bn == nb ==> |bms| <= if bn == NDIRECT then 2 else 1
      ensures r.Some? && bn > NDIRECT ==> ip.addrs[NDIRECT] == old(ip.addrs[NDIRECT])
      ensures r.Some? ==> SameInodes(sb, old(disk), disk) && InBitmap(sb, bms)
      ensures r.Some? ==> Tracked(old(disk), disk, old(logged), logged)
      ensures bn == nb < MAXFILE ==>
        (r.Some? <==> |old(owner)| + Cost(nb, old(ip.addrs[NDIRECT]), nb + 1) <= sb.nblocks)
      ensures r.Some? && bn == nb ==> |owner| == |old(owner)| + Cost(nb, old(ip.addrs[NDIRECT]), nb + 1)
      ensures r.Some? && bn == nb ==> (ip.addrs[NDIRECT] == 0 <==> old(ip.addrs[NDIRECT]) == 0 && nb < NDIRECT)
      ensures r.None? && bn < MAXFILE ==> DiskFull(sb, disk)
    {
      hide Used, FsCore, UsedIs, SameFile, DiskFull, Tracked;
      bms := {};
      OwnedAreData(sb, disk, owner, ip.inum, nb, ip.addrs[..]);
      NbInRange(sb, disk, owner, ip.inum, nb, ip.addrs[..]);
      SlotsKeptOwn(sb, disk, disk, owner, ip.inum, nb, ip.addrs[..], ip.addrs[..]);
      OthersKept(sb, disk, disk, owner, ip.inum, nb, ip.addrs[..]);
      if bn < nb { BlockOwned(sb, disk, owner, ip.inum, nb, ip.addrs[..], bn); }
      TrackedSelf(disk, logged);
      if bn < NDIRECT {
        var addr := ip.addrs[bn];
        assert addr == BlockNo(disk, ip.addrs[..], bn);
        if addr == 0 {
          r, bms := MapDirect(ip, bn);
          return;
        }
        return Some(addr), {};
      }
      if bn < MAXFILE {
        r, bms := BmapIndirect(ip, bn, nb);
        return;
      }
      r := None;
    }

    /** bmap beyond the direct blocks. */
    method BmapIndirect(ip: Inode, bn: nat, ghost nb: nat) returns (r: Option<nat>, ghost bms: set<nat>)
      requires Ok(ip, nb) && NDIRECT <= bn <= nb && bn < MAXFILE
      modifies this, ip.addrs
      ensures bn < nb ==> r.Some? && r.value < |disk|
      ensures r.Some? ==> bn < MAXFILE && Ok(ip, if bn < nb then nb else nb + 1) && |disk| == |old(disk)|
      ensures r.Some? ==> r.value == BlockNo(disk, ip.addrs[..], bn) && OthersSame(sb, old(disk), disk, ip.inum)
      ensures r.Some? ==> nb <= MAXFILE && OwnKept(old(disk), old(ip.addrs[..]), disk, ip.addrs[..], nb)
      ensures r.Some? && bn < nb ==>
        disk == old(disk) && ip.addrs[..] == old(ip.addrs[..]) && owner == old(owner) && logged == old(logged)
      ensures r.Some? && bn == nb ==> r.value < |disk| && disk[r.value] == Zeroes()
      ensures r.Some? && bn == nb ==>
                logged <= old(logged) + bms + {r.value} + if bn < NDIRECT then {} else {ip.addrs[NDIRECT]}
      ensures r.Some? && bn == nb ==> |bms| <= if bn == NDIRECT then 2 else 1
      ensures r.Some? && bn > NDIRECT ==> ip.addrs[NDIRECT] == old(ip.addrs[NDIRECT])
      ensures r.Some? ==> SameInodes(sb, old(disk), disk) && InBitmap(sb, bms)
      ensures r.Some? ==> Tracked(old(disk), disk, old(logged), logged)
      ensures bn == nb < MAXFILE ==>
        (r.Some? <==> |old(owner)| + Cost(nb, old(ip.addrs[NDIRECT]), nb + 1) <= sb.nblocks)
      ensures r.Some? && bn == nb ==> |owner| == |old(owner)| + Cost(nb, old(ip.addrs[NDIRECT]), nb + 1)
      ensures r.Some? && bn == nb ==> (ip.addrs[NDIRECT] == 0 <==> old(ip.addrs[NDIRECT]) == 0 && nb < NDIRECT)
      ensures r.None? && bn < MAXFILE ==> DiskFull(sb, disk)
    {
      hide Used, FsCore, UsedIs, DiskFull, OthersSame, OwnKept, BlockNo, SameInodes, Tracked;
      OwnedAreData(sb, disk, owner, ip.inum, nb, ip.addrs[..]);
      NbInRange(sb, disk, owner, ip.inum, nb, ip.addrs[..]);
      SlotsKeptOwn(sb, disk, disk, owner, ip.inum, nb, ip.addrs[..], ip.addrs[..]);
      SelfSame(sb, disk, owner, ip.inum, nb, ip.addrs[..]);
      if bn < nb { BlockOwned(sb, disk, owner, ip.inum, nb, ip.addrs[..], bn); }
      ghost var bms1 := {};
      TrackedSelf(disk, logged);
      if ip.addrs[NDIRECT] == 0 {
        var ok;
        ok, bms1 := MapIndirect(ip);
        if !ok { return None, {}; }
      }
      ghost var d1: Disk, as1: seq<nat>, l1 := disk, ip.addrs[..], logged;
      r, bms := MapEntry(ip, bn, nb);
      if r.None? { return; }
      SumCard(bms, bms1);
      bms := bms + bms1;
      OthersSameTrans(sb, old(disk), d1, disk, ip.inum);
      OwnKeptTrans(old(disk), old(ip.addrs[..]), d1, as1, disk, ip.addrs[..], nb);
      InodesSameTrans(sb, old(disk), d1, disk);
      TrackedTrans(old(disk), d1, disk, old(logged), l1, logged);
    }

    method MapDirect(ip: Inode, bn: nat) returns (r: Option<nat>, ghost bms: set<nat>)
      requires Ok(ip, bn) && bn < NDIRECT
      modifies this, ip.addrs
      ensures r.Some? ==> Ok(ip, bn + 1) && |disk| == |old(disk)| && r.value < |disk|
      ensures r.Some? ==> r.value == BlockNo(disk, ip.addrs[..], bn) && disk[r.value] == Zeroes()
      ensures r.Some? ==>
        OthersSame(sb, old(disk), disk, ip.inum) && OwnKept(old(disk), old(ip.addrs[..]), disk, ip.addrs[..], bn)
      ensures r.Some? ==> logged <= old(logged) + bms + {r.value} && |bms| <= 1
      ensures r.Some? ==> SameInodes(sb, old(disk), disk) && InBitmap(sb, bms)
      ensures r.Some? ==> Tracked(old(disk), disk, old(logged), logged)
      ensures r.Some? <==> |old(owner)| < sb.nblocks
      ensures r.Some? ==> |owner| == |old(owner)| + 1 && ip.addrs[NDIRECT] == old(ip.addrs[NDIRECT])
      ensures r.None? ==> DiskFull(sb, disk)
    {
      hide Used, FsCore, UsedIs, Allocated, OthersSame, OwnKept, DiskFull, FreeBlocks, Tracked;
      OwnedAreData(sb, disk, owner, ip.inum, bn, ip.addrs[..]);
      OwnerCount(sb, disk, owner, ip.inum, bn, ip.addrs[..]);
      r := Balloc();
      AllocTells(sb, old(disk), owner, r);
      if r.None? { return None, {}; }
      OwnerAdd(owner, r.value, (ip.inum, bn));
      AllocatedTracked(sb, old(disk), r.value, old(logged));
      ghost var as0: seq<nat> := ip.addrs[..];
      ip.addrs[bn] := r.value;
      assert ip.addrs[..] == as0[bn := r.value];
      DirectMapped(sb, old(disk), owner, ip.inum, bn, as0, r.value);
      AllocatedOk(sb, old(disk), owner, ip.inum, bn, as0, r.value);
      AllocatedUsed(sb, old(disk), owner.Keys, r.value);
      BBlockInRange(sb, r.value);
      owner := owner[r.value := (ip.inum, bn)];
      bms := {sb.BBlock(r.value)};
    }

    method MapIndirect(ip: Inode) returns (ok: bool, ghost bms: set<nat>)
      requires Ok(ip, NDIRECT) && ip.addrs[NDIRECT] == 0
      modifies this, ip.addrs
      ensures ok ==> Ok(ip, NDIRECT) && |disk| == |old(disk)| && ip.addrs[NDIRECT] != 0
      ensures ok ==>
        OthersSame(sb, old(disk), disk, ip.inum) && OwnKept(old(disk), old(ip.addrs[..]), disk, ip.addrs[..], NDIRECT)
      ensures ok ==> logged <= old(logged) + bms + {ip.addrs[NDIRECT]} && |bms| <= 1
      ensures ok ==> SameInodes(sb, old(disk), disk) && InBitmap(sb, bms)
      ensures ok ==> Tracked(old(disk), disk, old(logged), logged)
      ensures ok <==> |old(owner)| < sb.nblocks
      ensures ok ==> |owner| == |old(owner)| + 1
      ensures !ok ==> DiskFull(sb, disk)
    {
      hide Used, FsCore, UsedIs, Allocated, OthersSame, OwnKept, DiskFull, FreeBlocks, Tracked;
      OwnedAreData(sb, disk, owner, ip.inum, NDIRECT, ip.addrs[..]);
      OwnerCount(sb, disk, owner, ip.inum, NDIRECT, ip.addrs[..]);
      var r := Balloc();
      AllocTells(sb, old(disk), owner, r);
      if r.None? { return false, {}; }
      OwnerAdd(owner, r.value, (ip.inum, NDIRECT));
      AllocatedTracked(sb, old(disk), r.value, old(logged));
      ghost var as0: seq<nat> := ip.addrs[..];
      ip.addrs[NDIRECT] := r.value;
      assert ip.addrs[..] == as0[NDIRECT := r.value];
      AllocatedOk(sb, old(disk), owner, ip.inum, NDIRECT, as0, r.value);
      IndirectMapped(sb, old(disk), owner, ip.inum, as0, r.value);
      AllocatedUsed(sb, old(disk), owner.Keys, r.value);
      BBlockInRange(sb, r.value);
      owner := owner[r.value := (ip.inum, NDIRECT)];
      bms := {sb.BBlock(r.value)};
      ok := true;
    }

    method MapEntry(ip: Inode, bn: nat, ghost nb: nat) returns (r: Option<nat>, ghost bms: set<nat>)
      requires Ok(ip, nb) && NDIRECT <= bn <= nb && bn < MAXFILE && ip.addrs[NDIRECT] != 0
      modifies this
      ensures bn < nb ==> r.Some?
      ensures r.Some? ==> Ok(ip, if bn < nb then nb else nb + 1) && |disk| == |old(disk)|
      ensures r.Some? ==> r.value == BlockNo(disk, ip.addrs[..], bn)
      ensures r.Some? ==> OthersSame(sb, old(disk), disk, ip.inum)
      ensures r.Some? ==> nb <= MAXFILE && OwnKept(old(disk), ip.addrs[..], disk, ip.addrs[..], nb)
      ensures r.Some? && bn < nb ==> disk == old(disk) && owner == old(owner) && logged == old(logged)
      ensures r.Some? && bn == nb ==> r.value < |disk| && disk[r.value] == Zeroes()
      ensures r.Some? && bn == nb ==> logged <= old(logged) + bms + {r.value, ip.addrs[NDIRECT]} && |bms| <= 1
      ensures r.Some? ==> SameInodes(sb, old(disk), disk) && InBitmap(sb, bms)
      ensures r.Some? ==> Tracked(old(disk), disk, old(logged), logged)
      ensures bn == nb ==> (r.Some? <==> |old(owner)| < sb.nblocks)
      ensures r.Some? && bn == nb ==> |owner| == |old(owner)| + 1
      ensures r.None? ==> DiskFull(sb, disk)
    {
      hide Used, FsCore, UsedIs, Allocated, SetWord, Word, DiskFull, FreeBlocks, Tracked, OthersSame, OwnKept;
      bms := {};
      ghost var as0: seq<nat> := ip.addrs[..];
      OwnedAreData(sb, disk, owner, ip.inum, nb, as0);
      NbInRange(sb, disk, owner, ip.inum, nb, as0);
      IndirectOwned(sb, disk, owner, ip.inum, nb, as0, ip.inum);
      var addr := Word(disk[ip.addrs[NDIRECT]], bn - NDIRECT);
      assert addr == BlockNo(disk, as0, bn);
      if addr == 0 {
        assert bn == nb;
        r, bms := NewEntry(ip, bn);
      } else {
        r := Some(addr);
        TrackedSelf(disk, logged);
        SlotsKeptOwn(sb, disk, disk, owner, ip.inum, nb, as0, as0);
        OthersKept(sb, disk, disk, owner, ip.inum, nb, as0);
      }
    }

    /** The entry for block nb of the file is empty: a block is allocated for it. */
    method NewEntry(ip: Inode, nb: nat) returns (r: Option<nat>, ghost bms: set<nat>)
      requires Ok(ip, nb) && NDIRECT <= nb < MAXFILE && ip.addrs[NDIRECT] != 0
      modifies this
      ensures r.Some? <==> |old(owner)| < sb.nblocks
      ensures r.None? ==> DiskFull(sb, disk)
      ensures r.Some? ==> Ok(ip, nb + 1) && |disk| == |old(disk)| && |owner| == |old(owner)| + 1
      ensures r.Some? ==> r.value < |disk| && disk[r.value] == Zeroes() && r.value == BlockNo(disk, ip.addrs[..], nb)
      ensures r.Some? ==> OthersSame(sb, old(disk), disk, ip.inum)
      ensures r.Some? ==> OwnKept(old(disk), ip.addrs[..], disk, ip.addrs[..], nb)
      ensures r.Some? ==> logged <= old(logged) + bms + {r.value, ip.addrs[NDIRECT]} && |bms| <= 1
      ensures r.Some? ==> SameInodes(sb, old(disk), disk) && InBitmap(sb, bms)
      ensures r.Some? ==> Tracked(old(disk), disk, old(logged), logged)
    {
      hide Used, FsCore, UsedIs, Allocated, SetWord, Word, DiskFull, FreeBlocks, Tracked, OthersSame, OwnKept;
      bms := {};
      ghost var as0: seq<nat> := ip.addrs[..];
      OwnedAreData(sb, disk, owner, ip.inum, nb, as0);
      IndirectOwned(sb, disk, owner, ip.inum, nb, as0, ip.inum);
      var ind := ip.addrs[NDIRECT];
      OwnerCount(sb, disk, owner, ip.inum, nb, as0);
      r := Balloc();
      AllocTells(sb, old(disk), owner, r);
      if r.None? { return; }
      OwnerAdd(owner, r.value, (ip.inum, nb + 1));
      AllocatedOk(sb, old(disk), owner, ip.inum, nb, as0, r.value);
      AllocatedTracked(sb, old(disk), r.value, old(logged));
      ghost var d1, l1 := disk, logged;
      TrackedWrite(disk, ind, SetWord(disk[ind], nb - NDIRECT, r.value), logged);
      LogWrite(ind, SetWord(disk[ind], nb - NDIRECT, r.value));
      TrackedTrans(old(disk), d1, disk, old(logged), l1, logged);
      AllocatedUsed(sb, old(disk), owner.Keys, r.value);
      BBlockInRange(sb, r.value);
      EntryMapped(sb, old(disk), owner, ip.inum, nb, as0, r.value, disk);
      owner := owner[r.value := (ip.inum, nb + 1)];
      bms := {sb.BBlock(r.value)};
    }

    /** One round of the loop in writei: m bytes into the block at off. */
    method WriteBlock(ip: Inode, off: nat, chunk: seq<byte>, ghost nb: nat) returns (ok: bool, ghost nb': nat,
                      ghost a: nat, ghost bms: set<nat>)
      requires Ok(ip, nb) && off <= BSIZE * nb && off / BSIZE < MAXFILE && 0 < |chunk| <= BSIZE - off % BSIZE
      modifies this, ip.addrs
      ensures ok ==> nb' == (if off / BSIZE < nb then nb else nb + 1) && Ok(ip, nb') && |disk| == |old(disk)|
      ensures ok ==> BytesAre(disk, ip.addrs[..], nb', old(disk), old(ip.addrs[..]), nb, off, chunk)
      ensures ok ==> OthersSame(sb, old(disk), disk, ip.inum) && SameInodes(sb, old(disk), disk)
      ensures ok && nb' == nb ==> ip.addrs[..] == old(ip.addrs[..]) && logged == old(logged) + {a} && bms == {}
      ensures ok && nb' > nb ==>
                && logged <= old(logged) + bms + {a} + (if nb < NDIRECT then {} else {ip.addrs[NDIRECT]})
                && |bms| <= (if nb == NDIRECT then 2 else 1) && InBitmap(sb, bms)
                && (nb > NDIRECT ==> ip.addrs[NDIRECT] == old(ip.addrs[NDIRECT]))
      ensures ok ==> Tracked(old(disk), disk, old(logged), logged)
      ensures ok <==> off / BSIZE < nb || |old(owner)| + Cost(nb, old(ip.addrs[NDIRECT]), nb + 1) <= sb.nblocks
      ensures ok ==> nb <= nb' && |owner| == |old(owner)| + Cost(nb, old(ip.addrs[NDIRECT]), nb')
      ensures ok && nb' > nb ==> (ip.addrs[NDIRECT] == 0 <==> old(ip.addrs[NDIRECT]) == 0 && nb < NDIRECT)
      ensures !ok ==> DiskFull(sb, disk)
    {
      hide FsOk, OthersSame, BlockNo, FileByte, DiskFull, Tracked;
      OkBasics(sb, disk, owner, ip.inum, nb, ip.addrs[..]);
      a, nb' := 0, nb;
      var bn, o := off / BSIZE, off % BSIZE;
      var r;
      r, bms := Bmap(ip, bn, nb);
      if r.None? { return false, nb, 0, {}; }
      nb' := if bn < nb then nb else nb + 1;
      if bn < nb { bms := {}; }
      ghost var d1: Disk, as1: seq<nat> := disk, ip.addrs[..];
      AllBytes(sb, old(disk), old(ip.addrs[..]), d1, as1, owner, ip.inum, nb, nb', bn);
      var bp := disk[r.value];
      bp := bp[..o] + chunk + bp[o + |chunk|..];
      ghost var l1 := logged;
      TrackedWrite(disk, r.value, bp, logged);
      LogWrite(r.value, bp);
      TrackedTrans(old(disk), d1, disk, old(logged), l1, logged);
      a := r.value;
      DataWritten(sb, d1, owner, ip.inum, nb', as1, bn, bp);
      OthersSameTrans(sb, old(disk), d1, disk, ip.inum);
      forall i | 0 <= i < BSIZE * nb'
        ensures FileByte(disk, as1, i) == Written(old(disk), old(ip.addrs[..]), nb, off, chunk, i)
      {
        Spliced(d1, as1, off, chunk, bp, i);
      }
      ok := true;
    }

    /** iupdate: write-through of the in-memory inode. */
    method Iupdate(ip: Inode, ghost nb: nat)
      requires Ok(ip, nb)
      modifies this`disk, this`logged
      ensures Ok(ip, nb) && |disk| == |old(disk)| && disk == WriteInode(sb, old(disk), ip.inum, ip.Image())
      ensures ReadInode(sb, disk, ip.inum) == ip.Image() && OthersSame(sb, old(disk), disk, ip.inum)
      ensures forall x :: sb.bmapstart <= x < |disk| ==> disk[x] == old(disk)[x]
      ensures logged == old(logged) + {sb.IBlock(ip.inum)} && Tracked(old(disk), disk, old(logged), logged)
    {
      InodeWritten(sb, disk, owner, ip.inum, nb, ip.Image());
      hide FsOk, OthersSame, SetWords, ReadInode, Pack;
      InodeInRange(sb, ip.inum);
      var bp := disk[sb.IBlock(ip.inum)];
      LogWrite(sb.IBlock(ip.inum), SetWords(bp, 16 * (ip.inum % IPB), Pack(ip.Image())));
    }

    /** The inode locked by the caller is consistent and its disk copy current. */
    ghost predicate Valid(ip: Inode)
      reads this, ip, ip.addrs
    {
      Ok(ip, BlocksOf(ip.size)) && ReadInode(sb, disk, ip.inum) == ip.Image()
    }

    ghost function Contents(ip: Inode): (r: seq<byte>)
      reads this, ip, ip.addrs
    {
      FileBytes(disk, ip.addrs[..], ip.size)
    }

    /** Where writei stands after tot bytes of src. */
    ghost predicate Writing(ip: Inode, t: Task, tot: nat, nb: nat, data: set<nat>, bms: set<nat>)
      requires t.Valid()
      reads this, ip, ip.addrs
    {
      Ok(ip, nb) && Progress(sb, ip.inum, disk, ip.addrs[..], logged, t, tot, nb, data, bms)
    }

    lemma WritingStarts(ip: Inode, t: Task)
      requires Ok(ip, BlocksOf(ip.size)) && t.Valid() && t.off <= ip.size
      requires t.d0 == disk && t.addrs0 == ip.addrs[..] && t.nb0 == BlocksOf(ip.size) && t.logged0 == logged
      ensures Writing(ip, t, 0, t.nb0, {}, {})
    {
      hide FsOk, OthersSame, BytesAre, Budget, Touched, SameInodes;
      OkBasics(sb, disk, owner, ip.inum, t.nb0, t.addrs0);
      SelfSame(sb, disk, owner, ip.inum, t.nb0, t.addrs0);
      NothingWritten(disk, t.addrs0, t.nb0, t.off);
      WriteStart(t.off, ip.size, logged, t.addrs0[NDIRECT]);
      assert t.src[..0] == [];
    }

    /** One round of the loop of writei. */
    method WriteRound(ip: Inode, src: seq<byte>, off: nat, tot: nat, ghost t: Task, ghost nb: nat, ghost data: set<nat>,
                      ghost bms: set<nat>)
      returns (ok: bool, m: nat, ghost nb1: nat, ghost data1: set<nat>, ghost bms1: set<nat>)
      requires t.Valid() && src == t.src && off == t.off + tot && tot < |src| && Writing(ip, t, tot, nb, data, bms)
      modifies this, ip.addrs
      ensures ok ==> 0 < m <= |src| - tot && Writing(ip, t, tot + m, nb1, data1, bms1)
      ensures ok ==> Tracked(old(disk), disk, old(logged), logged)
      ensures ok ==> nb <= nb1 <= nb + 1 && |owner| == |old(owner)| + Cost(nb, old(ip.addrs[NDIRECT]), nb1)
      ensures ok ==> if nb1 == nb then ip.addrs[NDIRECT] == old(ip.addrs[NDIRECT])
                     else ip.addrs[NDIRECT] == 0 <==> old(ip.addrs[NDIRECT]) == 0 && nb < NDIRECT
      ensures !ok ==> |old(owner)| + Cost(nb, old(ip.addrs[NDIRECT]), nb + 1) > sb.nblocks
      ensures !ok ==> nb + 1 <= LastBlocks(t.nb0, t.off, |src|) && DiskFull(sb, disk)
    {
      hide FsOk, OthersSame, BytesAre, Budget, BlocksOf, SameInodes, Progress, Written, DiskFull, LastBlocks, Cost,
        NextRound, Touched,
        InBitmap, Tracked;
      var n := |src|;
      m := if n - tot < BSIZE - off % BSIZE then n - tot else BSIZE - off % BSIZE;
      ghost var a, more := 0, {};
      nb1, data1, bms1 := if off / BSIZE < nb then nb else nb + 1, {}, {};
      ghost var d1: Disk, as1: seq<nat>, logged1 := disk, ip.addrs[..], logged;
      OkBasics(sb, disk, owner, ip.inum, nb, as1);
      ProgressArith(sb, ip.inum, d1, as1, logged1, t, tot, nb, data, bms, m, nb1);
      RoundEnds(t, tot, nb, m, nb1);
      ok, nb1, a, more := WriteBlock(ip, off, src[tot..tot + m], nb);
      if !ok { return; }
      ProgressRound(sb, ip.inum, d1, as1, logged1, t, tot, nb, data, bms, m, disk, ip.addrs[..], logged, nb1, a, more);
      data1, bms1 := data + {a}, bms + more;
    }

    /** The loop of writei. */
    method WriteLoop(ip: Inode, src: seq<byte>, off0: nat, ghost t: Task) returns (ok: bool, ghost nb: nat,
                     ghost data: set<nat>, ghost bms: set<nat>)
      requires Ok(ip, BlocksOf(ip.size)) && t.Valid() && t.off <= ip.size && t.src == src && t.off == off0
      requires t.d0 == disk && t.addrs0 == ip.addrs[..] && t.nb0 == BlocksOf(ip.size) && t.logged0 == logged
      modifies this, ip.addrs
      ensures ok ==> Writing(ip, t, |src|, nb, data, bms)
      ensures ok ==> Tracked(old(disk), disk, old(logged), logged)
      ensures t.nb0 <= LastBlocks(t.nb0, t.off, |src|)
      ensures ok <==> |old(owner)| + Cost(t.nb0, t.addrs0[NDIRECT], LastBlocks(t.nb0, t.off, |src|)) <= sb.nblocks
      ensures ok ==> |owner| == |old(owner)| + Cost(t.nb0, t.addrs0[NDIRECT], LastBlocks(t.nb0, t.off, |src|))
      ensures ok ==> Paid(|old(owner)|, t.addrs0[NDIRECT], t.nb0, |owner|, ip.addrs[NDIRECT], nb)
      ensures !ok ==> DiskFull(sb, disk)
    {
      hide Writing, FsOk, BlocksOf, LastBlocks, Cost, DiskFull, Paid, Tracked;
      WritingStarts(ip, t);
      WritingPays(ip, t);
      TrackedSelf(disk, logged);
      ghost var c0, ind0, nbF := |owner|, t.addrs0[NDIRECT], LastBlocks(t.nb0, t.off, |src|);
      nb, data, bms := t.nb0, {}, {};
      var tot, off, m := 0, off0, 0;
      while tot < |src|
        invariant tot <= |src| && off == off0 + tot
        invariant Writing(ip, t, tot, nb, data, bms)
        invariant Paid(c0, ind0, t.nb0, |owner|, ip.addrs[NDIRECT], nb)
        invariant Tracked(old(disk), disk, old(logged), logged)
        decreases |src| - tot
      {
        ghost var c1, ind1, nb1, d1, l1 := |owner|, ip.addrs[NDIRECT], nb, disk, logged;
        ok, m, nb, data, bms := WriteRound(ip, src, off, tot, t, nb, data, bms);
        if !ok {
          ShortNow(c0, ind0, t.nb0, c1, ind1, nb1, nbF, sb.nblocks);
          return;
        }
        PaidStep(c0, ind0, t.nb0, c1, ind1, nb1, |owner|, ip.addrs[NDIRECT], nb);
        TrackedTrans(old(disk), d1, disk, old(logged), l1, logged);
        tot := tot + m;
        off := off + m;
      }
      WritingPaid(ip, t, nb, data, bms, c0);
      ok := true;
    }

    lemma WritingPays(ip: Inode, t: Task)
      requires Ok(ip, BlocksOf(ip.size)) && t.addrs0 == ip.addrs[..] && t.nb0 == BlocksOf(ip.size)
      ensures t.nb0 <= LastBlocks(t.nb0, t.off, |t.src|)
      ensures Paid(|owner|, t.addrs0[NDIRECT], t.nb0, |owner|, ip.addrs[NDIRECT], t.nb0)
    {
      hide FsCore, UsedIs;
      NbInRange(sb, disk, owner, ip.inum, t.nb0, ip.addrs[..]);
    }

    lemma WritingPaid(ip: Inode, t: Task, nb: nat, data: set<nat>, bms: set<nat>, c0: nat)
      requires t.Valid() && Writing(ip, t, |t.src|, nb, data, bms)
      requires Paid(c0, t.addrs0[NDIRECT], t.nb0, |owner|, ip.addrs[NDIRECT], nb)
      ensures nb == LastBlocks(t.nb0, t.off, |t.src|) && t.nb0 <= nb
      ensures |owner| <= sb.nblocks && |owner| == c0 + Cost(t.nb0, t.addrs0[NDIRECT], nb)
    {
      hide FsOk, BlocksOf, OthersSame, BytesAre, Budget, SameInodes, Touched;
      OwnerCount(sb, disk, owner, ip.inum, nb, ip.addrs[..]);
    }

    /** The blocks a write of n bytes at off would have to allocate. */
    ghost function BlocksFor(ip: Inode, off: nat, n: nat): (r: nat)
      requires Valid(ip)
      reads this, ip, ip.addrs
    {
      Cost(BlocksOf(ip.size), ip.addrs[NDIRECT], LastBlocks(BlocksOf(ip.size), off, n))
    }

    /** The part of writei after its argument checks. */
    method WriteData(ip: Inode, src: seq<byte>, off: nat) returns (ok: bool)
      requires Valid(ip) && off <= ip.size && off + |src| <= MAXBYTES
      modifies this, ip`size, ip.addrs
      ensures ok ==> Valid(ip) && OthersSame(sb, old(disk), disk, ip.inum)
      ensures ok ==> ip.size == (if off + |src| > old(ip.size) then off + |src| else old(ip.size))
      ensures ok ==> Contents(ip) == Splice(old(Contents(ip)), off, src)
      ensures ok && |src| <= 1536 ==> WithinBudget(sb, logged - old(logged))
      ensures ok ==> Tracked(old(disk), disk, old(logged), logged)
      ensures ok <==> old(BlocksFor(ip, off, |src|)) <= |FreeBlocks(sb, old(disk))|
      ensures ok ==> |FreeBlocks(sb, disk)| == |FreeBlocks(sb, old(disk))| - old(BlocksFor(ip, off, |src|))
      ensures ok ==> Paid(|old(owner)|, old(ip.addrs[NDIRECT]), BlocksOf(old(ip.size)),
          |owner|, ip.addrs[NDIRECT], BlocksOf(ip.size))
      ensures !ok ==> DiskFull(sb, disk)
    {
      hide FsOk, OthersSame, ReadInode, FileBytes, BlocksOf, LastBlocks, Cost, DiskFull, FreeBlocks, Tracked, Paid,
        Fs.Writing, Splice,
        WithinBudget;
      OwnerCount(sb, disk, owner, ip.inum, BlocksOf(ip.size), ip.addrs[..]);
      ghost var size, t := ip.size, Task(src, off, disk, ip.addrs[..], BlocksOf(ip.size), logged);
      WriteStart(off, size, logged, 0);
      OkBasics(sb, disk, owner, ip.inum, t.nb0, t.addrs0);
      ghost var nb, data, bms;
      ok, nb, data, bms := WriteLoop(ip, src, off, t);
      if !ok { return; }
      ghost var d1, l1 := disk, logged;
      FinishWrite(ip, src, off, t, nb, data, bms);
      TrackedTrans(old(disk), d1, disk, old(logged), l1, logged);
      OwnerCount(sb, disk, owner, ip.inum, nb, ip.addrs[..]);
    }

    /** The end of writei: a longer file's inode is written through. */
    method FinishWrite(ip: Inode, src: seq<byte>, off: nat, ghost t: Task, ghost nb: nat, ghost data: set<nat>,
                       ghost bms: set<nat>)
      requires t.Valid() && src == t.src && off == t.off && Writing(ip, t, |src|, nb, data, bms)
      requires t.nb0 == BlocksOf(ip.size) && off <= ip.size && ip.inum < sb.ninodes && sb.Valid()
      requires 0 < sb.size <= |t.d0|
      requires ReadInode(sb, t.d0, ip.inum) == ip.Image().(addrs := ReadInode(sb, t.d0, ip.inum).addrs)
      requires ReadInode(sb, t.d0, ip.inum).addrs == t.addrs0
      modifies this`disk, this`logged, ip`size
      ensures Valid(ip) && OthersSame(sb, t.d0, disk, ip.inum) && BlocksOf(ip.size) == nb
      ensures ip.size == (if off + |src| > old(ip.size) then off + |src| else old(ip.size))
      ensures Contents(ip) == Splice(FileBytes(t.d0, t.addrs0, old(ip.size)), off, src)
      ensures |src| <= 1536 ==> WithinBudget(sb, logged - t.logged0)
      ensures Tracked(old(disk), disk, old(logged), logged)
    {
      hide FsOk, OthersSame, BytesAre, Budget, SameInodes, Touched, ReadInode, FileBytes, Progress, BlocksOf, Tracked,
        Splice;
      var n := |src|;
      ghost var size' := if off + n > ip.size then off + n else ip.size;
      ghost var d1: Disk, logged1 := disk, logged;
      TrackedSelf(disk, logged);
      TaskDone(sb, ip.inum, disk, ip.addrs[..], logged, t, nb, data, bms, ip.size, size');
      OkBasics(sb, disk, owner, ip.inum, nb, ip.addrs[..]);
      InodesSame(sb, t.d0, disk, ip.inum);
      if n > 0 && off + n > ip.size {
        ip.size := off + n;
        Iupdate(ip, nb);
        OthersSameTrans(sb, t.d0, d1, disk, ip.inum);
        SameBytes(sb, d1, disk, owner, ip.inum, nb, ip.addrs[..], size');
      }
      SubsetCard(logged - t.logged0, logged1 + {sb.IBlock(ip.inum)} - t.logged0);
    }

    /** writei. ok is false on a panic (no free block); dev is what the device's write routine, if any, returns. */
    method Writei(ip: Inode, src: seq<byte>, off: word, dev: Option<int>) returns (r: int, ok: bool)
      requires Valid(ip) && |src| < UINT
      modifies this, ip`size, ip.addrs
      ensures ip.typ == T_DEV ==>
        ok && disk == old(disk) && r == (if 0 <= ip.major < NDEV && dev.Some? then dev.value else -1)
      ensures ok && ip.typ != T_DEV ==> Valid(ip) && OthersSame(sb, old(disk), disk, ip.inum)
      ensures ok && ip.typ != T_DEV ==> r == if Refused(old(ip.size), off, |src|) then -1 else |src|
      ensures ok && ip.typ != T_DEV && r == -1 ==> disk == old(disk) && logged == old(logged) && owner == old(owner)
      ensures ok && ip.typ != T_DEV && r == -1 ==> ip.addrs[..] == old(ip.addrs[..])
      ensures ok && ip.typ != T_DEV && r == -1 ==> ip.size == old(ip.size) && Contents(ip) == old(Contents(ip))
      ensures ok && ip.typ != T_DEV && r != -1 ==>
        off <= |old(Contents(ip))| && Contents(ip) == Splice(old(Contents(ip)), off, src)
      ensures ok && ip.typ != T_DEV && |src| <= 1536 ==> WithinBudget(sb, logged - old(logged))
      ensures ok ==> Tracked(old(disk), disk, old(logged), logged)
      ensures sb.Valid() && sb.size <= |old(disk)|
      ensures !ok <==> ip.typ != T_DEV && !Refused(old(ip.size), off, |src|)
                       && old(BlocksFor(ip, off, |src|)) > |FreeBlocks(sb, old(disk))|
      ensures ok && ip.typ != T_DEV && r != -1 ==>
        |FreeBlocks(sb, disk)| == |FreeBlocks(sb, old(disk))| - old(BlocksFor(ip, off, |src|))
      ensures ok && ip.typ != T_DEV && r != -1 ==> Paid(|old(owner)|, old(ip.addrs[NDIRECT]),
          BlocksOf(old(ip.size)), |owner|, ip.addrs[NDIRECT], BlocksOf(ip.size))
      ensures !ok ==> DiskFull(sb, disk)
    {
      hide Fs.Valid, Fs.Contents, Fs.BlocksFor, Paid, OthersSame, DiskFull, FreeBlocks, Splice, Tracked, WithinBudget,
        Refused, BlocksOf;
      TrackedSelf(disk, logged);
      ValidMeans(ip);
      ok := true;
      if ip.typ == T_DEV {
        r := if ip.major < 0 || ip.major >= NDEV || dev.None? then -1 else dev.value;
        return;
      }
      NothingLogged(sb, logged);
      RefusedMeans(ip.size, off, |src|);
      if off > ip.size || (off + |src|) % UINT < off { return -1, true; }
      if (off + |src|) % UINT > MAXBYTES { return -1, true; }
      ok := WriteData(ip, src, off);
      r := |src|;
    }

    lemma ValidMeans(ip: Inode)
      requires Valid(ip)
      ensures sb.Valid() && sb.size <= |disk| && OthersSame(sb, disk, disk, ip.inum)
      ensures ip.addrs.Length == NDIRECT + 1 && |Contents(ip)| == ip.size
    {
      hide FsOk, OthersSame, ReadInode;
      OkBasics(sb, disk, owner, ip.inum, BlocksOf(ip.size), ip.addrs[..]);
      SelfSame(sb, disk, owner, ip.inum, BlocksOf(ip.size), ip.addrs[..]);
    }

    /** begin_op, as far as this transaction's own blocks go. */
    method BeginOp(ip: Inode)
      requires Valid(ip)
      modifies this`logged
      ensures Valid(ip) && logged == {} && Contents(ip) == old(Contents(ip))
    {
      logged := {};
    }

    /** readi: the slice of the file that lies in [off, off+n). Nothing changes, so no block is allocated. */
    method Readi(ip: Inode, off0: word, n0: word, dev: Option<(int, seq<byte>)>) returns (r: int, dst: seq<byte>,
                 ok: bool)
      requires Valid(ip)
      modifies this, ip.addrs
      ensures disk == old(disk) && ip.addrs[..] == old(ip.addrs[..]) && owner == old(owner) && logged == old(logged)
      ensures ip.typ == T_DEV ==> ok && r == (if 0 <= ip.major < NDEV && dev.Some? then dev.value.0 else -1)
      ensures ip.typ != T_DEV ==> ok && (r == -1 <==> off0 > ip.size || off0 + n0 >= UINT)
      ensures ip.typ != T_DEV && r != -1 ==> r == |dst| == (if off0 + n0 > ip.size then ip.size - off0 else n0)
      ensures ip.typ != T_DEV && r != -1 ==> dst == Contents(ip)[off0..off0 + r]
    {
      hide FsOk, OthersSame, ReadInode, BlockNo, OwnKept, SameInodes;
      r, dst, ok := -1, [], true;
      if ip.typ == T_DEV {
        if !(ip.major < 0 || ip.major >= NDEV || dev.None?) { r, dst := dev.value.0, dev.value.1; }
        return;
      }
      if off0 > ip.size || (off0 + n0) % UINT < off0 { return; }
      var n := if off0 + n0 > ip.size then ip.size - off0 else n0;
      ghost var nb, as0: seq<nat> := BlocksOf(ip.size), ip.addrs[..];
      OkBasics(sb, disk, owner, ip.inum, nb, as0);
      var tot, off, m := 0, off0, 0;
      while tot < n
        invariant tot <= n && off == off0 + tot
        invariant Valid(ip) && disk == old(disk) && ip.addrs[..] == as0 && owner == old(owner) && logged == old(logged)
        invariant |dst| == tot && forall i :: 0 <= i < tot ==> dst[i] == FileByte(disk, as0, off0 + i)
        decreases n - tot
      {
        assert off / BSIZE < nb;
        ghost var bms;
        var a;
        a, bms := Bmap(ip, off / BSIZE, nb);
        m := if n - tot < BSIZE - off % BSIZE then n - tot else BSIZE - off % BSIZE;
        var bp := disk[a.value];
        dst := dst + bp[off % BSIZE..off % BSIZE + m];
        forall i | tot <= i < tot + m ensures dst[i] == FileByte(disk, as0, off0 + i) {
          assert (off0 + i) / BSIZE == off / BSIZE && (off0 + i) % BSIZE == off % BSIZE + (i - tot);
        }
        tot := tot + m;
        off := off + m;
      }
      r := n;
      assert dst == Contents(ip)[off0..off0 + n];
    }

    /** Free the block in slot k, if there is one. */
    method FreeBlock(b: nat, ghost d0: Disk, ghost inum: nat, ghost nb: nat, ghost as0: seq<nat>, ghost done: set<nat>,
                     ghost k: nat, ghost l0: set<nat>) returns (ok: bool)
      requires FsCore(sb, d0, owner, inum, nb, as0) && Freeing(sb, disk, d0, owner, inum, done) && k < SLOTS
      requires k !in done && LogsFreed(sb, d0, disk, l0, logged, owner, inum, done)
      requires b == Slot(d0, as0, k)
      modifies this`disk, this`logged
      ensures ok && Freeing(sb, disk, d0, owner, inum, done + {k})
      ensures LogsFreed(sb, d0, disk, l0, logged, owner, inum, done + {k})
    {
      hide FsCore, Freeing, MarkFree, Used, LogsFreed;
      OwnedAreData(sb, d0, owner, inum, nb, as0);
      FreeSlot(sb, disk, d0, owner, inum, nb, as0, done, k);
      FreeingSize(sb, disk, d0, owner, inum, done);
      FreedLogs(sb, d0, disk, l0, logged, owner, inum, nb, as0, done, k);
      ok := true;
      if b != 0 {
        ok := Bfree(b);
      }
    }

    /** itrunc: frees exactly the blocks the inode owns and never hits "freeing free block". */
    method Itrunc(ip: Inode) returns (ok: bool)
      requires Valid(ip)
      modifies this, ip`size, ip.addrs
      ensures ok && Valid(ip) && ip.size == 0 && Contents(ip) == []
      ensures owner == OthersOnly(old(owner), ip.inum) && UsedIs(sb, disk, owner.Keys)
      ensures OthersSame(sb, old(disk), disk, ip.inum)
      ensures Tracked(old(disk), disk, old(logged), logged)
      ensures logged == old(logged) + BitmapsOf(sb, OwnBlocks(old(owner), ip.inum)) + {sb.IBlock(ip.inum)}
    {
      hide Range, FsCore, Freeing, UsedIs, OthersSame, ReadInode, BlocksOf, Slot, Tracked, BitmapsOf, Without;
      ghost var d0: Disk, nb, as0: seq<nat> := disk, BlocksOf(ip.size), ip.addrs[..];
      OwnedAreData(sb, disk, owner, ip.inum, nb, as0);
      StartFreeing(sb, disk, owner, ip.inum, nb, as0);
      NoneFreed(sb, disk, logged, owner, ip.inum);
      ghost var l0 := logged;
      FreeDirect(ip, d0, nb, as0, l0);
      ghost var done := Range(0, SLOTS);
      if ip.addrs[NDIRECT] != 0 {
        done := FreeIndirect(ip, d0, nb, as0, Range(0, NDIRECT), l0);
        ip.addrs[NDIRECT] := 0;
      } else {
        NoIndirect(sb, disk, d0, owner, ip.inum, nb, as0, Range(0, NDIRECT), done);
      }
      ghost var d1: Disk, l1 := disk, logged;
      AllFreed(sb, disk, d0, owner, ip.inum, nb, as0, done, ip.addrs[..]);
      owner := OthersOnly(owner, ip.inum);
      ip.size := 0;
      Iupdate(ip, 0);
      OthersSameTrans(sb, d0, d1, disk, ip.inum);
      TrackedTrans(d0, d1, disk, l0, l1, logged);
      NoBlocks(ip.size);
      ok := true;
    }

    /** The first loop of itrunc. */
    method FreeDirect(ip: Inode, ghost d0: Disk, ghost nb: nat, ghost as0: seq<nat>, ghost l0: set<nat>)
      requires FsCore(sb, d0, owner, ip.inum, nb, as0) && Freeing(sb, disk, d0, owner, ip.inum, {})
      requires ip.addrs.Length == NDIRECT + 1 && ip.addrs[..] == as0
      requires LogsFreed(sb, d0, disk, l0, logged, owner, ip.inum, {})
      modifies this`disk, this`logged, ip.addrs
      ensures Freeing(sb, disk, d0, owner, ip.inum, Range(0, NDIRECT))
      ensures LogsFreed(sb, d0, disk, l0, logged, owner, ip.inum, Range(0, NDIRECT))
      ensures (forall k :: 0 <= k < NDIRECT ==> ip.addrs[k] == 0) && ip.addrs[NDIRECT] == as0[NDIRECT]
    {
      hide Range, FsCore, Freeing, LogsFreed;
      assert Range(0, 0) == {};
      var i := 0;
      while i < NDIRECT
        invariant i <= NDIRECT && Freeing(sb, disk, d0, owner, ip.inum, Range(0, i))
        invariant LogsFreed(sb, d0, disk, l0, logged, owner, ip.inum, Range(0, i))
        invariant forall k :: 0 <= k < i ==> ip.addrs[k] == 0
        invariant forall k :: i <= k <= NDIRECT ==> ip.addrs[k] == as0[k]
      {
        if ip.addrs[i] != 0 {
          var ok := FreeBlock(ip.addrs[i], d0, ip.inum, nb, as0, Range(0, i), i, l0);
          ip.addrs[i] := 0;
        } else {
          FreeSlot(sb, disk, d0, owner, ip.inum, nb, as0, Range(0, i), i);
          FreeingSize(sb, disk, d0, owner, ip.inum, Range(0, i));
          FreedLogs(sb, d0, disk, l0, logged, owner, ip.inum, nb, as0, Range(0, i), i);
        }
        assert Range(0, i) + {i} == Range(0, i + 1);
        i := i + 1;
      }
    }

    /** The second half of itrunc's freeing: the entries of the indirect block, then the block itself. */
    method FreeIndirect(ip: Inode, ghost d0: Disk, ghost nb: nat, ghost as0: seq<nat>,
                        ghost done0: set<nat>, ghost l0: set<nat>) returns (ghost done: set<nat>)
      requires FsCore(sb, d0, owner, ip.inum, nb, as0) && Freeing(sb, disk, d0, owner, ip.inum, done0)
      requires done0 == Range(0, NDIRECT) && LogsFreed(sb, d0, disk, l0, logged, owner, ip.inum, done0)
      requires ip.addrs.Length == NDIRECT + 1 && ip.addrs[NDIRECT] == as0[NDIRECT] != 0
      modifies this`disk, this`logged
      ensures Freeing(sb, disk, d0, owner, ip.inum, done) && forall k :: 0 <= k < SLOTS ==> k in done
      ensures LogsFreed(sb, d0, disk, l0, logged, owner, ip.inum, done)
    {
      hide Range, FsCore, Freeing, UsedIs, Word, LogsFreed;
      OwnedAreData(sb, d0, owner, ip.inum, nb, as0);
      IndirectOwned(sb, d0, owner, ip.inum, nb, as0, ip.inum);
      FreeingSize(sb, disk, d0, owner, ip.inum, done0);
      var bp := disk[ip.addrs[NDIRECT]];
      done := done0;
      var j := 0;
      while j < NINDIRECT
        invariant j <= NINDIRECT && Freeing(sb, disk, d0, owner, ip.inum, done)
        invariant LogsFreed(sb, d0, disk, l0, logged, owner, ip.inum, done)
        invariant forall k :: 0 <= k < SLOTS ==> (k in done <==> k < NDIRECT || NDIRECT < k <= NDIRECT + j)
      {
        var b := Word(bp, j);
        assert b == Slot(d0, as0, NDIRECT + 1 + j);
        var ok := FreeBlock(b, d0, ip.inum, nb, as0, done, NDIRECT + 1 + j, l0);
        done := done + {NDIRECT + 1 + j};
        j := j + 1;
      }
      var ok := FreeBlock(ip.addrs[NDIRECT], d0, ip.inum, nb, as0, done, NDIRECT, l0);
      done := done + {NDIRECT};
    }
  }
}
