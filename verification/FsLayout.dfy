/** The on-disk format of fs.c: free bitmap, inode table, direct and indirect block map,
    as functions of the blocks that bread delivers. */
module FsLayout {
  import opened Blocks

  const NDIRECT: nat := 12
  const NINDIRECT: nat := 128
  const MAXFILE: nat := 140
  const IPB: nat := 8
  const BPB: nat := 4096
  const SLOTS: nat := 141  // 13 words of the inode, 128 of the indirect block

  /** The superblock fields the file layer uses. */
  datatype Super = Super(size: nat, nblocks: nat, ninodes: nat, inodestart: nat, bmapstart: nat) {
    function DataStart(): int { size - nblocks }
    function IBlock(inum: nat): nat { inum / IPB + inodestart }
    function BBlock(b: nat): nat { b / BPB + bmapstart }
    /** Inode blocks, then bitmap, then data (fs.h:8-23). */
    predicate Valid() {
      && size < UINT
      && inodestart + ninodes / IPB < bmapstart
      && (size > 0 ==> bmapstart + (size - 1) / BPB < DataStart())
      && 0 <= DataStart() <= size
    }
    predicate IsData(b: int) { DataStart() <= b < size }
  }

  // ---- bits of the free map ----

  function Pow2(k: nat): (m: nat) { if k == 0 then 1 else 2 * Pow2(k - 1) }

  /** (x & 1 << k) != 0 */
  predicate Bit(x: nat, k: nat) { if k == 0 then x % 2 == 1 else Bit(x / 2, k - 1) }

  /** x | 1 << k, on w bits */
  function SetBit(x: nat, k: nat, w: nat): (r: nat)
    requires k < w && x < Pow2(w)
    ensures r < Pow2(w)
  {
    if k == 0 then x / 2 * 2 + 1 else SetBit(x / 2, k - 1, w - 1) * 2 + x % 2
  }

  /** x & ~(1 << k) */
  function ClearBit(x: nat, k: nat): (r: nat)
    ensures r <= x
  {
    if k == 0 then x / 2 * 2 else ClearBit(x / 2, k - 1) * 2 + x % 2
  }

  lemma {:induction false} BitOfSet(x: nat, k: nat, w: nat, j: nat)
    requires k < w && x < Pow2(w)
    ensures Bit(SetBit(x, k, w), j) <==> j == k || Bit(x, j)
  {
    var r := SetBit(x, k, w);
    if k > 0 && j > 0 {
      BitOfSet(x / 2, k - 1, w - 1, j - 1);
      assert r / 2 == SetBit(x / 2, k - 1, w - 1);
    } else if k == 0 && j > 0 {
      assert r / 2 == x / 2;
    }
  }

  lemma {:induction false} BitOfClear(x: nat, k: nat, j: nat)
    ensures Bit(ClearBit(x, k), j) <==> j != k && Bit(x, j)
  {
    var r := ClearBit(x, k);
    if k > 0 && j > 0 {
      BitOfClear(x / 2, k - 1, j - 1);
      assert r / 2 == ClearBit(x / 2, k - 1);
    } else if k == 0 && j > 0 {
      assert r / 2 == x / 2;
    }
  }

  /** Is block b marked in use? */
  predicate Used(sb: Super, d: Disk, b: nat)
    requires sb.Valid() && sb.size <= |d| && b < sb.size
  {
    Bit(d[sb.BBlock(b)][b % BPB / 8], b % 8)
  }

  function MarkUsed(sb: Super, d: Disk, b: nat): (r: Disk)
    requires sb.Valid() && sb.size <= |d| && b < sb.size
  {
    var bp := d[sb.BBlock(b)];
    assert Pow2(8) == 256;
    d[sb.BBlock(b) := bp[b % BPB / 8 := SetBit(bp[b % BPB / 8], b % 8, 8)]]
  }

  function MarkFree(sb: Super, d: Disk, b: nat): (r: Disk)
    requires sb.Valid() && sb.size <= |d| && b < sb.size
  {
    var bp := d[sb.BBlock(b)];
    d[sb.BBlock(b) := bp[b % BPB / 8 := ClearBit(bp[b % BPB / 8], b % 8)]]
  }

  lemma SamePlace(sb: Super, b: nat, c: nat)
    requires sb.BBlock(b) == sb.BBlock(c) && b % BPB / 8 == c % BPB / 8 && b % 8 == c % 8
    ensures b == c
  {
    assert b == b / BPB * BPB + b % BPB / 8 * 8 + b % 8;
    assert c == c / BPB * BPB + c % BPB / 8 * 8 + c % 8;
  }

  lemma MarkedUsed(sb: Super, d: Disk, b: nat)
    requires sb.Valid() && sb.size <= |d| && b < sb.size
    ensures var r := MarkUsed(sb, d, b);
            && |r| == |d|
            && (forall x :: 0 <= x < |d| && x != sb.BBlock(b) ==> r[x] == d[x])
            && forall c :: 0 <= c < sb.size ==> (Used(sb, r, c) <==> c == b || Used(sb, d, c))
  {
    hide SetBit, Bit;
    var r := MarkUsed(sb, d, b);
    forall c | 0 <= c < sb.size ensures Used(sb, r, c) <==> c == b || Used(sb, d, c) {
      assert Pow2(8) == 256;
      if sb.BBlock(b) == sb.BBlock(c) && b % BPB / 8 == c % BPB / 8 {
        BitOfSet(d[sb.BBlock(b)][b % BPB / 8], b % 8, 8, c % 8);
        if b % 8 == c % 8 { SamePlace(sb, b, c); }
      }
    }
  }

  lemma MarkedFree(sb: Super, d: Disk, b: nat)
    requires sb.Valid() && sb.size <= |d| && b < sb.size
    ensures var r := MarkFree(sb, d, b);
            && |r| == |d|
            && (forall x :: 0 <= x < |d| && x != sb.BBlock(b) ==> r[x] == d[x])
            && forall c :: 0 <= c < sb.size ==> (Used(sb, r, c) <==> c != b && Used(sb, d, c))
  {
    hide ClearBit, Bit;
    var r := MarkFree(sb, d, b);
    forall c | 0 <= c < sb.size ensures Used(sb, r, c) <==> c != b && Used(sb, d, c) {
      if sb.BBlock(b) == sb.BBlock(c) && b % BPB / 8 == c % BPB / 8 {
        BitOfClear(d[sb.BBlock(b)][b % BPB / 8], b % 8, c % 8);
        if b % 8 == c % 8 { SamePlace(sb, b, c); }
      }
    }
  }

  // ---- inodes ----

  type short = x: int | -0x8000 <= x < 0x8000

  /** struct dinode: four shorts, the size, and thirteen block addresses. */
  datatype DInode = DInode(typ: short, major: short, minor: short, nlink: short, size: word, addrs: seq<word>) {
    predicate Valid() { |addrs| == NDIRECT + 1 }
  }

  function Unsigned(x: short): (r: nat) { if x < 0 then x + 0x1_0000 else x }
  function Signed(r: int): (x: short) requires 0 <= r < 0x1_0000 { if r < 0x8000 then r else r - 0x1_0000 }

  /** The sixteen words of a dinode. */
  function Pack(i: DInode): (ws: seq<word>)
    requires i.Valid()
    ensures |ws| == 16
  {
    [Unsigned(i.typ) + 0x1_0000 * Unsigned(i.major), Unsigned(i.minor) + 0x1_0000 * Unsigned(i.nlink), i.size] + i.addrs
  }

  function Unpack(ws: seq<word>): (i: DInode)
    requires |ws| == 16
    ensures i.Valid()
  {
    DInode(Signed(ws[0] % 0x1_0000), Signed(ws[0] / 0x1_0000), Signed(ws[1] % 0x1_0000),
        Signed(ws[1] / 0x1_0000), ws[2], ws[3..])
  }

  lemma ShortsRoundTrip(x: short, y: short)
    ensures var w := Unsigned(x) + 0x1_0000 * Unsigned(y);
            0 <= w < 0x1_0000_0000 && Signed(w % 0x1_0000) == x && Signed(w / 0x1_0000) == y
  {}

  lemma UnpackPack(i: DInode)
    requires i.Valid()
    ensures Unpack(Pack(i)) == i
  {
    ShortsRoundTrip(i.typ, i.major);
    ShortsRoundTrip(i.minor, i.nlink);
    hide Unsigned, Signed;
    var ws := Pack(i);
    assert ws[0] == Unsigned(i.typ) + 0x1_0000 * Unsigned(i.major);
    assert ws[1] == Unsigned(i.minor) + 0x1_0000 * Unsigned(i.nlink);
    assert ws[3..] == i.addrs;
  }

  /** ilock's copy of inode inum from its block. */
  function ReadInode(sb: Super, d: Disk, inum: nat): (i: DInode)
    requires sb.Valid() && sb.size <= |d| && inum < sb.ninodes && 0 < sb.size
    ensures i.Valid()
  {
    InodeInRange(sb, inum);
    var bp := d[sb.IBlock(inum)];
    Unpack(Words(bp, 16 * (inum % IPB), 16))
  }

  /** iupdate's write-through of inode inum. */
  function WriteInode(sb: Super, d: Disk, inum: nat, i: DInode): (r: Disk)
    requires sb.Valid() && sb.size <= |d| && inum < sb.ninodes && 0 < sb.size && i.Valid()
  {
    InodeInRange(sb, inum);
    d[sb.IBlock(inum) := SetWords(d[sb.IBlock(inum)], 16 * (inum % IPB), Pack(i))]
  }

  lemma InodeInRange(sb: Super, inum: nat)
    requires sb.Valid() && inum < sb.ninodes && 0 < sb.size
    ensures sb.inodestart <= sb.IBlock(inum) < sb.bmapstart < sb.DataStart() <= sb.size
  {}

  lemma ReadOfWrite(sb: Super, d: Disk, inum: nat, i: DInode, j: nat)
    requires sb.Valid() && sb.size <= |d| && inum < sb.ninodes && j < sb.ninodes && 0 < sb.size && i.Valid()
    ensures ReadInode(sb, WriteInode(sb, d, inum, i), j) == if j == inum then i else ReadInode(sb, d, j)
  {
    hide Word, SetWords, Pack, Unpack, Words;
    InodeInRange(sb, inum);
    InodeInRange(sb, j);
    var r := WriteInode(sb, d, inum, i);
    var before, after := d[sb.IBlock(inum)], r[sb.IBlock(inum)];
    if sb.IBlock(j) == sb.IBlock(inum) {
      var l, q := Words(after, 16 * (j % IPB), 16), Words(before, 16 * (j % IPB), 16);
      forall k | 0 <= k < 16 ensures l[k] == if j == inum then Pack(i)[k] else q[k] {
        WordOfSetWords(before, 16 * (inum % IPB), Pack(i), 16 * (j % IPB) + k);
      }
      if j == inum {
        assert l == Pack(i);
        UnpackPack(i);
      } else {
        assert l == q;
      }
    }
  }

  // ---- the block map ----

  /** Word k of inode and indirect block together: 0..11 direct, 12 the indirect block, 13..140 its entries. */
  function Slot(d: Disk, addrs: seq<nat>, k: nat): (b: nat)
    requires |addrs| == NDIRECT + 1 && k < SLOTS
  {
    if k <= NDIRECT then addrs[k]
    else if addrs[NDIRECT] == 0 || addrs[NDIRECT] >= |d| then 0
    else Word(d[addrs[NDIRECT]], k - NDIRECT - 1)
  }

  /** The slot that maps block bn of a file. */
  function SlotOf(bn: nat): (k: nat) { if bn < NDIRECT then bn else bn + 1 }

  function BlockNo(d: Disk, addrs: seq<nat>, bn: nat): (b: nat)
    requires |addrs| == NDIRECT + 1 && bn < MAXFILE
  {
    Slot(d, addrs, SlotOf(bn))
  }

  /** Exactly the first nb blocks of the file are mapped, the indirect block if any lies beyond. */
  ghost predicate MapOk(d: Disk, nb: nat, addrs: seq<nat>) {
    && |addrs| == NDIRECT + 1 && nb <= MAXFILE
    && (forall bn :: 0 <= bn < MAXFILE ==> (BlockNo(d, addrs, bn) != 0 <==> bn < nb))
    && (nb > NDIRECT ==> addrs[NDIRECT] != 0)
    && (addrs[NDIRECT] != 0 ==> nb >= NDIRECT)
  }

  /** Blocks that hold size bytes. */
  function BlocksOf(size: nat): (nb: nat) { (size + BSIZE - 1) / BSIZE }

  type Owner = map<nat, (nat, nat)>  // block -> (inode, slot)

  ghost predicate OwnsOk(d: Disk, owner: Owner, inum: nat, addrs: seq<nat>)
    requires |addrs| == NDIRECT + 1
  {
    forall k :: 0 <= k < SLOTS && Slot(d, addrs, k) != 0 ==>
      Slot(d, addrs, k) in owner && owner[Slot(d, addrs, k)] == (inum, k)
  }

  /** Inode j's addresses and mapped length, taking inode inum from memory. */
  ghost function AddrsOf(sb: Super, d: Disk, inum: nat, addrs: seq<nat>, j: nat): (r: seq<nat>)
    requires sb.Valid() && 0 < sb.size <= |d| && j < sb.ninodes && |addrs| == NDIRECT + 1
    ensures |r| == NDIRECT + 1
  {
    if j == inum then addrs else ReadInode(sb, d, j).addrs
  }

  ghost function LenOf(sb: Super, d: Disk, inum: nat, nb: nat, j: nat): (r: nat)
    requires sb.Valid() && 0 < sb.size <= |d| && j < sb.ninodes
  {
    if j == inum then nb else BlocksOf(ReadInode(sb, d, j).size)
  }

  /** The file system with inode inum in memory (nb blocks mapped by addrs) and the rest on disk:
      every block reachable from an inode is a data block reachable from exactly one place. */
  ghost predicate FsCore(sb: Super, d: Disk, owner: Owner, inum: nat, nb: nat, addrs: seq<nat>) {
    && sb.Valid() && 0 < sb.size <= |d| && inum < sb.ninodes && |addrs| == NDIRECT + 1
    && (forall j :: 0 <= j < sb.ninodes ==>
          MapOk(d, LenOf(sb, d, inum, nb, j), AddrsOf(sb, d, inum, addrs, j))
          && OwnsOk(d, owner, j, AddrsOf(sb, d, inum, addrs, j)))
    && forall b :: b in owner ==>
         && sb.IsData(b) && b != 0
         && owner[b].0 < sb.ninodes && owner[b].1 < SLOTS
         && Slot(d, AddrsOf(sb, d, inum, addrs, owner[b].0), owner[b].1) == b
  }

  /** The bitmap marks the metadata blocks and the blocks in s, nothing else. */
  ghost predicate UsedIs(sb: Super, d: Disk, s: set<nat>)
    requires sb.Valid() && sb.size <= |d|
  {
    forall b :: 0 <= b < sb.size ==> (Used(sb, d, b) <==> b < sb.DataStart() || b in s)
  }

  ghost predicate FsOk(sb: Super, d: Disk, owner: Owner, inum: nat, nb: nat, addrs: seq<nat>) {
    FsCore(sb, d, owner, inum, nb, addrs) && UsedIs(sb, d, owner.Keys)
  }
}
