/** filewrite (file.c): one transaction of the log per chunk, and what each leaves on the disk. */
module FileWrite {
  import A = Admission
  import opened Blocks
  import opened Common
  import opened Files
  import opened FsEffects
  import opened FsLayout

  const CHUNK: nat := 1536

  /** What one transaction writes: beside the inode, the indirect block and two blocks of slop, half of the rest of
      the budget, since each data block may need its bitmap block. */
  lemma ChunkIs()
    ensures CHUNK == (A.MAXOPBLOCKS - 1 - 1 - 2) / 2 * BSIZE
  {}

  /** struct file, for an ordinary file. */
  class File {
    const ip: Inode
    const writable: bool
    var off: word

    constructor (ip: Inode, writable: bool)
      ensures this.ip == ip && this.writable == writable && off == 0
    {
      this.ip, this.writable, off := ip, writable, 0;
    }
  }

  lemma SpliceTwice(s: seq<byte>, off: nat, a: seq<byte>, b: seq<byte>)
    requires off <= |s|
    ensures Splice(Splice(s, off, a), off + |a|, b) == Splice(s, off, a + b)
  {}

  lemma SpliceNothing(s: seq<byte>, off: nat)
    requires off <= |s|
    ensures Splice(s, off, []) == s
  {}

  // ---- one call ----

  /** A call of filewrite: what it writes where, and what it started on: the disk, the file's bytes, the count of
      owned blocks, the file's indirect block and its number of blocks. */
  datatype Job = Job(src: seq<byte>, off: nat, d0: Disk, c0: seq<byte>, spent: nat, ind: nat, nb: nat)

  /** The file's bytes after the first i bytes of src. */
  ghost function Part(j: Job, i: nat): (c: seq<byte>) {
    if j.off <= |j.c0| && i <= |j.src| then Splice(j.c0, j.off, j.src[..i]) else j.c0
  }

  /** Where filewrite stands after i bytes. */
  ghost predicate Advanced(fs: Fs, f: File, j: Job, i: nat)
    reads fs, f, f.ip, f.ip.addrs
  {
    && fs.Valid(f.ip) && f.ip.typ != T_DEV && OthersSame(fs.sb, j.d0, fs.disk, f.ip.inum)
    && i <= |j.src| && f.off == j.off + i
    && (i > 0 ==> j.off <= |j.c0| && j.off + i <= MAXBYTES)
    && fs.Contents(f.ip) == Part(j, i)
    && j.nb == BlocksOf(|j.c0|)
    && Paid(j.spent, j.ind, j.nb, |fs.owner|, f.ip.addrs[NDIRECT], BlocksOf(f.ip.size))
  }

  /** A finished transaction: the blocks it logged and the disk it left. */
  datatype Txn = Txn(blocks: set<nat>, image: Disk)

  /** The disk before transaction k. */
  ghost function Before(j: Job, txns: seq<Txn>, k: nat): (d: Disk)
    requires k <= |txns|
  {
    if k == 0 then j.d0 else txns[k - 1].image
  }

  /** The bytes written by the end of transaction k, if i are written in all. */
  function EndOf(k: nat, i: nat): (n: nat) { if (k + 1) * CHUNK < i then (k + 1) * CHUNK else i }

  /** Inode inum as it stands on disk is part of a sound file system and holds c. */
  ghost predicate DiskHolds(sb: Super, d: Disk, inum: nat, c: seq<byte>) {
    && sb.Valid() && 0 < sb.size <= |d| && inum < sb.ninodes
    && DiskSound(sb, d, inum) && Content(sb, d, inum) == c
  }

  ghost predicate DiskSound(sb: Super, d: Disk, inum: nat)
    requires sb.Valid() && 0 < sb.size <= |d| && inum < sb.ninodes
  {
    var i := ReadInode(sb, d, inum);
    exists owner: Owner :: FsOk(sb, d, owner, inum, BlocksOf(i.size), i.addrs)
  }

  /** Transaction k stayed within budget, changed only blocks it logged, and left a whole number of chunks. */
  ghost predicate TxnAt(sb: Super, inum: nat, j: Job, i: nat, txns: seq<Txn>, k: nat) {
    && k < |txns| && WithinBudget(sb, txns[k].blocks)
    && Tracked(Before(j, txns, k), txns[k].image, {}, txns[k].blocks)
    && DiskHolds(sb, txns[k].image, inum, Part(j, EndOf(k, i)))
  }

  ghost predicate TxnsOk(sb: Super, inum: nat, j: Job, i: nat, txns: seq<Txn>) {
    forall k :: 0 <= k < |txns| ==> TxnAt(sb, inum, j, i, txns, k)
  }

  lemma ValidHolds(fs: Fs, ip: Inode)
    requires fs.Valid(ip)
    ensures DiskHolds(fs.sb, fs.disk, ip.inum, fs.Contents(ip))
  {
    hide FsOk, FileBytes, ReadInode;
    OkBasics(fs.sb, fs.disk, fs.owner, ip.inum, BlocksOf(ip.size), ip.addrs[..]);
  }

  lemma JobStarts(fs: Fs, f: File, j: Job)
    requires fs.Valid(f.ip) && f.ip.typ != T_DEV && j.off == f.off && j.d0 == fs.disk && j.c0 == fs.Contents(f.ip)
    requires j.spent == |fs.owner| && j.ind == f.ip.addrs[NDIRECT] && j.nb == BlocksOf(f.ip.size)
    ensures Advanced(fs, f, j, 0)
  {
    hide FsCore, UsedIs, OthersSame, ReadInode, BlocksOf;
    SelfSame(fs.sb, fs.disk, fs.owner, f.ip.inum, j.nb, f.ip.addrs[..]);
    NbInRange(fs.sb, fs.disk, fs.owner, f.ip.inum, j.nb, f.ip.addrs[..]);
    if j.off <= |j.c0| { SpliceNothing(j.c0, j.off); }
    assert j.src[..0] == [];
  }

  /** The next n1 bytes after the first i. */
  lemma PartStep(j: Job, i: nat, n1: nat)
    requires j.off <= |j.c0| && i + n1 <= |j.src|
    ensures j.off + i <= |Part(j, i)| && Part(j, i + n1) == Splice(Part(j, i), j.off + i, j.src[i..i + n1])
    ensures |Part(j, i)| == if j.off + i > |j.c0| then j.off + i else |j.c0|
  {
    SpliceTwice(j.c0, j.off, j.src[..i], j.src[i..i + n1]);
    assert j.src[..i] + j.src[i..i + n1] == j.src[..i + n1];
  }

  lemma TxnAdded(sb: Super, inum: nat, j: Job, i: nat, i': nat, txns: seq<Txn>, t: Txn)
    requires TxnsOk(sb, inum, j, i, txns) && i == |txns| * CHUNK && i <= i' <= i + CHUNK
    requires WithinBudget(sb, t.blocks) && Tracked(Before(j, txns, |txns|), t.image, {}, t.blocks)
    requires DiskHolds(sb, t.image, inum, Part(j, i'))
    ensures TxnsOk(sb, inum, j, i', txns + [t])
  {
    hide DiskHolds, Tracked, WithinBudget, Part;
    var all := txns + [t];
    forall k | 0 <= k < |all|
      ensures TxnAt(sb, inum, j, i', all, k)
    {
      if k < |txns| {
        assert TxnAt(sb, inum, j, i, txns, k);
        assert EndOf(k, i) == EndOf(k, i') == (k + 1) * CHUNK;
      }
    }
  }

  /** The blocks and the count when i bytes are written. */
  lemma AdvancedCount(fs: Fs, f: File, j: Job, i: nat)
    requires Advanced(fs, f, j, i)
    ensures j.nb <= LastBlocks(j.nb, j.off, i)
    ensures |fs.owner| == j.spent + Cost(j.nb, j.ind, LastBlocks(j.nb, j.off, i)) <= fs.sb.nblocks
    ensures f.ip.size == |Part(j, i)| && BlocksOf(f.ip.size) == LastBlocks(j.nb, j.off, i)
  {
    hide FsOk, OthersSame, ReadInode;
    OwnerCount(fs.sb, fs.disk, fs.owner, f.ip.inum, BlocksOf(f.ip.size), f.ip.addrs[..]);
    assert |fs.Contents(f.ip)| == f.ip.size;
  }

  /** One transaction of filewrite; r is writei's result. */
  method WriteChunk(fs: Fs, f: File, ghost j: Job, src: seq<byte>, i: nat, n1: nat, ghost txns: seq<Txn>)
    returns (r: int, ok: bool, ghost txns': seq<Txn>)
    requires src == j.src && Advanced(fs, f, j, i) && 0 < n1 <= CHUNK && i + n1 <= |src|
    requires TxnsOk(fs.sb, f.ip.inum, j, i, txns) && i == |txns| * CHUNK && fs.disk == Before(j, txns, |txns|)
    modifies fs, f, f.ip`size, f.ip.addrs
    ensures ok ==> r == if j.off <= |j.c0| && j.off + i + n1 <= MAXBYTES then n1 else -1
    ensures ok ==> Advanced(fs, f, j, if r < 0 then i else i + n1)
    ensures ok ==> |txns'| == |txns| + 1 && fs.disk == txns'[|txns|].image
    ensures ok ==> TxnsOk(fs.sb, f.ip.inum, j, if r < 0 then i else i + n1, txns')
    ensures !ok ==> j.off <= |j.c0| && j.off + i + n1 <= MAXBYTES && DiskFull(fs.sb, fs.disk)
    ensures !ok ==> j.nb <= LastBlocks(j.nb, j.off, i + n1)
                    && j.spent + Cost(j.nb, j.ind, LastBlocks(j.nb, j.off, i + n1)) > fs.sb.nblocks
  {
    hide Fs.Valid, OthersSame, TxnsOk, DiskFull, Tracked, WithinBudget, Paid, FreeBlocks, Part, Cost, LastBlocks,
      BlocksOf, FileBytes, Splice;
    txns' := [];
    AdvancedCount(fs, f, j, i);
    JobRefuses(j, i, n1, f.ip.size);
    JobFree(fs, f, j, i);
    ghost var d1, c1, ind1, nb1 := fs.disk, |fs.owner|, f.ip.addrs[NDIRECT], BlocksOf(f.ip.size);
    fs.BeginOp(f.ip);
    r, ok := fs.Writei(f.ip, src[i..i + n1], f.off, None);
    if !ok {
      ChunkShort(j, i, n1, c1, ind1, nb1, fs.sb.nblocks);
      return;
    }
    txns' := txns + [Txn(fs.logged, fs.disk)];  // end_op
    OthersSameTrans(fs.sb, j.d0, d1, fs.disk, f.ip.inum);
    assert fs.logged - {} == fs.logged;
    ValidHolds(fs, f.ip);
    if r > 0 {
      PartStep(j, i, n1);
      f.off := f.off + r;
      PaidTrans(j.spent, j.ind, j.nb, c1, ind1, nb1, |fs.owner|, f.ip.addrs[NDIRECT], BlocksOf(f.ip.size));
    }
    TxnAdded(fs.sb, f.ip.inum, j, i, if r < 0 then i else i + n1, txns, txns'[|txns|]);
  }

  lemma JobRefuses(j: Job, i: nat, n1: nat, size: nat)
    requires i + n1 <= |j.src| && size == |Part(j, i)| && (i > 0 ==> j.off <= |j.c0|)
    ensures Refused(size, j.off + i, n1) <==> !(j.off <= |j.c0| && j.off + i + n1 <= MAXBYTES)
  {}

  lemma JobFree(fs: Fs, f: File, j: Job, i: nat)
    requires Advanced(fs, f, j, i)
    ensures fs.Valid(f.ip) && f.ip.addrs.Length == NDIRECT + 1 && fs.sb.Valid() && fs.sb.size <= |fs.disk|
    ensures |fs.owner| + |FreeBlocks(fs.sb, fs.disk)| == fs.sb.nblocks
  {
    hide FsOk, FreeBlocks, OthersSame;
    OwnerCount(fs.sb, fs.disk, fs.owner, f.ip.inum, BlocksOf(f.ip.size), f.ip.addrs[..]);
  }

  lemma ChunkShort(j: Job, i: nat, n1: nat, c: nat, ind: nat, nb: nat, limit: nat)
    requires Paid(j.spent, j.ind, j.nb, c, ind, nb) && nb == LastBlocks(j.nb, j.off, i) && 0 < n1
    requires nb <= LastBlocks(nb, j.off + i, n1) && c + Cost(nb, ind, LastBlocks(nb, j.off + i, n1)) > limit
    ensures j.nb <= LastBlocks(j.nb, j.off, i + n1)
    ensures j.spent + Cost(j.nb, j.ind, LastBlocks(j.nb, j.off, i + n1)) > limit
  {
    hide Cost, Paid;
    assert LastBlocks(nb, j.off + i, n1) == LastBlocks(j.nb, j.off, i + n1);
    ShortLater(j.spent, j.ind, j.nb, c, ind, nb, LastBlocks(nb, j.off + i, n1), limit);
  }

  // ---- the whole call ----

  /** The bytes of n at off that a file of size bytes takes: all of them, or the whole chunks below the limit. */
  function Taken(size: nat, off: nat, n: int): (k: nat) {
    if n <= 0 || off > size || off > MAXBYTES then 0
    else if off + n <= MAXBYTES then n
    else (MAXBYTES - off) / CHUNK * CHUNK
  }

  /** Transactions for k bytes out of n: one a chunk, and one for the chunk that was refused. */
  function TxnCount(n: int, k: nat): (m: nat) { (k + CHUNK - 1) / CHUNK + if k < n then 1 else 0 }

  /** filewrite on an ordinary file, one transaction per chunk. ok is false on a panic in the allocator.
      k is the number of bytes written; txns are the transactions. */
  method Filewrite(fs: Fs, f: File, src: seq<byte>, n: int) returns (r: int, ok: bool, ghost k: nat,
                   ghost txns: seq<Txn>)
    requires fs.Valid(f.ip) && f.ip.typ != T_DEV && n <= |src| && n < 0x8000_0000
    modifies fs, f, f.ip`size, f.ip.addrs
    ensures !f.writable ==> ok && r == -1 && k == 0 && txns == []
    ensures ok ==> fs.Valid(f.ip) && OthersSame(fs.sb, old(fs.disk), fs.disk, f.ip.inum)
    ensures ok && f.writable ==> k == Taken(old(f.ip.size), old(f.off), n)
    ensures ok ==> k <= |src| && f.off == old(f.off) + k && fs.Contents(f.ip) == Part(old(TheJob(fs, f, src)), k)
    ensures ok && f.writable ==> r == if k == n then n else -1
    ensures ok && f.writable ==> |txns| == TxnCount(n, k) && fs.disk == Before(old(TheJob(fs, f, src)), txns, |txns|)
    ensures ok ==> TxnsOk(fs.sb, f.ip.inum, old(TheJob(fs, f, src)), k, txns)
    ensures !ok <==> f.writable && old(ShortFor(fs, f, n))
    ensures !ok ==> DiskFull(fs.sb, fs.disk)
  {
    hide Advanced, OthersSame, Fs.Valid, FileBytes, TxnsOk, Part, DiskFull, FreeBlocks, Cost, LastBlocks, BlocksOf;
    ghost var j := TheJob(fs, f, src);
    k, txns, ok, r := 0, [], true, 0;
    JobStarts(fs, f, j);
    JobFree(fs, f, j, 0);
    NoTxns(fs.sb, f.ip.inum, j);
    var i: nat := 0;
    if !f.writable {
      AdvancedMeans(fs, f, j, 0);
      return -1, true, 0, [];
    }
    ghost var size0 := f.ip.size;
    while i < n
      invariant (n >= 0 ==> i <= n) && (n < 0 ==> i == 0) && k == i
      invariant Advanced(fs, f, j, i) && TxnsOk(fs.sb, f.ip.inum, j, i, txns)
      invariant |txns| == (i + CHUNK - 1) / CHUNK && (i < n ==> i == |txns| * CHUNK)
      invariant fs.disk == Before(j, txns, |txns|)
    {
      var n1 := if n - i > CHUNK then CHUNK else n - i;
      r, ok, txns := WriteChunk(fs, f, j, src, i, n1, txns);
      if !ok {
        ShortOverall(j, size0, i, n1, n, fs.sb.nblocks);
        return;
      }
      if r < 0 { break; }
      assert r == n1;  // never "short filewrite"
      i := i + r;
      k := i;
    }
    AdvancedMeans(fs, f, j, i);
    AdvancedCount(fs, f, j, i);
    TakenIs(size0, j.off, n, i);
    r := if i == n then n else -1;
  }

  /** The disk has too few free blocks for the bytes that filewrite would write. */
  ghost predicate ShortFor(fs: Fs, f: File, n: int)
    requires fs.Valid(f.ip) && fs.sb.Valid() && fs.sb.size <= |fs.disk|
    reads fs, f, f.ip, f.ip.addrs
  {
    fs.BlocksFor(f.ip, f.off, Taken(f.ip.size, f.off, n)) > |FreeBlocks(fs.sb, fs.disk)|
  }

  /** A chunk that lies within what is taken, and for which blocks are short. */
  lemma ShortOverall(j: Job, size: nat, i: nat, n1: nat, n: int, limit: nat)
    requires size == |j.c0| && j.off <= size && j.off + i + n1 <= MAXBYTES && 0 < n1 && i + n1 <= n && i % CHUNK == 0
    requires n1 == if n - i > CHUNK then CHUNK else n - i
    requires j.spent + Cost(j.nb, j.ind, LastBlocks(j.nb, j.off, i + n1)) > limit
    ensures j.spent + Cost(j.nb, j.ind, LastBlocks(j.nb, j.off, Taken(size, j.off, n))) > limit
  {
    hide Cost;
    assert i + n1 <= Taken(size, j.off, n);
    assert LastBlocks(j.nb, j.off, i + n1) <= LastBlocks(j.nb, j.off, Taken(size, j.off, n));
    CostMore(j.nb, j.ind, LastBlocks(j.nb, j.off, i + n1), LastBlocks(j.nb, j.off, Taken(size, j.off, n)));
  }

  /** Where the loop stops: at n, or at the first chunk that does not fit. */
  lemma TakenIs(size: nat, off: nat, n: int, i: nat)
    requires i % CHUNK == 0 || i == n
    requires i == n || n < 0 || (i < n && (off > size || off + i + (if n - i > CHUNK then CHUNK else n - i) > MAXBYTES))
    requires n < 0 ==> i == 0
    requires i > 0 ==> off <= size && off + i <= MAXBYTES
    ensures i == Taken(size, off, n)
  {
    if 0 <= i < n && off <= size && off <= MAXBYTES {
      assert off + n > MAXBYTES;
      var m := MAXBYTES - off;
      assert i <= m;
      if n - i > CHUNK {
        assert m < i + CHUNK;
      }
    }
  }

  ghost function TheJob(fs: Fs, f: File, src: seq<byte>): (j: Job)
    requires fs.Valid(f.ip)
    reads fs, f, f.ip, f.ip.addrs
  {
    Job(src, f.off, fs.disk, fs.Contents(f.ip), |fs.owner|, f.ip.addrs[NDIRECT], BlocksOf(f.ip.size))
  }

  lemma NoTxns(sb: Super, inum: nat, j: Job)
    ensures TxnsOk(sb, inum, j, 0, [])
  {}

  lemma AdvancedMeans(fs: Fs, f: File, j: Job, i: nat)
    requires Advanced(fs, f, j, i)
    ensures fs.Valid(f.ip) && OthersSame(fs.sb, j.d0, fs.disk, f.ip.inum) && i <= |j.src| && f.off == j.off + i
    ensures fs.Contents(f.ip) == Part(j, i) && (i > 0 ==> j.off <= |j.c0| && j.off + i <= MAXBYTES)
  {
    hide Fs.Valid, OthersSame, FileBytes, Part;
  }
}
