/** What the single steps of the file layer (allocate, map, write a data block, free) do to the
    ownership invariant and to the contents of every file. */
module FsEffects {
  import opened Blocks
  import opened Common
  import opened FsLayout

  /** Inode j and the contents of the blocks it maps are the same in d and e. */
  ghost predicate SameFile(sb: Super, d: Disk, e: Disk, j: nat)
    requires sb.Valid() && 0 < sb.size <= |d| && |e| == |d| && j < sb.ninodes
  {
    var i := ReadInode(sb, d, j);
    && ReadInode(sb, e, j) == i
    && forall bn :: 0 <= bn < BlocksOf(i.size) && bn < MAXFILE ==> SameBlock(d, e, i.addrs, bn)
  }

  ghost predicate SameBlock(d: Disk, e: Disk, addrs: seq<nat>, bn: nat)
    requires |addrs| == NDIRECT + 1 && bn < MAXFILE
  {
    && BlockNo(e, addrs, bn) == BlockNo(d, addrs, bn) < |d| == |e|
    && e[BlockNo(d, addrs, bn)] == d[BlockNo(d, addrs, bn)]
  }

  ghost predicate OthersSame(sb: Super, d: Disk, e: Disk, inum: nat) {
    && sb.Valid() && 0 < sb.size <= |d| && |e| == |d|
    && forall j :: 0 <= j < sb.ninodes && j != inum ==> SameFile(sb, d, e, j)
  }

  lemma OthersSameTrans(sb: Super, d: Disk, e: Disk, f: Disk, inum: nat)
    requires OthersSame(sb, d, e, inum) && OthersSame(sb, e, f, inum)
    ensures OthersSame(sb, d, f, inum)
  {
    hide BlockNo, ReadInode, BlocksOf;
    forall j | 0 <= j < sb.ninodes && j != inum ensures SameFile(sb, d, f, j) {
      assert SameFile(sb, d, e, j) && SameFile(sb, e, f, j);
      var i := ReadInode(sb, d, j);
      forall bn | 0 <= bn < BlocksOf(i.size) && bn < MAXFILE ensures SameBlock(d, f, i.addrs, bn) {
        assert SameBlock(d, e, i.addrs, bn) && SameBlock(e, f, i.addrs, bn);
      }
    }
  }

  /** Nothing but bitmap, free and data blocks differs. */
  ghost predicate SameInodes(sb: Super, d: Disk, e: Disk) {
    |d| == |e| && forall x :: sb.inodestart <= x < sb.bmapstart && x < |d| ==> e[x] == d[x]
  }

  lemma InodesSame(sb: Super, d: Disk, e: Disk, j: nat)
    requires sb.Valid() && 0 < sb.size <= |d| && j < sb.ninodes && SameInodes(sb, d, e)
    ensures ReadInode(sb, e, j) == ReadInode(sb, d, j)
  {
    hide Words, Unpack;
    InodeInRange(sb, j);
  }

  lemma SlotSame(d: Disk, e: Disk, addrs: seq<nat>)
    requires |addrs| == NDIRECT + 1 && |d| == |e|
    requires 0 < addrs[NDIRECT] < |d| ==> e[addrs[NDIRECT]] == d[addrs[NDIRECT]]
    ensures forall k :: 0 <= k < SLOTS ==> Slot(e, addrs, k) == Slot(d, addrs, k)
    ensures forall bn :: 0 <= bn < MAXFILE ==> BlockNo(e, addrs, bn) == BlockNo(d, addrs, bn)
  {
    hide Word;
  }

  /** The indirect block of inode j is owned by it. */
  lemma IndirectOwned(sb: Super, d: Disk, owner: Owner, inum: nat, nb: nat, addrs: seq<nat>, j: nat)
    requires FsCore(sb, d, owner, inum, nb, addrs) && j < sb.ninodes
    ensures var a := AddrsOf(sb, d, inum, addrs, j)[NDIRECT];
            a != 0 ==> a in owner && owner[a] == (j, NDIRECT) && a < |d|
  {
    hide MapOk, ReadInode;
    var as_ := AddrsOf(sb, d, inum, addrs, j);
    assert OwnsOk(d, owner, j, as_);
    assert Slot(d, as_, NDIRECT) == as_[NDIRECT];
  }

  /** Changing blocks that are neither inodes nor indirect blocks keeps the map of every file. */
  lemma CoreKept(sb: Super, d: Disk, e: Disk, owner: Owner, inum: nat, nb: nat, addrs: seq<nat>)
    requires FsCore(sb, d, owner, inum, nb, addrs) && SameInodes(sb, d, e)
    requires forall b :: b in owner && owner[b].1 == NDIRECT ==> e[b] == d[b]
    ensures FsCore(sb, e, owner, inum, nb, addrs)
  {
    hide Slot, BlockNo, ReadInode, BlocksOf;
    forall j | 0 <= j < sb.ninodes
      ensures AddrsOf(sb, e, inum, addrs, j) == AddrsOf(sb, d, inum, addrs, j)
      ensures LenOf(sb, e, inum, nb, j) == LenOf(sb, d, inum, nb, j)
      ensures forall k ::
        0 <= k < SLOTS ==> Slot(e, AddrsOf(sb, d, inum, addrs, j), k) == Slot(d, AddrsOf(sb, d, inum, addrs, j), k)
      ensures MapOk(e, LenOf(sb, d, inum, nb, j), AddrsOf(sb, d, inum, addrs, j))
      ensures OwnsOk(e, owner, j, AddrsOf(sb, d, inum, addrs, j))
    {
      InodesSame(sb, d, e, j);
      IndirectOwned(sb, d, owner, inum, nb, addrs, j);
      SlotSame(d, e, AddrsOf(sb, d, inum, addrs, j));
    }
  }

  /** Changing no inode and no block owned by another inode leaves the other files alone. */
  lemma OthersKept(sb: Super, d: Disk, e: Disk, owner: Owner, inum: nat, nb: nat, addrs: seq<nat>)
    requires FsCore(sb, d, owner, inum, nb, addrs) && SameInodes(sb, d, e)
    requires forall b :: b in owner && owner[b].0 != inum ==> e[b] == d[b]
    ensures OthersSame(sb, d, e, inum)
  {
    hide Slot, ReadInode, BlocksOf;
    forall j | 0 <= j < sb.ninodes && j != inum ensures SameFile(sb, d, e, j) {
      InodesSame(sb, d, e, j);
      IndirectOwned(sb, d, owner, inum, nb, addrs, j);
      var i := ReadInode(sb, d, j);
      assert AddrsOf(sb, d, inum, addrs, j) == i.addrs;
      SlotSame(d, e, i.addrs);
      assert OwnsOk(d, owner, j, i.addrs) && MapOk(d, BlocksOf(i.size), i.addrs);
      forall bn | 0 <= bn < BlocksOf(i.size) && bn < MAXFILE ensures SameBlock(d, e, i.addrs, bn) {
        var b := Slot(d, i.addrs, SlotOf(bn));
        assert BlockNo(d, i.addrs, bn) == b != 0;
        assert b in owner && owner[b] == (j, SlotOf(bn));
      }
    }
  }

  // ---- mapping a newly allocated block ----

  /** A new block in direct slot nb, or an empty indirect block in slot NDIRECT. */
  lemma AddAddr(sb: Super, d: Disk, owner: Owner, inum: nat, nb: nat, addrs: seq<nat>, k: nat, b: nat, nb': nat)
    requires FsCore(sb, d, owner, inum, nb, addrs) && sb.IsData(b) && b !in owner
    requires (k == nb < NDIRECT && nb' == nb + 1)
        || (k == nb == NDIRECT && nb' == nb && addrs[k] == 0 && forall w :: 0 <= w < WORDS ==> Word(d[b], w) == 0)
    ensures FsCore(sb, d, owner[b := (inum, k)], inum, nb', addrs[k := b])
  {
    hide ReadInode, BlocksOf, Word;
    var addrs', owner' := addrs[k := b], owner[b := (inum, k)];
    assert MapOk(d, LenOf(sb, d, inum, nb, inum), AddrsOf(sb, d, inum, addrs, inum));
    assert OwnsOk(d, owner, inum, AddrsOf(sb, d, inum, addrs, inum));
    assert addrs[k] == 0 by { if k < NDIRECT { assert BlockNo(d, addrs, nb) == 0; } }
    assert k == NDIRECT ==> forall j :: NDIRECT < j < SLOTS ==> Slot(d, addrs, j) == 0 == Slot(d, addrs', j);
    assert forall j :: 0 <= j < SLOTS && j != k ==> Slot(d, addrs', j) == Slot(d, addrs, j);
    assert b != 0;
    forall bn | 0 <= bn < MAXFILE ensures BlockNo(d, addrs', bn) != 0 <==> bn < nb' {
      assert BlockNo(d, addrs, bn) != 0 <==> bn < nb;
      assert BlockNo(d, addrs', bn) == Slot(d, addrs', SlotOf(bn));
    }
    assert MapOk(d, nb', addrs');
    assert OwnsOk(d, owner', inum, addrs');
    OthersOwn(sb, d, owner, inum, nb, addrs, b, k);
    forall x | x in owner'
      ensures Slot(d, AddrsOf(sb, d, inum, addrs', owner'[x].0), owner'[x].1) == x
    {
      if x != b { assert Slot(d, AddrsOf(sb, d, inum, addrs, owner[x].0), owner[x].1) == x; }
    }
    forall j | 0 <= j < sb.ninodes
      ensures MapOk(d, LenOf(sb, d, inum, nb', j), AddrsOf(sb, d, inum, addrs', j))
      ensures OwnsOk(d, owner', j, AddrsOf(sb, d, inum, addrs', j))
    {
      if j != inum {
        assert LenOf(sb, d, inum, nb', j) == LenOf(sb, d, inum, nb, j)
            && AddrsOf(sb, d, inum, addrs', j) == AddrsOf(sb, d, inum, addrs, j);
      }
    }
  }

  /** Giving inode inum a fresh block does not disturb what the others own. */
  lemma OthersOwn(sb: Super, d: Disk, owner: Owner, inum: nat, nb: nat, addrs: seq<nat>, b: nat, k: nat)
    requires FsCore(sb, d, owner, inum, nb, addrs) && b !in owner
    ensures forall j :: 0 <= j < sb.ninodes && j != inum ==>
              MapOk(d, LenOf(sb, d, inum, nb, j), AddrsOf(sb, d, inum, addrs, j))
                  && OwnsOk(d, owner[b := (inum, k)], j, AddrsOf(sb, d, inum, addrs, j))
  {
    hide ReadInode, BlocksOf, Slot, MapOk;
  }

  /** A new block in the indirect block's next entry. */
  lemma AddEntry(sb: Super, d: Disk, e: Disk, owner: Owner, inum: nat, nb: nat, addrs: seq<nat>, b: nat)
    requires FsCore(sb, d, owner, inum, nb, addrs) && sb.IsData(b) && b !in owner
    requires NDIRECT <= nb < MAXFILE && 0 < addrs[NDIRECT] < |d|
    requires e == d[addrs[NDIRECT] := SetWord(d[addrs[NDIRECT]], nb - NDIRECT, b)]
    ensures FsCore(sb, e, owner[b := (inum, nb + 1)], inum, nb + 1, addrs)
    ensures forall k :: 0 <= k < SLOTS ==> Slot(e, addrs, k) == if k == nb + 1 then b else Slot(d, addrs, k)
    ensures OthersSame(sb, d, e, inum) && addrs[NDIRECT] in owner && owner[addrs[NDIRECT]] == (inum, NDIRECT)
  {
    hide ReadInode, BlocksOf, Word, SetWord;
    var ind, owner' := addrs[NDIRECT], owner[b := (inum, nb + 1)];
    IndirectOwned(sb, d, owner, inum, nb, addrs, inum);
    OthersKept(sb, d, e, owner, inum, nb, addrs);
    assert sb.bmapstart < sb.DataStart();
    forall k | 0 <= k < SLOTS ensures Slot(e, addrs, k) == if k == nb + 1 then b else Slot(d, addrs, k) {
      if k > NDIRECT { WordOfSetWord(d[ind], nb - NDIRECT, b, k - NDIRECT - 1); }
    }
    EntryOwner(sb, d, e, owner, inum, nb, addrs, b);
  }

  lemma EntryOwner(sb: Super, d: Disk, e: Disk, owner: Owner, inum: nat, nb: nat, addrs: seq<nat>, b: nat)
    requires FsCore(sb, d, owner, inum, nb, addrs) && sb.IsData(b) && b !in owner
    requires NDIRECT <= nb < MAXFILE && 0 < addrs[NDIRECT] < |d| == |e| && addrs[NDIRECT] in owner
    requires owner[addrs[NDIRECT]] == (inum, NDIRECT)
    requires SameInodes(sb, d, e) && forall x :: 0 <= x < |d| && x != addrs[NDIRECT] ==> e[x] == d[x]
    requires forall k :: 0 <= k < SLOTS ==> Slot(e, addrs, k) == if k == nb + 1 then b else Slot(d, addrs, k)
    ensures FsCore(sb, e, owner[b := (inum, nb + 1)], inum, nb + 1, addrs)
  {
    hide ReadInode, BlocksOf, Slot;
    var owner' := owner[b := (inum, nb + 1)];
    assert MapOk(d, LenOf(sb, d, inum, nb, inum), AddrsOf(sb, d, inum, addrs, inum));
    assert Slot(d, addrs, nb + 1) == BlockNo(d, addrs, nb) == 0;
    forall j | 0 <= j < sb.ninodes
      ensures LenOf(sb, e, inum, nb + 1, j) == if j == inum then nb + 1 else LenOf(sb, d, inum, nb, j)
      ensures AddrsOf(sb, e, inum, addrs, j) == AddrsOf(sb, d, inum, addrs, j)
      ensures j != inum ==> forall k :: 0 <= k < SLOTS ==>
          Slot(e, AddrsOf(sb, d, inum, addrs, j), k) == Slot(d, AddrsOf(sb, d, inum, addrs, j), k)
      ensures MapOk(e, LenOf(sb, e, inum, nb + 1, j), AddrsOf(sb, e, inum, addrs, j))
      ensures OwnsOk(e, owner', j, AddrsOf(sb, e, inum, addrs, j))
    {
      InodesSame(sb, d, e, j);
      IndirectOwned(sb, d, owner, inum, nb, addrs, j);
      var as_ := AddrsOf(sb, d, inum, addrs, j);
      assert MapOk(d, LenOf(sb, d, inum, nb, j), as_) && OwnsOk(d, owner, j, as_);
      if j == inum {
        forall bn | 0 <= bn < MAXFILE ensures BlockNo(e, addrs, bn) != 0 <==> bn < nb + 1 {
          assert BlockNo(d, addrs, bn) != 0 <==> bn < nb;
        }
      } else {
        SlotSame(d, e, as_);
      }
    }
    forall x | x in owner'
      ensures Slot(e, AddrsOf(sb, e, inum, addrs, owner'[x].0), owner'[x].1) == x
    {
      if x != b { assert Slot(d, AddrsOf(sb, d, inum, addrs, owner[x].0), owner[x].1) == x; }
    }
  }

  // ---- allocation ----

  function Allocated(sb: Super, d: Disk, b: nat): (e: Disk)
    requires sb.Valid() && sb.size <= |d| && b < sb.size
  {
    MarkUsed(sb, d, b)[b := Zeroes()]
  }

  /** balloc of a free block disturbs no file and leaves it owned by no one, marked and zeroed. */
  lemma AllocatedOk(sb: Super, d: Disk, owner: Owner, inum: nat, nb: nat, addrs: seq<nat>, b: nat)
    requires FsOk(sb, d, owner, inum, nb, addrs) && b < sb.size && !Used(sb, d, b)
    ensures var e := Allocated(sb, d, b);
            && |e| == |d| && sb.IsData(b) && b !in owner
            && FsCore(sb, e, owner, inum, nb, addrs) && UsedIs(sb, e, owner.Keys + {b})
            && OthersSame(sb, d, e, inum)
            && e[b] == Zeroes() && forall x :: x in owner ==> e[x] == d[x]
  {
    hide FsCore, Used, MarkUsed;
    OwnedAreData(sb, d, owner, inum, nb, addrs);
    var e := Allocated(sb, d, b);
    assert Used(sb, d, b) <==> b < sb.DataStart() || b in owner.Keys;
    AllocatedUsed(sb, d, owner.Keys, b);
    CoreKept(sb, d, e, owner, inum, nb, addrs);
    OthersKept(sb, d, e, owner, inum, nb, addrs);
  }

  lemma AllocatedUsed(sb: Super, d: Disk, s: set<nat>, b: nat)
    requires sb.Valid() && 0 < sb.size <= |d| && sb.IsData(b) && UsedIs(sb, d, s)
    ensures |Allocated(sb, d, b)| == |d| && UsedIs(sb, Allocated(sb, d, b), s + {b})
    ensures SameInodes(sb, d, Allocated(sb, d, b))
    ensures forall x :: sb.IsData(x) && x != b ==> Allocated(sb, d, b)[x] == d[x]
    ensures Allocated(sb, d, b)[b] == Zeroes()
  {
    hide Bit, MarkUsed;
    MarkedUsed(sb, d, b);
    var m, e := MarkUsed(sb, d, b), Allocated(sb, d, b);
    assert forall c :: 0 <= c < sb.size ==> sb.bmapstart <= sb.BBlock(c) <= sb.BBlock(sb.size - 1) < sb.DataStart();
    forall c | 0 <= c < sb.size ensures Used(sb, e, c) <==> c < sb.DataStart() || c in s + {b} {
      assert e[sb.BBlock(c)] == m[sb.BBlock(c)];
      assert Used(sb, d, c) <==> c < sb.DataStart() || c in s;
    }
  }

  lemma OwnedAreData(sb: Super, d: Disk, owner: Owner, inum: nat, nb: nat, addrs: seq<nat>)
    requires FsCore(sb, d, owner, inum, nb, addrs)
    ensures sb.Valid() && 0 < sb.size <= |d| && inum < sb.ninodes && |addrs| == NDIRECT + 1
    ensures forall x :: x in owner ==> sb.IsData(x)
  {}

  lemma ZeroWords(w: nat)
    requires w < WORDS
    ensures Word(Zeroes(), w) == 0
  {}

  // ---- the three ways bmap extends a file ----

  /** The first nb blocks of a file map to the same block numbers with the same contents. */
  ghost predicate OwnKept(d: Disk, addrs: seq<nat>, e: Disk, addrs': seq<nat>, nb: nat)
    requires |addrs| == |addrs'| == NDIRECT + 1 && nb <= MAXFILE
  {
    && |d| == |e|
    && forall k :: 0 <= k < nb ==>
         BlockNo(d, addrs, k) == BlockNo(e, addrs', k) < |d| && d[BlockNo(d, addrs, k)] == e[BlockNo(d, addrs, k)]
  }

  lemma OwnKeptTrans(d: Disk, as0: seq<nat>, e: Disk, as1: seq<nat>, f: Disk, as2: seq<nat>, nb: nat)
    requires |as0| == |as1| == |as2| == NDIRECT + 1 && nb <= MAXFILE
    requires OwnKept(d, as0, e, as1, nb) && OwnKept(e, as1, f, as2, nb)
    ensures OwnKept(d, as0, f, as2, nb)
  {
    hide BlockNo;
    forall k | 0 <= k < nb
      ensures BlockNo(d, as0, k) == BlockNo(f, as2, k) && d[BlockNo(d, as0, k)] == f[BlockNo(d, as0, k)]
    {
      assert BlockNo(d, as0, k) == BlockNo(e, as1, k) && BlockNo(e, as1, k) == BlockNo(f, as2, k);
    }
  }

  /** The data blocks of inode inum are owned by it. */
  lemma BlockOwned(sb: Super, d: Disk, owner: Owner, inum: nat, nb: nat, addrs: seq<nat>, k: nat)
    requires FsCore(sb, d, owner, inum, nb, addrs) && k < nb
    ensures nb <= MAXFILE && sb.IsData(BlockNo(d, addrs, k)) && BlockNo(d, addrs, k) in owner
    ensures owner[BlockNo(d, addrs, k)] == (inum, SlotOf(k))
  {
    hide ReadInode, BlocksOf, Slot;
    assert MapOk(d, LenOf(sb, d, inum, nb, inum), AddrsOf(sb, d, inum, addrs, inum));
    assert OwnsOk(d, owner, inum, AddrsOf(sb, d, inum, addrs, inum));
  }

  lemma NbInRange(sb: Super, d: Disk, owner: Owner, inum: nat, nb: nat, addrs: seq<nat>)
    requires FsCore(sb, d, owner, inum, nb, addrs)
    ensures nb <= MAXFILE && (nb > NDIRECT ==> addrs[NDIRECT] != 0) && (addrs[NDIRECT] != 0 ==> nb >= NDIRECT)
    ensures forall bn :: 0 <= bn < MAXFILE ==> (BlockNo(d, addrs, bn) != 0 <==> bn < nb)
  {
    hide ReadInode, BlocksOf, Slot;
    assert MapOk(d, LenOf(sb, d, inum, nb, inum), AddrsOf(sb, d, inum, addrs, inum));
  }

  lemma SlotsKeptOwn(sb: Super, d: Disk, e: Disk, owner: Owner, inum: nat, nb: nat, addrs: seq<nat>, addrs': seq<nat>)
    requires FsCore(sb, d, owner, inum, nb, addrs) && |e| == |d| && |addrs'| == NDIRECT + 1
    requires forall k :: 0 <= k < nb && k < MAXFILE ==> BlockNo(e, addrs', k) == BlockNo(d, addrs, k)
    requires forall x :: x in owner && owner[x].0 == inum && owner[x].1 != NDIRECT ==> e[x] == d[x]
    ensures nb <= MAXFILE && OwnKept(d, addrs, e, addrs', nb)
  {
    hide FsCore, BlockNo;
    OwnedAreData(sb, d, owner, inum, nb, addrs);
    NbInRange(sb, d, owner, inum, nb, addrs);
    forall k | 0 <= k < nb ensures BlockNo(d, addrs, k) < |d| && d[BlockNo(d, addrs, k)] == e[BlockNo(d, addrs, k)] {
      BlockOwned(sb, d, owner, inum, nb, addrs, k);
      OwnedAreData(sb, d, owner, inum, nb, addrs);
    }
  }

  lemma DirectMapped(sb: Super, d: Disk, owner: Owner, inum: nat, nb: nat, addrs: seq<nat>, b: nat)
    requires FsOk(sb, d, owner, inum, nb, addrs) && b < sb.size && !Used(sb, d, b) && nb < NDIRECT
    ensures var e := Allocated(sb, d, b);
            && |e| == |d|
            && FsOk(sb, e, owner[b := (inum, nb)], inum, nb + 1, addrs[nb := b])
            && OthersSame(sb, d, e, inum) && OwnKept(d, addrs, e, addrs[nb := b], nb) && e[b] == Zeroes()
  {
    hide Used, UsedIs, FsCore, Allocated;
    OwnedAreData(sb, d, owner, inum, nb, addrs);
    AllocatedOk(sb, d, owner, inum, nb, addrs, b);
    var e := Allocated(sb, d, b);
    AddAddr(sb, e, owner, inum, nb, addrs, nb, b, nb + 1);
    assert owner[b := (inum, nb)].Keys == owner.Keys + {b};
    SlotsKeptOwn(sb, d, e, owner, inum, nb, addrs, addrs[nb := b]);
  }

  lemma IndirectMapped(sb: Super, d: Disk, owner: Owner, inum: nat, addrs: seq<nat>, b: nat)
    requires FsOk(sb, d, owner, inum, NDIRECT, addrs) && b < sb.size && !Used(sb, d, b) && addrs[NDIRECT] == 0
    ensures var e := Allocated(sb, d, b);
            && |e| == |d|
            && FsOk(sb, e, owner[b := (inum, NDIRECT)], inum, NDIRECT, addrs[NDIRECT := b])
            && OthersSame(sb, d, e, inum) && OwnKept(d, addrs, e, addrs[NDIRECT := b], NDIRECT)
  {
    hide Used, UsedIs, FsCore, Allocated;
    OwnedAreData(sb, d, owner, inum, NDIRECT, addrs);
    AllocatedOk(sb, d, owner, inum, NDIRECT, addrs, b);
    var e := Allocated(sb, d, b);
    forall w | 0 <= w < WORDS ensures Word(e[b], w) == 0 { ZeroWords(w); }
    AddAddr(sb, e, owner, inum, NDIRECT, addrs, NDIRECT, b, NDIRECT);
    assert owner[b := (inum, NDIRECT)].Keys == owner.Keys + {b};
    SlotsKeptOwn(sb, d, e, owner, inum, NDIRECT, addrs, addrs[NDIRECT := b]);
  }

  lemma EntryMapped(sb: Super, d: Disk, owner: Owner, inum: nat, nb: nat, addrs: seq<nat>, b: nat, f: Disk)
    requires FsOk(sb, d, owner, inum, nb, addrs) && b < sb.size && !Used(sb, d, b)
    requires NDIRECT <= nb < MAXFILE && 0 < addrs[NDIRECT] < |d| == |Allocated(sb, d, b)|
    requires f == Allocated(sb, d, b)[addrs[NDIRECT] := SetWord(Allocated(sb, d, b)[addrs[NDIRECT]], nb - NDIRECT, b)]
    ensures FsOk(sb, f, owner[b := (inum, nb + 1)], inum, nb + 1, addrs)
    ensures OthersSame(sb, d, f, inum) && OwnKept(d, addrs, f, addrs, nb) && f[b] == Zeroes()
    ensures BlockNo(f, addrs, nb) == b
  {
    hide Used, FsCore, Allocated, SetWord, Slot;
    OwnedAreData(sb, d, owner, inum, nb, addrs);
    AllocatedOk(sb, d, owner, inum, nb, addrs, b);
    var e := Allocated(sb, d, b);
    AddEntry(sb, e, f, owner, inum, nb, addrs, b);
    assert owner[b := (inum, nb + 1)].Keys == owner.Keys + {b};
    OthersSameTrans(sb, d, e, f, inum);
    BitmapKept(sb, e, f, owner.Keys + {b});
    IndirectOwned(sb, d, owner, inum, nb, addrs, inum);
    SlotSame(d, e, addrs);
    SlotsKeptOwn(sb, d, f, owner, inum, nb, addrs, addrs);
  }

  /** Writes to data blocks leave the bitmap as it is. */
  lemma BitmapKept(sb: Super, d: Disk, e: Disk, s: set<nat>)
    requires sb.Valid() && 0 < sb.size <= |d| == |e| && UsedIs(sb, d, s)
    requires forall x :: 0 <= x < sb.DataStart() ==> e[x] == d[x]
    ensures UsedIs(sb, e, s)
  {
    hide Bit;
    assert forall c :: 0 <= c < sb.size ==> sb.BBlock(c) <= sb.BBlock(sb.size - 1) < sb.DataStart();
    forall c | 0 <= c < sb.size ensures Used(sb, e, c) <==> c < sb.DataStart() || c in s {
      assert Used(sb, d, c) <==> c < sb.DataStart() || c in s;
    }
  }

  // ---- file contents ----

  /** Byte i of the blocks a file maps (0 beyond them). */
  ghost function FileByte(d: Disk, addrs: seq<nat>, i: nat): (r: byte) {
    if |addrs| == NDIRECT + 1 && i / BSIZE < MAXFILE && BlockNo(d, addrs, i / BSIZE) < |d|
        then d[BlockNo(d, addrs, i / BSIZE)][i % BSIZE] else 0
  }

  /** The first n bytes of a file. */
  ghost function FileBytes(d: Disk, addrs: seq<nat>, n: nat): (r: seq<byte>)
    ensures |r| == n
  {
    seq(n, i requires 0 <= i < n => FileByte(d, addrs, i))
  }

  /** The contents of inode j as it stands on disk. */
  ghost function Content(sb: Super, d: Disk, j: nat): (r: seq<byte>)
    requires sb.Valid() && 0 < sb.size <= |d| && j < sb.ninodes
  {
    FileBytes(d, ReadInode(sb, d, j).addrs, ReadInode(sb, d, j).size)
  }

  /** SameFile means what it says. */
  lemma SameContent(sb: Super, d: Disk, e: Disk, owner: Owner, inum: nat, nb: nat, addrs: seq<nat>, j: nat)
    requires FsCore(sb, d, owner, inum, nb, addrs) && |e| == |d| && j < sb.ninodes && j != inum && SameFile(sb, d, e, j)
    ensures Content(sb, e, j) == Content(sb, d, j)
  {
    hide BlockNo, ReadInode;
    var i := ReadInode(sb, d, j);
    assert MapOk(d, LenOf(sb, d, inum, nb, j), AddrsOf(sb, d, inum, addrs, j));
    forall k | 0 <= k < i.size ensures FileByte(e, i.addrs, k) == FileByte(d, i.addrs, k) {
      assert k / BSIZE < BlocksOf(i.size);
      assert SameBlock(d, e, i.addrs, k / BSIZE);
    }
    assert FileBytes(e, i.addrs, i.size) == FileBytes(d, i.addrs, i.size);
  }

  /** Overwriting block bn of a file changes exactly that block's bytes of exactly that file. */
  lemma DataWritten(sb: Super, d: Disk, owner: Owner, inum: nat, nb: nat, addrs: seq<nat>, bn: nat, v: Block)
    requires FsOk(sb, d, owner, inum, nb, addrs) && bn < nb <= MAXFILE && BlockNo(d, addrs, bn) < |d|
    ensures var e := d[BlockNo(d, addrs, bn) := v];
            && FsOk(sb, e, owner, inum, nb, addrs) && OthersSame(sb, d, e, inum) && SameInodes(sb, d, e)
            && (forall k :: 0 <= k < nb ==> BlockNo(e, addrs, k) == BlockNo(d, addrs, k))
            && forall i :: 0 <= i < BSIZE * nb ==> FileByte(e, addrs, i) == if i / BSIZE == bn then v[i % BSIZE]
                else FileByte(d, addrs, i)
  {
    hide FsCore, Slot, BlockNo;
    OwnedAreData(sb, d, owner, inum, nb, addrs);
    var b := BlockNo(d, addrs, bn);
    var e := d[b := v];
    BlockOwned(sb, d, owner, inum, nb, addrs, bn);
    assert sb.bmapstart < sb.DataStart();
    CoreKept(sb, d, e, owner, inum, nb, addrs);
    OthersKept(sb, d, e, owner, inum, nb, addrs);
    BitmapKept(sb, d, e, owner.Keys);
    IndirectOwned(sb, d, owner, inum, nb, addrs, inum);
    SlotSame(d, e, addrs);
    DataBytes(sb, d, e, owner, inum, nb, addrs, bn, v);
  }

  lemma DataBytes(sb: Super, d: Disk, e: Disk, owner: Owner, inum: nat, nb: nat, addrs: seq<nat>, bn: nat, v: Block)
    requires FsOk(sb, d, owner, inum, nb, addrs) && bn < nb <= MAXFILE && BlockNo(d, addrs, bn) < |d|
    requires e == d[BlockNo(d, addrs, bn) := v]
    requires forall k :: 0 <= k < nb ==> BlockNo(e, addrs, k) == BlockNo(d, addrs, k)
    ensures forall i ::
      0 <= i < BSIZE * nb ==> FileByte(e, addrs, i) == if i / BSIZE == bn then v[i % BSIZE] else FileByte(d, addrs, i)
  {
    hide FsCore, Slot, BlockNo, UsedIs;
    OwnedAreData(sb, d, owner, inum, nb, addrs);
    BlockOwned(sb, d, owner, inum, nb, addrs, bn);
    forall i | 0 <= i < BSIZE * nb
      ensures FileByte(e, addrs, i) == if i / BSIZE == bn then v[i % BSIZE] else FileByte(d, addrs, i)
    {
      BlockOwned(sb, d, owner, inum, nb, addrs, i / BSIZE);
    }
  }

  /** Blocks that bmap left alone keep their bytes; a fresh block reads as zeroes. */
  lemma BytesKept(d: Disk, addrs: seq<nat>, e: Disk, addrs': seq<nat>, nb: nat, i: nat)
    requires |addrs| == |addrs'| == NDIRECT + 1 && nb <= MAXFILE && OwnKept(d, addrs, e, addrs', nb) && i < BSIZE * nb
    ensures FileByte(e, addrs', i) == FileByte(d, addrs, i)
  {
    hide BlockNo;
    assert i / BSIZE < nb;
  }

  lemma FreshBytes(e: Disk, addrs: seq<nat>, bn: nat, i: nat)
    requires |addrs| == NDIRECT + 1 && bn < MAXFILE && BlockNo(e, addrs, bn) < |e|
    requires e[BlockNo(e, addrs, bn)] == Zeroes() && i / BSIZE == bn
    ensures FileByte(e, addrs, i) == 0
  {
    hide BlockNo;
  }

  /** iupdate: the inode table takes inode inum from memory, all else stays. */
  lemma InodeWritten(sb: Super, d: Disk, owner: Owner, inum: nat, nb: nat, i: DInode)
    requires i.Valid() && FsOk(sb, d, owner, inum, nb, i.addrs)
    ensures sb.Valid() && 0 < sb.size <= |d| && inum < sb.ninodes
    ensures var e := WriteInode(sb, d, inum, i);
            && |e| == |d| && FsOk(sb, e, owner, inum, nb, i.addrs) && OthersSame(sb, d, e, inum)
            && ReadInode(sb, e, inum) == i
            && forall x :: sb.bmapstart <= x < |d| ==> e[x] == d[x]
  {
    hide ReadInode, Slot, BlocksOf, Used, SetWords, Pack;
    var e := WriteInode(sb, d, inum, i);
    InodeInRange(sb, inum);
    assert forall c :: 0 <= c < sb.size ==> sb.bmapstart <= sb.BBlock(c) <= sb.BBlock(sb.size - 1) < sb.DataStart();
    assert UsedIs(sb, e, owner.Keys) by {
      hide FsCore, Bit;
      forall c | 0 <= c < sb.size ensures Used(sb, e, c) == Used(sb, d, c) { SameBit(sb, d, e, c); }
    }
    forall j | 0 <= j < sb.ninodes
      ensures AddrsOf(sb, e, inum, i.addrs, j) == AddrsOf(sb, d, inum, i.addrs, j)
      ensures LenOf(sb, e, inum, nb, j) == LenOf(sb, d, inum, nb, j)
      ensures forall k ::
        0 <= k < SLOTS ==> Slot(e, AddrsOf(sb, d, inum, i.addrs, j), k) == Slot(d, AddrsOf(sb, d, inum, i.addrs, j), k)
      ensures MapOk(e, LenOf(sb, d, inum, nb, j), AddrsOf(sb, d, inum, i.addrs, j))
      ensures OwnsOk(e, owner, j, AddrsOf(sb, d, inum, i.addrs, j))
      ensures j != inum ==> SameFile(sb, d, e, j)
    {
      ReadOfWrite(sb, d, inum, i, j);
      IndirectOwned(sb, d, owner, inum, nb, i.addrs, j);
      SlotSame(d, e, AddrsOf(sb, d, inum, i.addrs, j));
      if j != inum { SameFileByBlocks(sb, d, e, owner, inum, nb, i.addrs, j); }
    }
    ReadOfWrite(sb, d, inum, i, inum);
  }

  lemma SameBit(sb: Super, d: Disk, e: Disk, c: nat)
    requires sb.Valid() && sb.size <= |d| == |e| && c < sb.size && e[sb.BBlock(c)] == d[sb.BBlock(c)]
    ensures Used(sb, e, c) == Used(sb, d, c)
  {}

  lemma SameFileByBlocks(sb: Super, d: Disk, e: Disk, owner: Owner, inum: nat, nb: nat, addrs: seq<nat>, j: nat)
    requires FsCore(sb, d, owner, inum, nb, addrs) && |e| == |d| && j < sb.ninodes && j != inum
    requires ReadInode(sb, e, j) == ReadInode(sb, d, j)
    requires forall x :: sb.IsData(x) ==> e[x] == d[x]
    ensures SameFile(sb, d, e, j)
  {
    hide ReadInode, Slot, BlocksOf;
    var i := ReadInode(sb, d, j);
    IndirectOwned(sb, d, owner, inum, nb, addrs, j);
    assert AddrsOf(sb, d, inum, addrs, j) == i.addrs;
    SlotSame(d, e, i.addrs);
    assert OwnsOk(d, owner, j, i.addrs) && MapOk(d, BlocksOf(i.size), i.addrs);
    forall bn | 0 <= bn < BlocksOf(i.size) && bn < MAXFILE ensures SameBlock(d, e, i.addrs, bn) {
      var b := Slot(d, i.addrs, SlotOf(bn));
      assert BlockNo(d, i.addrs, bn) == b != 0;
      assert b in owner && owner[b] == (j, SlotOf(bn));
    }
  }

  // ---- truncation ----

  /** Owned blocks except those in the given slots of inode inum. */
  ghost function Without(owner: Owner, inum: nat, done: set<nat>): (s: set<nat>) {
    set x | x in owner && !(owner[x].0 == inum && owner[x].1 in done)
  }

  /** itrunc has freed the blocks in slots done; nothing but the bitmap has changed since d0. */
  ghost predicate Freeing(sb: Super, d: Disk, d0: Disk, owner: Owner, inum: nat, done: set<nat>) {
    && sb.Valid() && 0 < sb.size <= |d| == |d0|
    && (forall x :: 0 <= x < |d| && !(sb.bmapstart <= x < sb.DataStart()) ==> d[x] == d0[x])
    && UsedIs(sb, d, Without(owner, inum, done))
  }

  /** bfree of the block in slot k: it is still marked, so there is no panic. */
  lemma FreeSlot(sb: Super, d: Disk, d0: Disk, owner: Owner, inum: nat, nb: nat, addrs: seq<nat>, done: set<nat>,
                 k: nat)
    requires FsCore(sb, d0, owner, inum, nb, addrs) && Freeing(sb, d, d0, owner, inum, done) && k < SLOTS && k !in done
    ensures var b := Slot(d0, addrs, k);
            && (b == 0 ==> Freeing(sb, d, d0, owner, inum, done + {k}))
            && (b != 0 ==>
                b < sb.size && Used(sb, d, b) && Freeing(sb, MarkFree(sb, d, b), d0, owner, inum, done + {k}))
  {
    hide Slot, ReadInode, MapOk, Used, MarkFree;
    var b := Slot(d0, addrs, k);
    assert OwnsOk(d0, owner, inum, AddrsOf(sb, d0, inum, addrs, inum));
    assert forall x :: x in owner && owner[x] == (inum, k) ==> x == b && b != 0 by {
      assert AddrsOf(sb, d0, inum, addrs, inum) == addrs;
    }
    if b == 0 {
      assert Without(owner, inum, done + {k}) == Without(owner, inum, done);
    } else {
      assert b in owner && owner[b] == (inum, k);
      assert Without(owner, inum, done + {k}) == Without(owner, inum, done) - {b};
      MarkedFree(sb, d, b);
      FreedUsed(sb, d, Without(owner, inum, done), b);
    }
  }

  /** The bitmap blocks of blocks bs. */
  function BitmapsOf(sb: Super, bs: set<nat>): (r: set<nat>) { set x | x in bs :: sb.BBlock(x) }

  /** Freeing the slots done has logged exactly the bitmap blocks of the blocks freed, and changed nothing else. */
  ghost predicate LogsFreed(sb: Super, d0: Disk, d: Disk, l0: set<nat>, l: set<nat>, owner: Owner, inum: nat,
                            done: set<nat>)
  {
    Tracked(d0, d, l0, l) && l == l0 + BitmapsOf(sb, owner.Keys - Without(owner, inum, done))
  }

  lemma FreedLogs(sb: Super, d0: Disk, d: Disk, l0: set<nat>, l: set<nat>, owner: Owner, inum: nat, nb: nat,
                  addrs: seq<nat>, done: set<nat>, k: nat)
    requires FsCore(sb, d0, owner, inum, nb, addrs) && k < SLOTS && k !in done && sb.Valid() && 0 < sb.size <= |d|
    requires LogsFreed(sb, d0, d, l0, l, owner, inum, done)
    ensures var b := Slot(d0, addrs, k);
            && (b == 0 ==> LogsFreed(sb, d0, d, l0, l, owner, inum, done + {k}))
            && (b != 0 && b < sb.size ==>
                LogsFreed(sb, d0, MarkFree(sb, d, b), l0, l + {sb.BBlock(b)}, owner, inum, done + {k}))
  {
    hide Slot, ReadInode, MapOk, ClearBit;
    var b := Slot(d0, addrs, k);
    assert OwnsOk(d0, owner, inum, AddrsOf(sb, d0, inum, addrs, inum));
    assert forall x :: x in owner && owner[x] == (inum, k) ==> x == b && b != 0 by {
      assert AddrsOf(sb, d0, inum, addrs, inum) == addrs;
    }
    var freed := owner.Keys - Without(owner, inum, done);
    if b == 0 {
      assert Without(owner, inum, done + {k}) == Without(owner, inum, done);
    } else {
      assert b in owner && owner[b] == (inum, k);
      assert owner.Keys - Without(owner, inum, done + {k}) == freed + {b};
      assert BitmapsOf(sb, freed + {b}) == BitmapsOf(sb, freed) + {sb.BBlock(b)};
    }
  }

  lemma NoneFreed(sb: Super, d: Disk, l: set<nat>, owner: Owner, inum: nat)
    ensures LogsFreed(sb, d, d, l, l, owner, inum, {})
  {
    assert Without(owner, inum, {}) == owner.Keys;
  }

  /** All of inode inum's blocks. */
  ghost function OwnBlocks(owner: Owner, inum: nat): (r: set<nat>) { set x | x in owner && owner[x].0 == inum }

  lemma FreedUsed(sb: Super, d: Disk, s: set<nat>, b: nat)
    requires sb.Valid() && 0 < sb.size <= |d| && sb.IsData(b) && b in s && UsedIs(sb, d, s)
    ensures Used(sb, d, b) && |MarkFree(sb, d, b)| == |d| && UsedIs(sb, MarkFree(sb, d, b), s - {b})
    ensures forall x :: 0 <= x < |d| && !(sb.bmapstart <= x < sb.DataStart()) ==> MarkFree(sb, d, b)[x] == d[x]
  {
    hide Used, MarkFree;
    MarkedFree(sb, d, b);
    assert sb.bmapstart <= sb.BBlock(b) <= sb.BBlock(sb.size - 1) < sb.DataStart();
    forall c | 0 <= c < sb.size ensures Used(sb, MarkFree(sb, d, b), c) <==> c < sb.DataStart() || c in s - {b} {
      assert Used(sb, d, c) <==> c < sb.DataStart() || c in s;
    }
  }

  /** A file without an indirect block owns nothing beyond its direct slots. */
  lemma NoIndirect(sb: Super, d: Disk, d0: Disk, owner: Owner, inum: nat, nb: nat, addrs: seq<nat>, done: set<nat>,
                   all: set<nat>)
    requires FsCore(sb, d0, owner, inum, nb, addrs) && Freeing(sb, d, d0, owner, inum, done) && addrs[NDIRECT] == 0
    requires done <= all && forall k :: k in all && k < NDIRECT ==> k in done
    ensures Freeing(sb, d, d0, owner, inum, all) && Without(owner, inum, done) == Without(owner, inum, all)
  {
    hide ReadInode, MapOk, Used, Word;
    assert AddrsOf(sb, d0, inum, addrs, inum) == addrs;
    forall x | x in owner && owner[x].0 == inum ensures owner[x].1 < NDIRECT {
      assert Slot(d0, AddrsOf(sb, d0, inum, addrs, inum), owner[x].1) == x;
    }
    assert Without(owner, inum, done) == Without(owner, inum, all);
  }

  ghost function OthersOnly(owner: Owner, inum: nat): (r: Owner)
  {
    map x | x in owner && owner[x].0 != inum :: owner[x]
  }

  /** With every slot freed and the addresses zeroed, inode inum owns nothing and the rest is untouched. */
  lemma AllFreed(sb: Super, d: Disk, d0: Disk, owner: Owner, inum: nat, nb: nat, addrs: seq<nat>, done: set<nat>,
                 zeroes: seq<nat>)
    requires FsCore(sb, d0, owner, inum, nb, addrs) && Freeing(sb, d, d0, owner, inum, done)
    requires (forall k :: 0 <= k < SLOTS ==> k in done) && |zeroes| == NDIRECT + 1 && forall k :: 0 <= k <= NDIRECT ==>
      zeroes[k] == 0
    ensures FsOk(sb, d, OthersOnly(owner, inum), inum, 0, zeroes) && OthersSame(sb, d0, d, inum)
    ensures owner.Keys - Without(owner, inum, done) == OwnBlocks(owner, inum)
  {
    hide Slot, ReadInode, BlocksOf, Used;
    var owner' := OthersOnly(owner, inum);
    assert Without(owner, inum, done) == owner'.Keys;
    OwnedAreData(sb, d0, owner, inum, nb, addrs);
    OthersKept(sb, d0, d, owner, inum, nb, addrs);
    CoreKept(sb, d0, d, owner, inum, nb, addrs);
    ZeroSlots(d, zeroes);
    forall j | 0 <= j < sb.ninodes
      ensures MapOk(d, LenOf(sb, d, inum, 0, j), AddrsOf(sb, d, inum, zeroes, j))
      ensures OwnsOk(d, owner', j, AddrsOf(sb, d, inum, zeroes, j))
    {
      if j != inum {
        var as_ := AddrsOf(sb, d, inum, addrs, j);
        assert AddrsOf(sb, d, inum, zeroes, j) == as_ && LenOf(sb, d, inum, 0, j) == LenOf(sb, d, inum, nb, j);
        assert MapOk(d, LenOf(sb, d, inum, nb, j), as_) && OwnsOk(d, owner, j, as_);
      }
    }
    forall x | x in owner'
      ensures Slot(d, AddrsOf(sb, d, inum, zeroes, owner'[x].0), owner'[x].1) == x
    {
      assert Slot(d, AddrsOf(sb, d, inum, addrs, owner[x].0), owner[x].1) == x;
    }
  }

  lemma ZeroSlots(d: Disk, zeroes: seq<nat>)
    requires |zeroes| == NDIRECT + 1 && forall k :: 0 <= k <= NDIRECT ==> zeroes[k] == 0
    ensures forall k :: 0 <= k < SLOTS ==> Slot(d, zeroes, k) == 0
    ensures MapOk(d, 0, zeroes)
  {
    hide Word;
  }

  /** A file system with no file that has a block: only the metadata blocks are marked in use. */
  lemma EmptyFs(sb: Super, d: Disk, inum: nat, zeroes: seq<nat>)
    requires sb.Valid() && 0 < sb.size <= |d| && inum < sb.ninodes
    requires |zeroes| == NDIRECT + 1 && forall k :: 0 <= k <= NDIRECT ==> zeroes[k] == 0
    requires forall j :: 0 <= j < sb.ninodes ==> ReadInode(sb, d, j).size == 0 && ReadInode(sb, d, j).addrs == zeroes
    requires UsedIs(sb, d, {})
    ensures FsOk(sb, d, map[], inum, 0, zeroes)
  {
    hide Slot, Used, ReadInode, MapOk;
    ZeroSlots(d, zeroes);
    var none: Owner := map[];
    assert none.Keys == {};
    forall j | 0 <= j < sb.ninodes
      ensures AddrsOf(sb, d, inum, zeroes, j) == zeroes && LenOf(sb, d, inum, 0, j) == 0
    {
    }
  }

  /** Ownership in plain words: a block mapped by some slot of some inode is a data block, is marked in use,
      and is mapped by no other slot of any inode; and every data block marked in use is mapped by some slot. */
  lemma OwnedOnce(sb: Super, d: Disk, owner: Owner, inum: nat, nb: nat, addrs: seq<nat>, i: nat, k: nat, j: nat, l: nat)
    requires FsOk(sb, d, owner, inum, nb, addrs) && i < sb.ninodes && j < sb.ninodes && k < SLOTS && l < SLOTS
    requires Slot(d, AddrsOf(sb, d, inum, addrs, i), k) != 0
    ensures var b := Slot(d, AddrsOf(sb, d, inum, addrs, i), k);
            && sb.IsData(b) && Used(sb, d, b)
            && (Slot(d, AddrsOf(sb, d, inum, addrs, j), l) == b ==> i == j && k == l)
  {
    hide Slot, Used, ReadInode, MapOk;
    assert OwnsOk(d, owner, i, AddrsOf(sb, d, inum, addrs, i));
    assert OwnsOk(d, owner, j, AddrsOf(sb, d, inum, addrs, j));
  }

  lemma UsedIsMapped(sb: Super, d: Disk, owner: Owner, inum: nat, nb: nat, addrs: seq<nat>, b: nat) returns (i: nat,
                     k: nat)
    requires FsOk(sb, d, owner, inum, nb, addrs) && sb.IsData(b) && Used(sb, d, b)
    ensures i < sb.ninodes && k < SLOTS && Slot(d, AddrsOf(sb, d, inum, addrs, i), k) == b
  {
    hide Slot, Used, ReadInode, MapOk;
    i, k := owner[b].0, owner[b].1;
  }

  // ---- how many blocks are left ----

  /** The blocks the bitmap does not mark. */
  ghost function FreeBlocks(sb: Super, d: Disk): (r: set<nat>)
    requires sb.Valid() && sb.size <= |d|
  {
    set b: nat | b < sb.size && !Used(sb, d, b)
  }

  ghost predicate DiskFull(sb: Super, d: Disk) {
    sb.Valid() && sb.size <= |d| && forall b :: 0 <= b < sb.size ==> Used(sb, d, b)
  }

  /** Data blocks are owned or free. */
  lemma OwnerCount(sb: Super, d: Disk, owner: Owner, inum: nat, nb: nat, addrs: seq<nat>)
    requires FsOk(sb, d, owner, inum, nb, addrs)
    ensures sb.Valid() && sb.size <= |d| && |owner| + |FreeBlocks(sb, d)| == sb.nblocks
    ensures DiskFull(sb, d) <==> |owner| == sb.nblocks
  {
    hide Used, FsCore;
    OwnedAreData(sb, d, owner, inum, nb, addrs);
    var all, free := Range(sb.DataStart(), sb.size), FreeBlocks(sb, d);
    assert owner.Keys <= all && free == all - owner.Keys;
    assert all == owner.Keys + free;
    assert |owner| == |owner.Keys|;
    if |owner| == sb.nblocks {
      assert |free| == 0;
      forall b | 0 <= b < sb.size
        ensures Used(sb, d, b)
      {
        assert b !in free;
      }
    }
    if DiskFull(sb, d) { assert free == {}; }
  }

  lemma OwnerAdd(owner: Owner, b: nat, x: (nat, nat))
    requires b !in owner
    ensures |owner[b := x]| == |owner| + 1
  {
    assert owner[b := x].Keys == owner.Keys + {b};
    assert |owner| == |owner.Keys| && |owner[b := x]| == |owner[b := x].Keys|;
  }

  /** Blocks it takes to extend a file from nb to nb1 blocks: the indirect block too, if it is not there yet. */
  function Cost(nb: nat, ind: nat, nb1: nat): (n: nat)
    requires nb <= nb1
  {
    nb1 - nb + if nb < nb1 && nb1 > NDIRECT && ind == 0 then 1 else 0
  }

  /** A file of nb0 blocks has grown to nb, and the count of owned blocks from c0 to c. */
  predicate Paid(c0: nat, ind0: nat, nb0: nat, c: nat, ind: nat, nb: nat) {
    && nb0 <= nb && (nb0 <= NDIRECT || ind0 != 0) && c == c0 + Cost(nb0, ind0, nb)
    && if nb == nb0 then ind == ind0 else ind == 0 <==> ind0 == 0 && nb <= NDIRECT
  }

  lemma PaidStep(c0: nat, ind0: nat, nb0: nat, c: nat, ind: nat, nb: nat, c': nat, ind': nat, nb': nat)
    requires Paid(c0, ind0, nb0, c, ind, nb) && nb <= nb' <= nb + 1 && c' == c + Cost(nb, ind, nb')
    requires if nb' == nb then ind' == ind else ind' == 0 <==> ind == 0 && nb < NDIRECT
    ensures Paid(c0, ind0, nb0, c', ind', nb')
  {}

  lemma PaidTrans(c0: nat, ind0: nat, nb0: nat, c: nat, ind: nat, nb: nat, c': nat, ind': nat, nb': nat)
    requires Paid(c0, ind0, nb0, c, ind, nb) && Paid(c, ind, nb, c', ind', nb')
    ensures Paid(c0, ind0, nb0, c', ind', nb')
  {}

  lemma CostMore(nb: nat, ind: nat, nb1: nat, nb2: nat)
    requires nb <= nb1 <= nb2
    ensures Cost(nb, ind, nb1) <= Cost(nb, ind, nb2)
  {}

  /** Short of blocks to get from nb to nb1, so short of blocks to get from nb0 to nbF. */
  lemma ShortLater(c0: nat, ind0: nat, nb0: nat, c: nat, ind: nat, nb: nat, nb1: nat, limit: nat)
    requires Paid(c0, ind0, nb0, c, ind, nb) && nb <= nb1 && c + Cost(nb, ind, nb1) > limit
    ensures c0 + Cost(nb0, ind0, nb1) > limit
  {}

  /** Short of blocks for the next one, so short of blocks for the rest. */
  lemma ShortNow(c0: nat, ind0: nat, nb0: nat, c: nat, ind: nat, nb: nat, nbF: nat, limit: nat)
    requires Paid(c0, ind0, nb0, c, ind, nb) && nb + 1 <= nbF && c + Cost(nb, ind, nb + 1) > limit
    ensures c0 + Cost(nb0, ind0, nbF) > limit
  {
    CostMore(nb0, ind0, nb + 1, nbF);
  }

  // ---- what a transaction has touched ----

  /** Every block that changed from d to e is among those logged since. */
  ghost predicate Tracked(d: Disk, e: Disk, logged: set<nat>, logged': set<nat>) {
    && |e| == |d| && logged <= logged'
    && forall b :: 0 <= b < |d| && b !in logged' ==> e[b] == d[b]
  }

  lemma TrackedTrans(d: Disk, e: Disk, f: Disk, l: set<nat>, l1: set<nat>, l2: set<nat>)
    requires Tracked(d, e, l, l1) && Tracked(e, f, l1, l2)
    ensures Tracked(d, f, l, l2)
  {}

  lemma TrackedWrite(d: Disk, b: nat, v: Block, l: set<nat>)
    requires b < |d|
    ensures Tracked(d, d[b := v], l, l + {b}) 
  {}

  lemma TrackedSelf(d: Disk, l: set<nat>)
    ensures Tracked(d, d, l, l)
  {}

  lemma AllocatedTracked(sb: Super, d: Disk, b: nat, l: set<nat>)
    requires sb.Valid() && sb.size <= |d| && b < sb.size
    ensures Tracked(d, Allocated(sb, d, b), l, l + {sb.BBlock(b), b})
  {
    hide SetBit;
  }
}
