/** The page allocator (kalloc.c) and address spaces (vm.c) over one physical memory. */
module Vm {
  import opened Common
  import opened PageTables
  import opened Spaces
  import opened VmEffects

  class Memory {
    const first: nat
    var freelist: nat
    var ram: seq<Frame>
    /** The free list as a sequence, who owns what, and pages handed out by Kalloc but placed in no address space. */
    ghost var free: seq<nat>
    ghost var own: map<nat, Owner>
    ghost var held: set<nat>

    ghost predicate Pooled()
      reads this
    {
      PoolOk(first, freelist, ram, free, own, held)
    }

    ghost predicate Valid()
      reads this
    {
      Pooled() && SpaceOk(ram, own)
    }

    /** All pages the allocator was ever given. */
    ghost function Pool(): (s: set<nat>)
      reads this
    {
      Elems(free) + own.Keys + held
    }

    /** Before kinit: the pages from the end of the kernel up are in no list yet. */
    constructor (end: nat, memory: seq<Frame>)
      requires 0 < end
      ensures Valid() && first == end && ram == memory && free == [] && own == map[]
      ensures forall p :: p in held <==> end <= p < |memory|
    {
      first, freelist, ram := end, 0, memory;
      free, own, held := [], map[], Range(end, |memory|);
    }

    /** kalloc; 0 is the null pointer. */
    method Kalloc() returns (p: nat)
      requires Pooled()
      modifies this
      ensures Pooled() && ram == old(ram) && own == old(own) && Pool() == old(Pool())
      ensures p == 0 <==> old(free) == []
      ensures p == 0 ==> free == old(free) && held == old(held) && freelist == old(freelist)
      ensures p != 0 ==> old(free) == [p] + free && held == old(held) + {p} && p !in old(held) && p !in own
    {
      p := freelist;
      assert free != [] ==> free[0] in free;
      if p != 0 {
        Popped(freelist, ram, free);
        freelist := ram[p].next;
        assert p in free && free == [p] + free[1..];
        assert forall q :: q in free[1..] ==> q in free;
        free, held := free[1..], held + {p};
      }
    }

    /** kfree of a page that Kalloc handed out. */
    method Kfree(p: nat)
      requires Pooled() && p in held
      modifies this
      ensures Pooled() && own == old(own) && Pool() == old(Pool())
      ensures free == [p] + old(free) && held == old(held) - {p} && ram == old(ram)[p := Run(old(freelist))]
    {
      Pushed(freelist, ram, free, p);
      ram := ram[p := Run(freelist)];
      freelist := p;
      free, held := [p] + free, held - {p};
    }

    /** kfree on a physical address; not ok is its panic. */
    method KfreeAddress(pa: nat) returns (ok: bool)
      requires Pooled() && (pa % PGSIZE == 0 && first <= pa / PGSIZE < |ram| ==> pa / PGSIZE in held)
      modifies this
      ensures Pooled() && own == old(own) && Pool() == old(Pool())
      ensures ok <==> pa % PGSIZE == 0 && first * PGSIZE <= pa < |ram| * PGSIZE
      ensures ok ==> free == [pa / PGSIZE] + old(free) && held == old(held) - {pa / PGSIZE}
      ensures !ok ==> free == old(free) && held == old(held) && ram == old(ram)
    {
      if pa % PGSIZE != 0 || pa < first * PGSIZE || pa >= |ram| * PGSIZE {
        return false;
      }
      Kfree(pa / PGSIZE);
      ok := true;
    }

    /** freerange: every whole page between two addresses joins the free list. */
    method Freerange(vstart: nat, vend: nat)
      requires Pooled() && forall p :: (vstart + PGSIZE - 1) / PGSIZE <= p && (p + 1) * PGSIZE <= vend ==> p in held
      modifies this
      ensures Pooled() && own == old(own) && Pool() == old(Pool())
      ensures forall p: nat ::
        p in free <==> p in old(free) || ((vstart + PGSIZE - 1) / PGSIZE <= p && (p + 1) * PGSIZE <= vend)
    {
      var lo := (vstart + PGSIZE - 1) / PGSIZE;
      var p := lo;
      while (p + 1) * PGSIZE <= vend
        invariant lo <= p && Pooled() && own == old(own) && Pool() == old(Pool())
        invariant forall q :: p <= q && (q + 1) * PGSIZE <= vend ==> q in held
        invariant forall q: nat :: q in free <==> q in old(free) || lo <= q < p
        invariant lo < p ==> p * PGSIZE <= vend
      {
        Kfree(p);
        p := p + 1;
      }
    }

    /** A held page becomes the table for directory entry k. */
    method AddTable(d: nat, k: nat, t: nat)
      requires Valid() && IsRoot(own, d) && IsTable(ram, d) && k < ENTRIES && !Present(At(ram, d, k)) && t in held
      modifies this
      ensures Valid() && held == old(held) - {t} && free == old(free) && Pool() == old(Pool())
      ensures t != d && t < |ram| && |ram| == |old(ram)| && t !in old(own)
      ensures own == old(own)[t := Owner(d, Table(k))] && ram == WithTable(old(ram), d, k, t)
      ensures IsTable(ram, t) && Present(At(ram, d, k)) && At(ram, d, k).ppn == t
    {
      hide SpaceOk, At;
      assert t != d && t < |ram| && t !in own;
      TableAdded(ram, own, d, k, t);
      WithTableAt(ram, d, k, t);
      LinkedKept(freelist, ram, WithTable(ram, d, k, t), free);
      ram := ram[t := Blank()];
      ram := ram[d := Words(ram[d].pte[k := Pte(t, PTE_P + PTE_W + PTE_U)])];
      own, held := own[t := Owner(d, Table(k))], held - {t};
    }

    /** walkpgdir: the table that holds the entry for virtual page v, or 0. */
    method Walkpgdir(d: nat, v: nat, alloc: bool) returns (t: nat)
      requires Valid() && IsRoot(own, d) && v < VPAGES
      modifies this
      ensures Valid() && held == old(held) && Pool() == old(Pool())
      ensures t == 0 <==> !old(Present(At(ram, d, v / ENTRIES))) && (!alloc || old(free) == [])
      ensures t == 0 || old(Present(At(ram, d, v / ENTRIES))) ==>
        ram == old(ram) && own == old(own) && free == old(free)
      ensures t != 0 ==> Owns(own, t, d, Table(v / ENTRIES)) && IsTable(ram, t) && At(ram, d, v / ENTRIES).ppn == t
      ensures t != 0 ==> Present(At(ram, d, v / ENTRIES))
      ensures t != 0 && !old(Present(At(ram, d, v / ENTRIES))) ==>
        NewTable(old(ram), old(own), old(free), ram, own, free, d, v / ENTRIES, t)
    {
      hide PoolOk;
      var k := v / ENTRIES;
      assert PageOk(ram, own, d);
      assert ram[d].pte[k] == At(ram, d, k);
      if Present(ram[d].pte[k]) {
        t := ram[d].pte[k].ppn;
        assert PageOk(ram, own, t);
        PageNonzero(first, freelist, ram, free, own, held, t);
        return;
      }
      if !alloc {
        return 0;
      }
      t := Kalloc();
      if t == 0 {
        return;
      }
      AddTable(d, k, t);
    }

    /** One round of mappages: the entry for virtual page v is made to point at physical page p. */
    method MapPage(d: nat, v: nat, p: nat, perm: nat) returns (r: MapResult)
      requires Valid() && IsRoot(own, d) && v < VPAGES && (v < UPAGES ==> p in held)
      modifies this
      ensures Valid() && IsRoot(own, d) && Pool() == old(Pool()) && |ram| == |old(ram)|
      ensures Grew(old(ram), old(own), ram, own, d)
      ensures held == if r.Mapped? && v < UPAGES then old(held) - {p} else old(held)
      ensures forall q :: q in old(held) && q < |ram| ==> ram[q] == old(ram)[q]
      ensures r.Remap? <==> old(Walk(ram, d, v / ENTRIES, v % ENTRIES)) != ZERO
      ensures r.NoMemory? <==> !old(Present(At(ram, d, v / ENTRIES))) && old(free) == []
      ensures !r.Mapped? ==> ram == old(ram) && own == old(own) && free == old(free)
      ensures r.Mapped? ==> Grants(Walk(ram, d, v / ENTRIES, v % ENTRIES), p, perm)
      ensures r.Mapped? ==>
        forall k: nat, j: nat :: Walk(ram, d, k, j) == if k == v / ENTRIES && j == v % ENTRIES then Pte(p, WithP(perm))
            else old(Walk(ram, d, k, j))
      ensures r.Mapped? && v < UPAGES ==> Owns(own, p, d, User(v / ENTRIES, v % ENTRIES))
      ensures Tables(ram, d) == old(Tables(ram, d)) + (if r.Mapped? then {v / ENTRIES} else {})
      ensures |old(free)| + |old(Tables(ram, d))| == |free| + |Tables(ram, d)|
    {
      hide PoolOk, SpaceOk, Walk, Grew, NewTable, At, IsTable, Put, Tables;
      ghost var ram0, own0, free0 := ram, own, free;
      var k, j := v / ENTRIES, v % ENTRIES;
      HeldApart(first, freelist, ram, free, own, held);
      var t := Walkpgdir(d, v, true);
      if t == 0 {
        GrewSelf(ram0, own0, d);
        WalkAbsent(ram0, d, k, j);
        return NoMemory;
      }
      if Present(At(ram0, d, k)) {
        GrewSelf(ram0, own0, d);
      } else {
        NewTableGrew(ram0, own0, free0, ram, own, free, d, k, t);
        NewTableHead(ram0, own0, free0, ram, own, free, d, k, t);
      }
      ghost var ram1, own1 := ram, own;
      WalkIs(ram, d, k, j);
      if Present(At(ram, t, j)) {
        WalkAbsent(ram0, d, k, j);
        return Remap;
      }
      SetEntry(d, k, j, t, Pte(p, WithP(perm)));
      GrewStep(ram0, own0, ram1, own1, ram, own, d);
      TablesStep(ram0, ram, d, k);
      r := Mapped;
    }

    /** A write of a present entry over an absent one. */
    method SetEntry(d: nat, k: nat, j: nat, t: nat, e: Pte)
      requires Valid() && IsRoot(own, d) && Owns(own, t, d, Table(k)) && IsTable(ram, t) && j < ENTRIES
      requires !Present(At(ram, t, j))
      requires Present(e) && (k < UDIRS ==> e.ppn in held)
      modifies this
      ensures Valid() && IsRoot(own, d) && Pool() == old(Pool()) && free == old(free) && |ram| == |old(ram)|
      ensures Grew(old(ram), old(own), ram, own, d)
      ensures held == if k < UDIRS then old(held) - {e.ppn} else old(held)
      ensures forall q :: q in old(held) && q < |ram| ==> ram[q] == old(ram)[q]
      ensures forall i: nat, l: nat :: Walk(ram, d, i, l) == if i == k && l == j then e else old(Walk(ram, d, i, l))
      ensures forall i: nat :: At(ram, d, i) == old(At(ram, d, i))
      ensures k < UDIRS ==> Owns(own, e.ppn, d, User(k, j))
    {
      hide SpaceOk, Walk, Grew, At, IsTable, Put;
      EntryMapped(ram, own, d, k, j, t, e);
      EntryWalks(ram, own, d, k, j, t, e);
      EntryGrew(ram, own, d, k, j, t, e);
      PutAt(ram, t, j, e);
      LinkedKept(freelist, ram, Put(ram, t, j, e), free);
      own, held := MappedOwn(own, d, k, j, e.ppn), if k < UDIRS then held - {e.ppn} else held;
      ram := Put(ram, t, j, e);
    }

    /** mappages; upto is the first virtual page not mapped when it returns. */
    method Mappages(d: nat, va: nat, size: nat, pa: nat, perm: nat) returns (r: MapResult, ghost upto: nat)
      requires Valid() && IsRoot(own, d) && 0 < size && va + size <= VPAGES * PGSIZE && pa % PGSIZE == 0
      requires HeldRange(held, va / PGSIZE, (va + size - 1) / PGSIZE, pa / PGSIZE)
      modifies this
      ensures Valid() && IsRoot(own, d) && Pool() == old(Pool()) && |ram| == |old(ram)|
      ensures MapProgress(old(ram), old(own), old(held), ram, own, held, d, va / PGSIZE, upto, pa / PGSIZE, WithP(perm))
      ensures va / PGSIZE <= upto <= (va + size - 1) / PGSIZE + 1
      ensures forall v: nat :: va / PGSIZE <= v < upto ==>
        Grants(Walk(ram, d, v / ENTRIES, v % ENTRIES), pa / PGSIZE + (v - va / PGSIZE), perm)
      ensures upto == va / PGSIZE ==> ram == old(ram) && own == old(own) && free == old(free)
      ensures r.Mapped? <==> upto == (va + size - 1) / PGSIZE + 1
      ensures |old(free)| + |old(Tables(ram, d))| == |free| + |Tables(ram, d)|
      ensures r.Remap? <==> !r.Mapped? && old(Walk(ram, d, upto / ENTRIES, upto % ENTRIES)) != ZERO
      ensures r.NoMemory? ==> free == [] && upto / ENTRIES !in Tables(ram, d)
    {
      hide PoolOk, SpaceOk, Walk, Tables, Pool, HeldRange, MapProgress;
      r, upto := MapRange(d, va / PGSIZE, (va + size - 1) / PGSIZE, pa / PGSIZE, perm);
      RangeGrants(old(ram), old(own), old(held), ram, own, held, d, va / PGSIZE, upto, pa / PGSIZE, perm);
    }

    /** The loop of mappages, on page numbers: a runs from the first page to the last. */
    method MapRange(d: nat, lo: nat, last: nat, p0: nat, perm: nat) returns (r: MapResult, ghost upto: nat)
      requires Valid() && IsRoot(own, d) && lo <= last < VPAGES && HeldRange(held, lo, last, p0)
      modifies this
      ensures Valid() && IsRoot(own, d) && Pool() == old(Pool()) && |ram| == |old(ram)|
      ensures MapProgress(old(ram), old(own), old(held), ram, own, held, d, lo, upto, p0, WithP(perm))
      ensures lo <= upto <= last + 1 && (r.Mapped? <==> upto == last + 1)
      ensures upto == lo ==> ram == old(ram) && own == old(own) && free == old(free)
      ensures |old(free)| + |old(Tables(ram, d))| == |free| + |Tables(ram, d)|
      ensures r.Remap? <==> !r.Mapped? && old(Walk(ram, d, upto / ENTRIES, upto % ENTRIES)) != ZERO
      ensures r.NoMemory? ==> free == [] && upto / ENTRIES !in Tables(ram, d)
    {
      hide PoolOk, SpaceOk, Walk, Grew, At, Tables, Pool, HeldRange, IsRoot, MapProgress;
      ghost var ram0, own0, held0 := ram, own, held;
      var a, p := lo, p0;
      upto := a;
      MapStart(ram, own, held, d, lo, p0, WithP(perm));
      while true
        invariant Valid() && IsRoot(own, d) && Pool() == old(Pool()) && |ram| == |ram0|
        invariant MapProgress(ram0, own0, held0, ram, own, held, d, lo, a, p0, WithP(perm))
        invariant lo <= a <= last && upto == a && p == p0 + (a - lo)
        invariant a == lo ==> ram == ram0 && own == own0 && free == old(free)
        invariant |old(free)| + |Tables(ram0, d)| == |free| + |Tables(ram, d)|
        decreases last - a
      {
        ghost var ram1, own1, held1 := ram, own, held;
        InTables(ram, d, a);
        MapNext(ram0, own0, held0, ram, own, held, d, lo, a, last, p0, WithP(perm));
        r := MapPage(d, a, p, perm);
        if !r.Mapped? {
          return;
        }
        upto := a + 1;
        MapAdvance(ram0, own0, held0, ram1, own1, held1, ram, own, held, d, lo, a, p0, WithP(perm));
        if a == last {
          break;
        }
        a, p := a + 1, p + 1;
      }
    }

    /** One user page is returned to the allocator and its entry cleared. */
    method ClearEntry(d: nat, k: nat, j: nat, t: nat)
      requires Valid() && IsRoot(own, d) && Owns(own, t, d, Table(k)) && IsTable(ram, t) && k < UDIRS && j < ENTRIES
      requires Present(At(ram, t, j))
      modifies this
      ensures Valid() && held == old(held) && Pool() == old(Pool()) && |ram| == |old(ram)|
      ensures Shrunk(old(ram), old(own), ram, own, d, Vpn(k, j), Vpn(k, j) + 1) && |free| == |old(free)| + 1
      ensures forall q :: q in held && q < |ram| ==> ram[q] == old(ram)[q]
    {
      hide SpaceOk, Walk, At, IsTable, Put, Shrunk, Vpn, Linked;
      var p := At(ram, t, j).ppn;
      EntryCleared(ram, own, d, k, j, t, Run(freelist));
      EntryShrunk(ram, own, d, k, j, t, p, Run(freelist));
      PutAt(ram[p := Run(freelist)], t, j, ZERO);
      own, held := Without(own, p), held + {p};
      Kfree(p);
      LinkedKept(freelist, ram, Put(ram, t, j, ZERO), free);
      ram := Put(ram, t, j, ZERO);
    }

    /** deallocuvm: the loop steps over a whole table's worth of pages where there is no table. */
    method Deallocuvm(d: nat, oldsz: nat, newsz: nat) returns (sz: nat)
      requires Valid() && IsRoot(own, d) && oldsz <= KERNBASE
      modifies this
      ensures Valid() && held == old(held) && Pool() == old(Pool()) && |ram| == |old(ram)|
      ensures forall q :: q in held && q < |ram| ==> ram[q] == old(ram)[q]
      ensures Others(old(ram), old(own), ram, own, d) && IsRoot(own, d)
      ensures sz == if newsz >= oldsz then oldsz else newsz
      ensures newsz >= oldsz ==> ram == old(ram) && own == old(own) && free == old(free)
      ensures newsz < oldsz ==> Shrunk(old(ram), old(own), ram, own, d, PageUp(newsz), PageUp(oldsz))
      ensures |free| + |UserPages(ram, d)| == |old(free)| + |old(UserPages(ram, d))|
    {
      hide PoolOk, SpaceOk, Walk, At, IsTable, Shrunk, Pool, Others, UserPages;
      OthersSelf(ram, own, d);
      if newsz >= oldsz {
        return oldsz;
      }
      ghost var ram0, own0, hi := ram, own, PageUp(oldsz);
      var a := PageUp(newsz);
      ghost var lo, done := a, a;
      Unshrunk(ram, own, d, lo);
      while a * PGSIZE < oldsz
        invariant Valid() && held == old(held) && Pool() == old(Pool()) && |ram| == |ram0| && IsRoot(own, d)
        invariant forall q :: q in held && q < |ram| ==> ram[q] == ram0[q]
        invariant lo <= done && done == (if a < hi then a else hi)
        invariant Shrunk(ram0, own0, ram, own, d, lo, done)
        invariant |free| + |UserPages(ram, d)| == |old(free)| + |UserPages(ram0, d)|
        decreases hi - a
      {
        ghost var ram1, own1 := ram, own;
        var k, j := a / ENTRIES, a % ENTRIES;
        var t := Walkpgdir(d, a, false);
        ghost var next := a + 1;
        if t == 0 {
          a := (k + 1) * ENTRIES - 1;
          next := if a + 1 < hi then a + 1 else hi;
          NoTable(ram, own, d, k, done, next);
        } else if Present(At(ram, t, j)) {
          PresentWalks(ram, d, a);
          ClearEntry(d, k, j, t);
          ClearPages(ram1, own1, ram, own, d, a);
        } else {
          NoEntry(ram, own, d, k, j);
        }
        assert Shrunk(ram1, own1, ram, own, d, done, next);
        ShrunkStep(ram0, own0, ram1, own1, ram, own, d, lo, done, next);
        ShrunkRoot(ram0, own0, ram, own, d, lo, next);
        done := next;
        a := a + 1;
      }
      ShrunkOthers(ram0, own0, ram, own, d, lo, hi);
      sz := newsz;
    }

    /** freevm: every page of address space d goes back to the allocator, each once. */
    method Freevm(d: nat)
      requires Valid() && IsRoot(own, d)
      modifies this
      ensures Valid() && held == old(held) && Pool() == old(Pool()) && |ram| == |old(ram)|
      ensures own == OthersOf(old(own), d)
      ensures forall q :: (q in held || q in own) && q < |ram| ==> ram[q] == old(ram)[q]
    {
      hide PoolOk, SpaceOk, Walk, At, IsTable, Shrunk, Pool;
      ghost var ram0, own0 := ram, own;
      var _ := Deallocuvm(d, KERNBASE, 0);
      ghost var ram1, own1 := ram, own;
      NoUserLeft(ram0, own0, ram, own, d);
      FreeTables(d);
      OthersFrames(ram0, own0, ram1, own1, d);
    }

    /** The loop of freevm over the directory, and the directory itself. */
    method FreeTables(d: nat)
      requires Valid() && IsRoot(own, d) && forall p :: p in own && own[p].root == d ==> !own[p].slot.User?
      modifies this
      ensures Valid() && held == old(held) && Pool() == old(Pool()) && |ram| == |old(ram)|
      ensures own == OthersOf(old(own), d)
      ensures forall q :: (q in held || q in own) && q < |ram| ==> ram[q] == old(ram)[q]
    {
      hide PoolOk, SpaceOk, At, IsTable, Pool;
      ghost var ram0, own0, held0 := ram, own, held;
      Detached(first, freelist, ram, free, own, held, d);
      assert Pool() == Elems(free) + OthersOf(own, d).Keys + (held + PagesOf(own, d)) by { PoolDetached(d); }
      held, own := held + PagesOf(own, d), OthersOf(own, d);
      assert Pool() == old(Pool()) by { PoolIs(); }
      for i := 0 to ENTRIES
        invariant Valid() && own == OthersOf(own0, d) && Pool() == old(Pool()) && |ram| == |ram0| && d < |ram|
        invariant forall q :: q in held <==> q in held0 || q == d || TableFrom(own0, d, i, q)
        invariant forall q :: (q in held || q in own) && q < |ram| ==> ram[q] == ram0[q]
      {
        TableAt(ram0, own0, d, i);
        TablesApart(first, old(freelist), ram0, old(free), own0, held0, d, i);
        AtFrame(ram0, ram, d, i);
        if Present(At(ram, d, i)) {
          FreePage(At(ram, d, i).ppn);
        }
      }
      NoMoreTables(ram0, own0, d);
      TablesApart(first, old(freelist), ram0, old(free), own0, held0, d, 0);
      FreePage(d);
    }

    lemma PoolIs()
      ensures Pool() == Elems(free) + own.Keys + held
    {
    }

    lemma PoolDetached(d: nat)
      ensures Pool() == Elems(free) + OthersOf(own, d).Keys + (held + PagesOf(own, d))
    {
    }

    /** Kfree between two valid states. */
    method FreePage(p: nat)
      requires Valid() && p in held
      modifies this
      ensures Valid() && own == old(own) && Pool() == old(Pool()) && held == old(held) - {p} && |ram| == |old(ram)|
      ensures free == [p] + old(free)
      ensures forall q :: 0 <= q < |ram| && q != p ==> ram[q] == old(ram)[q]
    {
      hide SpaceOk, Linked;
      ghost var ram0 := ram;
      Kfree(p);
      FramesKept(ram0, ram, own);
    }

    /** setupkvm: a directory with the kernel regions and an empty user part. */
    method Setupkvm(kmap: seq<KMap>) returns (r: Kvm)
      requires Valid() && forall i :: 0 <= i < |kmap| ==> RegionOk(kmap[i])
      modifies this
      ensures Valid() && Pool() == old(Pool()) && |ram| == |old(ram)| && held == old(held)
      ensures forall q :: q in held && q < |ram| ==> ram[q] == old(ram)[q]
      ensures forall q :: q in old(own) && q < |ram| ==> ram[q] == old(ram)[q]
      ensures r.NoKvm? ==> own == old(own)
      ensures r.NoKvm? <==> !MeetsRegion(kmap, |old(free)|) && |old(free)| < 1 + |KDirs(kmap, |kmap|)|
      ensures r.Space? ==> r.d !in old(own) && IsRoot(own, r.d) && OthersOf(own, r.d) == old(own)
      ensures r.Space? ==> KernelSpace(ram, r.d, kmap, |kmap|) && |old(free)| == |free| + 1 + |KDirs(kmap, |kmap|)|
      ensures r.KvmPanic? <==> MeetsRegion(kmap, |old(free)|)
      ensures r.KvmPanic? ==> Overlap(kmap)
    {
      hide PoolOk, SpaceOk, Pool, Grew, KernelSpace, KDirs, MapProgress, Tables, Walk, RegionOk, IsRoot, Clash,
        MeetsRegion, NoClash, Overlap;
      ghost var ram0, own0, held0 := ram, own, held;
      HeldApart(first, freelist, ram, free, own, held);
      var d := NewRoot();
      if d == 0 {
        NothingMeets(kmap);
        return NoKvm;
      }
      ghost var ram1, own1 := ram, own;
      KernelStart(ram, own, d, kmap);
      for n := 0 to |kmap|
        invariant Valid() && Pool() == old(Pool()) && |ram| == |ram0| && held == held0 && IsRoot(own, d)
        invariant forall q :: q in held && q < |ram| ==> ram[q] == ram0[q]
        invariant Grew(ram1, own1, ram, own, d) && KernelSpace(ram, d, kmap, n) && NoClash(kmap, n)
        invariant |old(free)| == |free| + 1 + |Tables(ram, d)|
      {
        ghost var ram2, own2, held2 := ram, own, held;
        var m := kmap[n];
        RegionRange(m, held);
        var res, upto := Mappages(d, m.virt, m.size, m.phys, m.perm);
        RegionHeld(ram2, own2, held2, ram, own, held, d, m, upto);
        GrewStep(ram1, own1, ram2, own2, ram, own, d);
        GrewFrames(ram0, own0, ram1, own1, ram, own, d);
        if res.NoMemory? {
          TooFew(ram2, own2, held2, ram, own, held, d, kmap, n, upto);
          Freevm(d);
          return NoKvm;
        }
        if res.Remap? {
          Overlapping(ram2, own2, held2, ram, own, held, d, kmap, n, upto, |old(free)|);
          return KvmPanic;
        }
        KernelAdvance(ram2, own2, held2, ram, own, held, d, kmap, n);
        NoClashStep(ram2, own2, held2, ram, own, held, d, kmap, n);
      }
      NoneMet(kmap, |old(free)|);
      GrewFrames(ram0, own0, ram1, own1, ram, own, d);
      KernelTables(ram, d, kmap);
      r := Space(d);
    }

    /** A zeroed page becomes the directory of a new address space. */
    method NewRoot() returns (d: nat)
      requires Valid()
      modifies this
      ensures Valid() && Pool() == old(Pool()) && |ram| == |old(ram)| && held == old(held)
      ensures forall q :: 0 <= q < |ram| && q != d ==> ram[q] == old(ram)[q]
      ensures d == 0 <==> old(free) == []
      ensures d == 0 ==> ram == old(ram) && own == old(own) && free == old(free)
      ensures d != 0 ==>
        d < |ram| && d !in old(own) && d !in held && own == old(own)[d := Owner(d, Root)] && |old(free)| == |free| + 1
      ensures d != 0 ==> IsRoot(own, d) && (forall k: nat :: At(ram, d, k) == ZERO) && OthersOf(own, d) == old(own)
    {
      hide SpaceOk, IsTable, At;
      d := Kalloc();
      if d != 0 {
        RootAdded(ram, own, d);
        BlankAt(ram, d, ram[d := Blank()]);
        RootFresh(ram, own, d);
        LinkedKept(freelist, ram, ram[d := Blank()], free);
        ram := ram[d := Blank()];
        own, held := own[d := Owner(d, Root)], held - {d};
      }
    }

    /** The body shared by the loops of allocuvm and copyuvm: a new page with contents f is mapped at virtual page v.
        When it fails after taking the page, the page is left in the caller's hands. */
    method PutPage(d: nat, v: nat, f: Frame, perm: nat) returns (r: MapResult, mem: nat)
      requires Valid() && IsRoot(own, d) && v < UPAGES
      modifies this
      ensures Valid() && IsRoot(own, d) && Pool() == old(Pool()) && |ram| == |old(ram)|
      ensures mem == 0 <==> old(free) == []
      ensures mem == 0 ==> r.NoMemory? && ram == old(ram) && own == old(own)
      ensures mem != 0 ==> mem < |ram| && mem !in old(held) && mem !in old(own)
      ensures r.Mapped? ==> mem != 0 && PagePut(old(ram), old(own), ram, own, d, v, Pte(mem, WithP(perm)), f)
      ensures !r.Mapped? ==> own == old(own) && forall q :: 0 <= q < |ram| && q != mem ==> ram[q] == old(ram)[q]
      ensures held == if r.Mapped? || mem == 0 then old(held) else old(held) + {mem}
      ensures forall q :: q in old(held) && q < |ram| ==> ram[q] == old(ram)[q]
      ensures r.Remap? ==> old(Walk(ram, d, v / ENTRIES, v % ENTRIES)) != ZERO
      ensures Tables(ram, d) == old(Tables(ram, d)) + (if r.Mapped? then {v / ENTRIES} else {})
      ensures |old(free)| + |old(Tables(ram, d))| == |free| + |Tables(ram, d)| + (if mem == 0 then 0 else 1)
      ensures r.NoMemory? && mem != 0 ==> free == [] && v / ENTRIES !in Tables(ram, d)
    {
      hide PoolOk, SpaceOk, Pool, Walk, At, Tables, MapProgress, PagePut;
      ghost var ram0, own0, held0 := ram, own, held;
      mem := Kalloc();
      if mem == 0 {
        return NoMemory, 0;
      }
      ghost var free1 := free;
      FillPage(mem, f, d);
      ghost var ram1, own1, held1 := ram, own, held;
      assert HeldRange(held, v, v, mem);
      ghost var upto;
      assert v * PGSIZE / PGSIZE == v && (v * PGSIZE + PGSIZE - 1) / PGSIZE == v && mem * PGSIZE / PGSIZE == mem;
      r, upto := Mappages(d, v * PGSIZE, PGSIZE, mem * PGSIZE, perm);
      PutOne(ram0, own0, held0, ram1, held1, ram, own, held, d, v, upto, mem, f, WithP(perm));
    }

    /** A held page is overwritten: memset or memmove. */
    method FillPage(p: nat, f: Frame, ghost d: nat)
      requires Valid() && p in held && IsRoot(own, d)
      modifies this
      ensures Valid() && own == old(own) && held == old(held) && free == old(free) && Pool() == old(Pool())
      ensures p < |old(ram)| && ram == old(ram)[p := f]
      ensures (forall i: nat, j: nat :: Walk(ram, d, i, j) == old(Walk(ram, d, i, j)))
      ensures (forall k: nat :: At(ram, d, k) == old(At(ram, d, k)))
      ensures Tables(ram, d) == old(Tables(ram, d))
    {
      hide SpaceOk, Walk;
      FramesKept(ram, ram[p := f], own);
      LinkedKept(freelist, ram, ram[p := f], free);
      ram := ram[p := f];
    }

    /** allocuvm; TooLarge and OutOfMemory are its return value 0, and every page it took but the tables is back. */
    method Allocuvm(d: nat, oldsz: nat, newsz: nat) returns (r: Growth)
      requires Valid() && IsRoot(own, d)
      modifies this
      ensures Valid() && IsRoot(own, d) && Pool() == old(Pool()) && |ram| == |old(ram)|
      ensures !r.RemapPanic? ==> held == old(held)
      ensures forall q :: q in old(held) && q < |ram| ==> ram[q] == old(ram)[q]
      ensures Others(old(ram), old(own), ram, own, d)
      ensures r.TooLarge? <==> newsz >= KERNBASE
      ensures r.TooLarge? || newsz < oldsz ==> ram == old(ram) && own == old(own) && free == old(free)
      ensures r.Sized? ==> r.n == if newsz < oldsz then oldsz else newsz
      ensures r.Sized? && oldsz <= newsz ==> Populated(old(ram), old(own), ram, own, d, PageUp(oldsz), PageUp(newsz))
      ensures r.OutOfMemory? ==>
        oldsz <= newsz && RolledBack(old(ram), old(own), ram, own, d, PageUp(oldsz), PageUp(newsz))
      ensures r.OutOfMemory? ==> forall p :: p in old(free) && p !in free ==> TableFrom(own, d, 0, p)
      ensures oldsz <= newsz < KERNBASE ==> PageUp(oldsz) <= PageUp(newsz)
      ensures r.RemapPanic? <==>
        oldsz <= newsz < KERNBASE && MeetsMapped(old(ram), d, PageUp(oldsz), PageUp(newsz), |old(free)|)
      ensures oldsz <= newsz < KERNBASE && !r.RemapPanic? ==>
        (r.OutOfMemory? <==> |old(free)| < PagesNeeded(old(ram), d, PageUp(oldsz), PageUp(newsz)))
      ensures r.Sized? && oldsz <= newsz ==>
        |old(free)| == |free| + PagesNeeded(old(ram), d, PageUp(oldsz), PageUp(newsz))
      ensures r.Sized? && oldsz <= newsz ==>
        Tables(ram, d) == old(Tables(ram, d)) + DirsOf(PageUp(oldsz), PageUp(newsz))
      ensures r.OutOfMemory? ==>
        Tables(ram, d) == old(Tables(ram, d)) +
          DirsOf(PageUp(oldsz), Reach(old(Tables(ram, d)), PageUp(oldsz), PageUp(oldsz), |old(free)|))
      ensures !r.RemapPanic? ==> Count(|free|, ram, d) == Count(|old(free)|, old(ram), d)
    {
      hide PoolOk, SpaceOk, Pool, Walk, Populated, PagePut, RolledBack, Tables, Shrunk, Unmapped, IsRoot, At, PageUp,
        TableFrom, Elems, Others, PagesNeeded, MeetsMapped, Counted, UserPages, Reach, DirsOf, Needed;
      OthersSelf(ram, own, d);
      if newsz >= KERNBASE {
        return TooLarge;
      }
      if newsz < oldsz {
        return Sized(oldsz);
      }
      ghost var ram0, own0, lo, hi := ram, own, PageUp(oldsz), PageUp(newsz);
      var a := PageUp(oldsz);
      ghost var f0 := |free|;
      PopulatedStart(ram, own, d, lo);
      CountStart(ram, d, lo, f0);
      PoolIs();
      PageUpMono(oldsz, newsz);
      PageUpLess(a, newsz);
      while a * PGSIZE < newsz
        invariant Valid() && IsRoot(own, d) && Pool() == old(Pool()) && |ram| == |ram0| && held == old(held)
        invariant forall q :: q in held && q < |ram| ==> ram[q] == ram0[q]
        invariant lo <= a <= hi <= UPAGES && (a * PGSIZE < newsz <==> a < hi) && (a == hi || oldsz < newsz)
        invariant Populated(ram0, own0, ram, own, d, lo, a) && Counted(ram0, ram, d, lo, a, f0, |free|)
        invariant Count(|free|, ram, d) == Count(f0, ram0, d)
      {
        ghost var ram1, own1, f1 := ram, own, |free|;
        var res, mem := PutPage(d, a, Blank(), PTE_W + PTE_U);
        if res.Mapped? {
          PopulatedStep(ram0, own0, ram1, own1, ram, own, d, lo, a, mem);
          CountStep(ram0, ram1, ram, d, lo, a, f0, f1, |free|);
          PutPages(ram1, own1, ram, own, d, a, Pte(mem, WithP(PTE_W + PTE_U)), Blank());
          a := a + 1;
          PageUpLess(a, newsz);
        } else {
          if mem != 0 {
            PopulatedFill(ram0, own0, ram1, ram, own, d, lo, a, mem);
          }
          if res.Remap? {
            MetMapped(ram0, own0, ram1, own1, d, lo, a, hi, f0, f1);
            PopulatedOthers(ram0, own0, ram, own, d, lo, a);
            return RemapPanic;
          }
          PopulatedUnmapped(ram0, own0, ram1, own1, d, lo, a);
          RanOut(ram0, ram1, d, lo, a, hi, f0, f1);
          StopsAt(ram0, ram1, d, lo, a, f0, f1);
          SameWalks(ram1, ram, own, d);
          GiveBack(d, oldsz, newsz, mem, ram0, own0, a);
          PoolIs();
          NoUserLeak(first, old(freelist), ram0, old(free), own0, old(held), freelist, ram, free, own, held, d, lo, hi);
          RolledBackOthers(ram0, own0, ram, own, d, lo, hi);
          return OutOfMemory;
        }
      }
      PopulatedOthers(ram0, own0, ram, own, d, lo, a);
      AllMapped(ram0, own0, ram, own, d, lo, hi, f0, |free|);
      TablesAfter(ram0, ram, d, lo, hi, f0, |free|);
      r := Sized(newsz);
    }

    /** The failure path of allocuvm: unmap what was mapped, then free the page in hand, if any. */
    method GiveBack(d: nat, oldsz: nat, newsz: nat, mem: nat, ghost ram0: seq<Frame>, ghost own0: map<nat, Owner>,
                    ghost a: nat)
      requires Valid() && IsRoot(own, d) && oldsz < newsz < KERNBASE && (mem != 0 ==> mem in held)
      requires PageUp(oldsz) <= a <= PageUp(newsz) && Populated(ram0, own0, ram, own, d, PageUp(oldsz), a)
      modifies this
      ensures Valid() && IsRoot(own, d) && Pool() == old(Pool()) && |ram| == |old(ram)|
      ensures held == old(held) - (if mem == 0 then {} else {mem})
      ensures forall q :: q in held && q < |ram| ==> ram[q] == old(ram)[q]
      ensures RolledBack(ram0, own0, ram, own, d, PageUp(oldsz), PageUp(newsz))
      ensures Tables(ram, d) == old(Tables(ram, d))
      ensures |free| + |UserPages(ram, d)| == |old(free)| + |old(UserPages(ram, d))| + if mem == 0 then 0 else 1
    {
      hide PoolOk, SpaceOk, Pool, Walk, Populated, RolledBack, Shrunk, IsRoot, Tables, UserPages, PageUp;
      ghost var ram1, own1 := ram, own;
      var _ := Deallocuvm(d, newsz, oldsz);
      PageUpMono(oldsz, newsz);
      ShrunkPages(ram1, own1, ram, own, d, PageUp(oldsz), PageUp(newsz));
      Undone(ram0, own0, ram1, own1, ram, own, d, PageUp(oldsz), a, PageUp(newsz));
      if mem != 0 {
        ghost var ram2 := ram;
        HeldApart(first, freelist, ram, free, own, held);
        FreePage(mem);
        SameWalks(ram2, ram, own, d);
        UndoneFill(ram0, own0, ram2, ram, own, d, PageUp(oldsz), PageUp(newsz), mem);
      }
    }

    /** copyuvm: the child gets a copy of every page below sz. It keeps a page it took only in the case Leaks names. */
    method Copyuvm(pgdir: nat, sz: nat, kmap: seq<KMap>) returns (r: Copied)
      requires Valid() && IsRoot(own, pgdir) && sz <= KERNBASE && forall i :: 0 <= i < |kmap| ==> RegionOk(kmap[i])
      modifies this
      ensures Valid() && Pool() == old(Pool()) && |ram| == |old(ram)|
      ensures forall q :: (q in old(held) || q in old(own)) && q < |ram| ==> ram[q] == old(ram)[q]
      ensures r.Child? ==> r.d !in old(own) && IsRoot(own, r.d) && OthersOf(own, r.d) == old(own)
      ensures r.Child? ==> CopiedUpTo(old(ram), ram, own, pgdir, r.d, PageUp(sz))
      ensures r.NoCopy? ==> own == old(own)
      ensures !r.CopyPanic? ==>
        old(held) <= held && (held == old(held) <==> !Leaks(|old(free)|, |KDirs(kmap, |kmap|)|, PageUp(sz)))
      ensures !r.CopyPanic? ==> (r.Child? <==> |old(free)| >= 1 + |KDirs(kmap, |kmap|)| + PagesFor(PageUp(sz)))
      ensures r.CopyPanic? <==>
        || MeetsRegion(kmap, |old(free)|)
        || (|old(free)| >= 1 + |KDirs(kmap, |kmap|)|
            && HoleReached(old(ram), pgdir, PageUp(sz), |old(free)| - 1 - |KDirs(kmap, |kmap|)|))
      ensures r.CopyPanic? ==> Overlap(kmap) || Holed(old(ram), pgdir, PageUp(sz))
    {
      hide PoolOk, SpaceOk, Pool, Walk, At, Tables, KernelSpace, KDirs, RegionOk, IsRoot, PageUp, Overlap, Holed,
        CopiedUpTo, CopyInv, Leaks, PagesFor, MeetsRegion, HoleReached;
      var kvm := Setupkvm(kmap);
      ghost var kdirs := KDirs(kmap, |kmap|);
      LeakCases(|old(free)|, |kdirs|, PageUp(sz));
      if kvm.KvmPanic? {
        return CopyPanic;
      }
      if kvm.NoKvm? {
        return NoCopy;
      }
      SizeFits(sz);
      CopyStart(old(ram), old(own), ram, own, pgdir, kvm.d, kmap);
      r := CopyPages(pgdir, kvm.d, sz, old(ram), old(own), kdirs);
      CopyEnd(old(ram), old(own), ram, own, pgdir, kvm.d, kdirs, PageUp(sz));
    }

    /** The entry walkpgdir finds for virtual page v; ZERO if there is no table or the entry is not present. */
    method Lookup(d: nat, v: nat) returns (e: Pte)
      requires Valid() && IsRoot(own, d) && v < UPAGES
      modifies this
      ensures Valid() && ram == old(ram) && own == old(own) && free == old(free) && held == old(held)
      ensures Pool() == old(Pool())
      ensures e == Walk(ram, d, v / ENTRIES, v % ENTRIES)
    {
      hide PoolOk, SpaceOk, Pool, Walk, At, IsTable;
      var t := Walkpgdir(d, v, false);
      WalkCases(ram, d, v / ENTRIES, v % ENTRIES);
      e := if t == 0 then ZERO else Norm(At(ram, t, v % ENTRIES));
    }

    /** The loop of copyuvm and its failure path. */
    method CopyPages(pgdir: nat, d: nat, sz: nat, ghost ram0: seq<Frame>, ghost own0: map<nat, Owner>,
                     ghost kdirs: set<nat>) returns (r: Copied)
      requires Valid() && PageUp(sz) <= UPAGES && IsRoot(own0, pgdir) && SpaceOk(ram0, own0)
      requires CopyInv(ram0, own0, ram, own, pgdir, d, kdirs, 0)
      modifies this
      ensures Valid() && Pool() == old(Pool()) && |ram| == |ram0|
      ensures forall q :: q in old(held) && q < |ram| ==> ram[q] == old(ram)[q]
      ensures forall q :: q in own0 && q < |ram| ==> ram[q] == ram0[q]
      ensures r.Child? ==> r.d == d && held == old(held) && CopyInv(ram0, own0, ram, own, pgdir, d, kdirs, PageUp(sz))
      ensures r.Child? ==> |old(free)| >= PagesFor(PageUp(sz))
      ensures r.NoCopy? ==> own == own0 && |old(free)| < PagesFor(PageUp(sz)) && old(held) <= held
      ensures r.NoCopy? ==> (held == old(held) <==> |old(free)| % (ENTRIES + 1) != 1)
      ensures r.CopyPanic? <==> HoleReached(ram0, pgdir, PageUp(sz), |old(free)|)
      ensures r.CopyPanic? ==> Holed(ram0, pgdir, PageUp(sz))
    {
      hide PoolOk, SpaceOk, Pool, Walk, At, Tables, IsRoot, PageUp, Holed, CopyInv, PagesFor, PagePut, OthersOf, Owns,
        HoleReached;
      var v := 0;
      PageUpLess(v, sz);
      NoPages();
      while v * PGSIZE < sz
        invariant Valid() && Pool() == old(Pool()) && held == old(held) && |ram| == |old(ram)|
        invariant forall q :: q in held && q < |ram| ==> ram[q] == old(ram)[q]
        invariant v <= PageUp(sz) && (v * PGSIZE < sz <==> v < PageUp(sz))
        invariant CopyInv(ram0, own0, ram, own, pgdir, d, kdirs, v)
        invariant |free| + PagesFor(v) == |old(free)|
      {
        CopyHead(ram0, own0, ram, own, pgdir, d, kdirs, v);
        var e := Lookup(pgdir, v);
        if e == ZERO {
          IsHoled(ram0, pgdir, v, PageUp(sz), |old(free)|);
          CopyFrames(ram0, own0, ram, own, pgdir, d, kdirs, v);
          return CopyPanic;
        }
        ParentPage(ram0, own0, pgdir, v);
        ghost var ram1, own1 := ram, own;
        var res, mem := PutPage(d, v, ram[e.ppn], e.flags);
        PagesStep(v, PageUp(sz));
        OneTable(Tables(ram1, d), v / ENTRIES);
        if !res.Mapped? {
          NoHoleReached(ram0, own0, ram1, own, pgdir, d, kdirs, v, v + 1, PageUp(sz), |old(free)|);
          CopyFrames(ram0, own0, ram1, own, pgdir, d, kdirs, v);
          Freevm(d);
          return NoCopy;
        }
        CopyStep(ram0, own0, ram1, own1, ram, own, pgdir, d, kdirs, v, mem);
        v := v + 1;
        PageUpLess(v, sz);
      }
      NoHoleReached(ram0, own0, ram, own, pgdir, d, kdirs, v, v, PageUp(sz), |old(free)|);
      CopyFrames(ram0, own0, ram, own, pgdir, d, kdirs, v);
      r := Child(d);
    }

    /** The life of an address space: setupkvm, any sequence of allocuvm and deallocuvm, freevm.
        Unless it panics, the free list holds the pages it held before, each once. */
    method Lifetime(kmap: seq<KMap>, ops: seq<Resize>) returns (panic: bool)
      requires Valid() && forall i :: 0 <= i < |kmap| ==> RegionOk(kmap[i])
      requires forall i :: 0 <= i < |ops| && ops[i].Shrink? ==> ops[i].oldsz <= KERNBASE
      modifies this
      ensures Valid() && |ram| == |old(ram)|
      ensures !panic ==> own == old(own) && held == old(held) && Elems(free) == old(Elems(free))
      ensures panic <==>
        || MeetsRegion(kmap, |old(free)|)
        || (|old(free)| >= 1 + |KDirs(kmap, |kmap|)| && AfterOps(NewPart(kmap, |old(free)|), ops, |ops|).None?)
      ensures panic ==> Overlap(kmap) || Overgrows(ops)
      ensures forall q :: q in old(own) && q < |ram| ==> ram[q] == old(ram)[q]
    {
      hide PoolOk, SpaceOk, Pool, Walk, At, KernelSpace, KDirs, RegionOk, IsRoot, PageUp, Elems, Shrunk, Populated,
        RolledBack, Unmapped, TableFrom, Others, TopAfter, Overgrows, Overlap, MeetsMapped, PagesNeeded, MeetsRegion,
        AfterOps, Resized, UserPages, Tables, Reach, DirsOf, NewPart;
      ghost var ram0, own0, head0, free0 := ram, own, freelist, free;
      ghost var x0 := NewPart(kmap, |free|);
      PoolIs();
      var kvm := Setupkvm(kmap);
      if kvm.KvmPanic? {
        return true;
      }
      if kvm.Space? {
        var d := kvm.d;
        KernelOnly(ram, d, kmap);
        KernelPart(ram, d, kmap, |free0|, |free|);
        assert TopAfter(ops, 0) == 0 by { TopStart(ops); }
        assert AfterOps(x0, ops, 0) == Some(x0) by { NoOps(x0, ops); }
        for i := 0 to |ops|
          invariant Valid() && IsRoot(own, d) && Pool() == old(Pool()) && held == old(held) && |ram| == |ram0|
          invariant OthersOf(own, d) == own0 && Unmapped(ram, d, TopAfter(ops, i), UPAGES)
          invariant forall q :: q in own0 && q < |ram| ==> ram[q] == ram0[q]
          invariant AfterOps(x0, ops, i) == Some(PartOf(ram, d, |free|))
        {
          ghost var ram1, own1, f1 := ram, own, |free|;
          var op := ops[i];
          if op.Grow? {
            var res := Allocuvm(d, op.oldsz, op.newsz);
            OthersStay(ram0, own0, ram1, own1, ram, own, d);
            GrowPart(ram1, own1, f1, ram, own, |free|, d, op.oldsz, op.newsz, res);
            OpsStep(x0, ops, i);
            if res.RemapPanic? {
              TopMet(ram1, d, ops, i, f1);
              PanicStays(x0, ops, i + 1, |ops|);
              return true;
            }
            TopGrown(ram1, own1, ram, own, d, ops, i);
          } else {
            var _ := Deallocuvm(d, op.oldsz, op.newsz);
            OthersStay(ram0, own0, ram1, own1, ram, own, d);
            ShrinkPart(ram1, own1, f1, ram, own, |free|, d, op.oldsz, op.newsz);
            OpsStep(x0, ops, i);
            TopShrunk(ram1, own1, ram, own, d, ops, i);
          }
        }
        Freevm(d);
      }
      PoolIs();
      SameFree(first, head0, ram0, free0, freelist, ram, free, own, held);
      panic := false;
    }
  }

  /** A machine with n pages beside those of one new address space with kernel regions kmap. */
  method SmallMachine(n: nat, kmap: seq<KMap>) returns (m: Memory, d: nat)
    requires !Overlap(kmap) && forall i :: 0 <= i < |kmap| ==> RegionOk(kmap[i])
    ensures fresh(m) && m.Valid() && IsRoot(m.own, d) && |m.free| == n && m.held == {}
    ensures Tables(m.ram, d) == KDirs(kmap, |kmap|) && Unmapped(m.ram, d, 0, UPAGES)
  {
    hide PoolOk, SpaceOk, Walk, At, Tables, Unmapped, KDirs, MeetsRegion, Overlap, RegionOk;
    var pages := |KDirs(kmap, |kmap|)| + 1 + n;
    m := new Memory(1, seq(pages + 1, i => Run(0)));
    m.Freerange(PGSIZE, (pages + 1) * PGSIZE);
    assert forall p: nat :: p in m.free <==> 1 <= p < pages + 1;
    FreeCard(m.first, m.freelist, m.ram, m.free, m.own, m.held, 1, pages + 1);
    m.PoolIs();
    HeldApart(m.first, m.freelist, m.ram, m.free, m.own, m.held);
    assert m.held == {};
    EmptySpace(m.ram);
    ApartMeets(kmap, |m.free|);
    var kvm := m.Setupkvm(kmap);
    d := kvm.d;
    KernelTables(m.ram, d, kmap);
    KernelOnly(m.ram, d, kmap);
  }

  /** A failed allocuvm that does not restore the mapping: page 1 was mapped, and is gone. */
  method RollbackLosesPage(kmap: seq<KMap>) returns (m: Memory, d: nat, ghost was: Pte, r: Growth)
    requires !Overlap(kmap) && forall i :: 0 <= i < |kmap| ==> RegionOk(kmap[i])
    ensures m.Valid() && IsRoot(m.own, d) && r.OutOfMemory? && was != ZERO && Walk(m.ram, d, 0, 1) == ZERO
  {
    hide PoolOk, SpaceOk, Walk, At, Tables, Unmapped, PagesNeeded, MeetsMapped, Memory.Pool, DirsOf, Reach, UserPages,
      Count, RegionOk, Overlap, KDirs;
    m, d := SmallMachine(2, kmap);
    NeedOne(m.ram, d, kmap, 1);
    UnmappedMeets(m.ram, d, 1, 2, |m.free|);
    SmallNeeds();
    var grown := m.Allocuvm(d, PGSIZE, 2 * PGSIZE);
    assert grown.Sized?;
    assert BlankPage(m.ram, m.own, d, 0, 1);
    was := Walk(m.ram, d, 0, 1);
    NothingFree(m.ram, d, 0, 2);
    r := m.Allocuvm(d, 0, 2 * PGSIZE);
  }

  /** A failed copyuvm that loses a page, whatever the kernel regions: with two pages beside those of the kernel
      part it takes one for the directory and one for the copy, finds none for the table, and frees only the
      directory and the kernel's tables. */
  method CopyLosesPage(kmap: seq<KMap>) returns (m: Memory, r: Copied, ghost before: set<nat>)
    requires !Overlap(kmap) && forall i :: 0 <= i < |kmap| ==> RegionOk(kmap[i])
    ensures m.Valid() && r.NoCopy? && before < m.held
  {
    hide PoolOk, SpaceOk, Walk, At, Tables, IsRoot, Holed, CopiedUpTo, Leaks, Memory.Pool, KDirs, Overlap, RegionOk,
      MeetsRegion, HoleReached;
    var d;
    m, d := OnePage(kmap);
    before := m.held;
    LeaksAtTwo(|KDirs(kmap, |kmap|)|, 1);
    SmallNeeds();
    r := m.Copyuvm(d, PGSIZE, kmap);
  }

  /** An address space with page 0 mapped, and two free pages beside those that another kernel part takes. */
  method OnePage(kmap: seq<KMap>) returns (m: Memory, d: nat)
    requires !Overlap(kmap) && forall i :: 0 <= i < |kmap| ==> RegionOk(kmap[i])
    ensures fresh(m) && m.Valid() && IsRoot(m.own, d) && m.held == {} && !Holed(m.ram, d, 1)
    ensures |m.free| == |KDirs(kmap, |kmap|)| + 2
  {
    hide PoolOk, SpaceOk, Walk, At, Tables, Unmapped, PagesNeeded, MeetsMapped, Memory.Pool, DirsOf, Reach, UserPages,
      Count, RegionOk, Overlap, KDirs;
    m, d := SmallMachine(|KDirs(kmap, |kmap|)| + 4, kmap);
    NeedOne(m.ram, d, kmap, 0);
    UnmappedMeets(m.ram, d, 0, 1, |m.free|);
    SmallNeeds();
    var grown := m.Allocuvm(d, 0, PGSIZE);
    assert grown.Sized?;
    assert BlankPage(m.ram, m.own, d, 0, 0);
    NotHoled(m.ram, d);
  }
}
