/** What the steps of kalloc.c and vm.c do to memory, as relations on values, and the lemmas that compose them. */
module VmEffects {
  import opened Common
  import opened PageTables

  const UPAGES: nat := 0x80000
  const VPAGES: nat := 0x100000

  predicate LinkAt(ram: seq<Frame>, free: seq<nat>, i: nat) {
    i < |free| && free[i] < |ram| && ram[free[i]] == Run(if i + 1 < |free| then free[i + 1] else 0)
  }

  /** The pages of free are chained from head, in order; 0 is the null pointer. */
  ghost predicate Linked(head: nat, ram: seq<Frame>, free: seq<nat>) {
    && head == (if free == [] then 0 else free[0])
    && forall i :: 0 <= i < |free| ==> LinkAt(ram, free, i)
  }

  /** Free, owned and held pages are disjoint, and the free list holds each free page once. */
  ghost predicate PoolOk(first: nat, head: nat, ram: seq<Frame>, free: seq<nat>, own: map<nat, Owner>, held: set<nat>) {
    && 0 < first && Linked(head, ram, free) && Distinct(free)
    && (forall p :: p in free ==> first <= p < |ram| && p !in own && p !in held)
    && (forall p :: p in held ==> first <= p < |ram| && p !in own)
    && (forall p :: p in own ==> first <= p < |ram|)
  }

  lemma LinkedKept(head: nat, ram: seq<Frame>, ram': seq<Frame>, free: seq<nat>)
    requires Linked(head, ram, free) && |ram'| == |ram| && forall p :: p in free && p < |ram| ==> ram'[p] == ram[p]
    ensures Linked(head, ram', free)
  {
    forall i | 0 <= i < |free|
      ensures LinkAt(ram', free, i)
    {
      assert LinkAt(ram, free, i);
      assert free[i] in free;
    }
  }

  lemma Popped(head: nat, ram: seq<Frame>, free: seq<nat>)
    requires Linked(head, ram, free) && free != [] && Distinct(free)
    ensures head < |ram| && ram[head].Run? && Linked(ram[head].next, ram, free[1..]) && Distinct(free[1..])
    ensures head !in free[1..]
  {
    assert LinkAt(ram, free, 0);
    var rest := free[1..];
    forall i | 0 <= i < |rest|
      ensures LinkAt(ram, rest, i)
    {
      assert LinkAt(ram, free, i + 1);
    }
  }

  lemma Pushed(head: nat, ram: seq<Frame>, free: seq<nat>, p: nat)
    requires Linked(head, ram, free) && Distinct(free) && p < |ram| && p !in free
    ensures Linked(p, ram[p := Run(head)], [p] + free) && Distinct([p] + free)
  {
    var ram', more := ram[p := Run(head)], [p] + free;
    forall i | 0 <= i < |more|
      ensures LinkAt(ram', more, i)
    {
      if i > 0 {
        assert LinkAt(ram, free, i - 1);
        assert more[i] in free;
      }
    }
  }

  lemma PageNonzero(first: nat, head: nat, ram: seq<Frame>, free: seq<nat>, own: map<nat, Owner>, held: set<nat>,
                    p: nat)
    requires PoolOk(first, head, ram, free, own, held) && (p in own || p in held || p in free)
    ensures 0 < p < |ram|
  {
  }

  datatype MapResult = Mapped | NoMemory | Remap

  /** A fresh table t for entry k of directory d, taken from the head of the free list. */
  ghost predicate NewTable(ram: seq<Frame>, own: map<nat, Owner>, free: seq<nat>,
                           ram': seq<Frame>, own': map<nat, Owner>, free': seq<nat>, d: nat, k: nat, t: nat)
  {
    && IsTable(ram, d) && k < ENTRIES && t < |ram| && t != d && t !in own
    && free == [t] + free' && own' == own[t := Owner(d, Table(k))] && ram' == WithTable(ram, d, k, t)
  }

  lemma NewTableHead(ram: seq<Frame>, own: map<nat, Owner>, free: seq<nat>,
                     ram': seq<Frame>, own': map<nat, Owner>, free': seq<nat>, d: nat, k: nat, t: nat)
    requires NewTable(ram, own, free, ram', own', free', d, k, t)
    ensures t in free && Owns(own', t, d, Table(k)) && |ram'| == |ram|
  {
  }

  lemma HeldApart(first: nat, head: nat, ram: seq<Frame>, free: seq<nat>, own: map<nat, Owner>, held: set<nat>)
    requires PoolOk(first, head, ram, free, own, held)
    ensures forall p :: p in held ==> p !in free && p !in own
  {
  }

  lemma WalkAbsent(ram: seq<Frame>, d: nat, k: nat, j: nat)
    ensures !Present(At(ram, d, k)) ==> Walk(ram, d, k, j) == ZERO
    ensures Walk(ram, d, k, j) != ZERO ==> Present(Walk(ram, d, k, j))
  {
  }

  lemma GrewSelf(ram: seq<Frame>, own: map<nat, Owner>, d: nat)
    requires IsRoot(own, d)
    ensures Grew(ram, own, ram, own, d)
  {
  }

  /** pte | PTE_P. */
  function WithP(flags: nat): (r: nat)
    ensures r % 2 == 1 && r / 2 == flags / 2
  {
    if flags % 2 == 1 then flags else flags + 1
  }

  /** Entry e is present, leads to page p, and permits what perm does: its other bits are those of perm. */
  predicate Grants(e: Pte, p: nat, perm: nat) { e.ppn == p && e.flags % 2 == 1 && e.flags / 2 == perm / 2 }

  predicate Writable(flags: nat) { flags / PTE_W % 2 == 1 }

  predicate ForUser(flags: nat) { flags / PTE_U % 2 == 1 }

  /** A page may be written, or used by user code, exactly when its permissions say so. */
  lemma GrantsExactly(e: Pte, p: nat, perm: nat)
    requires Grants(e, p, perm)
    ensures Present(e) && (Writable(e.flags) <==> Writable(perm)) && (ForUser(e.flags) <==> ForUser(perm))
  {
    assert e.flags / 4 == e.flags / 2 / 2 && perm / 4 == perm / 2 / 2;
  }

  /** Address space d gained tables and pages and lost nothing; the others are untouched. */
  ghost predicate Grew(ram: seq<Frame>, own: map<nat, Owner>, ram': seq<Frame>, own': map<nat, Owner>, d: nat) {
    && Others(ram, own, ram', own', d) && UserKept(ram, own, ram', own', d, 0, 0) && IsRoot(own', d)
    && forall k: nat :: Present(At(ram, d, k)) ==> At(ram', d, k) == At(ram, d, k)
  }

  lemma GrewStep(ram: seq<Frame>, own: map<nat, Owner>, ram': seq<Frame>, own': map<nat, Owner>, ram'': seq<Frame>,
                 own'': map<nat, Owner>, d: nat)
    requires Grew(ram, own, ram', own', d) && Grew(ram', own', ram'', own'', d)
    ensures Grew(ram, own, ram'', own'', d)
  {
    OthersStep(ram, own, ram', own', ram'', own'', d);
    forall p: nat | UserOutside(own, p, d, 0, 0)
      ensures p in own'' && own''[p] == own[p] && (p < |ram| ==> ram''[p] == ram[p])
    {
      assert UserOutside(own', p, d, 0, 0);
    }
  }

  lemma NewTableGrew(ram: seq<Frame>, own: map<nat, Owner>, free: seq<nat>,
                     ram': seq<Frame>, own': map<nat, Owner>, free': seq<nat>, d: nat, k: nat, t: nat)
    requires SpaceOk(ram, own) && IsRoot(own, d) && !Present(At(ram, d, k))
    requires NewTable(ram, own, free, ram', own', free', d, k, t)
    ensures Grew(ram, own, ram', own', d) && IsRoot(own', d) && |free| == |free'| + 1
    ensures forall q :: 0 <= q < |ram| && q != t && q != d ==> ram'[q] == ram[q]
    ensures forall i: nat, j: nat :: Walk(ram', d, i, j) == Walk(ram, d, i, j)
    ensures forall i: nat :: Present(At(ram', d, i)) <==> Present(At(ram, d, i)) || i == k
  {
    hide At, IsTable;
    WithTableAt(ram, d, k, t);
    TableAdded(ram, own, d, k, t);
    assert OthersOf(own', d) == OthersOf(own, d);
  }

  lemma EntryGrew(ram: seq<Frame>, own: map<nat, Owner>, d: nat, k: nat, j: nat, t: nat, e: Pte)
    requires SpaceOk(ram, own) && IsRoot(own, d) && Owns(own, t, d, Table(k)) && IsTable(ram, t) && j < ENTRIES
    requires k < UDIRS ==> e.ppn !in own
    ensures Grew(ram, own, Put(ram, t, j, e), MappedOwn(own, d, k, j, e.ppn), d)
    ensures forall i: nat :: At(Put(ram, t, j, e), d, i) == At(ram, d, i)
  {
    hide At, IsTable, Put;
    PutAt(ram, t, j, e);
    assert t != d;
    var own' := MappedOwn(own, d, k, j, e.ppn);
    assert OthersOf(own', d) == OthersOf(own, d);
  }

  /** The directory entries that have a table. */
  ghost function Tables(ram: seq<Frame>, d: nat): (r: set<nat>) { set k: nat | k < ENTRIES && Present(At(ram, d, k)) }

  /** The directory entries that virtual pages [lo, hi) need. */
  function DirsOf(lo: nat, hi: nat): (r: set<nat>) { set v: nat | lo <= v < hi :: v / ENTRIES }

  lemma InTables(ram: seq<Frame>, d: nat, v: nat)
    requires v < VPAGES
    ensures v / ENTRIES in Tables(ram, d) <==> Present(At(ram, d, v / ENTRIES))
  {
  }

  lemma TablesStep(ram: seq<Frame>, ram': seq<Frame>, d: nat, k: nat)
    requires k < ENTRIES && forall i: nat :: Present(At(ram', d, i)) <==> Present(At(ram, d, i)) || i == k
    ensures Tables(ram', d) == Tables(ram, d) + {k}
    ensures |Tables(ram', d)| == |Tables(ram, d)| + if Present(At(ram, d, k)) then 0 else 1
  {
    hide At;
    assert Tables(ram', d) == Tables(ram, d) + {k};
    if Present(At(ram, d, k)) {
      assert Tables(ram, d) + {k} == Tables(ram, d);
    }
  }

  lemma DirsStep(lo: nat, v: nat)
    requires lo <= v
    ensures DirsOf(lo, v + 1) == DirsOf(lo, v) + {v / ENTRIES}
  {
    forall k | k in DirsOf(lo, v + 1)
      ensures k in DirsOf(lo, v) + {v / ENTRIES}
    {
    }
    assert v / ENTRIES in DirsOf(lo, v + 1);
  }

  /** Pages that were held keep their contents, and are still held or became user pages of d. */
  ghost predicate HeldKept(ram: seq<Frame>, held: set<nat>, ram': seq<Frame>, own': map<nat, Owner>, held': set<nat>,
                           d: nat) {
    && |ram'| == |ram|
    && forall q: nat :: q in held ==> (q < |ram| ==> ram'[q] == ram[q]) && (q in held' || UserOutside(own', q, d, 0, 0))
  }

  lemma HeldKeptStep(ram0: seq<Frame>, held0: set<nat>, ram: seq<Frame>, own: map<nat, Owner>, held: set<nat>,
                     ram': seq<Frame>, own': map<nat, Owner>, held': set<nat>, d: nat, p: nat)
    requires HeldKept(ram0, held0, ram, own, held, d) && Grew(ram, own, ram', own', d)
    requires forall q :: q in held && q < |ram'| ==> ram'[q] == ram[q]
    requires held' == held || (held' == held - {p} && UserOutside(own', p, d, 0, 0))
    ensures HeldKept(ram0, held0, ram', own', held', d)
  {
    forall q: nat | q in held0
      ensures (q < |ram0| ==> ram'[q] == ram0[q]) && (q in held' || UserOutside(own', q, d, 0, 0))
    {
      if q !in held { assert UserOutside(own, q, d, 0, 0); }
    }
  }

  /** The physical pages that virtual pages lo .. last below KERNBASE are to get are all held. */
  ghost predicate HeldRange(held: set<nat>, lo: nat, last: nat, p: nat) {
    forall q: nat :: p <= q && lo + (q - p) <= last && lo + (q - p) < UPAGES ==> q in held
  }

  /** Virtual pages [lo, hi) translate to the physical pages from p on; every other translation is as before. */
  ghost predicate Ranged(ram: seq<Frame>, ram': seq<Frame>, d: nat, lo: nat, hi: nat, p: nat, flags: nat) {
    forall k: nat, j: nat :: Walk(ram', d, k, j) ==
      if j < ENTRIES && lo <= Vpn(k, j) < hi then Pte(p + (Vpn(k, j) - lo), flags) else Walk(ram, d, k, j)
  }

  /** The user pages among them are no longer held. */
  ghost predicate HeldLess(held: set<nat>, held': set<nat>, lo: nat, hi: nat, p: nat) {
    forall q: nat :: q in held' <==> q in held && !(p <= q && q - p + lo < hi && q - p + lo < UPAGES)
  }

  lemma MapStart(ram: seq<Frame>, own: map<nat, Owner>, held: set<nat>, d: nat, lo: nat, p: nat, flags: nat)
    requires IsRoot(own, d)
    ensures MapProgress(ram, own, held, ram, own, held, d, lo, lo, p, flags)
  {
    assert DirsOf(lo, lo) == {};
  }

  /** Virtual pages [lo, hi) of d have been mapped to physical pages from p on. */
  ghost predicate MapProgress(ram: seq<Frame>, own: map<nat, Owner>, held: set<nat>, ram': seq<Frame>, own': map<nat,
                              Owner>, held': set<nat>,
                              d: nat, lo: nat, hi: nat, p: nat, flags: nat)
  {
    && Grew(ram, own, ram', own', d)
    && Ranged(ram, ram', d, lo, hi, p, flags)
    && HeldLess(held, held', lo, hi, p)
    && HeldKept(ram, held, ram', own', held', d)
    && Tables(ram', d) == Tables(ram, d) + DirsOf(lo, hi)
    && Unmapped(ram, d, lo, hi)
  }

  lemma RangeGrants(ram: seq<Frame>, own: map<nat, Owner>, held: set<nat>, ram': seq<Frame>, own': map<nat, Owner>,
                    held': set<nat>, d: nat, lo: nat, hi: nat, p: nat, perm: nat)
    requires MapProgress(ram, own, held, ram', own', held', d, lo, hi, p, WithP(perm))
    ensures forall v: nat :: lo <= v < hi ==> Grants(Walk(ram', d, v / ENTRIES, v % ENTRIES), p + (v - lo), perm)
  {
    hide Walk, Tables, Grew, HeldLess, HeldKept;
    forall v: nat | lo <= v < hi
      ensures Grants(Walk(ram', d, v / ENTRIES, v % ENTRIES), p + (v - lo), perm)
    {
      assert Vpn(v / ENTRIES, v % ENTRIES) == v;
    }
  }

  /** No page of [lo, hi) is translated. */
  ghost predicate Unmapped(ram: seq<Frame>, d: nat, lo: nat, hi: nat) {
    forall k: nat, j: nat :: j < ENTRIES && lo <= Vpn(k, j) < hi ==> Walk(ram, d, k, j) == ZERO
  }

  lemma UnmappedStep(ram: seq<Frame>, d: nat, lo: nat, v: nat)
    requires Unmapped(ram, d, lo, v) && Walk(ram, d, v / ENTRIES, v % ENTRIES) == ZERO
    ensures Unmapped(ram, d, lo, v + 1)
  {
    hide Walk;
    forall k: nat, j: nat | j < ENTRIES && lo <= Vpn(k, j) < v + 1
      ensures Walk(ram, d, k, j) == ZERO
    {
      VpnSplits(k, j, v);
    }
  }

  lemma MapNext(ram: seq<Frame>, own: map<nat, Owner>, held: set<nat>, ram': seq<Frame>, own': map<nat, Owner>,
                held': set<nat>,
                d: nat, lo: nat, v: nat, last: nat, p: nat, flags: nat)
    requires lo <= v <= last && HeldRange(held, lo, last, p)
    requires MapProgress(ram, own, held, ram', own', held', d, lo, v, p, flags)
    ensures Walk(ram', d, v / ENTRIES, v % ENTRIES) == Walk(ram, d, v / ENTRIES, v % ENTRIES)
    ensures v < UPAGES ==> p + (v - lo) in held'
  {
    hide Walk, Grew, HeldKept, Tables, DirsOf, Ranged;
    RangedNext(ram, ram', d, lo, v, p, flags);
  }

  lemma MapAdvance(ram0: seq<Frame>, own0: map<nat, Owner>, held0: set<nat>, ram: seq<Frame>, own: map<nat, Owner>,
                   held: set<nat>,
                   ram': seq<Frame>, own': map<nat, Owner>, held': set<nat>, d: nat, lo: nat, v: nat, p: nat,
                   flags: nat)
    requires lo <= v && MapProgress(ram0, own0, held0, ram, own, held, d, lo, v, p, flags)
    requires Grew(ram, own, ram', own', d)
    requires held' == if v < UPAGES then held - {p + (v - lo)} else held
    requires forall q :: q in held && q < |ram'| ==> ram'[q] == ram[q]
    requires forall k: nat, j: nat ::
      Walk(ram', d, k, j) == if k == v / ENTRIES && j == v % ENTRIES then Pte(p + (v - lo), flags)
          else Walk(ram, d, k, j)
    requires v < UPAGES ==> Owns(own', p + (v - lo), d, User(v / ENTRIES, v % ENTRIES))
    requires Tables(ram', d) == Tables(ram, d) + {v / ENTRIES} && Walk(ram0, d, v / ENTRIES, v % ENTRIES) == ZERO
    ensures MapProgress(ram0, own0, held0, ram', own', held', d, lo, v + 1, p, flags)
  {
    hide Walk, Grew, HeldKept, Tables, DirsOf, Ranged, HeldLess, UserOutside, Unmapped;
    UnmappedStep(ram0, d, lo, v);
    GrewStep(ram0, own0, ram, own, ram', own', d);
    if v < UPAGES { UserIs(own', p + (v - lo), d, v); }
    HeldKeptStep(ram0, held0, ram, own, held, ram', own', held', d, p + (v - lo));
    RangedStep(ram0, ram, ram', d, lo, v, p, flags);
    HeldStep(held0, held, held', lo, v, p);
    DirsStep(lo, v);
    assert (Tables(ram0, d) + DirsOf(lo, v)) + {v / ENTRIES} == Tables(ram0, d) + (DirsOf(lo, v) + {v / ENTRIES});
  }

  lemma UserIs(own: map<nat, Owner>, p: nat, d: nat, v: nat)
    requires Owns(own, p, d, User(v / ENTRIES, v % ENTRIES))
    ensures UserOutside(own, p, d, 0, 0)
  {
  }

  lemma RangedNext(ram: seq<Frame>, ram': seq<Frame>, d: nat, lo: nat, hi: nat, p: nat, flags: nat)
    requires Ranged(ram, ram', d, lo, hi, p, flags)
    ensures Walk(ram', d, hi / ENTRIES, hi % ENTRIES) == Walk(ram, d, hi / ENTRIES, hi % ENTRIES)
  {
    hide Walk;
    assert Vpn(hi / ENTRIES, hi % ENTRIES) == hi;
  }

  lemma RangedStep(ram0: seq<Frame>, ram: seq<Frame>, ram': seq<Frame>, d: nat, lo: nat, v: nat, p: nat, flags: nat)
    requires lo <= v && Ranged(ram0, ram, d, lo, v, p, flags)
    requires forall k: nat, j: nat ::
      Walk(ram', d, k, j) == if k == v / ENTRIES && j == v % ENTRIES then Pte(p + (v - lo), flags)
          else Walk(ram, d, k, j)
    ensures Ranged(ram0, ram', d, lo, v + 1, p, flags)
  {
    hide Walk;
    forall k: nat, j: nat
      ensures Walk(ram', d, k, j) ==
        if j < ENTRIES && lo <= Vpn(k, j) < v + 1 then Pte(p + (Vpn(k, j) - lo), flags) else Walk(ram0, d, k, j)
    {
      VpnSplits(k, j, v);
    }
  }

  lemma VpnSplits(k: nat, j: nat, v: nat)
    ensures j < ENTRIES ==> (Vpn(k, j) == v <==> k == v / ENTRIES && j == v % ENTRIES)
  {
  }

  lemma HeldStep(held0: set<nat>, held: set<nat>, held': set<nat>, lo: nat, v: nat, p: nat)
    requires HeldLess(held0, held, lo, v, p) && lo <= v
    requires held' == if v < UPAGES then held - {p + (v - lo)} else held
    ensures HeldLess(held0, held', lo, v + 1, p)
  {
  }

  /** Address space d lost exactly its user pages in [lo, hi); the tables stay. */
  ghost predicate Shrunk(ram: seq<Frame>, own: map<nat, Owner>, ram': seq<Frame>, own': map<nat, Owner>, d: nat,
                         lo: nat, hi: nat) {
    && Others(ram, own, ram', own', d) && UserKept(ram, own, ram', own', d, lo, hi) && IsRoot(own', d)
    && (forall p :: p in own' <==> p in own && !UserInside(own, p, d, lo, hi))
    && (forall p :: p in own' && p in own ==> own'[p] == own[p])
    && (forall k: nat, j: nat :: Walk(ram', d, k, j) == if j < ENTRIES && lo <= Vpn(k, j) < hi then ZERO
        else Walk(ram, d, k, j))
    && (forall k: nat :: At(ram', d, k) == At(ram, d, k))
  }

  predicate UserInside(own: map<nat, Owner>, p: nat, d: nat, lo: nat, hi: nat) {
    p in own && own[p].root == d && own[p].slot.User? && lo <= Vpn(own[p].slot.k, own[p].slot.j) < hi
  }

  lemma EntryShrunk(ram: seq<Frame>, own: map<nat, Owner>, d: nat, k: nat, j: nat, t: nat, p: nat, f: Frame)
    requires SpaceOk(ram, own) && IsRoot(own, d) && Owns(own, t, d, Table(k)) && IsTable(ram, t) && j < ENTRIES
    requires Owns(own, p, d, User(k, j)) && p < |ram| && p != t && IsTable(ram[p := f], t)
    requires k < UDIRS && Present(At(ram, t, j)) && p == At(ram, t, j).ppn
    ensures Shrunk(ram, own, Put(ram[p := f], t, j, ZERO), Without(own, p), d, Vpn(k, j), Vpn(k, j) + 1)
  {
    hide Walk, At, IsTable, Put;
    FrameAt(ram, p, f);
    PutAt(ram[p := f], t, j, ZERO);
    ClearedWalks(ram, own, d, k, j, t, f);
    var ram', own' := Put(ram[p := f], t, j, ZERO), Without(own, p);
    assert OthersOf(own', d) == OthersOf(own, d);
  }

  lemma ShrunkStep(ram: seq<Frame>, own: map<nat, Owner>, ram': seq<Frame>, own': map<nat, Owner>,
                   ram'': seq<Frame>, own'': map<nat, Owner>, d: nat, lo: nat, mid: nat, hi: nat)
    requires lo <= mid <= hi && Shrunk(ram, own, ram', own', d, lo, mid) && Shrunk(ram', own', ram'', own'', d, mid, hi)
    ensures Shrunk(ram, own, ram'', own'', d, lo, hi)
  {
    hide Walk, At, Vpn;
    OthersStep(ram, own, ram', own', ram'', own'', d);
    forall p: nat | UserOutside(own, p, d, lo, hi)
      ensures p in own'' && own''[p] == own[p] && (p < |ram| ==> ram''[p] == ram[p])
    {
      assert UserOutside(own, p, d, lo, mid);
      assert UserOutside(own', p, d, mid, hi);
    }
  }

  /** Nothing is mapped in [mid, hi), so losing it changes nothing. */
  lemma NothingThere(ram: seq<Frame>, own: map<nat, Owner>, d: nat, lo: nat, hi: nat)
    requires SpaceOk(ram, own) && IsRoot(own, d)
    requires forall k: nat, j: nat :: j < ENTRIES && lo <= Vpn(k, j) < hi ==> Walk(ram, d, k, j) == ZERO
    ensures Shrunk(ram, own, ram, own, d, lo, hi)
  {
    hide Walk, At, Vpn;
    forall p | p in own
      ensures !UserInside(own, p, d, lo, hi)
    {
      assert PageOk(ram, own, p);
    }
  }

  /** PGROUNDUP, as a page number. */
  function PageUp(n: nat): (p: nat) { (n + PGSIZE - 1) / PGSIZE }

  lemma PageUpMono(m: nat, n: nat)
    requires m <= n < KERNBASE
    ensures PageUp(m) <= PageUp(n) <= UPAGES && (PageUp(m) < PageUp(n) ==> m < n)
  {
  }

  lemma PageUpLess(a: nat, n: nat)
    ensures a * PGSIZE < n <==> a < PageUp(n)
  {
  }

  lemma Unshrunk(ram: seq<Frame>, own: map<nat, Owner>, d: nat, lo: nat)
    requires IsRoot(own, d)
    ensures Shrunk(ram, own, ram, own, d, lo, lo)
  {
  }

  lemma ShrunkRoot(ram: seq<Frame>, own: map<nat, Owner>, ram': seq<Frame>, own': map<nat, Owner>, d: nat, lo: nat,
                   hi: nat)
    requires Shrunk(ram, own, ram', own', d, lo, hi)
    ensures IsRoot(own', d) && |ram'| == |ram|
  {
  }

  lemma NoTable(ram: seq<Frame>, own: map<nat, Owner>, d: nat, k: nat, lo: nat, hi: nat)
    requires SpaceOk(ram, own) && IsRoot(own, d) && !Present(At(ram, d, k)) && k * ENTRIES <= lo
    requires hi <= (k + 1) * ENTRIES
    ensures Shrunk(ram, own, ram, own, d, lo, hi)
  {
    forall i: nat, j: nat | j < ENTRIES && lo <= Vpn(i, j) < hi
      ensures Walk(ram, d, i, j) == ZERO
    {
      assert i == k;
    }
    NothingThere(ram, own, d, lo, hi);
  }

  lemma NoEntry(ram: seq<Frame>, own: map<nat, Owner>, d: nat, k: nat, j: nat)
    requires SpaceOk(ram, own) && IsRoot(own, d) && j < ENTRIES
    requires Present(At(ram, d, k)) && !Present(At(ram, At(ram, d, k).ppn, j))
    ensures Shrunk(ram, own, ram, own, d, Vpn(k, j), Vpn(k, j) + 1)
  {
    forall i: nat, l: nat | l < ENTRIES && Vpn(k, j) <= Vpn(i, l) < Vpn(k, j) + 1
      ensures Walk(ram, d, i, l) == ZERO
    {
      assert i == k && l == j;
    }
    NothingThere(ram, own, d, Vpn(k, j), Vpn(k, j) + 1);
  }

  /** A table of d for a directory entry from i on. */
  predicate TableFrom(own: map<nat, Owner>, d: nat, i: nat, q: nat) {
    q in own && own[q].root == d && own[q].slot.Table? && own[q].slot.k >= i
  }

  lemma TableAt(ram: seq<Frame>, own: map<nat, Owner>, d: nat, i: nat)
    requires SpaceOk(ram, own) && IsRoot(own, d)
    ensures Present(At(ram, d, i)) ==> Owns(own, At(ram, d, i).ppn, d, Table(i))
    ensures forall q ::
      TableFrom(own, d, i, q) <==> TableFrom(own, d, i + 1, q) || (Present(At(ram, d, i)) && q == At(ram, d, i).ppn)
  {
    hide At, IsTable;
    assert PageOk(ram, own, d);
    forall q | TableFrom(own, d, i, q)
      ensures TableFrom(own, d, i + 1, q) || (Present(At(ram, d, i)) && q == At(ram, d, i).ppn)
    {
      assert PageOk(ram, own, q);
    }
  }

  lemma NoMoreTables(ram: seq<Frame>, own: map<nat, Owner>, d: nat)
    requires SpaceOk(ram, own)
    ensures forall q :: !TableFrom(own, d, ENTRIES, q)
  {
    forall q
      ensures !TableFrom(own, d, ENTRIES, q)
    {
      assert q in own ==> PageOk(ram, own, q);
    }
  }

  /** All pages of address space d. */
  ghost function PagesOf(own: map<nat, Owner>, d: nat): (r: set<nat>) { set p | p in own && own[p].root == d }

  lemma Detached(first: nat, head: nat, ram: seq<Frame>, free: seq<nat>, own: map<nat, Owner>, held: set<nat>, d: nat)
    requires PoolOk(first, head, ram, free, own, held) && SpaceOk(ram, own) && IsRoot(own, d)
    requires forall p :: p in own && own[p].root == d ==> !own[p].slot.User?
    ensures PoolOk(first, head, ram, free, OthersOf(own, d), held + PagesOf(own, d)) && SpaceOk(ram, OthersOf(own, d))
    ensures d < |ram|
    ensures forall q :: q in PagesOf(own, d) <==> q == d || TableFrom(own, d, 0, q)
  {
    hide At, IsTable, Linked;
    RootDropped(ram, own, d);
    forall q
      ensures q in PagesOf(own, d) <==> q == d || TableFrom(own, d, 0, q)
    {
      assert q in own ==> PageOk(ram, own, q);
    }
  }

  lemma TablesApart(first: nat, head: nat, ram: seq<Frame>, free: seq<nat>, own: map<nat, Owner>, held: set<nat>,
                    d: nat, i: nat)
    requires PoolOk(first, head, ram, free, own, held) && IsRoot(own, d)
    ensures d !in held && !TableFrom(own, d, i, d)
    ensures forall q :: TableFrom(own, d, i, q) ==> q !in held
    ensures forall q :: q in OthersOf(own, d) ==> q !in held && q != d && !TableFrom(own, d, i, q)
  {
  }

  lemma AtFrame(ram: seq<Frame>, ram': seq<Frame>, p: nat, i: nat)
    requires |ram'| == |ram| && (p < |ram| ==> ram'[p] == ram[p])
    ensures At(ram', p, i) == At(ram, p, i)
  {
  }

  lemma NoUserLeft(ram: seq<Frame>, own: map<nat, Owner>, ram': seq<Frame>, own': map<nat, Owner>, d: nat)
    requires SpaceOk(ram, own) && IsRoot(own, d) && Shrunk(ram, own, ram', own', d, 0, UPAGES)
    ensures IsRoot(own', d) && OthersOf(own', d) == OthersOf(own, d)
    ensures forall p :: p in own' && own'[p].root == d ==> !own'[p].slot.User?
  {
    hide Walk, At;
    forall p | p in own' && own'[p].root == d
      ensures !own'[p].slot.User?
    {
      assert PageOk(ram, own, p);
    }
  }

  lemma OthersFrames(ram: seq<Frame>, own: map<nat, Owner>, ram': seq<Frame>, own': map<nat, Owner>, d: nat)
    requires Shrunk(ram, own, ram', own', d, 0, UPAGES)
    ensures forall p :: p in OthersOf(own, d) && p < |ram| ==> ram'[p] == ram[p]
  {
  }

  // ---- the kernel part ----

  datatype KMap = KMap(virt: nat, phys: nat, size: nat, perm: nat)
  datatype Kvm = Space(d: nat) | NoKvm | KvmPanic

  predicate RegionOk(m: KMap)
  {
    KERNBASE <= m.virt && 0 < m.size && m.virt + m.size <= VPAGES * PGSIZE && m.phys % PGSIZE == 0
  }

  function Lo(m: KMap): (v: nat) { m.virt / PGSIZE }

  function Hi(m: KMap): (v: nat) { PageUp(m.virt + m.size) }

  /** The directory entries the first n regions need. */
  function KDirs(kmap: seq<KMap>, n: nat): (r: set<nat>)
    requires n <= |kmap|
  {
    if n == 0 then {} else KDirs(kmap, n - 1) + DirsOf(Lo(kmap[n - 1]), Hi(kmap[n - 1]))
  }

  /** Two regions share a page. */
  ghost predicate Overlap(kmap: seq<KMap>) {
    exists i, j, v :: 0 <= i < j < |kmap| && InRegion(kmap[i], v) && InRegion(kmap[j], v)
  }

  predicate InRegion(m: KMap, v: nat) { Lo(m) <= v < Hi(m) }

  /** The first n regions are mapped, and nothing else is. */
  ghost predicate KernelSpace(ram: seq<Frame>, d: nat, kmap: seq<KMap>, n: nat) {
    && n <= |kmap| && Tables(ram, d) == KDirs(kmap, n)
    && (forall i :: 0 <= i < n ==> RegionMapped(ram, d, kmap[i]))
    && (forall k: nat, j: nat :: Walk(ram, d, k, j) != ZERO ==> InRegions(kmap, n, k, j))
  }

  ghost predicate RegionMapped(ram: seq<Frame>, d: nat, m: KMap) {
    forall k: nat, j: nat :: j < ENTRIES && InRegion(m, Vpn(k, j)) ==>
        Grants(Walk(ram, d, k, j), m.phys / PGSIZE + (Vpn(k, j) - Lo(m)), m.perm)
  }

  /** Kernel memory after setupkvm: present at its physical page, writable exactly where its region is, and for user
      code exactly where its region says so. */
  lemma KernelPerms(ram: seq<Frame>, d: nat, kmap: seq<KMap>, i: nat, v: nat)
    requires KernelSpace(ram, d, kmap, |kmap|) && i < |kmap| && InRegion(kmap[i], v)
    ensures var e := Walk(ram, d, v / ENTRIES, v % ENTRIES);
            && Present(e) && e.ppn == kmap[i].phys / PGSIZE + (v - Lo(kmap[i]))
            && (Writable(e.flags) <==> Writable(kmap[i].perm)) && (ForUser(e.flags) <==> ForUser(kmap[i].perm))
  {
    hide Walk, Writable, ForUser, Present;
    assert Vpn(v / ENTRIES, v % ENTRIES) == v;
    assert RegionMapped(ram, d, kmap[i]);
    GrantsExactly(Walk(ram, d, v / ENTRIES, v % ENTRIES), kmap[i].phys / PGSIZE + (v - Lo(kmap[i])), kmap[i].perm);
  }

  ghost predicate InRegions(kmap: seq<KMap>, n: nat, k: nat, j: nat) {
    j < ENTRIES && exists i :: 0 <= i < n && i < |kmap| && InRegion(kmap[i], Vpn(k, j))
  }

  lemma RootFresh(ram: seq<Frame>, own: map<nat, Owner>, d: nat)
    requires SpaceOk(ram, own) && d !in own
    ensures OthersOf(own[d := Owner(d, Root)], d) == own
  {
    forall p | p in own
      ensures own[p].root != d
    {
      assert PageOk(ram, own, p);
    }
  }

  lemma NothingMeets(kmap: seq<KMap>)
    ensures !MeetsRegion(kmap, 0)
  {}

  lemma NoneMet(kmap: seq<KMap>, f: nat)
    requires NoClash(kmap, |kmap|)
    ensures !MeetsRegion(kmap, f)
  {}

  lemma KernelStart(ram: seq<Frame>, own: map<nat, Owner>, d: nat, kmap: seq<KMap>)
    requires IsRoot(own, d) && forall k: nat :: At(ram, d, k) == ZERO
    ensures Grew(ram, own, ram, own, d) && KernelSpace(ram, d, kmap, 0) && |Tables(ram, d)| == 0 && NoClash(kmap, 0)
  {
    assert Tables(ram, d) == {};
  }

  lemma RegionRange(m: KMap, held: set<nat>)
    requires RegionOk(m)
    ensures HeldRange(held, m.virt / PGSIZE, (m.virt + m.size - 1) / PGSIZE, m.phys / PGSIZE)
    ensures 0 < m.size && m.virt + m.size <= VPAGES * PGSIZE && m.phys % PGSIZE == 0
  {
  }

  lemma RegionHeld(ram: seq<Frame>, own: map<nat, Owner>, held: set<nat>, ram': seq<Frame>, own': map<nat, Owner>,
                   held': set<nat>, d: nat, m: KMap, upto: nat)
    requires RegionOk(m)
    requires MapProgress(ram, own, held, ram', own', held', d, Lo(m), upto, m.phys / PGSIZE, WithP(m.perm))
    ensures held' == held && Grew(ram, own, ram', own', d)
    ensures forall q :: q in held && q < |ram'| ==> ram'[q] == ram[q]
  {
  }

  lemma GrewFrames(ram0: seq<Frame>, own0: map<nat, Owner>, ram: seq<Frame>, own: map<nat, Owner>, ram': seq<Frame>,
                   own': map<nat, Owner>, d: nat)
    requires Grew(ram, own, ram', own', d) && OthersOf(own, d) == own0 && |ram0| == |ram|
    requires forall q :: 0 <= q < |ram| && q != d ==> ram[q] == ram0[q]
    ensures OthersOf(own', d) == own0
    ensures forall q :: q in own0 && q < |ram| ==> ram'[q] == ram0[q]
  {
    forall q | q in own0 && q < |ram|
      ensures ram'[q] == ram0[q]
    {
      assert q in OthersOf(own, d);
    }
  }

  lemma {:induction false} KDirsGrow(kmap: seq<KMap>, n: nat, m: nat)
    requires n <= m <= |kmap|
    ensures KDirs(kmap, n) <= KDirs(kmap, m)
    decreases m - n
  {
    if n < m { KDirsGrow(kmap, n + 1, m); }
  }

  /** Page v of region n lies in an earlier region too. */
  ghost predicate Clash(kmap: seq<KMap>, n: nat, v: nat) {
    n < |kmap| && InRegion(kmap[n], v) && exists i :: 0 <= i < n && InRegion(kmap[i], v)
  }

  /** With f free pages setupkvm gets as far as a page that an earlier region has mapped. */
  ghost predicate MeetsRegion(kmap: seq<KMap>, f: nat) {
    exists n: nat, v: nat :: Clash(kmap, n, v) && 1 + |KDirs(kmap, n) + DirsOf(Lo(kmap[n]), v)| <= f
  }

  ghost predicate NoClash(kmap: seq<KMap>, n: nat) { forall m: nat, v: nat :: m < n ==> !Clash(kmap, m, v) }

  lemma RegionMeets(kmap: seq<KMap>, n: nat, v: nat, f: nat)
    requires Clash(kmap, n, v) && 1 + |KDirs(kmap, n) + DirsOf(Lo(kmap[n]), v)| <= f
    ensures MeetsRegion(kmap, f) && Overlap(kmap)
  {
    var i :| 0 <= i < n && InRegion(kmap[i], v);
  }

  /** A page is mapped by the first n regions exactly when it clashes with region n. */
  lemma ClashMapped(ram: seq<Frame>, d: nat, kmap: seq<KMap>, n: nat, v: nat)
    requires n < |kmap| && KernelSpace(ram, d, kmap, n) && InRegion(kmap[n], v)
    ensures Clash(kmap, n, v) <==> Walk(ram, d, v / ENTRIES, v % ENTRIES) != ZERO
    ensures Clash(kmap, n, v) && v < VPAGES ==> v / ENTRIES in Tables(ram, d)
  {
    assert Vpn(v / ENTRIES, v % ENTRIES) == v;
    if Clash(kmap, n, v) {
      var i :| 0 <= i < n && InRegion(kmap[i], v);
      assert RegionMapped(ram, d, kmap[i]);
      assert Walk(ram, d, v / ENTRIES, v % ENTRIES) != ZERO;
    } else {
      assert !InRegions(kmap, n, v / ENTRIES, v % ENTRIES);
    }
  }

  /** Mappages ran out of pages at page upto: there are too few for all the tables, and no clash was within reach. */
  lemma TooFew(ram: seq<Frame>, own: map<nat, Owner>, held: set<nat>, ram': seq<Frame>, own': map<nat, Owner>,
               held': set<nat>, d: nat, kmap: seq<KMap>, n: nat, upto: nat)
    requires n < |kmap| && RegionOk(kmap[n]) && KernelSpace(ram, d, kmap, n) && NoClash(kmap, n)
    requires var m := kmap[n]; MapProgress(ram, own, held, ram', own', held', d, Lo(m),
        upto, m.phys / PGSIZE, WithP(m.perm))
    requires Lo(kmap[n]) <= upto < Hi(kmap[n]) && upto / ENTRIES !in Tables(ram', d)
    ensures |Tables(ram', d)| < |KDirs(kmap, |kmap|)| && !MeetsRegion(kmap, 1 + |Tables(ram', d)|)
  {
    hide KernelSpace, MapProgress, Tables;
    MapParts(ram, own, held, ram', own', held', d, kmap, n, upto);
    var m, ts := kmap[n], Tables(ram', d);
    assert DirsOf(Lo(m), upto) <= DirsOf(Lo(m), Hi(m));
    assert upto / ENTRIES in DirsOf(Lo(m), Hi(m));
    KDirsGrow(kmap, n + 1, |kmap|);
    SubsetCard(ts, KDirs(kmap, |kmap|));
    forall n2: nat, v2: nat | Clash(kmap, n2, v2)
      ensures |ts| < |KDirs(kmap, n2) + DirsOf(Lo(kmap[n2]), v2)|
    {
      ClashBeyond(ram, d, kmap, n, upto, ts, n2, v2);
    }
  }

  lemma MapParts(ram: seq<Frame>, own: map<nat, Owner>, held: set<nat>, ram': seq<Frame>, own': map<nat, Owner>,
                 held': set<nat>, d: nat, kmap: seq<KMap>, n: nat, upto: nat)
    requires n < |kmap| && KernelSpace(ram, d, kmap, n)
    requires var m := kmap[n]; MapProgress(ram, own, held, ram', own', held', d, Lo(m),
        upto, m.phys / PGSIZE, WithP(m.perm))
    ensures Tables(ram', d) == KDirs(kmap, n) + DirsOf(Lo(kmap[n]), upto)
    ensures Tables(ram, d) == KDirs(kmap, n) && Unmapped(ram, d, Lo(kmap[n]), upto)
  {
    hide Tables, Walk, KDirs, DirsOf;
  }

  /** Any clash lies beyond a page whose table is missing. */
  lemma ClashBeyond(ram: seq<Frame>, d: nat, kmap: seq<KMap>, n: nat, upto: nat, ts: set<nat>, n2: nat, v2: nat)
    requires n < |kmap| && RegionOk(kmap[n]) && KernelSpace(ram, d, kmap, n) && NoClash(kmap, n)
    requires Lo(kmap[n]) <= upto < Hi(kmap[n]) && Unmapped(ram, d, Lo(kmap[n]), upto)
    requires ts == KDirs(kmap, n) + DirsOf(Lo(kmap[n]), upto) && Tables(ram, d) == KDirs(kmap, n)
    requires upto / ENTRIES !in ts && Clash(kmap, n2, v2)
    ensures |ts| < |KDirs(kmap, n2) + DirsOf(Lo(kmap[n2]), v2)|
  {
    hide KernelSpace, Tables, Walk, KDirs, DirsOf, Clash;
    ClashIn(kmap, n2, v2);
    assert n <= n2;
    var need := KDirs(kmap, n2) + DirsOf(Lo(kmap[n2]), v2);
    if n2 == n {
      ClashMapped(ram, d, kmap, n, v2);
      assert Vpn(v2 / ENTRIES, v2 % ENTRIES) == v2;
      assert v2 > upto;
      DirsMore(Lo(kmap[n]), upto, v2);
    } else {
      KDirsGrow(kmap, n + 1, n2);
      KDirsNext(kmap, n);
      DirsMore(Lo(kmap[n]), upto, Hi(kmap[n]));
    }
    assert ts <= need && upto / ENTRIES in need;
    SubsetCard(ts, need);
  }

  lemma ClashIn(kmap: seq<KMap>, n: nat, v: nat)
    requires Clash(kmap, n, v)
    ensures n < |kmap| && InRegion(kmap[n], v) && Lo(kmap[n]) <= v < Hi(kmap[n])
  {}

  lemma KDirsNext(kmap: seq<KMap>, n: nat)
    requires n < |kmap|
    ensures KDirs(kmap, n + 1) == KDirs(kmap, n) + DirsOf(Lo(kmap[n]), Hi(kmap[n]))
  {}

  lemma DirsMore(lo: nat, a: nat, hi: nat)
    requires lo <= a < hi
    ensures DirsOf(lo, a) <= DirsOf(lo, hi) && a / ENTRIES in DirsOf(lo, hi)
  {}

  /** The remap panic of mappages: two regions share the page, and the free pages reached it. */
  lemma Overlapping(ram: seq<Frame>, own: map<nat, Owner>, held: set<nat>, ram': seq<Frame>, own': map<nat, Owner>,
                    held': set<nat>, d: nat, kmap: seq<KMap>, n: nat, upto: nat, f: nat)
    requires n < |kmap| && KernelSpace(ram, d, kmap, n) && Lo(kmap[n]) <= upto < Hi(kmap[n])
    requires var m := kmap[n]; MapProgress(ram, own, held, ram', own', held', d, Lo(m),
        upto, m.phys / PGSIZE, WithP(m.perm))
    requires Walk(ram, d, upto / ENTRIES, upto % ENTRIES) != ZERO && 1 + |Tables(ram', d)| <= f
    ensures MeetsRegion(kmap, f) && Overlap(kmap)
  {
    hide KernelSpace, MapProgress, Tables, Walk;
    MapParts(ram, own, held, ram', own', held', d, kmap, n, upto);
    ClashMapped(ram, d, kmap, n, upto);
    RegionMeets(kmap, n, upto, f);
  }

  /** A region mapped in full clashed with none before it. */
  lemma NoClashStep(ram: seq<Frame>, own: map<nat, Owner>, held: set<nat>, ram': seq<Frame>, own': map<nat, Owner>,
                    held': set<nat>, d: nat, kmap: seq<KMap>, n: nat)
    requires n < |kmap| && KernelSpace(ram, d, kmap, n) && NoClash(kmap, n)
    requires var m := kmap[n]; MapProgress(ram, own, held, ram', own', held', d, Lo(m),
        Hi(m), m.phys / PGSIZE, WithP(m.perm))
    ensures NoClash(kmap, n + 1)
  {
    hide KernelSpace, MapProgress, Tables, Walk;
    MapParts(ram, own, held, ram', own', held', d, kmap, n, Hi(kmap[n]));
    forall v: nat | InRegion(kmap[n], v)
      ensures !Clash(kmap, n, v)
    {
      ClashMapped(ram, d, kmap, n, v);
      assert Vpn(v / ENTRIES, v % ENTRIES) == v;
    }
  }

  lemma KernelAdvance(ram: seq<Frame>, own: map<nat, Owner>, held: set<nat>, ram': seq<Frame>, own': map<nat, Owner>,
                      held': set<nat>,
                      d: nat, kmap: seq<KMap>, n: nat)
    requires n < |kmap| && KernelSpace(ram, d, kmap, n)
    requires var m := kmap[n]; MapProgress(ram, own, held, ram', own', held', d, Lo(m),
        Hi(m), m.phys / PGSIZE, WithP(m.perm))
    ensures KernelSpace(ram', d, kmap, n + 1)
  {
    hide Walk, Tables, DirsOf, Grew, HeldLess, HeldKept, Vpn, Lo, Hi;
    var m := kmap[n];
    forall i | 0 <= i < n + 1
      ensures RegionMapped(ram', d, kmap[i])
    {
      assert i < n ==> RegionMapped(ram, d, kmap[i]);
    }
    forall k: nat, j: nat | Walk(ram', d, k, j) != ZERO
      ensures InRegions(kmap, n + 1, k, j)
    {
      assert Walk(ram, d, k, j) != ZERO ==> InRegions(kmap, n, k, j);
      assert InRegion(m, Vpn(k, j)) || Walk(ram', d, k, j) == Walk(ram, d, k, j);
    }
  }

  lemma KernelTables(ram: seq<Frame>, d: nat, kmap: seq<KMap>)
    requires KernelSpace(ram, d, kmap, |kmap|)
    ensures Tables(ram, d) == KDirs(kmap, |kmap|)
  {
  }

  // ---- user pages ----

  /** Virtual page v of d, unmapped before, now has entry e and a page with contents f; all else in d is as before. */
  ghost predicate PagePut(ram: seq<Frame>, own: map<nat, Owner>, ram': seq<Frame>, own': map<nat, Owner>, d: nat,
                          v: nat, e: Pte, f: Frame) {
    && Grew(ram, own, ram', own', d) && Walk(ram, d, v / ENTRIES, v % ENTRIES) == ZERO
    && Owns(own', e.ppn, d, User(v / ENTRIES, v % ENTRIES)) && e.ppn < |ram'| && ram'[e.ppn] == f
    && forall k: nat, j: nat :: Walk(ram', d, k, j) == if k == v / ENTRIES && j == v % ENTRIES then e
        else Walk(ram, d, k, j)
  }

  lemma PutOne(ram0: seq<Frame>, own0: map<nat, Owner>, held0: set<nat>, ram1: seq<Frame>, held1: set<nat>,
               ram': seq<Frame>, own': map<nat, Owner>, held': set<nat>, d: nat, v: nat, upto: nat, mem: nat, f: Frame,
               flags: nat)
    requires IsRoot(own0, d) && mem < |ram0| && mem !in own0 && mem !in held0 && held1 == held0 + {mem}
    requires ram1 == ram0[mem := f]
    requires v < UPAGES && v <= upto <= v + 1 && flags % 2 == 1
    requires forall i: nat, j: nat :: Walk(ram1, d, i, j) == Walk(ram0, d, i, j)
    requires MapProgress(ram1, own0, held1, ram', own', held', d, v, upto, mem, flags)
    requires SpaceOk(ram', own')
    ensures upto == v + 1 ==> PagePut(ram0, own0, ram', own', d, v, Pte(mem, flags), f) && held' == held0
    ensures upto == v ==> held' == held1
    ensures |ram'| == |ram0| && forall q :: q in held0 && q < |ram'| ==> ram'[q] == ram0[q]
    ensures Tables(ram', d) == Tables(ram1, d) + (if upto == v + 1 then {v / ENTRIES} else {})
  {
    hide SpaceOk, Walk, At, Tables, Others, UserKept, UserOutside;
    DirsOne(v);
    assert Vpn(v / ENTRIES, v % ENTRIES) == v;
    if upto == v + 1 {
      RangedOne(ram1, ram', d, v, mem, flags);
      assert Walk(ram', d, v / ENTRIES, v % ENTRIES) == Pte(mem, flags);
      WalkOwned(ram', own', d, v / ENTRIES, v % ENTRIES);
      GrewFill(ram0, own0, ram1, ram', own', d, mem, f);
    }
  }

  lemma DirsOne(v: nat)
    ensures DirsOf(v, v) == {} && DirsOf(v, v + 1) == {v / ENTRIES}
  {
    assert DirsOf(v, v) == {};
    DirsStep(v, v);
  }

  lemma RangedOne(ram: seq<Frame>, ram': seq<Frame>, d: nat, v: nat, p: nat, flags: nat)
    requires Ranged(ram, ram', d, v, v + 1, p, flags)
    ensures forall k: nat, j: nat ::
      Walk(ram', d, k, j) == if k == v / ENTRIES && j == v % ENTRIES then Pte(p, flags) else Walk(ram, d, k, j)
  {
    hide Walk;
    forall k: nat, j: nat
      ensures Walk(ram', d, k, j) == if k == v / ENTRIES && j == v % ENTRIES then Pte(p, flags) else Walk(ram, d, k, j)
    {
      VpnSplits(k, j, v);
    }
  }

  /** A user translation leads to a page owned at that place. */
  lemma WalkOwned(ram: seq<Frame>, own: map<nat, Owner>, d: nat, k: nat, j: nat)
    requires SpaceOk(ram, own) && IsRoot(own, d) && k < UDIRS && Walk(ram, d, k, j) != ZERO
    ensures Owns(own, Walk(ram, d, k, j).ppn, d, User(k, j))
  {
    hide At, IsTable;
    assert PageOk(ram, own, d);
    assert PageOk(ram, own, At(ram, d, k).ppn);
  }

  /** Writing an unowned page first does not matter to growth. */
  lemma GrewFill(ram0: seq<Frame>, own0: map<nat, Owner>, ram1: seq<Frame>, ram': seq<Frame>, own': map<nat, Owner>,
                 d: nat, p: nat, f: Frame)
    requires p < |ram0| && p !in own0 && IsRoot(own0, d) && ram1 == ram0[p := f] && Grew(ram1, own0, ram', own', d)
    ensures Grew(ram0, own0, ram', own', d)
  {
    FrameAt(ram0, p, f);
    hide At;
    assert d != p;
    forall q: nat | UserOutside(own0, q, d, 0, 0)
      ensures q in own' && own'[q] == own0[q] && (q < |ram0| ==> ram'[q] == ram0[q])
    {
      assert q != p;
    }
  }

  datatype Growth = Sized(n: nat) | TooLarge | OutOfMemory | RemapPanic

  /** A zeroed, writable user page of d. */
  ghost predicate BlankPage(ram: seq<Frame>, own: map<nat, Owner>, d: nat, k: nat, j: nat) {
    var e := Walk(ram, d, k, j);
    e.flags == PTE_P + PTE_W + PTE_U && Owns(own, e.ppn, d, User(k, j)) && e.ppn < |ram| && ram[e.ppn] == Blank()
  }

  /** Virtual pages [lo, hi) of d, unmapped before, are now zeroed user pages; the rest of d is as before. */
  ghost predicate Populated(ram: seq<Frame>, own: map<nat, Owner>, ram': seq<Frame>, own': map<nat, Owner>, d: nat,
                            lo: nat, hi: nat) {
    && Grew(ram, own, ram', own', d) && Unmapped(ram, d, lo, hi)
    && forall k: nat, j: nat :: if j < ENTRIES && lo <= Vpn(k, j) < hi then BlankPage(ram', own', d, k, j)
        else Walk(ram', d, k, j) == Walk(ram, d, k, j)
  }

  /** The user part of d is as before, but for [lo, hi), where nothing is mapped now. */
  ghost predicate RolledBack(ram: seq<Frame>, own: map<nat, Owner>, ram': seq<Frame>, own': map<nat, Owner>, d: nat,
                             lo: nat, hi: nat) {
    && Others(ram, own, ram', own', d) && UserKept(ram, own, ram', own', d, lo, hi) && IsRoot(own', d)
    && forall k: nat, j: nat :: Walk(ram', d, k, j) == if j < ENTRIES && lo <= Vpn(k, j) < hi then ZERO
        else Walk(ram, d, k, j)
  }

  /** So a failed allocuvm restores the mapping exactly when the range was free to begin with. */
  lemma RestoredExactly(ram: seq<Frame>, own: map<nat, Owner>, ram': seq<Frame>, own': map<nat, Owner>, d: nat, lo: nat,
                        hi: nat)
    requires RolledBack(ram, own, ram', own', d, lo, hi)
    ensures (forall k: nat, j: nat :: Walk(ram', d, k, j) == Walk(ram, d, k, j)) <==> Unmapped(ram, d, lo, hi)
  {
    hide Walk;
    if forall k: nat, j: nat :: Walk(ram', d, k, j) == Walk(ram, d, k, j) {
      forall k: nat, j: nat | j < ENTRIES && lo <= Vpn(k, j) < hi
        ensures Walk(ram, d, k, j) == ZERO
      {
        assert Walk(ram', d, k, j) == ZERO;
      }
    }
  }

  lemma PopulatedStart(ram: seq<Frame>, own: map<nat, Owner>, d: nat, lo: nat)
    requires IsRoot(own, d)
    ensures Populated(ram, own, ram, own, d, lo, lo)
  {
  }

  lemma PopulatedStep(ram0: seq<Frame>, own0: map<nat, Owner>, ram: seq<Frame>, own: map<nat, Owner>,
                      ram': seq<Frame>, own': map<nat, Owner>, d: nat, lo: nat, v: nat, mem: nat)
    requires lo <= v && Populated(ram0, own0, ram, own, d, lo, v)
    requires PagePut(ram, own, ram', own', d, v, Pte(mem, WithP(PTE_W + PTE_U)), Blank())
    ensures Populated(ram0, own0, ram', own', d, lo, v + 1)
  {
    hide Walk, At, Grew, Unmapped;
    GrewStep(ram0, own0, ram, own, ram', own', d);
    assert Vpn(v / ENTRIES, v % ENTRIES) == v;
    UnmappedStep(ram0, d, lo, v);
    forall k: nat, j: nat
      ensures if j < ENTRIES && lo <= Vpn(k, j) < v + 1 then BlankPage(ram', own', d, k, j)
          else Walk(ram', d, k, j) == Walk(ram0, d, k, j)
    {
      VpnSplits(k, j, v);
      if j < ENTRIES && lo <= Vpn(k, j) < v {
        assert BlankPage(ram, own, d, k, j);
        StillUser(ram, own, ram', own', d, Walk(ram, d, k, j).ppn);
      }
    }
  }

  lemma StillUser(ram: seq<Frame>, own: map<nat, Owner>, ram': seq<Frame>, own': map<nat, Owner>, d: nat, p: nat)
    requires Grew(ram, own, ram', own', d) && p in own && own[p].root == d && own[p].slot.User? && p < |ram|
    ensures p in own' && own'[p] == own[p] && p < |ram'| && ram'[p] == ram[p]
  {
    assert UserOutside(own, p, d, 0, 0);
  }

  lemma PopulatedFill(ram0: seq<Frame>, own0: map<nat, Owner>, ram: seq<Frame>, ram': seq<Frame>, own: map<nat, Owner>,
                      d: nat, lo: nat, hi: nat, mem: nat)
    requires Populated(ram0, own0, ram, own, d, lo, hi) && SpaceOk(ram, own) && mem !in own && |ram'| == |ram|
    requires forall q :: 0 <= q < |ram| && q != mem ==> ram'[q] == ram[q]
    ensures Populated(ram0, own0, ram', own, d, lo, hi)
  {
    FramesKept(ram, ram', own);
    forall k: nat
      ensures At(ram', d, k) == At(ram, d, k)
    {
      AtFrame(ram, ram', d, k);
    }
    hide Walk, At, Unmapped;
    forall p | p in own0 && own0[p].root != d && p < |ram0|
      ensures ram'[p] == ram0[p]
    {
      assert p in OthersOf(own0, d);
      assert p in OthersOf(own, d);
    }
    forall k: nat, j: nat | j < ENTRIES && lo <= Vpn(k, j) < hi
      ensures BlankPage(ram', own, d, k, j)
    {
      assert BlankPage(ram, own, d, k, j);
    }
  }

  lemma PopulatedUnmapped(ram0: seq<Frame>, own0: map<nat, Owner>, ram: seq<Frame>, own: map<nat, Owner>, d: nat,
                          lo: nat, v: nat)
    requires Populated(ram0, own0, ram, own, d, lo, v)
    ensures Unmapped(ram0, d, lo, v)
  {}

  lemma Undone(ram0: seq<Frame>, own0: map<nat, Owner>, ram: seq<Frame>, own: map<nat, Owner>,
               ram': seq<Frame>, own': map<nat, Owner>, d: nat, lo: nat, mid: nat, hi: nat)
    requires mid <= hi && Populated(ram0, own0, ram, own, d, lo, mid) && Shrunk(ram, own, ram', own', d, lo, hi)
    ensures RolledBack(ram0, own0, ram', own', d, lo, hi) && IsRoot(own', d)
  {
    hide Walk, At, Vpn, Unmapped, BlankPage;
    OthersStep(ram0, own0, ram, own, ram', own', d);
    forall p: nat | UserOutside(own0, p, d, lo, hi)
      ensures p in own' && own'[p] == own0[p] && (p < |ram0| ==> ram'[p] == ram0[p])
    {
      assert UserOutside(own0, p, d, 0, 0);
      assert UserOutside(own, p, d, lo, hi);
    }
  }

  lemma UndoneFill(ram0: seq<Frame>, own0: map<nat, Owner>, ram: seq<Frame>, ram': seq<Frame>, own: map<nat, Owner>,
                   d: nat, lo: nat, hi: nat, mem: nat)
    requires RolledBack(ram0, own0, ram, own, d, lo, hi) && SpaceOk(ram, own) && mem !in own && |ram'| == |ram|
    requires forall q :: 0 <= q < |ram| && q != mem ==> ram'[q] == ram[q]
    ensures RolledBack(ram0, own0, ram', own, d, lo, hi)
  {
    FramesKept(ram, ram', own);
    hide Walk, At, Vpn;
    forall p | p in own0 && own0[p].root != d && p < |ram0|
      ensures ram'[p] == ram0[p]
    {
      assert p in OthersOf(own0, d);
      assert p in OthersOf(own, d);
    }
  }

  /** After a rollback the pages missing from the free list are tables. */
  lemma NoUserLeak(first: nat, head: nat, ram: seq<Frame>, free: seq<nat>, own: map<nat, Owner>, held: set<nat>,
                   head': nat, ram': seq<Frame>, free': seq<nat>, own': map<nat, Owner>, held': set<nat>, d: nat,
                   lo: nat, hi: nat)
    requires PoolOk(first, head, ram, free, own, held) && SpaceOk(ram, own) && IsRoot(own, d)
    requires PoolOk(first, head', ram', free', own', held') && SpaceOk(ram', own')
    requires RolledBack(ram, own, ram', own', d, lo, hi) && held' == held
    requires Elems(free') + own'.Keys + held' == Elems(free) + own.Keys + held
    ensures forall p :: p in free && p !in free' ==> TableFrom(own', d, 0, p)
  {
    hide Walk, At, IsTable, Vpn, Linked;
    forall p | p in free && p !in free'
      ensures TableFrom(own', d, 0, p)
    {
      assert p in Elems(free) && p !in Elems(free') && p in own';
      assert PageOk(ram', own', p);
      assert own'[p].root != d ==> p in OthersOf(own', d);
      if own'[p].slot.User? {
        WalkOwned(ram, own, d, own'[p].slot.k, own'[p].slot.j);
      }
    }
  }

  // ---- copying an address space ----

  datatype Copied = Child(d: nat) | NoCopy | CopyPanic

  /** Pages needed for n user pages and their tables. */
  function PagesFor(n: nat): (m: nat) { n + (n + ENTRIES - 1) / ENTRIES }

  /** With f free pages and k kernel tables, copying n pages fails just after taking the page that needs a new table. */
  predicate Leaks(f: nat, k: nat, n: nat) {
    f >= 1 + k && (f - 1 - k) % (ENTRIES + 1) == 1 && (f - 1 - k) / (ENTRIES + 1) * ENTRIES < n
  }

  /** Some page below n of directory d is not mapped. */
  ghost predicate Holed(ram: seq<Frame>, d: nat, n: nat) {
    exists v: nat :: v < n && Walk(ram, d, v / ENTRIES, v % ENTRIES) == ZERO
  }

  ghost predicate CopyOf(ram0: seq<Frame>, ram: seq<Frame>, own: map<nat, Owner>, p: nat, d: nat, k: nat, j: nat) {
    var e, c := Walk(ram0, p, k, j), Walk(ram, d, k, j);
    && e != ZERO && c.flags == e.flags && Owns(own, c.ppn, d, User(k, j))
    && e.ppn < |ram0| && c.ppn < |ram| && ram[c.ppn] == ram0[e.ppn]
  }

  /** User pages below n are copies of the parent's, and there are no others. */
  ghost predicate CopiedUpTo(ram0: seq<Frame>, ram: seq<Frame>, own: map<nat, Owner>, p: nat, d: nat, n: nat) {
    forall k: nat, j: nat :: k < UDIRS && j < ENTRIES ==>
        if Vpn(k, j) < n then CopyOf(ram0, ram, own, p, d, k, j) else Walk(ram, d, k, j) == ZERO
  }

  ghost predicate CopyInv(ram0: seq<Frame>, own0: map<nat, Owner>, ram: seq<Frame>, own: map<nat, Owner>, p: nat,
                          d: nat, kdirs: set<nat>, n: nat) {
    && IsRoot(own, d) && OthersOf(own, d) == own0 && |ram| == |ram0| && d != p
    && (forall q :: q in own0 && q < |ram| ==> ram[q] == ram0[q])
    && CopiedUpTo(ram0, ram, own, p, d, n)
    && Tables(ram, d) == kdirs + DirsOf(0, n) && (forall k :: k in kdirs ==> UDIRS <= k)
  }

  /** The input on which copyuvm loses a page: two free pages beside what the kernel part takes. */
  lemma LeaksAtTwo(k: nat, n: nat)
    requires n >= 1
    ensures Leaks(k + 2, k, n)
  {}

  lemma SizeFits(sz: nat)
    requires sz <= KERNBASE
    ensures PageUp(sz) <= UPAGES
  {
  }

  lemma NoPages()
    ensures PagesFor(0) == 0
  {
  }

  /** Some page below n of directory d is not mapped, and f free pages are enough to copy those before it. */
  ghost predicate HoleReached(ram: seq<Frame>, d: nat, n: nat, f: nat) {
    exists v: nat :: v < n && Walk(ram, d, v / ENTRIES, v % ENTRIES) == ZERO && PagesFor(v) <= f
  }

  lemma IsHoled(ram: seq<Frame>, d: nat, v: nat, n: nat, f: nat)
    requires v < n && Walk(ram, d, v / ENTRIES, v % ENTRIES) == ZERO && PagesFor(v) <= f
    ensures Holed(ram, d, n) && HoleReached(ram, d, n, f)
  {
  }

  /** No page below v, or below w, is a hole, and the free pages do not reach beyond w. */
  lemma NoHoleReached(ram0: seq<Frame>, own0: map<nat, Owner>, ram: seq<Frame>, own: map<nat, Owner>, p: nat, d: nat,
                      kdirs: set<nat>, v: nat, w: nat, n: nat, f: nat)
    requires CopyInv(ram0, own0, ram, own, p, d, kdirs, v) && n <= UPAGES
    requires w == v || (w == v + 1 && Walk(ram0, p, v / ENTRIES, v % ENTRIES) != ZERO)
    requires w <= n && (w == n || PagesFor(w) > f)
    ensures !HoleReached(ram0, p, n, f)
  {
    hide Walk, Tables, OthersOf;
    forall u: nat | u < v && v <= n
      ensures Walk(ram0, p, u / ENTRIES, u % ENTRIES) != ZERO
    {
      assert Vpn(u / ENTRIES, u % ENTRIES) == u;
      assert CopyOf(ram0, ram, own, p, d, u / ENTRIES, u % ENTRIES);
    }
    forall u: nat | w <= u < n
      ensures PagesFor(u) > f
    {
      assert (u + ENTRIES - 1) / ENTRIES >= (w + ENTRIES - 1) / ENTRIES;
    }
  }

  /** How the need for pages grows: a new table every ENTRIES pages. */
  lemma PagesStep(v: nat, n: nat)
    requires v < n
    ensures PagesFor(v + 1) == PagesFor(v) + if v % ENTRIES == 0 then 2 else 1
    ensures PagesFor(v + 1) <= PagesFor(n)
    ensures PagesFor(v) % (ENTRIES + 1) != 1
    ensures v % ENTRIES == 0 ==> (PagesFor(v) + 1) % (ENTRIES + 1) == 1
  {
    var q, r := v / ENTRIES, v % ENTRIES;
    assert v == ENTRIES * q + r;
    assert PagesFor(v) == (ENTRIES + 1) * q + if r == 0 then 0 else r + 1;
  }

  lemma OneTable(ts: set<nat>, k: nat)
    ensures |ts + {k}| == |ts| + if k in ts then 0 else 1
  {
    if k in ts { assert ts + {k} == ts; }
  }

  lemma LeakCases(f: nat, k: nat, n: nat)
    ensures f < 1 + k ==> !Leaks(f, k, n)
    ensures f >= 1 + k && f - 1 - k >= PagesFor(n) ==> !Leaks(f, k, n)
    ensures f >= 1 + k && f - 1 - k < PagesFor(n) ==> (Leaks(f, k, n) <==> (f - 1 - k) % (ENTRIES + 1) == 1)
  {
    if f >= 1 + k && (f - 1 - k) % (ENTRIES + 1) == 1 {
      var q := (f - 1 - k) / (ENTRIES + 1);
      assert f - 1 - k == (ENTRIES + 1) * q + 1;
      if n > 0 {
        var m, r := n / ENTRIES, n % ENTRIES;
        assert n == ENTRIES * m + r && PagesFor(n) == (ENTRIES + 1) * m + if r == 0 then 0 else r + 1;
      }
    }
  }

  lemma {:induction false} KernelDirs(kmap: seq<KMap>, n: nat)
    requires n <= |kmap| && forall i :: 0 <= i < |kmap| ==> RegionOk(kmap[i])
    ensures forall k :: k in KDirs(kmap, n) ==> UDIRS <= k
  {
    if n > 0 {
      KernelDirs(kmap, n - 1);
      var ds := DirsOf(Lo(kmap[n - 1]), Hi(kmap[n - 1]));
      forall k | k in ds
        ensures UDIRS <= k
      {
        var v: nat :| Lo(kmap[n - 1]) <= v && k == v / ENTRIES;
      }
    }
  }

  lemma CopyStart(ram0: seq<Frame>, own0: map<nat, Owner>, ram: seq<Frame>, own: map<nat, Owner>, p: nat, d: nat,
                  kmap: seq<KMap>)
    requires IsRoot(own0, p) && IsRoot(own, d) && d !in own0 && OthersOf(own, d) == own0 && |ram| == |ram0|
    requires forall q :: q in own0 && q < |ram| ==> ram[q] == ram0[q]
    requires KernelSpace(ram, d, kmap, |kmap|) && forall i :: 0 <= i < |kmap| ==> RegionOk(kmap[i])
    ensures CopyInv(ram0, own0, ram, own, p, d, KDirs(kmap, |kmap|), 0)
  {
    hide Walk, Tables;
    KernelDirs(kmap, |kmap|);
    assert DirsOf(0, 0) == {};
    forall k: nat, j: nat | k < UDIRS && j < ENTRIES
      ensures Walk(ram, d, k, j) == ZERO
    {
      assert !InRegions(kmap, |kmap|, k, j);
    }
  }

  lemma CopyHead(ram0: seq<Frame>, own0: map<nat, Owner>, ram: seq<Frame>, own: map<nat, Owner>, p: nat, d: nat,
                 kdirs: set<nat>, v: nat)
    requires CopyInv(ram0, own0, ram, own, p, d, kdirs, v) && IsRoot(own0, p) && SpaceOk(ram0, own0) && v < UPAGES
    ensures IsRoot(own, d) && IsRoot(own, p) && |ram| == |ram0|
    ensures Walk(ram, p, v / ENTRIES, v % ENTRIES) == Walk(ram0, p, v / ENTRIES, v % ENTRIES)
    ensures Walk(ram, d, v / ENTRIES, v % ENTRIES) == ZERO
    ensures v / ENTRIES in Tables(ram, d) <==> v % ENTRIES != 0
    ensures forall q :: q in own0 && q < |ram| ==> ram[q] == ram0[q]
  {
    hide Walk, Tables, At;
    FramesKept(ram0, ram, own0);
    assert p in OthersOf(own, d);
    assert Vpn(v / ENTRIES, v % ENTRIES) == v;
    DirsBelow(v);
  }

  lemma DirsBelow(v: nat)
    ensures v / ENTRIES in DirsOf(0, v) <==> v % ENTRIES != 0
  {
    if v % ENTRIES != 0 {
      assert (v - 1) / ENTRIES == v / ENTRIES;
    }
  }

  lemma WalkCases(ram: seq<Frame>, d: nat, k: nat, j: nat)
    ensures !Present(At(ram, d, k)) ==> Walk(ram, d, k, j) == ZERO
    ensures Present(At(ram, d, k)) ==> Walk(ram, d, k, j) == Norm(At(ram, At(ram, d, k).ppn, j))
  {
  }

  lemma ParentPage(ram0: seq<Frame>, own0: map<nat, Owner>, p: nat, v: nat)
    requires SpaceOk(ram0, own0) && IsRoot(own0, p) && v < UPAGES && Walk(ram0, p, v / ENTRIES, v % ENTRIES) != ZERO
    ensures var q := Walk(ram0, p, v / ENTRIES, v % ENTRIES).ppn; q in own0 && q < |ram0|
  {
    WalkOwned(ram0, own0, p, v / ENTRIES, v % ENTRIES);
    assert PageOk(ram0, own0, Walk(ram0, p, v / ENTRIES, v % ENTRIES).ppn);
  }

  lemma CopyFrames(ram0: seq<Frame>, own0: map<nat, Owner>, ram: seq<Frame>, own: map<nat, Owner>, p: nat, d: nat,
                   kdirs: set<nat>, v: nat)
    requires CopyInv(ram0, own0, ram, own, p, d, kdirs, v)
    ensures |ram| == |ram0| && OthersOf(own, d) == own0 && forall q :: q in own0 && q < |ram| ==>
      ram[q] == ram0[q] && q in own
  {
    forall q | q in own0
      ensures q in own
    {
      assert q in OthersOf(own, d);
    }
  }

  lemma CopyStep(ram0: seq<Frame>, own0: map<nat, Owner>, ram: seq<Frame>, own: map<nat, Owner>,
                 ram': seq<Frame>, own': map<nat, Owner>, p: nat, d: nat, kdirs: set<nat>, v: nat, mem: nat)
    requires CopyInv(ram0, own0, ram, own, p, d, kdirs, v) && v < UPAGES
    requires var e := Walk(ram0, p, v / ENTRIES, v % ENTRIES);
      e != ZERO && e.ppn in own0 && e.ppn < |ram0|
          && PagePut(ram, own, ram', own', d, v, Pte(mem, WithP(e.flags)), ram0[e.ppn])
    requires Tables(ram', d) == Tables(ram, d) + {v / ENTRIES}
    ensures CopyInv(ram0, own0, ram', own', p, d, kdirs, v + 1)
  {
    hide Walk, Tables, At, Grew;
    GrewOthers(ram, own, ram', own', d);
    CopyFrames(ram0, own0, ram, own, p, d, kdirs, v);
    DirsStep(0, v);
    assert (kdirs + DirsOf(0, v)) + {v / ENTRIES} == kdirs + (DirsOf(0, v) + {v / ENTRIES});
    WalkAbsent(ram0, p, v / ENTRIES, v % ENTRIES);
    assert Vpn(v / ENTRIES, v % ENTRIES) == v;
    forall k: nat, j: nat | k < UDIRS && j < ENTRIES
      ensures if Vpn(k, j) < v + 1 then CopyOf(ram0, ram', own', p, d, k, j) else Walk(ram', d, k, j) == ZERO
    {
      VpnSplits(k, j, v);
      if Vpn(k, j) < v {
        assert CopyOf(ram0, ram, own, p, d, k, j);
        StillUser(ram, own, ram', own', d, Walk(ram, d, k, j).ppn);
      }
    }
  }

  lemma GrewOthers(ram: seq<Frame>, own: map<nat, Owner>, ram': seq<Frame>, own': map<nat, Owner>, d: nat)
    requires Grew(ram, own, ram', own', d)
    ensures OthersOf(own', d) == OthersOf(own, d) && IsRoot(own', d) && |ram'| == |ram|
    ensures forall q :: q in OthersOf(own, d) && q < |ram| ==> ram'[q] == ram[q]
  {
  }

  lemma CopyEnd(ram0: seq<Frame>, own0: map<nat, Owner>, ram: seq<Frame>, own: map<nat, Owner>, p: nat, d: nat,
                kdirs: set<nat>, n: nat)
    ensures CopyInv(ram0, own0, ram, own, p, d, kdirs, n) ==>
      IsRoot(own, d) && OthersOf(own, d) == own0 && CopiedUpTo(ram0, ram, own, p, d, n)
  {
  }

  // ---- whole lifetimes ----

  datatype Resize = Grow(oldsz: nat, newsz: nat) | Shrink(oldsz: nat, newsz: nat)

  /** An upper bound on the user pages mapped after i operations, from their arguments alone. */
  function TopAfter(ops: seq<Resize>, i: nat): (top: nat)
    requires i <= |ops|
  {
    if i == 0 then 0
    else
      var top, op := TopAfter(ops, i - 1), ops[i - 1];
      match op
      case Grow(oldsz, newsz) => if oldsz <= newsz < KERNBASE && top < PageUp(newsz) then PageUp(newsz) else top
      case Shrink(oldsz, newsz) => if newsz < oldsz && PageUp(newsz) < top <= PageUp(oldsz) then PageUp(newsz) else top
  }

  /** Some operation grows over pages that earlier ones may have mapped. */
  ghost predicate Overgrows(ops: seq<Resize>) {
    exists i :: 0 <= i < |ops| && OvergrowsAt(ops, i)
  }

  predicate OvergrowsAt(ops: seq<Resize>, i: nat) {
    i < |ops| && ops[i].Grow? && PageUp(ops[i].oldsz) < PageUp(ops[i].newsz) && PageUp(ops[i].oldsz) < TopAfter(ops, i)
  }

  lemma KernelOnly(ram: seq<Frame>, d: nat, kmap: seq<KMap>)
    requires KernelSpace(ram, d, kmap, |kmap|) && forall i :: 0 <= i < |kmap| ==> RegionOk(kmap[i])
    ensures Unmapped(ram, d, 0, UPAGES)
  {
    hide Walk;
    forall k: nat, j: nat | j < ENTRIES && Vpn(k, j) < UPAGES
      ensures Walk(ram, d, k, j) == ZERO
    {
      assert !InRegions(kmap, |kmap|, k, j);
    }
  }

  lemma TopGrown(ram: seq<Frame>, own: map<nat, Owner>, ram': seq<Frame>, own': map<nat, Owner>, d: nat,
                 ops: seq<Resize>, i: nat)
    requires i < |ops| && ops[i].Grow? && Unmapped(ram, d, TopAfter(ops, i), UPAGES)
    requires var lo, hi := PageUp(ops[i].oldsz), PageUp(ops[i].newsz);
      if ops[i].oldsz <= ops[i].newsz < KERNBASE
      then Populated(ram, own, ram', own', d, lo, hi) || RolledBack(ram, own, ram', own', d, lo, hi) else ram' == ram
    ensures Unmapped(ram', d, TopAfter(ops, i + 1), UPAGES)
  {
    hide Walk, PageUp, BlankPage, Grew, Others, UserKept;
  }

  lemma TopShrunk(ram: seq<Frame>, own: map<nat, Owner>, ram': seq<Frame>, own': map<nat, Owner>, d: nat,
                  ops: seq<Resize>, i: nat)
    requires i < |ops| && ops[i].Shrink? && Unmapped(ram, d, TopAfter(ops, i), UPAGES)
    requires if ops[i].newsz < ops[i].oldsz
      then Shrunk(ram, own, ram', own', d, PageUp(ops[i].newsz), PageUp(ops[i].oldsz)) else ram' == ram
    ensures Unmapped(ram', d, TopAfter(ops, i + 1), UPAGES)
  {
    hide Walk, PageUp, At, Others, UserKept;
  }

  lemma TopMet(ram: seq<Frame>, d: nat, ops: seq<Resize>, i: nat, f: nat)
    requires i < |ops| && ops[i].Grow? && ops[i].oldsz <= ops[i].newsz < KERNBASE
    requires Unmapped(ram, d, TopAfter(ops, i), UPAGES)
    requires PageUp(ops[i].oldsz) <= PageUp(ops[i].newsz)
    requires MeetsMapped(ram, d, PageUp(ops[i].oldsz), PageUp(ops[i].newsz), f)
    ensures Overgrows(ops)
  {
    hide Walk, PagesNeeded;
    PageUpMono(ops[i].oldsz, ops[i].newsz);
    var lo, hi := PageUp(ops[i].oldsz), PageUp(ops[i].newsz);
    var v: nat :| lo <= v < hi && MappedFirst(ram, d, lo, v);
    assert Vpn(v / ENTRIES, v % ENTRIES) == v;
    assert OvergrowsAt(ops, i);
  }

  lemma OthersSelf(ram: seq<Frame>, own: map<nat, Owner>, d: nat)
    ensures Others(ram, own, ram, own, d)
  {
  }

  lemma PopulatedOthers(ram: seq<Frame>, own: map<nat, Owner>, ram': seq<Frame>, own': map<nat, Owner>, d: nat, lo: nat,
                        hi: nat)
    requires Populated(ram, own, ram', own', d, lo, hi)
    ensures Others(ram, own, ram', own', d)
  {
  }

  lemma RolledBackOthers(ram: seq<Frame>, own: map<nat, Owner>, ram': seq<Frame>, own': map<nat, Owner>, d: nat,
                         lo: nat, hi: nat)
    requires RolledBack(ram, own, ram', own', d, lo, hi)
    ensures Others(ram, own, ram', own', d)
  {
  }

  lemma ShrunkOthers(ram: seq<Frame>, own: map<nat, Owner>, ram': seq<Frame>, own': map<nat, Owner>, d: nat, lo: nat,
                     hi: nat)
    requires Shrunk(ram, own, ram', own', d, lo, hi)
    ensures Others(ram, own, ram', own', d)
  {
  }

  lemma OthersStay(ram0: seq<Frame>, own0: map<nat, Owner>, ram: seq<Frame>, own: map<nat, Owner>, ram': seq<Frame>,
                   own': map<nat, Owner>, d: nat)
    requires Others(ram, own, ram', own', d) && OthersOf(own, d) == own0 && |ram| == |ram0|
    requires forall q :: q in own0 && q < |ram| ==> ram[q] == ram0[q]
    ensures OthersOf(own', d) == own0 && forall q :: q in own0 && q < |ram| ==> ram'[q] == ram0[q]
  {
    forall q | q in own0 && q < |ram|
      ensures ram'[q] == ram0[q]
    {
      assert q in OthersOf(own, d);
    }
  }

  /** With the same pages owned and held, the same pages are free. */
  lemma SameFree(first: nat, head: nat, ram: seq<Frame>, free: seq<nat>, head': nat, ram': seq<Frame>, free': seq<nat>,
                 own: map<nat, Owner>, held: set<nat>)
    requires PoolOk(first, head, ram, free, own, held) && PoolOk(first, head', ram', free', own, held)
    requires Elems(free') + own.Keys + held == Elems(free) + own.Keys + held
    ensures Elems(free') == Elems(free)
  {
    hide Linked;
    forall p
      ensures p in Elems(free') <==> p in Elems(free)
    {
      assert p in Elems(free') + own.Keys + held <==> p in Elems(free) + own.Keys + held;
    }
  }

  // ---- how many pages growing takes ----

  /** Pages that mapping [lo, hi) takes: one each, and one for each missing table. */
  ghost function PagesNeeded(ram: seq<Frame>, d: nat, lo: nat, hi: nat): (n: nat)
    requires lo <= hi
  {
    hi - lo + |DirsOf(lo, hi) - Tables(ram, d)|
  }

  /** With f free pages the loop of allocuvm gets as far as a page that is mapped already. */
  ghost predicate MeetsMapped(ram: seq<Frame>, d: nat, lo: nat, hi: nat, f: nat) {
    exists v: nat :: lo <= v < hi && MappedFirst(ram, d, lo, v) && PagesNeeded(ram, d, lo, v) < f
  }

  ghost predicate MappedFirst(ram: seq<Frame>, d: nat, lo: nat, v: nat) {
    Unmapped(ram, d, lo, v) && Walk(ram, d, v / ENTRIES, v % ENTRIES) != ZERO
  }

  /** The tables and free pages when [lo, a) has been mapped. */
  ghost predicate Counted(ram0: seq<Frame>, ram: seq<Frame>, d: nat, lo: nat, a: nat, f0: nat, f: nat) {
    lo <= a && Tables(ram, d) == Tables(ram0, d) + DirsOf(lo, a) && f0 == f + PagesNeeded(ram0, d, lo, a)
  }

  lemma CountStart(ram: seq<Frame>, d: nat, lo: nat, f: nat)
    ensures Counted(ram, ram, d, lo, lo, f, f)
  {
    assert DirsOf(lo, lo) == {};
    assert DirsOf(lo, lo) - Tables(ram, d) == {};
  }

  /** Entries for one page more. */
  lemma NeedStep(ram: seq<Frame>, d: nat, lo: nat, a: nat)
    requires lo <= a
    ensures PagesNeeded(ram, d, lo, a + 1)
         == PagesNeeded(ram, d, lo, a) + 1 + if a / ENTRIES in Tables(ram, d) + DirsOf(lo, a) then 0 else 1
  {
    DirsStep(lo, a);
    var t, ds, k := Tables(ram, d), DirsOf(lo, a), a / ENTRIES;
    if k in t + ds {
      assert (ds + {k}) - t == ds - t;
    } else {
      assert (ds + {k}) - t == (ds - t) + {k};
    }
  }

  lemma {:induction false} NeedGrows(ram: seq<Frame>, d: nat, lo: nat, a: nat, b: nat)
    requires lo <= a <= b
    ensures PagesNeeded(ram, d, lo, a) + (b - a) <= PagesNeeded(ram, d, lo, b)
    decreases b - a
  {
    hide PagesNeeded, DirsOf, Tables;
    if a < b {
      NeedStep(ram, d, lo, a);
      NeedGrows(ram, d, lo, a + 1, b);
    }
  }

  lemma CountStep(ram0: seq<Frame>, ram: seq<Frame>, ram': seq<Frame>, d: nat, lo: nat, a: nat, f0: nat, f: nat,
                  f': nat)
    requires Counted(ram0, ram, d, lo, a, f0, f) && Tables(ram', d) == Tables(ram, d) + {a / ENTRIES}
    requires f + |Tables(ram, d)| == f' + |Tables(ram', d)| + 1
    ensures Counted(ram0, ram', d, lo, a + 1, f0, f')
  {
    hide Tables, DirsOf;
    NeedStep(ram0, d, lo, a);
    DirsStep(lo, a);
    var t, k := Tables(ram, d), a / ENTRIES;
    assert Tables(ram0, d) + DirsOf(lo, a) + {k} == Tables(ram0, d) + (DirsOf(lo, a) + {k});
    if k in t { assert t + {k} == t; }
  }

  /** Out of pages at virtual page a: too few for the range, and no mapped page came first. */
  lemma RanOut(ram0: seq<Frame>, ram: seq<Frame>, d: nat, lo: nat, a: nat, hi: nat, f0: nat, f: nat)
    requires Counted(ram0, ram, d, lo, a, f0, f) && a < hi && hi <= VPAGES && Unmapped(ram0, d, lo, a)
    requires f == 0 || (f == 1 && a / ENTRIES !in Tables(ram, d))
    ensures f0 < PagesNeeded(ram0, d, lo, hi) && !MeetsMapped(ram0, d, lo, hi, f0)
  {
    hide DirsOf, PagesNeeded, Walk;
    NeedStep(ram0, d, lo, a);
    NeedGrows(ram0, d, lo, a + 1, hi);
    forall v: nat | lo <= v < hi && MappedFirst(ram0, d, lo, v)
      ensures PagesNeeded(ram0, d, lo, v) >= f0
    {
      assert Vpn(v / ENTRIES, v % ENTRIES) == v;
      if v > a {
        NeedGrows(ram0, d, lo, a + 1, v);
      } else {
        WalkTable(ram0, d, v);
      }
    }
  }

  lemma WalkTable(ram: seq<Frame>, d: nat, v: nat)
    requires v < VPAGES && Walk(ram, d, v / ENTRIES, v % ENTRIES) != ZERO
    ensures v / ENTRIES in Tables(ram, d)
  {}

  /** The loop stops at a mapped page with a page in hand. */
  lemma MetMapped(ram0: seq<Frame>, own0: map<nat, Owner>, ram: seq<Frame>, own: map<nat, Owner>, d: nat, lo: nat,
                  a: nat, hi: nat, f0: nat, f: nat)
    requires Counted(ram0, ram, d, lo, a, f0, f) && a < hi && f > 0 && Populated(ram0, own0, ram, own, d, lo, a)
    requires Walk(ram, d, a / ENTRIES, a % ENTRIES) != ZERO
    ensures MeetsMapped(ram0, d, lo, hi, f0)
  {
    hide Walk, PagesNeeded;
    assert Vpn(a / ENTRIES, a % ENTRIES) == a;
    assert MappedFirst(ram0, d, lo, a);
  }

  lemma AllMapped(ram0: seq<Frame>, own0: map<nat, Owner>, ram: seq<Frame>, own: map<nat, Owner>, d: nat, lo: nat,
                  hi: nat, f0: nat, f: nat)
    requires Counted(ram0, ram, d, lo, hi, f0, f) && Populated(ram0, own0, ram, own, d, lo, hi)
    ensures f0 >= PagesNeeded(ram0, d, lo, hi) && !MeetsMapped(ram0, d, lo, hi, f0)
    ensures f0 == f + PagesNeeded(ram0, d, lo, hi)
  {
    hide Walk, PagesNeeded, Tables, DirsOf;
    forall v: nat | lo <= v < hi
      ensures !MappedFirst(ram0, d, lo, v)
    {
      assert Vpn(v / ENTRIES, v % ENTRIES) == v;
    }
  }

  /** The free list has as many entries as free pages. */
  lemma FreeCard(first: nat, head: nat, ram: seq<Frame>, free: seq<nat>, own: map<nat, Owner>, held: set<nat>, lo: nat,
                 hi: nat)
    requires PoolOk(first, head, ram, free, own, held) && lo <= hi && forall p: nat :: p in free <==> lo <= p < hi
    ensures |free| == hi - lo
  {
    DistinctCard(free);
    assert Elems(free) == Range(lo, hi);
  }

  /** One page in a directory without tables takes two pages. */
  lemma NeedOne(ram: seq<Frame>, d: nat, kmap: seq<KMap>, v: nat)
    requires Tables(ram, d) == KDirs(kmap, |kmap|) && v < UPAGES
    requires forall i :: 0 <= i < |kmap| ==> RegionOk(kmap[i])
    ensures PagesNeeded(ram, d, v, v + 1) == 2
  {
    hide Tables, KDirs, RegionOk;
    DirsOne(v);
    KernelDirs(kmap, |kmap|);
    assert DirsOf(v, v + 1) - Tables(ram, d) == {v / ENTRIES};
  }

  lemma TopStart(ops: seq<Resize>)
    ensures TopAfter(ops, 0) == 0
  {}

  lemma UnmappedMeets(ram: seq<Frame>, d: nat, lo: nat, hi: nat, f: nat)
    requires hi <= UPAGES && Unmapped(ram, d, 0, UPAGES)
    ensures !MeetsMapped(ram, d, lo, hi, f)
  {
    hide Walk, PagesNeeded;
    forall v: nat | lo <= v < hi
      ensures !MappedFirst(ram, d, lo, v)
    {
      assert Vpn(v / ENTRIES, v % ENTRIES) == v;
    }
  }

  /** With no free page nothing is reached and everything is short. */
  lemma NothingFree(ram: seq<Frame>, d: nat, lo: nat, hi: nat)
    requires lo < hi
    ensures !MeetsMapped(ram, d, lo, hi, 0) && 0 < PagesNeeded(ram, d, lo, hi)
  {}

  lemma NotHoled(ram: seq<Frame>, d: nat)
    requires Walk(ram, d, 0, 0) != ZERO
    ensures !Holed(ram, d, 1)
  {}

  lemma SmallNeeds()
    ensures PageUp(0) == 0 && PageUp(PGSIZE) == 1 && PageUp(2 * PGSIZE) == 2 && PagesFor(1) == 2
  {}

  /** Regions that share no page cannot meet. */
  lemma ApartMeets(kmap: seq<KMap>, f: nat)
    requires !Overlap(kmap)
    ensures !MeetsRegion(kmap, f)
  {
    hide InRegion, KDirs, DirsOf;
    assert forall n: nat, v: nat :: !Clash(kmap, n, v);
  }

  lemma EmptySpace(ram: seq<Frame>)
    ensures SpaceOk(ram, map[])
  {}
}
