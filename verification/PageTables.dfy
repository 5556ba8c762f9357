/** Two-level page tables (mmu.h, vm.c) as values: physical pages, who owns each, and what a single write keeps. */
module PageTables {

  const PGSIZE: nat := 4096
  const ENTRIES: nat := 1024
  /** Directory entries below UDIRS translate user addresses. */
  const UDIRS: nat := 512
  const KERNBASE: nat := 0x8000_0000

  const PTE_P: nat := 1
  const PTE_W: nat := 2
  const PTE_U: nat := 4

  /** An entry: the physical page number and the low flag bits. */
  datatype Pte = Pte(ppn: nat, flags: nat)

  const ZERO := Pte(0, 0)

  predicate Present(e: Pte) { e.flags % 2 == 1 }

  /** A page holds 1024 words, or a free-list link (struct run). */
  datatype Frame = Run(next: nat) | Words(pte: seq<Pte>)

  function Blank(): (f: Frame) { Words(seq(ENTRIES, i => ZERO)) }

  /** The place of an owned page in its address space; a user page at entry j of table k. */
  datatype Slot = Root | Table(k: nat) | User(k: nat, j: nat)
  datatype Owner = Owner(root: nat, slot: Slot)

  predicate IsTable(ram: seq<Frame>, p: nat) { p < |ram| && ram[p].Words? && |ram[p].pte| == ENTRIES }

  function At(ram: seq<Frame>, p: nat, j: nat): (e: Pte) {
    if IsTable(ram, p) && j < ENTRIES then ram[p].pte[j] else ZERO
  }

  function Norm(e: Pte): (r: Pte) { if Present(e) then e else ZERO }

  /** The translation at entry j of table k of directory d; ZERO if there is none. */
  function Walk(ram: seq<Frame>, d: nat, k: nat, j: nat): (e: Pte) {
    if Present(At(ram, d, k)) then Norm(At(ram, At(ram, d, k).ppn, j)) else ZERO
  }

  function Put(ram: seq<Frame>, p: nat, j: nat, e: Pte): (r: seq<Frame>)
    requires IsTable(ram, p) && j < ENTRIES
    ensures |r| == |ram|
  {
    ram[p := Words(ram[p].pte[j := e])]
  }

  lemma PutAt(ram: seq<Frame>, p: nat, j: nat, e: Pte)
    requires IsTable(ram, p) && j < ENTRIES
    ensures forall q: nat :: IsTable(Put(ram, p, j, e), q) == IsTable(ram, q)
    ensures forall q: nat, i: nat :: At(Put(ram, p, j, e), q, i) == if q == p && i == j then e else At(ram, q, i)
    ensures forall q :: 0 <= q < |ram| && q != p ==> Put(ram, p, j, e)[q] == ram[q]
  {
  }

  lemma FrameAt(ram: seq<Frame>, p: nat, f: Frame)
    requires p < |ram|
    ensures forall q: nat :: q != p ==> IsTable(ram[p := f], q) == IsTable(ram, q)
    ensures forall q: nat, i: nat :: q != p ==> At(ram[p := f], q, i) == At(ram, q, i)
  {
  }

  lemma BlankAt(ram: seq<Frame>, p: nat, r: seq<Frame>)
    requires p < |ram| && r == ram[p := Blank()]
    ensures IsTable(r, p) && forall i: nat :: At(r, p, i) == ZERO
  {
  }

  predicate Owns(own: map<nat, Owner>, p: nat, d: nat, s: Slot) { p in own && own[p] == Owner(d, s) }

  predicate IsRoot(own: map<nat, Owner>, d: nat) { Owns(own, d, d, Root) }

  /** Every present directory entry leads to a table of that directory. */
  ghost predicate DirOk(ram: seq<Frame>, own: map<nat, Owner>, d: nat) {
    IsTable(ram, d) && forall k: nat :: Present(At(ram, d, k)) ==> Owns(own, At(ram, d, k).ppn, d, Table(k))
  }

  /** Every present user entry leads to a user page of that address space. */
  ghost predicate TabOk(ram: seq<Frame>, own: map<nat, Owner>, d: nat, k: nat, t: nat) {
    && IsTable(ram, t) && IsRoot(own, d) && k < ENTRIES && Present(At(ram, d, k)) && At(ram, d, k).ppn == t
    && (k < UDIRS ==> forall j: nat :: Present(At(ram, t, j)) ==> Owns(own, At(ram, t, j).ppn, d, User(k, j)))
  }

  ghost predicate UserOk(ram: seq<Frame>, own: map<nat, Owner>, d: nat, k: nat, j: nat, p: nat) {
    k < UDIRS && j < ENTRIES && IsRoot(own, d) && Present(Walk(ram, d, k, j)) && Walk(ram, d, k, j).ppn == p
  }

  ghost predicate PageOk(ram: seq<Frame>, own: map<nat, Owner>, p: nat) {
    p in own ==>
      p < |ram| &&
      match own[p].slot
      case Root => own[p].root == p && DirOk(ram, own, p)
      case Table(k) => TabOk(ram, own, own[p].root, k, p)
      case User(k, j) => UserOk(ram, own, own[p].root, k, j, p)
  }

  /** Ownership and page tables describe each other, so no page is reachable from two places. */
  ghost predicate SpaceOk(ram: seq<Frame>, own: map<nat, Owner>) {
    forall p :: p in own ==> PageOk(ram, own, p)
  }

  // ---- a new table ----

  function WithTable(ram: seq<Frame>, d: nat, k: nat, t: nat): (r: seq<Frame>)
    requires IsTable(ram, d) && k < ENTRIES && t < |ram| && t != d
    ensures |r| == |ram|
  {
    Put(ram[t := Blank()], d, k, Pte(t, PTE_P + PTE_W + PTE_U))
  }

  lemma WithTableAt(ram: seq<Frame>, d: nat, k: nat, t: nat)
    requires IsTable(ram, d) && k < ENTRIES && t < |ram| && t != d
    ensures var r := WithTable(ram, d, k, t);
      && IsTable(r, t)
      && (forall q: nat :: q != t ==> IsTable(r, q) == IsTable(ram, q))
      && (forall q: nat, i: nat :: At(r, q, i) == if q == t then ZERO
          else if q == d && i == k then Pte(t, 7) else At(ram, q, i))
      && (forall q :: 0 <= q < |ram| && q != t && q != d ==> r[q] == ram[q])
  {
    hide IsTable, At;
    FrameAt(ram, t, Blank());
    BlankAt(ram, t, ram[t := Blank()]);
    PutAt(ram[t := Blank()], d, k, Pte(t, PTE_P + PTE_W + PTE_U));
  }

  lemma TableAdded(ram: seq<Frame>, own: map<nat, Owner>, d: nat, k: nat, t: nat)
    requires SpaceOk(ram, own) && IsRoot(own, d) && IsTable(ram, d) && k < ENTRIES && !Present(At(ram, d, k))
    requires t < |ram| && t !in own
    ensures SpaceOk(WithTable(ram, d, k, t), own[t := Owner(d, Table(k))])
    ensures forall d': nat, i: nat, j: nat ::
      IsRoot(own, d') ==> Walk(WithTable(ram, d, k, t), d', i, j) == Walk(ram, d', i, j)
  {
    hide IsTable, At, WithTable;
    var ram', own' := WithTable(ram, d, k, t), own[t := Owner(d, Table(k))];
    WithTableAt(ram, d, k, t);
    forall d': nat, i: nat, j: nat | IsRoot(own, d')
      ensures Walk(ram', d', i, j) == Walk(ram, d', i, j)
    {
      assert PageOk(ram, own, d');
    }
    forall p | p in own'
      ensures PageOk(ram', own', p)
    {
      assert PageOk(ram, own, p);
      assert p in own && own[p].slot.Table? ==> PageOk(ram, own, own[p].root);
    }
  }

  // ---- a new translation ----

  function MappedOwn(own: map<nat, Owner>, d: nat, k: nat, j: nat, p: nat): (r: map<nat, Owner>) {
    if k < UDIRS then own[p := Owner(d, User(k, j))] else own
  }

  /** A write to entry j of table k moves exactly that translation of that address space. */
  lemma EntryWalks(ram: seq<Frame>, own: map<nat, Owner>, d: nat, k: nat, j: nat, t: nat, e: Pte)
    requires SpaceOk(ram, own) && Owns(own, t, d, Table(k)) && IsTable(ram, t) && j < ENTRIES
    ensures forall d': nat, i: nat, l: nat :: IsRoot(own, d') ==>
      Walk(Put(ram, t, j, e), d', i, l) == if d' == d && i == k && l == j then Norm(e) else Walk(ram, d', i, l)
  {
    hide IsTable, At, Put;
    PutAt(ram, t, j, e);
    assert PageOk(ram, own, t);
    forall d': nat, i: nat, l: nat | IsRoot(own, d')
      ensures Walk(Put(ram, t, j, e), d', i, l) == if d' == d && i == k && l == j then Norm(e) else Walk(ram, d', i, l)
    {
      assert PageOk(ram, own, d');
    }
  }

  lemma EntryMapped(ram: seq<Frame>, own: map<nat, Owner>, d: nat, k: nat, j: nat, t: nat, e: Pte)
    requires SpaceOk(ram, own) && Owns(own, t, d, Table(k)) && IsTable(ram, t) && j < ENTRIES && !Present(At(ram, t, j))
    requires Present(e) && (k < UDIRS ==> e.ppn < |ram| && e.ppn !in own)
    ensures SpaceOk(Put(ram, t, j, e), MappedOwn(own, d, k, j, e.ppn))
  {
    hide IsTable, At, Put, Walk;
    var ram', own' := Put(ram, t, j, e), MappedOwn(own, d, k, j, e.ppn);
    PutAt(ram, t, j, e);
    EntryWalks(ram, own, d, k, j, t, e);
    assert PageOk(ram, own, t);
    assert Walk(ram, d, k, j) == ZERO by { WalkIs(ram, d, k, j); }
    forall p | p in own'
      ensures PageOk(ram', own', p)
    {
      assert PageOk(ram, own, p);
    }
  }

  lemma WalkIs(ram: seq<Frame>, d: nat, k: nat, j: nat)
    requires Present(At(ram, d, k))
    ensures Walk(ram, d, k, j) == Norm(At(ram, At(ram, d, k).ppn, j))
  {
  }

  // ---- a translation removed ----

  function Without(own: map<nat, Owner>, p: nat): (r: map<nat, Owner>) { map q | q in own && q != p :: own[q] }

  /** The user page at entry j of table k is cut off, whatever its frame then holds. */
  lemma EntryCleared(ram: seq<Frame>, own: map<nat, Owner>, d: nat, k: nat, j: nat, t: nat, f: Frame)
    requires SpaceOk(ram, own) && Owns(own, t, d, Table(k)) && k < UDIRS && IsTable(ram, t) && j < ENTRIES
    requires Present(At(ram, t, j))
    ensures var p := At(ram, t, j).ppn;
      && Owns(own, p, d, User(k, j)) && p < |ram| && p != t && IsTable(ram[p := f], t)
      && SpaceOk(Put(ram[p := f], t, j, ZERO), Without(own, p))
  {
    hide IsTable, At, Put, Walk;
    assert PageOk(ram, own, t);
    var p := At(ram, t, j).ppn;
    assert PageOk(ram, own, p);
    var mid := ram[p := f];
    FrameAt(ram, p, f);
    PutAt(mid, t, j, ZERO);
    var ram', own' := Put(mid, t, j, ZERO), Without(own, p);
    forall q | q in own'
      ensures PageOk(ram', own', q)
    {
      assert PageOk(ram, own, q);
      ClearedPage(ram, own, d, k, j, t, f, q);
    }
  }

  lemma ClearedPage(ram: seq<Frame>, own: map<nat, Owner>, d: nat, k: nat, j: nat, t: nat, f: Frame, q: nat)
    requires SpaceOk(ram, own) && Owns(own, t, d, Table(k)) && k < UDIRS && IsTable(ram, t) && j < ENTRIES
    requires Present(At(ram, t, j))
    requires var p := At(ram, t, j).ppn;
      Owns(own, p, d, User(k, j)) && p < |ram| && p != t && IsTable(ram[p := f], t) && q in own && q != p
    ensures var p := At(ram, t, j).ppn; PageOk(Put(ram[p := f], t, j, ZERO), Without(own, p), q)
  {
    hide IsTable, At, Put;
    var p := At(ram, t, j).ppn;
    FrameAt(ram, p, f);
    PutAt(ram[p := f], t, j, ZERO);
    assert PageOk(ram, own, t) && PageOk(ram, own, q);
    if own[q].slot.User? {
      assert PageOk(ram, own, own[q].root);
    }
  }

  lemma ClearedWalks(ram: seq<Frame>, own: map<nat, Owner>, d: nat, k: nat, j: nat, t: nat, f: Frame)
    requires SpaceOk(ram, own) && Owns(own, t, d, Table(k)) && k < UDIRS && IsTable(ram, t) && j < ENTRIES
    requires Present(At(ram, t, j))
    requires var p := At(ram, t, j).ppn; Owns(own, p, d, User(k, j)) && p < |ram| && p != t && IsTable(ram[p := f], t)
    ensures var p := At(ram, t, j).ppn;
      forall d': nat, i: nat, l: nat :: IsRoot(own, d') ==>
        Walk(Put(ram[p := f], t, j, ZERO), d', i, l) == if d' == d && i == k && l == j then ZERO
            else Walk(ram, d', i, l)
  {
    hide IsTable, At, Put;
    var p := At(ram, t, j).ppn;
    FrameAt(ram, p, f);
    PutAt(ram[p := f], t, j, ZERO);
    assert PageOk(ram, own, t);
    forall d': nat, i: nat, l: nat | IsRoot(own, d')
      ensures Walk(Put(ram[p := f], t, j, ZERO), d', i, l) == if d' == d && i == k && l == j then ZERO
          else Walk(ram, d', i, l)
    {
      assert PageOk(ram, own, d');
    }
  }

  // ---- whole address spaces ----

  /** Only the frames of owned pages matter. */
  lemma FramesKept(ram: seq<Frame>, ram': seq<Frame>, own: map<nat, Owner>)
    requires SpaceOk(ram, own) && |ram'| == |ram| && forall p :: p in own && p < |ram| ==> ram'[p] == ram[p]
    ensures SpaceOk(ram', own)
    ensures forall d: nat, i: nat, j: nat :: IsRoot(own, d) ==> Walk(ram', d, i, j) == Walk(ram, d, i, j)
  {
    forall p | p in own
      ensures forall i: nat :: At(ram', p, i) == At(ram, p, i)
    {
      assert PageOk(ram, own, p);
    }
    WalksKept(ram, ram', own);
    forall p | p in own
      ensures PageOk(ram', own, p)
    {
      assert PageOk(ram, own, p);
      assert PageOk(ram, own, own[p].root);
    }
  }

  lemma WalksKept(ram: seq<Frame>, ram': seq<Frame>, own: map<nat, Owner>)
    requires SpaceOk(ram, own) && forall p: nat, i: nat :: p in own ==> At(ram', p, i) == At(ram, p, i)
    ensures forall d: nat, i: nat, j: nat :: IsRoot(own, d) ==> Walk(ram', d, i, j) == Walk(ram, d, i, j)
  {
    hide At;
    forall d: nat, i: nat, j: nat | IsRoot(own, d)
      ensures Walk(ram', d, i, j) == Walk(ram, d, i, j)
    {
      assert PageOk(ram, own, d);
    }
  }

  lemma RootAdded(ram: seq<Frame>, own: map<nat, Owner>, d: nat)
    requires SpaceOk(ram, own) && d < |ram| && d !in own
    ensures SpaceOk(ram[d := Blank()], own[d := Owner(d, Root)])
    ensures forall d': nat, i: nat, j: nat ::
      IsRoot(own, d') ==> Walk(ram[d := Blank()], d', i, j) == Walk(ram, d', i, j)
  {
    var ram', own' := ram[d := Blank()], own[d := Owner(d, Root)];
    BlankAt(ram, d, ram');
    hide IsTable, At;
    FramesKept(ram, ram', own);
    forall p | p in own'
      ensures PageOk(ram', own', p)
    {
      assert PageOk(ram', own, p);
    }
  }

  function OthersOf(own: map<nat, Owner>, d: nat): (r: map<nat, Owner>)
  {
    map q | q in own && own[q].root != d :: own[q]
  }

  lemma RootDropped(ram: seq<Frame>, own: map<nat, Owner>, d: nat)
    requires SpaceOk(ram, own)
    ensures SpaceOk(ram, OthersOf(own, d))
  {
    hide At, IsTable;
    var own' := OthersOf(own, d);
    forall p | p in own'
      ensures PageOk(ram, own', p)
    {
      assert PageOk(ram, own, p);
      assert PageOk(ram, own, own[p].root);
    }
  }

  /** The other address spaces own what they owned, and the frames they own are untouched. */
  ghost predicate Others(ram: seq<Frame>, own: map<nat, Owner>, ram': seq<Frame>, own': map<nat, Owner>, d: nat) {
    && OthersOf(own', d) == OthersOf(own, d) && |ram'| == |ram|
    && forall p :: p in own && own[p].root != d && p < |ram| ==> ram'[p] == ram[p]
  }

  lemma OthersStep(ram: seq<Frame>, own: map<nat, Owner>, ram': seq<Frame>, own': map<nat, Owner>, ram'': seq<Frame>,
                   own'': map<nat, Owner>, d: nat)
    requires Others(ram, own, ram', own', d) && Others(ram', own', ram'', own'', d)
    ensures Others(ram, own, ram'', own'', d)
  {
    forall p | p in own && own[p].root != d && p < |ram|
      ensures ram''[p] == ram[p]
    {
      assert p in OthersOf(own, d);
      assert p in OthersOf(own', d);
    }
  }

  /** So every other address space translates as before. */
  lemma OthersTranslate(ram: seq<Frame>, own: map<nat, Owner>, ram': seq<Frame>, own': map<nat, Owner>, d: nat, d': nat,
                        k: nat, j: nat)
    requires SpaceOk(ram, own) && Others(ram, own, ram', own', d) && IsRoot(own, d') && d' != d
    ensures IsRoot(own', d') && Walk(ram', d', k, j) == Walk(ram, d', k, j)
  {
    RootDropped(ram, own, d);
    FramesKept(ram, ram', OthersOf(own, d));
    assert d' in OthersOf(own, d);
    assert d' in OthersOf(own', d);
    assert IsRoot(OthersOf(own, d), d');
  }

  /** A user page of d whose virtual page lies outside [lo, hi). */
  predicate UserOutside(own: map<nat, Owner>, p: nat, d: nat, lo: nat, hi: nat) {
    p in own && own[p].root == d && own[p].slot.User? && !(lo <= Vpn(own[p].slot.k, own[p].slot.j) < hi)
  }

  /** The user pages of d outside [lo, hi) keep their place and their contents. */
  ghost predicate UserKept(ram: seq<Frame>, own: map<nat, Owner>, ram': seq<Frame>, own': map<nat, Owner>, d: nat,
                           lo: nat, hi: nat) {
    && |ram'| == |ram|
    && forall p: nat :: UserOutside(own, p, d, lo, hi) ==>
        p in own' && own'[p] == own[p] && (p < |ram| ==> ram'[p] == ram[p])
  }

  /** The page number of entry j of table k. */
  function Vpn(k: nat, j: nat): (v: nat) { k * ENTRIES + j }
}
