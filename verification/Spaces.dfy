/** What growing and shrinking do to an address space, in numbers: which user pages are mapped, which tables
    exist, and how many pages are free. */
module Spaces {
  import opened Common
  import opened PageTables
  import opened VmEffects

  /** The user pages that are mapped. */
  ghost function UserPages(ram: seq<Frame>, d: nat): (r: set<nat>) {
    set v: nat | v < UPAGES && Walk(ram, d, v / ENTRIES, v % ENTRIES) != ZERO
  }

  /** An address space: its mapped user pages, the directory entries that have a table, and the free pages beside it. */
  datatype Part = Part(pages: set<nat>, dirs: set<nat>, free: int)

  ghost function PartOf(ram: seq<Frame>, d: nat, f: nat): (x: Part) { Part(UserPages(ram, d), Tables(ram, d), f) }

  /** The same pages, placed differently. */
  function Moved(x: Part, pages: set<nat>, dirs: set<nat>): (y: Part) {
    Part(pages, dirs, x.free + |x.pages| + |x.dirs| - |pages| - |dirs|)
  }

  /** Pages that mapping [lo, hi) takes: one each, and one for each missing table. */
  ghost function Needed(dirs: set<nat>, lo: nat, hi: nat): (n: nat)
    requires lo <= hi
  {
    hi - lo + |DirsOf(lo, hi) - dirs|
  }

  /** How far mapping from lo gets with f pages. */
  ghost function Reach(dirs: set<nat>, lo: nat, a: nat, f: int): (r: nat)
    requires lo <= a
    ensures a <= r
    decreases lo + f - a
  {
    if Needed(dirs, lo, a + 1) > f then a else Reach(dirs, lo, a + 1, f)
  }

  /** The first mapped page of [lo, hi) is within reach of the free pages. */
  ghost predicate Blocked(x: Part, lo: nat, hi: nat) {
    exists v: nat :: v in x.pages && FirstAt(x.pages, lo, hi, v) && Needed(x.dirs, lo, v) < x.free
  }

  ghost predicate FirstAt(pages: set<nat>, lo: nat, hi: nat, v: nat) {
    lo <= v < hi && forall u: nat :: u in pages ==> !(lo <= u < v)
  }

  /** allocuvm and deallocuvm; None is the remap panic. */
  ghost function Resized(x: Part, op: Resize): (r: Option<Part>) {
    var lo, hi := if op.Grow? then PageUp(op.oldsz) else PageUp(op.newsz),
                  if op.Grow? then PageUp(op.newsz) else PageUp(op.oldsz);
    if op.Shrink? then Some(if op.newsz < op.oldsz then Moved(x, x.pages - Range(lo, hi), x.dirs) else x)
    else if op.newsz >= KERNBASE || op.newsz < op.oldsz then Some(x)
    else if Blocked(x, lo, hi) then None
    else if lo <= hi && Needed(x.dirs, lo, hi) <= x.free then
      Some(Moved(x, x.pages + Range(lo, hi), x.dirs + DirsOf(lo, hi)))
    else
      Some(Moved(x, x.pages - Range(lo, hi), x.dirs + DirsOf(lo, Reach(x.dirs, lo, lo, x.free))))
  }

  /** The first i operations in turn, up to a panic. */
  ghost function AfterOps(x: Part, ops: seq<Resize>, i: nat): (r: Option<Part>)
    requires i <= |ops|
  {
    if i == 0 then Some(x)
    else
      var y := AfterOps(x, ops, i - 1);
      if y.None? then None else Resized(y.value, ops[i - 1])
  }

  /** Operations in turn: a panic ends it. */
  lemma {:induction false} PanicStays(x: Part, ops: seq<Resize>, i: nat, j: nat)
    requires i <= j <= |ops| && AfterOps(x, ops, i).None?
    ensures AfterOps(x, ops, j).None?
    decreases j - i
  {
    hide Resized;
    if i < j { PanicStays(x, ops, i, j - 1); }
  }

  // ---- the page tables do what the numbers say ----

  lemma {:induction false} ReachIs(dirs: set<nat>, lo: nat, b: nat, a: nat, f: int)
    requires lo <= b <= a && Needed(dirs, lo, a) <= f < Needed(dirs, lo, a + 1)
    ensures Reach(dirs, lo, b, f) == a
    decreases a - b
  {
    hide Needed;
    if b < a {
      NeededGrows(dirs, lo, b + 1, a);
      ReachIs(dirs, lo, b + 1, a, f);
    }
  }

  lemma NeededGrows(dirs: set<nat>, lo: nat, a: nat, b: nat)
    requires lo <= a <= b
    ensures Needed(dirs, lo, a) <= Needed(dirs, lo, b)
  {
    var x, y := DirsOf(lo, a) - dirs, DirsOf(lo, b) - dirs;
    assert y == x + (y - x);
  }

  lemma BlockedIs(ram: seq<Frame>, d: nat, lo: nat, hi: nat, f: nat)
    requires hi <= UPAGES
    ensures MeetsMapped(ram, d, lo, hi, f) <==> Blocked(PartOf(ram, d, f), lo, hi)
  {
    hide Walk, Tables, DirsOf;
    var x := PartOf(ram, d, f);
    forall v: nat | lo <= v < hi
      ensures MappedFirst(ram, d, lo, v) <==> v in x.pages && FirstAt(x.pages, lo, hi, v)
    {
      FirstIs(ram, d, lo, hi, v);
    }
  }

  lemma FirstIs(ram: seq<Frame>, d: nat, lo: nat, hi: nat, v: nat)
    requires lo <= v < hi <= UPAGES
    ensures MappedFirst(ram, d, lo, v) <==> v in UserPages(ram, d) && FirstAt(UserPages(ram, d), lo, hi, v)
  {
    hide Walk;
    var pages := UserPages(ram, d);
    if Unmapped(ram, d, lo, v) {
      forall u: nat | u in pages
        ensures !(lo <= u < v)
      {
        assert Vpn(u / ENTRIES, u % ENTRIES) == u;
      }
    }
    if FirstAt(pages, lo, hi, v) {
      forall k: nat, j: nat | j < ENTRIES && lo <= Vpn(k, j) < v
        ensures Walk(ram, d, k, j) == ZERO
      {
        assert Vpn(k, j) / ENTRIES == k && Vpn(k, j) % ENTRIES == j;
        assert Vpn(k, j) !in pages;
      }
    }
  }

  /** Walks of user addresses tell the user pages. */
  lemma PagesAre(ram: seq<Frame>, ram': seq<Frame>, d: nat, lo: nat, hi: nat, on: bool)
    requires hi <= UPAGES
    requires forall k: nat, j: nat :: if j < ENTRIES && lo <= Vpn(k, j) < hi then (Walk(ram', d, k, j) != ZERO) == on
      else Walk(ram', d, k, j) == Walk(ram, d, k, j)
    ensures UserPages(ram', d) ==
      if on then UserPages(ram, d) + Range(lo, hi) else UserPages(ram, d) - Range(lo, hi)
  {
    hide Walk;
    forall v: nat
      ensures Vpn(v / ENTRIES, v % ENTRIES) == v
    {}
  }

  lemma PopulatedPages(ram: seq<Frame>, own: map<nat, Owner>, ram': seq<Frame>, own': map<nat, Owner>, d: nat, lo: nat,
                       hi: nat)
    requires hi <= UPAGES && Populated(ram, own, ram', own', d, lo, hi)
    ensures UserPages(ram', d) == UserPages(ram, d) + Range(lo, hi)
  {
    hide Walk, Vpn;
    forall k: nat, j: nat
      ensures if j < ENTRIES && lo <= Vpn(k, j) < hi then Walk(ram', d, k, j) != ZERO
        else Walk(ram', d, k, j) == Walk(ram, d, k, j)
    {
      if j < ENTRIES && lo <= Vpn(k, j) < hi { assert BlankPage(ram', own', d, k, j); }
    }
    PagesAre(ram, ram', d, lo, hi, true);
  }

  lemma RolledBackPages(ram: seq<Frame>, own: map<nat, Owner>, ram': seq<Frame>, own': map<nat, Owner>, d: nat,
                        lo: nat, hi: nat)
    requires hi <= UPAGES && RolledBack(ram, own, ram', own', d, lo, hi)
    ensures UserPages(ram', d) == UserPages(ram, d) - Range(lo, hi)
  {
    hide Walk, Vpn;
    PagesAre(ram, ram', d, lo, hi, false);
  }

  lemma ShrunkPages(ram: seq<Frame>, own: map<nat, Owner>, ram': seq<Frame>, own': map<nat, Owner>, d: nat,
                    lo: nat, hi: nat)
    requires hi <= UPAGES && Shrunk(ram, own, ram', own', d, lo, hi)
    ensures UserPages(ram', d) == UserPages(ram, d) - Range(lo, hi) && Tables(ram', d) == Tables(ram, d)
  {
    hide Walk, Vpn, At;
    PagesAre(ram, ram', d, lo, hi, false);
  }

  /** One page more. */
  lemma PutPages(ram: seq<Frame>, own: map<nat, Owner>, ram': seq<Frame>, own': map<nat, Owner>, d: nat, v: nat, e: Pte,
                 f: Frame)
    requires v < UPAGES && PagePut(ram, own, ram', own', d, v, e, f) && e != ZERO
    ensures |UserPages(ram', d)| == |UserPages(ram, d)| + 1
  {
    hide Walk;
    forall k: nat, j: nat
      ensures if j < ENTRIES && v <= Vpn(k, j) < v + 1 then Walk(ram', d, k, j) != ZERO
        else Walk(ram', d, k, j) == Walk(ram, d, k, j)
    {
      VpnSplits(k, j, v);
    }
    PagesAre(ram, ram', d, v, v + 1, true);
    assert v !in UserPages(ram, d);
    assert UserPages(ram', d) == UserPages(ram, d) + {v};
  }

  /** One page less. */
  lemma ClearPages(ram: seq<Frame>, own: map<nat, Owner>, ram': seq<Frame>, own': map<nat, Owner>, d: nat, v: nat)
    requires v < UPAGES && Shrunk(ram, own, ram', own', d, v, v + 1) && Walk(ram, d, v / ENTRIES, v % ENTRIES) != ZERO
    ensures |UserPages(ram', d)| + 1 == |UserPages(ram, d)|
  {
    hide Walk;
    ShrunkPages(ram, own, ram', own', d, v, v + 1);
    assert v in UserPages(ram, d);
    assert UserPages(ram', d) == UserPages(ram, d) - {v};
  }

  lemma SameWalks(ram: seq<Frame>, ram': seq<Frame>, own: map<nat, Owner>, d: nat)
    requires SpaceOk(ram, own) && IsRoot(own, d) && |ram'| == |ram|
    requires forall p :: p in own && p < |ram| ==> ram'[p] == ram[p]
    ensures UserPages(ram', d) == UserPages(ram, d) && Tables(ram', d) == Tables(ram, d)
  {
    hide Walk, PageOk;
    FramesKept(ram, ram', own);
    forall k: nat
      ensures At(ram', d, k) == At(ram, d, k)
    {
      AtFrame(ram, ram', d, k);
    }
  }

  lemma PresentWalks(ram: seq<Frame>, d: nat, v: nat)
    requires Present(At(ram, d, v / ENTRIES)) && Present(At(ram, At(ram, d, v / ENTRIES).ppn, v % ENTRIES))
    ensures Walk(ram, d, v / ENTRIES, v % ENTRIES) != ZERO
  {}

  /** The pages of an address space and the free ones beside it. */
  ghost function Count(f: nat, ram: seq<Frame>, d: nat): (n: nat) { f + |UserPages(ram, d)| + |Tables(ram, d)| }

  /** Where allocuvm runs out of pages. */
  lemma StopsAt(ram0: seq<Frame>, ram: seq<Frame>, d: nat, lo: nat, a: nat, f0: nat, f: nat)
    requires Counted(ram0, ram, d, lo, a, f0, f) && (f == 0 || (f == 1 && a / ENTRIES !in Tables(ram, d)))
    ensures lo <= a && Reach(Tables(ram0, d), lo, lo, f0) == a && Tables(ram, d) == Tables(ram0, d) + DirsOf(lo, a)
  {
    hide Tables, DirsOf;
    NeedStep(ram0, d, lo, a);
    ReachIs(Tables(ram0, d), lo, lo, a, f0);
  }

  lemma TablesAfter(ram0: seq<Frame>, ram: seq<Frame>, d: nat, lo: nat, a: nat, f0: nat, f: nat)
    requires Counted(ram0, ram, d, lo, a, f0, f)
    ensures Tables(ram, d) == Tables(ram0, d) + DirsOf(lo, a)
  {}

  // ---- whole lifetimes ----

  /** An address space that setupkvm has just made out of f free pages. */
  ghost function NewPart(kmap: seq<KMap>, f: nat): (x: Part) {
    Part({}, KDirs(kmap, |kmap|), f - 1 - |KDirs(kmap, |kmap|)|)
  }

  lemma KernelPart(ram: seq<Frame>, d: nat, kmap: seq<KMap>, f0: nat, f: nat)
    requires KernelSpace(ram, d, kmap, |kmap|) && Unmapped(ram, d, 0, UPAGES) && f0 == f + 1 + |KDirs(kmap, |kmap|)|
    ensures NewPart(kmap, f0) == PartOf(ram, d, f)
  {
    hide Walk;
    forall v: nat | v < UPAGES
      ensures Walk(ram, d, v / ENTRIES, v % ENTRIES) == ZERO
    {
      assert Vpn(v / ENTRIES, v % ENTRIES) == v;
    }
    assert UserPages(ram, d) == {};
  }

  lemma NoOps(x: Part, ops: seq<Resize>)
    ensures AfterOps(x, ops, 0) == Some(x)
  {}

  lemma OpsStep(x: Part, ops: seq<Resize>, i: nat)
    requires i < |ops| && AfterOps(x, ops, i).Some?
    ensures AfterOps(x, ops, i + 1) == Resized(AfterOps(x, ops, i).value, ops[i])
  {}

  /** allocuvm does to the address space what Resized says. */
  lemma GrowPart(ram: seq<Frame>, own: map<nat, Owner>, f: nat, ram': seq<Frame>, own': map<nat, Owner>, f': nat,
                 d: nat,
                 oldsz: nat, newsz: nat, res: Growth)
    requires var lo, hi := PageUp(oldsz), PageUp(newsz);
      && (res.TooLarge? <==> newsz >= KERNBASE)
      && (res.TooLarge? || newsz < oldsz ==> ram' == ram && f' == f && !res.OutOfMemory?)
      && (oldsz <= newsz < KERNBASE ==> lo <= hi)
      && (res.RemapPanic? <==> oldsz <= newsz < KERNBASE && MeetsMapped(ram, d, lo, hi, f))
      && (oldsz <= newsz < KERNBASE && !res.RemapPanic? ==> (res.OutOfMemory? <==> f < PagesNeeded(ram, d, lo, hi)))
      && (res.Sized? && oldsz <= newsz ==> Populated(ram, own, ram', own', d, lo, hi))
      && (res.Sized? && oldsz <= newsz ==> Tables(ram', d) == Tables(ram, d) + DirsOf(lo, hi))
      && (res.OutOfMemory? ==> RolledBack(ram, own, ram', own', d, lo, hi))
      && (res.OutOfMemory? ==>
            Tables(ram', d) == Tables(ram, d) + DirsOf(lo, Reach(Tables(ram, d), lo, lo, f)))
      && (!res.RemapPanic? ==> Count(f', ram', d) == Count(f, ram, d))
    ensures Resized(PartOf(ram, d, f), Grow(oldsz, newsz)) ==
      if res.RemapPanic? then None else Some(PartOf(ram', d, f'))
  {
    hide UserPages, Tables, DirsOf, Reach, PageUp, Populated, RolledBack, Blocked, MeetsMapped;
    if oldsz <= newsz < KERNBASE {
      var lo, hi := PageUp(oldsz), PageUp(newsz);
      PageUpMono(oldsz, newsz);
      BlockedIs(ram, d, lo, hi, f);
      if res.Sized? { PopulatedPages(ram, own, ram', own', d, lo, hi); }
      if res.OutOfMemory? { RolledBackPages(ram, own, ram', own', d, lo, hi); }
    }
  }

  lemma ShrinkPart(ram: seq<Frame>, own: map<nat, Owner>, f: nat, ram': seq<Frame>, own': map<nat, Owner>, f': nat,
                   d: nat, oldsz: nat, newsz: nat)
    requires oldsz <= KERNBASE && f' + |UserPages(ram', d)| == f + |UserPages(ram, d)|
    requires if newsz < oldsz then Shrunk(ram, own, ram', own', d, PageUp(newsz), PageUp(oldsz))
      else ram' == ram && f' == f
    ensures Resized(PartOf(ram, d, f), Shrink(oldsz, newsz)) == Some(PartOf(ram', d, f'))
  {
    hide UserPages, Tables, PageUp, Shrunk;
    if newsz < oldsz {
      SizeFits(oldsz);
      ShrunkPages(ram, own, ram', own', d, PageUp(newsz), PageUp(oldsz));
    }
  }
}
