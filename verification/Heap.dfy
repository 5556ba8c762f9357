/** umalloc.c: the allocator of section 8.7 of The C Programming Language. Addresses and sizes are in
    units of one header (8 bytes); address 0 is the null pointer. */
module Heap {
  import opened Common

  const BASE: nat := 1       // address of the static header base, below the heap
  const NALLOC: nat := 4096  // smallest request to sbrk, in units
  const HEADER: nat := 8     // sizeof(Header)

  /** A block: the address of its header and its size, header included. */
  datatype Blk = Blk(a: nat, n: nat)

  predicate Apart(x: Blk, y: Blk) { x.a + x.n <= y.a || y.a + y.n <= x.a }

  /** The free list in address order, base first: disjoint blocks, no two adjacent, all below top. */
  ghost predicate Coalesced(fl: seq<Blk>, top: nat) {
    && |fl| >= 1 && fl[0] == Blk(BASE, 0) && BASE < top
    && (forall i :: 0 < i < |fl| ==> fl[i].n > 0 && fl[i].a + fl[i].n <= top)
    && forall i, j :: 0 <= i < j < |fl| ==> fl[i].a + fl[i].n < fl[j].a
  }

  function Next(fl: seq<Blk>, i: nat): (j: nat) requires i < |fl| { if i + 1 < |fl| then i + 1 else 0 }

  /** The headers form one cycle through fl. */
  ghost predicate Linked(fl: seq<Blk>, ptr: map<nat, nat>, size: map<nat, nat>) {
    forall i :: 0 <= i < |fl| ==> LinkAt(fl, ptr, size, i)
  }

  ghost predicate LinkAt(fl: seq<Blk>, ptr: map<nat, nat>, size: map<nat, nat>, i: nat)
    requires i < |fl|
  {
    fl[i].a in ptr && fl[i].a in size && size[fl[i].a] == fl[i].n && ptr[fl[i].a] == fl[Next(fl, i)].a
  }

  /** Live blocks lie in memory from sbrk, apart from each other and from the free blocks. */
  ghost predicate LiveOk(live: map<nat, nat>, fl: seq<Blk>, size: map<nat, nat>, top: nat) {
    && (forall h :: h in live ==> h in size && size[h] == live[h] && live[h] > 0 && BASE < h && h + live[h] <= top)
    && (forall h, i :: h in live && 0 < i < |fl| ==> Apart(Blk(h, live[h]), fl[i]))
    && forall h, g :: h in live && g in live && h != g ==> Apart(Blk(h, live[h]), Blk(g, live[g]))
  }

  function FreeUnits(fl: seq<Blk>): (n: nat) { if fl == [] then 0 else FreeUnits(fl[..|fl| - 1]) + fl[|fl| - 1].n }

  ghost function LiveUnits(live: map<nat, nat>): (n: nat)
    decreases |live|
  {
    if live == map[] then 0
    else
      var h :| h in live;
      assert (live - {h}).Keys == live.Keys - {h};
      live[h] + LiveUnits(live - {h})
  }

  lemma {:induction false} LiveRemove(live: map<nat, nat>, h: nat)
    requires h in live
    ensures LiveUnits(live) == live[h] + LiveUnits(live - {h})
    decreases |live|
  {
    var g :| g in live && LiveUnits(live) == live[g] + LiveUnits(live - {g});
    if g != h {
      assert (live - {g}).Keys == live.Keys - {g} && (live - {h}).Keys == live.Keys - {h};
      LiveRemove(live - {g}, h);
      LiveRemove(live - {h}, g);
      assert live - {g} - {h} == live - {h} - {g};
    }
  }

  lemma LiveAdd(live: map<nat, nat>, h: nat, n: nat)
    requires h !in live
    ensures LiveUnits(live[h := n]) == n + LiveUnits(live)
  {
    LiveRemove(live[h := n], h);
    assert live[h := n] - {h} == live;
  }

  lemma {:induction false} FreeUnitsSplit(s: seq<Blk>, t: seq<Blk>)
    ensures FreeUnits(s + t) == FreeUnits(s) + FreeUnits(t)
  {
    if t == [] {
      assert s + t == s;
    } else {
      FreeUnitsSplit(s, t[..|t| - 1]);
      assert (s + t)[..|s + t| - 1] == s + t[..|t| - 1];
    }
  }

  // ---- insertion ----

  predicate JoinsUp(fl: seq<Blk>, k: nat, b: Blk) { k + 1 < |fl| && b.a + b.n == fl[k + 1].a }

  /** b, joined to the block above it if they touch. */
  function Mid(fl: seq<Blk>, k: nat, b: Blk): (m: Blk) {
    if JoinsUp(fl, k, b) then Blk(b.a, b.n + fl[k + 1].n) else b
  }

  function Rest(fl: seq<Blk>, k: nat, b: Blk): (r: seq<Blk>)
    requires k < |fl|
  {
    if JoinsUp(fl, k, b) then fl[k + 2..] else fl[k + 1..]
  }

  /** The list after giving back block b, k being the last block below it. */
  function Inserted(fl: seq<Blk>, k: nat, b: Blk): (r: seq<Blk>)
    requires k < |fl|
  {
    if fl[k].a + fl[k].n == b.a then fl[..k] + [Blk(fl[k].a, fl[k].n + Mid(fl, k, b).n)] + Rest(fl, k, b)
    else fl[..k + 1] + [Mid(fl, k, b)] + Rest(fl, k, b)
  }

  ghost predicate PlaceFor(fl: seq<Blk>, k: nat, b: Blk) {
    && k < |fl| && fl[k].a < b.a && b.n > 0
    && (k + 1 < |fl| ==> b.a < fl[k + 1].a)
    && forall i :: 0 < i < |fl| ==> Apart(b, fl[i])
  }

  /** Joined to the block above, b still lies strictly between its neighbours, or touches the one below. */
  lemma MidFits(fl: seq<Blk>, k: nat, b: Blk, top: nat)
    requires Coalesced(fl, top) && PlaceFor(fl, k, b) && b.a + b.n <= top
    ensures var m, r := Mid(fl, k, b), Rest(fl, k, b);
            && m.a == b.a && m.n > 0 && fl[k].a + fl[k].n <= m.a && m.a + m.n <= top
            && (forall i :: 0 <= i < |r| ==> m.a + m.n < r[i].a && r[i].n > 0 && r[i].a + r[i].n <= top)
            && forall i, j :: 0 <= i < j < |r| ==> r[i].a + r[i].n < r[j].a
  {
    var r := Rest(fl, k, b);
    var u := if JoinsUp(fl, k, b) then 2 else 1;
    assert forall i :: 0 <= i < |r| ==> r[i] == fl[k + u + i];
    assert k > 0 ==> Apart(b, fl[k]);
    if k + 1 < |fl| { assert Apart(b, fl[k + 1]); }
  }

  /** Putting a strictly sorted prefix, a block and a strictly sorted suffix together. */
  lemma Spliced(pre: seq<Blk>, x: Blk, post: seq<Blk>, top: nat)
    requires |pre| >= 1 ==> Coalesced(pre, top)
    requires |pre| == 0 ==> x == Blk(BASE, 0) && BASE < top
    requires |pre| >= 1 ==> x.n > 0 && x.a + x.n <= top && pre[|pre| - 1].a + pre[|pre| - 1].n < x.a
    requires forall i :: 0 <= i < |post| ==> x.a + x.n < post[i].a && post[i].n > 0 && post[i].a + post[i].n <= top
    requires forall i, j :: 0 <= i < j < |post| ==> post[i].a + post[i].n < post[j].a
    ensures Coalesced(pre + [x] + post, top)
  {
    var r := pre + [x] + post;
    assert forall i :: 0 <= i < |pre| ==> r[i] == pre[i];
    assert r[|pre|] == x;
    assert forall i :: |pre| < i < |r| ==> r[i] == post[i - |pre| - 1];
    forall i, j | 0 <= i < j < |r| ensures r[i].a + r[i].n < r[j].a {
      if i < |pre| && j >= |pre| {
        assert pre[i].a + pre[i].n <= pre[|pre| - 1].a + pre[|pre| - 1].n;
      }
    }
  }

  lemma PrefixCoalesced(fl: seq<Blk>, k: nat, top: nat)
    requires Coalesced(fl, top) && 0 < k <= |fl|
    ensures Coalesced(fl[..k], top)
  {}

  lemma InsertedCoalesced(fl: seq<Blk>, k: nat, b: Blk, top: nat)
    requires Coalesced(fl, top) && PlaceFor(fl, k, b) && b.a + b.n <= top
    ensures Coalesced(Inserted(fl, k, b), top)
    ensures k < |Inserted(fl, k, b)| && Inserted(fl, k, b)[k].a == fl[k].a
  {
    hide Mid, Rest, JoinsUp, Coalesced, PlaceFor;
    MidFits(fl, k, b, top);
    InPlace(fl, k, b);
    Below(fl, k, top);
    var m, rest := Mid(fl, k, b), Rest(fl, k, b);
    if fl[k].a + fl[k].n == b.a {
      Spliced(fl[..k], Blk(fl[k].a, fl[k].n + m.n), rest, top);
    } else {
      Spliced(fl[..k + 1], m, rest, top);
    }
  }

  lemma Below(fl: seq<Blk>, k: nat, top: nat)
    requires Coalesced(fl, top) && k < |fl|
    ensures k > 0 ==> Coalesced(fl[..k], top) && fl[k - 1].a + fl[k - 1].n < fl[k].a
    ensures Coalesced(fl[..k + 1], top) && BASE < top && (k == 0 ==> fl[0] == Blk(BASE, 0))
  {
    if k > 0 { PrefixCoalesced(fl, k, top); }
    PrefixCoalesced(fl, k + 1, top);
  }

  lemma RestUnits(fl: seq<Blk>, k: nat, b: Blk)
    requires k < |fl|
    ensures FreeUnits(fl[k + 1..]) + b.n == Mid(fl, k, b).n + FreeUnits(Rest(fl, k, b))
  {
    if JoinsUp(fl, k, b) {
      HeadUnits(fl[k + 1..]);
      assert fl[k + 1..][1..] == fl[k + 2..];
    }
  }

  lemma InsertedUnits(fl: seq<Blk>, k: nat, b: Blk)
    requires k < |fl|
    ensures FreeUnits(Inserted(fl, k, b)) == FreeUnits(fl) + b.n
  {
    hide Mid, Rest, JoinsUp, FreeUnits;
    var m, pre, post, rest := Mid(fl, k, b), fl[..k], fl[k + 1..], Rest(fl, k, b);
    RestUnits(fl, k, b);
    ThreeParts(pre, fl[k], post);
    assert fl == pre + [fl[k]] + post;
    if fl[k].a + fl[k].n == b.a {
      ThreeParts(pre, Blk(fl[k].a, fl[k].n + m.n), rest);
    } else {
      assert fl[..k + 1] == pre + [fl[k]];
      TwoParts(pre, fl[k]);
      ThreeParts(fl[..k + 1], m, rest);
    }
  }

  lemma TwoParts(s: seq<Blk>, x: Blk)
    ensures FreeUnits(s + [x]) == FreeUnits(s) + x.n
  {
    assert (s + [x])[..|s|] == s;
  }

  lemma HeadUnits(s: seq<Blk>)
    requires |s| > 0
    ensures FreeUnits(s) == s[0].n + FreeUnits(s[1..])
  {
    assert s == [s[0]] + s[1..];
    FreeUnitsSplit([s[0]], s[1..]);
    assert FreeUnits([s[0]]) == s[0].n;
  }

  lemma ThreeParts(s: seq<Blk>, x: Blk, t: seq<Blk>)
    ensures FreeUnits(s + [x] + t) == FreeUnits(s) + x.n + FreeUnits(t)
  {
    FreeUnitsSplit(s + [x], t);
    FreeUnitsSplit(s, [x]);
    assert FreeUnits([x]) == x.n;
  }

  /** A block apart from all free blocks and from b is apart from all blocks of the new list. */
  lemma InsertedApart(fl: seq<Blk>, k: nat, b: Blk, top: nat, x: Blk)
    requires Coalesced(fl, top) && PlaceFor(fl, k, b) && b.a + b.n <= top
    requires x.n > 0 && Apart(x, b) && forall i :: 0 < i < |fl| ==> Apart(x, fl[i])
    requires BASE < x.a
    ensures forall i :: 0 < i < |Inserted(fl, k, b)| ==> Apart(x, Inserted(fl, k, b)[i])
  {
    MidFits(fl, k, b, top);
    MidApart(fl, k, b, x);
    var m, rest, r := Mid(fl, k, b), Rest(fl, k, b), Inserted(fl, k, b);
    hide Mid, Rest, JoinsUp;
    forall i | 0 < i < |r| ensures Apart(x, r[i]) {
      if fl[k].a + fl[k].n == b.a {
        assert i < k ==> r[i] == fl[i];
        assert i > k ==> r[i] == rest[i - k - 1];
      } else {
        assert i <= k ==> r[i] == fl[i];
        assert i > k + 1 ==> r[i] == rest[i - k - 2];
      }
    }
  }

  lemma MidApart(fl: seq<Blk>, k: nat, b: Blk, x: Blk)
    requires k < |fl| && x.n > 0 && Apart(x, b) && b.n > 0 && forall i :: 0 < i < |fl| ==> Apart(x, fl[i])
    ensures Apart(x, Mid(fl, k, b))
    ensures forall i :: 0 <= i < |Rest(fl, k, b)| ==> Apart(x, Rest(fl, k, b)[i])
  {
    if JoinsUp(fl, k, b) { assert Apart(x, fl[k + 1]); }
  }

  // ---- the relinking in free (umalloc.c:33-42) ----

  /** Links and sizes after joining b upwards or linking it to the block above. */
  ghost predicate LinkedUp(fl: seq<Blk>, k: nat, b: Blk, ptr: map<nat, nat>, size: map<nat, nat>) {
    && k < |fl| && b.a in ptr && b.a in size && size[b.a] == Mid(fl, k, b).n
    && ptr[b.a] == (if Rest(fl, k, b) != [] then Rest(fl, k, b)[0].a else fl[0].a)
    && Linked(fl, ptr, size)
  }

  lemma JoinUp(fl: seq<Blk>, k: nat, b: Blk, top: nat, ptr: map<nat, nat>, size: map<nat, nat>)
    requires Coalesced(fl, top) && Linked(fl, ptr, size) && PlaceFor(fl, k, b) && b.a in size && size[b.a] == b.n
    requires LinkAt(fl, ptr, size, k)
    ensures var q := ptr[fl[k].a];
            && q in ptr && q in size && (b.a + b.n == q <==> JoinsUp(fl, k, b))
            && LinkedUp(fl, k, b, if b.a + b.n == q then ptr[b.a := ptr[q]] else ptr[b.a := q],
                                  if b.a + b.n == q then size[b.a := b.n + size[q]] else size)
  {
    NotListed(fl, k, b, top);
    InPlace(fl, k, b);
    BaseFirst(fl, top);
    hide PlaceFor, Coalesced;
    assert LinkAt(fl, ptr, size, Next(fl, k));
    var q := ptr[fl[k].a];
    var ptr' := if b.a + b.n == q then ptr[b.a := ptr[q]] else ptr[b.a := q];
    var size' := if b.a + b.n == q then size[b.a := b.n + size[q]] else size;
    forall i | 0 <= i < |fl| ensures LinkAt(fl, ptr', size', i) { assert LinkAt(fl, ptr, size, i); }
  }

  lemma BaseFirst(fl: seq<Blk>, top: nat)
    requires Coalesced(fl, top)
    ensures |fl| > 0 && fl[0] == Blk(BASE, 0) && forall i :: 0 <= i < |fl| ==> BASE <= fl[i].a
  {
    forall i | 0 <= i < |fl| ensures BASE <= fl[i].a { if i > 0 { assert fl[0].a + fl[0].n < fl[i].a; } }
  }

  lemma NotListed(fl: seq<Blk>, k: nat, b: Blk, top: nat)
    requires Coalesced(fl, top) && PlaceFor(fl, k, b)
    ensures forall i :: 0 <= i < |fl| ==> fl[i].a != b.a
  {
    forall i | 0 <= i < |fl| ensures fl[i].a != b.a {
      if i > 0 { assert Apart(b, fl[i]); }
    }
  }

  /** The downward merge, when the block before ends where b begins. */
  lemma MergeDown(fl: seq<Blk>, k: nat, b: Blk, top: nat, ptr: map<nat, nat>, size: map<nat, nat>, u: nat)
    requires Coalesced(fl, top) && PlaceFor(fl, k, b) && LinkedUp(fl, k, b, ptr, size) && fl[k].a + fl[k].n == b.a
    requires u == if JoinsUp(fl, k, b) then 1 else 0
    ensures b.a in ptr && b.a in size
    ensures Linked(Inserted(fl, k, b), ptr[fl[k].a := ptr[b.a]], size[fl[k].a := fl[k].n + size[b.a]])
  {
    hide Coalesced, LinkAt, Inserted;
    var r, ptr', size' := Inserted(fl, k, b), ptr[fl[k].a := ptr[b.a]], size[fl[k].a := fl[k].n + size[b.a]];
    forall i | 0 <= i < |r|
      ensures LinkAt(r, ptr', size', i)
    {
      DownLink(fl, k, b, top, ptr, size, u, i);
    }
  }

  lemma LinkBeside(fl: seq<Blk>, k: nat, b: Blk, top: nat, ptr: map<nat, nat>, size: map<nat, nat>, u: nat)
    requires Coalesced(fl, top) && PlaceFor(fl, k, b) && LinkedUp(fl, k, b, ptr, size) && fl[k].a + fl[k].n != b.a
    requires u == if JoinsUp(fl, k, b) then 1 else 0
    ensures Linked(Inserted(fl, k, b), ptr[fl[k].a := b.a], size)
  {
    hide Coalesced, LinkAt, Inserted;
    var r, ptr' := Inserted(fl, k, b), ptr[fl[k].a := b.a];
    forall i | 0 <= i < |r|
      ensures LinkAt(r, ptr', size, i)
    {
      SideLink(fl, k, b, top, ptr, size, u, i);
    }
  }

  /** Joining downwards, or linking the block below to b, completes the cycle through the new list. */
  lemma JoinDown(fl: seq<Blk>, k: nat, b: Blk, top: nat, ptr: map<nat, nat>, size: map<nat, nat>)
    requires Coalesced(fl, top) && PlaceFor(fl, k, b) && LinkedUp(fl, k, b, ptr, size)
    ensures fl[k].a in ptr && fl[k].a in size && size[fl[k].a] == fl[k].n && b.a in ptr && b.a in size
    ensures fl[k].a + fl[k].n == b.a ==>
      Linked(Inserted(fl, k, b), ptr[fl[k].a := ptr[b.a]], size[fl[k].a := fl[k].n + size[b.a]])
    ensures fl[k].a + fl[k].n != b.a ==> Linked(Inserted(fl, k, b), ptr[fl[k].a := b.a], size)
  {
    hide Inserted, Coalesced;
    assert LinkAt(fl, ptr, size, k);
    var u := if JoinsUp(fl, k, b) then 1 else 0;
    if fl[k].a + fl[k].n == b.a {
      MergeDown(fl, k, b, top, ptr, size, u);
    } else {
      LinkBeside(fl, k, b, top, ptr, size, u);
    }
  }

  /** Block i of the new list and the one after it; u is 1 if b joined the block above. */
  lemma InsertedAt(fl: seq<Blk>, k: nat, b: Blk, u: nat, i: nat)
    requires k < |fl| && u == (if JoinsUp(fl, k, b) then 1 else 0) && i < |Inserted(fl, k, b)|
    ensures var r := Inserted(fl, k, b);
            if fl[k].a + fl[k].n == b.a
            then
              && |r| == |fl| - u
              && r[i] == (if i < k then fl[i]
                          else if i == k then Blk(fl[k].a, fl[k].n + Mid(fl, k, b).n)
                          else fl[i + u])
            else
              && |r| == |fl| + 1 - u
              && r[i] == (if i <= k then fl[i] else if i == k + 1 then Mid(fl, k, b) else fl[i + u - 1])
  {}

  lemma RestAt(fl: seq<Blk>, k: nat, b: Blk, u: nat)
    requires k < |fl| && u == (if JoinsUp(fl, k, b) then 1 else 0)
    ensures Mid(fl, k, b).a == b.a && k + u < |fl|
    ensures if k + 1 + u < |fl| then Rest(fl, k, b) != [] && Rest(fl, k, b)[0] == fl[k + 1 + u]
        else Rest(fl, k, b) == []
  {}

  /** What LinkedUp says about b and about block o. */
  lemma LinkedUpAt(fl: seq<Blk>, k: nat, b: Blk, ptr: map<nat, nat>, size: map<nat, nat>, u: nat, o: nat)
    requires LinkedUp(fl, k, b, ptr, size) && u == (if JoinsUp(fl, k, b) then 1 else 0) && o < |fl|
    ensures k + u < |fl| && b.a in ptr && b.a in size && size[b.a] == Mid(fl, k, b).n && Mid(fl, k, b).a == b.a
    ensures ptr[b.a] == if k + 1 + u < |fl| then fl[k + 1 + u].a else fl[0].a
    ensures fl[o].a in ptr && fl[o].a in size && size[fl[o].a] == fl[o].n
    ensures ptr[fl[o].a] == if o + 1 < |fl| then fl[o + 1].a else fl[0].a
  {
    RestAt(fl, k, b, u);
    assert LinkAt(fl, ptr, size, o);
  }

  lemma DownLink(fl: seq<Blk>, k: nat, b: Blk, top: nat, ptr: map<nat, nat>, size: map<nat, nat>, u: nat, i: nat)
    requires Coalesced(fl, top) && PlaceFor(fl, k, b) && LinkedUp(fl, k, b, ptr, size) && fl[k].a + fl[k].n == b.a
    requires i < |Inserted(fl, k, b)| && u == (if JoinsUp(fl, k, b) then 1 else 0)
    ensures LinkAt(Inserted(fl, k, b), ptr[fl[k].a := ptr[b.a]], size[fl[k].a := fl[k].n + size[b.a]], i)
  {
    hide Inserted, Mid, Rest, PlaceFor, Coalesced, JoinsUp, LinkedUp;
    InPlace(fl, k, b);
    var r := Inserted(fl, k, b);
    InsertedAt(fl, k, b, u, i);
    InsertedAt(fl, k, b, u, 0);
    if i + 1 < |r| { InsertedAt(fl, k, b, u, i + 1); }
    if i == k {
      LinkedUpAt(fl, k, b, ptr, size, u, k);
    } else {
      var o := if i < k then i else i + u;
      LinkedUpAt(fl, k, b, ptr, size, u, o);
      OtherAddr(fl, top, o, k);
    }
  }

  lemma SideLink(fl: seq<Blk>, k: nat, b: Blk, top: nat, ptr: map<nat, nat>, size: map<nat, nat>, u: nat, i: nat)
    requires Coalesced(fl, top) && PlaceFor(fl, k, b) && LinkedUp(fl, k, b, ptr, size) && fl[k].a + fl[k].n != b.a
    requires i < |Inserted(fl, k, b)| && u == (if JoinsUp(fl, k, b) then 1 else 0)
    ensures LinkAt(Inserted(fl, k, b), ptr[fl[k].a := b.a], size, i)
  {
    hide Inserted, Mid, Rest, PlaceFor, Coalesced, JoinsUp, LinkedUp;
    InPlace(fl, k, b);
    var r := Inserted(fl, k, b);
    InsertedAt(fl, k, b, u, i);
    InsertedAt(fl, k, b, u, 0);
    if i + 1 < |r| { InsertedAt(fl, k, b, u, i + 1); }
    if i == k + 1 {
      LinkedUpAt(fl, k, b, ptr, size, u, k);
    } else {
      var o := if i <= k then i else i + u - 1;
      LinkedUpAt(fl, k, b, ptr, size, u, o);
      if i != k { OtherAddr(fl, top, o, k); }
    }
  }

  // ---- taking a block (umalloc.c:75-83) ----

  /** The list after allocating n units from block j: the whole block, or its tail. */
  function Taken(fl: seq<Blk>, j: nat, n: nat): (r: seq<Blk>)
    requires j < |fl| && n <= fl[j].n
  {
    if fl[j].n == n then fl[..j] + fl[j + 1..] else fl[j := Blk(fl[j].a, fl[j].n - n)]
  }

  function TakenBlk(fl: seq<Blk>, j: nat, n: nat): (b: Blk)
    requires j < |fl| && n <= fl[j].n
  {
    Blk(fl[j].a + fl[j].n - n, n)
  }

  lemma TakenCoalesced(fl: seq<Blk>, j: nat, n: nat, top: nat)
    requires Coalesced(fl, top) && 0 < j < |fl| && 0 < n <= fl[j].n
    ensures Coalesced(Taken(fl, j, n), top)
    ensures forall i :: 0 < i < |Taken(fl, j, n)| ==> Apart(TakenBlk(fl, j, n), Taken(fl, j, n)[i])
    ensures Taken(fl, j, n)[j - 1] == fl[j - 1] && j - 1 < |Taken(fl, j, n)|
  {
    var r := Taken(fl, j, n);
    if fl[j].n == n {
      assert forall i :: 0 <= i < |r| ==> r[i] == fl[if i < j then i else i + 1];
    } else {
      assert forall i :: 0 <= i < |r| && i != j ==> r[i] == fl[i];
    }
  }

  lemma TakenUnits(fl: seq<Blk>, j: nat, n: nat)
    requires j < |fl| && n <= fl[j].n
    ensures FreeUnits(Taken(fl, j, n)) == FreeUnits(fl) - n
  {
    hide FreeUnits;
    var pre, post := fl[..j], fl[j + 1..];
    ThreeParts(pre, fl[j], post);
    assert fl == pre + [fl[j]] + post;
    if fl[j].n == n {
      FreeUnitsSplit(pre, post);
    } else {
      var x := Blk(fl[j].a, fl[j].n - n);
      ThreeParts(pre, x, post);
      assert fl[j := x] == pre + [x] + post;
    }
  }

  /** A block apart from the old free blocks is apart from what is left of them. */
  lemma TakenApart(fl: seq<Blk>, j: nat, n: nat, x: Blk)
    requires 0 < j < |fl| && 0 < n <= fl[j].n && x.n > 0 && forall i :: 0 < i < |fl| ==> Apart(x, fl[i])
    ensures Apart(x, TakenBlk(fl, j, n))
    ensures forall i :: 0 < i < |Taken(fl, j, n)| ==> Apart(x, Taken(fl, j, n)[i])
  {
    var r := Taken(fl, j, n);
    if fl[j].n == n {
      assert forall i :: 0 <= i < |r| ==> r[i] == fl[if i < j then i else i + 1];
    }
  }

  lemma TakenLinked(fl: seq<Blk>, j: nat, n: nat, top: nat, ptr: map<nat, nat>, size: map<nat, nat>, ptr': map<nat,
                    nat>, size': map<nat, nat>)
    requires Coalesced(fl, top) && Linked(fl, ptr, size) && 0 < j < |fl| && 0 < n <= fl[j].n
    requires LinkAt(fl, ptr, size, j) && LinkAt(fl, ptr, size, j - 1)
    requires fl[j].n == n ==> ptr' == ptr[fl[j - 1].a := ptr[fl[j].a]] && size' == size
    requires fl[j].n != n ==> ptr' == ptr && size' == size[fl[j].a := fl[j].n - n][fl[j].a + fl[j].n - n := n]
    ensures Linked(Taken(fl, j, n), ptr', size')
  {
    var r := Taken(fl, j, n);
    forall i | 0 <= i < |r| ensures LinkAt(r, ptr', size', i) {
      if fl[j].n == n { WholeLink(fl, j, top, ptr, size, i); } else { TailLink(fl, j, n, top, ptr, size, i); }
    }
  }

  lemma WholeLink(fl: seq<Blk>, j: nat, top: nat, ptr: map<nat, nat>, size: map<nat, nat>, i: nat)
    requires Coalesced(fl, top) && Linked(fl, ptr, size) && 0 < j < |fl| && i < |fl| - 1
    requires LinkAt(fl, ptr, size, j) && LinkAt(fl, ptr, size, j - 1)
    ensures LinkAt(fl[..j] + fl[j + 1..], ptr[fl[j - 1].a := ptr[fl[j].a]], size, i)
  {
    hide Coalesced;
    var r := fl[..j] + fl[j + 1..];
    var o := if i < j then i else i + 1;
    assert r[i] == fl[o] && r[0] == fl[0];
    if i + 1 < |r| { assert r[i + 1] == fl[if i + 1 < j then i + 1 else i + 2]; }
    assert LinkAt(fl, ptr, size, o);
    if o != j - 1 { OtherAddr(fl, top, o, j - 1); }
  }

  lemma TailLink(fl: seq<Blk>, j: nat, n: nat, top: nat, ptr: map<nat, nat>, size: map<nat, nat>, i: nat)
    requires Coalesced(fl, top) && Linked(fl, ptr, size) && 0 < j < |fl| && 0 < n < fl[j].n && i < |fl|
    ensures LinkAt(fl[j := Blk(fl[j].a, fl[j].n - n)], ptr, size[fl[j].a := fl[j].n - n][fl[j].a + fl[j].n - n := n], i)
  {
    var r := fl[j := Blk(fl[j].a, fl[j].n - n)];
    assert LinkAt(fl, ptr, size, i);
    assert r[i].a == fl[i].a && r[Next(r, i)].a == fl[Next(fl, i)].a;
    if i != j {
      OtherAddr(fl, top, i, j);
      if i < j { assert fl[i].a + fl[i].n < fl[j].a; } else { assert fl[j].a + fl[j].n < fl[i].a; }
    }
  }

  class Allocator {
    var ptr: map<nat, nat>   // p->s.ptr of each header
    var size: map<nat, nat>  // p->s.size
    var freep: nat           // 0 before the first malloc
    ghost var free: seq<Blk>
    ghost var live: map<nat, nat>
    ghost var obtained: nat  // units from sbrk so far
    ghost var top: nat       // end of the memory obtained

    ghost predicate ListOk()
      reads this
    {
      && Coalesced(free, top) && Linked(free, ptr, size)
      && exists f :: 0 <= f < |free| && free[f].a == freep
    }

    ghost predicate Valid()
      reads this
    {
      && BASE < top
      && (freep == 0 ==> live == map[] && obtained == 0)
      && (freep != 0 ==> ListOk() && LiveOk(live, free, size, top) && FreeUnits(free) + LiveUnits(live) == obtained)
    }

    /** Before any call: base not yet linked; the heap will start at or above start. */
    constructor (start: nat)
      requires BASE < start
      ensures Valid() && live == map[] && obtained == 0 && freep == 0 && top == start
    {
      ptr, size, freep, free, live, obtained, top := map[], map[], 0, [], map[], 0, start;
    }

    /** The search in free: p is the last free block below bp, reached within one lap of the cycle. */
    method FindPlace(bp: nat) returns (p: nat, ghost k: nat)
      requires freep != 0 && ListOk() && bp in size && BASE < bp && bp + size[bp] <= top && size[bp] > 0
      requires forall i :: 0 < i < |free| ==> Apart(Blk(bp, size[bp]), free[i])
      ensures PlaceFor(free, k, Blk(bp, size[bp])) && p == free[k].a && p != 0 && LinkAt(free, ptr, size, k)
    {
      ghost var b := Blk(bp, size[bp]);
      k := LastBelow(free, b, top);
      ghost var i :| 0 <= i < |free| && free[i].a == freep;
      p := freep;
      assert LinkAt(free, ptr, size, i);
      hide PlaceFor, LinkAt;
      LinkMeans(free, ptr, size, i);
      while !(bp > p && bp < ptr[p])
        invariant 0 <= i < |free| && p == free[i].a && p in ptr && ptr[p] == free[Next(free, i)].a
        invariant LinkAt(free, ptr, size, i)
        decreases if i <= k then k - i else |free| + k - i
      {
        if p >= ptr[p] && (bp > p || bp < ptr[p]) { break; }
        p := ptr[p];
        i := Next(free, i);
        assert LinkAt(free, ptr, size, i);
        LinkMeans(free, ptr, size, i);
      }
      assert i == k;
    }

    /** The body of free on a header bp whose block is on no list: one search of at most a lap, then coalescing. */
    method Insert(bp: nat) returns (ghost k: nat)
      requires freep != 0 && ListOk() && bp in size && BASE < bp && bp + size[bp] <= top && size[bp] > 0
      requires forall i :: 0 < i < |free| ==> Apart(Blk(bp, size[bp]), free[i])
      modifies this`ptr, this`size, this`freep, this`free
      ensures freep != 0 && ListOk() && FreeUnits(free) == old(FreeUnits(free)) + old(size[bp])
      ensures PlaceFor(old(free), k, Blk(bp, old(size[bp]))) && free == Inserted(old(free), k, Blk(bp, old(size[bp])))
      ensures k < |old(free)| && k < |free| && freep == free[k].a
      ensures forall h :: h in old(size) && h != bp && h != old(free)[k].a ==> h in size && size[h] == old(size[h])
    {
      hide PlaceFor, Inserted, FreeUnits, Coalesced, Linked, LinkedUp, JoinsUp;
      ghost var b := Blk(bp, size[bp]);
      var p;
      p, k := FindPlace(bp);
      InPlace(free, k, b);
      LinkMeans(free, ptr, size, k);
      JoinUp(free, k, b, top, ptr, size);
      if bp + size[bp] == ptr[p] {
        size := size[bp := size[bp] + size[ptr[p]]];
        ptr := ptr[bp := ptr[ptr[p]]];
      } else {
        ptr := ptr[bp := ptr[p]];
      }
      JoinDown(free, k, b, top, ptr, size);
      if p + size[p] == bp {
        size := size[p := size[p] + size[bp]];
        ptr := ptr[p := ptr[bp]];
      } else {
        ptr := ptr[p := bp];
      }
      freep := p;
      InsertedCoalesced(free, k, b, top);
      InsertedUnits(free, k, b);
      free := Inserted(free, k, b);
    }

    /** free of a block that malloc returned. */
    method Free(ap: nat)
      requires Valid() && freep != 0 && ap > 0 && ap - 1 in live
      modifies this
      ensures Valid() && freep != 0 && live == old(live) - {ap - 1} && obtained == old(obtained) && top == old(top)
      ensures Joined(old(free), free, freep, Blk(ap - 1, old(live[ap - 1])))
    {
      hide Coalesced, Linked, PlaceFor, Inserted, FreeUnits, LiveUnits;
      var bp := ap - 1;
      LiveRemove(live, bp);
      ghost var b, live0, size0, fl0 := Blk(bp, live[bp]), live, size, free;
      assert forall i :: 0 < i < |free| ==> Apart(b, free[i]);
      ghost var k := Insert(bp);
      live := live - {bp};
      FreedLive(live0, fl0, size0, size, top, bp, k);
      JoinedAt(fl0, k, b);
    }

    /** The first call links base to itself. */
    method Init()
      requires Valid() && freep == 0
      modifies this
      ensures Valid() && freep != 0 && live == map[] && obtained == old(obtained) == 0 && top == old(top)
      ensures free == [Blk(BASE, 0)]
    {
      ptr := ptr[BASE := BASE];
      freep := BASE;
      size := size[BASE := 0];
      free := [Blk(BASE, 0)];
      assert LinkAt(free, ptr, size, 0);
    }

    /** The block found: its tail or all of it becomes live. */
    method Take(prevp: nat, p0: nat, nunits: nat, ghost j: nat) returns (r: nat)
      requires Valid() && freep != 0 && 0 < j < |free| && free[j].a == p0 && free[j - 1].a == prevp
      requires 0 < nunits <= free[j].n
      modifies this
      ensures Valid() && freep != 0 && free == Taken(old(free), j, nunits) && obtained == old(obtained)
      ensures top == old(top) && freep == prevp
      ensures r > 0 && r - 1 == TakenBlk(old(free), j, nunits).a && r - 1 !in old(live)
      ensures live == old(live)[r - 1 := nunits]
    {
      hide Coalesced, Linked, FreeUnits, LiveUnits, Taken;
      ghost var fl, ptr0, size0, live0, h := free, ptr, size, live, TakenBlk(free, j, nunits);
      LinksOf(fl, ptr, size, j);
      var p := p0;
      if size[p] == nunits {
        ptr := ptr[prevp := ptr[p]];
      } else {
        size := size[p := size[p] - nunits];
        p := p + size[p];
        size := size[p := nunits];
      }
      freep := prevp;
      TakenCoalesced(fl, j, nunits, top);
      TakenLinked(fl, j, nunits, top, ptr0, size0, ptr, size);
      TakenUnits(fl, j, nunits);
      TakenLive(live0, fl, size0, size, top, j, nunits);
      LiveAdd(live, h.a, nunits);
      free := Taken(fl, j, nunits);
      live := live[h.a := nunits];
      assert free[j - 1].a == freep;
      BaseFirst(fl, top);
      r := p + 1;
    }

    /** malloc: first fit from freep, asking sbrk at most once, and only when nothing fits. r is the address of the
        payload, or 0; fl, at and j are the list searched last, where the search began, and the block found. */
    method Malloc(nbytes: nat, sbrk: Option<nat>) returns (r: nat, ghost more: nat, ghost fl: seq<Blk>, ghost at: nat,
                  ghost j: nat)
      requires Valid() && nbytes + 15 < 0x8000_0000
      requires sbrk.Some? ==> sbrk.value >= top
      modifies this
      ensures Valid() && freep != 0 && more <= 1
      ensures more == 1 <==> old(freep) == 0 || forall i :: 0 <= i < |old(free)| ==> old(free)[i].n < Units(nbytes)
      ensures more == 0 ==> fl == old(free) && at == old(freep)
      ensures more == 1 && sbrk.Some? ==>
        Joined(Before(old(freep), old(free)), fl, at, Blk(sbrk.value, Fetched(Units(nbytes))))
      ensures r == 0 <==> more == 1 && sbrk.None?
      ensures r == 0 ==> free == Before(old(freep), old(free)) && (old(freep) != 0 ==> freep == old(freep))
      ensures r > 0 ==> FirstFit(fl, at, j, Units(nbytes)) && free == Taken(fl, j, Units(nbytes))
      ensures r > 0 ==> r - 1 == TakenBlk(fl, j, Units(nbytes)).a && freep == fl[j - 1].a
      ensures r == 0 ==> sbrk.None? && live == old(live) && forall i :: 0 <= i < |free| ==> free[i].n < Units(nbytes)
      ensures r > 0 ==> r - 1 !in old(live) && live == old(live)[r - 1 := Units(nbytes)]
      ensures obtained == old(obtained) + (if more == 1 && sbrk.Some? then Fetched(Units(nbytes)) else 0)
    {
      hide ListOk, LiveOk, FreeUnits, LiveUnits, Joined, FirstFit, Taken;
      more := 0;
      UnitsExact(nbytes);
      var nunits := UintUnits(nbytes);
      if freep == 0 { Init(); }
      while true
        invariant Valid() && freep != 0 && more <= 1 && live == old(live)
        invariant more == 0 ==>
          top == old(top) && free == Before(old(freep), old(free)) && (old(freep) != 0 ==> freep == old(freep))
        invariant obtained == old(obtained) + (if more == 1 then Fetched(nunits) else 0)
        invariant more == 1 ==> sbrk.Some? && exists i :: 0 < i < |free| && free[i].n >= nunits
        invariant more == 1 ==> old(freep) == 0 || forall i :: 0 <= i < |old(free)| ==> old(free)[i].n < nunits
        invariant more == 1 ==> Joined(Before(old(freep), old(free)), free, freep, Blk(sbrk.value, Fetched(nunits)))
        decreases 1 - more
      {
        var found, prevp, p;
        fl, at := free, freep;
        found, prevp, p, j := Lap(nunits);
        if found {
          r := Take(prevp, p, nunits, j);
          return;
        }
        assert more == 0;
        p := Morecore(nunits, sbrk);
        more := 1;
        if p == 0 {
          r := 0;
          return;
        }
      }
    }

    /** One lap of malloc's search: the first block after freep that is large enough, and its predecessor. */
    method Lap(nunits: nat) returns (found: bool, prevp: nat, p: nat, ghost j: nat)
      requires freep != 0 && ListOk() && nunits >= 1
      ensures found ==> 0 < j < |free| && free[j].a == p && free[j - 1].a == prevp && nunits <= free[j].n
      ensures found ==> FirstFit(free, freep, j, nunits)
      ensures !found ==> forall i :: 0 <= i < |free| ==> free[i].n < nunits
    {
      hide Coalesced, Linked, Passed;
      ghost var f: nat :| f < |free| && free[f].a == freep;
      ghost var d: nat := 0;
      PassedNone(free, f, nunits);
      StepLink(free, ptr, size, f, 0);
      prevp, p := freep, ptr[freep];
      while true
        invariant d < |free| && Passed(free, f, d, nunits)
        invariant prevp == free[Cyc(f, d, |free|)].a && p == free[Cyc(f, d + 1, |free|)].a
        decreases |free| - d
      {
        j := Cyc(f, d + 1, |free|);
        LinkHere(free, ptr, size, j);
        if size[p] >= nunits {
          BaseSmall(free, top, j);
          FirstFitAt(free, freep, f, d, j, nunits);
          return true, prevp, p, j;
        }
        PassedOne(free, f, d, nunits);
        OneFreep(free, top, f, j);
        if p == freep {
          WholeLap(free, f, nunits);
          return false, prevp, p, j;
        }
        d := d + 1;
        StepLink(free, ptr, size, f, d);
        prevp := p;
        p := ptr[p];
      }
    }

    /** morecore: at least NALLOC units from sbrk, given to the free list. sbrk is the address the kernel
        returns, or None if it refuses. */
    method Morecore(nu0: nat, sbrk: Option<nat>) returns (r: nat)
      requires Valid() && freep != 0 && nu0 > 0
      requires sbrk.Some? ==> sbrk.value >= top
      modifies this
      ensures Valid() && freep != 0 && live == old(live)
      ensures sbrk.None? ==> r == 0 && free == old(free) && obtained == old(obtained)
      ensures sbrk.None? ==> freep == old(freep) && ptr == old(ptr) && size == old(size)
      ensures sbrk.Some? ==> r == freep && obtained == old(obtained) + Fetched(nu0)
      ensures sbrk.Some? ==> Joined(old(free), free, freep, Blk(sbrk.value, Fetched(nu0)))
      ensures sbrk.Some? ==> exists i :: 0 < i < |free| && free[i].n >= nu0
    {
      hide Linked, PlaceFor, Inserted, FreeUnits, LiveUnits, Coalesced;
      var nu := nu0;
      if nu < NALLOC { nu := NALLOC; }
      if sbrk.None? { return 0; }
      var hp := sbrk.value;
      ghost var b, live0, size0, fl0, top0 := Blk(hp, nu), live, size, free, top;
      Grown(free, top, hp + nu, hp);
      NewHeader(free, live, ptr, size, top, hp, nu);
      size := size[hp := nu];
      top := hp + nu;
      obtained := obtained + nu;
      ghost var size1 := size;
      ghost var k := Insert(hp);
      GrownLive(live0, fl0, size0, size1, size, top0, top, b, k);
      BigBlock(fl0, k, b, top);
      JoinedAt(fl0, k, b);
      r := freep;
    }
  }

  /** The units that morecore asks for. */
  function Fetched(n: nat): (r: nat)
    ensures r >= n && r >= NALLOC && (r == n || r == NALLOC)
  {
    if n < NALLOC then NALLOC else n
  }

  /** The list malloc starts from: the first call makes it. */
  function Before(freep: nat, fl: seq<Blk>): (r: seq<Blk>) { if freep == 0 then [Blk(BASE, 0)] else fl }

  /** b has joined the list at its place, merged with its neighbours, and the search will begin before it. */
  ghost predicate Joined(fl: seq<Blk>, r: seq<Blk>, at: nat, b: Blk) {
    exists k: nat :: k < |fl| && PlaceFor(fl, k, b) && r == Inserted(fl, k, b) && k < |r| && at == r[k].a
  }

  lemma JoinedAt(fl: seq<Blk>, k: nat, b: Blk)
    requires k < |fl| && PlaceFor(fl, k, b) && k < |Inserted(fl, k, b)|
    ensures Joined(fl, Inserted(fl, k, b), Inserted(fl, k, b)[k].a, b)
  {}

  /** Block j is the first one of at least n units after address at. */
  ghost predicate FirstFit(fl: seq<Blk>, at: nat, j: nat, n: nat) {
    && 0 < j < |fl| && fl[j].n >= n
    && exists f: nat, d: nat :: f < |fl| && d < |fl| && fl[f].a == at && j == Cyc(f, d + 1, |fl|) && Passed(fl, f, d, n)
  }

  lemma FirstFitAt(fl: seq<Blk>, at: nat, f: nat, d: nat, j: nat, n: nat)
    requires f < |fl| && d < |fl| && fl[f].a == at && j == Cyc(f, d + 1, |fl|) && Passed(fl, f, d, n)
    requires 0 < j < |fl| && fl[j].n >= n
    ensures FirstFit(fl, at, j, n)
  {}

  /** Units for a request of nbytes, header included. */
  function Units(nbytes: nat): (n: nat)
    ensures n >= 1 && nbytes <= (n - 1) * HEADER < nbytes + HEADER
  {
    (nbytes + HEADER - 1) / HEADER + 1
  }

  /** nunits as malloc computes it, in 32-bit unsigned arithmetic. */
  function UintUnits(nbytes: nat): (n: nat) { (nbytes + HEADER - 1) % 0x1_0000_0000 / HEADER + 1 }

  /** The block is large enough exactly when the rounding does not wrap; and for the sizes malloc is
      specified for, the request to sbrk is a positive int. */
  lemma UnitsExact(nbytes: nat)
    requires nbytes < 0x1_0000_0000
    ensures (UintUnits(nbytes) - 1) * HEADER >= nbytes <==> nbytes + HEADER - 1 < 0x1_0000_0000
    ensures nbytes + 15 < 0x8000_0000 ==>
              UintUnits(nbytes) == Units(nbytes) && 0 < Fetched(Units(nbytes)) * HEADER < 0x8000_0000
  {}

  /** Place d steps after f on a cycle of n. */
  function Cyc(f: nat, d: nat, n: nat): (i: nat) requires f < n && d <= n { if f + d < n then f + d else f + d - n }

  /** The blocks 1..d steps after f are too small. */
  ghost predicate Passed(fl: seq<Blk>, f: nat, d: nat, n: nat)
    requires f < |fl| && d <= |fl|
  {
    forall e :: 1 <= e <= d ==> fl[Cyc(f, e, |fl|)].n < n
  }

  lemma WholeLap(fl: seq<Blk>, f: nat, n: nat)
    requires f < |fl| && Passed(fl, f, |fl|, n)
    ensures forall i :: 0 <= i < |fl| ==> fl[i].n < n
  {
    forall i | 0 <= i < |fl| ensures fl[i].n < n {
      var e := if i > f then i - f else i - f + |fl|;
      assert Cyc(f, e, |fl|) == i;
    }
  }

  lemma PassedNone(fl: seq<Blk>, f: nat, n: nat)
    requires f < |fl|
    ensures Passed(fl, f, 0, n)
  {}

  lemma PassedOne(fl: seq<Blk>, f: nat, d: nat, n: nat)
    requires f < |fl| && d < |fl| && Passed(fl, f, d, n) && fl[Cyc(f, d + 1, |fl|)].n < n
    ensures Passed(fl, f, d + 1, n)
  {}

  lemma StepLink(fl: seq<Blk>, ptr: map<nat, nat>, size: map<nat, nat>, f: nat, d: nat)
    requires Linked(fl, ptr, size) && f < |fl| && d < |fl|
    ensures fl[Cyc(f, d, |fl|)].a in ptr && ptr[fl[Cyc(f, d, |fl|)].a] == fl[Cyc(f, d + 1, |fl|)].a
  {
    assert LinkAt(fl, ptr, size, Cyc(f, d, |fl|));
  }

  lemma LinkHere(fl: seq<Blk>, ptr: map<nat, nat>, size: map<nat, nat>, j: nat)
    requires Linked(fl, ptr, size) && j < |fl|
    ensures fl[j].a in ptr && fl[j].a in size && size[fl[j].a] == fl[j].n
  {
    assert LinkAt(fl, ptr, size, j);
  }

  lemma LinksOf(fl: seq<Blk>, ptr: map<nat, nat>, size: map<nat, nat>, j: nat)
    requires Linked(fl, ptr, size) && 0 < j < |fl|
    ensures LinkAt(fl, ptr, size, j) && LinkAt(fl, ptr, size, j - 1)
  {}

  /** base never satisfies a request. */
  lemma BaseSmall(fl: seq<Blk>, top: nat, j: nat)
    requires Coalesced(fl, top) && j < |fl| && fl[j].n >= 1
    ensures j > 0
  {}

  lemma OneFreep(fl: seq<Blk>, top: nat, f: nat, j: nat)
    requires Coalesced(fl, top) && f < |fl| && j < |fl|
    ensures fl[j].a == fl[f].a ==> j == f
  {
    if j != f { OtherAddr(fl, top, j, f); }
  }

  /** Making part of free block j live. */
  lemma TakenLive(live: map<nat, nat>, fl: seq<Blk>, size: map<nat, nat>, size': map<nat, nat>, top: nat, j: nat,
                  n: nat)
    requires Coalesced(fl, top) && LiveOk(live, fl, size, top) && 0 < j < |fl| && 0 < n <= fl[j].n && fl[j].a in size
    requires size[fl[j].a] == fl[j].n
    requires size' == if fl[j].n == n then size else size[fl[j].a := fl[j].n - n][fl[j].a + fl[j].n - n := n]
    ensures TakenBlk(fl, j, n).a !in live
    ensures LiveOk(live[TakenBlk(fl, j, n).a := n], Taken(fl, j, n), size', top)
  {
    var h, r := TakenBlk(fl, j, n), Taken(fl, j, n);
    TakenCoalesced(fl, j, n, top);
    BaseFirst(fl, top);
    assert fl[j].a + fl[j].n <= top;
    hide Coalesced, Taken;
    forall g | g in live
      ensures Apart(Blk(g, live[g]), h) && g != h.a && g in size' && size'[g] == live[g]
      ensures forall i :: 0 < i < |r| ==> Apart(Blk(g, live[g]), r[i])
    {
      TakenApart(fl, j, n, Blk(g, live[g]));
      assert Apart(Blk(g, live[g]), fl[j]);
    }
    assert h.a in size' && size'[h.a] == n && BASE < h.a && h.a + n <= top;
    AddedLive(live, r, size, size', top, h);
  }

  lemma AddedLive(live: map<nat, nat>, r: seq<Blk>, size: map<nat, nat>, size': map<nat, nat>, top: nat, h: Blk)
    requires forall g ::
      g in live ==> live[g] > 0 && BASE < g && g + live[g] <= top && g in size' && size'[g] == live[g]
    requires forall g, i :: g in live && 0 < i < |r| ==> Apart(Blk(g, live[g]), r[i])
    requires forall g, k :: g in live && k in live && g != k ==> Apart(Blk(g, live[g]), Blk(k, live[k]))
    requires forall g :: g in live ==> Apart(Blk(g, live[g]), h) && g != h.a
    requires h.a in size' && size'[h.a] == h.n > 0 && BASE < h.a && h.a + h.n <= top && forall i :: 0 < i < |r| ==>
      Apart(h, r[i])
    ensures LiveOk(live[h.a := h.n], r, size', top)
  {}

  /** Giving block bp back leaves the other live blocks as they were. */
  lemma FreedLive(live: map<nat, nat>, fl: seq<Blk>, size: map<nat, nat>, size': map<nat, nat>, top: nat, bp: nat,
                  k: nat)
    requires Coalesced(fl, top) && bp in live && LiveOk(live, fl, size, top) && PlaceFor(fl, k, Blk(bp, live[bp]))
    requires forall h :: h in size && h != bp && h != fl[k].a ==> h in size' && size'[h] == size[h]
    ensures LiveOk(live - {bp}, Inserted(fl, k, Blk(bp, live[bp])), size', top)
  {
    hide Coalesced, PlaceFor, Inserted;
    InPlace(fl, k, Blk(bp, live[bp]));
    BaseFirst(fl, top);
    var b, r := Blk(bp, live[bp]), Inserted(fl, k, Blk(bp, live[bp]));
    forall h | h in live && h != bp
      ensures h in size' && size'[h] == live[h]
      ensures forall i :: 0 < i < |r| ==> Apart(Blk(h, live[h]), r[i])
    {
      var x := Blk(h, live[h]);
      assert Apart(x, b);
      InsertedApart(fl, k, b, top, x);
      NotAt(fl, k, top, x);
    }
  }

  /** A block apart from the free list has its header elsewhere. */
  lemma NotAt(fl: seq<Blk>, k: nat, top: nat, x: Blk)
    requires Coalesced(fl, top) && k < |fl| && BASE < x.a && x.n > 0 && forall i :: 0 < i < |fl| ==> Apart(x, fl[i])
    ensures x.a != fl[k].a
  {
    if k > 0 { assert Apart(x, fl[k]); }
  }

  lemma Grown(fl: seq<Blk>, top: nat, top': nat, hp: nat)
    requires Coalesced(fl, top) && top <= top' && top <= hp
    ensures Coalesced(fl, top') && BASE < hp
    ensures forall i, n: nat :: 0 < i < |fl| ==> Apart(Blk(hp, n), fl[i])
  {}

  /** A header above everything disturbs no link. */
  lemma NewHeader(fl: seq<Blk>, live: map<nat, nat>, ptr: map<nat, nat>, size: map<nat, nat>, top: nat, hp: nat,
                  nu: nat)
    requires Coalesced(fl, top) && Linked(fl, ptr, size) && hp >= top
    ensures Linked(fl, ptr, size[hp := nu])
  {
    var size' := size[hp := nu];
    forall i | 0 <= i < |fl| ensures LinkAt(fl, ptr, size', i) {
      assert LinkAt(fl, ptr, size, i);
    }
  }

  lemma GrownLive(live: map<nat, nat>, fl: seq<Blk>, size: map<nat, nat>, size1: map<nat, nat>, size2: map<nat, nat>,
                  top: nat, top': nat, b: Blk, k: nat)
    requires Coalesced(fl, top') && LiveOk(live, fl, size, top) && top <= b.a && b.a + b.n == top' && PlaceFor(fl, k, b)
    requires size1 == size[b.a := b.n]
    requires forall h :: h in size1 && h != b.a && h != fl[k].a ==> h in size2 && size2[h] == size1[h]
    ensures LiveOk(live, Inserted(fl, k, b), size2, top')
  {
    hide Coalesced, PlaceFor, Inserted;
    InPlace(fl, k, b);
    var r := Inserted(fl, k, b);
    forall h | h in live
      ensures h in size2 && size2[h] == live[h]
      ensures forall i :: 0 < i < |r| ==> Apart(Blk(h, live[h]), r[i])
    {
      var x := Blk(h, live[h]);
      InsertedApart(fl, k, b, top', x);
      NotAt(fl, k, top', x);
    }
  }

  lemma BigBlock(fl: seq<Blk>, k: nat, b: Blk, top: nat)
    requires Coalesced(fl, top) && PlaceFor(fl, k, b) && BASE < b.a
    ensures exists i :: 0 < i < |Inserted(fl, k, b)| && Inserted(fl, k, b)[i].n >= b.n
  {
    var r := Inserted(fl, k, b);
    if fl[k].a + fl[k].n == b.a {
      assert k > 0;
      assert r[k].n >= b.n;
    } else {
      assert r[k + 1].n >= b.n;
    }
  }

  lemma OtherAddr(fl: seq<Blk>, top: nat, i: nat, j: nat)
    requires Coalesced(fl, top) && i < |fl| && j < |fl| && i != j
    ensures fl[i].a != fl[j].a
  {
    if i < j { assert fl[i].a + fl[i].n < fl[j].a; } else { assert fl[j].a + fl[j].n < fl[i].a; }
  }

  lemma InPlace(fl: seq<Blk>, k: nat, b: Blk)
    requires PlaceFor(fl, k, b)
    ensures k < |fl| && fl[k].a < b.a && b.n > 0 && (k + 1 < |fl| ==> b.a < fl[k + 1].a)
  {}

  lemma LinkMeans(fl: seq<Blk>, ptr: map<nat, nat>, size: map<nat, nat>, i: nat)
    requires i < |fl| && LinkAt(fl, ptr, size, i)
    ensures fl[i].a in ptr && fl[i].a in size && size[fl[i].a] == fl[i].n && ptr[fl[i].a] == fl[Next(fl, i)].a
  {}

  /** The last free block below b. */
  lemma LastBelow(fl: seq<Blk>, b: Blk, top: nat) returns (k: nat)
    requires Coalesced(fl, top) && BASE < b.a && b.n > 0 && forall i :: 0 < i < |fl| ==> Apart(b, fl[i])
    ensures PlaceFor(fl, k, b)
    ensures forall i :: 0 <= i < |fl| ==> (fl[i].a < b.a <==> i <= k)
  {
    k := 0;
    while k + 1 < |fl| && fl[k + 1].a < b.a
      invariant k < |fl| && fl[k].a < b.a
    {
      k := k + 1;
    }
    if k + 1 < |fl| { assert Apart(b, fl[k + 1]); }
    forall i | 0 <= i < |fl| ensures fl[i].a < b.a <==> i <= k {
      if i < k { assert fl[i].a + fl[i].n < fl[k].a; }
      if i > k + 1 { assert fl[k + 1].a + fl[k + 1].n < fl[i].a; }
    }
  }
}
