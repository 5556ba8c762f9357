/** begin_op, log_write and end_op as atomic steps of any number of processes (log.c:126-174, 214-233):
    when the log may fill up, and why nobody waits for ever. */
module Admission {
  import opened Common
  import opened Wal
  import Log

  const MAXOPBLOCKS: nat := 10

  type Pid = nat

  /** The header's block list, the blocks each running operation has logged, the committing flag,
      the processes asleep in begin_op, and those in log_write between its test, made before the
      lock is taken (log.c:218-221), and its append, with their block. log.outstanding is |ops|. */
  datatype Ctl = Ctl(lh: seq<nat>, ops: map<Pid, set<nat>>, committing: bool, asleep: set<Pid>, tested: map<Pid, nat>)

  datatype Action =
    | Begin(p: Pid)           // one pass of the loop in begin_op
    | Test(p: Pid, b: nat)    // log_write up to the lock
    | Append(p: Pid)          // log_write under the lock
    | End(p: Pid)             // end_op up to the commit
    | Done                    // end_op after the commit

  const INIT: Ctl := Ctl([], map[], false, {}, map[])

  predicate Full(c: Ctl) { |c.lh| + (|c.ops| + 1) * MAXOPBLOCKS > LOGSIZE }

  /** The test at the head of log_write (log.c:218). */
  predicate LogPanics(c: Ctl, size: nat) { |c.lh| >= LOGSIZE || |c.lh| >= size - 1 }

  predicate Able(c: Ctl, a: Action) {
    match a
    case Begin(p) => p !in c.ops && p !in c.asleep
    case Test(p, b) => p in c.ops && p !in c.tested
    case Append(p) => p in c.ops && p in c.tested
    case End(p) => p in c.ops && p !in c.tested
    case Done => c.committing
  }

  /** Operations log at most cap distinct blocks each, and none panics. */
  predicate Can(c: Ctl, a: Action, cap: nat, size: nat) {
    Able(c, a) && (a.Test? ==> |c.ops[a.p] + {a.b}| <= cap && !LogPanics(c, size))
  }

  function Do(c: Ctl, a: Action): (r: Ctl)
    requires Able(c, a)
  {
    match a
    case Begin(p) =>
      if c.committing || Full(c) then c.(asleep := c.asleep + {p}) else c.(ops := c.ops[p := {}])
    case Test(p, b) => c.(tested := c.tested[p := b])
    case Append(p) =>
      var b := c.tested[p];
      c.(lh := Log.Absorb(c.lh, b), ops := c.ops[p := c.ops[p] + {b}], tested := c.tested - {p})
    case End(p) =>
      var ops := c.ops - {p};
      if ops == map[] then c.(ops := ops, committing := true) else c.(ops := ops, asleep := {})
    case Done => c.(committing := false, lh := [], asleep := {})
  }

  /** Blocks the running operations may still log. */
  ghost function Unspent(ops: map<Pid, set<nat>>, budget: nat): (r: int)
    decreases |ops|
  {
    if ops == map[] then 0
    else
      var p :| p in ops;
      assert (ops - {p}).Keys == ops.Keys - {p};
      budget - |ops[p]| + Unspent(ops - {p}, budget)
  }

  lemma {:induction false} UnspentRemove(ops: map<Pid, set<nat>>, budget: nat, p: Pid)
    requires p in ops
    ensures Unspent(ops, budget) == budget - |ops[p]| + Unspent(ops - {p}, budget)
    decreases |ops|
  {
    var q :| q in ops && Unspent(ops, budget) == budget - |ops[q]| + Unspent(ops - {q}, budget);
    if q != p {
      assert (ops - {q}).Keys == ops.Keys - {q} && (ops - {p}).Keys == ops.Keys - {p};
      UnspentRemove(ops - {q}, budget, p);
      UnspentRemove(ops - {p}, budget, q);
      assert ops - {q} - {p} == ops - {p} - {q};
    }
  }

  lemma UnspentUpdate(ops: map<Pid, set<nat>>, budget: nat, p: Pid, s: set<nat>)
    ensures Unspent(ops[p := s], budget) == budget - |s| + Unspent(ops - {p}, budget)
  {
    UnspentRemove(ops[p := s], budget, p);
    assert ops[p := s] - {p} == ops - {p};
  }

  ghost predicate WithinCap(ops: map<Pid, set<nat>>, cap: nat) { forall p :: p in ops ==> |ops[p]| <= cap }

  lemma {:induction false} UnspentBounds(ops: map<Pid, set<nat>>, cap: nat)
    requires WithinCap(ops, cap)
    ensures 0 <= Unspent(ops, cap) <= cap * |ops|
    decreases |ops|
  {
    if ops != map[] {
      var p :| p in ops;
      UnspentRemove(ops, cap, p);
      assert (ops - {p}).Keys == ops.Keys - {p};
      UnspentBounds(ops - {p}, cap);
      assert cap * |ops| == cap + cap * (|ops| - 1);
    }
  }

  /** What every interleaving keeps, for a log of size blocks, its header among them. */
  ghost predicate Inv(c: Ctl, cap: nat, size: nat) {
    && Distinct(c.lh)
    && WithinCap(c.ops, cap)
    && (forall p, b :: p in c.ops && b in c.ops[p] ==> b in c.lh)
    && (forall p :: p in c.tested ==> p in c.ops && |c.ops[p] + {c.tested[p]}| <= cap)
    // a commit runs only when no operation does, so the panic in end_op is unreachable
    && (c.committing ==> c.ops == map[])
    // logged blocks plus reservations fit the header
    && |c.lh| + Unspent(c.ops, MAXOPBLOCKS) <= LOGSIZE
    // and the log never gets fuller than this, whatever the test lets through
    && (!c.committing ==> |c.lh| + Unspent(c.ops, cap) <= MAXOPBLOCKS + 2 * cap)
    && |c.lh| <= MAXOPBLOCKS + 2 * cap
    && (cap == 0 || size <= 1 ==> c.lh == [] && c.tested == map[])
    // an idle log is empty
    && (c.ops == map[] && !c.committing ==> c.lh == [])
    // whoever sleeps in begin_op has a running operation or commit to wake it
    && (c.asleep != {} ==> c.committing || c.ops != map[])
    // and sleeps only while a commit runs or its reservation would not fit: no wakeup is lost
    && (c.asleep != {} ==> c.committing || Full(c))
  }

  /** The list always fits the log area: log_write is never called or never lets anything through,
      or the fullest list has room. */
  predicate Safe(cap: nat, size: nat) { cap == 0 || size <= 1 || MAXOPBLOCKS + 2 * cap < size }

  /** An operation is let in only if its own reservation fits too. */
  lemma BeginRoom(c: Ctl, p: Pid, cap: nat, size: nat)
    requires Inv(c, cap, size) && cap <= MAXOPBLOCKS && Able(c, Begin(p)) && !c.committing && !Full(c)
    ensures |c.lh| + Unspent(c.ops[p := {}], MAXOPBLOCKS) <= LOGSIZE
    ensures |c.lh| + Unspent(c.ops[p := {}], cap) <= MAXOPBLOCKS + 2 * cap
  {
    hide Unspent, WithinCap, Distinct;
    var n := |c.ops|;
    UnspentUpdate(c.ops, MAXOPBLOCKS, p, {});
    UnspentUpdate(c.ops, cap, p, {});
    assert c.ops - {p} == c.ops;
    BudgetUse(c.ops, cap);
    UnspentBounds(c.ops, cap);
    assert |c.lh| + (n + 1) * MAXOPBLOCKS <= LOGSIZE;
    if n == 0 {
      assert c.ops == map[];
    } else if n == 1 {
      assert cap * n == cap;
    } else {
      assert n == 2 && cap * n == 2 * cap;
    }
  }

  lemma BeginKeeps(c: Ctl, p: Pid, cap: nat, size: nat)
    requires Inv(c, cap, size) && cap <= MAXOPBLOCKS && Able(c, Begin(p))
    ensures Inv(Do(c, Begin(p)), cap, size)
  {
    hide Unspent;
    if !c.committing && !Full(c) {
      BeginRoom(c, p, cap, size);
    }
  }

  /** Reservations are at most MAXOPBLOCKS per operation. */
  lemma BudgetUse(ops: map<Pid, set<nat>>, cap: nat)
    requires WithinCap(ops, cap) && cap <= MAXOPBLOCKS
    ensures Unspent(ops, MAXOPBLOCKS) <= MAXOPBLOCKS * |ops|
  {
    UnspentBounds(ops, MAXOPBLOCKS);
  }

  lemma AppendKeeps(c: Ctl, p: Pid, cap: nat, size: nat)
    requires Inv(c, cap, size) && cap <= MAXOPBLOCKS && Able(c, Append(p))
    ensures Inv(Do(c, Append(p)), cap, size)
  {
    hide Unspent;
    var c', b := Do(c, Append(p)), c.tested[p];
    var s := c.ops[p] + {b};
    UnspentRemove(c.ops, MAXOPBLOCKS, p);
    UnspentRemove(c.ops, cap, p);
    UnspentUpdate(c.ops, MAXOPBLOCKS, p, s);
    UnspentUpdate(c.ops, cap, p, s);
    assert b !in c.ops[p] ==> |s| == |c.ops[p]| + 1;
    assert b in c.ops[p] ==> s == c.ops[p];
    UnspentBounds(c'.ops, cap);
  }

  lemma EndKeeps(c: Ctl, p: Pid, cap: nat, size: nat)
    requires Inv(c, cap, size) && cap <= MAXOPBLOCKS && Can(c, End(p), cap, size)
    ensures Inv(Do(c, End(p)), cap, size)
  {
    UnspentRemove(c.ops, MAXOPBLOCKS, p);
    UnspentRemove(c.ops, cap, p);
  }

  lemma TestKeeps(c: Ctl, p: Pid, b: nat, cap: nat, size: nat)
    requires Inv(c, cap, size) && Can(c, Test(p, b), cap, size)
    ensures Inv(Do(c, Test(p, b)), cap, size)
  {
    hide Unspent;
    assert b in c.ops[p] + {b};
  }

  lemma DoneKeeps(c: Ctl, cap: nat, size: nat)
    requires Inv(c, cap, size) && Able(c, Done)
    ensures Inv(Do(c, Done), cap, size)
  {}

  lemma StepKeeps(c: Ctl, a: Action, cap: nat, size: nat)
    requires Inv(c, cap, size) && cap <= MAXOPBLOCKS && Can(c, a, cap, size)
    ensures Inv(Do(c, a), cap, size)
  {
    hide Inv, Do, LogPanics;
    match a
    case Begin(p) => BeginKeeps(c, p, cap, size);
    case Test(p, b) => TestKeeps(c, p, b, cap, size);
    case Append(p) => AppendKeeps(c, p, cap, size);
    case End(p) => EndKeeps(c, p, cap, size);
    case Done => DoneKeeps(c, cap, size);
  }

  lemma InitInv(cap: nat, size: nat)
    ensures Inv(INIT, cap, size)
  {}

  /** Under Safe the list fits the log area, whatever passed the test. */
  lemma Fits(c: Ctl, cap: nat, size: nat)
    requires Inv(c, cap, size) && Safe(cap, size) && cap <= MAXOPBLOCKS && 1 <= size
    ensures |c.lh| <= size - 1 && |c.lh| <= LOGSIZE
  {
    UnspentBounds(c.ops, MAXOPBLOCKS);
  }

  // ---- whole runs ----

  predicate Step(c: Ctl, a: Action, c': Ctl, cap: nat, size: nat) { Can(c, a, cap, size) && c' == Do(c, a) }

  /** cs are the states of a run of the actions from the empty log, none of them a panic. */
  ghost predicate IsRun(cs: seq<Ctl>, actions: seq<Action>, cap: nat, size: nat) {
    && |cs| == |actions| + 1
    && cs[0] == INIT
    && forall i :: 0 <= i < |actions| ==> Step(cs[i], actions[i], cs[i + 1], cap, size)
  }

  lemma {:induction false} RunKeeps(cs: seq<Ctl>, actions: seq<Action>, cap: nat, size: nat)
    requires IsRun(cs, actions, cap, size) && cap <= MAXOPBLOCKS
    ensures forall i :: 0 <= i < |cs| ==> Inv(cs[i], cap, size)
    decreases |actions|
  {
    if actions != [] {
      var n := |actions| - 1;
      RunKeeps(cs[..n + 1], actions[..n], cap, size);
      assert Inv(cs[..n + 1][n], cap, size);
      assert Step(cs[n], actions[n], cs[n + 1], cap, size);
      StepKeeps(cs[n], actions[n], cap, size);
    }
  }

  ghost predicate Reachable(c: Ctl, cap: nat, size: nat) {
    exists cs, actions :: IsRun(cs, actions, cap, size) && cs[|actions|] == c
  }

  /** begin_op lets in at most LOGSIZE / MAXOPBLOCKS operations at a time. */
  lemma {:induction false} AtMostThree(cs: seq<Ctl>, actions: seq<Action>, cap: nat, size: nat, i: nat)
    requires IsRun(cs, actions, cap, size) && i < |cs|
    ensures |cs[i].ops| <= 3
  {
    if i > 0 {
      AtMostThree(cs, actions, cap, size, i - 1);
      assert Step(cs[i - 1], actions[i - 1], cs[i - 1 + 1], cap, size);
      OpsStep(cs[i - 1], actions[i - 1]);
    }
  }

  lemma OpsStep(c: Ctl, a: Action)
    requires Able(c, a) && |c.ops| <= 3
    ensures |Do(c, a).ops| <= 3
  {
    hide Log.Absorb;
    match a
    case Begin(p) => OpsAdd(c.ops, p, {});
    case Append(p) => OpsAdd(c.ops, p, c.ops[p] + {c.tested[p]});
    case End(p) => OpsDrop(c.ops, p);
    case _ =>
  }

  lemma OpsAdd(ops: map<Pid, set<nat>>, p: Pid, s: set<nat>)
    ensures |ops[p := s]| == |ops| + if p in ops then 0 else 1
  {
    assert ops[p := s].Keys == ops.Keys + {p};
    assert |ops| == |ops.Keys| && |ops[p := s]| == |ops[p := s].Keys|;
    if p in ops { assert ops.Keys + {p} == ops.Keys; }
  }

  lemma OpsDrop(ops: map<Pid, set<nat>>, p: Pid)
    ensures |ops - {p}| <= |ops|
  {
    assert (ops - {p}).Keys == ops.Keys - {p};
    assert |ops| == |ops.Keys| && |ops - {p}| == |(ops - {p}).Keys|;
    assert ops.Keys == (ops.Keys - {p}) + (ops.Keys * {p});
  }

  /** And it does let in as many: three operations can be open at once. */
  lemma ThreeOpen(cap: nat, size: nat)
    ensures exists c :: Reachable(c, cap, size) && |c.ops| == 3
  {
    hide Reachable;
    ReachableInit(cap, size);
    var c1, c2, c3 := INIT.(ops := map[0 := {}]), INIT.(ops := map[0 := {}, 1 := {}]),
                      INIT.(ops := map[0 := {}, 1 := {}, 2 := {}]);
    CountMap(c1.ops, {0});
    CountMap(c2.ops, {0, 1});
    CountMap(c3.ops, {0, 1, 2});
    assert map[][0 := {}] == c1.ops && c1.ops[1 := {}] == c2.ops && c2.ops[2 := {}] == c3.ops;
    Follow(INIT, Begin(0), c1, cap, size);
    Follow(c1, Begin(1), c2, cap, size);
    Follow(c2, Begin(2), c3, cap, size);
  }

  lemma ReachableInit(cap: nat, size: nat)
    ensures Reachable(INIT, cap, size)
  {
    assert IsRun([INIT], [], cap, size);
  }

  lemma Follow(c: Ctl, a: Action, c': Ctl, cap: nat, size: nat)
    requires Reachable(c, cap, size) && Step(c, a, c', cap, size)
    ensures Reachable(c', cap, size)
  {
    var cs, actions :| IsRun(cs, actions, cap, size) && cs[|actions|] == c;
    assert IsRun(cs + [c'], actions + [a], cap, size);
  }

  /** log_write of b by p, with nobody in between. */
  lemma FollowWrite(c: Ctl, p: Pid, b: nat, c': Ctl, cap: nat, size: nat)
    requires Reachable(c, cap, size) && Can(c, Test(p, b), cap, size) && c' == Wrote(c, p, b)
    ensures Reachable(c', cap, size)
  {
    hide Reachable;
    var mid := Do(c, Test(p, b));
    Follow(c, Test(p, b), mid, cap, size);
    assert mid.tested - {p} == c.tested;
    Follow(mid, Append(p), c', cap, size);
  }

  function Wrote(c: Ctl, p: Pid, b: nat): (r: Ctl)
    requires p in c.ops
  {
    c.(lh := Log.Absorb(c.lh, b), ops := c.ops[p := c.ops[p] + {b}])
  }

  /** p calls log_write on b and panics with "too big a transaction". */
  predicate Panics(c: Ctl, p: Pid, b: nat, cap: nat, size: nat) {
    Able(c, Test(p, b)) && |c.ops[p] + {b}| <= cap && LogPanics(c, size)
  }

  /** Some run in which every operation logs at most cap distinct blocks ends in that panic. */
  ghost predicate PanicReachable(cap: nat, size: nat) {
    exists c, p, b :: Reachable(c, cap, size) && Panics(c, p, b, cap, size)
  }

  // A worst run: one operation stays open while others log one block each and end;
  // when ten blocks are logged a second operation stays open too.

  function Upto(n: nat): (r: seq<nat>) { seq(n, i => i) }

  function OneOpen(k: nat): (c: Ctl) { Ctl(Upto(k), map[0 := {}], false, {}, map[]) }

  function TwoOpen(i: nat, j: nat): (c: Ctl) {
    Ctl(Upto(10 + i + j), map[0 := Range(10, 10 + i), 1 := Range(10 + i, 10 + i + j)], false, {}, map[])
  }

  lemma CountMap<T>(m: map<T, set<nat>>, keys: set<T>)
    requires m.Keys == keys
    ensures |m| == |keys|
  {}

  lemma OneMore(k: nat, cap: nat, size: nat) returns (c1: Ctl, c2: Ctl)
    requires 1 <= cap && k < 10 && k < size - 1
    ensures Step(OneOpen(k), Begin(1), c1, cap, size)
    ensures Can(c1, Test(1, k), cap, size) && c2 == Wrote(c1, 1, k)
    ensures Step(c2, End(1), OneOpen(k + 1), cap, size)
  {
    var c := OneOpen(k);
    CountMap(c.ops, {0});
    c1 := c.(ops := c.ops[1 := {}]);
    assert k !in c1.lh && Upto(k + 1) == c1.lh + [k];
    c2 := c1.(lh := Upto(k + 1), ops := c1.ops[1 := {k}]);
    assert c1.ops[1] + {k} == {k};
    assert c2.ops - {1} == OneOpen(k + 1).ops;
    assert 0 in OneOpen(k + 1).ops;
  }

  lemma {:induction false} ReachOneOpen(k: nat, cap: nat, size: nat)
    requires 1 <= cap && k <= 10 && k <= size - 1
    ensures Reachable(OneOpen(k), cap, size)
  {
    if k == 0 {
      ReachableInit(cap, size);
      assert Step(INIT, Begin(0), OneOpen(0), cap, size);
      Follow(INIT, Begin(0), OneOpen(0), cap, size);
    } else {
      ReachOneOpen(k - 1, cap, size);
      var c1, c2 := OneMore(k - 1, cap, size);
      Follow(OneOpen(k - 1), Begin(1), c1, cap, size);
      FollowWrite(c1, 1, k - 1, c2, cap, size);
      Follow(c2, End(1), OneOpen(k), cap, size);
    }
  }

  lemma FreshWrite(c: Ctl, p: Pid, from: nat, n: nat, cap: nat, size: nat)
    requires p in c.ops && p !in c.tested && c.ops[p] == Range(from, from + n) && from + n == |c.lh|
    requires c.lh == Upto(|c.lh|)
    requires n < cap
    requires Reachable(c, cap, size) && !LogPanics(c, size)
    ensures Reachable(c.(lh := Upto(|c.lh| + 1), ops := c.ops[p := Range(from, from + n + 1)]), cap, size)
  {
    hide Reachable;
    var m := |c.lh|;
    assert m !in c.lh && Upto(m + 1) == c.lh + [m];
    assert Range(from, from + n) + {m} == Range(from, from + n + 1);
    var c' := c.(lh := Upto(m + 1), ops := c.ops[p := Range(from, from + n + 1)]);
    FollowWrite(c, p, m, c', cap, size);
  }

  lemma FirstWrites(i: nat, cap: nat, size: nat)
    requires 10 + i < LOGSIZE && 10 + i < size - 1 && i < cap && Reachable(TwoOpen(i, 0), cap, size)
    ensures Reachable(TwoOpen(i + 1, 0), cap, size)
  {
    hide Range, Reachable;
    var c := TwoOpen(i, 0);
    FreshWrite(c, 0, 10, i, cap, size);
    assert c.ops[0 := Range(10, 10 + i + 1)] == TwoOpen(i + 1, 0).ops;
  }

  lemma SecondWrites(i: nat, j: nat, cap: nat, size: nat)
    requires 10 + i + j < LOGSIZE && 10 + i + j < size - 1 && j < cap && Reachable(TwoOpen(i, j), cap, size)
    ensures Reachable(TwoOpen(i, j + 1), cap, size)
  {
    hide Range, Reachable;
    var c := TwoOpen(i, j);
    FreshWrite(c, 1, 10 + i, j, cap, size);
    assert c.ops[1 := Range(10 + i, 10 + i + j + 1)] == TwoOpen(i, j + 1).ops;
  }

  lemma OpenSecond(cap: nat, size: nat)
    requires Reachable(OneOpen(10), cap, size)
    ensures Reachable(TwoOpen(0, 0), cap, size)
  {
    CountMap(OneOpen(10).ops, {0});
    assert OneOpen(10).ops[1 := {}] == TwoOpen(0, 0).ops;
    Follow(OneOpen(10), Begin(1), TwoOpen(0, 0), cap, size);
  }

  lemma {:induction false} ReachTwoOpen(i: nat, j: nat, cap: nat, size: nat)
    requires 1 <= cap && i <= cap && j <= cap && 10 + i + j <= size - 1 && 10 + i + j <= LOGSIZE
    ensures Reachable(TwoOpen(i, j), cap, size)
    decreases i + j
  {
    hide Reachable, TwoOpen, OneOpen;
    if j > 0 {
      ReachTwoOpen(i, j - 1, cap, size);
      SecondWrites(i, j - 1, cap, size);
    } else if i > 0 {
      ReachTwoOpen(i - 1, 0, cap, size);
      FirstWrites(i - 1, cap, size);
    } else {
      ReachOneOpen(10, cap, size);
      OpenSecond(cap, size);
    }
  }

  /** Exactly when "too big a transaction" cannot happen: no operation logs anything, or the
      fullest log, MAXOPBLOCKS + 2*cap blocks, still passes both tests of log_write. */
  lemma PanicExactly(cap: nat, size: nat)
    requires cap <= MAXOPBLOCKS && 1 <= size
    ensures PanicReachable(cap, size) <==>
      1 <= cap && (MAXOPBLOCKS + 2 * cap >= LOGSIZE || MAXOPBLOCKS + 2 * cap >= size - 1)
  {
    if PanicReachable(cap, size) {
      var c, p, b :| Reachable(c, cap, size) && Panics(c, p, b, cap, size);
      var cs, actions :| IsRun(cs, actions, cap, size) && cs[|actions|] == c;
      RunKeeps(cs, actions, cap, size);
      assert Inv(c, cap, size);
      assert |c.ops[p] + {b}| > 0;
    }
    if 1 <= cap && (MAXOPBLOCKS + 2 * cap >= LOGSIZE || MAXOPBLOCKS + 2 * cap >= size - 1) {
      var limit := if size - 1 < LOGSIZE then size - 1 else LOGSIZE;
      WorstRun(cap, size, limit);
    }
  }

  lemma Stuck(c: Ctl, p: Pid, b: nat, cap: nat, size: nat)
    requires Reachable(c, cap, size) && Panics(c, p, b, cap, size)
    ensures PanicReachable(cap, size)
  {}

  /** In the fullest state even a write that would be absorbed trips the test. */
  lemma WorstRun(cap: nat, size: nat, limit: nat)
    requires 1 <= cap <= MAXOPBLOCKS && 1 <= size && limit == (if size - 1 < LOGSIZE then size - 1 else LOGSIZE)
    requires MAXOPBLOCKS + 2 * cap >= limit
    ensures PanicReachable(cap, size)
  {
    if limit <= 10 {
      ReachOneOpen(limit, cap, size);
      assert {} + {0} == {0};
      Stuck(OneOpen(limit), 0, 0, cap, size);
    } else {
      var i := if limit <= 10 + cap then limit - 10 else cap;
      var j := limit - 10 - i;
      ReachTwoOpen(i, j, cap, size);
      assert Range(10, 10 + i) + {10} == Range(10, 10 + i);
      Stuck(TwoOpen(i, j), 0, 10, cap, size);
    }
  }

  /** Two processes pass the test together and both append: the list outgrows the log area. */
  lemma TwoPass(c: Ctl, x: nat, y: nat, cap: nat, size: nat)
    requires Reachable(c, cap, size) && !LogPanics(c, size) && c.tested == map[] && |c.lh| == size - 2
    requires x !in c.lh && y !in c.lh && x != y && 0 in c.ops && 1 in c.ops
    requires |c.ops[0] + {x}| <= cap && |c.ops[1] + {y}| <= cap
    ensures OverflowReachable(cap, size)
  {
    hide Reachable;
    var c1 := Do(c, Test(0, x));
    var c2 := Do(c1, Test(1, y));
    var c3 := Do(c2, Append(0));
    var c4 := Do(c3, Append(1));
    Follow(c, Test(0, x), c1, cap, size);
    Follow(c1, Test(1, y), c2, cap, size);
    Follow(c2, Append(0), c3, cap, size);
    Follow(c3, Append(1), c4, cap, size);
  }

  /** Some run fills the list beyond the size - 1 blocks that follow the header. */
  ghost predicate OverflowReachable(cap: nat, size: nat) {
    exists c :: Reachable(c, cap, size) && |c.lh| > size - 1
  }

  lemma OverflowsSmall(cap: nat, size: nat)
    requires 1 <= cap <= MAXOPBLOCKS && 2 <= size <= 12
    ensures OverflowReachable(cap, size)
  {
    hide Reachable, OverflowReachable, OneOpen;
    var n := size - 2;
    ReachOneOpen(n, cap, size);
    OpenNext(n, cap, size);
    assert {} + {n} == {n} && {} + {n + 1} == {n + 1};
    TwoPass(TwoStarted(n), n, n + 1, cap, size);
  }

  lemma OverflowsLarge(i: nat, j: nat, cap: nat, size: nat)
    requires i < cap <= MAXOPBLOCKS && j < cap && size == 12 + i + j
    ensures OverflowReachable(cap, size)
  {
    hide Reachable, OverflowReachable;
    var n := size - 2;
    ReachTwoOpen(i, j, cap, size);
    OneMoreElement(Range(10, 10 + i), n);
    OneMoreElement(Range(10 + i, 10 + i + j), n + 1);
    TwoPass(TwoOpen(i, j), n, n + 1, cap, size);
  }

  lemma OneMoreElement(s: set<nat>, x: nat)
    ensures |s + {x}| <= |s| + 1
  {
    if x in s { assert s + {x} == s; }
  }

  function TwoStarted(k: nat): (c: Ctl) { Ctl(Upto(k), map[0 := {}, 1 := {}], false, {}, map[]) }

  lemma OpenNext(k: nat, cap: nat, size: nat)
    requires k <= 10 && Reachable(OneOpen(k), cap, size)
    ensures Reachable(TwoStarted(k), cap, size)
  {
    hide Reachable;
    CountMap(OneOpen(k).ops, {0});
    assert OneOpen(k).ops[1 := {}] == TwoStarted(k).ops;
    Follow(OneOpen(k), Begin(1), TwoStarted(k), cap, size);
  }

  /** Because log_write tests before it takes the lock, the list can outgrow the log area, and write_log
      would write beyond it, exactly when Safe fails. */
  lemma OverflowExactly(cap: nat, size: nat)
    requires cap <= MAXOPBLOCKS && 1 <= size
    ensures OverflowReachable(cap, size) <==> !Safe(cap, size)
  {
    if OverflowReachable(cap, size) {
      var c :| Reachable(c, cap, size) && |c.lh| > size - 1;
      var cs, actions :| IsRun(cs, actions, cap, size) && cs[|actions|] == c;
      RunKeeps(cs, actions, cap, size);
      assert Inv(c, cap, size);
      if Safe(cap, size) { Fits(c, cap, size); }
    }
    if !Safe(cap, size) {
      if size <= 12 {
        OverflowsSmall(cap, size);
      } else {
        var i := if size - 12 < cap then size - 12 else cap - 1;
        OverflowsLarge(i, size - 12 - i, cap, size);
      }
    }
  }

  /** With the log that mkfs lays out (30 blocks, mkfs.c:25), operations of at most nine distinct
      blocks never panic, and operations of ten can. */
  lemma MkfsLog(cap: nat)
    requires 1 <= cap <= MAXOPBLOCKS
    ensures !PanicReachable(cap, LOGSIZE) <==> cap <= 9
    ensures !OverflowReachable(cap, LOGSIZE) <==> cap <= 9
  {
    PanicExactly(cap, LOGSIZE);
    OverflowExactly(cap, LOGSIZE);
  }
}
