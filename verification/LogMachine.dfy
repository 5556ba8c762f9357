/** The log and the buffer cache as one machine: any number of processes take atomic steps,
    a commit and a recovery are one block write per step, and a crash may come between any two.
    Every run is a run of an atomic transactional disk. */
module LogMachine {
  import opened Common
  import opened Blocks
  import opened Wal
  import A = Admission
  import L = Log
  import BufferCache

  type Pid = A.Pid

  /** A cached block: flags, data, the processes that have it from bget, and the sleep lock's holder. */
  datatype Entry = Entry(valid: bool, dirty: bool, data: Block, refs: set<Pid>, holder: Option<Pid>)

  datatype Phase =
    | Running
    | Committing(p: Pid, i: nat, base: Disk, data: seq<Block>)  // i writes done; base and data as the commit began
    | Booting                                                   // crashed, header not read yet
    | Recovering(j: nat, from: Disk)                            // j writes done; from as recovery began

  datatype State = State(disk: Disk, cache: map<nat, Entry>, ctl: A.Ctl, phase: Phase)

  datatype Action =
    | Begin(p: Pid)
    | Get(p: Pid, b: nat, victim: Option<nat>)  // bget
    | Lock(p: Pid, b: nat)                                  // the rest of bread
    | Test(p: Pid, b: nat)                                  // log_write on a held buffer, up to the lock
    // the rest of log_write; v is what the buffer was changed to
    | Write(p: Pid, b: nat, v: Block)
    | Release(p: Pid, b: nat)                               // brelse
    | End(p: Pid)
    | CommitWrite                                           // the commit's next block write
    | Finish
    | Crash                                                 // power failure or panic
    | Load                                                  // read_head
    | RecoverWrite                                          // the recovery's next block write
    | Booted

  predicate Held(s: State, p: Pid, b: nat) {
    b in s.cache && s.cache[b].holder == Some(p) && s.cache[b].valid
  }

  /** The process that recovers after a crash (the first one, proc.c:474-480). */
  const INITPROC: Pid := 0

  // ---- the block writes of commit and recovery ----

  /** Destination and source of write number i of a commit of n blocks; the header is its own source. */
  function CommitDst(lay: Layout, lh: seq<nat>, i: nat): (b: nat)
    requires i < 2 * |lh| + 2
  {
    if i < |lh| then lay.start + 1 + i
    else if |lh| < i <= 2 * |lh| then lh[i - |lh| - 1]
    else lay.start
  }

  function CommitSrc(lay: Layout, lh: seq<nat>, i: nat): (b: nat)
    requires i < 2 * |lh| + 2
  {
    if i < |lh| then lh[i]
    else if |lh| < i <= 2 * |lh| then lay.start + 1 + (i - |lh| - 1)
    else lay.start
  }

  function CommitVal(lay: Layout, lh: seq<nat>, i: nat, src: Block): (v: Block)
    requires i < 2 * |lh| + 2 && lay.Valid() && Loggable(lay, lh)
  {
    if i == |lh| then WithHead(src, lh) else if i == 2 * |lh| + 1 then WithHead(src, []) else src
  }

  function RecoverDst(lay: Layout, lh: seq<nat>, i: nat): (b: nat)
    requires i <= |lh|
  {
    if i < |lh| then lh[i] else lay.start
  }

  function RecoverSrc(lay: Layout, lh: seq<nat>, i: nat): (b: nat)
    requires i <= |lh|
  {
    if i < |lh| then lay.start + 1 + i else lay.start
  }

  /** bwrite of v into the held buffer of block b. */
  function Put(s: State, b: nat, v: Block): (r: State)
    requires b in s.cache && b < |s.disk|
  {
    s.(cache := s.cache[b := s.cache[b].(data := v, dirty := false, valid := true)], disk := s.disk[b := v])
  }

  // ---- steps ----

  /** Operations log at most cap distinct blocks each. */
  predicate Can(lay: Layout, cap: nat, s: State, a: Action)
    requires lay.Valid()
  {
    match a
    case Begin(p) => (s.phase.Running? || s.phase.Committing?) && A.Can(s.ctl, A.Begin(p), cap, lay.size)
    case Get(p, b, victim) =>
      && b < lay.blocks
      && (b in s.cache ==> p !in s.cache[b].refs)
      && (b !in s.cache && victim.None? ==> |s.cache| < BufferCache.NBUF)
      && (b !in s.cache && victim.Some? ==>
            victim.value in s.cache && s.cache[victim.value].refs == {} && !s.cache[victim.value].dirty)
    case Lock(p, b) => b in s.cache && p in s.cache[b].refs && s.cache[b].holder.None? && b < |s.disk|
    case Test(p, b) =>
      && s.phase.Running? && Held(s, p, b) && A.Can(s.ctl, A.Test(p, b), cap, lay.size)
      && b < lay.blocks && !lay.InLog(b)
    case Write(p, b, v) =>
      && s.phase.Running? && Held(s, p, b) && A.Can(s.ctl, A.Append(p), cap, lay.size) && s.ctl.tested[p] == b
      && b < lay.blocks && !lay.InLog(b)
    case Release(p, b) => Held(s, p, b) && p !in s.ctl.tested
    case End(p) =>
      s.phase.Running? && A.Can(s.ctl, A.End(p), cap, lay.size) && forall b :: b in s.ctl.lh ==> b in s.cache
    case CommitWrite =>
      && s.phase.Committing? && 0 < |s.ctl.lh| && s.phase.i < 2 * |s.ctl.lh| + 2 && Loggable(lay, s.ctl.lh)
      && Held(s, s.phase.p, CommitDst(lay, s.ctl.lh, s.phase.i))
      && Held(s, s.phase.p, CommitSrc(lay, s.ctl.lh, s.phase.i))
      && CommitDst(lay, s.ctl.lh, s.phase.i) < |s.disk|
    case Finish => s.phase.Committing? && s.ctl.committing
        && s.phase.i == (if s.ctl.lh == [] then 0 else 2 * |s.ctl.lh| + 2)
    case Crash => true
    case Load => s.phase.Booting? && Held(s, INITPROC, lay.start) && Word(s.cache[lay.start].data, 0) < WORDS
    case RecoverWrite =>
      && s.phase.Recovering? && s.phase.j <= |s.ctl.lh| && Loggable(lay, s.ctl.lh)
      && Held(s, INITPROC, RecoverDst(lay, s.ctl.lh, s.phase.j))
      && Held(s, INITPROC, RecoverSrc(lay, s.ctl.lh, s.phase.j))
      && RecoverDst(lay, s.ctl.lh, s.phase.j) < |s.disk|
    case Booted => s.phase.Recovering? && s.phase.j == |s.ctl.lh| + 1
  }

  function Do(lay: Layout, cap: nat, s: State, a: Action): (r: State)
    requires lay.Valid() && Can(lay, cap, s, a)
  {
    match a
    case Begin(p) => s.(ctl := A.Do(s.ctl, A.Begin(p)))
    case Get(p, b, victim) =>
      if b in s.cache then s.(cache := s.cache[b := s.cache[b].(refs := s.cache[b].refs + {p})])
      else
        var rest := if victim.Some? then s.cache - {victim.value} else s.cache;
        s.(cache := rest[b := Entry(false, false, Zeroes(), {p}, None)])
    case Lock(p, b) =>
      var e := s.cache[b].(holder := Some(p));
      s.(cache := s.cache[b := if e.valid then e else e.(data := s.disk[b], valid := true)])
    case Test(p, b) => s.(ctl := A.Do(s.ctl, A.Test(p, b)))
    case Write(p, b, v) =>
      s.(cache := s.cache[b := s.cache[b].(data := v, dirty := true)], ctl := A.Do(s.ctl, A.Append(p)))
    case Release(p, b) =>
      s.(cache := s.cache[b := s.cache[b].(holder := None, refs := s.cache[b].refs - {p})])
    case End(p) =>
      var ctl := A.Do(s.ctl, A.End(p));
      s.(ctl := ctl, phase := if ctl.committing then Committing(p, 0, s.disk, Cached(s.cache, s.ctl.lh)) else Running)
    case CommitWrite =>
      var lh, i := s.ctl.lh, s.phase.i;
      Put(s, CommitDst(lay, lh, i), CommitVal(lay, lh, i, s.cache[CommitSrc(lay, lh, i)].data))
      .(phase := s.phase.(i := i + 1))
    case Finish => s.(ctl := A.Do(s.ctl, A.Done), phase := Running)
    case Crash => s.(cache := map[], ctl := A.INIT, phase := Booting)
    case Load => s.(ctl := A.INIT.(lh := Head(s.cache[lay.start].data)), phase := Recovering(0, s.disk))
    case RecoverWrite =>
      var lh, j := s.ctl.lh, s.phase.j;
      var src := s.cache[RecoverSrc(lay, lh, j)].data;
      Put(s, RecoverDst(lay, lh, j), if j < |lh| then src else WithHead(src, [])).(phase := s.phase.(j := j + 1))
    case Booted => s.(ctl := A.INIT, phase := Running)
  }

  function Cached(cache: map<nat, Entry>, lh: seq<nat>): (r: seq<Block>)
    requires forall b :: b in lh ==> b in cache
  {
    seq(|lh|, k requires 0 <= k < |lh| => assert lh[k] in lh; cache[lh[k]].data)
  }

  // ---- the transactional disk ----

  /** Contents that survive a crash, and contents as the system calls see them, of the home blocks. */
  datatype TxDisk = TxDisk(stable: map<nat, Block>, current: map<nat, Block>)

  datatype Event = Tau | Wrote(b: nat, v: Block) | Committed | Crashed

  function TxStep(t: TxDisk, e: Event): (r: TxDisk) {
    match e
    case Tau => t
    case Wrote(b, v) => t.(current := t.current[b := v])
    case Committed => t.(stable := t.current)
    case Crashed => t.(current := t.stable)
  }

  /** Only a log_write, the first header write of a commit, and a crash are visible. */
  function Label(lay: Layout, s: State, a: Action): (e: Event) {
    match a
    case Write(p, b, v) => Wrote(b, v)
    case CommitWrite => if s.phase.Committing? && s.phase.i == |s.ctl.lh| then Committed else Tau
    case Crash => Crashed
    case _ => Tau
  }

  ghost function View(s: State, b: nat): (v: Block)
    requires b < |s.disk|
  {
    if b in s.cache && s.cache[b].valid then s.cache[b].data else s.disk[b]
  }

  ghost function Home(lay: Layout, d: Disk): (m: map<nat, Block>)
    requires lay.Valid() && |d| == lay.blocks
  {
    map b | 0 <= b < lay.blocks && !lay.InLog(b) :: d[b]
  }

  ghost function Seen(lay: Layout, s: State): (m: map<nat, Block>)
    requires lay.Valid() && |s.disk| == lay.blocks
  {
    map b | 0 <= b < lay.blocks && !lay.InLog(b) :: View(s, b)
  }

  ghost function Abs(lay: Layout, s: State): (t: TxDisk)
    requires LogOk(lay, s.disk)
  {
    var stable := Home(lay, Recover(lay, s.disk));
    TxDisk(stable, if s.phase.Running? || s.phase.Committing? then Seen(lay, s) else stable)
  }

  /** Neither crashed nor recovering. */
  predicate Up(s: State) { s.phase.Running? || s.phase.Committing? }

  // ---- invariant ----

  ghost predicate CacheOk(lay: Layout, s: State) {
    forall b :: b in s.cache ==>
      && b < lay.blocks
      && (s.cache[b].dirty ==> s.cache[b].valid)
      && (s.cache[b].valid && !s.cache[b].dirty ==> b < |s.disk| && s.cache[b].data == s.disk[b])
      && (s.cache[b].holder.Some? ==> s.cache[b].holder.value in s.cache[b].refs)
  }

  ghost predicate NoneDirty(s: State) { forall b :: b in s.cache ==> !s.cache[b].dirty }

  /** Blocks of the transaction not yet installed are in the cache, dirty, with the data to commit. */
  ghost predicate Pinned(cache: map<nat, Entry>, lh: seq<nat>, data: seq<Block>, from: nat) {
    && |data| == |lh|
    && (forall k :: from <= k < |lh| ==> lh[k] in cache && cache[lh[k]].dirty && cache[lh[k]].data == data[k])
    && forall b :: b in cache && cache[b].dirty ==> b in lh && b !in lh[..if from <= |lh| then from else |lh|]
  }

  /** The list of blocks fits the log area in every run (Admission.OverflowExactly). */
  predicate Sized(lay: Layout, cap: nat) { cap <= A.MAXOPBLOCKS && A.Safe(cap, lay.size) }

  ghost predicate Inv(lay: Layout, cap: nat, s: State) {
    && lay.Valid() && Sized(lay, cap) && |s.disk| == lay.blocks
    && CacheOk(lay, s)
    && Loggable(lay, s.ctl.lh)
    && (s.ctl.committing <==> s.phase.Committing?)
    && (Up(s) ==> A.Inv(s.ctl, cap, lay.size))
    && match s.phase
       case Running =>
         LogEmpty(lay, s.disk) && (forall b :: b in s.ctl.lh ==> b in s.cache)
             && Pinned(s.cache, s.ctl.lh, Cached(s.cache, s.ctl.lh), 0)
       case Committing(p, i, base, data) =>
         && LogEmpty(lay, base) && |data| == |s.ctl.lh| && i <= 2 * |s.ctl.lh| + 2
         && s.disk == CommitState(lay, base, s.ctl.lh, data, i)
         && Pinned(s.cache, s.ctl.lh, data, if i <= |s.ctl.lh| then 0 else i - |s.ctl.lh| - 1)
       case Booting => LogOk(lay, s.disk) && NoneDirty(s)
       case Recovering(j, from) =>
         && LogOk(lay, from) && s.ctl.lh == Head(from[lay.start]) && j <= |s.ctl.lh| + 1
         && s.disk == RecoverState(lay, from, j) && NoneDirty(s)
  }

  lemma DiskRecoverable(lay: Layout, cap: nat, s: State)
    requires Inv(lay, cap, s)
    ensures LogOk(lay, s.disk)
  {
    match s.phase
    case Running =>
    case Committing(p, i, base, data) => CommitCrashSafe(lay, base, s.ctl.lh, data, i);
    case Booting =>
    case Recovering(j, from) => RecoveryCrashSafe(lay, from, j);
  }

  lemma SameHomeMaps(lay: Layout, d: Disk, e: Disk)
    requires lay.Valid() && SameHome(lay, d, e)
    ensures Home(lay, d) == Home(lay, e)
  {}

  /** Steps that change neither the disk nor any block's view nor leave the phase's kind change nothing visible. */
  lemma SameAbs(lay: Layout, s: State, t: State)
    requires LogOk(lay, s.disk) && t.disk == s.disk
    requires (s.phase.Running? || s.phase.Committing?) == (t.phase.Running? || t.phase.Committing?)
    requires forall b :: 0 <= b < lay.blocks && !lay.InLog(b) ==> View(t, b) == View(s, b)
    ensures Abs(lay, t) == Abs(lay, s)
  {}

  /** What a step must do: keep the invariant and make the transactional disk take the step's event. */
  ghost predicate Refines(lay: Layout, cap: nat, s: State, a: Action)
    requires lay.Valid() && Inv(lay, cap, s) && Can(lay, cap, s, a)
  {
    var t := Do(lay, cap, s, a);
    && Inv(lay, cap, t)
    && LogOk(lay, s.disk) && LogOk(lay, t.disk)
    && Abs(lay, t) == TxStep(Abs(lay, s), Label(lay, s, a))
  }

  lemma BeginRefines(lay: Layout, cap: nat, s: State, p: Pid)
    requires lay.Valid() && Inv(lay, cap, s) && Can(lay, cap, s, Begin(p))
    ensures Refines(lay, cap, s, Begin(p))
  {
    hide Recover, RecoverState, LogOk, CommitState, LogEmpty, Loggable, A.Inv;
    DiskRecoverable(lay, cap, s);
    A.StepKeeps(s.ctl, A.Begin(p), cap, lay.size);
    SameAbs(lay, s, Do(lay, cap, s, Begin(p)));
  }

  lemma TestRefines(lay: Layout, cap: nat, s: State, p: Pid, b: nat)
    requires lay.Valid() && Inv(lay, cap, s) && Can(lay, cap, s, Test(p, b))
    ensures Refines(lay, cap, s, Test(p, b))
  {
    hide Recover, RecoverState, LogOk, CommitState, LogEmpty, Loggable, A.Inv;
    DiskRecoverable(lay, cap, s);
    A.StepKeeps(s.ctl, A.Test(p, b), cap, lay.size);
    SameAbs(lay, s, Do(lay, cap, s, Test(p, b)));
  }

  /** The same dirty buffers, with the same data. */
  ghost predicate SameDirty(c: map<nat, Entry>, c': map<nat, Entry>) {
    && (forall b :: b in c && c[b].dirty ==> b in c' && c'[b].dirty && c'[b].data == c[b].data)
    && forall b :: b in c' && c'[b].dirty ==> b in c && c[b].dirty
  }

  lemma PinnedKept(c: map<nat, Entry>, c': map<nat, Entry>, lh: seq<nat>, data: seq<Block>, from: nat)
    requires SameDirty(c, c') && Pinned(c, lh, data, from)
    ensures Pinned(c', lh, data, from)
  {}

  /** Steps of the cache alone: no dirty buffer touched, no view changed. */
  lemma CacheStep(lay: Layout, cap: nat, s: State, c': map<nat, Entry>)
    requires Inv(lay, cap, s) && CacheOk(lay, s.(cache := c')) && SameDirty(s.cache, c')
    ensures Inv(lay, cap, s.(cache := c'))
  {
    hide A.Inv;
    var lh := s.ctl.lh;
    match s.phase
    case Running =>
      PinnedKept(s.cache, c', lh, Cached(s.cache, lh), 0);
      assert Cached(c', lh) == Cached(s.cache, lh);
    case Committing(p, i, base, data) => PinnedKept(s.cache, c', lh, data, if i <= |lh| then 0 else i - |lh| - 1);
    case Booting =>
    case Recovering(j, from) =>
  }

  lemma GetRefines(lay: Layout, cap: nat, s: State, p: Pid, b: nat, victim: Option<nat>)
    requires lay.Valid() && Inv(lay, cap, s) && Can(lay, cap, s, Get(p, b, victim))
    ensures Refines(lay, cap, s, Get(p, b, victim))
  {
    hide Recover, RecoverState, LogOk, CommitState, LogEmpty, Loggable, A.Inv;
    DiskRecoverable(lay, cap, s);
    var t := Do(lay, cap, s, Get(p, b, victim));
    CacheStep(lay, cap, s, t.cache);
    SameAbs(lay, s, t);
  }

  lemma LockRefines(lay: Layout, cap: nat, s: State, p: Pid, b: nat)
    requires lay.Valid() && Inv(lay, cap, s) && Can(lay, cap, s, Lock(p, b))
    ensures Refines(lay, cap, s, Lock(p, b))
  {
    hide Recover, RecoverState, LogOk, CommitState, LogEmpty, Loggable, A.Inv;
    DiskRecoverable(lay, cap, s);
    var t := Do(lay, cap, s, Lock(p, b));
    CacheStep(lay, cap, s, t.cache);
    SameAbs(lay, s, t);
  }

  lemma ReleaseRefines(lay: Layout, cap: nat, s: State, p: Pid, b: nat)
    requires lay.Valid() && Inv(lay, cap, s) && Can(lay, cap, s, Release(p, b))
    ensures Refines(lay, cap, s, Release(p, b))
  {
    hide Recover, RecoverState, LogOk, CommitState, LogEmpty, Loggable, A.Inv;
    DiskRecoverable(lay, cap, s);
    var t := Do(lay, cap, s, Release(p, b));
    CacheStep(lay, cap, s, t.cache);
    SameAbs(lay, s, t);
  }

  lemma WritePins(c: map<nat, Entry>, lh: seq<nat>, b: nat, v: Block)
    requires b in c && (forall x :: x in lh ==> x in c) && Pinned(c, lh, Cached(c, lh), 0)
    ensures var c' := c[b := c[b].(data := v, dirty := true)];
            var lh' := L.Absorb(lh, b);
            (forall x :: x in lh' ==> x in c') && Pinned(c', lh', Cached(c', lh'), 0)
  {
    var lh' := L.Absorb(lh, b);
    assert lh[..0] == [] && lh'[..0] == [];
    assert forall k :: 0 <= k < |lh'| && k >= |lh| ==> lh'[k] == b;
  }

  lemma WriteInv(lay: Layout, cap: nat, s: State, p: Pid, b: nat, v: Block)
    requires lay.Valid() && Inv(lay, cap, s) && Can(lay, cap, s, Write(p, b, v))
    ensures Inv(lay, cap, Do(lay, cap, s, Write(p, b, v)))
  {
    hide A.Inv;
    WritePins(s.cache, s.ctl.lh, b, v);
    A.StepKeeps(s.ctl, A.Append(p), cap, lay.size);
    A.Fits(A.Do(s.ctl, A.Append(p)), cap, lay.size);
    assert Loggable(lay, L.Absorb(s.ctl.lh, b));
  }

  lemma WriteRefines(lay: Layout, cap: nat, s: State, p: Pid, b: nat, v: Block)
    requires lay.Valid() && Inv(lay, cap, s) && Can(lay, cap, s, Write(p, b, v))
    ensures Refines(lay, cap, s, Write(p, b, v))
  {
    hide Recover, RecoverState, LogOk, CommitState, LogEmpty, Loggable, A.Inv;
    DiskRecoverable(lay, cap, s);
    WriteInv(lay, cap, s, p, b, v);
    var t := Do(lay, cap, s, Write(p, b, v));
    assert Seen(lay, t) == Seen(lay, s)[b := v];
  }

  lemma EndRefines(lay: Layout, cap: nat, s: State, p: Pid)
    requires lay.Valid() && Inv(lay, cap, s) && Can(lay, cap, s, End(p))
    ensures Refines(lay, cap, s, End(p))
  {
    hide A.Inv;
    DiskRecoverable(lay, cap, s);
    A.StepKeeps(s.ctl, A.End(p), cap, lay.size);
    SameAbs(lay, s, Do(lay, cap, s, End(p)));
  }

  /** When a commit has made its last write the log is empty and nothing is dirty. */
  lemma CommitLeaves(lay: Layout, cap: nat, s: State)
    requires lay.Valid() && Inv(lay, cap, s) && Can(lay, cap, s, Finish)
    ensures LogEmpty(lay, s.disk) && NoneDirty(s)
  {
    var lh := s.ctl.lh;
    if lh != [] {
      hide LogOk, CommitState, LogEmpty, Loggable;
      CommitFinal(lay, s.phase.base, lh, s.phase.data);
      assert lh[..|lh|] == lh;
    }
  }

  lemma IdleInv(lay: Layout, cap: nat, s: State)
    requires lay.Valid() && |s.disk| == lay.blocks && CacheOk(lay, s) && LogEmpty(lay, s.disk) && NoneDirty(s)
    requires Sized(lay, cap) && s.ctl.lh == [] && !s.ctl.committing && s.phase.Running? && A.Inv(s.ctl, cap, lay.size)
    ensures Inv(lay, cap, s)
  {}

  lemma FinishInv(lay: Layout, cap: nat, s: State)
    requires lay.Valid() && Inv(lay, cap, s) && Can(lay, cap, s, Finish)
    ensures Inv(lay, cap, Do(lay, cap, s, Finish))
  {
    hide A.Inv, CommitState, LogEmpty, Loggable, Pinned, LogOk;
    CommitLeaves(lay, cap, s);
    A.StepKeeps(s.ctl, A.Done, cap, lay.size);
    IdleInv(lay, cap, Do(lay, cap, s, Finish));
  }

  lemma FinishRefines(lay: Layout, cap: nat, s: State)
    requires lay.Valid() && Inv(lay, cap, s) && Can(lay, cap, s, Finish)
    ensures Refines(lay, cap, s, Finish)
  {
    hide Recover, RecoverState, LogOk, CommitState, LogEmpty, Loggable, A.Inv;
    FinishInv(lay, cap, s);
    DiskRecoverable(lay, cap, s);
    SameAbs(lay, s, Do(lay, cap, s, Finish));
  }

  lemma CrashRefines(lay: Layout, cap: nat, s: State)
    requires lay.Valid() && Inv(lay, cap, s)
    ensures Refines(lay, cap, s, Crash)
  {
    DiskRecoverable(lay, cap, s);
  }

  lemma LoadInv(lay: Layout, cap: nat, s: State)
    requires lay.Valid() && Inv(lay, cap, s) && Can(lay, cap, s, Load)
    ensures Inv(lay, cap, Do(lay, cap, s, Load))
  {}

  lemma LoadRefines(lay: Layout, cap: nat, s: State)
    requires lay.Valid() && Inv(lay, cap, s) && Can(lay, cap, s, Load)
    ensures Refines(lay, cap, s, Load)
  {
    hide Recover, RecoverState, LogOk, CommitState, LogEmpty, Loggable, A.Inv;
    DiskRecoverable(lay, cap, s);
    LoadInv(lay, cap, s);
    SameAbs(lay, s, Do(lay, cap, s, Load));
  }

  lemma BootedLeaves(lay: Layout, cap: nat, s: State)
    requires lay.Valid() && Inv(lay, cap, s) && Can(lay, cap, s, Booted)
    ensures LogOk(lay, s.disk) && Recover(lay, s.disk) == s.disk
    ensures Inv(lay, cap, Do(lay, cap, s, Booted))
  {
    ClearedIsEmpty(lay, Installed(lay, s.phase.from, s.ctl.lh, |s.ctl.lh|));
    RecoverOfEmpty(lay, s.disk);
    A.InitInv(cap, lay.size);
    IdleInv(lay, cap, Do(lay, cap, s, Booted));
  }

  lemma BootedRefines(lay: Layout, cap: nat, s: State)
    requires lay.Valid() && Inv(lay, cap, s) && Can(lay, cap, s, Booted)
    ensures Refines(lay, cap, s, Booted)
  {
    hide Recover, RecoverState, LogOk, CommitState, LogEmpty, Loggable, A.Inv;
    BootedLeaves(lay, cap, s);
    var t := Do(lay, cap, s, Booted);
    assert Seen(lay, t) == Home(lay, s.disk);
  }

  /** A block write by commit or recovery: the cached copy stays coherent. */
  lemma PutOk(lay: Layout, s: State, b: nat, v: Block)
    requires lay.Valid() && |s.disk| == lay.blocks && CacheOk(lay, s) && b in s.cache && b < |s.disk|
    ensures CacheOk(lay, Put(s, b, v))
    ensures forall x :: 0 <= x < lay.blocks ==> View(Put(s, b, v), x) == if x == b then v else View(s, x)
  {}

  lemma RecoverWriteDisk(lay: Layout, cap: nat, s: State)
    requires lay.Valid() && Inv(lay, cap, s) && Can(lay, cap, s, RecoverWrite)
    ensures Do(lay, cap, s, RecoverWrite).disk == RecoverState(lay, s.phase.from, s.phase.j + 1)
  {
    hide Word, WithHead;
  }

  lemma RecoverWriteInv(lay: Layout, cap: nat, s: State)
    requires lay.Valid() && Inv(lay, cap, s) && Can(lay, cap, s, RecoverWrite)
    ensures Inv(lay, cap, Do(lay, cap, s, RecoverWrite))
  {
    hide RecoverState, Word, WithHead, A.Inv;
    var lh, j := s.ctl.lh, s.phase.j;
    RecoverWriteDisk(lay, cap, s);
    PutOk(lay, s, RecoverDst(lay, lh, j), Do(lay, cap, s, RecoverWrite).disk[RecoverDst(lay, lh, j)]);
  }

  lemma RecoverWriteRefines(lay: Layout, cap: nat, s: State)
    requires lay.Valid() && Inv(lay, cap, s) && Can(lay, cap, s, RecoverWrite)
    ensures Refines(lay, cap, s, RecoverWrite)
  {
    hide Recover, RecoverState, LogOk, CommitState, LogEmpty, Loggable, A.Inv;
    RecoverWriteInv(lay, cap, s);
    RecoveryCrashSafe(lay, s.phase.from, s.phase.j);
    RecoveryCrashSafe(lay, s.phase.from, s.phase.j + 1);
  }

  // ---- the commit's writes ----

  lemma CommitWriteDisk(lay: Layout, cap: nat, s: State)
    requires lay.Valid() && Inv(lay, cap, s) && Can(lay, cap, s, CommitWrite)
    ensures Do(lay, cap, s, CommitWrite).disk == CommitState(lay, s.phase.base, s.ctl.lh, s.phase.data, s.phase.i + 1)
  {
    hide A.Inv;
    var lh, i := s.ctl.lh, s.phase.i;
    var src := CommitSrc(lay, lh, i);
    if i < |lh| {
    } else {
      assert !s.cache[src].dirty;
    }
  }

  /** From the header write on, the log area holds the transaction's data. */
  lemma LogHolds(lay: Layout, base: Disk, lh: seq<nat>, data: seq<Block>, i: nat, k: nat)
    requires lay.Valid() && |base| == lay.blocks && Loggable(lay, lh) && |data| == |lh| && k < |lh|
    requires |lh| < i <= 2 * |lh| + 1
    ensures CommitState(lay, base, lh, data, i)[lay.start + 1 + k] == data[k]
  {
    hide WithHead;
    var g := Logged(lay, base, lh, data);
    LogWrittenAt(lay, base, data, |lh|);
    InstalledAt(lay, g, lh, i - |lh| - 1);
    assert lay.start + 1 + k !in lh[..i - |lh| - 1];
  }

  lemma CommitWritePins(lay: Layout, cap: nat, s: State)
    requires lay.Valid() && Inv(lay, cap, s) && Can(lay, cap, s, CommitWrite)
    ensures var n, i := |s.ctl.lh|, s.phase.i + 1;
            Pinned(Do(lay, cap, s, CommitWrite).cache, s.ctl.lh, s.phase.data, if i <= n then 0 else i - n - 1)
  {
    hide CommitState, LogEmpty, WithHead, Word, LogOk, CacheOk, A.Inv, Pinned;
    var lh, i, t := s.ctl.lh, s.phase.i, Do(lay, cap, s, CommitWrite);
    var dst := CommitDst(lay, lh, i);
    if |lh| < i <= 2 * |lh| {
      PinnedNext(s.cache, lh, s.phase.data, i - |lh| - 1, t.cache[dst]);
    } else {
      assert lay.InLog(dst) && dst !in lh;
      PinnedOther(s.cache, lh, s.phase.data, if i <= |lh| then 0 else i - |lh| - 1, dst, t.cache[dst]);
      if i == 2 * |lh| + 1 { PinnedDone(t.cache, lh, s.phase.data); }
    }
  }

  /** Block number k of the list has been installed. */
  lemma PinnedNext(c: map<nat, Entry>, lh: seq<nat>, data: seq<Block>, k: nat, e: Entry)
    requires Pinned(c, lh, data, k) && k < |lh| && Distinct(lh) && !e.dirty
    ensures Pinned(c[lh[k] := e], lh, data, k + 1)
  {
    assert lh[..k + 1] == lh[..k] + [lh[k]];
  }

  lemma PinnedOther(c: map<nat, Entry>, lh: seq<nat>, data: seq<Block>, from: nat, b: nat, e: Entry)
    requires Pinned(c, lh, data, from) && b !in lh && !e.dirty
    ensures Pinned(c[b := e], lh, data, from)
  {}

  lemma PinnedDone(c: map<nat, Entry>, lh: seq<nat>, data: seq<Block>)
    requires Pinned(c, lh, data, |lh|)
    ensures Pinned(c, lh, data, |lh| + 1)
  {}

  lemma CommitWriteInv(lay: Layout, cap: nat, s: State)
    requires lay.Valid() && Inv(lay, cap, s) && Can(lay, cap, s, CommitWrite)
    ensures Inv(lay, cap, Do(lay, cap, s, CommitWrite))
  {
    hide CommitState, LogEmpty, Loggable, Pinned, WithHead, A.Inv;
    CommitWriteDisk(lay, cap, s);
    CommitWritePins(lay, cap, s);
    var lh, i := s.ctl.lh, s.phase.i;
    var dst := CommitDst(lay, lh, i);
    PutOk(lay, s, dst, Do(lay, cap, s, CommitWrite).disk[dst]);
  }

  lemma InstallView(lay: Layout, cap: nat, s: State, k: nat)
    requires lay.Valid() && s.phase.Committing? && k < |s.ctl.lh| && s.phase.i == |s.ctl.lh| + 1 + k
    requires Inv(lay, cap, s) && Can(lay, cap, s, CommitWrite)
    ensures lay.start + 1 + k in s.cache && s.ctl.lh[k] < |s.disk|
    ensures s.cache[lay.start + 1 + k].data == View(s, s.ctl.lh[k])
  {
    hide CommitState, Word, A.Inv;
    LogHolds(lay, s.phase.base, s.ctl.lh, s.phase.data, s.phase.i, k);
    assert !s.cache[lay.start + 1 + k].dirty;
  }

  lemma PutSeen(lay: Layout, s: State, b: nat, v: Block, ph: Phase)
    requires lay.Valid() && |s.disk| == lay.blocks && CacheOk(lay, s) && b in s.cache && b < |s.disk|
    requires lay.InLog(b) || v == View(s, b)
    ensures Seen(lay, Put(s, b, v).(phase := ph)) == Seen(lay, s)
  {}

  /** No write of a commit changes what system calls see. */
  lemma CommitWriteViews(lay: Layout, cap: nat, s: State)
    requires lay.Valid() && Inv(lay, cap, s) && Can(lay, cap, s, CommitWrite)
    ensures Seen(lay, Do(lay, cap, s, CommitWrite)) == Seen(lay, s)
  {
    hide CommitState, Word, WithHead, Pinned, Seen, A.Inv;
    var lh, i := s.ctl.lh, s.phase.i;
    var dst, v := CommitDst(lay, lh, i), CommitVal(lay, lh, i, s.cache[CommitSrc(lay, lh, i)].data);
    if |lh| < i <= 2 * |lh| {
      InstallView(lay, cap, s, i - |lh| - 1);
    } else {
      assert lay.InLog(dst);
    }
    PutSeen(lay, s, dst, v, s.phase.(i := i + 1));
  }

  /** At the commit point what is seen is the base image with the transaction applied. */
  lemma SeenIsApplied(lay: Layout, cap: nat, s: State)
    requires lay.Valid() && Inv(lay, cap, s) && s.phase.Committing? && s.phase.i == |s.ctl.lh|
    ensures Seen(lay, s) == Home(lay, Apply(s.phase.base, s.ctl.lh, s.phase.data))
  {
    hide LogEmpty, A.Inv;
    var lh, base, data := s.ctl.lh, s.phase.base, s.phase.data;
    ApplyAt(base, lh, data);
    LogWrittenAt(lay, base, data, |lh|);
    assert lh[..0] == [];
    forall b | 0 <= b < lay.blocks && !lay.InLog(b) ensures View(s, b) == Apply(base, lh, data)[b] {
      if b in lh {
        var k :| 0 <= k < |lh| && lh[k] == b;
      }
    }
  }

  lemma CommitWriteRefines(lay: Layout, cap: nat, s: State)
    requires lay.Valid() && Inv(lay, cap, s) && Can(lay, cap, s, CommitWrite)
    ensures Refines(lay, cap, s, CommitWrite)
  {
    hide Recover, RecoverState, LogOk, CommitState, Word, Pinned, Seen, WithHead, A.Inv;
    var lh, i, base, data := s.ctl.lh, s.phase.i, s.phase.base, s.phase.data;
    var t := Do(lay, cap, s, CommitWrite);
    CommitWriteInv(lay, cap, s);
    CommitCrashSafe(lay, base, lh, data, i);
    CommitCrashSafe(lay, base, lh, data, i + 1);
    CommitWriteViews(lay, cap, s);
    if i == |lh| {
      SeenIsApplied(lay, cap, s);
    }
    SameHomeMaps(lay, Recover(lay, s.disk), if i <= |lh| then base else Apply(base, lh, data));
    SameHomeMaps(lay, Recover(lay, t.disk), if i + 1 <= |lh| then base else Apply(base, lh, data));
  }

  /** A locked buffer stays its holder's until it is released or the power fails: nobody recycles it or takes the lock,
      and only the holder changes what is in it, by log_write or as the one who commits or recovers. */
  lemma HeldStays(lay: Layout, cap: nat, s: State, a: Action, p: Pid, b: nat)
    requires lay.Valid() && Inv(lay, cap, s) && Can(lay, cap, s, a) && Held(s, p, b)
    requires a != Release(p, b) && !a.Crash?
    ensures Held(Do(lay, cap, s, a), p, b)
    ensures Do(lay, cap, s, a).cache[b].data == s.cache[b].data
            || (a.Write? && a.p == p && a.b == b) || (a.CommitWrite? && s.phase.p == p)
            || (a.RecoverWrite? && p == INITPROC)
  {
    hide A.Inv, CommitState, RecoverState, LogOk, LogEmpty, Loggable, Pinned, WithHead, Word;
  }

  /** A released buffer can be locked by whoever waits for it, and once nobody uses it and it is clean its place can be
      taken by any other block. */
  lemma HandsOver(lay: Layout, cap: nat, s: State, p: Pid, b: nat, q: Pid, c: nat)
    requires Inv(lay, cap, s) && Can(lay, cap, s, Release(p, b)) && q != p
    ensures var t := Do(lay, cap, s, Release(p, b));
            && (q in s.cache[b].refs ==> Can(lay, cap, t, Lock(q, b)))
            && (s.cache[b].refs == {p} && !s.cache[b].dirty && c < lay.blocks && c !in s.cache ==>
                Can(lay, cap, t, Get(q, c, Some(b))))
  {
    hide A.Inv, CommitState, RecoverState, LogOk, LogEmpty, Loggable;
  }

  // ---- runs ----

  lemma StepRefines(lay: Layout, cap: nat, s: State, a: Action)
    requires lay.Valid() && Inv(lay, cap, s) && Can(lay, cap, s, a)
    ensures Refines(lay, cap, s, a)
  {
    hide *;
    match a
    case Begin(p) => BeginRefines(lay, cap, s, p);
    case Get(p, b, victim) => GetRefines(lay, cap, s, p, b, victim);
    case Lock(p, b) => LockRefines(lay, cap, s, p, b);
    case Test(p, b) => TestRefines(lay, cap, s, p, b);
    case Write(p, b, v) => WriteRefines(lay, cap, s, p, b, v);
    case Release(p, b) => ReleaseRefines(lay, cap, s, p, b);
    case End(p) => EndRefines(lay, cap, s, p);
    case CommitWrite => CommitWriteRefines(lay, cap, s);
    case Finish => FinishRefines(lay, cap, s);
    case Crash => CrashRefines(lay, cap, s);
    case Load => LoadRefines(lay, cap, s);
    case RecoverWrite => RecoverWriteRefines(lay, cap, s);
    case Booted => BootedRefines(lay, cap, s);
  }

  /** ss are the states of a run of the actions, from a machine just powered on with a recoverable disk. */
  ghost predicate IsRun(lay: Layout, cap: nat, ss: seq<State>, actions: seq<Action>) {
    && lay.Valid()
    && |ss| == |actions| + 1
    && LogOk(lay, ss[0].disk) && ss[0] == State(ss[0].disk, map[], A.INIT, Booting)
    && forall i :: 0 <= i < |actions| ==>
        Can(lay, cap, ss[i], actions[i]) && ss[i + 1] == Do(lay, cap, ss[i], actions[i])
  }

  ghost function Labels(lay: Layout, ss: seq<State>, actions: seq<Action>): (es: seq<Event>)
    requires |ss| == |actions| + 1
  {
    seq(|actions|, i requires 0 <= i < |actions| => Label(lay, ss[i], actions[i]))
  }

  ghost function TxRun(t: TxDisk, es: seq<Event>): (r: TxDisk) {
    if es == [] then t else TxStep(TxRun(t, es[..|es| - 1]), es[|es| - 1])
  }

  lemma {:induction false} RunKeeps(lay: Layout, cap: nat, ss: seq<State>, actions: seq<Action>)
    requires IsRun(lay, cap, ss, actions) && Sized(lay, cap)
    ensures forall i :: 0 <= i < |ss| ==> Inv(lay, cap, ss[i])
    decreases |actions|
  {
    hide Inv, Can, Do, Refines, LogOk;
    if actions == [] {
      PowerOn(lay, cap, ss[0]);
    } else {
      var n := |actions| - 1;
      RunKeeps(lay, cap, ss[..n + 1], actions[..n]);
      assert Inv(lay, cap, ss[..n + 1][n]);
      StepKeeps(lay, cap, ss[n], actions[n]);
    }
  }

  lemma PowerOn(lay: Layout, cap: nat, s: State)
    requires Sized(lay, cap) && LogOk(lay, s.disk) && s == State(s.disk, map[], A.INIT, Booting)
    ensures Inv(lay, cap, s)
  {}

  lemma StepKeeps(lay: Layout, cap: nat, s: State, a: Action)
    requires lay.Valid() && Inv(lay, cap, s) && Can(lay, cap, s, a)
    ensures Inv(lay, cap, Do(lay, cap, s, a))
  {
    hide Inv, Can, Do, LogOk;
    StepRefines(lay, cap, s, a);
  }

  lemma StepAbs(lay: Layout, cap: nat, s: State, a: Action)
    requires lay.Valid() && Inv(lay, cap, s) && Can(lay, cap, s, a)
    ensures LogOk(lay, s.disk) && LogOk(lay, Do(lay, cap, s, a).disk)
    ensures Abs(lay, Do(lay, cap, s, a)) == TxStep(Abs(lay, s), Label(lay, s, a))
  {
    hide Inv, Can, Do, LogOk, Abs, Label, TxStep;
    StepRefines(lay, cap, s, a);
  }

  /** Every run, with any interleaving, any crashes, and crashes during recovery,
      is a run of the transactional disk. */
  lemma {:induction false} RunRefines(lay: Layout, cap: nat, ss: seq<State>, actions: seq<Action>)
    requires IsRun(lay, cap, ss, actions) && Sized(lay, cap)
    ensures LogOk(lay, ss[0].disk) && LogOk(lay, ss[|actions|].disk)
    ensures Abs(lay, ss[|actions|]) == TxRun(Abs(lay, ss[0]), Labels(lay, ss, actions))
    decreases |actions|
  {
    hide Inv, Can, Do, LogOk, Abs, TxStep;
    RunKeeps(lay, cap, ss, actions);
    if actions != [] {
      var n := |actions| - 1;
      RunRefines(lay, cap, ss[..n + 1], actions[..n]);
      assert ss[..n + 1][n] == ss[n] && ss[..n + 1][0] == ss[0];
      assert Labels(lay, ss, actions)[..n] == Labels(lay, ss[..n + 1], actions[..n]);
      assert Inv(lay, cap, ss[n]);
      StepAbs(lay, cap, ss[n], actions[n]);
    }
  }

  /** The transactional disk after the first i actions: what the events alone make of the initial contents. */
  ghost function History(lay: Layout, cap: nat, ss: seq<State>, actions: seq<Action>, i: nat): (t: TxDisk)
    requires IsRun(lay, cap, ss, actions) && i < |ss|
  {
    TxRun(Abs(lay, ss[0]), Labels(lay, ss[..i + 1], actions[..i]))
  }

  lemma AbsIsHistory(lay: Layout, cap: nat, ss: seq<State>, actions: seq<Action>, i: nat)
    requires IsRun(lay, cap, ss, actions) && Sized(lay, cap) && i < |ss|
    ensures LogOk(lay, ss[i].disk) && Abs(lay, ss[i]) == History(lay, cap, ss, actions, i)
  {
    hide Inv, Can, Do, LogOk, Abs, TxRun, Labels;
    RunRefines(lay, cap, ss[..i + 1], actions[..i]);
    assert ss[..i + 1][i] == ss[i] && ss[..i + 1][0] == ss[0];
  }

  /** Latest read: once the system is up, a buffer that a process holds after bread has the content most
      recently written to its block by the history of writes, commits and crashes. */
  lemma ReadsLatest(lay: Layout, cap: nat, ss: seq<State>, actions: seq<Action>, i: nat, p: Pid, b: nat)
    requires IsRun(lay, cap, ss, actions) && Sized(lay, cap) && i < |ss| && Up(ss[i])
    requires Held(ss[i], p, b) && b < lay.blocks && !lay.InLog(b)
    ensures b in History(lay, cap, ss, actions, i).current
    ensures ss[i].cache[b].data == History(lay, cap, ss, actions, i).current[b]
  {
    hide IsRun, Can, Do, LogOk, Labels, TxRun;
    AbsIsHistory(lay, cap, ss, actions, i);
    RunKeeps(lay, cap, ss, actions);
    assert Inv(lay, cap, ss[i]);
  }

  /** An uncommitted write is not yet recoverable: the on-disk log is still empty. */
  lemma LogStillEmpty(lay: Layout, cap: nat, s: State)
    requires Inv(lay, cap, s) && (s.phase.Running? || (s.phase.Committing? && s.phase.i <= |s.ctl.lh|))
    ensures LogOk(lay, s.disk) && Abs(lay, s).stable == Home(lay, s.disk)
  {
    DiskRecoverable(lay, cap, s);
    if s.phase.Committing? { LogWrittenAt(lay, s.phase.base, s.phase.data, s.phase.i); }
    RecoverOfEmpty(lay, s.disk);
  }

  /** No early write: until a commit's header write the home blocks on disk are those of the last commit
      of the history, so no write since has reached one. */
  lemma NoEarlyWrite(lay: Layout, cap: nat, ss: seq<State>, actions: seq<Action>, i: nat)
    requires IsRun(lay, cap, ss, actions) && Sized(lay, cap) && i < |ss|
    requires ss[i].phase.Running? || (ss[i].phase.Committing? && ss[i].phase.i <= |ss[i].ctl.lh|)
    ensures |ss[i].disk| == lay.blocks && Home(lay, ss[i].disk) == History(lay, cap, ss, actions, i).stable
  {
    hide IsRun, Can, Do, LogOk, Labels, TxRun, Inv;
    AbsIsHistory(lay, cap, ss, actions, i);
    RunKeeps(lay, cap, ss, actions);
    LogStillEmpty(lay, cap, ss[i]);
    DiskSize(lay, cap, ss[i]);
  }

  lemma DiskSize(lay: Layout, cap: nat, s: State)
    requires Inv(lay, cap, s)
    ensures |s.disk| == lay.blocks
  {}

  /** The stable contents move only at a commit's header write, to everything written so far. */
  lemma StableMoves(lay: Layout, cap: nat, ss: seq<State>, actions: seq<Action>, i: nat)
    requires IsRun(lay, cap, ss, actions) && Sized(lay, cap) && i < |actions|
    ensures var t, t' := History(lay, cap, ss, actions, i), History(lay, cap, ss, actions, i + 1);
            t'.stable == if Label(lay, ss[i], actions[i]).Committed? then t.current else t.stable
  {
    hide Can, Do, LogOk, Label;
    var es := Labels(lay, ss[..i + 2], actions[..i + 1]);
    assert es[..i] == Labels(lay, ss[..i + 1], actions[..i]) && es[i] == Label(lay, ss[i], actions[i]);
  }

  /** The admission invariant holds throughout the runs of the whole machine, whenever it is up. */
  lemma RunAdmission(lay: Layout, cap: nat, ss: seq<State>, actions: seq<Action>)
    requires IsRun(lay, cap, ss, actions) && Sized(lay, cap)
    ensures forall i :: 0 <= i < |ss| && Up(ss[i]) ==> A.Inv(ss[i].ctl, cap, lay.size)
  {
    hide IsRun, A.Inv;
    RunKeeps(lay, cap, ss, actions);
  }
}
