/** filewrite on top of the log: what a file holds after a crash at any moment and a recovery. */
module CrashFiles {
  import opened Blocks
  import opened FileWrite
  import opened Files
  import opened FsEffects
  import opened FsLayout
  import opened LogMachine
  import opened Wal

  /** The log lies before the inodes, as mkfs lays out the disk (mkfs.c:101-103). */
  predicate Placed(lay: Layout, sb: Super) {
    lay.Valid() && sb.Valid() && 0 < sb.size <= lay.blocks && lay.start + lay.size <= sb.inodestart
  }

  // ---- a file system lies in the home blocks ----

  lemma SoundKept(lay: Layout, sb: Super, d: Disk, e: Disk, owner: Owner, inum: nat, nb: nat, addrs: seq<nat>)
    requires Placed(lay, sb) && SameHome(lay, d, e) && FsOk(sb, d, owner, inum, nb, addrs)
    ensures FsOk(sb, e, owner, inum, nb, addrs) && SameInodes(sb, d, e)
    ensures forall x :: sb.inodestart <= x < |d| ==> e[x] == d[x]
  {
    hide FsCore, Used;
    assert forall x :: sb.inodestart <= x < |d| ==> !lay.InLog(x) && e[x] == d[x];
    OwnedAreData(sb, d, owner, inum, nb, addrs);
    CoreKept(sb, d, e, owner, inum, nb, addrs);
    forall b | 0 <= b < sb.size
      ensures Used(sb, e, b) == Used(sb, d, b)
    {
      BBlockInRange(sb, b);
      SameBit(sb, d, e, b);
    }
  }

  lemma HomeHolds(lay: Layout, sb: Super, d: Disk, e: Disk, inum: nat, c: seq<byte>)
    requires Placed(lay, sb) && SameHome(lay, d, e) && DiskHolds(sb, d, inum, c)
    ensures DiskHolds(sb, e, inum, c)
  {
    hide FsOk, ReadInode, FileBytes;
    var i := ReadInode(sb, d, inum);
    var nb, as0: seq<nat> := BlocksOf(i.size), i.addrs;
    var owner: Owner :| FsOk(sb, d, owner, inum, nb, as0);
    SoundKept(lay, sb, d, e, owner, inum, nb, as0);
    InodesSame(sb, d, e, inum);
    SameBytes(sb, d, e, owner, inum, nb, as0, i.size);
  }

  // ---- one process performs the transactions, others have operations open ----

  /** The home blocks before transaction k. */
  ghost function HomeBefore(lay: Layout, j: Job, txns: seq<Txn>, k: nat): (m: map<nat, Block>)
    requires lay.Valid() && k <= |txns| && |Before(j, txns, k)| == lay.blocks
  {
    Home(lay, Before(j, txns, k))
  }

  ghost predicate Sizes(lay: Layout, j: Job, txns: seq<Txn>) {
    lay.Valid() && |j.d0| == lay.blocks && forall k :: 0 <= k < |txns| ==> |txns[k].image| == lay.blocks
  }

  /** Transactions of the process whose end_op has been reached, and how many of them had been when a commit
      last wrote its header. */
  datatype Progress = Progress(committed: nat, ended: nat)

  /** p ends one of n transactions, a header write commits all that ended, and a crash forgets the others. */
  function Advance(lay: Layout, s: State, a: Action, p: Pid, n: nat, g: Progress): (r: Progress) {
    if a == End(p) && g.ended < n then g.(ended := g.ended + 1)
    else if Label(lay, s, a).Committed? then g.(committed := g.ended)
    else if a.Crash? then g.(ended := g.committed)
    else g
  }

  ghost function ProgressAt(lay: Layout, ss: seq<State>, actions: seq<Action>, p: Pid, n: nat, i: nat): (g: Progress)
    requires |ss| == |actions| + 1 && i < |ss|
  {
    if i == 0 then Progress(0, 0)
    else Advance(lay, ss[i - 1], actions[i - 1], p, n, ProgressAt(lay, ss, actions, p, n, i - 1))
  }

  /** What p does in action a, with m of the transactions ended: it writes blocks of transaction m only, and by
      its end_op these hold what the transaction leaves there. Nobody else writes. */
  ghost predicate Follows(lay: Layout, s: State, a: Action, p: Pid, txns: seq<Txn>, m: nat) {
    match a
    case Write(q, b, v) => q == p && m < |txns| && b in txns[m].blocks
    case End(q) =>
      q == p && m < |txns| ==> forall b :: b in txns[m].blocks && b < lay.blocks && !lay.InLog(b) ==>
        b < |s.disk| && b < |txns[m].image| && View(s, b) == txns[m].image[b]
    case _ => true
  }

  ghost predicate Performs(lay: Layout, ss: seq<State>, actions: seq<Action>, p: Pid, txns: seq<Txn>)
    requires |ss| == |actions| + 1
  {
    forall i :: 0 <= i < |actions| ==>
      Follows(lay, ss[i], actions[i], p, txns, ProgressAt(lay, ss, actions, p, |txns|, i).ended)
  }

  /** p is inside an operation. */
  predicate Inside(s: State, p: Pid) { Up(s) && p in s.ctl.ops }

  /** The contents that survive a crash are those after the committed transactions, and the contents seen are those
      after the ended ones, but for the blocks of a transaction that is open. */
  ghost predicate Between(lay: Layout, t: TxDisk, open: bool, j: Job, txns: seq<Txn>, g: Progress)
    requires Sizes(lay, j, txns)
  {
    && g.committed <= g.ended <= |txns| && t.stable == HomeBefore(lay, j, txns, g.committed)
    && t.current.Keys == HomeBefore(lay, j, txns, g.ended).Keys
    && forall b :: b in t.current && !(open && g.ended < |txns| && b in txns[g.ended].blocks) ==>
      t.current[b] == HomeBefore(lay, j, txns, g.ended)[b]
  }

  /** A commit writes its header when no operation is open, whoever began and ended what. */
  lemma CommitsOutside(lay: Layout, cap: nat, s: State, a: Action, p: Pid)
    requires lay.Valid() && Inv(lay, cap, s) && Can(lay, cap, s, a) && Label(lay, s, a).Committed?
    ensures !Inside(s, p) && a.CommitWrite?
  {}

  /** Only p writes inside its operations, and only its end_op or a crash takes it out. */
  lemma OutsideAgain(lay: Layout, cap: nat, s: State, a: Action, p: Pid)
    requires lay.Valid() && Inv(lay, cap, s) && Can(lay, cap, s, a)
    ensures a.End? || a.Write? ==> Inside(s, a.p) && !Label(lay, s, a).Committed?
    ensures Inside(s, p) && !Inside(Do(lay, cap, s, a), p) ==> a == End(p) || a.Crash?
    ensures a.Crash? ==> !Inside(Do(lay, cap, s, a), p)
    ensures a.Write? ==> Inside(Do(lay, cap, s, a), a.p) && a.b < lay.blocks && !lay.InLog(a.b)
  {}

  lemma SeenAt(lay: Layout, s: State, p: Pid, b: nat)
    requires LogOk(lay, s.disk) && Inside(s, p) && b in Abs(lay, s).current
    ensures b < |s.disk| == lay.blocks && !lay.InLog(b) && Abs(lay, s).current[b] == View(s, b)
  {
    hide Recover;
  }

  /** At its end_op a transaction's whole image is seen. */
  lemma EndsWhole(lay: Layout, t: TxDisk, j: Job, txns: seq<Txn>, g: Progress)
    requires Sizes(lay, j, txns) && Between(lay, t, true, j, txns, g) && g.ended < |txns|
    requires Tracked(Before(j, txns, g.ended), txns[g.ended].image, {}, txns[g.ended].blocks)
    requires forall b :: b in t.current && b in txns[g.ended].blocks && b < lay.blocks ==>
      t.current[b] == txns[g.ended].image[b]
    ensures Between(lay, t, false, j, txns, g.(ended := g.ended + 1))
  {}

  /** What each kind of event does, the end of a transaction aside. */
  lemma BetweenEvent(lay: Layout, t: TxDisk, e: Event, open: bool, open': bool, j: Job, txns: seq<Txn>, g: Progress)
    requires Sizes(lay, j, txns) && Between(lay, t, open, j, txns, g)
    ensures g.ended <= |txns|
    ensures e.Tau? && (open ==> open' || g.ended == |txns|) ==> Between(lay, TxStep(t, e), open', j, txns, g)
    ensures e.Wrote? && open' && g.ended < |txns| && e.b in txns[g.ended].blocks && e.b < lay.blocks
            && !lay.InLog(e.b) ==>
      Between(lay, TxStep(t, e), open', j, txns, g)
    ensures e.Committed? && !open ==> Between(lay, TxStep(t, e), open', j, txns, g.(committed := g.ended))
    ensures e.Crashed? ==> Between(lay, TxStep(t, e), open', j, txns, g.(ended := g.committed))
  {}

  lemma Loosely(lay: Layout, t: TxDisk, open: bool, j: Job, txns: seq<Txn>, g: Progress)
    requires Sizes(lay, j, txns) && Between(lay, t, false, j, txns, g)
    ensures Between(lay, t, open, j, txns, g)
  {}

  lemma BetweenStep(lay: Layout, cap: nat, s: State, a: Action, p: Pid, j: Job, txns: seq<Txn>, g: Progress)
    requires Sizes(lay, j, txns) && Inv(lay, cap, s) && Can(lay, cap, s, a) && LogOk(lay, s.disk)
    requires Between(lay, Abs(lay, s), Inside(s, p), j, txns, g) && Follows(lay, s, a, p, txns, g.ended)
    requires forall m :: 0 <= m < |txns| ==> Tracked(Before(j, txns, m), txns[m].image, {}, txns[m].blocks)
    ensures Between(lay, TxStep(Abs(lay, s), Label(lay, s, a)), Inside(Do(lay, cap, s, a), p), j, txns,
                    Advance(lay, s, a, p, |txns|, g))
  {
    hide Inv, Can, Do, Abs, Inside, LogOk, Tracked, Between;
    OutsideAgain(lay, cap, s, a, p);
    BetweenEvent(lay, Abs(lay, s), Label(lay, s, a), Inside(s, p), Inside(Do(lay, cap, s, a), p), j, txns, g);
    if Label(lay, s, a).Committed? { CommitsOutside(lay, cap, s, a, p); }
    if a == End(p) && g.ended < |txns| {
      forall b | b in Abs(lay, s).current && b in txns[g.ended].blocks && b < lay.blocks
        ensures Abs(lay, s).current[b] == txns[g.ended].image[b]
      {
        SeenAt(lay, s, p, b);
      }
      EndsWhole(lay, Abs(lay, s), j, txns, g);
      Loosely(lay, Abs(lay, s), Inside(Do(lay, cap, s, a), p), j, txns, g.(ended := g.ended + 1));
    }
  }

  lemma {:induction false} RunBetween(lay: Layout, cap: nat, ss: seq<State>, actions: seq<Action>, p: Pid, j: Job,
                                      txns: seq<Txn>, i: nat)
    requires Runs(lay, cap, ss, actions, p, j, txns) && i < |ss|
    requires forall m :: 0 <= m < |txns| ==> Tracked(Before(j, txns, m), txns[m].image, {}, txns[m].blocks)
    ensures LogOk(lay, ss[i].disk) && Inv(lay, cap, ss[i])
    ensures Between(lay, Abs(lay, ss[i]), Inside(ss[i], p), j, txns, ProgressAt(lay, ss, actions, p, |txns|, i))
  {
    hide Inv, Can, Do, LogOk, Abs, Between, Follows, Tracked, TxStep, Inside, Advance;
    RunKeeps(lay, cap, ss, actions);
    assert Inv(lay, cap, ss[i]);
    if i == 0 {
      BetweenStart(lay, Abs(lay, ss[0]), Inside(ss[0], p), j, txns);
    } else {
      RunBetween(lay, cap, ss, actions, p, j, txns, i - 1);
      StepAbs(lay, cap, ss[i - 1], actions[i - 1]);
      BetweenStep(lay, cap, ss[i - 1], actions[i - 1], p, j, txns, ProgressAt(lay, ss, actions, p, |txns|, i - 1));
    }
  }

  lemma BetweenStart(lay: Layout, t0: TxDisk, open: bool, j: Job, txns: seq<Txn>)
    requires Sizes(lay, j, txns) && t0 == TxDisk(Home(lay, j.d0), Home(lay, j.d0))
    ensures Between(lay, t0, open, j, txns, Progress(0, 0))
  {}

  // ---- the theorem ----

  /** The bytes of the file after m of the transactions. */
  ghost function After(j: Job, k: nat, m: nat): (c: seq<byte>) { if m == 0 then j.c0 else Part(j, EndOf(m - 1, k)) }

  lemma ImageHolds(sb: Super, inum: nat, j: Job, k: nat, txns: seq<Txn>, m: nat)
    requires TxnsOk(sb, inum, j, k, txns) && DiskHolds(sb, j.d0, inum, j.c0) && m <= |txns|
    ensures DiskHolds(sb, Before(j, txns, m), inum, After(j, k, m))
  {
    hide DiskHolds;
    if m > 0 { assert TxnAt(sb, inum, j, k, txns, m - 1); }
  }

  lemma HomesEqual(lay: Layout, d: Disk, e: Disk)
    requires lay.Valid() && |d| == |e| == lay.blocks && Home(lay, d) == Home(lay, e)
    ensures SameHome(lay, e, d)
  {
    forall b | 0 <= b < |d| && !lay.InLog(b)
      ensures d[b] == e[b]
    {
      assert d[b] == Home(lay, d)[b] && e[b] == Home(lay, e)[b];
    }
  }

  /** The machine runs from the disk that filewrite began on, and process p performs its transactions. */
  ghost predicate Runs(lay: Layout, cap: nat, ss: seq<State>, actions: seq<Action>, p: Pid, j: Job, txns: seq<Txn>) {
    && IsRun(lay, cap, ss, actions) && Sized(lay, cap) && Sizes(lay, j, txns)
    && Abs(lay, ss[0]) == TxDisk(Home(lay, j.d0), Home(lay, j.d0))
    && Performs(lay, ss, actions, p, txns)
  }

  /** Whatever the interleaving, however many operations share a commit, and wherever the power fails, also during
      commits and during recovery, the disk that recovery leaves has a sound file system in which the file holds its
      old bytes with a whole number of chunks of the write spliced in: those that had ended by the last commit. */
  lemma FilewriteSurvives(lay: Layout, cap: nat, ss: seq<State>, actions: seq<Action>, p: Pid, sb: Super, inum: nat,
                          j: Job, k: nat, txns: seq<Txn>, i: nat)
    requires Runs(lay, cap, ss, actions, p, j, txns) && Placed(lay, sb) && i < |ss|
    requires DiskHolds(sb, j.d0, inum, j.c0) && TxnsOk(sb, inum, j, k, txns)
    ensures LogOk(lay, ss[i].disk)
    ensures var g := ProgressAt(lay, ss, actions, p, |txns|, i);
            g.committed <= g.ended && DiskHolds(sb, Recover(lay, ss[i].disk), inum, After(j, k, g.committed))
  {
    hide Can, Do, DiskHolds, Recover, Performs, TxnsOk, Placed, Word, Head, Inv, ProgressAt;
    AllTracked(sb, inum, j, k, txns);
    RunBetween(lay, cap, ss, actions, p, j, txns, i);
    HoldsAfter(lay, sb, ss[i].disk, inum, j, k, txns, ProgressAt(lay, ss, actions, p, |txns|, i).committed);
  }

  lemma HoldsAfter(lay: Layout, sb: Super, d: Disk, inum: nat, j: Job, k: nat, txns: seq<Txn>, m: nat)
    requires Placed(lay, sb) && LogOk(lay, d) && Sizes(lay, j, txns) && m <= |txns|
    requires Home(lay, Recover(lay, d)) == HomeBefore(lay, j, txns, m)
    requires DiskHolds(sb, j.d0, inum, j.c0) && TxnsOk(sb, inum, j, k, txns)
    ensures DiskHolds(sb, Recover(lay, d), inum, After(j, k, m))
  {
    hide DiskHolds, Recover, TxnsOk, Placed, Word, Head;
    ImageHolds(sb, inum, j, k, txns, m);
    HomesEqual(lay, Recover(lay, d), Before(j, txns, m));
    HomeHolds(lay, sb, Before(j, txns, m), Recover(lay, d), inum, After(j, k, m));
  }

  /** Once no operation is open and no commit in progress, every chunk that ended survives any crash. */
  lemma QuietDurable(lay: Layout, cap: nat, ss: seq<State>, actions: seq<Action>, p: Pid, sb: Super, inum: nat,
                     j: Job, k: nat, txns: seq<Txn>, i: nat)
    requires Runs(lay, cap, ss, actions, p, j, txns) && Placed(lay, sb) && i < |ss|
    requires DiskHolds(sb, j.d0, inum, j.c0) && TxnsOk(sb, inum, j, k, txns)
    requires ss[i].phase.Running? && ss[i].ctl.ops == map[]
    ensures LogOk(lay, ss[i].disk)
    ensures DiskHolds(sb, Recover(lay, ss[i].disk), inum,
                      After(j, k, ProgressAt(lay, ss, actions, p, |txns|, i).ended))
  {
    hide Can, Do, DiskHolds, Recover, Performs, TxnsOk, Placed, Word, Head, Inv, ProgressAt, Abs;
    AllTracked(sb, inum, j, k, txns);
    RunBetween(lay, cap, ss, actions, p, j, txns, i);
    var m := ProgressAt(lay, ss, actions, p, |txns|, i).ended;
    QuietStable(lay, cap, ss[i]);
    assert Abs(lay, ss[i]).current == HomeBefore(lay, j, txns, m);
    HoldsAfter(lay, sb, ss[i].disk, inum, j, k, txns, m);
  }

  /** With no operation open and no commit in progress nothing is logged or dirty. */
  lemma QuietStable(lay: Layout, cap: nat, s: State)
    requires Inv(lay, cap, s) && LogOk(lay, s.disk) && s.phase.Running? && s.ctl.ops == map[]
    ensures Home(lay, Recover(lay, s.disk)) == Abs(lay, s).stable == Abs(lay, s).current
  {
    hide Recover;
    LogStillEmpty(lay, cap, s);
    assert s.ctl.lh == [];
    assert forall b :: b in s.cache ==> !s.cache[b].dirty;
  }

  lemma AllTracked(sb: Super, inum: nat, j: Job, k: nat, txns: seq<Txn>)
    requires TxnsOk(sb, inum, j, k, txns)
    ensures forall m :: 0 <= m < |txns| ==> Tracked(Before(j, txns, m), txns[m].image, {}, txns[m].blocks)
  {
    hide Tracked, DiskHolds;
    forall m | 0 <= m < |txns|
      ensures Tracked(Before(j, txns, m), txns[m].image, {}, txns[m].blocks)
    {
      assert TxnAt(sb, inum, j, k, txns, m);
    }
  }
}
