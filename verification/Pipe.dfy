/** pipe.c with sleep and wakeup of proc.c: any number of processes reading, writing and closing,
    interleaved between the atomic steps that the pipe lock and the process-table lock allow. */
module Pipe {
  import opened Common
  import opened Blocks

  const PIPESIZE: nat := 512

  type Pid = nat

  // ---- the ring buffer ----

  /** struct pipe; the counters are 32-bit and wrap. */
  datatype Ring = Ring(data: seq<byte>, nread: word, nwrite: word, readopen: bool, writeopen: bool) {
    predicate Empty() { nread == nwrite }
    predicate Full() { nwrite == (nread + PIPESIZE) % UINT }
    function Put(c: byte): (r: Ring)
      requires |data| == PIPESIZE
    {
      this.(data := data[nwrite % PIPESIZE := c], nwrite := (nwrite + 1) % UINT)
    }
    function Get(): (c: byte)
      requires |data| == PIPESIZE
    {
      data[nread % PIPESIZE]
    }
    function Drop(): (r: Ring) { this.(nread := (nread + 1) % UINT) }
  }

  /** The ring holds the bytes written but not yet read: counters are the stream positions modulo 2^32. */
  ghost predicate Carries(r: Ring, written: seq<byte>, got: seq<byte>) {
    && |r.data| == PIPESIZE
    && r.nread == |got| % UINT && r.nwrite == |written| % UINT
    && got <= written && |written| - |got| <= PIPESIZE
    && forall k :: |got| <= k < |written| ==> r.data[k % PIPESIZE] == written[k]
  }

  lemma Counters(r: Ring, written: seq<byte>, got: seq<byte>)
    requires Carries(r, written, got)
    ensures r.Empty() <==> |written| == |got|
    ensures r.Full() <==> |written| == |got| + PIPESIZE
  {
    var m, n := |got|, |written|;
    assert m == m / UINT * UINT + m % UINT && n == n / UINT * UINT + n % UINT;
    assert (m % UINT + PIPESIZE) % UINT == (m + PIPESIZE) % UINT;
  }

  lemma PutCarries(r: Ring, written: seq<byte>, got: seq<byte>, c: byte)
    requires Carries(r, written, got) && !r.Full()
    ensures Carries(r.Put(c), written + [c], got)
  {
    Counters(r, written, got);
    var n := |written|;
    Wraps(n);
    var w, data' := written + [c], r.data[r.nwrite % PIPESIZE := c];
    forall k | |got| <= k < n + 1 ensures data'[k % PIPESIZE] == w[k] {
      if k < n {
        assert r.data[k % PIPESIZE] == written[k];
        if k % PIPESIZE == n % PIPESIZE { SameSlot(k, n); }
      }
    }
  }

  /** 2^32 is a multiple of the buffer size, so wrapping does not disturb the slots. */
  lemma Wraps(n: nat)
    ensures (n % UINT) % PIPESIZE == n % PIPESIZE && (n % UINT + 1) % UINT == (n + 1) % UINT
  {
    var q := n / UINT;
    assert n == PIPESIZE * (0x80_0000 * q) + n % UINT;
  }

  lemma SameSlot(k: nat, n: nat)
    requires k % PIPESIZE == n % PIPESIZE && k < n
    ensures n - k >= PIPESIZE
  {
    assert k == k / PIPESIZE * PIPESIZE + k % PIPESIZE && n == n / PIPESIZE * PIPESIZE + n % PIPESIZE;
  }

  lemma GetCarries(r: Ring, written: seq<byte>, got: seq<byte>)
    requires Carries(r, written, got) && !r.Empty()
    ensures |got| < |written| && r.Get() == written[|got|] && Carries(r.Drop(), written, got + [r.Get()])
  {
    Counters(r, written, got);
    var m := |got|;
    Wraps(m);
    assert got + [written[m]] <= written;
  }

  // ---- processes ----

  datatype Chan = NRead | NWrite

  /** Where a call continues once it has the pipe lock: pipewrite with i bytes written, or piperead of n bytes. */
  datatype Cont = ContW(buf: seq<byte>, i: nat) | ContR(n: int)

  datatype PC =
    | Idle
    | Want(cont: Cont)                  // acquire(&p->lock), on entry or at the end of sleep
    | WTest(buf: seq<byte>, i: nat, put: bool)  // the loops of pipewrite; put: bytes stored since it has the lock
    | WFullWake(buf: seq<byte>, i: nat) // wakeup(&p->nread) before sleeping
    | WEndWake(n: int)                  // wakeup(&p->nread) before returning n
    | RTest(n: int)                     // the waiting loop of piperead
    | RCopy(n: int, acc: seq<byte>)     // its copying loop
    | REndWake(n: int, acc: seq<byte>)  // wakeup(&p->nwrite) before returning the bytes read
    | WantClose(w: bool)                // pipeclose
    | CloseWake(w: bool)
    | Unlock(ret: int)                  // release(&p->lock) and return
    | Drowsy(chan: Chan, cont: Cont)    // in sleep: acquire(&ptable.lock)
    | Letting(chan: Chan, cont: Cont)   // release(lk)
    | Dozing(chan: Chan, cont: Cont)    // set chan and state, sched
    | Asleep(chan: Chan, cont: Cont)

  /** lock and plock are the holders of the pipe lock and the process-table lock; rfd and wfd say whether
      the ends are still open files; written and got are the byte streams so far, in lock order; stranded
      says that a killed writer left bytes behind that no wakeup has announced. */
  datatype State = State(ring: Ring, lock: Option<Pid>, plock: Option<Pid>, procs: map<Pid, PC>, killed: set<Pid>,
                         rfd: bool, wfd: bool, written: seq<byte>, got: seq<byte>, stranded: bool)

  datatype Action = CallWrite(p: Pid, buf: seq<byte>) | CallRead(p: Pid, n: int)
      | CallClose(p: Pid, w: bool) | Kill(p: Pid) | Run(p: Pid)

  predicate Locked(pc: PC) {
    pc.WTest? || pc.WFullWake? || pc.WEndWake? || pc.RTest? || pc.RCopy? || pc.REndWake? || pc.CloseWake? || pc.Unlock?
    || pc.Drowsy? || pc.Letting?
  }

  predicate PLocked(pc: PC) { pc.Letting? || pc.Dozing? }

  predicate Sleepy(pc: PC) { pc.Drowsy? || pc.Letting? || pc.Dozing? || pc.Asleep? }

  predicate InWrite(pc: PC) {
    pc.WTest? || pc.WFullWake? || pc.WEndWake? || (pc.Want? && pc.cont.ContW?) || (Sleepy(pc) && pc.cont.ContW?)
  }

  predicate InRead(pc: PC) {
    pc.RTest? || pc.RCopy? || pc.REndWake? || (pc.Want? && pc.cont.ContR?) || (Sleepy(pc) && pc.cont.ContR?)
  }

  /** wakeup1: all processes sleeping on chan become runnable. */
  function WakeAll(procs: map<Pid, PC>, chan: Chan): (r: map<Pid, PC>)
    ensures r.Keys == procs.Keys
    ensures forall p ::
      p in procs ==> r[p] == if procs[p].Asleep? && procs[p].chan == chan then Want(procs[p].cont) else procs[p]
  {
    map p | p in procs :: if procs[p].Asleep? && procs[p].chan == chan then Want(procs[p].cont) else procs[p]
  }

  predicate Can(s: State, a: Action) {
    && a.p in s.procs
    && match a
       case CallWrite(p, buf) => s.procs[p].Idle? && p !in s.killed && s.wfd
       case CallRead(p, n) => s.procs[p].Idle? && p !in s.killed && s.rfd
       // an end is closed only when no call on it is in progress
       case CallClose(p, w) =>
         && s.procs[p].Idle? && (if w then s.wfd else s.rfd)
         && forall q :: q in s.procs ==> !(if w then InWrite(s.procs[q]) else InRead(s.procs[q]))
       case Kill(p) => s.plock.None?
       case Run(p) =>
         && |s.ring.data| == PIPESIZE
         && match s.procs[p]
            case Idle => false
            case Want(_) => s.lock.None?
            case WantClose(_) => s.lock.None?
            case WTest(buf, i, _) => i <= |buf|
            case WFullWake(_, _) => s.plock.None?
            case WEndWake(_) => s.plock.None?
            case REndWake(_, _) => s.plock.None?
            case CloseWake(_) => s.plock.None?
            case Drowsy(_, _) => s.plock.None?
            case Asleep(_, _) => false
            case _ => true
  }

  function Do(s: State, a: Action): (t: State)
    requires Can(s, a)
  {
    match a
    case CallWrite(p, buf) => s.(procs := s.procs[p := Want(ContW(buf, 0))])
    case CallRead(p, n) => s.(procs := s.procs[p := Want(ContR(n))])
    case CallClose(p, w) =>
      var t := s.(procs := s.procs[p := WantClose(w)]);
      if w then t.(wfd := false) else t.(rfd := false)
    case Kill(p) =>
      var pc := s.procs[p];
      s.(killed := s.killed + {p}, procs := s.procs[p := if pc.Asleep? then Want(pc.cont) else pc])
    case Run(p) => Step(s, p)
  }

  datatype LockOp = Keep | Take | Drop

  /** What one atomic step of a process does: its next place, its locks, the ring, the bytes moved, a wakeup. */
  datatype Effect = Effect(pc: PC, lock: LockOp, plock: LockOp, ring: Ring, put: seq<byte>,
      take: seq<byte>, wake: Option<Chan>)

  /** A killed writer finds the pipe full and returns -1 with bytes stored since it took the lock (pipe.c:86-89). */
  predicate Leaves(s: State, p: Pid) {
    && p in s.procs && s.procs[p].WTest? && s.procs[p].i < |s.procs[p].buf| && s.procs[p].put
    && s.ring.Full() && p in s.killed
  }

  function Exec(s: State, p: Pid): (e: Effect)
    requires Can(s, Run(p))
  {
    var r := s.ring;
    match s.procs[p]
    case Want(ContW(buf, i)) => Effect(WTest(buf, i, false), Take, Keep, r, [], [], None)
    case Want(ContR(n)) => Effect(RTest(n), Take, Keep, r, [], [], None)
    case WTest(buf, i, put) =>
      if i == |buf| then Effect(WEndWake(|buf|), Keep, Keep, r, [], [], None)
      else if r.Full() && (!r.readopen || p in s.killed) then Effect(Unlock(-1), Keep, Keep, r, [], [], None)
      else if r.Full() then Effect(WFullWake(buf, i), Keep, Keep, r, [], [], None)
      else Effect(WTest(buf, i + 1, true), Keep, Keep, r.Put(buf[i]), [buf[i]], [], None)
    case WFullWake(buf, i) => Effect(Drowsy(NWrite, ContW(buf, i)), Keep, Keep, r, [], [], Some(NRead))
    case WEndWake(n) => Effect(Unlock(n), Keep, Keep, r, [], [], Some(NRead))
    case RTest(n) =>
      if r.Empty() && r.writeopen && p in s.killed then Effect(Unlock(-1), Keep, Keep, r, [], [], None)
      else if r.Empty() && r.writeopen then Effect(Drowsy(NRead, ContR(n)), Keep, Keep, r, [], [], None)
      else Effect(RCopy(n, []), Keep, Keep, r, [], [], None)
    case RCopy(n, acc) =>
      if |acc| >= n || r.Empty() then Effect(REndWake(n, acc), Keep, Keep, r, [], [], None)
      else Effect(RCopy(n, acc + [r.Get()]), Keep, Keep, r.Drop(), [], [r.Get()], None)
    case REndWake(n, acc) => Effect(Unlock(|acc|), Keep, Keep, r, [], [], Some(NWrite))
    case WantClose(w) =>
      Effect(CloseWake(w), Take, Keep, if w then r.(writeopen := false) else r.(readopen := false), [], [], None)
    case CloseWake(w) => Effect(Unlock(0), Keep, Keep, r, [], [], Some(if w then NRead else NWrite))
    case Unlock(_) => Effect(Idle, Drop, Keep, r, [], [], None)
    case Drowsy(chan, c) => Effect(Letting(chan, c), Keep, Take, r, [], [], None)
    case Letting(chan, c) => Effect(Dozing(chan, c), Drop, Keep, r, [], [], None)
    case Dozing(chan, c) => Effect(Asleep(chan, c), Keep, Drop, r, [], [], None)
  }

  function Held(l: Option<Pid>, op: LockOp, p: Pid): (r: Option<Pid>) {
    match op case Keep => l case Take => Some(p) case Drop => None
  }

  function Woken(procs: map<Pid, PC>, wake: Option<Chan>): (r: map<Pid, PC>)
    ensures r.Keys == procs.Keys
  {
    if wake.Some? then WakeAll(procs, wake.value) else procs
  }

  function After(s: State, p: Pid, e: Effect): (t: State) {
    s.(ring := e.ring, lock := Held(s.lock, e.lock, p), plock := Held(s.plock, e.plock, p),
       procs := Woken(s.procs, e.wake)[p := e.pc], written := s.written + e.put, got := s.got + e.take,
       stranded := Leaves(s, p) || (s.stranded && e.wake != Some(NRead) && !e.ring.Empty()))
  }

  function Step(s: State, p: Pid): (t: State)
    requires Can(s, Run(p))
  {
    After(s, p, Exec(s, p))
  }

  // ---- invariant ----

  /** Asleep, or past the point where the pipe lock was let go. */
  predicate Sleeping(pc: PC, chan: Chan) { (pc.Asleep? || pc.Dozing?) && pc.chan == chan }

  /** The process holding the pipe lock will still call wakeup(chan) before releasing it. */
  predicate Obliged(pc: PC, chan: Chan) {
    match chan
    case NRead => (pc.WTest? && pc.put) || pc.WFullWake? || pc.WEndWake? || (pc.CloseWake? && pc.w)
    case NWrite => pc.RCopy? || pc.REndWake? || (pc.CloseWake? && !pc.w)
  }

  ghost predicate HolderObliged(s: State, chan: Chan) {
    s.lock.Some? && s.lock.value in s.procs && Obliged(s.procs[s.lock.value], chan)
  }

  /** What a process waits for on chan has not happened. */
  predicate MustWait(r: Ring, chan: Chan) {
    match chan case NRead => r.Empty() && r.writeopen case NWrite => r.Full() && r.readopen
  }

  ghost predicate LocksOk(s: State) {
    && (forall p :: p in s.procs ==>
        (Locked(s.procs[p]) <==> s.lock == Some(p)) && (PLocked(s.procs[p]) <==> s.plock == Some(p)))
    && (s.lock.Some? ==> s.lock.value in s.procs)
    && (s.plock.Some? ==> s.plock.value in s.procs)
  }

  ghost predicate EndsOk(s: State) {
    && (s.wfd ==> s.ring.writeopen) && (s.rfd ==> s.ring.readopen)
    // an end that is no longer an open file is closed, or about to be
    && (!s.wfd && s.ring.writeopen ==> Closing(s, true)) && (!s.rfd && s.ring.readopen ==> Closing(s, false))
    && forall p :: p in s.procs ==> CallOk(s, s.procs[p])
  }

  ghost predicate Closing(s: State, w: bool) { exists p :: p in s.procs && s.procs[p] == WantClose(w) }

  ghost predicate CallOk(s: State, pc: PC) {
    && (InWrite(pc) ==> s.wfd) && (InRead(pc) ==> s.rfd)
    && (Sleepy(pc) ==> (pc.chan.NRead? <==> pc.cont.ContR?))
    && (pc.Drowsy? || pc.Letting? ==> MustWait(s.ring, pc.chan))
    && (pc.WTest? ==> pc.i <= |pc.buf|) && (pc.WFullWake? ==> pc.i <= |pc.buf| && MustWait(s.ring, NWrite))
    && ((pc.Want? || Sleepy(pc)) && pc.cont.ContW? ==> pc.cont.i <= |pc.cont.buf|)
    && (pc.WantClose? || pc.CloseWake? ==> if pc.w then !s.wfd else !s.rfd)
    && (pc.RCopy? ==> |pc.acc| <= |s.got| && pc.acc == s.got[|s.got| - |pc.acc|..])
  }

  /** Why a process may still be asleep on chan. */
  ghost predicate Excused(s: State, chan: Chan) {
    MustWait(s.ring, chan) || HolderObliged(s, chan) || (chan.NRead? && s.stranded && s.ring.writeopen)
  }

  ghost predicate SleepersOk(s: State) {
    && (forall p, chan :: p in s.procs && Sleeping(s.procs[p], chan) ==> Excused(s, chan))
    && (s.stranded ==> !s.ring.Empty())
  }

  ghost predicate Inv(s: State) {
    Carries(s.ring, s.written, s.got) && LocksOk(s) && EndsOk(s) && SleepersOk(s)
  }

  // ---- every step keeps it ----

  /** Locks are taken when free and dropped by their holder, as the places say. */
  predicate LocksMove(s: State, p: Pid, e: Effect)
    requires p in s.procs
  {
    && (if Locked(s.procs[p]) then e.lock == (if Locked(e.pc) then Keep else Drop)
        else if Locked(e.pc) then e.lock.Take? && s.lock.None? else e.lock.Keep?)
    && (if PLocked(s.procs[p]) then e.plock == (if PLocked(e.pc) then Keep else Drop)
        else if PLocked(e.pc) then e.plock.Take? && s.plock.None? else e.plock.Keep?)
  }

  lemma ExecLocks(s: State, p: Pid)
    requires Can(s, Run(p))
    ensures LocksMove(s, p, Exec(s, p))
  {}

  lemma LocksStep(s: State, p: Pid, e: Effect)
    requires LocksOk(s) && p in s.procs && LocksMove(s, p, e)
    ensures LocksOk(After(s, p, e))
  {
    hide Locked, PLocked;
    var t := After(s, p, e);
    forall q | q in t.procs
      ensures (Locked(t.procs[q]) <==> t.lock == Some(q)) && (PLocked(t.procs[q]) <==> t.plock == Some(q))
    {
      WakeKeepsLocks(s.procs, e.wake, q);
    }
  }

  lemma WakeKeepsLocks(procs: map<Pid, PC>, wake: Option<Chan>, q: Pid)
    requires q in procs
    ensures Locked(Woken(procs, wake)[q]) == Locked(procs[q]) && PLocked(Woken(procs, wake)[q]) == PLocked(procs[q])
  {}

  lemma CarriesStep(s: State, p: Pid)
    requires Carries(s.ring, s.written, s.got) && Can(s, Run(p))
    ensures var t := Step(s, p); Carries(t.ring, t.written, t.got)
  {
    hide Carries;
    assert s.written + [] == s.written && s.got + [] == s.got;
    match s.procs[p]
    case WTest(buf, i, _) =>
      if i < |buf| && !s.ring.Full() { PutCarries(s.ring, s.written, s.got, buf[i]); }
    case RCopy(n, acc) =>
      if |acc| < n && !s.ring.Empty() { GetCarries(s.ring, s.written, s.got); }
    case WantClose(w) => SameCarries(s.ring, Exec(s, p).ring, s.written, s.got);
    case _ =>
  }

  lemma SameCarries(r: Ring, r': Ring, written: seq<byte>, got: seq<byte>)
    requires Carries(r, written, got) && r'.data == r.data && r'.nread == r.nread && r'.nwrite == r.nwrite
    ensures Carries(r', written, got)
  {}

  /** A step that changes the ring or moves bytes holds the pipe lock. */
  lemma ExecOwner(s: State, p: Pid)
    requires Can(s, Run(p))
    ensures var e := Exec(s, p);
            && (e.ring != s.ring || e.take != [] ==> Locked(s.procs[p]) || s.lock.None?)
            && (s.procs[p].WantClose? ==> e.ring.Empty() == s.ring.Empty() && e.ring.Full() == s.ring.Full())
  {}

  lemma CallsStep(s: State, p: Pid)
    requires LocksOk(s) && EndsOk(s) && Can(s, Run(p))
    ensures EndsOk(Step(s, p))
  {
    hide LocksOk, CallOk;
    var e := Exec(s, p);
    var t := Step(s, p);
    assert CallOk(s, s.procs[p]);
    OwnCall(s, p);
    assert e.ring.writeopen == s.ring.writeopen || !s.wfd by { CloseCall(s, p); }
    assert e.ring.readopen == s.ring.readopen || !s.rfd by { CloseCall(s, p); }
    ClosingStep(s, p, true);
    ClosingStep(s, p, false);
    forall q | q in t.procs ensures CallOk(t, t.procs[q]) {
      if q != p {
        assert CallOk(s, s.procs[q]);
        OtherCall(s, p, q, e);
      }
    }
  }

  /** A step opens no end, and closes the one that a close is about. */
  lemma ExecOpen(s: State, p: Pid)
    requires Can(s, Run(p))
    ensures var r := Exec(s, p).ring;
            && (r.writeopen ==> s.ring.writeopen) && (r.readopen ==> s.ring.readopen)
            && (s.procs[p] == WantClose(true) ==> !r.writeopen) && (s.procs[p] == WantClose(false) ==> !r.readopen)
  {}

  /** A close under way goes on, or is done. */
  lemma ClosingStep(s: State, p: Pid, w: bool)
    requires Can(s, Run(p))
    ensures Closing(s, w) ==>
      Closing(Step(s, p), w) || !(if w then Step(s, p).ring.writeopen else Step(s, p).ring.readopen)
    ensures Step(s, p).ring.writeopen ==> s.ring.writeopen
    ensures Step(s, p).ring.readopen ==> s.ring.readopen
  {
    ExecOpen(s, p);
    hide Exec, Can, Leaves;
    if Closing(s, w) {
      var q :| q in s.procs && s.procs[q] == WantClose(w);
      if q != p { assert q in Step(s, p).procs && Step(s, p).procs[q] == WantClose(w); }
    }
  }

  lemma CloseCall(s: State, p: Pid)
    requires Can(s, Run(p)) && CallOk(s, s.procs[p])
    ensures Exec(s, p).ring.writeopen == s.ring.writeopen || !s.wfd
    ensures Exec(s, p).ring.readopen == s.ring.readopen || !s.rfd
  {}

  lemma OwnCall(s: State, p: Pid)
    requires Can(s, Run(p)) && CallOk(s, s.procs[p])
    ensures CallOk(Step(s, p), Exec(s, p).pc)
  {}

  lemma OtherCall(s: State, p: Pid, q: Pid, e: Effect)
    requires LocksOk(s) && Can(s, Run(p)) && e == Exec(s, p) && q in s.procs && q != p && CallOk(s, s.procs[q])
    ensures CallOk(After(s, p, e), After(s, p, e).procs[q])
  {
    ExecOwner(s, p);
    if Locked(s.procs[q]) {
      assert !Locked(s.procs[p]) && !s.lock.None?;
    }
    hide Can, Exec, LocksOk;
    CallKept(s, After(s, p, e), s.procs[q], After(s, p, e).procs[q]);
  }

  /** A call that only others moved on, or that was woken. */
  lemma CallKept(s: State, t: State, pc: PC, pc': PC)
    requires CallOk(s, pc) && (pc' == pc || (pc.Asleep? && pc' == Want(pc.cont)))
    requires t.rfd == s.rfd && t.wfd == s.wfd && (Locked(pc) ==> t.ring == s.ring && t.got == s.got)
    ensures CallOk(t, pc')
  {
    hide MustWait;
  }

  /** A step by another process leaves a sleeper waiting for something that has not happened,
      or leaves a lock holder that will wake it. */
  lemma OneSleeper(s: State, p: Pid, q: Pid, chan: Chan)
    requires LocksOk(s) && EndsOk(s) && Can(s, Run(p)) && q in s.procs && q != p && Sleeping(s.procs[q], chan)
    requires Excused(s, chan) && (s.stranded ==> !s.ring.Empty())
    requires Exec(s, p).wake != Some(chan)
    ensures Excused(Step(s, p), chan)
  {
    assert CallOk(s, s.procs[p]) && CallOk(s, s.procs[q]);
    var e := Exec(s, p);
    if Locked(s.procs[p]) {
      assert s.lock == Some(p);
      HolderMoves(s, p, chan);
    } else if s.lock.None? {
      TakerMoves(s, p, chan);
    } else {
      BystanderMoves(s, p, chan);
    }
  }

  /** The lock holder's step. */
  lemma HolderMoves(s: State, p: Pid, chan: Chan)
    requires Can(s, Run(p)) && CallOk(s, s.procs[p]) && (s.wfd ==> s.ring.writeopen)
    requires s.lock == Some(p) && Locked(s.procs[p]) && Exec(s, p).wake != Some(chan)
    requires (chan.NRead? ==> s.ring.readopen) && (s.stranded ==> !s.ring.Empty())
    requires MustWait(s.ring, chan) || Obliged(s.procs[p], chan) || (chan.NRead? && s.stranded && s.ring.writeopen)
    ensures var e, t := Exec(s, p), Step(s, p);
            || MustWait(e.ring, chan) || (Obliged(e.pc, chan) && e.lock.Keep?)
            || (chan.NRead? && t.stranded && t.ring.writeopen)
  {}

  /** A step by a process without the lock while it is free. */
  lemma TakerMoves(s: State, p: Pid, chan: Chan)
    requires Can(s, Run(p)) && s.lock.None? && !Locked(s.procs[p]) && (s.stranded ==> !s.ring.Empty())
    requires MustWait(s.ring, chan) || (chan.NRead? && s.stranded && s.ring.writeopen)
    ensures var e, t := Exec(s, p), Step(s, p);
            || MustWait(e.ring, chan) || (Obliged(e.pc, chan) && e.lock.Take?)
            || (chan.NRead? && t.stranded && t.ring.writeopen)
  {}

  /** A step by a process without the lock while another holds it. */
  lemma BystanderMoves(s: State, p: Pid, chan: Chan)
    requires LocksOk(s) && Can(s, Run(p)) && s.lock.Some? && !Locked(s.procs[p])
    ensures Exec(s, p).ring == s.ring && Exec(s, p).lock.Keep? && Exec(s, p).wake.None?
    ensures (s.stranded ==> !s.ring.Empty()) ==> Step(s, p).stranded == s.stranded
    ensures HolderObliged(s, chan) ==> HolderObliged(Step(s, p), chan)
  {}

  lemma SleepersStep(s: State, p: Pid)
    requires LocksOk(s) && EndsOk(s) && SleepersOk(s) && Can(s, Run(p))
    ensures SleepersOk(Step(s, p))
  {
    var e, t := Exec(s, p), Step(s, p);
    forall q, chan | q in t.procs && Sleeping(t.procs[q], chan)
      ensures Excused(t, chan)
    {
      if q == p {
        SelfSleeps(s, p, chan);
      } else {
        WakeLeaves(s, p, q, chan);
        OneSleeper(s, p, q, chan);
      }
    }
  }

  /** Nobody on chan is still sleeping after wakeup(chan): the process-table lock rules out half-asleep ones. */
  lemma WakeLeaves(s: State, p: Pid, q: Pid, chan: Chan)
    requires LocksOk(s) && SleepersOk(s) && Can(s, Run(p)) && q in s.procs && q != p
    requires Sleeping(Step(s, p).procs[q], chan)
    ensures Sleeping(s.procs[q], chan) && Exec(s, p).wake != Some(chan)
    ensures Excused(s, chan)
  {
    ExecWake(s, p);
    hide Exec, Can;
  }

  lemma ExecWake(s: State, p: Pid)
    requires Can(s, Run(p))
    ensures Exec(s, p).wake.Some? ==> s.plock.None?
  {}

  /** The last two steps of sleep. */
  lemma SleepMoves(s: State, p: Pid, chan: Chan)
    requires LocksOk(s) && Can(s, Run(p)) && Sleeping(Exec(s, p).pc, chan) && (s.stranded ==> !s.ring.Empty())
    ensures Step(s, p).ring == s.ring && Step(s, p).stranded == s.stranded
    ensures (s.procs[p].Dozing? || s.procs[p].Letting?) && s.procs[p].chan == chan
    ensures s.procs[p].Dozing? ==> Step(s, p).lock == s.lock && s.lock != Some(p)
  {}

  lemma SelfSleeps(s: State, p: Pid, chan: Chan)
    requires LocksOk(s) && EndsOk(s) && SleepersOk(s) && Can(s, Run(p)) && Sleeping(Exec(s, p).pc, chan)
    ensures Excused(Step(s, p), chan)
  {
    hide Exec, Step;
    assert CallOk(s, s.procs[p]);
    SleepMoves(s, p, chan);
    if s.procs[p].Dozing? {
      assert Sleeping(s.procs[p], chan) && Excused(s, chan);
      if s.lock.Some? { BystanderMoves(s, p, chan); }
    }
  }

  lemma StepKeeps(s: State, p: Pid)
    requires Inv(s) && Can(s, Run(p))
    ensures Inv(Step(s, p))
  {
    hide *;
    InvParts(s);
    ExecLocks(s, p);
    MoveLocks(s, p);
    CarriesStep(s, p);
    CallsStep(s, p);
    SleepersStep(s, p);
    InvWhole(Step(s, p));
  }

  lemma MoveLocks(s: State, p: Pid)
    requires LocksOk(s) && Can(s, Run(p))
    ensures LocksOk(Step(s, p))
  {
    ExecLocks(s, p);
    LocksStep(s, p, Exec(s, p));
  }

  lemma InvParts(s: State)
    requires Inv(s)
    ensures Carries(s.ring, s.written, s.got) && LocksOk(s) && EndsOk(s) && SleepersOk(s)
  {}

  lemma InvWhole(s: State)
    requires Carries(s.ring, s.written, s.got) && LocksOk(s) && EndsOk(s) && SleepersOk(s)
    ensures Inv(s)
  {}

  /** Where a call leaves the caller: out of the lock, with its end open. */
  lemma CallKeeps(s: State, a: Action)
    requires Inv(s) && Can(s, a) && !a.Run?
    ensures Inv(Do(s, a))
  {
    hide *;
    InvParts(s);
    CallEnds(s, a);
    CallSleepers(s, a);
    CallRest(s, a);
    InvWhole(Do(s, a));
  }

  lemma CallRest(s: State, a: Action)
    requires LocksOk(s) && Can(s, a) && !a.Run?
    ensures var t := Do(s, a); t.ring == s.ring && t.written == s.written && t.got == s.got && LocksOk(t)
  {
    var t := Do(s, a);
    assert Locked(t.procs[a.p]) == Locked(s.procs[a.p]) && PLocked(t.procs[a.p]) == PLocked(s.procs[a.p]);
    hide Can, Locked, PLocked;
  }

  lemma CallEnds(s: State, a: Action)
    requires EndsOk(s) && Can(s, a) && !a.Run?
    ensures EndsOk(Do(s, a))
  {
    hide MustWait;
    var t := Do(s, a);
    forall q | q in t.procs ensures CallOk(t, t.procs[q]) {
      assert CallOk(s, s.procs[q]);
    }
    ClosingCall(s, a, true);
    ClosingCall(s, a, false);
  }

  lemma ClosingCall(s: State, a: Action, w: bool)
    requires Can(s, a) && !a.Run?
    ensures Closing(s, w) || (a.CallClose? && a.w == w) ==> Closing(Do(s, a), w)
  {
    var t := Do(s, a);
    if a.CallClose? && a.w == w {
      assert t.procs[a.p] == WantClose(w);
    } else if Closing(s, w) {
      var q :| q in s.procs && s.procs[q] == WantClose(w);
      assert t.procs[q] == WantClose(w);
    }
  }

  lemma CallSleepers(s: State, a: Action)
    requires LocksOk(s) && SleepersOk(s) && Can(s, a) && !a.Run?
    ensures SleepersOk(Do(s, a))
  {
    var t := Do(s, a);
    assert !Locked(s.procs[a.p]) || t.procs == s.procs;
    if s.lock.Some? { assert t.procs[s.lock.value] == s.procs[s.lock.value]; }
    forall q, chan | q in t.procs && Sleeping(t.procs[q], chan) ensures Excused(t, chan) {
      assert Sleeping(s.procs[q], chan);
      assert Excused(s, chan);
      assert HolderObliged(s, chan) ==> HolderObliged(t, chan);
      assert MustWait(s.ring, chan) ==> MustWait(t.ring, chan);
    }
  }

  // ---- runs ----

  /** A fresh pipe (pipealloc), with any set of processes. */
  ghost predicate Init(s: State) {
    && |s.ring.data| == PIPESIZE && s.ring.nread == s.ring.nwrite == 0 && s.ring.readopen && s.ring.writeopen
    && s.lock.None? && s.plock.None? && s.rfd && s.wfd && s.written == s.got == [] && s.killed == {}
    && !s.stranded
    && forall p :: p in s.procs ==> s.procs[p].Idle?
  }

  ghost predicate IsRun(ss: seq<State>, actions: seq<Action>) {
    && |ss| == |actions| + 1 && Init(ss[0])
    && forall i :: 0 <= i < |actions| ==> Can(ss[i], actions[i]) && ss[i + 1] == Do(ss[i], actions[i])
  }

  lemma ActionKeeps(s: State, a: Action)
    requires Inv(s) && Can(s, a)
    ensures Inv(Do(s, a))
  {
    hide Inv, Can;
    if a.Run? { StepKeeps(s, a.p); } else { CallKeeps(s, a); }
  }

  lemma InitInv(s: State)
    requires Init(s)
    ensures Inv(s)
  {}

  lemma {:induction false} RunKeeps(ss: seq<State>, actions: seq<Action>)
    requires IsRun(ss, actions)
    ensures forall i :: 0 <= i < |ss| ==> Inv(ss[i])
    decreases |actions|
  {
    hide Inv, Can, Do, Init;
    if actions == [] {
      InitInv(ss[0]);
    } else {
      var n := |actions| - 1;
      RunKeeps(ss[..n + 1], actions[..n]);
      assert Inv(ss[..n + 1][n]);
      ActionKeeps(ss[n], actions[n]);
    }
  }

  /** The step announces bytes to the readers. */
  predicate Announces(s: State, a: Action) { a.Run? && Can(s, a) && Exec(s, a.p).wake == Some(NRead) }

  /** At some earlier step a killed writer left after storing bytes; since then the pipe was never empty and
      nobody called wakeup(&p->nread). */
  ghost predicate LeftBehind(ss: seq<State>, actions: seq<Action>, i: nat)
    requires |ss| == |actions| + 1 && i < |ss|
  {
    exists h :: 0 <= h < i && LeftAt(ss, actions, h, i)
  }

  ghost predicate LeftAt(ss: seq<State>, actions: seq<Action>, h: nat, i: nat)
    requires |ss| == |actions| + 1 && h < i < |ss|
  {
    && actions[h].Run? && Leaves(ss[h], actions[h].p)
    && (forall k :: h < k <= i ==> !ss[k].ring.Empty())
    && forall k :: h < k < i ==> !Announces(ss[k], actions[k])
  }

  lemma StrandedStep(s: State, a: Action)
    requires Inv(s) && Can(s, a)
    ensures Do(s, a).stranded <==>
      (a.Run? && Leaves(s, a.p)) || (s.stranded && !Announces(s, a) && !Do(s, a).ring.Empty())
    ensures a.Run? && Leaves(s, a.p) ==> !Do(s, a).ring.Empty()
  {
    if a.Run? && Leaves(s, a.p) { Counters(s.ring, s.written, s.got); }
  }

  lemma {:induction false} StrandedMeans(ss: seq<State>, actions: seq<Action>, i: nat)
    requires IsRun(ss, actions) && i < |ss|
    ensures ss[i].stranded <==> LeftBehind(ss, actions, i)
  {
    hide Inv, Can, Do, Leaves, Announces, Ring.Empty;
    if i > 0 {
      RunKeeps(ss, actions);
      assert Inv(ss[i - 1]);
      StrandedMeans(ss, actions, i - 1);
      StrandedStep(ss[i - 1], actions[i - 1]);
      if ss[i].stranded {
        if actions[i - 1].Run? && Leaves(ss[i - 1], actions[i - 1].p) {
          assert LeftAt(ss, actions, i - 1, i);
        } else {
          var h :| 0 <= h < i - 1 && LeftAt(ss, actions, h, i - 1);
          assert LeftAt(ss, actions, h, i);
        }
      }
      if LeftBehind(ss, actions, i) {
        var h :| 0 <= h < i && LeftAt(ss, actions, h, i);
        if h < i - 1 { assert LeftAt(ss, actions, h, i - 1); }
      }
    }
  }

  /** When wakeups are lost: whenever the pipe lock is free, whoever sleeps on nwrite faces a full pipe that can still
      be read, and whoever sleeps on nread a pipe that can still be written and that is empty, unless a killed writer
      left bytes behind and nobody has announced them or emptied the pipe since; then it is not. */
  lemma LostWakeupExactly(ss: seq<State>, actions: seq<Action>, i: nat, p: Pid)
    requires IsRun(ss, actions) && i < |ss| && ss[i].lock.None? && p in ss[i].procs && ss[i].procs[p].Asleep?
    ensures match ss[i].procs[p].chan
            case NRead => ss[i].ring.writeopen && (|ss[i].written| > |ss[i].got| <==> LeftBehind(ss, actions, i))
            case NWrite => |ss[i].written| == |ss[i].got| + PIPESIZE && ss[i].ring.readopen
  {
    hide IsRun, LeftBehind;
    RunKeeps(ss, actions);
    StrandedMeans(ss, actions, i);
    var s := ss[i];
    var chan := s.procs[p].chan;
    assert Inv(s) && Sleeping(s.procs[p], chan);
    assert Excused(s, chan);
    Counters(s.ring, s.written, s.got);
  }

  /** No lost wakeup in a run without kill: a process asleep while the pipe lock is free has nothing to do yet. */
  lemma NoLostWakeup(ss: seq<State>, actions: seq<Action>, i: nat, p: Pid)
    requires IsRun(ss, actions) && i < |ss| && ss[i].lock.None? && p in ss[i].procs && ss[i].procs[p].Asleep?
    requires forall h :: 0 <= h < i ==> !actions[h].Kill?
    ensures match ss[i].procs[p].chan
            case NRead => |ss[i].written| == |ss[i].got| && ss[i].ring.writeopen
            case NWrite => |ss[i].written| == |ss[i].got| + PIPESIZE && ss[i].ring.readopen
  {
    hide Can, Do, Inv, Leaves, Announces, Init;
    LostWakeupExactly(ss, actions, i, p);
    if LeftBehind(ss, actions, i) {
      var h :| 0 <= h < i && LeftAt(ss, actions, h, i);
      NobodyKilled(ss, actions, h);
      assert actions[h].p in ss[h].killed by { LeaverKilled(ss[h], actions[h].p); }
      assert false;
    }
    RunKeeps(ss, actions);
    GotWithin(ss[i]);
  }

  lemma GotWithin(s: State)
    requires Inv(s)
    ensures |s.got| <= |s.written|
  {}

  lemma LeaverKilled(s: State, p: Pid)
    requires Leaves(s, p)
    ensures p in s.killed
  {}

  lemma {:induction false} NobodyKilled(ss: seq<State>, actions: seq<Action>, i: nat)
    requires IsRun(ss, actions) && i < |ss| && forall h :: 0 <= h < i ==> !actions[h].Kill?
    ensures ss[i].killed == {}
  {
    hide Can, Inv, Exec;
    if i > 0 {
      NobodyKilled(ss, actions, i - 1);
      KilledSame(ss[i - 1], actions[i - 1]);
    }
  }

  lemma KilledSame(s: State, a: Action)
    requires Can(s, a) && !a.Kill?
    ensures Do(s, a).killed == s.killed
  {}

  // ---- what a call has done ----

  /** The bytes that steps from c up to i of process p put into the pipe, and those they took out. */
  ghost function PutBy(ss: seq<State>, actions: seq<Action>, p: Pid, c: nat, i: nat): (r: seq<byte>)
    requires |ss| == |actions| + 1 && c <= i < |ss|
  {
    if i == c then [] else PutBy(ss, actions, p, c, i - 1) + if Steps(ss[i - 1], actions[i - 1], p)
      then Exec(ss[i - 1], p).put else []
  }

  ghost function TookBy(ss: seq<State>, actions: seq<Action>, p: Pid, c: nat, i: nat): (r: seq<byte>)
    requires |ss| == |actions| + 1 && c <= i < |ss|
  {
    if i == c then [] else TookBy(ss, actions, p, c, i - 1) + if Steps(ss[i - 1], actions[i - 1], p)
      then Exec(ss[i - 1], p).take else []
  }

  predicate Steps(s: State, a: Action, p: Pid)
    ensures Steps(s, a, p) ==> Can(s, Run(p))
  {
    a == Run(p) && Can(s, a)
  }

  /** A write of buf with the bytes put so far: at place i exactly the first i; on return of the length all of them,
      and on return of -1 fewer, with the pipe full and the caller killed or no reader left. */
  predicate WriteAt(s: State, p: Pid, pc: PC, buf: seq<byte>, put: seq<byte>) {
    match pc
    case WTest(b, i, _) => b == buf && i <= |buf| && put == buf[..i]
    case WFullWake(b, i) => b == buf && i <= |buf| && put == buf[..i]
    case WEndWake(n) => n == |buf| && put == buf
    case Unlock(r) => if r == -1 then put < buf && s.ring.Full() && (!s.ring.readopen || p in s.killed)
      else r == |buf| && put == buf
    case Want(cont) => WaitsAt(cont, buf, put)
    case Drowsy(_, cont) => WaitsAt(cont, buf, put)
    case Letting(_, cont) => WaitsAt(cont, buf, put)
    case Dozing(_, cont) => WaitsAt(cont, buf, put)
    case Asleep(_, cont) => WaitsAt(cont, buf, put)
    case _ => false
  }

  predicate WaitsAt(cont: Cont, buf: seq<byte>, put: seq<byte>) {
    cont.ContW? && cont.buf == buf && cont.i <= |buf| && put == buf[..cont.i]
  }

  /** A read of n bytes with the bytes taken so far: none while it waits; on return of their number there are n of
      them (none if n is negative), or the pipe is empty, and with none of them its write end is closed; on return
      of -1 there are none, and the caller was killed while it would have waited. */
  predicate ReadAt(s: State, p: Pid, pc: PC, n: int, took: seq<byte>) {
    match pc
    case RTest(m) => m == n && took == []
    case RCopy(m, acc) =>
      m == n && took == acc && (|acc| <= n || acc == []) && (acc == [] && s.ring.Empty() ==> !s.ring.writeopen)
    case REndWake(m, acc) => m == n && took == acc && Enough(s, n, took)
    case Unlock(r) => if r == -1 then took == [] && s.ring.Empty() && s.ring.writeopen && p in s.killed
      else r == |took| && Enough(s, n, took)
    case Want(cont) => cont == ContR(n) && took == []
    case Drowsy(_, cont) => cont == ContR(n) && took == []
    case Letting(_, cont) => cont == ContR(n) && took == []
    case Dozing(_, cont) => cont == ContR(n) && took == []
    case Asleep(_, cont) => cont == ContR(n) && took == []
    case _ => false
  }

  predicate Enough(s: State, n: int, took: seq<byte>) {
    if |took| < n then s.ring.Empty() && (took == [] ==> !s.ring.writeopen) else took == [] || |took| == n
  }

  /** The process's own step. */
  lemma WriteSteps(s: State, p: Pid, buf: seq<byte>, put: seq<byte>)
    requires Can(s, Run(p)) && WriteAt(s, p, s.procs[p], buf, put)
    ensures Exec(s, p).pc.Idle? || WriteAt(Step(s, p), p, Exec(s, p).pc, buf, put + Exec(s, p).put)
  {
    assert put + [] == put;
    match s.procs[p]
    case WTest(b, i, _) => if i < |b| { assert buf[..i] + [buf[i]] == buf[..i + 1]; } else { assert buf[..i] == buf; }
    case _ =>
  }

  lemma ReadSteps(s: State, p: Pid, n: int, took: seq<byte>)
    requires Can(s, Run(p)) && ReadAt(s, p, s.procs[p], n, took)
    ensures Exec(s, p).pc.Idle? || ReadAt(Step(s, p), p, Exec(s, p).pc, n, took + Exec(s, p).take)
  {
    assert took + [] == took;
  }

  /** Another process's step, a call or a kill: at most it wakes p; and while p has the lock the pipe stays as it is. */
  lemma OthersStep(s: State, a: Action, p: Pid)
    requires Inv(s) && Can(s, a) && p in s.procs && a != Run(p) && !s.procs[p].Idle?
    ensures var t := Do(s, a);
            && p in t.procs && s.killed <= t.killed
            && (t.procs[p] == s.procs[p] || (s.procs[p].Asleep? && t.procs[p] == Want(s.procs[p].cont)))
            && (Locked(s.procs[p]) ==> t.ring == s.ring)
  {
    hide Carries, EndsOk, SleepersOk;
    if a.Run? {
      ExecOwner(s, a.p);
      hide Exec, Can;
      if Locked(s.procs[p]) { assert s.lock == Some(p); }
    }
  }

  /** Process p has been in the call since step c. */
  ghost predicate InCall(ss: seq<State>, actions: seq<Action>, p: Pid, c: nat, i: nat) {
    && IsRun(ss, actions) && c < i < |ss| && forall k :: c < k <= i ==> p in ss[k].procs && !ss[k].procs[p].Idle?
  }

  /** A write in progress has put exactly the bytes before its place, in order, into the pipe; one that returns the
      length has put all, one that returns -1 has put a part. */
  lemma {:induction false} WritesInOrder(ss: seq<State>, actions: seq<Action>, p: Pid, buf: seq<byte>, c: nat, i: nat)
    requires InCall(ss, actions, p, c, i) && actions[c] == CallWrite(p, buf)
    ensures WriteAt(ss[i], p, ss[i].procs[p], buf, PutBy(ss, actions, p, c, i))
    decreases i
  {
    hide Inv, Can, Do, Exec, Step, WriteAt;
    if i == c + 1 {
      CallStarts(ss[c], actions[c]);
      assert PutBy(ss, actions, p, c, c) == [] && !Steps(ss[c], actions[c], p);
      assert PutBy(ss, actions, p, c, i) == [];
    } else {
      WritesInOrder(ss, actions, p, buf, c, i - 1);
      RunKeeps(ss, actions);
      var s, a, put := ss[i - 1], actions[i - 1], PutBy(ss, actions, p, c, i - 1);
      assert Inv(s) && ss[i] == Do(s, a) && Can(s, a);
      if a == Run(p) {
        WriteSteps(s, p, buf, put);
        OwnPlace(s, p);
      } else {
        OthersStep(s, a, p);
        WriteWaits(s, ss[i], p, buf, put);
        assert put + [] == put;
      }
    }
  }

  /** A read in progress has taken what it has collected; one that returns has as many bytes as asked for, or has
      emptied the pipe. */
  lemma {:induction false} ReadsInOrder(ss: seq<State>, actions: seq<Action>, p: Pid, n: int, c: nat, i: nat)
    requires InCall(ss, actions, p, c, i) && actions[c] == CallRead(p, n)
    ensures ReadAt(ss[i], p, ss[i].procs[p], n, TookBy(ss, actions, p, c, i))
    decreases i
  {
    hide Inv, Can, Do, Exec, Step, ReadAt;
    if i == c + 1 {
      CallStarts(ss[c], actions[c]);
      assert TookBy(ss, actions, p, c, c) == [] && !Steps(ss[c], actions[c], p);
      assert TookBy(ss, actions, p, c, i) == [];
    } else {
      ReadsInOrder(ss, actions, p, n, c, i - 1);
      RunKeeps(ss, actions);
      var s, a, took := ss[i - 1], actions[i - 1], TookBy(ss, actions, p, c, i - 1);
      assert Inv(s) && ss[i] == Do(s, a) && Can(s, a);
      if a == Run(p) {
        ReadSteps(s, p, n, took);
        OwnPlace(s, p);
      } else {
        OthersStep(s, a, p);
        ReadWaits(s, ss[i], p, n, took);
        assert took + [] == took;
      }
    }
  }

  lemma CallStarts(s: State, a: Action)
    requires Can(s, a)
    ensures a.CallWrite? ==> WriteAt(Do(s, a), a.p, Do(s, a).procs[a.p], a.buf, [])
    ensures a.CallRead? ==> ReadAt(Do(s, a), a.p, Do(s, a).procs[a.p], a.n, [])
  {}

  lemma OwnPlace(s: State, p: Pid)
    requires Can(s, Run(p))
    ensures Do(s, Run(p)) == Step(s, p) && p in Step(s, p).procs && Step(s, p).procs[p] == Exec(s, p).pc
  {}

  lemma WriteWaits(s: State, t: State, p: Pid, buf: seq<byte>, put: seq<byte>)
    requires p in s.procs && p in t.procs && WriteAt(s, p, s.procs[p], buf, put) && s.killed <= t.killed
    requires t.procs[p] == s.procs[p] || (s.procs[p].Asleep? && t.procs[p] == Want(s.procs[p].cont))
    requires Locked(s.procs[p]) ==> t.ring == s.ring
    ensures WriteAt(t, p, t.procs[p], buf, put)
  {}

  lemma ReadWaits(s: State, t: State, p: Pid, n: int, took: seq<byte>)
    requires p in s.procs && p in t.procs && ReadAt(s, p, s.procs[p], n, took) && s.killed <= t.killed
    requires t.procs[p] == s.procs[p] || (s.procs[p].Asleep? && t.procs[p] == Want(s.procs[p].cont))
    requires Locked(s.procs[p]) ==> t.ring == s.ring
    ensures ReadAt(t, p, t.procs[p], n, took)
  {}

  // ---- progress ----

  /** Whoever holds the process-table lock, or else the pipe lock, can go on; with both free so can everyone who is in
      a call and not asleep. */
  lemma HoldersGoOn(s: State, p: Pid)
    requires Inv(s) && p in s.procs && !s.procs[p].Idle? && !s.procs[p].Asleep?
    requires s.plock == Some(p) || (s.plock.None? && (s.lock.None? || s.lock == Some(p)))
    ensures Can(s, Run(p))
  {
    assert CallOk(s, s.procs[p]);
    hide CallOk;
    assert Locked(s.procs[p]) <==> s.lock == Some(p);
    assert PLocked(s.procs[p]) <==> s.plock == Some(p);
  }

  /** No deadlock: in every reachable state in which some process is in a call and not asleep, some process can step. */
  lemma NoDeadlock(ss: seq<State>, actions: seq<Action>, i: nat, p: Pid) returns (q: Pid)
    requires IsRun(ss, actions) && i < |ss| && p in ss[i].procs && !ss[i].procs[p].Idle? && !ss[i].procs[p].Asleep?
    ensures q in ss[i].procs && Can(ss[i], Run(q))
  {
    hide IsRun, Can, Carries, EndsOk, SleepersOk;
    RunKeeps(ss, actions);
    var s := ss[i];
    assert Inv(s);
    q := if s.plock.Some? then s.plock.value else if s.lock.Some? then s.lock.value else p;
    assert s.plock.Some? ==> PLocked(s.procs[s.plock.value]);
    assert s.lock.Some? ==> Locked(s.procs[s.lock.value]);
    HoldersGoOn(s, q);
  }

  // ---- when the pipe is freed ----

  predicate Closes(pc: PC) { pc.WantClose? || pc.CloseWake? }

  predicate EndOpen(r: Ring, w: bool) { if w then r.writeopen else r.readopen }

  /** A process that closes an end finds it open, and leaves it closed. */
  predicate CloserOk(s: State, pc: PC) {
    Closes(pc) ==> (if pc.w then !s.wfd else !s.rfd) && (pc.WantClose? <==> EndOpen(s.ring, pc.w))
  }

  ghost predicate ClosersOk(s: State) {
    && (forall p :: p in s.procs ==> CloserOk(s, s.procs[p]))
    && forall p, q :: p in s.procs && q in s.procs && SameEnd(s.procs[p], s.procs[q]) ==> p == q
  }

  predicate SameEnd(x: PC, y: PC) { Closes(x) && Closes(y) && x.w == y.w }

  /** Process p, still holding the lock, finds both ends closed: it frees the pipe (pipe.c:70-72). */
  predicate Frees(s: State, p: Pid) {
    p in s.procs && s.procs[p].CloseWake? && !s.ring.readopen && !s.ring.writeopen
  }

  /** Nobody uses the pipe but p, which is about to leave it. */
  ghost predicate Quiet(s: State, p: Pid) {
    && !s.wfd && !s.rfd && p in s.procs && (s.procs[p].Unlock? || s.procs[p].Idle?)
    && forall q :: q in s.procs && q != p ==> s.procs[q].Idle?
  }

  /** What a step has to do with closing. */
  lemma ExecCloses(s: State, p: Pid)
    requires Can(s, Run(p)) && CloserOk(s, s.procs[p])
    ensures CloserOk(Step(s, p), Exec(s, p).pc)
    ensures Closes(Exec(s, p).pc) ==> SameEnd(Exec(s, p).pc, s.procs[p])
    ensures forall w :: EndOpen(Exec(s, p).ring, w) != EndOpen(s.ring, w) ==> s.procs[p] == WantClose(w)
  {}

  lemma ClosersStep(s: State, p: Pid)
    requires ClosersOk(s) && Can(s, Run(p))
    ensures ClosersOk(Step(s, p))
  {
    ExecCloses(s, p);
    hide Exec, Can, Leaves;
    var t := Step(s, p);
    forall q | q in t.procs ensures CloserOk(t, t.procs[q]) {
      if q != p && Closes(t.procs[q]) {
        assert t.procs[q] == s.procs[q] && CloserOk(s, s.procs[q]);
        assert !SameEnd(s.procs[p], s.procs[q]);
      }
    }
    forall q, r | q in t.procs && r in t.procs && SameEnd(t.procs[q], t.procs[r]) ensures q == r {
      assert SameEnd(s.procs[q], s.procs[r]);
    }
  }

  lemma ClosersCall(s: State, a: Action)
    requires ClosersOk(s) && EndsOk(s) && Can(s, a) && !a.Run?
    ensures ClosersOk(Do(s, a))
  {
    hide CallOk, MustWait;
    var t := Do(s, a);
    forall q | q in t.procs ensures CloserOk(t, t.procs[q]) {
      assert CloserOk(s, s.procs[q]);
    }
    forall q, r | q in t.procs && r in t.procs && SameEnd(t.procs[q], t.procs[r]) ensures q == r {
      assert CloserOk(s, s.procs[q]) && CloserOk(s, s.procs[r]);
      assert !a.CallClose? ==> SameEnd(s.procs[q], s.procs[r]);
    }
  }

  lemma {:induction false} RunCloses(ss: seq<State>, actions: seq<Action>, i: nat)
    requires IsRun(ss, actions) && i < |ss|
    ensures ClosersOk(ss[i])
  {
    hide Can, Do, Inv, ClosersOk;
    if i == 0 {
      assert ClosersOk(ss[0]) by { NobodyCloses(ss[0]); }
    } else {
      RunCloses(ss, actions, i - 1);
      RunKeeps(ss, actions);
      assert Inv(ss[i - 1]) && Can(ss[i - 1], actions[i - 1]) && ss[i] == Do(ss[i - 1], actions[i - 1]);
      CloserAction(ss[i - 1], actions[i - 1]);
    }
  }

  lemma NobodyCloses(s: State)
    requires Init(s)
    ensures ClosersOk(s)
  {}

  lemma CloserAction(s: State, a: Action)
    requires Inv(s) && ClosersOk(s) && Can(s, a)
    ensures ClosersOk(Do(s, a))
  {
    hide Inv, Can, ClosersOk;
    InvParts(s);
    if a.Run? { ClosersStep(s, a.p); } else { ClosersCall(s, a); }
  }

  /** When the pipe is freed nobody else is in a call on it. */
  lemma FreedQuiet(s: State, p: Pid)
    requires Inv(s) && ClosersOk(s) && Frees(s, p) && Can(s, Run(p))
    ensures Quiet(Do(s, Run(p)), p)
  {
    hide Carries, SleepersOk, MustWait;
    forall q | q in s.procs && q != p ensures s.procs[q].Idle? {
      assert CallOk(s, s.procs[q]) && CloserOk(s, s.procs[q]) && CloserOk(s, s.procs[p]);
      assert Locked(s.procs[p]) && s.lock == Some(p);
      assert !Locked(s.procs[q]);
    }
    assert CallOk(s, s.procs[p]);
  }

  lemma QuietStays(s: State, a: Action, p: Pid)
    requires Quiet(s, p) && Can(s, a)
    ensures Quiet(Do(s, a), p) && !(a.Run? && Frees(s, a.p))
  {}

  /** Freed once, and not used again: after the step that frees the pipe no process is in a call on it, none can start
      one, and none frees it again. */
  lemma {:induction false} FreedOnce(ss: seq<State>, actions: seq<Action>, p: Pid, c: nat, i: nat)
    requires IsRun(ss, actions) && c < i < |ss| && actions[c] == Run(p) && Frees(ss[c], p)
    ensures Quiet(ss[i], p)
    ensures i < |actions| ==> !(actions[i].Run? && Frees(ss[i], actions[i].p))
    decreases i
  {
    hide Can, Do, Inv, ClosersOk, Frees, Quiet, Init;
    if i == c + 1 {
      RunKeeps(ss, actions);
      RunCloses(ss, actions, c);
      FreedQuiet(ss[c], p);
    } else {
      FreedOnce(ss, actions, p, c, i - 1);
      QuietStays(ss[i - 1], actions[i - 1], p);
    }
    if i < |actions| { QuietStays(ss[i], actions[i], p); }
  }

  /** And it is freed: once both ends are closed and whoever closed them has left, some step has freed the pipe. */
  lemma {:induction false} FreedAtAll(ss: seq<State>, actions: seq<Action>, i: nat) returns (c: nat)
    requires IsRun(ss, actions) && i < |ss| && !ss[i].ring.readopen && !ss[i].ring.writeopen
    requires forall p :: p in ss[i].procs ==> !ss[i].procs[p].CloseWake?
    ensures c < i && actions[c].Run? && Frees(ss[c], actions[c].p)
  {
    hide Inv;
    var s, a := ss[i - 1], actions[i - 1];
    assert Can(s, a) && ss[i] == Do(s, a);
    if a.Run? && Frees(s, a.p) {
      c := i - 1;
    } else {
      StillClosed(s, a);
      c := FreedAtAll(ss, actions, i - 1);
    }
  }

  lemma StillClosed(s: State, a: Action)
    requires Can(s, a) && !Do(s, a).ring.readopen && !Do(s, a).ring.writeopen && !(a.Run? && Frees(s, a.p))
    requires forall p :: p in Do(s, a).procs ==> !Do(s, a).procs[p].CloseWake?
    ensures !s.ring.readopen && !s.ring.writeopen && forall p :: p in s.procs ==> !s.procs[p].CloseWake?
  {
    var t := Do(s, a);
    forall p | p in s.procs ensures !s.procs[p].CloseWake? {
      assert !t.procs[p].CloseWake?;
    }
    if a.Run? { assert !t.procs[a.p].CloseWake?; }
  }

  // ---- kill ----

  /** Asleep, or past the last test before sleeping. */
  predicate Sleeps(pc: PC) { pc.WFullWake? || Sleepy(pc) }

  /** A killed process that is not on its way to sleep does not go there: both loops test for it before they sleep. */
  lemma KilledStays(s: State, a: Action, p: Pid)
    requires Can(s, a) && p in s.procs && p in s.killed && !Sleeps(s.procs[p])
    ensures p in Do(s, a).procs && p in Do(s, a).killed && !Sleeps(Do(s, a).procs[p])
  {}

  lemma KillWakes(s: State, p: Pid)
    requires Inv(s) && Can(s, Kill(p)) && !s.procs[p].Drowsy? && !s.procs[p].WFullWake?
    ensures p in Do(s, Kill(p)).procs && p in Do(s, Kill(p)).killed && !Sleeps(Do(s, Kill(p)).procs[p])
  {
    hide Carries, EndsOk, SleepersOk;
  }

  /** A process that is killed never sleeps on the pipe again, also if it was asleep, unless the kill comes between
      its last test and its sleep. */
  lemma {:induction false} KilledWakes(ss: seq<State>, actions: seq<Action>, p: Pid, c: nat, i: nat)
    requires IsRun(ss, actions) && c < i < |ss| && actions[c] == Kill(p)
    requires p in ss[c].procs && !ss[c].procs[p].Drowsy? && !ss[c].procs[p].WFullWake?
    ensures p in ss[i].procs && p in ss[i].killed && !Sleeps(ss[i].procs[p])
    decreases i
  {
    hide Can, Do, Inv, Init, Sleeps;
    if i == c + 1 {
      RunKeeps(ss, actions);
      KillWakes(ss[c], p);
    } else {
      KilledWakes(ss, actions, p, c, i - 1);
      KilledStays(ss[i - 1], actions[i - 1], p);
    }
  }

  // ---- a run that loses a wakeup ----

  lemma Extend(ss: seq<State>, actions: seq<Action>, a: Action) returns (ss': seq<State>, actions': seq<Action>)
    requires IsRun(ss, actions) && Can(ss[|actions|], a)
    ensures IsRun(ss', actions') && |actions'| == |actions| + 1 && ss'[|actions'|] == Do(ss[|actions|], a)
    ensures |ss'| == |ss| + 1
  {
    hide Can, Do, Init;
    ss', actions' := ss + [Do(ss[|actions|], a)], actions + [a];
  }

  /** Process 0 went to sleep reading the empty pipe, and process 1 holds the lock with n bytes of buf stored. */
  ghost predicate Filling(s: State, buf: seq<byte>, n: nat) {
    && s.procs == map[0 := Asleep(NRead, ContR(1)), 1 := WTest(buf, n, n > 0)]
    && n <= |buf| && s.written == buf[..n] && s.got == [] && s.lock == Some(1) && s.plock.None? && s.killed == {}
  }

  lemma OnlyInit(s: State)
    requires Init(s)
    ensures IsRun([s], [])
  {}

  /** Process 0 is about to fall asleep on a fresh pipe. */
  lemma GoToSleep() returns (ss: seq<State>, actions: seq<Action>, r: Ring)
    ensures IsRun(ss, actions) && |r.data| == PIPESIZE && r.Empty() && r.writeopen && r.readopen
    ensures ss[|actions|] ==
      State(r, Some(0), None, map[0 := Drowsy(NRead, ContR(1)), 1 := Idle], {}, true, true, [], [], false)
  {
    hide IsRun;
    r := Ring(seq(PIPESIZE, _ => 0), 0, 0, true, true);
    var s := State(r, None, None, map[0 := Idle, 1 := Idle], {}, true, true, [], [], false);
    OnlyInit(s);
    ss, actions := Extend([s], [], CallRead(0, 1));
    ss, actions := Extend(ss, actions, Run(0));
    ss, actions := Extend(ss, actions, Run(0));
  }

  /** Process 0 sleeps, and process 1 starts to write. */
  lemma FallAsleep(buf: seq<byte>) returns (ss: seq<State>, actions: seq<Action>)
    ensures IsRun(ss, actions) && Filling(ss[|actions|], buf, 0)
  {
    hide IsRun, Ring.Empty;
    var r;
    ss, actions, r := GoToSleep();
    ss, actions := Extend(ss, actions, Run(0));
    ss, actions := Extend(ss, actions, Run(0));
    ss, actions := Extend(ss, actions, Run(0));
    ss, actions := Extend(ss, actions, CallWrite(1, buf));
    ss, actions := Extend(ss, actions, Run(1));
  }

  /** Process 1 stores n bytes. */
  lemma {:induction false} Store(buf: seq<byte>, n: nat) returns (ss: seq<State>, actions: seq<Action>)
    requires n <= PIPESIZE < |buf|
    ensures IsRun(ss, actions) && Filling(ss[|actions|], buf, n)
  {
    if n == 0 {
      ss, actions := FallAsleep(buf);
    } else {
      ss, actions := Store(buf, n - 1);
      StoreOne(ss, actions, buf, n - 1);
      ss, actions := Extend(ss, actions, Run(1));
    }
  }

  lemma StoreOne(ss: seq<State>, actions: seq<Action>, buf: seq<byte>, n: nat)
    requires IsRun(ss, actions) && n < PIPESIZE < |buf| && Filling(ss[|actions|], buf, n)
    ensures Can(ss[|actions|], Run(1)) && Filling(Do(ss[|actions|], Run(1)), buf, n + 1)
  {
    var s := ss[|actions|];
    RunKeeps(ss, actions);
    assert Inv(s);
    Counters(s.ring, s.written, s.got);
    assert buf[..n] + [buf[n]] == buf[..n + 1];
  }

  /** The wakeup that is lost: a reader sleeps, a writer fills the pipe, is killed, and leaves. */
  lemma KilledWriterStrands() returns (ss: seq<State>, actions: seq<Action>)
    ensures IsRun(ss, actions)
    ensures var s := ss[|actions|];
            && s.lock.None? && 0 in s.procs && s.procs[0] == Asleep(NRead, ContR(1))
            && |s.written| == |s.got| + PIPESIZE
  {
    hide IsRun;
    var buf := seq(PIPESIZE + 1, _ => 0);
    ss, actions := Store(buf, PIPESIZE);
    RunKeeps(ss, actions);
    Filled(ss[|actions|], buf);
    ss, actions := Extend(ss, actions, Kill(1));
    ss, actions := Extend(ss, actions, Run(1));
    ss, actions := Extend(ss, actions, Run(1));
  }

  lemma Filled(s: State, buf: seq<byte>)
    requires Inv(s) && Filling(s, buf, PIPESIZE) && |buf| > PIPESIZE
    ensures s.ring.Full() && |s.ring.data| == PIPESIZE && Can(s, Kill(1))
  {
    Counters(s.ring, s.written, s.got);
  }

  /** FIFO: the bytes read are a prefix of the bytes written, at most PIPESIZE are in flight, and what a read call has
      collected so far is the last stretch of the stream read. */
  lemma Fifo(ss: seq<State>, actions: seq<Action>, i: nat)
    requires IsRun(ss, actions) && i < |ss|
    ensures ss[i].got <= ss[i].written && |ss[i].written| - |ss[i].got| <= PIPESIZE
    ensures forall p :: p in ss[i].procs && ss[i].procs[p].RCopy? ==>
              |ss[i].procs[p].acc| <= |ss[i].got|
                  && ss[i].procs[p].acc == ss[i].got[|ss[i].got| - |ss[i].procs[p].acc|..]
  {
    hide IsRun;
    RunKeeps(ss, actions);
    var s := ss[i];
    assert Inv(s);
    forall p | p in s.procs && s.procs[p].RCopy?
        ensures |s.procs[p].acc| <= |s.got| && s.procs[p].acc == s.got[|s.got| - |s.procs[p].acc|..] {
      assert CallOk(s, s.procs[p]);
    }
  }

  // ---- the loops that run under the lock ----

  /** The pipe in memory. */
  class Buffer {
    const data: array<byte>
    var nread: word
    var nwrite: word
    var readopen: bool
    var writeopen: bool

    constructor ()
      ensures fresh(data) && data.Length == PIPESIZE && nread == nwrite == 0 && readopen && writeopen
      ensures Carries(Image(), [], [])
    {
      data := new byte[PIPESIZE](_ => 0);
      nread, nwrite, readopen, writeopen := 0, 0, true, true;
    }

    function Image(): (r: Ring)
      reads this, data
    {
      Ring(data[..], nread, nwrite, readopen, writeopen)
    }

    method Store(c: byte)
      requires data.Length == PIPESIZE
      modifies this`nwrite, data
      ensures Image() == old(Image()).Put(c)
    {
      data[nwrite % PIPESIZE] := c;
      nwrite := (nwrite + 1) % UINT;
    }

    /** pipewrite from byte i until the buffer is full or the call is done: WTest steps of the machine. */
    method Fill(addr: seq<byte>, i0: nat, ghost written: seq<byte>, ghost got: seq<byte>) returns (i: nat)
      requires Carries(Image(), written, got) && i0 <= |addr| && data.Length == PIPESIZE
      modifies this`nwrite, data
      ensures i0 <= i <= |addr| && Carries(Image(), written + addr[i0..i], got)
      ensures i < |addr| ==> Image().Full()
    {
      hide Carries;
      i := i0;
      assert written + addr[i0..i0] == written;
      while i < |addr| && nwrite != (nread + PIPESIZE) % UINT
        invariant i0 <= i <= |addr| && Carries(Image(), written + addr[i0..i], got)
      {
        PutCarries(Image(), written + addr[i0..i], got, addr[i]);
        assert written + addr[i0..i] + [addr[i]] == written + addr[i0..i + 1];
        Store(addr[i]);
        i := i + 1;
      }
    }

    /** The copying loop of piperead: RCopy steps of the machine. */
    method Drain(n: int, ghost written: seq<byte>, ghost got: seq<byte>) returns (acc: seq<byte>)
      requires Carries(Image(), written, got) && data.Length == PIPESIZE
      modifies this`nread
      ensures Carries(Image(), written, got + acc) && (n >= 0 ==> |acc| <= n) && (n < 0 ==> acc == [])
      ensures |acc| < n ==> Image().Empty()
    {
      acc := [];
      assert got + [] == got;
      while |acc| < n
        invariant Carries(Image(), written, got + acc) && (n >= 0 ==> |acc| <= n) && (n < 0 ==> acc == [])
        decreases n - |acc|
      {
        if nread == nwrite { break; }
        GetCarries(Image(), written, got + acc);
        ghost var r := Image();
        acc := acc + [data[nread % PIPESIZE]];
        assert got + acc == got + acc[..|acc| - 1] + [r.Get()];
        nread := (nread + 1) % UINT;
        assert Image() == r.Drop();
      }
    }
  }
}
