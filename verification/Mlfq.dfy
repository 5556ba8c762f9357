/** The multi-level feedback queue of proc.c: selection, tick accounting, demotion, waiting and promotion,
    on one CPU kept under policy 1 or 2. */
module Mlfq {
  import opened Common

  datatype PState = UNUSED | EMBRYO | SLEEPING | RUNNABLE | RUNNING | ZOMBIE

  datatype Proc = Proc(state: PState, priority: int, ticks: seq<nat>, wait: seq<nat>) {
    predicate Valid() { 0 <= priority <= 3 && |ticks| == |wait| == 4 }
  }

  /** Ticks a process may use at a level before it is demoted (proc.c:381). */
  function Slice(q: int): (n: nat) { if q == 0 then 1000000 else if q == 1 then 32 else if q == 2 then 16 else 8 }

  /** Rounds a process may wait at a level before it is promoted (proc.c:703-717). */
  function Patience(q: int): (n: nat) { if q == 0 then 500 else if q == 1 then 320 else 160 }

  predicate TableOk(tab: seq<Proc>) { forall i :: 0 <= i < |tab| ==> tab[i].Valid() }

  // ---- one round, as functions of the table ----

  /** The process the scheduler picks: highest level, then lowest slot. */
  ghost predicate Picks(tab: seq<Proc>, i: nat) {
    && i < |tab| && tab[i].state.RUNNABLE?
    && (forall j :: 0 <= j < |tab| && tab[j].state.RUNNABLE? ==> tab[j].priority <= tab[i].priority)
    && forall j :: 0 <= j < i && tab[j].state.RUNNABLE? ==> tab[j].priority < tab[i].priority
  }

  /** allocproc's reset (proc.c:105-112). */
  function Fresh(): (p: Proc) { Proc(EMBRYO, 3, [0, 0, 0, 0], [0, 0, 0, 0]) }

  /** What happens while the selected process runs: it may take a timer tick; processes are created in the
      slots in born; and states change. */
  datatype Env = Env(tick: bool, born: set<nat>, states: seq<PState>)

  predicate EnvOk(env: Env, n: nat, sel: nat) { |env.states| == n && sel !in env.born }

  function Ran(p: Proc, sel: bool, born: bool, tick: bool, st: PState): (r: Proc)
    requires p.Valid()
    ensures r.Valid()
  {
    var q := if born then Fresh() else p;
    (if sel && tick then q.(ticks := q.ticks[q.priority := q.ticks[q.priority] + 1]) else q).(state := st)
  }

  /** The check after swtch returns (proc.c:381-386). */
  function Demote(p: Proc): (r: Proc)
    requires p.Valid()
    ensures r.Valid()
  {
    if p.priority > 0 && p.ticks[p.priority] >= Slice(p.priority)
    then p.(priority := p.priority - 1, ticks := p.ticks[p.priority := 0]) else p
  }

  /** update_wait_ticks for one process that was not running. */
  function Waited(p: Proc): (r: Proc)
    requires p.Valid()
    ensures r.Valid()
  {
    if p.state.RUNNABLE? then p.(wait := p.wait[p.priority := p.wait[p.priority] + 1]) else p
  }

  /** priority_boost for one process. */
  function Boosted(p: Proc): (r: Proc)
    requires p.Valid()
    ensures r.Valid()
  {
    if !p.state.UNUSED? && p.priority < 3 && p.wait[p.priority] >= Patience(p.priority)
    then p.(priority := p.priority + 1, wait := p.wait[p.priority := 0]) else p
  }

  /** Slot i after a round in which sel was selected. */
  function RoundAt(tab: seq<Proc>, sel: nat, env: Env, i: nat): (r: Proc)
    requires TableOk(tab) && i < |tab| && sel < |tab| && EnvOk(env, |tab|, sel)
    ensures r.Valid()
  {
    var p := Ran(tab[i], i == sel, i in env.born, env.tick, env.states[i]);
    Boosted(if i == sel then Demote(p) else Waited(p))
  }

  function Round(tab: seq<Proc>, sel: nat, env: Env): (r: seq<Proc>)
    requires TableOk(tab) && sel < |tab| && EnvOk(env, |tab|, sel)
    ensures |r| == |tab| && TableOk(r)
  {
    seq(|tab|, i requires 0 <= i < |tab| => RoundAt(tab, sel, env, i))
  }

  // ---- the loops of proc.c ----

  class Table {
    const procs: array<Proc>

    constructor (n: nat)
      ensures fresh(procs) && procs.Length == n && TableOk(procs[..])
      ensures forall i :: 0 <= i < n ==> procs[i] == Proc(UNUSED, 0, [0, 0, 0, 0], [0, 0, 0, 0])
    {
      procs := new Proc[n](_ => Proc(UNUSED, 0, [0, 0, 0, 0], [0, 0, 0, 0]));
    }

    /** The two nested loops that select a process. */
    method Select() returns (sel: Option<nat>)
      requires TableOk(procs[..])
      ensures sel.Some? ==> Picks(procs[..], sel.value)
      ensures sel.None? <==> forall j :: 0 <= j < procs.Length ==> !procs[j].state.RUNNABLE?
    {
      var prio := 3;
      while prio >= 0
        invariant -1 <= prio <= 3
        invariant forall j :: 0 <= j < procs.Length && procs[j].state.RUNNABLE? ==> procs[j].priority <= prio
        decreases prio
      {
        var p := 0;
        while p < procs.Length
          invariant p <= procs.Length
          invariant forall j :: 0 <= j < p && procs[j].state.RUNNABLE? ==> procs[j].priority < prio
        {
          if procs[p].state.RUNNABLE? && procs[p].priority == prio { return Some(p); }
          p := p + 1;
        }
        prio := prio - 1;
      }
      forall j | 0 <= j < procs.Length ensures !procs[j].state.RUNNABLE? {
        assert procs[..][j].Valid();
      }
      sel := None;
    }

    method UpdateWaitTicks(running: nat)
      requires TableOk(procs[..]) && running < procs.Length
      modifies procs
      ensures TableOk(procs[..])
      ensures forall i ::
        0 <= i < procs.Length ==> procs[i] == if i == running then old(procs[i]) else Waited(old(procs[i]))
    {
      var p := 0;
      while p < procs.Length
        invariant p <= procs.Length && TableOk(procs[..])
        invariant forall i :: 0 <= i < p ==> procs[i] == if i == running then old(procs[i]) else Waited(old(procs[i]))
        invariant forall i :: p <= i < procs.Length ==> procs[i] == old(procs[i])
      {
        assert procs[..][p].Valid();
        if p != running && procs[p].state.RUNNABLE? {
          var prio := procs[p].priority;
          if !(prio < 0 || prio > 3) {
            procs[p] := procs[p].(wait := procs[p].wait[prio := procs[p].wait[prio] + 1]);
          }
        }
        p := p + 1;
      }
    }

    method PriorityBoost()
      requires TableOk(procs[..])
      modifies procs
      ensures TableOk(procs[..])
      ensures forall i :: 0 <= i < procs.Length ==> old(procs[i]).Valid() && procs[i] == Boosted(old(procs[i]))
    {
      var p := 0;
      while p < procs.Length
        invariant p <= procs.Length && TableOk(procs[..])
        invariant forall i :: 0 <= i < p ==> old(procs[i]).Valid() && procs[i] == Boosted(old(procs[i]))
        invariant forall i :: p <= i < procs.Length ==> procs[i] == old(procs[i])
      {
        assert procs[..][p].Valid();
        if !procs[p].state.UNUSED? {
          var prio := procs[p].priority;
          if prio == 2 || prio == 1 {
            var limit := 10 * Slice(prio);
            if procs[p].wait[prio] >= limit {
              procs[p] := procs[p].(priority := procs[p].priority + 1);
              procs[p] := procs[p].(wait := procs[p].wait[prio := 0]);
            }
          }
          if prio == 0 {
            if procs[p].wait[0] >= 500 {
              procs[p] := procs[p].(priority := 1);
              procs[p] := procs[p].(wait := procs[p].wait[0 := 0]);
            }
          }
        }
        p := p + 1;
      }
    }

    /** One pass of the scheduler's loop under the MLFQ policy; env is what happens between the two swtch calls. */
    method SchedulerRound(env: Env) returns (sel: Option<nat>)
      requires TableOk(procs[..]) && |env.states| == procs.Length
      requires forall i :: Picks(procs[..], i) ==> i !in env.born
      modifies procs
      ensures TableOk(procs[..])
      ensures sel.None? ==>
        procs[..] == old(procs[..]) && forall i :: 0 <= i < procs.Length ==> !procs[i].state.RUNNABLE?
      ensures sel.Some? ==> Picks(old(procs[..]), sel.value) && procs[..] == Round(old(procs[..]), sel.value, env)
    {
      ghost var tab := procs[..];
      sel := Select();
      if sel.None? { return; }
      var s := sel.value;
      ghost var _ := RunProcess(s, env);
      var prio := procs[s].priority;
      if prio > 0 && procs[s].ticks[prio] >= Slice(prio) {
        procs[s] := procs[s].(priority := procs[s].priority - 1);
        procs[s] := procs[s].(ticks := procs[s].ticks[prio := 0]);
      }
      UpdateWaitTicks(s);
      PriorityBoost();
      assert procs[..] == Round(tab, s, env);
    }

    /** From setting the selected process RUNNING to its return to the scheduler; during is the table it is
        switched to with. */
    method RunProcess(sel: nat, env: Env) returns (ghost during: seq<Proc>)
      requires TableOk(procs[..]) && sel < procs.Length && EnvOk(env, procs.Length, sel)
      modifies procs
      ensures TableOk(procs[..]) && during == old(procs[..])[sel := old(procs[sel]).(state := RUNNING)]
      ensures forall i :: 0 <= i < procs.Length ==>
                old(procs[i]).Valid() && procs[i] ==
                    Ran(old(procs[i]), i == sel, i in env.born, env.tick, env.states[i])
    {
      assert procs[..][sel].Valid();
      procs[sel] := procs[sel].(state := RUNNING);
      during := procs[..];
      if env.tick {
        var prio := procs[sel].priority;
        procs[sel] := procs[sel].(ticks := procs[sel].ticks[prio := procs[sel].ticks[prio] + 1]);
      }
      var i := 0;
      while i < procs.Length
        invariant i <= procs.Length && TableOk(procs[..])
        invariant forall j ::
          0 <= j < i ==> procs[j] == Ran(old(procs[j]), j == sel, j in env.born, env.tick, env.states[j])
        invariant forall j :: i <= j < procs.Length && j != sel ==> procs[j] == old(procs[j])
        invariant i <= sel ==> procs[sel].(state := RUNNABLE) == Ran(old(procs[sel]), true, false, env.tick, RUNNABLE)
      {
        assert procs[..][i].Valid();
        if i in env.born { procs[i] := Fresh(); }
        procs[i] := procs[i].(state := env.states[i]);
        i := i + 1;
      }
    }
  }

  // ---- runs ----

  /** A scheduler round that selects a process, or an idle stretch in which interrupts change states. */
  datatype Event = Selected(sel: nat, env: Env) | Idled(states: seq<PState>)

  function IdleAll(tab: seq<Proc>, states: seq<PState>): (r: seq<Proc>)
    requires TableOk(tab) && |states| == |tab|
    ensures |r| == |tab| && TableOk(r)
  {
    seq(|tab|, i requires 0 <= i < |tab| => tab[i].(state := states[i]))
  }

  ghost predicate Happens(tab: seq<Proc>, ev: Event, tab': seq<Proc>) {
    && TableOk(tab)
    && match ev
       case Selected(sel, env) => Picks(tab, sel) && EnvOk(env, |tab|, sel) && tab' == Round(tab, sel, env)
       case Idled(states) => |states| == |tab| && tab' == IdleAll(tab, states)
  }

  ghost predicate IsRun(tabs: seq<seq<Proc>>, evs: seq<Event>) {
    && |tabs| == |evs| + 1 && TableOk(tabs[0])
    && forall k :: 0 <= k < |evs| ==> Happens(tabs[k], evs[k], tabs[k + 1])
  }

  lemma {:induction false} RunShape(tabs: seq<seq<Proc>>, evs: seq<Event>, k: nat)
    requires IsRun(tabs, evs) && k < |tabs|
    ensures TableOk(tabs[k]) && |tabs[k]| == |tabs[0]|
    decreases k
  {
    if k > 0 {
      RunShape(tabs, evs, k - 1);
      assert Happens(tabs[k - 1], evs[k - 1], tabs[k]);
    }
  }

  // ---- tick accounting ----

  /** Ticks ever charged to a process at each level, and its demotions from each level, since allocproc. */
  datatype Acct = Acct(charged: seq<nat>, demoted: seq<nat>) {
    predicate Valid() { |charged| == |demoted| == 4 }
  }

  const NOACCT: Acct := Acct([0, 0, 0, 0], [0, 0, 0, 0])

  /** The account of slot i over an event: a tick is charged at the level it was run at, a demotion counted
      when the level drops. */
  function AcctNext(a: Acct, p: Proc, ev: Event, i: nat): (r: Acct)
    requires a.Valid() && p.Valid()
    ensures r.Valid()
  {
    if ev.Idled? then a
    else if i in ev.env.born then NOACCT
    else if ev.sel != i then a
    else
      var c := if ev.env.tick then a.charged[p.priority := a.charged[p.priority] + 1] else a.charged;
      Acct(c, if Demoted(p, ev.env.tick) then a.demoted[p.priority := a.demoted[p.priority] + 1] else a.demoted)
  }

  /** The slice of the current level is used up. */
  predicate Demoted(p: Proc, tick: bool)
    requires p.Valid()
  {
    p.priority > 0 && p.ticks[p.priority] + (if tick then 1 else 0) >= Slice(p.priority)
  }

  ghost function AcctAt(tabs: seq<seq<Proc>>, evs: seq<Event>, i: nat, k: nat, a0: Acct): (a: Acct)
    requires IsRun(tabs, evs) && k < |tabs| && i < |tabs[0]| && a0.Valid()
    ensures a.Valid()
    decreases k
  {
    if k == 0 then a0
    else
      RunShape(tabs, evs, k - 1);
      RunShape(tabs, evs, k);
      AcctNext(AcctAt(tabs, evs, i, k - 1, a0), tabs[k - 1][i], evs[k - 1], i)
  }

  /** The account balances: yielding early never resets it. */
  predicate Balanced(p: Proc, a: Acct)
    requires p.Valid() && a.Valid()
  {
    forall q :: 1 <= q <= 3 ==> a.charged[q] == Slice(q) * a.demoted[q] + p.ticks[q] && p.ticks[q] < Slice(q)
  }

  lemma BalanceStep(p: Proc, a: Acct, sel: bool, born: bool, tick: bool, st: PState, a': Acct)
    requires p.Valid() && a.Valid() && Balanced(p, a) && (sel ==> !born)
    requires a' == if born then NOACCT
                   else if !sel then a
                   else Acct(if tick then a.charged[p.priority := a.charged[p.priority] + 1] else a.charged,
                             if Demoted(p, tick) then a.demoted[p.priority := a.demoted[p.priority] + 1] else a.demoted)
    ensures var r := Ran(p, sel, born, tick, st);
            Balanced(Boosted(if sel then Demote(r) else Waited(r)), a')
  {
    var q := p.priority;
    if sel && Demoted(p, tick) {
      assert Slice(q) * (a.demoted[q] + 1) == Slice(q) * a.demoted[q] + Slice(q);
    }
  }

  /** MLFQ accounting: at every scheduler loop head of every run, for levels 1 to 3, the ticks ever charged to a
      process at a level are the slice times its demotions from it plus the ticks on its current account, which
      are fewer than a slice. */
  lemma {:induction false} Accounting(tabs: seq<seq<Proc>>, evs: seq<Event>, i: nat, k: nat, a0: Acct)
    requires IsRun(tabs, evs) && k < |tabs| && i < |tabs[0]| && a0.Valid() && tabs[0][i].Valid()
    requires Balanced(tabs[0][i], a0)
    ensures TableOk(tabs[k]) && |tabs[k]| == |tabs[0]| && Balanced(tabs[k][i], AcctAt(tabs, evs, i, k, a0))
    decreases k
  {
    hide Balanced, Boosted, Demote, Waited, Ran, Demoted;
    RunShape(tabs, evs, k);
    if k > 0 {
      RunShape(tabs, evs, k - 1);
      Accounting(tabs, evs, i, k - 1, a0);
      var tab, ev, a := tabs[k - 1], evs[k - 1], AcctAt(tabs, evs, i, k - 1, a0);
      assert Happens(tab, ev, tabs[k]);
      match ev
      case Selected(sel, env) =>
        BalanceStep(tab[i], a, i == sel, i in env.born, env.tick, env.states[i], AcctAt(tabs, evs, i, k, a0));
        assert tabs[k][i] == RoundAt(tab, sel, env, i);
      case Idled(states) =>
        assert tabs[k][i] == tab[i].(state := states[i]);
        StateAside(tab[i], a, states[i]);
    }
  }

  lemma StateAside(p: Proc, a: Acct, st: PState)
    requires p.Valid() && a.Valid() && Balanced(p, a)
    ensures Balanced(p.(state := st), a)
  {}

  // ---- levels ----

  /** Levels 3, 2 and 1 let a process use 8, 16 and 32 ticks. */
  predicate UsedUp(level: int, ticks: nat) {
    (level == 3 && ticks >= 8) || (level == 2 && ticks >= 16) || (level == 1 && ticks >= 32)
  }

  /** Levels 2, 1 and 0 let a process wait 160, 320 and 500 rounds. */
  predicate WaitedOut(level: int, rounds: nat) {
    (level == 2 && rounds >= 160) || (level == 1 && rounds >= 320) || (level == 0 && rounds >= 500)
  }

  /** Where a round leaves a process: the selected one drops exactly one level when its ticks there are used up,
      losing only the count of that level; then whoever has waited out its level rises exactly one. */
  lemma LevelsMove(tab: seq<Proc>, sel: nat, env: Env, i: nat)
    requires TableOk(tab) && i < |tab| && sel < |tab| && EnvOk(env, |tab|, sel) && i !in env.born
    ensures var p, r := tab[i], Round(tab, sel, env)[i];
            var used := p.ticks[p.priority] + if i == sel && env.tick then 1 else 0;
            var down := i == sel && UsedUp(p.priority, used);
            var low := if down then p.priority - 1 else p.priority;
            var rounds := p.wait[low] + if i != sel && env.states[i].RUNNABLE? then 1 else 0;
            var up := !env.states[i].UNUSED? && WaitedOut(low, rounds);
            && r.priority == (if up then low + 1 else low) && r.state == env.states[i]
            && r.ticks == p.ticks[p.priority := if down then 0 else used]
            && r.wait == p.wait[low := if up then 0 else rounds]
  {
    assert Round(tab, sel, env)[i] == RoundAt(tab, sel, env, i);
  }

  /** A new process starts at the highest level with nothing on its account, whatever its slot held before. */
  lemma StartsHigh(tab: seq<Proc>, sel: nat, env: Env, i: nat)
    requires TableOk(tab) && i < |tab| && sel < |tab| && EnvOk(env, |tab|, sel) && i in env.born
    ensures var r := Round(tab, sel, env)[i];
            && r.priority == 3 && r.state == env.states[i] && r.ticks == [0, 0, 0, 0]
            && r.wait == [0, 0, 0, if env.states[i].RUNNABLE? then 1 else 0]
  {
    assert Round(tab, sel, env)[i] == RoundAt(tab, sel, env, i);
  }

  // ---- promotion ----

  /** Rounds a waiting process still needs to reach level 3, at most. */
  function Need(p: Proc): (n: nat)
    requires p.Valid()
    ensures n <= 980 && (n == 0 <==> p.priority == 3)
  {
    if p.priority == 3 then 0
    else
      var here := if p.wait[p.priority] + 1 < Patience(p.priority) then Patience(p.priority) - p.wait[p.priority]
          else 1;
      here + if p.priority == 0 then 480 else if p.priority == 1 then 160 else 0
  }

  lemma NeedDrops(p: Proc)
    requires p.Valid() && p.state.RUNNABLE?
    ensures Need(Boosted(Waited(p))) <= if Need(p) == 0 then 0 else Need(p) - 1
  {}

  /** Slot i stays runnable and unselected over the event. */
  predicate LeftWaiting(ev: Event, i: nat) {
    match ev
    case Selected(sel, env) => sel != i && i !in env.born && i < |env.states| && env.states[i].RUNNABLE?
    case Idled(states) => i < |states| && states[i].RUNNABLE?
  }

  function Rounds(evs: seq<Event>): (n: nat) {
    if evs == [] then 0 else Rounds(evs[..|evs| - 1]) + if evs[|evs| - 1].Selected? then 1 else 0
  }

  lemma {:induction false} NeedOverRun(tabs: seq<seq<Proc>>, evs: seq<Event>, i: nat)
    requires IsRun(tabs, evs) && i < |tabs[0]| && forall k :: 0 <= k < |evs| ==> LeftWaiting(evs[k], i)
    ensures var last := tabs[|evs|];
            TableOk(last) && i < |last| && Need(last[i]) <= if Need(tabs[0][i]) <= Rounds(evs) then 0
                else Need(tabs[0][i]) - Rounds(evs)
    decreases |evs|
  {
    RunShape(tabs, evs, |evs|);
    if evs != [] {
      var n := |evs| - 1;
      NeedOverRun(tabs[..n + 1], evs[..n], i);
      var tab, ev := tabs[n], evs[n];
      assert Happens(tab, ev, tabs[n + 1]) && LeftWaiting(ev, i);
      RunShape(tabs, evs, n);
      match ev
      case Selected(sel, env) =>
        assert tabs[n + 1][i] == RoundAt(tab, sel, env, i);
        NeedDrops(tab[i].(state := RUNNABLE));
        assert Need(tab[i].(state := RUNNABLE)) == Need(tab[i]);
      case Idled(states) =>
        assert tabs[n + 1][i] == tab[i].(state := states[i]);
        assert Need(tab[i].(state := states[i])) == Need(tab[i]);
    }
  }

  /** Promotion bound: a process that stays runnable and unselected for 980 rounds is at level 3,
      whatever its level and leftover wait counts were. */
  lemma PromotionBound(tabs: seq<seq<Proc>>, evs: seq<Event>, i: nat)
    requires IsRun(tabs, evs) && i < |tabs[0]| && Rounds(evs) >= 980
    requires forall k :: 0 <= k < |evs| ==> LeftWaiting(evs[k], i)
    ensures TableOk(tabs[|evs|]) && i < |tabs[|evs|]| && tabs[|evs|][i].priority == 3
  {
    NeedOverRun(tabs, evs, i);
  }

  /** The bound is exact: from level 0 with no wait counts, 979 waiting rounds are not enough. */
  lemma {:induction false} BoundIsExact(n: nat)
    requires n <= 980
    ensures var p := WaitFor(Proc(RUNNABLE, 0, [0, 0, 0, 0], [0, 0, 0, 0]), n);
            && p.Valid() && p.state.RUNNABLE? && Need(p) == 980 - n
            && forall q :: p.priority < q <= 3 ==> p.wait[q] == 0
  {
    if n > 0 { BoundIsExact(n - 1); }
  }

  /** n rounds of waiting. */
  function WaitFor(p: Proc, n: nat): (r: Proc)
    requires p.Valid()
    ensures r.Valid()
  {
    if n == 0 then p else Boosted(Waited(WaitFor(p, n - 1)))
  }

  // ---- starvation within a level ----

  /** A run in which slot i is runnable throughout and never selected. */
  ghost predicate Passed(tabs: seq<seq<Proc>>, evs: seq<Event>, i: nat) {
    && IsRun(tabs, evs) && i < |tabs[0]| && tabs[0][i].state.RUNNABLE?
    && forall k :: 0 <= k < |evs| ==> LeftWaiting(evs[k], i)
  }

  /** In every run of a table of n slots, slot i is passed over at most bound rounds in a row. */
  ghost predicate ServedWithin(n: nat, i: nat, bound: nat) {
    forall tabs, evs :: Passed(tabs, evs, i) && |tabs[0]| == n ==> Rounds(evs) <= bound
  }

  lemma StillRunnable(tabs: seq<seq<Proc>>, evs: seq<Event>, i: nat, k: nat)
    requires Passed(tabs, evs, i) && k < |tabs|
    ensures TableOk(tabs[k]) && i < |tabs[k]| && tabs[k][i].state.RUNNABLE?
  {
    RunShape(tabs, evs, k);
    if k > 0 {
      RunShape(tabs, evs, k - 1);
      assert Happens(tabs[k - 1], evs[k - 1], tabs[k]) && LeftWaiting(evs[k - 1], i);
      match evs[k - 1]
      case Selected(sel, env) => assert tabs[k][i] == RoundAt(tabs[k - 1], sel, env, i);
      case Idled(states) =>
    }
  }

  /** Once slot 0 is at the highest level the next round picks it. */
  lemma {:induction false} FirstSlotServed(tabs: seq<seq<Proc>>, evs: seq<Event>)
    requires Passed(tabs, evs, 0)
    ensures Rounds(evs) <= 980
    decreases |evs|
  {
    if evs != [] {
      var n := |evs| - 1;
      var tabs', evs' := tabs[..n + 1], evs[..n];
      FirstSlotServed(tabs', evs');
      StillRunnable(tabs, evs, 0, n);
      assert Happens(tabs[n], evs[n], tabs[n + 1]) && LeftWaiting(evs[n], 0) && tabs'[n] == tabs[n];
      if Rounds(evs') == 980 {
        PromotionBound(tabs', evs', 0);
      }
    }
  }

  /** Two runnable processes at level 3, in slots 0 and i of n; slot 0 gives up the CPU before every tick. */
  function Rivals(n: nat, i: nat, r: nat): (tab: seq<Proc>)
    ensures |tab| == n && TableOk(tab)
  {
    seq(n, j => if j == 0 then Proc(RUNNABLE, 3, [0, 0, 0, 0], [0, 0, 0, 0])
                else if j == i then Proc(RUNNABLE, 3, [0, 0, 0, 0], [0, 0, 0, r])
                else Proc(UNUSED, 0, [0, 0, 0, 0], [0, 0, 0, 0]))
  }

  function Yield(n: nat, i: nat): (ev: Event) {
    Selected(0, Env(false, {}, seq(n, j => if j == 0 || j == i then RUNNABLE else UNUSED)))
  }

  lemma RivalsRound(n: nat, i: nat, r: nat)
    requires 0 < i < n
    ensures Happens(Rivals(n, i, r), Yield(n, i), Rivals(n, i, r + 1)) && LeftWaiting(Yield(n, i), i)
  {
    var tab, env := Rivals(n, i, r), Yield(n, i).env;
    assert Picks(tab, 0) && EnvOk(env, n, 0);
    assert [0, 0, 0, r][3 := r + 1] == [0, 0, 0, r + 1];
    forall j | 0 <= j < n
      ensures Round(tab, 0, env)[j] == Rivals(n, i, r + 1)[j]
    {
      assert Round(tab, 0, env)[j] == RoundAt(tab, 0, env, j);
    }
    assert Round(tab, 0, env) == Rivals(n, i, r + 1);
  }

  /** For every r a run of r rounds in which slot i is always runnable, always at the highest level, and
      never selected. */
  lemma {:induction false} Starves(n: nat, i: nat, r: nat) returns (tabs: seq<seq<Proc>>, evs: seq<Event>)
    requires 0 < i < n
    ensures Passed(tabs, evs, i) && |tabs[0]| == n && Rounds(evs) == |evs| == r && tabs[r] == Rivals(n, i, r)
    ensures forall k :: 0 <= k < |tabs| ==> i < |tabs[k]| && tabs[k][i].priority == 3
  {
    hide Happens, Rivals;
    if r == 0 {
      tabs, evs := [Rivals(n, i, 0)], [];
      RivalHigh(n, i, 0);
    } else {
      var ts, es := Starves(n, i, r - 1);
      tabs, evs := ts + [Rivals(n, i, r)], es + [Yield(n, i)];
      assert evs[..r - 1] == es;
      RivalsRound(n, i, r - 1);
      RivalHigh(n, i, r);
      forall k | 0 <= k < r ensures Happens(tabs[k], evs[k], tabs[k + 1]) && LeftWaiting(evs[k], i) {
        if k < r - 1 { assert Happens(ts[k], es[k], ts[k + 1]) && LeftWaiting(es[k], i); }
      }
    }
  }

  lemma RivalHigh(n: nat, i: nat, r: nat)
    requires 0 < i < n
    ensures var p := Rivals(n, i, r)[i]; p.priority == 3 && p.state.RUNNABLE?
  {}

  /** Exactly which slots are safe from starvation: only the first one, which waits at most 980 rounds. */
  lemma StarvationExactly(n: nat, i: nat)
    requires i < n
    ensures (exists bound: nat :: ServedWithin(n, i, bound)) <==> i == 0
    ensures ServedWithin(n, 0, 980)
  {
    forall tabs, evs | Passed(tabs, evs, 0) && |tabs[0]| == n
      ensures Rounds(evs) <= 980
    {
      FirstSlotServed(tabs, evs);
    }
    assert ServedWithin(n, 0, 980);
    if i > 0 {
      forall bound: nat
        ensures !ServedWithin(n, i, bound)
      {
        var tabs, evs := Starves(n, i, bound + 1);
      }
    }
  }
}
