/** The multi-level feedback queue of Project2-2's kernel/proc.c, on one CPU.

    The ghost field `log` records every dispatch: the slot switched to, its level, and
    which slots were RUNNABLE at that moment.  What runs between two dispatches (the
    dispatched process, interrupts) is an argument of the methods, so every result
    holds whatever the processes do. */
module Scheduler {

  const NPROC := 64
  const CLK_PER_PRIO: seq<int> := [1000, 32, 16, 8]   // clkPerPrio
  const CLK_WAIT: seq<int> := [500, 320, 160, 0]      // clkWait
  const TOP := 3

  /** Dispatches of others after which a waiting process stands at the top level. */
  const BOOST_BOUND := 980
  /** One whole pass at a lower level, then the 63 slots before it at the top level. */
  const STARVATION_BOUND := BOOST_BOUND + NPROC * 1000 + (NPROC - 1) * 16

  datatype State = Unused | Embryo | Sleeping | Runnable | Running | Zombie

  datatype Proc = Proc(state: State, pid: int, priority: int, ticks: seq<int>, waits: seq<int>, inuse: bool)

  datatype Dispatch = Dispatch(slot: nat, level: int, ready: set<nat>)

  /** What can happen to other slots while a process runs, or while the CPU idles. */
  datatype Event = Fork | Ready(slot: nat) | Release(slot: nat)

  /** One dispatch seen from the scheduler: the events, and the state the process leaves in. */
  datatype Effect = Effect(events: seq<Event>, leaves: Leaving)

  type Leaving = s: State | s == Runnable || s == Sleeping || s == Zombie witness Runnable

  /** The most dispatches in one turn that starts at `level` with a zero tick count. */
  function TurnLimit(level: int): int
    requires 0 <= level <= TOP
  {
    if level == 0 then 1 else CLK_PER_PRIO[level - 1]
  }

  /** Waiting dispatches that separate the bottom of the queues from `level`. */
  function WaitBelow(level: int): (w: int)
    requires 0 <= level <= TOP
    ensures 0 <= w
  {
    if level == 0 then 0 else WaitBelow(level - 1) + CLK_WAIT[level - 1]
  }

  predicate ProcOk(p: Proc) {
    && |p.ticks| == 4 && |p.waits| == 4
    && 0 <= p.priority <= TOP
    && (forall l :: 0 <= l < 4 ==> 0 <= p.waits[l])
    && (forall l :: 0 <= l < 4 ==> 0 <= p.ticks[l])
    && (forall l :: 1 <= l < 4 ==> p.ticks[l] <= CLK_PER_PRIO[l])
  }

  /** How many of the latest dispatches passed over `q` while it was RUNNABLE. */
  ghost function Age(log: seq<Dispatch>, q: nat): nat {
    if log == [] then 0
    else
      var d := log[|log| - 1];
      if d.slot == q || q !in d.ready then 0 else Age(log[..|log| - 1], q) + 1
  }

  /** No point of the run shows a process passed over more often than the bound. */
  ghost predicate Bounded(log: seq<Dispatch>) {
    forall k, q: nat :: 0 <= k <= |log| && q < NPROC ==> Age(log[..k], q) <= STARVATION_BOUND
  }

  /** The starvation bound in plain terms: `q` is dispatched in every stretch of more
      than STARVATION_BOUND dispatches in which it is RUNNABLE throughout. */
  lemma NoStarvation(log: seq<Dispatch>, q: nat, a: nat, b: nat)
    requires Bounded(log) && a + STARVATION_BOUND < b <= |log| && q < NPROC
    requires forall k :: a <= k < b ==> q in log[k].ready
    ensures exists k :: a <= k < b && log[k].slot == q
  {
    if forall k :: a <= k < b ==> log[k].slot != q {
      AgeOfStretch(log, q, a, b);
    }
  }

  lemma {:induction false} AgeOfStretch(log: seq<Dispatch>, q: nat, a: nat, b: nat)
    requires a <= b <= |log|
    requires forall k :: a <= k < b ==> q in log[k].ready && log[k].slot != q
    ensures Age(log[..b], q) >= b - a
  {
    if a < b {
      AgeOfStretch(log, q, a, b - 1);
      assert log[..b][..b - 1] == log[..b - 1];
    }
  }

  // ----- one clock of waiting

  /** One more dispatch waited at the process's level, and the boost that may cause. */
  function Waited(x: Proc): (y: Proc)
    requires |x.waits| == 4 && 0 <= x.priority <= TOP
  {
    var l := x.priority;
    var y := x.(waits := x.waits[l := x.waits[l] + 1]);
    if l < TOP && y.waits[l] >= CLK_WAIT[l]
    then y.(priority := l + 1, waits := y.waits[l + 1 := 0])
    else y
  }

  /** How long a process below the top level can have been passed over. */
  ghost predicate Patient(x: Proc, age: nat)
    requires ProcOk(x)
  {
    && (x.state != Runnable ==> age == 0)
    && (x.priority < TOP ==>
          && age <= WaitBelow(x.priority) + x.waits[x.priority]
          && (x.waits[x.priority] >= CLK_WAIT[x.priority] ==> age == 0))
  }

  lemma WaitSteps()
    ensures WaitBelow(1) == 500 && WaitBelow(2) == 820 && WaitBelow(3) == BOOST_BOUND
  {
  }

  lemma WaitedIsPatient(x: Proc, age: nat, age': nat)
    requires ProcOk(x) && Patient(x, age)
    requires age' == 0 || (x.state == Runnable && age' == age + 1)
    ensures ProcOk(Waited(x)) && Waited(x).state == x.state && Patient(Waited(x), age')
    ensures Waited(x).priority == TOP > x.priority ==> age' <= BOOST_BOUND
  {
    WaitSteps();
  }

  lemma PatientBelowTheTop(x: Proc, age: nat)
    requires ProcOk(x) && Patient(x, age) && x.priority < TOP
    ensures age < BOOST_BOUND
  {
    WaitSteps();
  }

  // ----- the table

  ghost function ReadySet(procs: seq<Proc>): set<nat> {
    set q: nat | q < |procs| && procs[q].state == Runnable
  }

  ghost predicate ProcsOk(procs: seq<Proc>) {
    |procs| == NPROC && forall q :: 0 <= q < NPROC ==> ProcOk(procs[q])
  }

  ghost predicate TableOk(procs: seq<Proc>, log: seq<Dispatch>) {
    && ProcsOk(procs)
    && (forall q :: 0 <= q < NPROC ==> procs[q].state != Running)
    && (forall q :: 0 <= q < NPROC ==> Patient(procs[q], Age(log, q)))
  }

  /** In every reachable state, a process passed over 980 times stands at the top level. */
  lemma BoostedInTime(procs: seq<Proc>, log: seq<Dispatch>, q: nat)
    requires TableOk(procs, log) && q < NPROC && Age(log, q) >= BOOST_BOUND
    ensures procs[q].priority == TOP && procs[q].state == Runnable
  {
    if procs[q].priority < TOP {
      PatientBelowTheTop(procs[q], Age(log, q));
    }
  }

  /** The found branch of allocproc. */
  function Fresh(pid: int, inuse: bool): Proc {
    Proc(Embryo, pid, TOP, [0, 0, 0, 0], [0, 0, 0, 0], inuse)
  }

  /** What may become of a slot that is not dispatched: a RUNNABLE one is left alone,
      any other keeps its queue data or starts afresh. */
  ghost predicate Idles(x: Proc, y: Proc) {
    if x.state == Runnable || x.state == Running then y == x
    else
      && y.state != Running
      && (y == x.(state := y.state, inuse := y.inuse) || y == Fresh(y.pid, false).(state := y.state))
  }

  /** The dispatched process after one dispatch, before any demotion. */
  function Served(x: Proc, leaves: State): Proc
    requires |x.waits| == 4 && |x.ticks| == 4 && 0 <= x.priority <= TOP
  {
    x.(waits := x.waits[x.priority := 0], ticks := x.ticks[x.priority := x.ticks[x.priority] + 1],
       inuse := true, state := leaves)
  }

  /** The process has not used up its clock ticks at its level. */
  predicate HasQuantum(x: Proc)
    requires ProcOk(x)
  {
    x.priority > 0 ==> x.ticks[x.priority] < CLK_PER_PRIO[x.priority]
  }

  /** One dispatch of slot `p`: what it does to every slot. */
  ghost predicate Dispatched(procs: seq<Proc>, p: nat, leaves: State, procs': seq<Proc>)
    requires ProcsOk(procs)
  {
    && p < NPROC && |procs'| == NPROC
    && procs'[p] == Served(procs[p], leaves)
    && forall q :: 0 <= q < NPROC && q != p ==> Idles(Waited(procs[q]), procs'[q])
  }

  lemma AgeAppend(log: seq<Dispatch>, d: Dispatch, q: nat)
    ensures Age(log + [d], q) == if d.slot == q || q !in d.ready then 0 else Age(log, q) + 1
  {
  }

  lemma DispatchKeepsTable(procs: seq<Proc>, log: seq<Dispatch>, p: nat, leaves: Leaving, procs': seq<Proc>, level: int)
    requires TableOk(procs, log) && p < NPROC && HasQuantum(procs[p]) && Dispatched(procs, p, leaves, procs')
    ensures TableOk(procs', log + [Dispatch(p, level, ReadySet(procs))])
  {
    hide Age, Waited, WaitBelow;
    var d := Dispatch(p, level, ReadySet(procs));
    forall q: nat | q < NPROC
      ensures ProcOk(procs'[q]) && procs'[q].state != Running && Patient(procs'[q], Age(log + [d], q))
    {
      AgeAppend(log, d, q);
      if q != p {
        WaitedIsPatient(procs[q], Age(log, q), Age(log + [d], q));
      }
    }
  }

  /** Within a pass that serves level `max`, has done the slots below `done`, and began
      when the log had `start` entries: how long a process at the top can have waited. */
  ghost predicate TopBound(procs: seq<Proc>, log: seq<Dispatch>, start: nat, max: int, done: int) {
    && start <= |log|
    && forall q: nat :: q < |procs| && procs[q].priority == TOP ==>
         Age(log, q) <= BOOST_BOUND + (|log| - start) + if max == TOP && q >= done then NPROC * 1000 else 0
  }

  lemma DispatchKeepsTopBound(procs: seq<Proc>, log: seq<Dispatch>, p: nat, leaves: Leaving, procs': seq<Proc>,
                              level: int, start: nat, max: int, done: int)
    requires TableOk(procs, log) && p < NPROC && Dispatched(procs, p, leaves, procs')
    requires TopBound(procs, log, start, max, done)
    ensures TopBound(procs', log + [Dispatch(p, level, ReadySet(procs))], start, max, done)
  {
    var d := Dispatch(p, level, ReadySet(procs));
    forall q: nat | q < NPROC && procs'[q].priority == TOP
      ensures Age(log + [d], q) <= BOOST_BOUND + (|log| + 1 - start) + if max == TOP
          && q >= done then NPROC * 1000 else 0
    {
      AgeAppend(log, d, q);
      if q != p && procs[q].state == Runnable {
        WaitedIsPatient(procs[q], Age(log, q), Age(log + [d], q));
      }
    }
  }

  /** The demotion of a process that has used up its level. */
  function Demoted(x: Proc): Proc
    requires ProcOk(x)
  {
    if x.priority > 0 && x.ticks[x.priority] >= CLK_PER_PRIO[x.priority]
    then x.(priority := x.priority - 1, ticks := x.ticks[x.priority - 1 := 0])
    else x
  }

  lemma DemotionKeepsTable(procs: seq<Proc>, log: seq<Dispatch>, p: nat, start: nat, max: int)
    requires TableOk(procs, log) && TopBound(procs, log, start, max, p) && p < NPROC && Age(log, p) == 0
    ensures TableOk(procs[p := Demoted(procs[p])], log)
    ensures TopBound(procs[p := Demoted(procs[p])], log, start, max, p)
  {
  }

  lemma TurnLimits(max: int)
    requires 0 <= max <= TOP
    ensures TurnLimit(max) == if max == 0 then 1 else if max == 1 then 1000 else if max == 2 then 32 else 16
  {
  }

  lemma AgeIsBounded(procs: seq<Proc>, log: seq<Dispatch>, p: nat, start: nat, max: int, q: nat)
    requires TableOk(procs, log) && TopBound(procs, log, start, max, p)
    requires p < NPROC && q < NPROC && 0 <= max <= TOP && |log| - start <= (p + 1) * TurnLimit(max)
    requires Age(log, p) == 0
    ensures Age(log, q) <= STARVATION_BOUND
  {
    hide Age;
    TurnLimits(max);
    if procs[q].priority < TOP {
      PatientBelowTheTop(procs[q], Age(log, q));
    } else if max == TOP {
      assert q > p ==> p + 1 <= NPROC - 1;
    }
  }

  lemma DispatchKeepsBounded(procs: seq<Proc>, log: seq<Dispatch>, d: Dispatch, p: nat, start: nat, max: int)
    requires Bounded(log) && TableOk(procs, log + [d])
    requires d.slot == p < NPROC && 0 <= max <= TOP
    requires TopBound(procs, log + [d], start, max, p) && |log| + 1 - start <= (p + 1) * TurnLimit(max)
    ensures Bounded(log + [d])
  {
    hide Age, TableOk, TopBound;
    var log' := log + [d];
    forall k, q: nat | 0 <= k <= |log'| && q < NPROC
      ensures Age(log'[..k], q) <= STARVATION_BOUND
    {
      if k <= |log| {
        assert log'[..k] == log[..k];
      } else {
        assert log'[..k] == log';
        AgeAppend(log, d, p);
        AgeIsBounded(procs, log', p, start, max, q);
      }
    }
  }

  lemma ResetKeepsTable(procs: seq<Proc>, log: seq<Dispatch>, p: nat, start: nat, max: int)
    requires TableOk(procs, log) && TopBound(procs, log, start, max, p) && p < NPROC
    ensures var procs' := procs[p := procs[p].(ticks := procs[p].ticks[procs[p].priority := 0])];
            TableOk(procs', log) && TopBound(procs', log, start, max, p)
  {
  }

  lemma SlotIsDone(procs: seq<Proc>, log: seq<Dispatch>, start: nat, max: int, p: nat)
    requires TopBound(procs, log, start, max, p) && Age(log, p) == 0
    ensures TopBound(procs, log, start, max, p + 1)
  {
  }

  // ----- what one turn does to the process that has it

  /** The tick count a turn starts from. */
  function FirstTick(x: Proc): int
    requires ProcOk(x)
  {
    if x.ticks[x.priority] == CLK_PER_PRIO[x.priority] then 0 else x.ticks[x.priority]
  }

  /** The level after `n` dispatches of a turn: at most one below the first. */
  function TurnLevel(x: Proc, n: nat): int
    requires ProcOk(x)
  {
    if x.priority > 0 && FirstTick(x) + n >= CLK_PER_PRIO[x.priority] then x.priority - 1 else x.priority
  }

  /** The tick counts after `n` dispatches of a turn. */
  function TurnTicks(x: Proc, n: nat): seq<int>
    requires ProcOk(x)
  {
    var l, t := x.priority, FirstTick(x) + n;
    if l == 0 then x.ticks[0 := x.ticks[0] + n]
    else if t >= CLK_PER_PRIO[l] then x.ticks[l := CLK_PER_PRIO[l]][l - 1 := t - CLK_PER_PRIO[l]]
    else x.ticks[l := t]
  }

  ghost predicate TurnLog(x: Proc, entries: seq<Dispatch>, p: nat)
    requires ProcOk(x)
  {
    forall k :: 0 <= k < |entries| ==> entries[k].slot == p && entries[k].level == TurnLevel(x, k)
  }

  lemma TurnStep(x: Proc, y: Proc, n: nat, leaves: Leaving)
    requires ProcOk(x) && ProcOk(y) && x.priority > 0
    requires y.priority == TurnLevel(x, n) && y.ticks == TurnTicks(x, n)
    requires FirstTick(x) + n < CLK_PER_PRIO[y.priority]
    ensures HasQuantum(y) && FirstTick(x) + n < TurnLimit(x.priority) && ProcOk(Served(y, leaves))
    ensures Demoted(Served(y, leaves)).priority == TurnLevel(x, n + 1)
    ensures Demoted(Served(y, leaves)).ticks == TurnTicks(x, n + 1)
  {
  }

  lemma TurnEnds(x: Proc, n: nat)
    requires ProcOk(x) && x.priority > 0
    requires FirstTick(x) + n >= CLK_PER_PRIO[TurnLevel(x, n)]
    ensures FirstTick(x) + n >= TurnLimit(x.priority)
  {
  }

  lemma TurnStarts(x: Proc)
    requires ProcOk(x) && x.priority > 0
    ensures TurnLevel(x, 0) == x.priority && FirstTick(x) < CLK_PER_PRIO[x.priority] <= TurnLimit(x.priority)
    ensures TurnTicks(x, 0) == x.ticks[x.priority := FirstTick(x)]
  {
  }

  lemma TurnLogGrows(x: Proc, entries: seq<Dispatch>, p: nat, d: Dispatch)
    requires ProcOk(x) && TurnLog(x, entries, p)
    requires d.slot == p && d.level == TurnLevel(x, |entries|)
    ensures TurnLog(x, entries + [d], p)
  {
  }

  lemma EmptyTurn(x: Proc, p: nat)
    requires ProcOk(x)
    ensures TurnLog(x, [], p)
  {
  }

  lemma LowestTurn(x: Proc, p: nat, d: Dispatch)
    requires ProcOk(x) && x.priority == 0 && d.slot == p && d.level == 0
    ensures TurnLog(x, [d], p) && TurnLevel(x, 1) == 0 && TurnTicks(x, 1) == x.ticks[0 := x.ticks[0] + 1]
  {
  }

  /** A turn of `n` dispatches takes process `x` to `y`: never a boost, at most one level
      down, and it ends only when the process leaves or the tick count reaches its limit. */
  ghost predicate TurnResult(x: Proc, y: Proc, n: nat)
    requires ProcOk(x)
  {
    && y.priority == TurnLevel(x, n) && y.ticks == TurnTicks(x, n)
    && if x.priority == 0 then n == 1
       else 1 <= n <= TurnLimit(x.priority) - FirstTick(x)
            && (y.state == Runnable ==> n == TurnLimit(x.priority) - FirstTick(x))
  }

  /** How long a turn can last by the level it starts from, and where it leaves the process:
      one that stays RUNNABLE is a level lower after every turn above the lowest level, and one
      that is demoted has used up its allotment. */
  lemma TurnLength(x: Proc, y: Proc, n: nat)
    requires ProcOk(x) && TurnResult(x, y, n)
    ensures 1 <= n <= (if x.priority == 3 then 16 else if x.priority == 2 then 32 else if x.priority == 1 then 1000
        else 1)
    ensures x.priority - 1 <= y.priority <= x.priority
    ensures y.state == Runnable && x.priority > 0 ==> y.priority == x.priority - 1
    ensures y.priority < x.priority ==> FirstTick(x) + n >= CLK_PER_PRIO[x.priority]
  {
    TurnLimits(x.priority);
    if x.priority > 0 {
      TurnStarts(x);
    }
  }

  /** RUNNABLE processes other than slot `p` stay RUNNABLE and are at most boosted. */
  ghost predicate LeftWaiting(procs: seq<Proc>, procs': seq<Proc>, p: int) {
    && |procs| == |procs'|
    && forall q :: 0 <= q < |procs| && q != p && procs[q].state == Runnable ==>
         procs'[q].state == Runnable && procs[q].priority <= procs'[q].priority
  }

  lemma LeftWaitingTwice(a: seq<Proc>, b: seq<Proc>, c: seq<Proc>, p: int)
    requires LeftWaiting(a, b, p) && LeftWaiting(b, c, p)
    ensures LeftWaiting(a, c, p)
  {
  }

  lemma OneSlotChanged(a: seq<Proc>, p: nat, x: Proc)
    requires p < |a|
    ensures LeftWaiting(a, a[p := x], p)
  {
  }

  /** The level a pass serves: the highest of the RUNNABLE processes, or 0. */
  ghost predicate IsTopLevel(procs: seq<Proc>, max: int) {
    && (forall q :: 0 <= q < |procs| && procs[q].state == Runnable ==> procs[q].priority <= max)
    && (max == 0 || exists q :: 0 <= q < |procs| && procs[q].state == Runnable && procs[q].priority == max)
  }

  ghost predicate Serves(entries: seq<Dispatch>, q: nat) {
    exists k :: 0 <= k < |entries| && entries[k].slot == q
  }

  /** A pass at level `max`: slots in table order, each turn starting at `max`. */
  ghost predicate PassLog(entries: seq<Dispatch>, max: int, done: int) {
    && (forall k :: 0 <= k < |entries| ==> entries[k].slot < done && max - 1 <= entries[k].level <= max)
    && (forall k :: 1 <= k < |entries| ==> entries[k - 1].slot <= entries[k].slot)
    && (forall k :: 0 <= k < |entries| && (k == 0 || entries[k - 1].slot < entries[k].slot) ==> entries[k].level == max)
  }

  lemma PassLogGrows(x: Proc, p: nat, entries: seq<Dispatch>, turn: seq<Dispatch>, max: int)
    requires ProcOk(x) && x.priority == max && TurnLog(x, turn, p) && |turn| > 0
    requires PassLog(entries, max, p)
    ensures PassLog(entries + turn, max, p + 1)
    ensures Serves(entries + turn, p) && forall q :: Serves(entries, q) ==> Serves(entries + turn, q)
  {
    var all := entries + turn;
    assert all[|entries|] == turn[0];
    assert TurnLevel(x, 0) == max;
    forall q | Serves(entries, q)
      ensures Serves(all, q)
    {
      var k :| 0 <= k < |entries| && entries[k].slot == q;
      assert all[k] == entries[k];
    }
  }

  lemma EventsKeepTable(procs: seq<Proc>, log: seq<Dispatch>, procs': seq<Proc>)
    requires TableOk(procs, log) && |procs'| == NPROC
    requires forall q :: 0 <= q < NPROC ==> Idles(procs[q], procs'[q])
    ensures TableOk(procs', log)
    ensures forall q :: 0 <= q < NPROC && procs'[q].priority == TOP && procs[q].priority != TOP ==> Age(log, q) == 0
  {
  }

  lemma SlotIsSkipped(procs: seq<Proc>, log: seq<Dispatch>, start: nat, max: int, p: nat)
    requires TableOk(procs, log) && TopBound(procs, log, start, max, p) && p < NPROC && 0 <= max <= TOP
    requires procs[p].state != Runnable || procs[p].priority != max
    requires |log| - start <= p * TurnLimit(max)
    ensures TopBound(procs, log, start, max, p + 1) && |log| - start <= (p + 1) * TurnLimit(max)
  {
  }

  lemma SkippedLog(entries: seq<Dispatch>, max: int, p: nat)
    requires PassLog(entries, max, p)
    ensures PassLog(entries, max, p + 1)
  {
  }

  lemma NothingServed(max: int)
    ensures PassLog([], max, 0)
  {
  }

  /** Between passes nobody at the top level has waited more than one pass. */
  ghost predicate AtRest(procs: seq<Proc>, log: seq<Dispatch>) {
    forall q :: 0 <= q < |procs| && procs[q].priority == TOP ==> Age(log, q) <= BOOST_BOUND + NPROC * 1000
  }

  lemma PassBegins(procs: seq<Proc>, log: seq<Dispatch>, max: int)
    requires TableOk(procs, log) && AtRest(procs, log) && IsTopLevel(procs, max)
    ensures TopBound(procs, log, |log|, max, 0)
  {
  }

  lemma PassEnds(procs: seq<Proc>, log: seq<Dispatch>, start: nat, max: int)
    requires |procs| == NPROC && 0 <= max <= TOP
    requires TopBound(procs, log, start, max, NPROC) && |log| - start <= NPROC * TurnLimit(max)
    ensures AtRest(procs, log)
  {
  }

  /** A process whose wait was set to -1 comes out of the count at its level, with zero. */
  lemma MarkedIsNotBoosted(x: Proc)
    requires ProcOk(x)
    ensures Waited(x.(waits := x.waits[x.priority := -1])) == x.(waits := x.waits[x.priority := 0])
  {
  }

  /** One round of the scheduler: the table at its start, after the interrupts and at its end, the
      level that was served and the dispatches. */
  datatype Round = Round(start: seq<Proc>, before: seq<Proc>, max: int, entries: seq<Dispatch>, after: seq<Proc>)

  /** Interrupts leave what is RUNNABLE alone, and then whoever is RUNNABLE at the highest level is
      dispatched, or boosted above it. */
  ghost predicate RoundOk(r: Round) {
    && |r.start| == |r.before| == |r.after| == NPROC && IsTopLevel(r.before, r.max)
    && PassLog(r.entries, r.max, NPROC) && (forall q :: 0 <= q < NPROC ==> Idles(r.start[q], r.before[q]))
    && forall q: nat :: q < NPROC && r.before[q].state == Runnable && r.before[q].priority == r.max ==>
         Serves(r.entries, q) || r.after[q].priority > r.max
  }

  /** The dispatches of all rounds. */
  ghost function Entries(rounds: seq<Round>): seq<Dispatch> {
    if rounds == [] then [] else Entries(rounds[..|rounds| - 1]) + rounds[|rounds| - 1].entries
  }

  /** The rounds lead from one table to the other. */
  ghost predicate Lead(procs: seq<Proc>, rounds: seq<Round>, procs': seq<Proc>) {
    if rounds == [] then procs' == procs
    else
      var r := rounds[|rounds| - 1];
      RoundOk(r) && procs' == r.after && Lead(procs, rounds[..|rounds| - 1], r.start)
  }

  lemma NoRounds(procs: seq<Proc>)
    ensures Lead(procs, [], procs) && Entries([]) == []
  {
  }

  lemma OneRoundMore(procs: seq<Proc>, rounds: seq<Round>, r: Round)
    requires Lead(procs, rounds, r.start)
    requires |r.start| == |r.before| == |r.after| == NPROC && IsTopLevel(r.before, r.max)
    requires PassLog(r.entries, r.max, NPROC) && forall q :: 0 <= q < NPROC ==> Idles(r.start[q], r.before[q])
    requires forall q: nat :: q < NPROC && r.before[q].state == Runnable && r.before[q].priority == r.max ==>
               Serves(r.entries, q) || r.after[q].priority > r.max
    ensures Lead(procs, rounds + [r], r.after) && Entries(rounds + [r]) == Entries(rounds) + r.entries
  {
    hide Idles, Serves, PassLog, IsTopLevel;
    assert (rounds + [r])[..|rounds|] == rounds;
  }

  class Cpu {
    var procs: seq<Proc>
    var nextpid: int
    var clock: nat               // numbers the dispatches for the environment
    ghost var log: seq<Dispatch>

    ghost predicate Valid()
      reads this
    {
      TableOk(procs, log) && Bounded(log) && clock == |log|
    }

    /** Boot: every slot is zero. */
    constructor ()
      ensures Valid() && AtRest(procs, log) && log == []
    {
      procs := seq(NPROC, _ => Proc(Unused, 0, 0, [0, 0, 0, 0], [0, 0, 0, 0], false));
      nextpid := 1;
      clock := 0;
      log := [];
    }

    /** allocproc: the first UNUSED slot, if there is one. */
    method AllocProc() returns (slot: int)
      requires |procs| == NPROC
      modifies this`procs, this`nextpid
      ensures slot == -1 ==> procs == old(procs) && nextpid == old(nextpid)
      ensures slot == -1 <==> forall q :: 0 <= q < NPROC ==> old(procs)[q].state != Unused
      ensures slot != -1 ==> 0 <= slot < NPROC && old(procs)[slot].state == Unused
      ensures slot != -1 ==>
                && procs == old(procs)[slot := Proc(Embryo, old(nextpid), 3, [0, 0, 0, 0], [0, 0, 0, 0], false)]
                && nextpid == old(nextpid) + 1
      ensures slot != -1 ==> forall q :: 0 <= q < slot ==> old(procs)[q].state != Unused
    {
      for p := 0 to NPROC
        invariant procs == old(procs) && nextpid == old(nextpid)
        invariant forall q :: 0 <= q < p ==> procs[q].state != Unused
      {
        if procs[p].state == Unused {
          procs := procs[p := procs[p].(state := Embryo)];
          procs := procs[p := procs[p].(pid := nextpid)];
          nextpid := nextpid + 1;
          procs := procs[p := procs[p].(inuse := false)];
          procs := procs[p := procs[p].(priority := 3)];
          procs := procs[p := procs[p].(ticks := [0, 0, 0, 0])];
          procs := procs[p := procs[p].(waits := [0, 0, 0, 0])];
          return p;
        }
      }
      return -1;
    }

    /** Other code runs: forks, wakeups, exits that are waited for. */
    method RunEvents(events: seq<Event>)
      requires |procs| == NPROC
      modifies this`procs, this`nextpid
      ensures |procs| == NPROC
      ensures forall q :: 0 <= q < NPROC ==> Idles(old(procs)[q], procs[q])
    {
      for i := 0 to |events|
        invariant |procs| == NPROC
        invariant forall q :: 0 <= q < NPROC ==> Idles(old(procs)[q], procs[q])
      {
        match events[i]
        case Fork =>
          var _ := AllocProc();
        case Ready(slot) =>
          if slot < NPROC && (procs[slot].state == Embryo || procs[slot].state == Sleeping) {
            procs := procs[slot := procs[slot].(state := Runnable)];
          }
        case Release(slot) =>
          if slot < NPROC && (procs[slot].state == Embryo || procs[slot].state == Zombie) {
            procs := procs[slot := procs[slot].(state := Unused)];
          }
      }
    }

    /** Every process has waited one dispatch more at its level.  One whose count comes to the
        level's limit, and no other, goes up one level, where it starts counting at 0. */
    method CountWaiting()
      requires |procs| == NPROC
      requires forall q :: 0 <= q < NPROC ==> |procs[q].waits| == 4 && 0 <= procs[q].priority <= TOP
      modifies this`procs
      ensures |procs| == NPROC
      ensures forall q :: 0 <= q < NPROC ==> procs[q] == Waited(old(procs)[q])
      ensures forall q :: 0 <= q < NPROC ==>
                var x, l := old(procs)[q], old(procs)[q].priority;
                if l < 3 && x.waits[l] + 1 >= (if l == 0 then 500 else if l == 1 then 320 else 160)
                then procs[q] == x.(priority := l + 1, waits := x.waits[l := x.waits[l] + 1][l + 1 := 0])
                else procs[q] == x.(waits := x.waits[l := x.waits[l] + 1])
    {
      for s := 0 to NPROC
        invariant |procs| == NPROC
        invariant forall q :: 0 <= q < s ==> procs[q] == Waited(old(procs)[q])
        invariant forall q :: s <= q < NPROC ==> procs[q] == old(procs)[q]
      {
        var l := procs[s].priority;
        procs := procs[s := procs[s].(waits := procs[s].waits[l := procs[s].waits[l] + 1])];
        if procs[s].priority < 3 && procs[s].waits[procs[s].priority] >= CLK_WAIT[procs[s].priority] {
          procs := procs[s := procs[s].(priority := procs[s].priority + 1)];
          procs := procs[s := procs[s].(waits := procs[s].waits[procs[s].priority := 0])];
        }
      }
    }

    /** Between two dispatches of a pass at level `max`, all slots below `p` done. */
    ghost predicate InPass(start: nat, max: int, p: int)
      reads this
    {
      && Valid() && 0 <= max <= TOP && 0 <= p
      && TopBound(procs, log, start, max, p) && |log| - start <= p * TurnLimit(max)
    }

    /** One dispatch of slot `p`, at the lowest level or another. */
    method RunOnce(p: nat, effect: Effect)
      requires ProcsOk(procs) && p < NPROC && procs[p].state == Runnable
      modifies this
      ensures Dispatched(old(procs), p, effect.leaves, procs)
      // the process has waited no longer and has had one tick more at its level
      ensures var x, l := old(procs)[p], old(procs)[p].priority;
              procs[p] == Proc(effect.leaves, x.pid, l, x.ticks[l := x.ticks[l] + 1], x.waits[l := 0], true)
      ensures log == old(log) + [Dispatch(p, old(procs)[p].priority, ReadySet(old(procs)))]
      ensures clock == old(clock) + 1
    {
      ghost var before := procs;
      procs := procs[p := procs[p].(waits := procs[p].waits[procs[p].priority := -1])];
      CountWaiting();
      MarkedIsNotBoosted(before[p]);
      var l := procs[p].priority;
      procs := procs[p := procs[p].(ticks := procs[p].ticks[l := procs[p].ticks[l] + 1])];
      procs := procs[p := procs[p].(inuse := true)];
      procs := procs[p := procs[p].(state := Running)];
      log := log + [Dispatch(p, l, ReadySet(before))];
      clock := clock + 1;
      RunEvents(effect.events);
      procs := procs[p := procs[p].(state := effect.leaves)];
    }

    /** A dispatch inside the turn of slot `p` keeps everything that is known of the table. */
    method Serve(p: nat, effect: Effect, ghost start: nat, ghost max: int)
      requires Valid() && p < NPROC && procs[p].state == Runnable && HasQuantum(procs[p])
      requires 0 <= max <= TOP && TopBound(procs, log, start, max, p) && |log| + 1 - start <= (p + 1) * TurnLimit(max)
      modifies this
      ensures Valid() && TopBound(procs, log, start, max, p) && Age(log, p) == 0
      ensures log == old(log) + [Dispatch(p, old(procs)[p].priority, ReadySet(old(procs)))]
      ensures procs[p] == Served(old(procs)[p], effect.leaves)
      ensures LeftWaiting(old(procs), procs, p)
    {
      hide Patient, TopBound, Age, Bounded;
      ghost var before, l, d := procs, log, Dispatch(p, procs[p].priority, ReadySet(procs));
      RunOnce(p, effect);
      DispatchKeepsTable(before, l, p, effect.leaves, procs, d.level);
      DispatchKeepsTopBound(before, l, p, effect.leaves, procs, d.level, start, max, p);
      AgeAppend(l, d, p);
      DispatchKeepsBounded(procs, l, d, p, start, max);
    }

    /** A dispatch, and the demotion if it used up the level. */
    method ServeAndDemote(p: nat, effect: Effect, ghost start: nat, ghost max: int)
      requires Valid() && p < NPROC && procs[p].state == Runnable && HasQuantum(procs[p])
      requires 0 <= max <= TOP && TopBound(procs, log, start, max, p) && |log| + 1 - start <= (p + 1) * TurnLimit(max)
      modifies this
      ensures Valid() && TopBound(procs, log, start, max, p) && Age(log, p) == 0
      ensures log == old(log) + [Dispatch(p, old(procs)[p].priority, ReadySet(old(procs)))]
      ensures ProcOk(Served(old(procs)[p], effect.leaves))
      ensures procs[p] == Demoted(Served(old(procs)[p], effect.leaves))
      // with its 32, 16 or 8 ticks used up it goes one level down, where it starts ticking at 0
      ensures var x, l := old(procs)[p], old(procs)[p].priority;
              var ticks := x.ticks[l := x.ticks[l] + 1];
              procs[p] == if l > 0 && ticks[l] >= (if l == 1 then 32 else if l == 2 then 16 else 8)
                          then Proc(effect.leaves, x.pid, l - 1, ticks[l - 1 := 0], x.waits[l := 0], true)
                          else Proc(effect.leaves, x.pid, l, ticks, x.waits[l := 0], true)
      ensures LeftWaiting(old(procs), procs, p)
    {
      hide Patient, TopBound, Age, Bounded, LeftWaiting, ReadySet;
      ghost var before := procs;
      Serve(p, effect, start, max);
      DemotionKeepsTable(procs, log, p, start, max);
      ghost var served := procs;
      if procs[p].priority > 0 && procs[p].ticks[procs[p].priority] >= CLK_PER_PRIO[procs[p].priority] {
        procs := procs[p := procs[p].(priority := procs[p].priority - 1)];
        procs := procs[p := procs[p].(ticks := procs[p].ticks[procs[p].priority := 0])];
      }
      assert procs == served[p := Demoted(served[p])];
      OneSlotChanged(served, p, procs[p]);
      LeftWaitingTwice(before, served, procs, p);
    }

    /** A turn above the lowest level: dispatches until the process leaves or the tick count, which
        is carried on across a demotion, has used up the level it is at. */
    method LongTurn(p: nat, effects: nat -> Effect, ghost start: nat, ghost max: int)
        returns (ghost made: seq<Dispatch>)
      requires p < NPROC && InPass(start, max, p) && procs[p].state == Runnable && procs[p].priority == max > 0
      modifies this
      ensures Valid() && TopBound(procs, log, start, max, p) && Age(log, p) == 0
      ensures log == old(log) + made && |made| <= TurnLimit(max)
      ensures TurnLog(old(procs)[p], made, p) && TurnResult(old(procs)[p], procs[p], |made|)
      ensures LeftWaiting(old(procs), procs, p)
    {
      hide Patient, TopBound, Age, Bounded, TurnLog, TurnLevel, TurnTicks, TurnLimit, LeftWaiting, ReadySet, Demoted;
      ghost var before, x, l := procs, procs[p], log;
      made := [];
      EmptyTurn(x, p);
      OneSlotChanged(procs, p, x);
      assert procs[p := x] == procs;
      TurnStarts(x);
      ResetKeepsTable(procs, log, p, start, max);
      OneSlotChanged(procs, p, procs[p].(ticks := procs[p].ticks[max := 0]));
      if procs[p].ticks[procs[p].priority] == CLK_PER_PRIO[procs[p].priority] {
        procs := procs[p := procs[p].(ticks := procs[p].ticks[procs[p].priority := 0])];
      }
      var cou := procs[p].ticks[procs[p].priority];
      while cou < CLK_PER_PRIO[procs[p].priority]
        invariant Valid() && TopBound(procs, log, start, max, p) && LeftWaiting(before, procs, p)
        invariant log == l + made && cou == FirstTick(x) + |made| <= TurnLimit(max)
        invariant |made| > 0 ==> Age(log, p) == 0
        invariant |made| == 0 ==> procs[p].state == Runnable
        invariant TurnLog(x, made, p)
        invariant procs[p].priority == TurnLevel(x, |made|) && procs[p].ticks == TurnTicks(x, |made|)
        decreases TurnLimit(max) - cou
      {
        if procs[p].state != Runnable {
          break;
        }
        TurnStep(x, procs[p], |made|, effects(clock).leaves);
        ghost var d := Dispatch(p, procs[p].priority, ReadySet(procs));
        TurnLogGrows(x, made, p, d);
        ghost var waiting := procs;
        ServeAndDemote(p, effects(clock), start, max);
        made := made + [d];
        LeftWaitingTwice(before, waiting, procs, p);
        cou := cou + 1;
      }
      if cou >= CLK_PER_PRIO[procs[p].priority] {
        TurnEnds(x, |made|);
      }
    }

    /** The turn of slot `p` in a pass at level `max`. */
    method Turn(p: nat, effects: nat -> Effect, ghost start: nat, ghost max: int)
      requires p < NPROC && InPass(start, max, p) && procs[p].state == Runnable && procs[p].priority == max
      modifies this
      ensures InPass(start, max, p + 1)
      ensures old(log) < log
      ensures TurnLog(old(procs)[p], log[|old(log)|..], p)
      ensures TurnResult(old(procs)[p], procs[p], |log| - |old(log)|)
      ensures LeftWaiting(old(procs), procs, p)
    {
      hide Patient, TopBound, Age, Bounded, TurnLog, TurnLevel, TurnTicks, TurnLimit, LeftWaiting, ReadySet;
      TurnLimits(max);
      ghost var x, l := procs[p], log;
      ghost var made: seq<Dispatch>;
      if procs[p].priority > 0 {
        made := LongTurn(p, effects, start, max);
      } else {
        LowestTurn(x, p, Dispatch(p, 0, ReadySet(procs)));
        made := [Dispatch(p, 0, ReadySet(procs))];
        Serve(p, effects(clock), start, max);
      }
      assert log[|l|..] == made;
      SlotIsDone(procs, log, start, max, p);
    }

    /** Interrupts are on, nothing is dispatched. */
    method Interrupts(events: seq<Event>)
      requires Valid() && AtRest(procs, log)
      modifies this
      ensures Valid() && AtRest(procs, log) && log == old(log)
      ensures forall q :: 0 <= q < NPROC ==> Idles(old(procs)[q], procs[q])
    {
      hide Patient, Age, Bounded;
      ghost var before := procs;
      RunEvents(events);
      EventsKeepTable(before, log, procs);
    }

    /** One round of the scheduler's loop. */
    method Pass(effects: nat -> Effect) returns (ghost max: int)
      requires Valid() && AtRest(procs, log)
      modifies this
      ensures Valid() && AtRest(procs, log)
      ensures IsTopLevel(old(procs), max)
      ensures old(log) <= log && PassLog(log[|old(log)|..], max, NPROC)
      // whoever was RUNNABLE at the served level is dispatched, or was boosted above it
      ensures forall q: nat :: q < NPROC && old(procs)[q].state == Runnable && old(procs)[q].priority == max ==>
                Serves(log[|old(log)|..], q) || procs[q].priority > max
    {
      hide Patient, TopBound, Age, Bounded, TurnLog, TurnResult, TurnLimit, AtRest, Serves, PassLog;
      ghost var before, l, entries := procs, log, [];
      var max_pri := 0;
      for p := 0 to NPROC
        invariant 0 <= max_pri <= TOP && IsTopLevel(procs[..p], max_pri)
      {
        assert procs[..p + 1] == procs[..p] + [procs[p]];
        if procs[p].state != Runnable {
          continue;
        }
        if procs[p].priority > max_pri {
          max_pri := procs[p].priority;
        }
      }
      assert procs[..NPROC] == procs;
      max := max_pri;
      PassBegins(procs, log, max);
      NothingServed(max);
      for p := 0 to NPROC
        invariant InPass(|l|, max, p) && log == l + entries && PassLog(entries, max, p)
        invariant forall q: nat :: q < NPROC && before[q].state == Runnable && before[q].priority == max ==>
                    Serves(entries, q)
                        || (procs[q].state == Runnable
                           && if q < p then procs[q].priority > max else procs[q].priority >= max)
      {
        if procs[p].state != Runnable || procs[p].priority != max_pri {
          SlotIsSkipped(procs, log, |l|, max, p);
          SkippedLog(entries, max, p);
          continue;
        }
        ghost var x, mid := procs[p], log;
        Turn(p, effects, |l|, max);
        PassLogGrows(x, p, entries, log[|mid|..], max);
        entries := entries + log[|mid|..];
      }
      PassEnds(procs, log, |l|, max);
      assert log[|l|..] == entries;
    }

    /** The scheduler's endless loop, cut off after any number of rounds. */
    method Run(rounds: nat, interrupts: nat -> seq<Event>, effects: nat -> Effect) returns (ghost trace: seq<Round>)
      requires Valid() && AtRest(procs, log)
      modifies this
      ensures Valid() && AtRest(procs, log)
      // every round serves the highest level there is, and the log is that of all rounds
      ensures |trace| == rounds && log == old(log) + Entries(trace) && Lead(old(procs), trace, procs)
    {
      hide Patient, Age, Bounded, AtRest, Lead, Entries, Idles, Serves, PassLog, IsTopLevel;
      trace := [];
      NoRounds(procs);
      for i := 0 to rounds
        invariant Valid() && AtRest(procs, log) && |trace| == i && log == old(log) + Entries(trace)
        invariant Lead(old(procs), trace, procs)
      {
        ghost var start := procs;
        Interrupts(interrupts(i));
        ghost var before, l := procs, log;
        ghost var max := Pass(effects);
        ghost var round := Round(start, before, max, log[|l|..], procs);
        OneRoundMore(old(procs), trace, round);
        trace := trace + [round];
      }
    }
  }
}
