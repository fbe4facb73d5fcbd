/**
 When the scheduler takes a task away from its worker: leases, heartbeats and the recovery tick, on
 top of the rewrite task and its workers.
 */
module TaskLease {
  import opened Checkpoints
  import opened Options
  import opened RewriteRuns
  import opened RewriteTask

  /** Seconds. */
  const DISPATCH_LEASE := 120
  const LEASE_TTL := 300
  const MAX_RECOVERIES := 10

  /** The lease fields of the task row. */
  datatype Lease = Lease(until: Option<int>, heartbeat: Option<int>, recoveries: nat)

  predicate Active(st: Store) {
    st.status in {Dispatching, Running}
  }

  // ---------- the recovery tick ----------

  /** `repair_active_dispatching_tasks`: is the row taken for one whose worker runs already? */
  predicate LooksAlive(st: Store, lease: Lease, now: int) {
    && st.status == Dispatching && st.owner.Some? && lease.heartbeat.Some?
    && lease.until.Some? && lease.until.value >= now
  }

  /** `reclaim_stale_running_tasks`: is the row taken for one whose worker is gone? `idle` says that it
      was not updated lately. */
  predicate IsStale(st: Store, lease: Lease, now: int, idle: bool) {
    || (Active(st) && lease.until.Some? && lease.until.value < now)
    || (st.status == Dispatching && lease.until.None? && idle)
  }

  function AfterRepair(st: Store, lease: Lease, now: int): Store {
    if LooksAlive(st, lease, now) then AfterScheduler(st, Repair) else st
  }

  /** A stale task goes back to the queue, ten times in its life; then it fails. */
  function TakeAway(lease: Lease): SchedulerOp {
    if lease.recoveries >= MAX_RECOVERIES then Abandon else Reclaim
  }

  function AfterReclaim(st: Store, lease: Lease, now: int, idle: bool): Store {
    if IsStale(st, lease, now, idle) then AfterScheduler(st, TakeAway(lease)) else st
  }

  function LeaseAfterReclaim(st: Store, lease: Lease, now: int, idle: bool): Lease {
    if !IsStale(st, lease, now, idle) then lease
    else lease.(until := None, recoveries := lease.recoveries + if TakeAway(lease) == Reclaim then 1 else 0)
  }

  /** What the reclaiming half does to any row: one whose lease has run out, or that is dispatching without a lease
      and was not updated lately, loses its owner and lease, and is queued or has failed; any other stays. */
  lemma RowIsTakenIff(st: Store, lease: Lease, now: int, idle: bool)
    ensures var taken :=
        || ((st.status == Dispatching || st.status == Running) && lease.until.Some? && lease.until.value < now)
        || (st.status == Dispatching && lease.until == None && idle);
      && (taken ==>
            && AfterReclaim(st, lease, now, idle) ==
               st.(status := if lease.recoveries < 10 then Queued else Failed, owner := None)
            && LeaseAfterReclaim(st, lease, now, idle) ==
               Lease(None, lease.heartbeat, if lease.recoveries < 10 then lease.recoveries + 1 else lease.recoveries))
      && (!taken ==>
            AfterReclaim(st, lease, now, idle) == st && LeaseAfterReclaim(st, lease, now, idle) == lease)
  {
  }

  /** `acquire_or_refresh_lease`. */
  function Refreshed(lease: Lease, now: int): Lease {
    lease.(until := Some(now + LEASE_TTL), heartbeat := Some(now))
  }

  /** The row with its lease, as the object that the transactions update. */
  class LeasedTask {
    const store: TaskStore
    var until: Option<int>
    var heartbeat: Option<int>
    var recoveries: nat

    constructor (store: TaskStore)
      ensures this.store == store && View() == Lease(None, None, 0)
    {
      this.store := store;
      until, heartbeat, recoveries := None, None, 0;
    }

    function View(): Lease
      reads this
    {
      Lease(until, heartbeat, recoveries)
    }

    method Refresh(now: int)
      modifies this`until, this`heartbeat
      ensures View() == Refreshed(old(View()), now)
    {
      until, heartbeat := Some(now + LEASE_TTL), Some(now);
    }

    /** The first half of `recovery_tick` for this row, committed by itself. */
    method RepairActiveDispatching(now: int)
      modifies store`status
      ensures store.View() == AfterRepair(old(store.View()), View(), now)
    {
      if store.status == Dispatching && store.owner.Some? && heartbeat.Some? && until.Some? && until.value >= now {
        store.status := Running;
      }
    }

    /** The second half. */
    method ReclaimStale(now: int, idle: bool)
      modifies this`until, this`recoveries, store`status, store`owner
      ensures store.View() == AfterReclaim(old(store.View()), old(View()), now, idle)
      ensures View() == LeaseAfterReclaim(old(store.View()), old(View()), now, idle)
    {
      var expired := until.Some? && until.value < now;
      if ((store.status == Dispatching || store.status == Running) && expired)
         || (store.status == Dispatching && until.None? && idle) {
        if recoveries >= MAX_RECOVERIES {
          store.status := Failed;
        } else {
          store.status, recoveries := Queued, recoveries + 1;
        }
        store.owner, until := None, None;
      }
    }
  }

  // ---------- runs with a clock ----------

  datatype Timed = Timed(sys: System, lease: Lease)

  /** `Act` is a step of a worker or an operation of the user. The scheduler assigns the task, or fails
      it when its payload is not valid, takes it back when the worker cannot be notified, and in its recovery
      tick repairs and reclaims, one after the other. Every live process beats, whether or not the row names
      its worker. */
  datatype TimedAction =
    | Act(a: Action, now: int)
    | Assign(id: int, valid: bool, now: int)
    | Unpublish(id: int)
    | Beat(pid: int, now: int)
    | Report(now: int)
    | RepairTick(now: int)
    | ReclaimTick(now: int, idle: bool)

  predicate IsOfScheduler(a: Action) {
    a.Schedule? && a.op !in {Pause, Resume, Cancel}
  }

  predicate IsLive(sys: System, pid: int) {
    pid in sys.workers && sys.workers[pid].pc != Gone
  }

  /** The lease after a worker or the user changed the row: starting it refreshes the lease, taking it out
      of the worker's hands clears it. */
  function LeaseAfterAct(lease: Lease, before: Store, after: Store, now: int): Lease {
    if after.status == before.status then lease
    else if after.status == Running then Refreshed(lease, now)
    else lease.(until := None)
  }

  ghost function NextTimed(span: Span, t: Timed, a: TimedAction): Timed {
    var sys, st, lease := t.sys, t.sys.store, t.lease;
    match a
    case Act(act, now) =>
      if IsOfScheduler(act) then t
      else
        var next := Next(span, sys, act);
        Timed(next, LeaseAfterAct(lease, st, next.store, now))
    case Assign(id, valid, now) =>
      if st.status != Queued then t
      else
        var given := AfterScheduler(st, Dispatch(id));
        if valid then Timed(sys.(store := given), lease.(until := Some(now + DISPATCH_LEASE)))
        else Timed(sys.(store := AfterScheduler(given, Abandon)), lease.(until := None))
    case Unpublish(id) =>
      if st.status == Dispatching && st.owner == Some(id) then
        Timed(sys.(store := AfterScheduler(st, Reclaim)), lease.(until := None))
      else t
    case Beat(pid, now) => if IsLive(sys, pid) then t.(lease := Refreshed(lease, now)) else t
    case Report(now) => if st.status == Running then t.(lease := Refreshed(lease, now)) else t
    case RepairTick(now) => t.(sys := sys.(store := AfterRepair(st, lease, now)))
    case ReclaimTick(now, idle) =>
      Timed(sys.(store := AfterReclaim(st, lease, now, idle)), LeaseAfterReclaim(st, lease, now, idle))
  }

  ghost function RunTimed(span: Span, t: Timed, actions: seq<TimedAction>): Timed {
    if actions == [] then t
    else NextTimed(span, RunTimed(span, t, actions[..|actions| - 1]), actions[|actions| - 1])
  }

  const START := Timed(INITIAL, Lease(None, None, 0))

  lemma NextTimedIsARun(span: Span, t: Timed, a: TimedAction, plain: seq<Action>) returns (longer: seq<Action>)
    requires t.sys == RunFrom(span, INITIAL, plain)
    ensures NextTimed(span, t, a).sys == RunFrom(span, INITIAL, longer)
  {
    longer := plain;
    var st := t.sys.store;
    match a {
      case Act(act, now) =>
        if !IsOfScheduler(act) {
          longer := Then(span, INITIAL, longer, act, 0);
        }
      case Assign(id, valid, now) =>
        longer := Then(span, INITIAL, longer, Schedule(Dispatch(id)), 0);
        if st.status == Queued && !valid {
          longer := Then(span, INITIAL, longer, Schedule(Abandon), 0);
        }
      case Unpublish(id) =>
        if st.status == Dispatching && st.owner == Some(id) {
          longer := Then(span, INITIAL, longer, Schedule(Reclaim), 0);
        }
      case Beat(pid, now) =>
      case Report(now) =>
      case RepairTick(now) =>
        if LooksAlive(st, t.lease, now) {
          longer := Then(span, INITIAL, longer, Schedule(Repair), 0);
        }
      case ReclaimTick(now, idle) =>
        if IsStale(st, t.lease, now, idle) {
          longer := Then(span, INITIAL, longer, Schedule(TakeAway(t.lease)), 0);
        }
    }
  }

  /** Whatever the leases, clocks and heartbeats: what happens to tasks and workers is a run of the
      untimed system, so that all its theorems hold here. */
  lemma {:induction false} TimedRunIsARun(span: Span, actions: seq<TimedAction>) returns (plain: seq<Action>)
    ensures RunTimed(span, START, actions).sys == RunFrom(span, INITIAL, plain)
  {
    if actions == [] {
      plain := [];
    } else {
      var init := actions[..|actions| - 1];
      plain := TimedRunIsARun(span, init);
      plain := NextTimedIsARun(span, RunTimed(span, START, init), actions[|actions| - 1], plain);
    }
  }

  // ---------- when a task is taken away ----------

  /** A task that somebody works on has an owner and a lease. */
  predicate IsLeased(t: Timed) {
    && (Active(t.sys.store) <==> t.sys.store.owner.Some?)
    && (Active(t.sys.store) ==> t.lease.until.Some?)
    && t.lease.recoveries <= MAX_RECOVERIES
  }

  lemma ActKeepsOwner(span: Span, sys: System, a: Action)
    requires Invariant(span, sys) && !IsOfScheduler(a)
    requires Active(sys.store) <==> sys.store.owner.Some?
    ensures var st := Next(span, sys, a).store;
            && (Active(st) <==> st.owner.Some?)
            && (Active(st) ==> Active(sys.store) && st.owner == sys.store.owner)
            && (Active(st) && st.status != sys.store.status ==> st.status == Running)
  {
    if a.Step? && a.pid in sys.workers {
      assert PcFits(span, sys.workers[a.pid].pc, Frontier(span, sys.store), sys.store.chapters);
    }
  }

  lemma NextIsLeased(span: Span, t: Timed, a: TimedAction)
    requires Invariant(span, t.sys) && IsLeased(t)
    ensures IsLeased(NextTimed(span, t, a))
  {
    if a.Act? && !IsOfScheduler(a.a) {
      ActKeepsOwner(span, t.sys, a.a);
    }
  }

  lemma NextTimedKeepsInvariant(span: Span, t: Timed, a: TimedAction)
    requires Invariant(span, t.sys)
    ensures Invariant(span, NextTimed(span, t, a).sys)
  {
    match a
    case Act(act, now) => NextKeepsInvariant(span, t.sys, act);
    case Assign(id, valid, now) => SchedulingKeepsInvariant(span, t.sys, NextTimed(span, t, a).sys);
    case Unpublish(id) => SchedulingKeepsInvariant(span, t.sys, NextTimed(span, t, a).sys);
    case Beat(pid, now) =>
    case Report(now) =>
    case RepairTick(now) => SchedulingKeepsInvariant(span, t.sys, NextTimed(span, t, a).sys);
    case ReclaimTick(now, idle) => SchedulingKeepsInvariant(span, t.sys, NextTimed(span, t, a).sys);
  }

  lemma SchedulingKeepsInvariant(span: Span, sys: System, next: System)
    requires Invariant(span, sys)
    requires next == sys.(store := sys.store.(status := next.store.status, owner := next.store.owner))
    requires next.store.status == Completed ==> sys.store.status == Completed
    ensures Invariant(span, next)
  {
    assert Frontier(span, next.store) == Frontier(span, sys.store);
  }

  lemma {:induction false} RunIsLeased(span: Span, actions: seq<TimedAction>)
    ensures IsLeased(RunTimed(span, START, actions))
  {
    if actions != [] {
      var init := actions[..|actions| - 1];
      var plain := TimedRunIsARun(span, init);
      ReachableInvariant(span, plain);
      RunIsLeased(span, init);
      NextIsLeased(span, RunTimed(span, START, init), actions[|actions| - 1]);
    }
  }

  /** In every reachable state a tick takes the task away from its worker if and only if the lease has run
      out: the branch for rows without a lease is never taken. The task is queued again, or fails if it
      was taken away ten times before. */
  lemma TickTakesIff(span: Span, actions: seq<TimedAction>, now: int, idle: bool)
    requires RunTimed(span, START, actions).sys.store.owner.Some?
    ensures var t := RunTimed(span, START, actions);
      var st, next := t.sys.store, NextTimed(span, t, ReclaimTick(now, idle)).sys.store;
      && t.lease.until.Some?
      && (next.owner != st.owner <==> t.lease.until.value < now)
      && (next.owner != st.owner ==>
            && next.owner == None
            && next.status == (if t.lease.recoveries < MAX_RECOVERIES then Queued else Failed))
  {
    RunIsLeased(span, actions);
  }

  predicate IsTaken(before: Store, after: Store) {
    before.owner.Some? && after.owner != before.owner
  }

  /** How many ticks queued the task again. */
  ghost function Requeues(span: Span, actions: seq<TimedAction>): nat {
    if actions == [] then 0
    else
      var t, a := RunTimed(span, START, actions[..|actions| - 1]), actions[|actions| - 1];
      var after := NextTimed(span, t, a).sys.store;
      Requeues(span, actions[..|actions| - 1])
      + if a.ReclaimTick? && IsTaken(t.sys.store, after) && after.status == Queued then 1 else 0
  }

  /** Over the whole life of a task, whoever resumes it in between, ticks queue it again at most ten times. */
  lemma {:induction false} RequeuesAreCounted(span: Span, actions: seq<TimedAction>)
    ensures Requeues(span, actions) == RunTimed(span, START, actions).lease.recoveries <= MAX_RECOVERIES
  {
    RunIsLeased(span, actions);
    if actions != [] {
      RequeuesAreCounted(span, actions[..|actions| - 1]);
      RunIsLeased(span, actions[..|actions| - 1]);
    }
  }

  // ---------- what a heartbeat protects ----------

  /** How many ticks take the task away. */
  ghost function Takes(span: Span, t: Timed, actions: seq<TimedAction>): nat {
    if actions == [] then 0
    else
      var before, a := RunTimed(span, t, actions[..|actions| - 1]), actions[|actions| - 1];
      Takes(span, t, actions[..|actions| - 1])
      + if a.ReclaimTick? && IsTaken(before.sys.store, NextTimed(span, before, a).sys.store) then 1 else 0
  }

  /** The action is not before `b`, no assignment, and no tick later than a lease after `b`. */
  predicate IsWithin(a: TimedAction, b: int) {
    match a
    case Act(act, now) => b <= now
    case Assign(id, valid, now) => false
    case Unpublish(id) => true
    case Beat(pid, now) => b <= now
    case Report(now) => b <= now
    case RepairTick(now) => true
    case ReclaimTick(now, idle) => now <= b + LEASE_TTL
  }

  predicate IsProtected(t: Timed, b: int) {
    t.sys.store.owner.Some? ==> t.lease.until.Some? && t.lease.until.value >= b + LEASE_TTL
  }

  lemma NextIsProtected(span: Span, t: Timed, a: TimedAction, b: int)
    requires Invariant(span, t.sys) && IsLeased(t) && IsProtected(t, b) && IsWithin(a, b)
    ensures IsProtected(NextTimed(span, t, a), b)
    ensures a.ReclaimTick? ==> !IsTaken(t.sys.store, NextTimed(span, t, a).sys.store)
  {
    if a.Act? && !IsOfScheduler(a.a) {
      ActKeepsOwner(span, t.sys, a.a);
    }
  }

  lemma TimedInvariant(span: Span, actions: seq<TimedAction>)
    ensures var t := RunTimed(span, START, actions); Invariant(span, t.sys) && IsLeased(t)
  {
    var plain := TimedRunIsARun(span, actions);
    ReachableInvariant(span, plain);
    RunIsLeased(span, actions);
  }

  lemma {:induction false} RunIsProtected(span: Span, t: Timed, rest: seq<TimedAction>, b: int)
    requires Invariant(span, t.sys) && IsLeased(t) && IsProtected(t, b)
    requires forall a :: a in rest ==> IsWithin(a, b)
    ensures var end := RunTimed(span, t, rest); Invariant(span, end.sys) && IsLeased(end) && IsProtected(end, b)
    ensures Takes(span, t, rest) == 0
  {
    if rest != [] {
      var init, a := rest[..|rest| - 1], rest[|rest| - 1];
      assert a in rest;
      RunIsProtected(span, t, init, b);
      var before := RunTimed(span, t, init);
      NextIsLeased(span, before, a);
      NextIsProtected(span, before, a, b);
      NextTimedKeepsInvariant(span, before, a);
    }
  }

  /** After a heartbeat of any live process no tick within a lease takes the task away, unless it is
      assigned anew in between. */
  lemma HeartbeatProtects(span: Span, actions: seq<TimedAction>, pid: int, b: int, rest: seq<TimedAction>)
    requires IsLive(RunTimed(span, START, actions).sys, pid)
    requires forall a :: a in rest ==> IsWithin(a, b)
    ensures Takes(span, RunTimed(span, START, actions + [Beat(pid, b)]), rest) == 0
  {
    assert (actions + [Beat(pid, b)])[..|actions|] == actions;
    TimedInvariant(span, actions + [Beat(pid, b)]);
    RunIsProtected(span, RunTimed(span, START, actions + [Beat(pid, b)]), rest, b);
  }

  // ---------- what silence costs ----------

  /** Nothing after time `b` refreshes a lease. */
  predicate IsSilentAfter(a: TimedAction, b: int) {
    match a
    case Act(act, now) => now <= b
    case Assign(id, valid, now) => now <= b
    case Unpublish(id) => true
    case Beat(pid, now) => now <= b
    case Report(now) => now <= b
    case RepairTick(now) => true
    case ReclaimTick(now, idle) => true
  }

  lemma {:induction false} LeaseIsBounded(span: Span, actions: seq<TimedAction>, b: int)
    requires forall a :: a in actions ==> IsSilentAfter(a, b)
    ensures var until := RunTimed(span, START, actions).lease.until; until.Some? ==> until.value <= b + LEASE_TTL
  {
    if actions != [] {
      LeaseIsBounded(span, actions[..|actions| - 1], b);
      assert IsSilentAfter(actions[|actions| - 1], b);
    }
  }

  /** If nothing since time `b` could refresh a lease, a tick more than a lease later takes the task away,
      whoever has it. */
  lemma SilenceLosesTheTask(span: Span, actions: seq<TimedAction>, b: int, now: int, idle: bool)
    requires forall a :: a in actions ==> IsSilentAfter(a, b)
    requires RunTimed(span, START, actions).sys.store.owner.Some? && now > b + LEASE_TTL
    ensures var t := RunTimed(span, START, actions);
      IsTaken(t.sys.store, NextTimed(span, t, ReclaimTick(now, idle)).sys.store)
  {
    LeaseIsBounded(span, actions, b);
    TickTakesIff(span, actions, now, idle);
  }

  // ---------- whose heartbeat it is ----------

  /** The action leaves a heartbeat on the row. */
  ghost predicate LeavesBeat(span: Span, t: Timed, a: TimedAction) {
    match a
    case Act(act, now) =>
      var after := Next(span, t.sys, act).store.status;
      !IsOfScheduler(act) && after == Running && t.sys.store.status != Running
    case Beat(pid, now) => IsLive(t.sys, pid)
    case Report(now) => t.sys.store.status == Running
    case _ => false
  }

  ghost predicate EverBeat(span: Span, actions: seq<TimedAction>) {
    actions != [] &&
    var init := actions[..|actions| - 1];
    EverBeat(span, init) || LeavesBeat(span, RunTimed(span, START, init), actions[|actions| - 1])
  }

  lemma {:induction false} HeartbeatIff(span: Span, actions: seq<TimedAction>)
    ensures RunTimed(span, START, actions).lease.heartbeat.Some? <==> EverBeat(span, actions)
  {
    if actions != [] {
      HeartbeatIff(span, actions[..|actions| - 1]);
    }
  }

  /** A tick within the lease marks an assigned task as running if and only if any worker of the task, the
      assigned one or an earlier one, ever left a heartbeat: nothing clears it. */
  lemma RepairedIff(span: Span, actions: seq<TimedAction>, now: int)
    requires var t := RunTimed(span, START, actions);
      t.sys.store.status == Dispatching && t.lease.until.Some? && now <= t.lease.until.value
    ensures NextTimed(span, RunTimed(span, START, actions), RepairTick(now)).sys.store.status == Running
            <==> EverBeat(span, actions)
  {
    HeartbeatIff(span, actions);
    RunIsLeased(span, actions);
  }

  lemma ThenTimed(span: Span, t: Timed, actions: seq<TimedAction>, a: TimedAction) returns (longer: seq<TimedAction>)
    ensures longer == actions + [a]
    ensures RunTimed(span, t, longer) == NextTimed(span, RunTimed(span, t, actions), a)
  {
    longer := actions + [a];
    assert longer[..|actions|] == actions;
  }

  /** A run in which worker 1 lost the task and it was assigned to worker 2, at time 302. */
  lemma Reassigned(span: Span) returns (actions: seq<TimedAction>)
    ensures RunTimed(span, START, actions) ==
            Timed(System(NEW_STORE.(status := Dispatching, owner := Some(2)), map[1 := Worker(1, Resolving)]),
                  Lease(Some(422), Some(0), 1))
  {
    actions := ThenTimed(span, START, [], Assign(1, true, 0));
    actions := ThenTimed(span, START, actions, Act(Deliver(1, 1), 0));
    actions := ThenTimed(span, START, actions, Act(Step(1), 0));
    actions := ThenTimed(span, START, actions, ReclaimTick(301, false));
    actions := ThenTimed(span, START, actions, Assign(2, true, 302));
  }

  /** So a task can be running before its worker even exists. */
  lemma RunningWithoutWorker(span: Span) returns (actions: seq<TimedAction>)
    ensures var sys := RunTimed(span, START, actions).sys;
            && sys.store.status == Running && sys.store.owner == Some(2)
            && forall pid :: pid in sys.workers ==> sys.workers[pid].id != 2
  {
    actions := Reassigned(span);
    actions := ThenTimed(span, START, actions, RepairTick(303));
  }

  predicate SuccessorDied(t: Timed) {
    && t.sys.store.status == Running && t.sys.store.owner == Some(2)
    && t.sys.workers == map[1 := Worker(1, Resolving), 2 := Worker(2, Gone)]
  }

  lemma SuccessorDies(span: Span) returns (actions: seq<TimedAction>)
    ensures SuccessorDied(RunTimed(span, START, actions))
  {
    actions := Reassigned(span);
    actions := ThenTimed(span, START, actions, Act(Deliver(2, 2), 302));
    actions := ThenTimed(span, START, actions, Act(Step(2), 302));
    actions := ThenTimed(span, START, actions, Act(Crash(2), 302));
  }

  /** And the heartbeats of a displaced worker can keep the task with a successor that died, for as many
      ticks as one likes. */
  lemma {:induction false} ForeignBeatsKeepTheTask(span: Span, n: nat)
    returns (before: seq<TimedAction>, rounds: seq<TimedAction>)
    ensures |rounds| == 2 * n
    ensures forall k :: 0 <= k < n ==> rounds[2 * k] == Beat(1, 303 + 300 * k)
    ensures forall k :: 0 <= k < n ==> rounds[2 * k + 1] == ReclaimTick(603 + 300 * k, false)
    ensures SuccessorDied(RunTimed(span, START, before))
    ensures RunTimed(span, RunTimed(span, START, before), rounds).sys == RunTimed(span, START, before).sys
  {
    if n == 0 {
      before := SuccessorDies(span);
      rounds := [];
    } else {
      var earlier;
      before, earlier := ForeignBeatsKeepTheTask(span, n - 1);
      var t, at := RunTimed(span, START, before), 303 + 300 * (n - 1);
      rounds := ThenTimed(span, t, earlier, Beat(1, at));
      rounds := ThenTimed(span, t, rounds, ReclaimTick(at + 300, false));
    }
  }
}
