/**
 The transaction lock and the boot hand-off: the boot task, the link monitor, the daemon's main loop and any number of
 clients take steps in any order.  The monitor is the whole model of the other modules; its log is the channel the main
 loop reads.

 Taking the lock is two steps (the mutex, then the pid), and so is releasing it (the pid, then the mutex).
 */
module BootLock {
  import opened LinkMonitor
  import opened MonitorInvariants
  import opened MonitorRuns
  import opened MonitorSession

  datatype Holder = NoOne | BootTask | OfClient(id: nat)

  /** The boot task: applying the saved state, waiting for the boot batch, pid cleared, mutex released. */
  datatype BootPhase = Applying | Waiting | Leaving | Gone

  /** A client: outside the lock, with the mutex, in its transaction, with the pid cleared. */
  datatype Phase = Outside | Acquired | Running | Finishing

  datatype Client = Client(pid: int, phase: Phase)

  datatype Sys = Sys(mon: State, seen: nat, permit: bool, boot: BootPhase, failed: bool,
                     holder: Holder, pid: int, clients: map<nat, Client>)

  datatype Action =
    | MonitorStep(st: Step)
    | MainLoop
    | BootOk
    | BootErr
    | BootWake
    | BootRelease
    | Connect(id: nat, peer: int)
    | Lock(id: nat)
    | StorePid(id: nat)
    | ClearPid(id: nat)
    | Unlock(id: nat)

  predicate IsBootBatch(x: Entry) {
    x.BatchSent? && x.boot
  }

  predicate In(s: Sys, id: nat, p: Phase) {
    id in s.clients && s.clients[id].phase == p
  }

  predicate Enabled(s: Sys, a: Action) {
    match a
    case MonitorStep(_) => true
    case MainLoop => s.seen < |s.mon.log|
    case BootOk => s.boot.Applying? && s.mon.started
    case BootErr => s.boot.Applying?
    case BootWake => s.boot.Waiting? && s.permit
    case BootRelease => s.boot.Leaving?
    case Connect(id, _) => id !in s.clients
    case Lock(id) => In(s, id, Outside) && s.holder.NoOne?
    case StorePid(id) => In(s, id, Acquired)
    case ClearPid(id) => In(s, id, Running)
    case Unlock(id) => In(s, id, Finishing)
  }

  function Move(s: Sys, id: nat, p: Phase): map<nat, Client>
    requires id in s.clients
  {
    s.clients[id := s.clients[id].(phase := p)]
  }

  function Do(s: Sys, a: Action): Sys
    requires Enabled(s, a)
  {
    match a
    case MonitorStep(st) => s.(mon := Next(s.mon, st).s)
    case MainLoop => s.(seen := s.seen + 1, permit := s.permit || IsBootBatch(s.mon.log[s.seen]))
    case BootOk => s.(boot := Waiting)
    case BootErr => s.(boot := Leaving, failed := true, pid := 0)
    case BootWake => s.(boot := Leaving, permit := false, pid := 0)
    case BootRelease => s.(boot := Gone, holder := NoOne)
    case Connect(id, peer) => s.(clients := s.clients[id := Client(peer, Outside)])
    case Lock(id) => s.(holder := OfClient(id), clients := Move(s, id, Acquired))
    case StorePid(id) => s.(pid := s.clients[id].pid, clients := Move(s, id, Running))
    case ClearPid(id) => s.(pid := 0, clients := Move(s, id, Finishing))
    case Unlock(id) => s.(holder := NoOne, clients := Move(s, id, Outside))
  }

  /** The daemon holds the lock before the boot task and the main loop start. */
  ghost predicate Start(s: Sys, daemon: int) {
    && s.mon == INITIAL.(sender := true)
    && s.seen == 0 && !s.permit && s.boot.Applying? && !s.failed
    && s.holder.BootTask? && s.pid == daemon && s.clients == map[]
  }

  ghost predicate Runs(s: Sys, acts: seq<Action>, t: Sys)
    decreases |acts|
  {
    if acts == [] then s == t else Enabled(s, acts[0]) && Runs(Do(s, acts[0]), acts[1..], t)
  }

  // ---------------------------------------------------------------- the invariant

  /** How many boot batches the main loop has handled. */
  ghost function Handled(s: Sys): nat
    requires s.seen <= |s.mon.log|
  {
    BootBatches(s.mon.log[..s.seen])
  }

  ghost predicate MonitorInv(m: State) {
    Steady(m) && m.sender && BootBatches(m.log) == if m.started then 1 else 0
  }

  /** The mutex: the boot task has it until it is gone; a client has it exactly while it is inside. */
  ghost predicate MutexInv(s: Sys) {
    && (s.holder.BootTask? <==> !s.boot.Gone?)
    && (s.holder.OfClient? ==> s.holder.id in s.clients)
    && (forall id :: id in s.clients ==> (s.clients[id].phase.Outside? <==> s.holder != OfClient(id)))
  }

  /** The pid: the daemon's until the boot task leaves, a client's exactly during its transaction, otherwise zero. */
  ghost predicate PidInv(s: Sys, daemon: int) {
    s.pid == match s.holder
             case NoOne => 0
             case BootTask => if s.boot.Leaving? then 0 else daemon
             case OfClient(id) => if In(s, id, Running) then s.clients[id].pid else 0
  }

  /** The hand-off: until the boot task leaves, a handled boot batch is a pending permit; it leaves after a failure or
      with the batch handled. */
  ghost predicate BootInv(s: Sys) {
    && s.seen <= |s.mon.log|
    && (s.boot.Waiting? ==> s.mon.started)
    && (s.boot.Applying? || s.boot.Waiting? ==> (s.permit <==> Handled(s) == 1))
    && (s.boot.Leaving? || s.boot.Gone? ==> s.failed || Handled(s) == 1)
  }

  ghost predicate Inv(s: Sys, daemon: int) {
    MonitorInv(s.mon) && MutexInv(s) && PidInv(s, daemon) && BootInv(s)
  }

  lemma {:induction false} StartInv(s: Sys, daemon: int)
    requires Start(s, daemon)
    ensures Inv(s, daemon)
  {
  }

  lemma {:induction false} MonitorKeeps(m: State, st: Step)
    requires MonitorInv(m)
    ensures MonitorInv(Next(m, st).s) && m.log <= Next(m, st).s.log && (m.started ==> Next(m, st).s.started)
  {
    NextAdvances(m, st);
    BootBatchOnce(m, [st]);
    assert RunFrom(m, [st]) == Next(m, st).s by {
      assert [st][1..] == [];
    }
    BatchesGrow(m.log, Next(m, st).s.log);
  }

  lemma {:induction false} BatchesGrow(log: seq<Entry>, more: seq<Entry>)
    requires log <= more
    ensures BootBatches(log) <= BootBatches(more)
    decreases |more|
  {
    if |log| < |more| {
      assert log <= more[..|more| - 1];
      BatchesGrow(log, more[..|more| - 1]);
    } else {
      assert log == more;
    }
  }

  lemma {:induction false} MonitorStepInv(s: Sys, st: Step, daemon: int)
    requires Inv(s, daemon)
    ensures Inv(Do(s, MonitorStep(st)), daemon)
  {
    MonitorKeeps(s.mon, st);
    assert Next(s.mon, st).s.log[..s.seen] == s.mon.log[..s.seen];
  }

  lemma {:induction false} MainLoopInv(s: Sys, daemon: int)
    requires Inv(s, daemon) && Enabled(s, MainLoop)
    ensures Inv(Do(s, MainLoop), daemon)
    ensures Handled(Do(s, MainLoop)) == Handled(s) + if IsBootBatch(s.mon.log[s.seen]) then 1 else 0
  {
    var log := s.mon.log;
    assert log[..s.seen + 1][..s.seen] == log[..s.seen] && log[..s.seen + 1][s.seen] == log[s.seen];
    BatchesGrow(log[..s.seen + 1], log);
  }

  lemma {:induction false} BootStepInv(s: Sys, a: Action, daemon: int)
    requires Inv(s, daemon) && Enabled(s, a) && (a.BootOk? || a.BootErr? || a.BootWake? || a.BootRelease?)
    ensures Inv(Do(s, a), daemon)
  {
    var t := Do(s, a);
    assert t.clients == s.clients && t.mon == s.mon && t.seen == s.seen;
    if a.BootRelease? {
      assert forall id :: id in s.clients ==> s.holder != OfClient(id);
    }
  }

  lemma {:induction false} ConnectInv(s: Sys, id: nat, peer: int, daemon: int)
    requires Inv(s, daemon) && Enabled(s, Connect(id, peer))
    ensures Inv(Do(s, Connect(id, peer)), daemon)
  {
    assert s.holder != OfClient(id);
  }

  lemma {:induction false} LockInv(s: Sys, id: nat, daemon: int)
    requires Inv(s, daemon) && Enabled(s, Lock(id))
    ensures Inv(Do(s, Lock(id)), daemon)
  {
  }

  lemma {:induction false} InsideInv(s: Sys, a: Action, daemon: int)
    requires Inv(s, daemon) && Enabled(s, a) && (a.StorePid? || a.ClearPid?)
    ensures Inv(Do(s, a), daemon)
  {
    assert s.holder == OfClient(a.id);
  }

  lemma {:induction false} UnlockInv(s: Sys, id: nat, daemon: int)
    requires Inv(s, daemon) && Enabled(s, Unlock(id))
    ensures Inv(Do(s, Unlock(id)), daemon)
  {
    assert s.holder == OfClient(id);
  }

  lemma {:induction false} DoInv(s: Sys, a: Action, daemon: int)
    requires Inv(s, daemon) && Enabled(s, a)
    ensures Inv(Do(s, a), daemon)
  {
    match a
    case MonitorStep(st) => MonitorStepInv(s, st, daemon);
    case MainLoop => MainLoopInv(s, daemon);
    case BootOk => BootStepInv(s, a, daemon);
    case BootErr => BootStepInv(s, a, daemon);
    case BootWake => BootStepInv(s, a, daemon);
    case BootRelease => BootStepInv(s, a, daemon);
    case Connect(id, peer) => ConnectInv(s, id, peer, daemon);
    case Lock(id) => LockInv(s, id, daemon);
    case StorePid(_) => InsideInv(s, a, daemon);
    case ClearPid(_) => InsideInv(s, a, daemon);
    case Unlock(id) => UnlockInv(s, id, daemon);
  }

  lemma {:induction false} RunInv(s: Sys, acts: seq<Action>, t: Sys, daemon: int)
    requires Inv(s, daemon) && Runs(s, acts, t)
    ensures Inv(t, daemon)
    decreases |acts|
  {
    if acts != [] {
      DoInv(s, acts[0], daemon);
      RunInv(Do(s, acts[0]), acts[1..], t, daemon);
    }
  }

  // ---------------------------------------------------------------- every interleaving

  /** A reachable state. */
  ghost predicate Reachable(s: Sys, daemon: int) {
    exists s0, acts :: Start(s0, daemon) && Runs(s0, acts, s)
  }

  lemma {:induction false} ReachableInv(s: Sys, daemon: int)
    requires Reachable(s, daemon)
    ensures Inv(s, daemon)
  {
    var s0, acts :| Start(s0, daemon) && Runs(s0, acts, s);
    StartInv(s0, daemon);
    RunInv(s0, acts, s, daemon);
  }

  /** A pid other than zero is that of whoever holds the mutex. */
  lemma {:induction false} PidIsHolders(s: Sys, daemon: int)
    requires Reachable(s, daemon) && s.pid != 0
    ensures (s.holder.BootTask? && s.pid == daemon) ||
            (exists id :: s.holder == OfClient(id) && In(s, id, Running) && s.pid == s.clients[id].pid)
  {
    ReachableInv(s, daemon);
  }

  /** At most one client is between taking the mutex and giving it back, and none while the boot task has it. */
  lemma {:induction false} MutualExclusion(s: Sys, daemon: int, i: nat, j: nat)
    requires Reachable(s, daemon) && i in s.clients && !s.clients[i].phase.Outside?
    ensures s.boot.Gone? && (j in s.clients && j != i ==> s.clients[j].phase.Outside?)
  {
    ReachableInv(s, daemon);
  }

  /** No client gets into a transaction before the boot batch was handled, unless the boot apply failed. */
  lemma {:induction false} ClientsWaitForBoot(s: Sys, daemon: int, id: nat)
    requires Reachable(s, daemon) && id in s.clients && !s.clients[id].phase.Outside?
    ensures s.seen <= |s.mon.log| && (s.failed || Handled(s) == 1)
  {
    ReachableInv(s, daemon);
  }

  /** The monitor sends at most one boot batch, so the main loop gives at most one permit. */
  lemma {:induction false} OneBootBatch(s: Sys, daemon: int)
    requires Reachable(s, daemon)
    ensures BootBatches(s.mon.log) <= 1 && s.seen <= |s.mon.log| && Handled(s) <= 1
  {
    ReachableInv(s, daemon);
    BatchesGrow(s.mon.log[..s.seen], s.mon.log);
  }

  // ---------------------------------------------------------------- the lock is always given back

  /** The wake-up is never lost: once the boot apply is over, the steps of the main loop and the boot task alone free
      the lock. */
  lemma {:induction false} BootAlwaysLeaves(s: Sys, daemon: int) returns (acts: seq<Action>, t: Sys)
    requires Reachable(s, daemon) && (s.boot.Waiting? || s.boot.Leaving?)
    ensures Runs(s, acts, t) && t.boot.Gone? && t.holder.NoOne? && t.pid == 0
    ensures forall i :: 0 <= i < |acts| ==> acts[i].MainLoop? || acts[i].BootWake? || acts[i].BootRelease?
  {
    ReachableInv(s, daemon);
    acts, t := LeaveFrom(s, daemon);
  }

  lemma {:induction false} LeaveFrom(s: Sys, daemon: int) returns (acts: seq<Action>, t: Sys)
    requires Inv(s, daemon) && (s.boot.Waiting? || s.boot.Leaving?)
    ensures Runs(s, acts, t) && t.boot.Gone? && t.holder.NoOne? && t.pid == 0
    ensures forall i :: 0 <= i < |acts| ==> acts[i].MainLoop? || acts[i].BootWake? || acts[i].BootRelease?
    decreases |s.mon.log| - s.seen, if s.boot.Waiting? then 1 else 0
  {
    var first;
    if s.boot.Leaving? {
      first := BootRelease;
      DoInv(s, first, daemon);
      t := Do(s, first);
      acts := [first];
      assert acts[1..] == [];
      return;
    } else if s.permit {
      first := BootWake;
    } else {
      assert s.mon.log[..|s.mon.log|] == s.mon.log;
      first := MainLoop;
    }
    DoInv(s, first, daemon);
    var rest;
    rest, t := LeaveFrom(Do(s, first), daemon);
    acts := [first] + rest;
    assert acts[1..] == rest;
  }
}
