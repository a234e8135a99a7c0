/**
 The link monitor worker: the fields it updates in place and the methods that update them.  Each method is
 proved to have exactly the effect, and to return exactly the result, of the function of the same name in
 LinkMonitor.dfy, about which the other monitor modules prove what must hold over whole runs.
 */
module MonitorWorker {
  import opened Base
  import opened LinkMonitor
  import opened MonitorInvariants
  import opened MonitorRuns
  import opened MonitorSession

  /** The visit orders a step comes with go over every key of the map it iterates over. */
  ghost predicate Visits(s: State, st: Step) {
    match st.input
    case Command(_, _, order) => s.paused.Some? ==> Covers(order, s.paused.value.Keys)
    case Netlink(_, _) => true
    case UdevRetry(order) => Covers(order, s.pending.Keys)
    case DelayDue(order) => Covers(order, s.delay.Keys)
    case Reconciliation(view, order, tracked) =>
      (view.Some? ==> Covers(order, view.value.Keys)) && Covers(tracked, s.emitted.Keys)
  }

  ghost predicate RunVisits(s: State, run: seq<Step>)
    decreases |run|
  {
    run == [] || (Visits(s, run[0]) && RunVisits(Next(s, run[0]).s, run[1..]))
  }

  class MonitorWorker {
    var ifaceMonitorList: set<string>
    var macWatchList: set<string>
    var ifaceMac: map<string, string>
    var wifiMonitorEnabled: bool
    var msgToCommander: bool
    var manualPauseCount: nat
    var explicitlyDown: set<string>
    var emitted: map<string, LastEvent>
    var pausedState: Option<map<string, LastEvent>>
    var wifiPhysEmitted: set<string>
    var delayQueue: map<string, Delayed>
    var started: bool
    var udevPendingEvents: map<string, LinkEvent>
    var collectBatch: Option<Batch>
    var netlinkHandle: bool
    ghost var log: seq<Entry>

    ghost function View(): State
      reads this
    {
      State(ifaceMonitorList, macWatchList, ifaceMac, wifiMonitorEnabled, msgToCommander, manualPauseCount,
            explicitlyDown, emitted, pausedState, wifiPhysEmitted, delayQueue, started, udevPendingEvents,
            collectBatch, netlinkHandle, log)
    }

    /** Between steps: the link invariants hold, no batch is open, and an open session was started and has no snapshot.
        */
    ghost predicate Valid()
      reads this
    {
      Steady(View()) && OpenIsClean(View())
    }

    constructor ()
      ensures View() == INITIAL && Valid()
    {
      ifaceMonitorList, macWatchList, ifaceMac := {}, {}, map[];
      wifiMonitorEnabled, msgToCommander, manualPauseCount := false, false, 0;
      explicitlyDown, emitted, pausedState := {}, map[], None;
      wifiPhysEmitted, delayQueue, started := {}, map[], false;
      udevPendingEvents, collectBatch, netlinkHandle := map[], None, false;
      log := [];
    }

    // -------------------------------------------------------------- single events

    method RemoveMark(name: string)
      modifies this`wifiPhysEmitted, this`log
      ensures View() == Unmark(old(View()), name)
    {
      if name in wifiPhysEmitted {
        wifiPhysEmitted := wifiPhysEmitted - {name};
        log := log + [Unmarked(name)];
      }
    }

    method ForgetIface(name: string)
      modifies this`emitted, this`wifiPhysEmitted, this`log
      ensures View() == Forget(old(View()), name)
    {
      emitted := emitted - {name};
      RemoveMark(name);
    }

    method RecordEvent(e: LinkEvent)
      modifies this`emitted
      ensures View() == Record(old(View()), e)
    {
      var mac := if e.name in ifaceMac then Some(ifaceMac[e.name]) else None;
      emitted := emitted[e.name := LastEvent(e.up, e.index, e.kind, ExtraInfo(e), mac, e.stamp)];
    }

    method LearnMac(name: string, mac: Option<string>)
      modifies this`ifaceMac
      ensures View() == SetMac(old(View()), name, mac)
    {
      if mac.Some? {
        ifaceMac := ifaceMac[name := mac.value];
      }
    }

    method SendOrCollect(e: LinkEvent) returns (ok: bool)
      modifies this`collectBatch, this`log
      ensures Outcome(View(), ok) == Deliver(old(View()), e)
    {
      if collectBatch.Some? {
        var b := collectBatch.value;
        collectBatch := Some(b.(events := b.events + [e]));
        log := log + [Collected(e)];
        return true;
      }
      if !msgToCommander {
        return false;
      }
      log := log + [Sent(e)];
      return true;
    }

    method Notify(e: LinkEvent) returns (ok: bool)
      modifies this
      ensures Outcome(View(), ok) == LinkMonitor.Notify(old(View()), e)
    {
      var event := e;
      if !e.del && wifiMonitorEnabled && e.kind.WifiPhy? && e.name !in wifiPhysEmitted {
        event := e.(newPhy := true);
      }
      delayQueue := delayQueue - {e.name};
      if event.del {
        ForgetIface(e.name);
      } else {
        if event.newPhy {
          wifiPhysEmitted := wifiPhysEmitted + {e.name};
        }
        RecordEvent(event);
      }
      ok := SendOrCollect(event);
    }

    method IsInterested(e: LinkEvent) returns (r: bool)
      ensures r == Interested(View(), e)
    {
      r := e.name in ifaceMonitorList
           || (e.name in ifaceMac && ifaceMac[e.name] in macWatchList)
           || (wifiMonitorEnabled && e.ssid.Some?)
           || (wifiMonitorEnabled && e.kind.WifiPhy?);
    }

    method DelayNotify(e: LinkEvent, env: Env)
      requires e.name in emitted
      modifies this`emitted, this`delayQueue
      ensures View() == Postpone(old(View()), e, env)
    {
      if !e.up && emitted[e.name].up {
        RecordEvent(e);
      }
      delayQueue := delayQueue[e.name := Delayed(e, env.mono + DOWN_WAIT_SEC)];
    }

    method DebounceEvent(e: LinkEvent, env: Env) returns (ok: bool)
      modifies this
      ensures Outcome(View(), ok) == Debounce(old(View()), e, env)
    {
      if e.del {
        ok := Notify(e);
      } else if e.name in emitted {
        var previous := emitted[e.name];
        if env.wall - previous.stamp > EVENT_EXPIRE_TIME_SEC {
          ok := Notify(e);
        } else if !previous.up && e.up {
          ok := Notify(e);
        } else {
          DelayNotify(e, env);
          ok := true;
        }
      } else {
        ok := Notify(e);
      }
    }

    method SuppressEvent(e: LinkEvent)
      modifies this`emitted, this`wifiPhysEmitted, this`log
      ensures View() == Suppress(old(View()), e)
    {
      log := log + [Suppressed(e)];
      if e.del {
        ForgetIface(e.name);
      } else {
        RecordEvent(e);
      }
    }

    method TryNotify(e: LinkEvent, env: Env) returns (ok: bool)
      modifies this
      ensures Outcome(View(), ok) == LinkMonitor.TryNotify(old(View()), e, env)
    {
      if Marked(e, explicitlyDown) {
        SuppressEvent(e);
        return true;
      }
      var interested := IsInterested(e);
      if !interested {
        return true;
      }
      if e.del {
        udevPendingEvents := udevPendingEvents - {e.name};
      }
      if !e.del && e.index !in env.udev {
        udevPendingEvents := udevPendingEvents[e.name := e];
        return true;
      }
      ok := DebounceEvent(e, env);
    }

    method ProcessRtnlMessage(m: LinkMsg, del: bool, env: Env) returns (ok: bool)
      modifies this
      ensures Outcome(View(), ok) == ProcessNetlink(old(View()), m, del, env)
    {
      var e := ParseLinkMsg(m, wifiMonitorEnabled, del, env);
      if e.None? {
        return true;
      }
      LearnMac(m.name, m.mac);
      ok := TryNotify(e.value, env);
    }

    // -------------------------------------------------------------- ticks

    method ProcessUdevPendingEvents(order: seq<string>, env: Env) returns (ok: bool)
      requires Covers(order, udevPendingEvents.Keys)
      modifies this
      ensures Outcome(View(), ok) == UdevTick(old(View()), order, env)
    {
      var left := udevPendingEvents;
      udevPendingEvents := map[];
      var i := 0;
      while i < |order|
        invariant 0 <= i <= |order|
        invariant RetryPending(View(), left, order[i..], env) == UdevTick(old(View()), order, env)
      {
        var n := order[i];
        assert order[i..][0] == n && order[i..][1..] == order[i + 1..];
        if n in left {
          var e := left[n];
          left := left - {n};
          if e.index !in env.udev {
            udevPendingEvents := udevPendingEvents[e.name := e];
          } else {
            var sent := TryNotify(e, env);
            if !sent {
              return false;
            }
          }
        }
        i := i + 1;
      }
      return true;
    }

    method ReleaseDelayed(name: string) returns (ok: bool)
      requires name in delayQueue
      modifies this
      ensures Outcome(View(), ok) == ReleaseOne(old(View()), name)
    {
      var e := delayQueue[name].event;
      delayQueue := delayQueue - {name};
      if Marked(e, explicitlyDown) {
        return true;
      }
      if e.name in emitted && emitted[e.name].up && e.up {
        return true;
      }
      ok := Notify(e);
    }

    method ProcessDelayQueue(order: seq<string>, env: Env) returns (ok: bool)
      requires Covers(order, delayQueue.Keys)
      modifies this
      ensures Outcome(View(), ok) == DelayTick(old(View()), order, env)
    {
      var due := set n | n in delayQueue && delayQueue[n].deadline < env.mono;
      var i := 0;
      while i < |order|
        invariant 0 <= i <= |order|
        invariant Release(View(), due, order[i..]) == DelayTick(old(View()), order, env)
      {
        assert order[i..][0] == order[i] && order[i..][1..] == order[i + 1..];
        if order[i] in due && order[i] in delayQueue {
          var sent := ReleaseDelayed(order[i]);
          if !sent {
            return false;
          }
        }
        i := i + 1;
      }
      return true;
    }

    // -------------------------------------------------------------- pause and resume

    method Pause()
      modifies this`pausedState, this`netlinkHandle, this`ifaceMac
      ensures View() == LinkMonitor.Pause(old(View()))
    {
      if pausedState.None? {
        pausedState := Some(emitted);
      }
      netlinkHandle := false;
      ifaceMac := map[];
    }

    method HandleResumeMsg(m: LinkMsg, env: Env) returns (ok: bool)
      modifies this
      ensures Outcome(View(), ok) == ResumeOne(old(View()), m, env)
    {
      var e := ParseLinkMsg(m, wifiMonitorEnabled, false, env);
      if e.None? {
        return true;
      }
      LearnMac(m.name, m.mac);
      var sameAsBefore := pausedState.Some? && e.value.name in pausedState.value
                       && SameState(pausedState.value[e.value.name], e.value);
      if sameAsBefore {
        return true;
      }
      ok := TryNotify(e.value, env);
    }

    method ReportGone(name: string, last: LastEvent, env: Env) returns (ok: bool)
      modifies this
      ensures Outcome(View(), ok) == GoneOne(old(View()), name, last, env)
    {
      LearnMac(name, last.mac);
      ok := TryNotify(DeleteEvent(last, name, env), env);
      if ok {
        ifaceMac := ifaceMac - {name};
      }
    }

    method HandleResumeDeletedIfaces(seen: set<string>, order: seq<string>, env: Env) returns (ok: bool)
      requires pausedState.Some? ==> Covers(order, pausedState.value.Keys)
      modifies this
      ensures var s := old(View());
              Outcome(View(), ok) ==
              if s.paused.None? then Outcome(s, true)
              else ResumeGone(s.(paused := None), s.paused.value - seen, order, env)
    {
      if pausedState.None? {
        return true;
      }
      var left := pausedState.value - seen;
      pausedState := None;
      ghost var start := View();
      ghost var all := left;
      var i := 0;
      while i < |order|
        invariant 0 <= i <= |order|
        invariant ResumeGone(View(), left, order[i..], env) == ResumeGone(start, all, order, env)
      {
        var n := order[i];
        assert order[i..][0] == n && order[i..][1..] == order[i + 1..];
        if n in left {
          var sent := ReportGone(n, left[n], env);
          if !sent {
            return false;
          }
          left := left - {n};
        }
        i := i + 1;
      }
      return true;
    }

    method Resume(dump: Dump, order: seq<string>, env: Env) returns (ok: bool)
      requires pausedState.Some? ==> Covers(order, pausedState.value.Keys)
      modifies this
      ensures Outcome(View(), ok) == LinkMonitor.Resume(old(View()), dump, order, env)
    {
      hide ResumeOne;
      if dump.NoSocket? {
        return false;
      }
      ghost var s := View();
      var seen := {};
      var i := 0;
      while i < |dump.msgs|
        invariant 0 <= i <= |dump.msgs|
        invariant ResumeSeen(View(), dump.msgs[i..], env) == ResumeSeen(s, dump.msgs, env)
        invariant pausedState == s.paused
        invariant seen == SeenNames(dump.msgs[..i])
      {
        var m := dump.msgs[i];
        assert dump.msgs[i..][0] == m && dump.msgs[i..][1..] == dump.msgs[i + 1..];
        assert dump.msgs[..i + 1] == dump.msgs[..i] + [m];
        if !m.telemetry {
          seen := seen + {m.name};
        }
        ghost var before := View();
        var handled := HandleResumeMsg(m, env);
        ResumeOneKeepsSnapshot(before, m, env);
        if !handled {
          return false;
        }
        i := i + 1;
      }
      assert dump.msgs[..i] == dump.msgs;
      if !dump.complete {
        return false;
      }
      ok := HandleResumeDeletedIfaces(seen, order, env);
      if ok {
        netlinkHandle := true;
      }
    }

    method SendBatch(batch: Batch) returns (ok: bool)
      modifies this`log
      ensures Outcome(View(), ok) == LinkMonitor.SendBatch(old(View()), batch)
    {
      if !msgToCommander {
        return false;
      }
      log := log + [BatchSent(batch.events, batch.boot)];
      return true;
    }

    method StartAndDump(dump: Dump, order: seq<string>, env: Env) returns (ok: bool)
      requires pausedState.Some? ==> Covers(order, pausedState.value.Keys)
      modifies this
      ensures Outcome(View(), ok) == LinkMonitor.StartAndDump(old(View()), dump, order, env)
    {
      hide LinkMonitor.Resume;
      collectBatch := Some(Batch([], true));
      ghost var s0 := old(View()).(batch := Some(Batch([], true)));
      assert View() == s0;
      var result := Resume(dump, order, env);
      ghost var r := LinkMonitor.Resume(s0, dump, order, env);
      assert View() == r.s && result == r.ok;
      if collectBatch.None? {
        return result;
      }
      var batch := collectBatch.value;
      collectBatch := None;
      assert View() == r.s.(batch := None);
      var sent := SendBatch(batch);
      if !sent {
        return false;
      }
      return result;
    }

    // -------------------------------------------------------------- reconciliation

    method ReconcileIface(name: string, i: KernelIface, env: Env) returns (ok: bool)
      modifies this
      ensures Outcome(View(), ok) == ReconcileOne(old(View()), name, i, env)
    {
      LearnMac(name, if i.mac.Some? then Some(Upper(i.mac.value)) else None);
      var e := EventFromIface(name, i, wifiMonitorEnabled, env);
      var interested := IsInterested(e);
      if !interested {
        return true;
      }
      if name in emitted && SameState(emitted[name], e) {
        return true;
      }
      ok := TryNotify(e, env);
    }

    method ReconcileMissing(name: string, env: Env) returns (ok: bool)
      requires name in emitted
      modifies this
      ensures Outcome(View(), ok) == ReconcileGoneOne(old(View()), name, env)
    {
      var last := emitted[name];
      LearnMac(name, last.mac);
      var e := DeleteEvent(last, name, env);
      var interested := IsInterested(e);
      if interested {
        ok := TryNotify(e, env);
        if !ok {
          return;
        }
      } else {
        ForgetIface(name);
        ok := true;
      }
      ifaceMac := ifaceMac - {name};
    }

    method ReconcileView(view: map<string, KernelIface>, order: seq<string>, env: Env) returns (ok: bool)
      requires Covers(order, view.Keys)
      modifies this
      ensures Outcome(View(), ok) == ReconcileSeen(old(View()), view, order, env)
    {
      var left := view;
      var i := 0;
      while i < |order|
        invariant 0 <= i <= |order|
        invariant ReconcileSeen(View(), left, order[i..], env) == ReconcileSeen(old(View()), view, order, env)
      {
        var n := order[i];
        assert order[i..][0] == n && order[i..][1..] == order[i + 1..];
        if n in left {
          var handled := ReconcileIface(n, left[n], env);
          if !handled {
            return false;
          }
          left := left - {n};
        }
        i := i + 1;
      }
      return true;
    }

    method ReconcileTracked(seen: set<string>, order: seq<string>, env: Env) returns (ok: bool)
      modifies this
      ensures Outcome(View(), ok) == ReconcileGone(old(View()), seen, order, env)
    {
      var i := 0;
      while i < |order|
        invariant 0 <= i <= |order|
        invariant ReconcileGone(View(), seen, order[i..], env) == ReconcileGone(old(View()), seen, order, env)
      {
        var n := order[i];
        assert order[i..][0] == n && order[i..][1..] == order[i + 1..];
        if n !in seen && n in emitted {
          var handled := ReconcileMissing(n, env);
          if !handled {
            return false;
          }
        }
        i := i + 1;
      }
      return true;
    }

    method Reconcile(view: Option<map<string, KernelIface>>, order: seq<string>, tracked: seq<string>, env: Env)
      returns (ok: bool)
      requires view.Some? ==> Covers(order, view.value.Keys)
      requires Covers(tracked, emitted.Keys)
      modifies this
      ensures Outcome(View(), ok) == LinkMonitor.Reconcile(old(View()), view, order, tracked, env)
    {
      if !started || manualPauseCount > 0 || !netlinkHandle {
        return true;
      }
      if view.None? {
        return false;
      }
      collectBatch := Some(Batch([], false));
      ok := ReconcileView(view.value, order, env);
      if ok {
        ok := ReconcileTracked(view.value.Keys, tracked, env);
      }
      var batch := collectBatch;
      collectBatch := None;
      if ok && batch.Some? {
        ok := SendBatch(batch.value);
      }
    }

    // -------------------------------------------------------------- commands

    method OpenSessionIfNeeded(dump: Dump, order: seq<string>, env: Env) returns (ok: bool)
      requires pausedState.Some? ==> Covers(order, pausedState.value.Keys)
      modifies this
      ensures Outcome(View(), ok) == OpenIfNeeded(old(View()), dump, order, env)
    {
      if started && manualPauseCount == 0 && !netlinkHandle {
        ok := Resume(dump, order, env);
      } else {
        ok := true;
      }
    }

    method CloseSessionIfUnused()
      modifies this`pausedState, this`netlinkHandle, this`ifaceMac
      ensures View() == CloseIfUnused(old(View())).s
    {
      if ifaceMonitorList == {} && macWatchList == {} && !wifiMonitorEnabled {
        Pause();
      }
    }

    method StartMonitor(dump: Dump, order: seq<string>, env: Env) returns (ok: bool)
      requires pausedState.Some? ==> Covers(order, pausedState.value.Keys)
      modifies this
      ensures Outcome(View(), ok) == LinkMonitor.ProcessCmd(old(View()), Start, dump, order, env)
    {
      if started {
        return true;
      }
      started := true;
      if ifaceMonitorList != {} || macWatchList != {} || wifiMonitorEnabled {
        ok := StartAndDump(dump, order, env);
      } else {
        ok := SendBatch(Batch([], true));
      }
    }

    method ResumeMonitorCmd(dump: Dump, order: seq<string>, env: Env) returns (ok: bool)
      requires pausedState.Some? ==> Covers(order, pausedState.value.Keys)
      modifies this
      ensures Outcome(View(), ok) == LinkMonitor.ProcessCmd(old(View()), ResumeMonitor, dump, order, env)
    {
      manualPauseCount := if manualPauseCount > 0 then manualPauseCount - 1 else 0;
      if manualPauseCount == 0 && (ifaceMonitorList != {} || macWatchList != {} || wifiMonitorEnabled) {
        ok := OpenSessionIfNeeded(dump, order, env);
      } else {
        ok := true;
      }
    }

    method ForgetSnapshotOf(names: seq<string>)
      modifies this`pausedState, this`emitted
      ensures View() == ForgetSnapshot(old(View()), SetOf(names))
    {
      if pausedState.Some? {
        pausedState := Some(pausedState.value - SetOf(names));
      }
      emitted := emitted - SetOf(names);
    }

    method RemoveMarks(names: seq<string>)
      modifies this`wifiPhysEmitted, this`log
      ensures View() == UnmarkAll(old(View()), names)
    {
      var i := 0;
      while i < |names|
        invariant 0 <= i <= |names|
        invariant UnmarkAll(View(), names[i..]) == UnmarkAll(old(View()), names)
      {
        assert names[i..][0] == names[i] && names[i..][1..] == names[i + 1..];
        RemoveMark(names[i]);
        i := i + 1;
      }
    }

    method ChangeWatches(cmd: Cmd, dump: Dump, order: seq<string>, env: Env) returns (ok: bool)
      requires cmd.AddIface? || cmd.DelIface? || cmd.AddMacWatch? || cmd.DelMacWatch?
               || cmd.EnableWifiMonitor? || cmd.DisableWifiMonitor?
      requires pausedState.Some? ==> Covers(order, pausedState.value.Keys)
      modifies this
      ensures Outcome(View(), ok) == LinkMonitor.ProcessCmd(old(View()), cmd, dump, order, env)
    {
      hide LinkMonitor.Resume;
      ok := true;
      match cmd
      case AddIface(n) =>
        ifaceMonitorList := ifaceMonitorList + {n};
        ok := OpenSessionIfNeeded(dump, order, env);
      case DelIface(n) =>
        ifaceMonitorList := ifaceMonitorList - {n};
        CloseSessionIfUnused();
      case AddMacWatch(m) =>
        macWatchList := macWatchList + {Upper(m)};
        ok := OpenSessionIfNeeded(dump, order, env);
      case DelMacWatch(m) =>
        macWatchList := macWatchList - {Upper(m)};
        CloseSessionIfUnused();
      case EnableWifiMonitor =>
        wifiMonitorEnabled := true;
        ok := OpenSessionIfNeeded(dump, order, env);
      case DisableWifiMonitor =>
        wifiMonitorEnabled := false;
        CloseSessionIfUnused();
    }

    method ProcessCmd(cmd: Cmd, dump: Dump, order: seq<string>, env: Env) returns (ok: bool)
      requires pausedState.Some? ==> Covers(order, pausedState.value.Keys)
      modifies this
      ensures Outcome(View(), ok) == LinkMonitor.ProcessCmd(old(View()), cmd, dump, order, env)
    {
      ok := true;
      match cmd
      case SetCommanderSender => msgToCommander := true;
      case Start => ok := StartMonitor(dump, order, env);
      case PauseMonitor =>
        manualPauseCount := if manualPauseCount < U32_MAX then manualPauseCount + 1 else manualPauseCount;
        Pause();
      case ResumeMonitor => ok := ResumeMonitorCmd(dump, order, env);
      case MarkExplicitlyDown(names) => explicitlyDown := explicitlyDown + SetOf(names);
      case ClearExplicitlyDown(names) => explicitlyDown := explicitlyDown - SetOf(names);
      case ForgetPausedState(names) => ForgetSnapshotOf(names);
      case ForgetEmitted(names) =>
        ForgetSnapshotOf(names);
        RemoveMarks(names);
      case _ => ok := ChangeWatches(cmd, dump, order, env);
    }

    // -------------------------------------------------------------- runs

    /** One turn of the worker's loop. */
    method TakeStep(st: Step) returns (ok: bool)
      requires Valid() && Visits(View(), st)
      modifies this
      ensures Outcome(View(), ok) == Next(old(View()), st)
      ensures Valid() && Advances(old(View()), View())
    {
      hide Steady, OpenIsClean, Advances;
      NextAdvances(View(), st);
      StepClean(View(), st);
      AdvancesSteady(View(), Next(View(), st).s);
      match st.input
      case Command(cmd, dump, order) => ok := ProcessCmd(cmd, dump, order, st.env);
      case Netlink(m, del) => ok := ProcessRtnlMessage(m, del, st.env);
      case UdevRetry(order) => ok := ProcessUdevPendingEvents(order, st.env);
      case DelayDue(order) => ok := ProcessDelayQueue(order, st.env);
      case Reconciliation(view, order, tracked) => ok := Reconcile(view, order, tracked, st.env);
    }

    /** Any number of turns; a failing one is logged and the loop goes on. Everything sent on the way respected the
        explicit downs of its moment, and the worker ends listening whenever it should. */
    method Run(run: seq<Step>)
      requires Valid() && RunVisits(View(), run)
      modifies this
      ensures View() == RunFrom(old(View()), run) && Valid()
      ensures old(log) <= log
      ensures forall i :: |old(log)| <= i < |log| ==> AddedSafely(old(View()), run, i)
      ensures old(msgToCommander && Listening(View())) && Orderly(old(View()), run) ==> Listening(View())
    {
      hide Steady, OpenIsClean, Advances, AddedSafely, Next, Listening, Orderly;
      ghost var s := View();
      var i := 0;
      assert run[0..] == run;
      while i < |run|
        invariant 0 <= i <= |run| && Valid()
        invariant RunFrom(View(), run[i..]) == RunFrom(s, run) && RunVisits(View(), run[i..])
      {
        assert run[i..][0] == run[i] && run[i..][1..] == run[i + 1..];
        var _ := TakeStep(run[i]);
        i := i + 1;
      }
      assert run[i..] == [];
      RunSafe(s, run);
      if s.sender && Listening(s) && Orderly(s, run) {
        RunListening(s, run);
      }
    }
  }

  lemma {:induction false} AdvancesSteady(s: State, t: State)
    requires Advances(s, t)
    ensures Steady(t)
  {
  }

  lemma {:induction false} RunSafe(s: State, run: seq<Step>)
    requires Steady(s)
    ensures s.log <= RunFrom(s, run).log
    ensures forall i :: |s.log| <= i < |RunFrom(s, run).log| ==> AddedSafely(s, run, i)
  {
    RunSteady(s, run);
    forall i | |s.log| <= i < |RunFrom(s, run).log|
      ensures AddedSafely(s, run, i)
    {
      ExplicitDownSafety(s, run, i);
    }
  }

  /** Handling a dumped link never touches the snapshot it is compared with. */
  lemma {:induction false} ResumeOneKeepsSnapshot(s: State, m: LinkMsg, env: Env)
    ensures ResumeOne(s, m, env).s.paused == s.paused
  {
    var e := ParseLinkMsg(m, s.wifi, false, env);
    if e.Some? {
      var s1 := SetMac(s, m.name, m.mac);
      if EmitOnResume(s1, e.value) {
        TryNotifyKeepsSnapshot(s1, e.value, env);
      }
    }
  }

  lemma {:induction false} ForgetKeepsSnapshot(s: State, name: string)
    ensures Forget(s, name).paused == s.paused
  {
    if name in s.phys {
    } else {
    }
  }

  lemma {:induction false} NotifyKeepsSnapshot(s: State, e: LinkEvent)
    ensures LinkMonitor.Notify(s, e).s.paused == s.paused
  {
    if e.del {
      ForgetKeepsSnapshot(s.(delay := s.delay - {e.name}), e.name);
    } else {
    }
  }

  lemma {:induction false} DebounceKeepsSnapshot(s: State, e: LinkEvent, env: Env)
    ensures Debounce(s, e, env).s.paused == s.paused
  {
    if e.del || e.name !in s.emitted || Expired(s.emitted[e.name], env) || (!s.emitted[e.name].up && e.up) {
      NotifyKeepsSnapshot(s, e);
    } else if !e.up && s.emitted[e.name].up {
    } else {
    }
  }

  lemma {:induction false} TryNotifyKeepsSnapshot(s: State, e: LinkEvent, env: Env)
    ensures LinkMonitor.TryNotify(s, e, env).s.paused == s.paused
  {
    if Marked(e, s.down) {
      if e.del {
        ForgetKeepsSnapshot(Note(s, Suppressed(e)), e.name);
      } else {
      }
    } else if !Interested(s, e) {
    } else if e.del {
      DebounceKeepsSnapshot(s.(pending := s.pending - {e.name}), e, env);
    } else if e.index !in env.udev {
    } else {
      DebounceKeepsSnapshot(s, e, env);
    }
  }
}
