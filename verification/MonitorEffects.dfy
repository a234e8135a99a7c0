/**
 What each operation of the monitor does, told by the fields of its input and state: what commands set, what becomes of
 an event, what ticks, resumes and reconciliations deliver.
 */
module MonitorEffects {
  import opened Base
  import opened LinkMonitor
  import opened MonitorInvariants
  import opened MonitorRuns
  import opened MonitorSession
  import opened MonitorFrame
  import MonitorDebounce
  import MonitorPause
  import MonitorReconcile

  // ---------------------------------------------------------------- commands

  /** What only commands change. */
  datatype Controls = Controls(ifaces: set<string>, macWatch: set<string>, wifi: bool, sender: bool, pauses: nat,
                               down: set<string>, started: bool)

  ghost function ControlsOf(s: State): Controls {
    Controls(s.ifaces, s.macWatch, s.wifi, s.sender, s.pauses, s.down, s.started)
  }

  ghost function Commanded(c: Controls, cmd: Cmd): Controls {
    match cmd
    case SetCommanderSender => c.(sender := true)
    case AddIface(n) => c.(ifaces := c.ifaces + {n})
    case DelIface(n) => c.(ifaces := c.ifaces - {n})
    case AddMacWatch(m) => c.(macWatch := c.macWatch + {Upper(m)})
    case DelMacWatch(m) => c.(macWatch := c.macWatch - {Upper(m)})
    case EnableWifiMonitor => c.(wifi := true)
    case DisableWifiMonitor => c.(wifi := false)
    case Start => c.(started := true)
    case PauseMonitor => if c.pauses < 0xFFFF_FFFF then c.(pauses := c.pauses + 1) else c
    case ResumeMonitor => if c.pauses > 0 then c.(pauses := c.pauses - 1) else c
    case MarkExplicitlyDown(names) => c.(down := c.down + set n | n in names)
    case ClearExplicitlyDown(names) => c.(down := c.down - set n | n in names)
    case ForgetPausedState(_) => c
    case ForgetEmitted(_) => c
  }

  /** The controls a run leaves, from its commands alone. */
  ghost function ControlsAfter(c: Controls, run: seq<Step>): Controls
    decreases |run|
  {
    if run == [] then c
    else ControlsAfter(if run[0].input.Command? then Commanded(c, run[0].input.cmd) else c, run[1..])
  }

  lemma {:induction false} OpeningControls(s: State, cmd: Cmd, dump: Dump, order: seq<string>, env: Env)
    requires Steady(s) && Opening(cmd)
    ensures ControlsOf(ProcessCmd(s, cmd, dump, order, env).s) == Commanded(ControlsOf(s), cmd)
  {
    var s1 := BeforeOpen(s, cmd);
    OpeningCmd(s, cmd, dump, order, env);
    ControlAdvances(s, s1);
    OpenEffect(s1, dump, order, env);
    hide OpenIfNeeded;
    match cmd
    case AddIface(_) =>
    case AddMacWatch(_) =>
    case EnableWifiMonitor =>
    case ResumeMonitor =>
  }

  lemma {:induction false} FollowsControls(s: State, t: State)
    requires Follows(s, t)
    ensures ControlsOf(t) == ControlsOf(s) && (t.batch.Some? <==> s.batch.Some?) && (Inv(s) ==> Inv(t))
  {
  }

  lemma {:induction false} DumpControls(s: State, dump: Dump, order: seq<string>, env: Env)
    requires Steady(s)
    ensures ControlsOf(StartAndDump(s, dump, order, env).s) == ControlsOf(s)
  {
    var s0 := s.(batch := Some(Batch([], true)));
    ResumeFollows(s0, dump, order, env);
    hide Resume, Follows, Steady;
    var r := Resume(s0, dump, order, env);
    FollowsControls(s0, r.s.(session := s.session));
    if r.s.batch.None? {
    } else if r.s.sender {
    } else {
    }
  }

  lemma {:induction false} StartControls(s: State, dump: Dump, order: seq<string>, env: Env)
    requires Steady(s)
    ensures ControlsOf(ProcessCmd(s, Start, dump, order, env).s) == Commanded(ControlsOf(s), Start)
  {
    hide StartAndDump;
    var s1 := s.(started := true);
    if s.started {
    } else if HasWatch(s1) {
      ControlAdvances(s, s1);
      DumpControls(s1, dump, order, env);
    } else {
    }
  }

  lemma {:induction false} CmdControls(s: State, cmd: Cmd, dump: Dump, order: seq<string>, env: Env)
    requires Steady(s)
    ensures ControlsOf(ProcessCmd(s, cmd, dump, order, env).s) == Commanded(ControlsOf(s), cmd)
  {
    hide Steady, Resume, StartAndDump;
    match cmd
    case AddIface(_) => OpeningControls(s, cmd, dump, order, env);
    case AddMacWatch(_) => OpeningControls(s, cmd, dump, order, env);
    case EnableWifiMonitor => OpeningControls(s, cmd, dump, order, env);
    case ResumeMonitor => OpeningControls(s, cmd, dump, order, env);
    case Start => StartControls(s, dump, order, env);
    case ForgetEmitted(names) => UnmarkAllFollows(ForgetSnapshot(s, SetOf(names)), names);
    case ForgetPausedState(_) =>
    case DelIface(n) => CloseControls(s.(ifaces := s.ifaces - {n}));
    case DelMacWatch(m) => CloseControls(s.(macWatch := s.macWatch - {Upper(m)}));
    case DisableWifiMonitor => CloseControls(s.(wifi := false));
    case PauseMonitor =>
    case MarkExplicitlyDown(names) =>
      assert SetOf(names) == set n | n in names;
    case ClearExplicitlyDown(names) =>
      assert SetOf(names) == set n | n in names;
    case SetCommanderSender =>
  }

  lemma {:induction false} CloseControls(s: State)
    ensures ControlsOf(CloseIfUnused(s).s) == ControlsOf(s)
  {
    if HasWatch(s) {
    } else {
    }
  }

  lemma {:induction false} StepControls(s: State, st: Step)
    requires Steady(s)
    ensures ControlsOf(Next(s, st).s) ==
            if st.input.Command? then Commanded(ControlsOf(s), st.input.cmd) else ControlsOf(s)
  {
    hide ProcessCmd;
    if st.input.Command? {
      CmdControls(s, st.input.cmd, st.input.dump, st.input.order, st.env);
    } else {
      LinkStepControl(s, st);
    }
  }

  /** After every run the watches, the channel, the pause counter, the marks and the start are what its commands, in
      order, made of them; no message, tick or reconciliation has a say. */
  lemma {:induction false} RunControls(s: State, run: seq<Step>)
    requires Steady(s)
    ensures ControlsOf(RunFrom(s, run)) == ControlsAfter(ControlsOf(s), run)
    decreases |run|
  {
    hide Steady, Next;
    if run != [] {
      StepControls(s, run[0]);
      NextSteady(s, run[0]);
      RunControls(Next(s, run[0]).s, run[1..]);
    }
  }

  lemma {:induction false} NextSteady(s: State, st: Step)
    requires Steady(s)
    ensures Steady(Next(s, st).s)
  {
    NextAdvances(s, st);
  }

  // ---------------------------------------------------------------- explicit downs

  ghost predicate Clears(st: Step, n: string) {
    st.input.Command? && st.input.cmd.ClearExplicitlyDown? && n in st.input.cmd.names
  }

  /** The message tells of the interface, or of a connection to the SSID, of that name. */
  ghost predicate TellsOf(x: Entry, n: string) {
    match x
    case Sent(e) => e.name == n || e.ssid == Some(n)
    case Collected(e) => e.name == n || e.ssid == Some(n)
    case BatchSent(events, _) => exists e :: e in events && (e.name == n || e.ssid == Some(n))
    case Unmarked(_) => false
    case Suppressed(_) => false
  }

  lemma {:induction false} SilentEntry(x: Entry, down: set<string>, n: string)
    requires SafeEntry(x, down) && n in down
    ensures !TellsOf(x, n)
  {
  }

  lemma {:induction false} MarkedStaysMarked(s: State, run: seq<Step>, n: string)
    requires Steady(s) && n in s.down && forall i :: 0 <= i < |run| ==> !Clears(run[i], n)
    ensures n in RunFrom(s, run).down
    decreases |run|
  {
    hide Steady, Next;
    if run != [] {
      StepControls(s, run[0]);
      NextSteady(s, run[0]);
      assert n in Next(s, run[0]).s.down by {
        assert !Clears(run[0], n);
        assert ControlsOf(Next(s, run[0]).s).down == Next(s, run[0]).s.down;
      }
      MarkedStaysMarked(Next(s, run[0]).s, run[1..], n);
    }
  }

  /** While a name is marked and not cleared, nothing sent tells of it. */
  lemma {:induction false} MarkedStaysSilent(s: State, run: seq<Step>, n: string, i: nat)
    requires Steady(s) && n in s.down && forall j :: 0 <= j < |run| ==> !Clears(run[j], n)
    requires |s.log| <= i < |RunFrom(s, run).log|
    ensures !TellsOf(RunFrom(s, run).log[i], n)
  {
    hide Steady, Next;
    var k := EntrySafe(s, run, i);
    assert k < |run|;
    MarkedStaysMarked(s, run[..k], n);
    SilentEntry(RunFrom(s, run).log[i], RunFrom(s, run[..k]).down, n);
  }

  /** From the command that marks a name until one that clears it, over every run, nothing sent tells of it. */
  lemma {:induction false} MarkSilences(s: State, names: seq<string>, dump: Dump, order: seq<string>, env: Env,
                                        run: seq<Step>,
                                        n: string, i: nat)
    requires Steady(s) && n in names && forall j :: 0 <= j < |run| ==> !Clears(run[j], n)
    requires var t := Next(s, Step(Command(MarkExplicitlyDown(names), dump, order), env)).s;
             |s.log| <= i < |RunFrom(t, run).log|
    ensures var t := Next(s, Step(Command(MarkExplicitlyDown(names), dump, order), env)).s;
            !TellsOf(RunFrom(t, run).log[i], n)
  {
    var st := Step(Command(MarkExplicitlyDown(names), dump, order), env);
    var t := Next(s, st).s;
    assert t.log == s.log;
    hide Steady, Next;
    StepControls(s, st);
    NextSteady(s, st);
    assert n in ControlsOf(t).down;
    MarkedStaysSilent(t, run, n, i);
  }

  // ---------------------------------------------------------------- one event

  /** The interface, or the SSID it is connected to, is marked explicitly down. */
  ghost predicate Downed(s: State, e: LinkEvent) {
    e.name in s.down || exists x :: x in s.down && e.ssid == Some(x)
  }

  /** Watched by name, by the MAC address last learned, or, with wifi watched, as a wifi interface. */
  ghost predicate Watched(s: State, e: LinkEvent) {
    || e.name in s.ifaces
    || (exists m :: m in s.macWatch && e.name in s.macs && s.macs[e.name] == m)
    || (s.wifi && (e.kind == WifiPhy || e.ssid != None))
  }

  /** Deletions, the first news of an interface, news more than five minutes after the last, and a link coming up leave
      at once. */
  ghost predicate SendsNow(s: State, e: LinkEvent, env: Env) {
    || e.del || e.name !in s.emitted
    || env.wall - s.emitted[e.name].stamp > 300.0
    || (e.up && !s.emitted[e.name].up)
  }

  ghost predicate RecordedAs(t: State, s: State, e: LinkEvent) {
    && e.name in t.emitted
    && var r := t.emitted[e.name];
       && r.up == e.up && r.index == e.index && r.kind == e.kind && r.stamp == e.stamp
       && r.extra == (if e.kind == WifiPhy then e.ssid else None)
       && r.mac == if e.name in s.macs then Some(s.macs[e.name]) else None
  }

  /** What becomes of an event. */
  ghost predicate EventHandled(s: State, t: State, e: LinkEvent, env: Env) {
    var n := e.name;
    var before, after := EventsAbout(s.log, n), EventsAbout(t.log, n);
    if Downed(s, e) then
      && after == before && t.delay == s.delay && t.pending == s.pending
      && if e.del then n !in t.emitted && n !in t.phys else RecordedAs(t, s, e) && t.phys == s.phys
    else if !Watched(s, e) then t == s
    else if !e.del && e.index !in env.udev then t == s.(pending := s.pending[n := e])
    else if SendsNow(s, e, env) then
      && after == before + [e.(newPhy := !e.del && s.wifi && e.kind == WifiPhy && n !in s.phys)]
      && t.delay == s.delay - {n} && t.pending == (if e.del then s.pending - {n} else s.pending)
      && if e.del then n !in t.emitted && n !in t.phys
         else RecordedAs(t, s, e) && t.phys == if s.wifi && e.kind == WifiPhy then s.phys + {n} else s.phys
    else
      && after == before && t.phys == s.phys && t.pending == s.pending
      && t.delay == s.delay[n := Delayed(e, env.mono + 10.0)]
      && if s.emitted[n].up && !e.up then RecordedAs(t, s, e) else t.emitted == s.emitted
  }

  lemma {:induction false} DownedIsMarked(s: State, e: LinkEvent)
    ensures Downed(s, e) <==> Marked(e, s.down)
  {
  }

  lemma {:induction false} WatchedIsInterested(s: State, e: LinkEvent)
    ensures Watched(s, e) <==> Interested(s, e)
  {
  }

  lemma {:induction false} SuppressHandles(s: State, e: LinkEvent)
    ensures var t := Suppress(s, e);
            && EventsAbout(t.log, e.name) == EventsAbout(s.log, e.name) && t.delay == s.delay && t.pending == s.pending
            && if e.del then e.name !in t.emitted && e.name !in t.phys else RecordedAs(t, s, e) && t.phys == s.phys
  {
    AboutAppended(s.log, Suppressed(e), e.name);
    if e.del {
      ForgetElsewhere(Note(s, Suppressed(e)), e.name, e.name);
      if e.name in s.phys {
      } else {
      }
    } else {
    }
  }

  /** The records a notification leaves. */
  ghost predicate Left(s: State, t: State, e: LinkEvent) {
    && t.delay == s.delay - {e.name} && t.pending == s.pending
    && if e.del then e.name !in t.emitted && e.name !in t.phys
       else RecordedAs(t, s, e) && t.phys == if s.wifi && e.kind == WifiPhy then s.phys + {e.name} else s.phys
  }

  lemma {:induction false} PreparedDeletion(s: State, e: LinkEvent)
    requires e.del
    ensures Left(s, Prepared(s, e), e)
  {
    if e.name in s.phys {
    } else {
    }
  }

  lemma {:induction false} RecordLeaves(s: State, e: LinkEvent, f: LinkEvent)
    requires !e.del && f == e.(newPhy := f.newPhy)
    ensures RecordedAs(Record(s, f), s, e)
  {
  }

  lemma {:induction false} PreparedNews(s: State, e: LinkEvent)
    requires !e.del && !e.newPhy
    ensures Left(s, Prepared(s, e), e)
  {
    var f := Flagged(s, e);
    var s1 := s.(delay := s.delay - {e.name}, phys := if f.newPhy then s.phys + {e.name} else s.phys);
    RecordLeaves(s1, e, f);
    assert Prepared(s, e) == Record(s1, f);
    hide Prepared, RecordedAs;
    assert RecordedAs(Record(s1, f), s, e) by { RecordedMacs(Record(s1, f), s1, s, e); }
    if s.wifi && e.kind == WifiPhy && e.name !in s.phys {
    } else {
    }
  }

  lemma {:induction false} RecordedMacs(t: State, s: State, s': State, e: LinkEvent)
    requires RecordedAs(t, s, e) && s'.macs == s.macs
    ensures RecordedAs(t, s', e)
  {
  }

  lemma {:induction false} NotifyHandles(s: State, e: LinkEvent)
    requires !e.newPhy && (s.sender || s.batch.Some?)
    ensures var t := Notify(s, e).s;
            && EventsAbout(t.log, e.name) == EventsAbout(s.log, e.name)
                 + [e.(newPhy := !e.del && s.wifi && e.kind == WifiPhy && e.name !in s.phys)]
            && Left(s, t, e)
  {
    NotifyHere(s, e);
    if e.del {
      PreparedDeletion(s, e);
    } else {
      PreparedNews(s, e);
    }
    assert Notify(s, e) == Deliver(Prepared(s, e), Flagged(s, e));
    hide Prepared, Notify, Deliver;
    DeliverKeeps(Prepared(s, e), Flagged(s, e));
  }

  lemma {:induction false} PostponeHandles(s: State, e: LinkEvent, env: Env)
    requires e.name in s.emitted && !e.del && (s.emitted[e.name].up || !e.up)
    ensures var t := Postpone(s, e, env);
            && t.log == s.log && t.phys == s.phys && t.pending == s.pending
            && t.delay == s.delay[e.name := Delayed(e, env.mono + 10.0)]
            && if s.emitted[e.name].up && !e.up then RecordedAs(t, s, e) else t.emitted == s.emitted
  {
    if !e.up && s.emitted[e.name].up {
    } else {
    }
  }

  /** Every event, whatever brought it, is handled by this table. */
  lemma {:induction false} TryNotifyHandles(s: State, e: LinkEvent, env: Env)
    requires !e.newPhy && (s.sender || s.batch.Some?)
    ensures EventHandled(s, TryNotify(s, e, env).s, e, env)
  {
    DownedIsMarked(s, e);
    WatchedIsInterested(s, e);
    hide Downed, Watched, Marked, Interested;
    if Marked(e, s.down) {
      SuppressHandles(s, e);
    } else if !Interested(s, e) {
    } else if !e.del && e.index !in env.udev {
    } else if SendsNow(s, e, env) {
      var s1 := if e.del then s.(pending := s.pending - {e.name}) else s;
      NotifyHandles(s1, e);
      assert TryNotify(s, e, env) == Notify(s1, e);
    } else {
      PostponeHandles(s, e, env);
      assert TryNotify(s, e, env) == Outcome(Postpone(s, e, env), true);
    }
  }

  /** A live link message is the event its fields tell; a wireless notification without association is nothing. */
  lemma {:induction false} MessageRead(s: State, m: LinkMsg, del: bool, env: Env)
    ensures ProcessNetlink(s, m, del, env) ==
            if m.telemetry && !del then Outcome(s, true)
            else TryNotify(if m.mac.Some? then s.(macs := s.macs[m.name := m.mac.value]) else s,
                           LinkEvent(m.name, m.index, m.kind, m.carrier && !del, del, env.wall,
                                     if !del && s.wifi && m.kind == WifiPhy then m.assocSsid else None, false),
                           env)
  {
  }

  // ---------------------------------------------------------------- ticks

  /** A due event is dropped when it is marked by now, or when it says up and the interface is recorded as up. */
  ghost predicate Dropped(s: State, e: LinkEvent) {
    Downed(s, e) || (e.up && e.name in s.emitted && s.emitted[e.name].up)
  }

  lemma {:induction false} ReleaseOneElsewhere(s: State, o: string, n: string)
    requires Inv(s) && o in s.delay && o != n
    ensures SameAt(s, ReleaseOne(s, o).s, n)
  {
    var s1 := s.(delay := s.delay - {o});
    assert SameAt(s, s1, n);
    NotifyElsewhere(s1, s.delay[o].event, n);
  }

  lemma {:induction false} ReleaseOneHere(s: State, n: string)
    requires Inv(s) && s.sender && n in s.delay
    ensures var e := s.delay[n].event;
            var t := ReleaseOne(s, n).s;
            && ReleaseOne(s, n).ok && n !in t.delay
            && EventsAbout(t.log, n) == EventsAbout(s.log, n)
                 + if Dropped(s, e) then [] else [e.(newPhy := s.wifi && e.kind == WifiPhy && n !in s.phys)]
  {
    var s1 := s.(delay := s.delay - {n});
    DownedIsMarked(s, s.delay[n].event);
    NotifyHandles(s1, s.delay[n].event);
    hide Notify, Downed, Marked;
  }

  lemma {:induction false} DroppedSame(s: State, t: State, e: LinkEvent)
    requires SameAt(s, t, e.name) && t.down == s.down
    ensures Dropped(t, e) <==> Dropped(s, e)
  {
  }

  lemma {:induction false} ReleaseDelivers(s: State, due: set<string>, order: seq<string>, n: string)
    requires Inv(s) && s.sender && n in due && n in s.delay && n in order
    ensures var e := s.delay[n].event;
            var t := Release(s, due, order).s;
            && n !in t.delay
            && EventsAbout(t.log, n) == EventsAbout(s.log, n)
                 + if Dropped(s, e) then [] else [e.(newPhy := s.wifi && e.kind == WifiPhy && n !in s.phys)]
    decreases |order|
  {
    hide Dropped;
    var o := order[0];
    if o == n {
      ReleaseOneHere(s, n);
      ReleaseOneFollows(s, n);
      MonitorDebounce.ReleaseQueues(ReleaseOne(s, n).s, due, order[1..], n);
    } else if o !in due || o !in s.delay {
      ReleaseDelivers(s, due, order[1..], n);
    } else {
      var r := ReleaseOne(s, o);
      ReleaseOneFollows(s, o);
      ReleaseOneElsewhere(s, o, n);
      hide ReleaseOne;
      DroppedSame(s, r.s, s.delay[n].event);
      ReleaseDelivers(r.s, due, order[1..], n);
    }
  }

  /** A delay tick takes every event whose time has come out of the queue and delivers it, once, unless it is
      dropped. */
  lemma {:induction false} DueDelivered(s: State, order: seq<string>, env: Env, n: string)
    requires Inv(s) && s.sender && n in s.delay && s.delay[n].deadline < env.mono && n in order
    ensures var e := s.delay[n].event;
            var t := DelayTick(s, order, env).s;
            && n !in t.delay
            && EventsAbout(t.log, n) == EventsAbout(s.log, n)
                 + if Dropped(s, e) then [] else [e.(newPhy := s.wifi && e.kind == WifiPhy && n !in s.phys)]
  {
    assert n in Due(s, env);
    ReleaseDelivers(s, Due(s, env), order, n);
  }

  lemma {:induction false} ReleaseKeeps(s: State, due: set<string>, order: seq<string>, n: string)
    requires Inv(s) && n !in due
    ensures SameAt(s, Release(s, due, order).s, n)
    decreases |order|
  {
    if order != [] {
      var o := order[0];
      if o !in due || o !in s.delay {
        ReleaseKeeps(s, due, order[1..], n);
      } else {
        ReleaseOneFollows(s, o);
        ReleaseOneElsewhere(s, o, n);
        ReleaseKeeps(ReleaseOne(s, o).s, due, order[1..], n);
      }
    }
  }

  /** An interface with nothing due is left alone. */
  lemma {:induction false} NotDueKept(s: State, order: seq<string>, env: Env, n: string)
    requires Inv(s) && (n in s.delay ==> s.delay[n].deadline >= env.mono)
    ensures SameAt(s, DelayTick(s, order, env).s, n)
  {
    ReleaseKeeps(s, Due(s, env), order, n);
  }

  lemma {:induction false} RetryElsewhere(s: State, left: map<string, LinkEvent>, order: seq<string>, env: Env,
                                          n: string)
    requires PlainQueue(left) && n !in left
    ensures SameAt(s, RetryPending(s, left, order, env).s, n)
    decreases |order|
  {
    if order != [] {
      var o := order[0];
      if o !in left {
        RetryElsewhere(s, left, order[1..], env, n);
      } else if left[o].index !in env.udev {
        RetryElsewhere(s.(pending := s.pending[o := left[o]]), left - {o}, order[1..], env, n);
      } else {
        TryNotifyElsewhere(s, left[o], env, n);
        RetryElsewhere(TryNotify(s, left[o], env).s, left - {o}, order[1..], env, n);
      }
    }
  }

  lemma {:induction false} SameAtTrans(s: State, t: State, u: State, n: string)
    requires SameAt(s, t, n) && SameAt(t, u, n)
    ensures SameAt(s, u, n)
  {
  }

  lemma {:induction false} RequeueElsewhere(s: State, e: LinkEvent, n: string)
    requires e.name != n && !e.newPhy && !e.del && Inv(s)
    ensures var t := s.(pending := s.pending[e.name := e]);
            SameAt(s, t, n) && Inv(t) && ControlsOf(t) == ControlsOf(s)
  {
  }

  lemma {:induction false} TryElsewhere(s: State, e: LinkEvent, env: Env, n: string)
    requires e.name != n && !e.newPhy && Inv(s) && s.sender
    ensures var r := TryNotify(s, e, env);
            r.ok && SameAt(s, r.s, n) && Inv(r.s) && ControlsOf(r.s) == ControlsOf(s)
  {
    TryNotifyFollows(s, e, env);
    FollowsControls(s, TryNotify(s, e, env).s);
    TryNotifyElsewhere(s, e, env, n);
  }

  lemma {:induction false} RetryFirst(s: State, left: map<string, LinkEvent>, order: seq<string>, env: Env, n: string)
    requires Inv(s) && s.sender && PlainQueue(left) && n in left && order != [] && order[0] == n
    ensures var t := RetryPending(s, left, order, env).s;
            if left[n].index in env.udev then SameAt(TryNotify(s, left[n], env).s, t, n)
            else SameAt(s.(pending := s.pending[n := left[n]]), t, n)
  {
    if left[n].index in env.udev {
      TryNotifyFollows(s, left[n], env);
      hide TryNotify, SameAt;
      RetryElsewhere(TryNotify(s, left[n], env).s, left - {n}, order[1..], env, n);
    } else {
      hide TryNotify, SameAt;
      RetryElsewhere(s.(pending := s.pending[n := left[n]]), left - {n}, order[1..], env, n);
    }
  }

  lemma {:induction false} RetryHere(s: State, left: map<string, LinkEvent>, order: seq<string>, env: Env, n: string)
    returns (u: State)
    requires Inv(s) && s.sender && PlainQueue(left) && n in left && n in order
    ensures SameAt(s, u, n) && ControlsOf(u) == ControlsOf(s)
    ensures var t := RetryPending(s, left, order, env).s;
            if left[n].index in env.udev then SameAt(TryNotify(u, left[n], env).s, t, n)
            else SameAt(u.(pending := u.pending[n := left[n]]), t, n)
    decreases |order|
  {
    hide TryNotify, SameAt, Inv;
    var o := order[0];
    if o == n {
      u := s;
      SameAtSelf(s, n);
      RetryFirst(s, left, order, env, n);
    } else if o !in left {
      u := RetryHere(s, left, order[1..], env, n);
    } else {
      var s1;
      if left[o].index !in env.udev {
        s1 := s.(pending := s.pending[o := left[o]]);
        RequeueElsewhere(s, left[o], n);
      } else {
        s1 := TryNotify(s, left[o], env).s;
        TryElsewhere(s, left[o], env, n);
      }
      u := RetryHere(s1, left - {o}, order[1..], env, n);
      SameAtTrans(s, s1, u, n);
    }
  }

  lemma {:induction false} SameAtSelf(s: State, n: string)
    ensures SameAt(s, s, n)
  {
  }

  /** A udev tick leaves an event pending while udev lacks its interface, and otherwise handles it as any event, in a
      state `u` that knows the same about the interface. */
  lemma {:induction false} PendingRetried(s: State, order: seq<string>, env: Env, n: string) returns (u: State)
    requires Inv(s) && s.sender && n in s.pending && n in order
    ensures SameAt(s.(pending := s.pending - {n}), u, n) && ControlsOf(u) == ControlsOf(s)
    ensures var t := UdevTick(s, order, env).s;
            if s.pending[n].index in env.udev then SameAt(TryNotify(u, s.pending[n], env).s, t, n)
            else SameAt(s, t, n)
  {
    var s0 := s.(pending := map[]);
    FollowsIfLogSame(s, s0);
    hide TryNotify;
    u := RetryHere(s0, s.pending, order, env, n);
  }

  // ---------------------------------------------------------------- resuming

  /** The message tells something the snapshot does not: a new interface, another carrier, or another SSID. */
  ghost predicate News(s: State, m: LinkMsg) {
    || s.paused.None? || m.name !in s.paused.value
    || m.carrier != s.paused.value[m.name].up
    || (s.wifi && m.kind == WifiPhy && m.assocSsid.Some? && m.assocSsid != s.paused.value[m.name].extra)
  }

  ghost function WithMac(s: State, m: LinkMsg): State {
    if m.mac.Some? then s.(macs := s.macs[m.name := m.mac.value]) else s
  }

  ghost function EventOf(s: State, m: LinkMsg, env: Env): LinkEvent {
    LinkEvent(m.name, m.index, m.kind, m.carrier, false, env.wall,
              if s.wifi && m.kind == WifiPhy then m.assocSsid else None, false)
  }

  /** A dump message with news is handled as any event; without, only the MAC is learned. */
  lemma {:induction false} ResumeOneReads(s: State, m: LinkMsg, env: Env)
    requires !m.telemetry
    ensures ResumeOne(s, m, env) ==
            if News(s, m) then TryNotify(WithMac(s, m), EventOf(s, m, env), env) else Outcome(WithMac(s, m), true)
  {
    hide TryNotify;
  }

  ghost predicate OnlyMessage(msgs: seq<LinkMsg>, k: nat) {
    && k < |msgs| && !msgs[k].telemetry
    && forall j :: 0 <= j < |msgs| && j != k ==> msgs[j].telemetry || msgs[j].name != msgs[k].name
  }

  lemma {:induction false} SeenRest(s: State, msgs: seq<LinkMsg>, env: Env)
    requires OnlyMessage(msgs, 0) && Inv(s) && (s.sender || s.batch.Some?)
    ensures SameAt(ResumeOne(s, msgs[0], env).s, ResumeSeen(s, msgs, env).s, msgs[0].name)
  {
    hide SameAt;
    ResumeOneFollows(s, msgs[0], env);
    assert msgs[0].name !in SeenNames(msgs[1..]);
    MonitorPause.SeenElsewhere(ResumeOne(s, msgs[0], env).s, msgs[1..], env, msgs[0].name);
  }

  lemma {:induction false} ResumeOneAside(s: State, m: LinkMsg, env: Env, n: string)
    requires Inv(s) && (s.sender || s.batch.Some?) && (m.telemetry || m.name != n)
    ensures var r := ResumeOne(s, m, env);
            && r.ok && SameAt(s, r.s, n) && Inv(r.s) && ControlsOf(r.s) == ControlsOf(s)
            && r.s.paused == s.paused && (r.s.sender || r.s.batch.Some?)
  {
    ResumeOneFollows(s, m, env);
    FollowsControls(s, ResumeOne(s, m, env).s);
    MonitorPause.SeenOneElsewhere(s, m, env, n);
  }

  lemma {:induction false} ResumeHere(s: State, msgs: seq<LinkMsg>, env: Env, k: nat) returns (u: State)
    requires OnlyMessage(msgs, k) && Inv(s) && (s.sender || s.batch.Some?)
    ensures SameAt(s, u, msgs[k].name) && ControlsOf(u) == ControlsOf(s) && u.paused == s.paused
    ensures u.sender || u.batch.Some?
    ensures SameAt(ResumeOne(u, msgs[k], env).s, ResumeSeen(s, msgs, env).s, msgs[k].name)
    decreases k
  {
    hide SameAt, Inv, ResumeOne;
    var n := msgs[k].name;
    if k == 0 {
      u := s;
      SameAtSelf(s, n);
      SeenRest(s, msgs, env);
    } else {
      var s1 := ResumeOne(s, msgs[0], env).s;
      ResumeOneAside(s, msgs[0], env, n);
      assert forall j :: 0 <= j < |msgs[1..]| ==> msgs[1..][j] == msgs[j + 1];
      u := ResumeHere(s1, msgs[1..], env, k - 1);
      SameAtTrans(s, s1, u, n);
    }
  }

  lemma {:induction false} ResumeTail(s: State, msgs: seq<LinkMsg>, order: seq<string>, env: Env, n: string)
    requires Inv(s) && (s.sender || s.batch.Some?) && n in SeenNames(msgs)
    ensures SameAt(ResumeSeen(s, msgs, env).s, Resume(s, Dump(msgs, true), order, env).s, n)
  {
    ResumeSeenFollows(s, msgs, env);
    hide Follows, Inv, ResumeSeen, ResumeGone;
    var r := ResumeSeen(s, msgs, env).s;
    if r.paused.Some? {
      var r1 := r.(paused := None);
      MonitorPause.AllGoneElsewhere(r1, r.paused.value - SeenNames(msgs), order, env, n);
      var d := ResumeGone(r1, r.paused.value - SeenNames(msgs), order, env);
      assert SameAt(r, d.s, n) && SameAt(r, d.s.(session := true), n);
    } else {
      assert SameAt(r, r.(session := true), n);
    }
  }

  /** After a resume, the interface of a dump message is as handling that message leaves it, in a state `u` that knew
      the same about the interface. */
  lemma {:induction false} ResumeReads(s: State, msgs: seq<LinkMsg>, order: seq<string>, env: Env,
                                       k: nat) returns (u: State)
    requires OnlyMessage(msgs, k) && Inv(s) && (s.sender || s.batch.Some?)
    ensures SameAt(s, u, msgs[k].name) && ControlsOf(u) == ControlsOf(s) && (u.sender || u.batch.Some?)
    ensures var t := Resume(s, Dump(msgs, true), order, env).s;
            var m := msgs[k];
            if News(s, m) then SameAt(TryNotify(WithMac(u, m), EventOf(s, m, env), env).s, t, m.name)
            else SameAt(WithMac(u, m), t, m.name)
  {
    hide TryNotify, ResumeOne, Resume, SameAt, ResumeSeen, Inv;
    u := ResumeHere(s, msgs, env, k);
    ResumeOneReads(u, msgs[k], env);
    assert msgs[k].name in SeenNames(msgs);
    ResumeTail(s, msgs, order, env, msgs[k].name);
    SameAtTrans(ResumeOne(u, msgs[k], env).s, ResumeSeen(s, msgs, env).s, Resume(s, Dump(msgs, true), order, env).s,
                msgs[k].name);
    assert News(u, msgs[k]) <==> News(s, msgs[k]);
  }

  /** The event waits for udev, was delivered once and recorded, or waits for the debounce. */
  ghost predicate Reported(s: State, t: State, e: LinkEvent, env: Env) {
    if e.index !in env.udev then e.name in t.pending && t.pending[e.name] == e
    else if SendsNow(s, e, env) then
      && e.name in t.emitted && t.emitted[e.name].up == e.up
      && EventsAbout(t.log, e.name) == EventsAbout(s.log, e.name)
           + [e.(newPhy := s.wifi && e.kind == WifiPhy && e.name !in s.phys)]
    else e.name in t.delay && t.delay[e.name] == Delayed(e, env.mono + 10.0)
  }

  lemma {:induction false} HandledReports(s: State, t: State, e: LinkEvent, env: Env)
    requires EventHandled(s, t, e, env) && Watched(s, e) && !Downed(s, e) && !e.del
    ensures Reported(s, t, e, env)
  {
  }

  lemma {:induction false} WithMacKeeps(s: State, m: LinkMsg)
    ensures var t := WithMac(s, m);
            && t.emitted == s.emitted && t.phys == s.phys && t.log == s.log && ControlsOf(t) == ControlsOf(s)
            && (m.name in t.macs <==> m.mac.Some? || m.name in s.macs)
            && (m.name in t.macs ==> t.macs[m.name] == if m.mac.Some? then m.mac.value else s.macs[m.name])
  {
    if m.mac.Some? {
    } else {
    }
  }

  lemma {:induction false} ReportedMoves(s: State, u: State, x: State, t: State, e: LinkEvent, env: Env)
    requires Reported(u, x, e, env) && SameAt(x, t, e.name)
    requires (e.name in s.emitted <==> e.name in u.emitted) &&
             (e.name in s.emitted ==> s.emitted[e.name] == u.emitted[e.name])
    requires u.wifi == s.wifi && (e.name in s.phys <==> e.name in u.phys)
    requires EventsAbout(s.log, e.name) == EventsAbout(u.log, e.name)
    ensures Reported(s, t, e, env)
  {
    assert SendsNow(s, e, env) <==> SendsNow(u, e, env);
    hide SendsNow;
    if e.index !in env.udev {
    } else if SendsNow(s, e, env) {
    } else {
    }
  }

  lemma {:induction false} ReportedElsewhere(s: State, u: State, m: LinkMsg, x: State, t: State, e: LinkEvent, env: Env)
    requires Reported(WithMac(u, m), x, e, env) && SameAt(s, u, e.name) && u.wifi == s.wifi && SameAt(x, t, e.name)
    ensures Reported(s, t, e, env)
  {
    hide Reported, WithMac;
    WithMacKeeps(u, m);
    assert WithMac(u, m).wifi == ControlsOf(WithMac(u, m)).wifi == ControlsOf(u).wifi == u.wifi;
    ReportedMoves(s, WithMac(u, m), x, t, e, env);
  }

  lemma {:induction false} WatchedAlike(s: State, t: State, e: LinkEvent)
    requires ControlsOf(s) == ControlsOf(t)
    requires (e.name in s.macs <==> e.name in t.macs) && (e.name in s.macs ==> s.macs[e.name] == t.macs[e.name])
    ensures Watched(s, e) <==> Watched(t, e)
  {
    assert s.ifaces == ControlsOf(s).ifaces == ControlsOf(t).ifaces == t.ifaces;
    assert s.macWatch == ControlsOf(s).macWatch == ControlsOf(t).macWatch == t.macWatch;
    assert s.wifi == ControlsOf(s).wifi == ControlsOf(t).wifi == t.wifi;
  }

  lemma {:induction false} WatchedSame(s: State, u: State, m: LinkMsg, e: LinkEvent)
    requires SameAt(s, u, e.name) && ControlsOf(s) == ControlsOf(u) && m.name == e.name
    ensures Watched(WithMac(u, m), e) <==> Watched(WithMac(s, m), e)
    ensures Downed(WithMac(u, m), e) <==> Downed(s, e)
  {
    hide Watched, Downed, WithMac;
    WithMacKeeps(s, m);
    WithMacKeeps(u, m);
    WatchedAlike(WithMac(u, m), WithMac(s, m), e);
    DownedAlike(WithMac(u, m), s, e);
  }

  lemma {:induction false} DownedAlike(s: State, t: State, e: LinkEvent)
    requires ControlsOf(s) == ControlsOf(t)
    ensures Downed(s, e) <==> Downed(t, e)
  {
    assert s.down == ControlsOf(s).down == ControlsOf(t).down == t.down;
  }

  /** A watched, unmarked interface about which the dump has news is reported by the resume. */
  lemma {:induction false} ChangedLinkReported(s: State, msgs: seq<LinkMsg>, order: seq<string>, env: Env, k: nat)
    requires OnlyMessage(msgs, k) && Inv(s) && (s.sender || s.batch.Some?) && News(s, msgs[k])
    requires Watched(WithMac(s, msgs[k]), EventOf(s, msgs[k], env)) && !Downed(s, EventOf(s, msgs[k], env))
    ensures Reported(s, Resume(s, Dump(msgs, true), order, env).s, EventOf(s, msgs[k], env), env)
  {
    hide TryNotify, Resume, SameAt, Watched, Downed, Reported, EventHandled, Inv;
    var m := msgs[k];
    var e := EventOf(s, m, env);
    var u := ResumeReads(s, msgs, order, env, k);
    WatchedSame(s, u, m, e);
    TryNotifyHandles(WithMac(u, m), e, env);
    HandledReports(WithMac(u, m), TryNotify(WithMac(u, m), e, env).s, e, env);
    assert u.wifi == ControlsOf(u).wifi;
    ReportedElsewhere(s, u, m, TryNotify(WithMac(u, m), e, env).s, Resume(s, Dump(msgs, true), order, env).s, e, env);
  }

  // ---------------------------------------------------------------- reconciling

  /** The link is up or dormant, or of unknown state and administratively up. */
  ghost predicate ViewUp(i: KernelIface) {
    i.link == Some(LinkUp) || i.link == Some(LinkDormant) || (i.link == Some(LinkUnknown) && i.adminUp)
  }

  ghost predicate ViewWatched(s: State, n: string, i: KernelIface) {
    || n in s.ifaces
    || (s.wifi && i.kind == WifiPhy)
    || (if i.mac.Some? then Upper(i.mac.value) in s.macWatch else n in s.macs && s.macs[n] in s.macWatch)
  }

  ghost function ViewEvent(s: State, n: string, i: KernelIface, env: Env): LinkEvent {
    LinkEvent(n, if i.index == None then 0 else i.index.value, i.kind, ViewUp(i), false, env.wall,
              if s.wifi && i.kind == WifiPhy then i.ssid else None, false)
  }

  /** A queried interface is handled as the event its fields tell, unless it is not watched or its record says the same;
      its MAC address is learned in any case. */
  lemma {:induction false} ViewRead(s: State, n: string, i: KernelIface, env: Env)
    ensures var e := ViewEvent(s, n, i, env);
            var s1 := if i.mac.Some? then s.(macs := s.macs[n := Upper(i.mac.value)]) else s;
            var known := n in s.emitted && s.emitted[n].up == e.up
                         && (e.kind == WifiPhy && e.ssid.Some? ==> s.emitted[n].extra == e.ssid);
            ReconcileOne(s, n, i, env) == if Watched(s1, e) && !known then TryNotify(s1, e, env) else Outcome(s1, true)
  {
    hide TryNotify;
    var s1 := SetMac(s, n, if i.mac.Some? then Some(Upper(i.mac.value)) else None);
    assert EventFromIface(n, i, s.wifi, env) == ViewEvent(s, n, i, env);
    WatchedIsInterested(s1, ViewEvent(s, n, i, env));
  }

  lemma {:induction false} SettledShows(s: State, n: string, i: KernelIface, env: Env)
    requires MonitorReconcile.Settled(s, n, i, env) && ViewWatched(s, n, i)
    ensures || n in s.pending || n in s.delay
            || (&& n in s.emitted && s.emitted[n].up == ViewUp(i)
                && (s.wifi && i.kind == WifiPhy && i.ssid.Some? ==> s.emitted[n].extra == i.ssid))
  {
    assert Interested(s, EventFromIface(n, i, s.wifi, env));
  }

  lemma {:induction false} ForgetMacs(s: State, n: string)
    ensures Forget(s, n).macs == s.macs
  {
    if n in s.phys {
    } else {
    }
  }

  lemma {:induction false} NotifyMacs(s: State, e: LinkEvent)
    ensures Notify(s, e).s.macs == s.macs
  {
    if e.del {
      ForgetMacs(s.(delay := s.delay - {e.name}), e.name);
    }
    DeliverKeeps(Prepared(s, e), Flagged(s, e));
    assert Prepared(s, e).macs == s.macs;
  }

  lemma {:induction false} DebounceMacs(s: State, e: LinkEvent, env: Env)
    ensures Debounce(s, e, env).s.macs == s.macs
  {
    NotifyMacs(s, e);
    hide Notify;
    if e.del || e.name !in s.emitted || Expired(s.emitted[e.name], env) || (!s.emitted[e.name].up && e.up) {
    } else if !e.up && s.emitted[e.name].up {
    } else {
    }
  }

  lemma {:induction false} TryNotifyMacs(s: State, e: LinkEvent, env: Env)
    ensures TryNotify(s, e, env).s.macs == s.macs
  {
    if Marked(e, s.down) {
      ForgetMacs(Note(s, Suppressed(e)), e.name);
    } else if !Interested(s, e) {
    } else if e.del {
      DebounceMacs(s.(pending := s.pending - {e.name}), e, env);
    } else if e.index !in env.udev {
    } else {
      DebounceMacs(s, e, env);
    }
  }

  lemma {:induction false} ReconcileOneMacs(s: State, o: string, i: KernelIface, env: Env)
    ensures ReconcileOne(s, o, i, env).s.macs == if i.mac.Some? then s.macs[o := Upper(i.mac.value)] else s.macs
  {
    var s1 := SetMac(s, o, if i.mac.Some? then Some(Upper(i.mac.value)) else None);
    TryNotifyMacs(s1, EventFromIface(o, i, s.wifi, env), env);
    hide TryNotify;
  }

  /** A MAC address the view does not tell stays as it was learned. */
  lemma {:induction false} SeenKeepsMac(s: State, left: map<string, KernelIface>, order: seq<string>, env: Env,
                                        n: string)
    requires n in left ==> left[n].mac.None?
    ensures var t := ReconcileSeen(s, left, order, env).s;
            (n in t.macs <==> n in s.macs) && (n in s.macs ==> t.macs[n] == s.macs[n])
    decreases |order|
  {
    if order != [] {
      var o := order[0];
      if o !in left {
        SeenKeepsMac(s, left, order[1..], env, n);
      } else {
        ReconcileOneMacs(s, o, left[o], env);
        hide ReconcileOne;
        SeenKeepsMac(ReconcileOne(s, o, left[o], env).s, left - {o}, order[1..], env, n);
      }
    }
  }

  lemma {:induction false} ReconcileKeepsMac(s: State, view: map<string, KernelIface>, order: seq<string>,
                                             tracked: seq<string>, env: Env, n: string)
    requires Steady(s) && s.started && s.pauses == 0 && s.session && s.sender && n in view && view[n].mac.None?
    ensures var t := Reconcile(s, Some(view), order, tracked, env).s;
            (n in t.macs <==> n in s.macs) && (n in s.macs ==> t.macs[n] == s.macs[n])
  {
    var s0 := s.(batch := Some(Batch([], false)));
    MonitorReconcile.LoopsFollow(s, view, order, tracked, env);
    hide Reconcile, Follows, Steady;
    SeenKeepsMac(s0, view, order, env, n);
    MonitorReconcile.GoneElsewhere(ReconcileSeen(s0, view, order, env).s, view.Keys, tracked, env, n);
  }

  /** After a reconciliation every watched interface of the view has a record that says what the view says about its
      link and its SSID, or an event waiting. */
  lemma {:induction false} ReconcileShows(s: State, view: map<string, KernelIface>, order: seq<string>,
                                          tracked: seq<string>, env: Env, n: string)
    requires Steady(s) && s.started && s.pauses == 0 && s.session && s.sender && n in view
    requires Covers(order, view.Keys) && Covers(tracked, s.emitted.Keys) && ViewWatched(s, n, view[n])
    ensures var t := Reconcile(s, Some(view), order, tracked, env).s;
            || n in t.pending || n in t.delay
            || (&& n in t.emitted && t.emitted[n].up == ViewUp(view[n])
                && (s.wifi && view[n].kind == WifiPhy && view[n].ssid.Some? ==> t.emitted[n].extra == view[n].ssid))
  {
    MonitorReconcile.ReconcileConverges(s, view, order, tracked, env);
    ReconcileControl(s, Some(view), order, tracked, env);
    if view[n].mac.None? {
      ReconcileKeepsMac(s, view, order, tracked, env, n);
    }
    hide Reconcile, Steady;
    SettledShows(Reconcile(s, Some(view), order, tracked, env).s, n, view[n], env);
  }

  /** Watched by name, by the MAC address of its record, or as a wifi interface; and not marked. */
  ghost predicate GoneCounts(s: State, n: string, last: LastEvent) {
    && (|| n in s.ifaces || (s.wifi && (last.kind == WifiPhy || last.extra != None))
        || (if last.mac.Some? then last.mac.value in s.macWatch else n in s.macs && s.macs[n] in s.macWatch))
    && n !in s.down && forall x :: last.extra == Some(x) ==> x !in s.down
  }

  lemma {:induction false} GoneCountsMeans(s: State, n: string, last: LastEvent, env: Env)
    ensures GoneCounts(s, n, last) <==> MonitorPause.WatchedGone(s, n, last, env)
    ensures DeleteEvent(last, n, env) == LinkEvent(n, last.index, last.kind, false, true, env.wall, last.extra, false)
  {
    if last.mac.Some? {
    } else {
    }
  }

  lemma {:induction false} GoneOneReports(s: State, n: string, env: Env)
    requires n in s.emitted && GoneCounts(s, n, s.emitted[n]) && (s.sender || s.batch.Some?)
    ensures var last := s.emitted[n];
            var r := ReconcileGoneOne(s, n, env);
            && r.ok && n !in r.s.emitted && EventsAbout(r.s.log, n) == EventsAbout(s.log, n)
                 + [LinkEvent(n, last.index, last.kind, false, true, env.wall, last.extra, false)]
  {
    GoneCountsMeans(s, n, s.emitted[n], env);
    MonitorPause.GoneHere(s, n, s.emitted[n], env);
    hide TryNotify;
    assert ReconcileGoneOne(s, n, env) == GoneOne(s, n, s.emitted[n], env);
  }

  lemma {:induction false} GoneCountsSame(s: State, t: State, n: string, last: LastEvent)
    requires SameAt(s, t, n) && ControlsOf(s) == ControlsOf(t) && GoneCounts(s, n, last)
    ensures GoneCounts(t, n, last)
  {
    assert t.down == ControlsOf(t).down == s.down && t.ifaces == ControlsOf(t).ifaces == s.ifaces;
    assert t.macWatch == ControlsOf(t).macWatch == s.macWatch && t.wifi == ControlsOf(t).wifi == s.wifi;
  }

  lemma {:induction false} GoneAside(s: State, o: string, env: Env, n: string)
    requires Inv(s) && (s.sender || s.batch.Some?) && o in s.emitted && o != n
    ensures var r := ReconcileGoneOne(s, o, env);
            && r.ok && SameAt(s, r.s, n) && Inv(r.s) && ControlsOf(r.s) == ControlsOf(s)
            && (r.s.sender || r.s.batch.Some?)
  {
    ReconcileGoneOneFollows(s, o, env);
    FollowsControls(s, ReconcileGoneOne(s, o, env).s);
    MonitorReconcile.GoneOneElsewhere(s, o, env, n);
  }

  lemma {:induction false} GoneLoopReports(s: State, seen: set<string>, order: seq<string>, env: Env, n: string)
    requires Inv(s) && (s.sender || s.batch.Some?) && n !in seen && n in order
    requires n in s.emitted && GoneCounts(s, n, s.emitted[n])
    ensures var last := s.emitted[n];
            EventsAbout(ReconcileGone(s, seen, order, env).s.log, n) == EventsAbout(s.log, n)
              + [LinkEvent(n, last.index, last.kind, false, true, env.wall, last.extra, false)]
    decreases |order|
  {
    var o := order[0];
    if o == n {
      GoneOneReports(s, n, env);
      hide ReconcileGoneOne;
      MonitorReconcile.GoneElsewhere(ReconcileGoneOne(s, n, env).s, seen, order[1..], env, n);
    } else if o in seen || o !in s.emitted {
      GoneLoopReports(s, seen, order[1..], env, n);
    } else {
      GoneAside(s, o, env, n);
      hide ReconcileGoneOne;
      GoneCountsSame(s, ReconcileGoneOne(s, o, env).s, n, s.emitted[n]);
      GoneLoopReports(ReconcileGoneOne(s, o, env).s, seen, order[1..], env, n);
    }
  }

  /** A watched, unmarked interface that the view lacks is reported by a reconciliation as deleted, exactly once. */
  lemma {:induction false} ReconcileReportsGone(s: State, view: map<string, KernelIface>, order: seq<string>,
                                                tracked: seq<string>, env: Env, n: string)
    requires Steady(s) && s.started && s.pauses == 0 && s.session && s.sender
    requires n in s.emitted && n !in view && n in tracked && GoneCounts(s, n, s.emitted[n])
    ensures var last := s.emitted[n];
            EventsAbout(Reconcile(s, Some(view), order, tracked, env).s.log, n) == EventsAbout(s.log, n)
              + [LinkEvent(n, last.index, last.kind, false, true, env.wall, last.extra, false)]
  {
    var s0 := s.(batch := Some(Batch([], false)));
    MonitorReconcile.LoopsFollow(s, view, order, tracked, env);
    ReconcileSeenFollows(s0, view, order, env);
    MonitorReconcile.SeenElsewhere(s0, view, order, env, n);
    var r := ReconcileSeen(s0, view, order, env);
    FollowsControls(s0, r.s);
    hide Reconcile, ReconcileSeen, Follows;
    GoneCountsSame(s0, r.s, n, s.emitted[n]);
    GoneLoopReports(r.s, view.Keys, tracked, env, n);
    var d := MonitorReconcile.AfterLoops(s, view, order, tracked, env);
    AboutAppended(d.log, BatchSent(d.batch.value.events, false), n);
  }

  /** A reconciliation of a monitor that is not started, paused or without a session does nothing; a failed query
      neither. */
  lemma {:induction false} ReconcileOnlyListening(s: State, view: Option<map<string, KernelIface>>, order: seq<string>,
                                                  tracked: seq<string>, env: Env)
    requires !s.started || s.pauses > 0 || !s.session || view.None?
    ensures Reconcile(s, view, order, tracked, env).s == s
  {
  }

  // ---------------------------------------------------------------- pausing and forgetting

  /** A pause, or the removal of the last watch, closes the session, forgets the MAC addresses and takes the snapshot if
      there is none; records, queues and log stay. */
  lemma {:induction false} PauseCloses(s: State, cmd: Cmd, dump: Dump, order: seq<string>, env: Env)
    requires || cmd.PauseMonitor?
             || (cmd.DelIface? && s.ifaces <= {cmd.name} && s.macWatch == {} && !s.wifi)
             || (cmd.DelMacWatch? && s.macWatch <= {Upper(cmd.mac)} && s.ifaces == {} && !s.wifi)
             || (cmd.DisableWifiMonitor? && s.ifaces == {} && s.macWatch == {})
    ensures var t := ProcessCmd(s, cmd, dump, order, env).s;
            && !t.session && t.macs == map[] && t.paused == (if s.paused == None then Some(s.emitted) else s.paused)
            && t.emitted == s.emitted && t.phys == s.phys && t.delay == s.delay && t.pending == s.pending
            && t.log == s.log
  {
    if cmd.DelIface? {
      assert s.ifaces - {cmd.name} == {};
    } else if cmd.DelMacWatch? {
      assert s.macWatch - {Upper(cmd.mac)} == {};
    }
  }

  lemma {:induction false} UnmarkAllPhys(s: State, names: seq<string>)
    ensures UnmarkAll(s, names).phys == s.phys - SetOf(names)
    ensures UnmarkAll(s, names).emitted == s.emitted && UnmarkAll(s, names).paused == s.paused
    decreases |names|
  {
    if names != [] {
      UnmarkAllPhys(Unmark(s, names[0]), names[1..]);
      assert SetOf(names) == {names[0]} + SetOf(names[1..]) by { assert names == [names[0]] + names[1..]; }
      if names[0] in s.phys {
      } else {
      }
    }
  }

  /** A forget command drops exactly its names from the records and the snapshot; one for emitted events also from the
      announced marks, so that a wifi interface is announced again. */
  lemma {:induction false} ForgetDrops(s: State, cmd: Cmd, dump: Dump, order: seq<string>, env: Env)
    requires cmd.ForgetEmitted? || cmd.ForgetPausedState?
    ensures var t := ProcessCmd(s, cmd, dump, order, env).s;
            && t.emitted == s.emitted - set n | n in cmd.names
            && (s.paused.Some? ==> t.paused == Some(s.paused.value - set n | n in cmd.names))
            && t.phys == if cmd.ForgetEmitted? then s.phys - set n | n in cmd.names else s.phys
  {
    assert SetOf(cmd.names) == set n | n in cmd.names;
    if cmd.ForgetEmitted? {
      UnmarkAllPhys(ForgetSnapshot(s, SetOf(cmd.names)), cmd.names);
    }
  }
}
