/**
 Properties of every run of the link monitor: commands, netlink messages, ticks and reconciliations in
 any order, with failing sockets, broken dumps and failing queries.
 */
module MonitorRuns {
  import opened Base
  import opened LinkMonitor
  import opened MonitorInvariants

  // ---------------------------------------------------------------- compound operations

  lemma {:induction false} MacFollows(s: State, macs: map<string, string>)
    ensures Follows(s, s.(macs := macs))
  {
    FollowsIfLogSame(s, s.(macs := macs));
  }

  /** Learning a MAC and then handling an event. */
  lemma {:induction false} MacTryFollows(s: State, name: string, mac: Option<string>, e: LinkEvent, env: Env)
    requires Inv(s) && !e.newPhy
    ensures var r := TryNotify(SetMac(s, name, mac), e, env);
            Follows(s, r.s) && r.s.paused == s.paused && (s.sender || s.batch.Some? ==> r.ok)
  {
    var s1 := SetMac(s, name, mac);
    MacFollows(s, s1.macs);
    TryNotifyFollows(s1, e, env);
    FollowsTrans(s, s1, TryNotify(s1, e, env).s);
  }

  /** Events drained from a queue: their own names, not flagged. */
  ghost predicate PlainQueue(left: map<string, LinkEvent>) {
    forall n :: n in left ==> left[n].name == n && !left[n].newPhy && !left[n].del
  }

  lemma {:induction false} RetryPendingFollows(s: State, left: map<string, LinkEvent>, order: seq<string>, env: Env)
    requires Inv(s) && PlainQueue(left)
    ensures Follows(s, RetryPending(s, left, order, env).s)
    ensures RetryPending(s, left, order, env).s.paused == s.paused
    decreases |order|
  {
    if order != [] {
      var n := order[0];
      if n !in left {
        RetryPendingFollows(s, left, order[1..], env);
      } else {
        var e := left[n];
        var r := if e.index !in env.udev then Outcome(s.(pending := s.pending[e.name := e]), true)
                 else TryNotify(s, e, env);
        if e.index !in env.udev {
          FollowsIfLogSame(s, r.s);
        } else {
          TryNotifyFollows(s, e, env);
        }
        if r.ok {
          RetryPendingFollows(r.s, left - {n}, order[1..], env);
          FollowsTrans(s, r.s, RetryPending(s, left, order, env).s);
        }
      }
    }
  }

  lemma {:induction false} UdevTickFollows(s: State, order: seq<string>, env: Env)
    requires Inv(s)
    ensures Follows(s, UdevTick(s, order, env).s) && UdevTick(s, order, env).s.paused == s.paused
  {
    var s1 := s.(pending := map[]);
    FollowsIfLogSame(s, s1);
    RetryPendingFollows(s1, s.pending, order, env);
    FollowsTrans(s, s1, UdevTick(s, order, env).s);
  }

  lemma {:induction false} ReleaseOneFollows(s: State, name: string)
    requires Inv(s) && name in s.delay
    ensures Follows(s, ReleaseOne(s, name).s) && ReleaseOne(s, name).s.paused == s.paused
  {
    var s1 := s.(delay := s.delay - {name});
    FollowsIfLogSame(s, s1);
    var e := s.delay[name].event;
    if !Marked(e, s.down) {
      NotifyFollows(s1, e);
      FollowsTrans(s, s1, Notify(s1, e).s);
    }
  }

  lemma {:induction false} ReleaseFollows(s: State, due: set<string>, order: seq<string>)
    requires Inv(s)
    ensures Follows(s, Release(s, due, order).s) && Release(s, due, order).s.paused == s.paused
    decreases |order|
  {
    if order != [] {
      if order[0] !in due || order[0] !in s.delay {
        ReleaseFollows(s, due, order[1..]);
      } else {
        ReleaseOneFollows(s, order[0]);
        var r := ReleaseOne(s, order[0]);
        if r.ok {
          ReleaseFollows(r.s, due, order[1..]);
          FollowsTrans(s, r.s, Release(s, due, order).s);
        }
      }
    }
  }

  lemma {:induction false} NetlinkFollows(s: State, m: LinkMsg, del: bool, env: Env)
    requires Inv(s)
    ensures Follows(s, ProcessNetlink(s, m, del, env).s) && ProcessNetlink(s, m, del, env).s.paused == s.paused
  {
    var e := ParseLinkMsg(m, s.wifi, del, env);
    if e.Some? {
      MacTryFollows(s, m.name, m.mac, e.value, env);
    }
  }

  lemma {:induction false} ResumeOneFollows(s: State, m: LinkMsg, env: Env)
    requires Inv(s)
    ensures Follows(s, ResumeOne(s, m, env).s) && ResumeOne(s, m, env).s.paused == s.paused
    ensures s.sender || s.batch.Some? ==> ResumeOne(s, m, env).ok
  {
    hide TryNotify;
    var e := ParseLinkMsg(m, s.wifi, false, env);
    if e.None? {
      assert ResumeOne(s, m, env) == Outcome(s, true);
    } else {
      var s1 := SetMac(s, m.name, m.mac);
      if EmitOnResume(s1, e.value) {
        assert ResumeOne(s, m, env) == TryNotify(s1, e.value, env);
        MacTryFollows(s, m.name, m.mac, e.value, env);
      } else {
        assert ResumeOne(s, m, env) == Outcome(s1, true);
        MacFollows(s, s1.macs);
      }
    }
  }

  lemma {:induction false} ResumeSeenFollows(s: State, msgs: seq<LinkMsg>, env: Env)
    requires Inv(s)
    ensures Follows(s, ResumeSeen(s, msgs, env).s) && ResumeSeen(s, msgs, env).s.paused == s.paused
    ensures ResumeSeen(s, msgs, env).s.session == s.session
    ensures s.sender || s.batch.Some? ==> ResumeSeen(s, msgs, env).ok
    decreases |msgs|
  {
    if msgs != [] {
      ResumeOneFollows(s, msgs[0], env);
      var r := ResumeOne(s, msgs[0], env);
      if r.ok {
        ResumeSeenFollows(r.s, msgs[1..], env);
        FollowsTrans(s, r.s, ResumeSeen(s, msgs, env).s);
      }
    }
  }

  lemma {:induction false} GoneOneFollows(s: State, name: string, last: LastEvent, env: Env)
    requires Inv(s)
    ensures Follows(s, GoneOne(s, name, last, env).s) && GoneOne(s, name, last, env).s.paused == s.paused
    ensures s.sender || s.batch.Some? ==> GoneOne(s, name, last, env).ok
  {
    var r := TryNotify(SetMac(s, name, last.mac), DeleteEvent(last, name, env), env);
    MacTryFollows(s, name, last.mac, DeleteEvent(last, name, env), env);
    if r.ok {
      MacFollows(r.s, r.s.macs - {name});
      FollowsTrans(s, r.s, GoneOne(s, name, last, env).s);
    }
  }

  lemma {:induction false} ResumeGoneFollows(s: State, left: map<string, LastEvent>, order: seq<string>, env: Env)
    requires Inv(s)
    ensures Follows(s, ResumeGone(s, left, order, env).s) && ResumeGone(s, left, order, env).s.paused == s.paused
    ensures s.sender || s.batch.Some? ==> ResumeGone(s, left, order, env).ok
    decreases |order|
  {
    if order != [] {
      if order[0] !in left {
        ResumeGoneFollows(s, left, order[1..], env);
      } else {
        var r := GoneOne(s, order[0], left[order[0]], env);
        GoneOneFollows(s, order[0], left[order[0]], env);
        if r.ok {
          ResumeGoneFollows(r.s, left - {order[0]}, order[1..], env);
          FollowsTrans(s, r.s, ResumeGone(s, left, order, env).s);
        }
      }
    }
  }

  lemma {:induction false} ResumeBodyFollows(s: State, msgs: seq<LinkMsg>, order: seq<string>, env: Env)
    requires Inv(s)
    ensures var r := ResumeSeen(s, msgs, env);
            r.ok && r.s.paused.Some? ==>
              var d := ResumeGone(r.s.(paused := None), r.s.paused.value - SeenNames(msgs), order, env);
              Follows(s, d.s) && d.s.paused.None? && d.s.session == s.session && (s.sender || s.batch.Some? ==> d.ok)
  {
    ResumeSeenFollows(s, msgs, env);
    var r := ResumeSeen(s, msgs, env);
    if r.ok && r.s.paused.Some? {
      var r1 := r.s.(paused := None);
      FollowsIfLogSame(r.s, r1);
      FollowsTrans(s, r.s, r1);
      var left := r.s.paused.value - SeenNames(msgs);
      ResumeGoneFollows(r1, left, order, env);
      FollowsTrans(s, r1, ResumeGone(r1, left, order, env).s);
    }
  }

  /** A resume is link events plus, when everything succeeds, an open session without a snapshot. */
  lemma {:induction false} ResumeFollows(s: State, dump: Dump, order: seq<string>, env: Env)
    requires Inv(s)
    ensures var r := Resume(s, dump, order, env);
            && Follows(s, r.s.(session := s.session))
            && (r.ok ==> r.s.session && r.s.paused.None?)
            && (!r.ok ==> r.s.session == s.session)
            && ((s.sender || s.batch.Some?) && dump.Dump? && dump.complete ==> r.ok)
  {
    FollowsSelf(s);
    hide Follows;
    if dump.NoSocket? {
      assert s.(session := s.session) == s;
    } else {
      ResumeSeenFollows(s, dump.msgs, env);
      var r := ResumeSeen(s, dump.msgs, env);
      assert r.s.(session := s.session) == r.s;
      if !r.ok || !dump.complete {
      } else if r.s.paused.None? {
        SessionOnly(r.s, s.session);
      } else {
        ResumeBodyFollows(s, dump.msgs, order, env);
        var d := ResumeGone(r.s.(paused := None), r.s.paused.value - SeenNames(dump.msgs), order, env);
        SessionOnly(d.s, s.session);
      }
    }
  }

  lemma {:induction false} FollowsSelf(s: State)
    ensures Follows(s, s)
  {
  }

  lemma {:induction false} SessionOnly(t: State, session: bool)
    requires t.session == session
    ensures t.(session := true).(session := session) == t
  {
  }

  lemma {:induction false} ReconcileOneFollows(s: State, name: string, i: KernelIface, env: Env)
    requires Inv(s)
    ensures Follows(s, ReconcileOne(s, name, i, env).s)
    ensures ReconcileOne(s, name, i, env).s.paused == s.paused
    ensures s.sender || s.batch.Some? ==> ReconcileOne(s, name, i, env).ok
  {
    hide TryNotify, Follows, Inv, Interested, SameState;
    var mac := if i.mac.Some? then Some(Upper(i.mac.value)) else None;
    var e := EventFromIface(name, i, s.wifi, env);
    MacFollows(s, SetMac(s, name, mac).macs);
    MacTryFollows(s, name, mac, e, env);
  }

  lemma {:induction false} ReconcileSeenFollows(s: State, left: map<string, KernelIface>, order: seq<string>, env: Env)
    requires Inv(s)
    ensures Follows(s, ReconcileSeen(s, left, order, env).s)
    ensures ReconcileSeen(s, left, order, env).s.paused == s.paused
    ensures s.sender || s.batch.Some? ==> ReconcileSeen(s, left, order, env).ok
    decreases |order|
  {
    if order != [] {
      if order[0] !in left {
        ReconcileSeenFollows(s, left, order[1..], env);
      } else {
        var r := ReconcileOne(s, order[0], left[order[0]], env);
        ReconcileOneFollows(s, order[0], left[order[0]], env);
        if r.ok {
          ReconcileSeenFollows(r.s, left - {order[0]}, order[1..], env);
          FollowsTrans(s, r.s, ReconcileSeen(s, left, order, env).s);
        }
      }
    }
  }

  lemma {:induction false} ReconcileGoneOneFollows(s: State, name: string, env: Env)
    requires Inv(s) && name in s.emitted
    ensures Follows(s, ReconcileGoneOne(s, name, env).s)
    ensures ReconcileGoneOne(s, name, env).s.paused == s.paused
    ensures s.sender || s.batch.Some? ==> ReconcileGoneOne(s, name, env).ok
  {
    hide TryNotify, Follows;
    var last := s.emitted[name];
    var s1 := SetMac(s, name, last.mac);
    var e := DeleteEvent(last, name, env);
    if Interested(s1, e) {
      assert ReconcileGoneOne(s, name, env) == GoneOne(s, name, last, env);
      GoneOneFollows(s, name, last, env);
    } else {
      var r := Forget(s1, name);
      assert ReconcileGoneOne(s, name, env) == Outcome(r.(macs := r.macs - {name}), true);
      MacFollows(s, s1.macs);
      ForgetFollows(s1, name);
      FollowsTrans(s, s1, r);
      MacFollows(r, r.macs - {name});
      FollowsTrans(s, r, r.(macs := r.macs - {name}));
    }
  }

  lemma {:induction false} ReconcileGoneFollows(s: State, seen: set<string>, order: seq<string>, env: Env)
    requires Inv(s)
    ensures Follows(s, ReconcileGone(s, seen, order, env).s)
    ensures ReconcileGone(s, seen, order, env).s.paused == s.paused
    ensures s.sender || s.batch.Some? ==> ReconcileGone(s, seen, order, env).ok
    decreases |order|
  {
    if order != [] {
      if order[0] in seen || order[0] !in s.emitted {
        ReconcileGoneFollows(s, seen, order[1..], env);
      } else {
        var r := ReconcileGoneOne(s, order[0], env);
        ReconcileGoneOneFollows(s, order[0], env);
        if r.ok {
          ReconcileGoneFollows(r.s, seen, order[1..], env);
          FollowsTrans(s, r.s, ReconcileGone(s, seen, order, env).s);
        }
      }
    }
  }

  // ---------------------------------------------------------------- one step

  /** No batch is open between steps. */
  ghost predicate Steady(s: State) {
    s.batch.None? && Inv(s)
  }

  /** What one step of the worker's loop keeps: the log only grows, no entry it adds lets an event out that is marked in
      the state the step started from. */
  ghost predicate Advances(s: State, t: State) {
    && Steady(t)
    && s.log <= t.log
    && (forall i :: |s.log| <= i < |t.log| ==> SafeEntry(t.log[i], s.down))
    && (s.sender ==> t.sender)
    && (s.sender && Conserved(s) ==> Conserved(t))
  }

  lemma {:induction false} FollowsAdvances(s: State, t: State, session: bool)
    requires Steady(s) && Follows(s, t.(session := session))
    ensures Advances(s, t)
  {
  }

  /** Opening a batch, handling events into it and sending it off. */
  lemma {:induction false} BatchAdvances(s: State, boot: bool, u: State, session: bool)
    requires Steady(s) && Follows(s.(batch := Some(Batch([], boot))), u.(session := session))
    ensures u.batch.Some? && Advances(s, SendBatch(u.(batch := None), u.batch.value).s)
  {
    var s0 := s.(batch := Some(Batch([], boot)));
    var u1 := u.(batch := None);
    var x := BatchSent(u.batch.value.events, u.batch.value.boot);
    var t := SendBatch(u1, u.batch.value).s;
    assert SafeBatch(s0) && SafeBatch(u.(session := session));
    assert s.sender && Conserved(s) ==> Conserved(s0);
    assert Inv(u1);
    if u.sender {
      Appended(u.log, x);
      assert t.log == u.log + [x];
      LogGrows(u1, t);
      assert Debounced(t);
    }
  }

  lemma {:induction false} StartAdvances(s: State, dump: Dump, order: seq<string>, env: Env)
    requires Steady(s)
    ensures Advances(s, StartAndDump(s, dump, order, env).s)
  {
    var s0 := s.(batch := Some(Batch([], true)));
    ResumeFollows(s0, dump, order, env);
    BatchAdvances(s, true, Resume(s0, dump, order, env).s, s.session);
  }

  lemma {:induction false} ReconcileAdvances(s: State, view: Option<map<string, KernelIface>>, order: seq<string>,
                                             tracked: seq<string>, env: Env)
    requires Steady(s)
    ensures Advances(s, Reconcile(s, view, order, tracked, env).s)
  {
    if s.started && s.pauses == 0 && s.session && view.Some? {
      var s0 := s.(batch := Some(Batch([], false)));
      ReconcileSeenFollows(s0, view.value, order, env);
      var r := ReconcileSeen(s0, view.value, order, env);
      ReconcileGoneFollows(r.s, view.value.Keys, tracked, env);
      var d := ReconcileGone(r.s, view.value.Keys, tracked, env);
      FollowsTrans(s0, r.s, d.s);
      assert d.s == d.s.(session := s.session);
      BatchAdvances(s, false, d.s, s.session);
    }
  }

  lemma {:induction false} UnmarkAllFollows(s: State, names: seq<string>)
    ensures Follows(s, UnmarkAll(s, names)) && UnmarkAll(s, names).paused == s.paused
    ensures UnmarkAll(s, names).emitted == s.emitted
    decreases |names|
  {
    if names != [] {
      UnmarkFollows(s, names[0]);
      UnmarkAllFollows(Unmark(s, names[0]), names[1..]);
      FollowsTrans(s, Unmark(s, names[0]), UnmarkAll(s, names));
    }
  }

  /** Changes outside the queues, the records and the log. */
  lemma {:induction false} ControlAdvances(s: State, t: State)
    requires Steady(s)
    requires t == s.(ifaces := t.ifaces, macWatch := t.macWatch, wifi := t.wifi, sender := t.sender,
                     pauses := t.pauses, down := t.down, started := t.started, session := t.session,
                     paused := t.paused, macs := t.macs)
    requires s.sender ==> t.sender
    ensures Advances(s, t)
  {
  }

  lemma {:induction false} AdvancesTrans(s: State, t: State, u: State)
    requires Advances(s, t) && Advances(t, u) && t.down == s.down
    ensures Advances(s, u)
  {
  }

  lemma {:induction false} OpenAdvances(s: State, s1: State, dump: Dump, order: seq<string>, env: Env)
    requires Advances(s, s1) && s1.down == s.down
    ensures Advances(s, OpenIfNeeded(s1, dump, order, env).s)
  {
    if ShouldStartNetlink(s1) {
      ResumeFollows(s1, dump, order, env);
      FollowsAdvances(s1, Resume(s1, dump, order, env).s, s1.session);
      AdvancesTrans(s, s1, Resume(s1, dump, order, env).s);
    }
  }

  lemma {:induction false} WatchCmdAdvances(s: State, cmd: Cmd, dump: Dump, order: seq<string>, env: Env)
    requires Steady(s)
    requires cmd.AddIface? || cmd.AddMacWatch? || cmd.EnableWifiMonitor?
    ensures Advances(s, ProcessCmd(s, cmd, dump, order, env).s)
  {
    var s1 := match cmd
      case AddIface(n) => s.(ifaces := s.ifaces + {n})
      case AddMacWatch(m) => s.(macWatch := s.macWatch + {Upper(m)})
      case _ => s.(wifi := true);
    ControlAdvances(s, s1);
    OpenAdvances(s, s1, dump, order, env);
  }

  lemma {:induction false} ForgetCmdAdvances(s: State, names: seq<string>)
    requires Steady(s)
    ensures Advances(s, ForgetSnapshot(s, SetOf(names)))
    ensures Advances(s, UnmarkAll(ForgetSnapshot(s, SetOf(names)), names))
  {
    var s1 := ForgetSnapshot(s, SetOf(names));
    FollowsIfLogSame(s, s1);
    FollowsAdvances(s, s1, s.session);
    UnmarkAllFollows(s1, names);
    FollowsAdvances(s1, UnmarkAll(s1, names), s.session);
    AdvancesTrans(s, s1, UnmarkAll(s1, names));
  }

  lemma {:induction false} StartCmdAdvances(s: State, dump: Dump, order: seq<string>, env: Env)
    requires Steady(s)
    ensures Advances(s, ProcessCmd(s, Start, dump, order, env).s)
  {
    if !s.started {
      var s1 := s.(started := true);
      ControlAdvances(s, s1);
      if HasWatch(s1) {
        StartAdvances(s1, dump, order, env);
        AdvancesTrans(s, s1, StartAndDump(s1, dump, order, env).s);
      } else {
        var s0 := s1.(batch := Some(Batch([], true)));
        assert Follows(s0, s0.(session := s0.session));
        BatchAdvances(s1, true, s0, s0.session);
        assert s0.(batch := None) == s1;
        AdvancesTrans(s, s1, SendBatch(s1, Batch([], true)).s);
      }
    }
  }

  ghost predicate PlainCmd(cmd: Cmd) {
    || cmd.SetCommanderSender? || cmd.DelIface? || cmd.DelMacWatch? || cmd.DisableWifiMonitor?
    || cmd.PauseMonitor? || cmd.MarkExplicitlyDown? || cmd.ClearExplicitlyDown?
  }

  lemma {:induction false} CloseAdvances(s: State, less: State)
    requires Steady(s) && less == s.(ifaces := less.ifaces, macWatch := less.macWatch, wifi := less.wifi)
    ensures Advances(s, CloseIfUnused(less).s)
  {
    if HasWatch(less) {
      ControlAdvances(s, less);
    } else {
      ControlAdvances(s, Pause(less));
    }
  }

  lemma {:induction false} PlainCmdAdvances(s: State, cmd: Cmd, dump: Dump, order: seq<string>, env: Env)
    requires Steady(s) && PlainCmd(cmd)
    ensures Advances(s, ProcessCmd(s, cmd, dump, order, env).s)
  {
    match cmd
    case SetCommanderSender => ControlAdvances(s, s.(sender := true));
    case DelIface(n) => CloseAdvances(s, s.(ifaces := s.ifaces - {n}));
    case DelMacWatch(m) => CloseAdvances(s, s.(macWatch := s.macWatch - {Upper(m)}));
    case DisableWifiMonitor => CloseAdvances(s, s.(wifi := false));
    case PauseMonitor => ControlAdvances(s, ProcessCmd(s, cmd, dump, order, env).s);
    case MarkExplicitlyDown(names) => ControlAdvances(s, s.(down := s.down + SetOf(names)));
    case ClearExplicitlyDown(names) => ControlAdvances(s, s.(down := s.down - SetOf(names)));
  }

  lemma {:induction false} ResumeCmdAdvances(s: State, dump: Dump, order: seq<string>, env: Env)
    requires Steady(s)
    ensures Advances(s, ProcessCmd(s, ResumeMonitor, dump, order, env).s)
  {
    var s1 := s.(pauses := if s.pauses > 0 then s.pauses - 1 else 0);
    ControlAdvances(s, s1);
    OpenAdvances(s, s1, dump, order, env);
  }

  lemma {:induction false} CmdAdvances(s: State, cmd: Cmd, dump: Dump, order: seq<string>, env: Env)
    requires Steady(s)
    ensures Advances(s, ProcessCmd(s, cmd, dump, order, env).s)
  {
    if PlainCmd(cmd) {
      PlainCmdAdvances(s, cmd, dump, order, env);
    } else if cmd.Start? {
      StartCmdAdvances(s, dump, order, env);
    } else if cmd.ResumeMonitor? {
      ResumeCmdAdvances(s, dump, order, env);
    } else if cmd.ForgetPausedState? || cmd.ForgetEmitted? {
      ForgetCmdAdvances(s, cmd.names);
    } else {
      WatchCmdAdvances(s, cmd, dump, order, env);
    }
  }

  lemma {:induction false} NextAdvances(s: State, st: Step)
    requires Steady(s)
    ensures Advances(s, Next(s, st).s)
  {
    match st.input
    case Command(cmd, dump, order) => CmdAdvances(s, cmd, dump, order, st.env);
    case Netlink(m, del) =>
      NetlinkFollows(s, m, del, st.env);
      FollowsAdvances(s, Next(s, st).s, s.session);
    case UdevRetry(order) =>
      UdevTickFollows(s, order, st.env);
      FollowsAdvances(s, Next(s, st).s, s.session);
    case DelayDue(order) =>
      ReleaseFollows(s, Due(s, st.env), order);
      FollowsAdvances(s, Next(s, st).s, s.session);
    case Reconciliation(view, order, tracked) => ReconcileAdvances(s, view, order, tracked, st.env);
  }

  // ---------------------------------------------------------------- whole runs

  lemma {:induction false} RunSteady(s: State, run: seq<Step>)
    requires Steady(s)
    ensures Steady(RunFrom(s, run)) && s.log <= RunFrom(s, run).log
    ensures s.sender ==> RunFrom(s, run).sender
    ensures s.sender && Conserved(s) ==> Conserved(RunFrom(s, run))
    decreases |run|
  {
    if run != [] {
      NextAdvances(s, run[0]);
      RunSteady(Next(s, run[0]).s, run[1..]);
    }
  }

  lemma {:induction false} InitialSteady()
    ensures Steady(INITIAL) && Conserved(INITIAL)
  {
  }

  /** The moment an entry was added to the log: the step `k` it was added by. */
  ghost predicate AddedBy(s: State, run: seq<Step>, k: nat, i: nat) {
    k < |run| && |RunFrom(s, run[..k]).log| <= i < |RunFrom(s, run[..k + 1]).log|
  }

  lemma {:induction false} RunStep(s: State, run: seq<Step>, k: nat)
    requires 0 < k <= |run|
    ensures RunFrom(s, run[..k]) == RunFrom(Next(s, run[0]).s, run[1..][..k - 1])
  {
    assert run[..k][1..] == run[1..][..k - 1];
  }

  lemma {:induction false} EntrySafe(s: State, run: seq<Step>, i: nat) returns (k: nat)
    requires Steady(s) && |s.log| <= i < |RunFrom(s, run).log|
    ensures AddedBy(s, run, k, i)
    ensures SafeEntry(RunFrom(s, run).log[i], RunFrom(s, run[..k]).down)
    decreases |run|
  {
    var t := Next(s, run[0]).s;
    NextAdvances(s, run[0]);
    RunSteady(t, run[1..]);
    RunStep(s, run, 1);
    if i < |t.log| {
      k := 0;
    } else {
      var j := EntrySafe(t, run[1..], i);
      RunStep(s, run, j + 1);
      RunStep(s, run, j + 2);
      k := j + 1;
    }
  }

  /** Entry `i` of the log was added by a step of the run, at which nothing it carries was marked explicitly down. */
  ghost predicate AddedSafely(s: State, run: seq<Step>, i: nat)
    requires i < |RunFrom(s, run).log|
  {
    exists k: nat :: AddedBy(s, run, k, i) && SafeEntry(RunFrom(s, run).log[i], RunFrom(s, run[..k]).down)
  }

  /** Explicit-down safety: whatever run led here, no event has left the monitor, singly or in a batch, that was marked
      as explicitly down when the step that let it out began. */
  lemma {:induction false} ExplicitDownSafety(s: State, run: seq<Step>, i: nat)
    requires Steady(s) && |s.log| <= i < |RunFrom(s, run).log|
    ensures AddedSafely(s, run, i)
  {
    var k := EntrySafe(s, run, i);
  }

  /** In every run two "new wifi-phy" events of one interface are separated by the removal of its announced mark. */
  lemma {:induction false} NewPhyAnnouncedOnce(run: seq<Step>, n: string, i: nat, j: nat)
    requires var log := RunFrom(INITIAL, run).log;
             i < j < |log| && Announces(log[i], n) && Announces(log[j], n)
    ensures var log := RunFrom(INITIAL, run).log;
            exists k :: i < k < j && log[k] == Unmarked(n)
  {
    InitialSteady();
    RunSteady(INITIAL, run);
    AnnouncementsSpaced(RunFrom(INITIAL, run).log, n, i, j);
  }

  /** Once the channel is set, the batches sent carry every collected event exactly once, in order. */
  lemma {:induction false} BatchesLoseNothing(run: seq<Step>)
    ensures var t := RunFrom(INITIAL.(sender := true), run);
            t.batch.None? && Gathered(t.log) == Handed(t.log)
  {
    InitialSteady();
    RunSteady(INITIAL.(sender := true), run);
  }
}
