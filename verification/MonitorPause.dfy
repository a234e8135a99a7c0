/**
 Pausing and resuming: what the snapshot is, that an apply which changes no link is invisible, and that
 an interface which vanished during the pause is reported exactly once.
 */
module MonitorPause {
  import opened Base
  import opened LinkMonitor
  import opened MonitorInvariants
  import opened MonitorRuns
  import opened MonitorSession
  import opened MonitorFrame

  // ---------------------------------------------------------------- the snapshot

  /** The names a step tells the monitor to forget. */
  ghost function ForgottenBy(st: Step): set<string> {
    if st.input.Command? && (st.input.cmd.ForgetPausedState? || st.input.cmd.ForgetEmitted?)
    then SetOf(st.input.cmd.names) else {}
  }

  ghost function ForgottenIn(run: seq<Step>): set<string> {
    if run == [] then {} else ForgottenBy(run[0]) + ForgottenIn(run[1..])
  }

  /** No session is open, before the run and after each of its steps. */
  ghost predicate StaysClosed(s: State, run: seq<Step>)
    decreases |run|
  {
    !s.session && (run != [] ==> StaysClosed(Next(s, run[0]).s, run[1..]))
  }

  /** A resume that leaves the session closed broke off before the snapshot was used. */
  lemma {:induction false} ClosedResume(s: State, dump: Dump, order: seq<string>, env: Env)
    requires Inv(s) && (s.sender || s.batch.Some?) && !Resume(s, dump, order, env).s.session
    ensures Resume(s, dump, order, env).s.paused == s.paused
  {
    ResumeFollows(s, dump, order, env);
    if dump.Dump? {
      ResumeSeenFollows(s, dump.msgs, env);
    }
  }

  lemma {:induction false} OpeningKeepsSnapshot(s: State, cmd: Cmd, dump: Dump, order: seq<string>, env: Env)
    requires Steady(s) && s.sender && Opening(cmd) && !ProcessCmd(s, cmd, dump, order, env).s.session
    ensures ProcessCmd(s, cmd, dump, order, env).s.paused == s.paused
  {
    var s1 := BeforeOpen(s, cmd);
    OpeningCmd(s, cmd, dump, order, env);
    ControlAdvances(s, s1);
    if HasWatch(s1) && ShouldStartNetlink(s1) {
      ClosedResume(s1, dump, order, env);
    }
  }

  lemma {:induction false} StartKeepsSnapshot(s: State, dump: Dump, order: seq<string>, env: Env)
    requires Steady(s) && s.sender && !ProcessCmd(s, Start, dump, order, env).s.session
    ensures ProcessCmd(s, Start, dump, order, env).s.paused == s.paused
  {
    var s0 := s.(started := true, batch := Some(Batch([], true)));
    if !s.started && HasWatch(s0) {
      ResumeFollows(s0, dump, order, env);
      ClosedResume(s0, dump, order, env);
    }
  }

  /** A snapshot is taken only where there is none, and is what was last emitted. */
  lemma {:induction false} CloseSnapshot(s: State, less: State)
    requires less == s.(ifaces := less.ifaces, macWatch := less.macWatch, wifi := less.wifi)
    ensures var t := CloseIfUnused(less).s;
            t.paused == if HasWatch(less) || s.paused.Some? then s.paused else Some(s.emitted)
  {
    if HasWatch(less) {
    } else {
    }
  }

  lemma {:induction false} ForgetKeepsSnapshot(s: State, cmd: Cmd, dump: Dump, order: seq<string>, env: Env)
    requires cmd.ForgetEmitted? || cmd.ForgetPausedState?
    ensures ProcessCmd(s, cmd, dump, order, env).s.paused ==
            if s.paused.Some? then Some(s.paused.value - SetOf(cmd.names)) else None
  {
    if cmd.ForgetEmitted? {
      UnmarkAllFollows(ForgetSnapshot(s, SetOf(cmd.names)), cmd.names);
    }
  }

  /** A command that leaves the session closed: an existing snapshot loses the forgotten names and nothing else; a new
      one is what was last emitted. */
  lemma {:induction false} CommandSnapshot(s: State, cmd: Cmd, dump: Dump, order: seq<string>, env: Env)
    requires Steady(s) && s.sender && !ProcessCmd(s, cmd, dump, order, env).s.session
    ensures var t := ProcessCmd(s, cmd, dump, order, env).s;
            var names := if cmd.ForgetEmitted? || cmd.ForgetPausedState? then SetOf(cmd.names) else {};
            if s.paused.Some? then t.paused == Some(s.paused.value - names)
            else t.paused.None? || t.paused == Some(s.emitted)
  {
    assert s.paused.Some? ==> s.paused.value - {} == s.paused.value;
    match cmd
    case Start => StartKeepsSnapshot(s, dump, order, env);
    case AddIface(_) => OpeningKeepsSnapshot(s, cmd, dump, order, env);
    case AddMacWatch(_) => OpeningKeepsSnapshot(s, cmd, dump, order, env);
    case EnableWifiMonitor => OpeningKeepsSnapshot(s, cmd, dump, order, env);
    case ResumeMonitor => OpeningKeepsSnapshot(s, cmd, dump, order, env);
    case DelIface(n) => CloseSnapshot(s, s.(ifaces := s.ifaces - {n}));
    case DelMacWatch(m) => CloseSnapshot(s, s.(macWatch := s.macWatch - {Upper(m)}));
    case DisableWifiMonitor => CloseSnapshot(s, s.(wifi := false));
    case ForgetEmitted(_) => ForgetKeepsSnapshot(s, cmd, dump, order, env);
    case ForgetPausedState(_) => ForgetKeepsSnapshot(s, cmd, dump, order, env);
    case PauseMonitor =>
    case MarkExplicitlyDown(_) =>
    case ClearExplicitlyDown(_) =>
    case SetCommanderSender =>
  }

  lemma {:induction false} StepSnapshot(s: State, st: Step)
    requires Steady(s) && s.sender && !Next(s, st).s.session
    ensures var t := Next(s, st).s;
            if s.paused.Some? then t.paused == Some(s.paused.value - ForgottenBy(st))
            else t.paused.None? || t.paused == Some(s.emitted)
  {
    if st.input.Command? {
      CommandSnapshot(s, st.input.cmd, st.input.dump, st.input.order, st.env);
    } else {
      LinkStepControl(s, st);
      assert s.paused.Some? ==> s.paused.value - {} == s.paused.value;
    }
  }

  /** While no session is open, through pauses, failed resumes, watch changes, messages and ticks, the snapshot only
      loses the forgotten names. */
  lemma {:induction false} SnapshotHeld(s: State, run: seq<Step>)
    requires Steady(s) && s.sender && s.paused.Some? && StaysClosed(s, run)
    ensures RunFrom(s, run).paused == Some(s.paused.value - ForgottenIn(run))
    decreases |run|
  {
    if run != [] {
      var t := Next(s, run[0]).s;
      StepSnapshot(s, run[0]);
      NextAdvances(s, run[0]);
      SnapshotHeld(t, run[1..]);
      assert s.paused.value - ForgottenBy(run[0]) - ForgottenIn(run[1..]) == s.paused.value - ForgottenIn(run);
    } else {
      assert s.paused.value - {} == s.paused.value;
    }
  }

  /** The snapshot is what was last emitted at the earliest pause since the last session, whichever step made it: a
      pause command, or the removal of the last watch. */
  lemma {:induction false} SnapshotIsEarliest(s: State, first: Step, run: seq<Step>)
    requires Steady(s) && s.sender && s.paused.None?
    requires Next(s, first).s.paused.Some? && StaysClosed(Next(s, first).s, run)
    ensures RunFrom(s, [first] + run).paused == Some(s.emitted - ForgottenIn(run))
  {
    NextAdvances(s, first);
    StepSnapshot(s, first);
    SnapshotHeld(Next(s, first).s, run);
    assert ([first] + run)[1..] == run;
  }

  /** A pause is outstanding all along, and the monitor is not started with something watched in the middle of it. */
  ghost predicate StaysPaused(s: State, run: seq<Step>)
    decreases |run|
  {
    s.pauses > 0 &&
    (run != [] ==> (FirstStart(s, run[0]) ==> !HasWatch(s)) && StaysPaused(Next(s, run[0]).s, run[1..]))
  }

  lemma {:induction false} PausedOpening(s: State, cmd: Cmd, dump: Dump, order: seq<string>, env: Env)
    requires Steady(s) && Opening(cmd) && !s.session && s.pauses > 0
    requires ProcessCmd(s, cmd, dump, order, env).s.pauses > 0
    ensures !ProcessCmd(s, cmd, dump, order, env).s.session
  {
    CmdEffect(s, cmd, dump, order, env);
    hide Resume;
    OpeningCmd(s, cmd, dump, order, env);
  }

  lemma {:induction false} PausedCmd(s: State, cmd: Cmd, dump: Dump, order: seq<string>, env: Env)
    requires Steady(s) && !s.session && s.pauses > 0 && ProcessCmd(s, cmd, dump, order, env).s.pauses > 0
    requires cmd.Start? && !s.started ==> !HasWatch(s)
    ensures !ProcessCmd(s, cmd, dump, order, env).s.session
  {
    hide Resume, StartAndDump;
    match cmd
    case AddIface(_) => PausedOpening(s, cmd, dump, order, env);
    case AddMacWatch(_) => PausedOpening(s, cmd, dump, order, env);
    case EnableWifiMonitor => PausedOpening(s, cmd, dump, order, env);
    case ResumeMonitor => PausedOpening(s, cmd, dump, order, env);
    case ForgetEmitted(names) => UnmarkAllFollows(ForgetSnapshot(s, SetOf(names)), names);
    case Start =>
      assert HasWatch(s.(started := true)) <==> HasWatch(s);
    case _ =>
  }

  lemma {:induction false} PausedStep(s: State, st: Step)
    requires Steady(s) && !s.session && s.pauses > 0 && Next(s, st).s.pauses > 0
    requires FirstStart(s, st) ==> !HasWatch(s)
    ensures !Next(s, st).s.session
  {
    hide ProcessCmd;
    if st.input.Command? {
      PausedCmd(s, st.input.cmd, st.input.dump, st.input.order, st.env);
    } else {
      LinkStepControl(s, st);
    }
  }

  /** An outstanding pause is one way to keep the session closed. */
  lemma {:induction false} PausedIsClosed(s: State, run: seq<Step>)
    requires Steady(s) && !s.session && StaysPaused(s, run)
    ensures StaysClosed(s, run)
    decreases |run|
  {
    if run != [] {
      PausedStep(s, run[0]);
      NextAdvances(s, run[0]);
      PausedIsClosed(Next(s, run[0]).s, run[1..]);
    }
  }

  // ---------------------------------------------------------------- the invisible pause

  /** A dump message that brings no news: telemetry, an interface as it was in the snapshot, or one that is neither
      watched nor marked. */
  ghost predicate NoNews(s: State, m: LinkMsg, env: Env) {
    var e := ParseLinkMsg(m, s.wifi, false, env);
    e.Some? ==>
      var s1 := SetMac(s, m.name, m.mac);
      !EmitOnResume(s1, e.value) || (!Marked(e.value, s.down) && !Interested(s1, e.value))
  }

  ghost function LearnedMacs(macs: map<string, string>, msgs: seq<LinkMsg>): map<string, string>
    decreases |msgs|
  {
    if msgs == [] then macs
    else if msgs[0].telemetry || msgs[0].mac.None? then LearnedMacs(macs, msgs[1..])
    else LearnedMacs(macs[msgs[0].name := msgs[0].mac.value], msgs[1..])
  }

  ghost function MacsAfter(s: State, msgs: seq<LinkMsg>): State {
    s.(macs := LearnedMacs(s.macs, msgs))
  }

  ghost predicate QuietDump(s: State, msgs: seq<LinkMsg>, env: Env)
    decreases |msgs|
  {
    msgs == [] || (NoNews(s, msgs[0], env) && QuietDump(MacsAfter(s, msgs[..1]), msgs[1..], env))
  }

  lemma {:induction false} MacsAfterOne(s: State, m: LinkMsg)
    ensures MacsAfter(s, [m]) == if m.telemetry then s else SetMac(s, m.name, m.mac)
  {
    assert [m][1..] == [];
    if m.telemetry || m.mac.None? {
      assert LearnedMacs(s.macs, [m]) == LearnedMacs(s.macs, []);
    } else {
      assert LearnedMacs(s.macs, [m]) == LearnedMacs(s.macs[m.name := m.mac.value], []);
    }
  }

  lemma {:induction false} QuietOne(s: State, m: LinkMsg, env: Env)
    requires NoNews(s, m, env)
    ensures ResumeOne(s, m, env) == Outcome(if m.telemetry then s else SetMac(s, m.name, m.mac), true)
  {
    if !m.telemetry {
      var s1 := SetMac(s, m.name, m.mac);
      var e := ParseLinkMsg(m, s.wifi, false, env);
      if EmitOnResume(s1, e.value) {
        assert TryNotify(s1, e.value, env) == Outcome(s1, true);
      }
    }
  }

  lemma {:induction false} QuietSeen(s: State, msgs: seq<LinkMsg>, env: Env)
    requires QuietDump(s, msgs, env)
    ensures ResumeSeen(s, msgs, env) == Outcome(MacsAfter(s, msgs), true)
    decreases |msgs|
  {
    if msgs != [] {
      var m := msgs[0];
      assert msgs[..1] == [m];
      MacsAfterOne(s, m);
      QuietOne(s, m, env);
      QuietSeen(MacsAfter(s, [m]), msgs[1..], env);
    }
  }

  lemma {:induction false} NothingGone(s: State, order: seq<string>, env: Env)
    ensures ResumeGone(s, map[], order, env) == Outcome(s, true)
    decreases |order|
  {
    if order != [] {
      NothingGone(s, order[1..], env);
    }
  }

  /** A resume whose dump agrees with the snapshot sends nothing, records nothing and queues nothing. */
  lemma {:induction false} QuietResume(s: State, msgs: seq<LinkMsg>, order: seq<string>, env: Env)
    requires QuietDump(s, msgs, env)
    requires s.paused.Some? ==> s.paused.value.Keys <= SeenNames(msgs)
    ensures Resume(s, Dump(msgs, true), order, env) ==
            Outcome(s.(macs := MacsAfter(s, msgs).macs, paused := None, session := true), true)
  {
    QuietSeen(s, msgs, env);
    if s.paused.Some? {
      assert s.paused.value - SeenNames(msgs) == map[];
      NothingGone(MacsAfter(s, msgs).(paused := None), order, env);
    }
  }

  /** An apply bracket during which no link changed is invisible: apart from the learned MACs, pausing a listening
      monitor and resuming it gives back the state it had. */
  lemma {:induction false} UnchangedBracketInvisible(s: State, msgs: seq<LinkMsg>, order: seq<string>, env: Env,
                                                     env': Env)
    requires s.session && s.paused.None? && s.started && s.pauses == 0 && HasWatch(s)
    requires QuietDump(Pause(s), msgs, env') && s.emitted.Keys <= SeenNames(msgs)
    ensures var run := [Step(Command(PauseMonitor, NoSocket, []), env),
                        Step(Command(ResumeMonitor, Dump(msgs, true), order), env')];
            RunFrom(s, run) == s.(macs := RunFrom(s, run).macs)
  {
    var run := [Step(Command(PauseMonitor, NoSocket, []), env),
                Step(Command(ResumeMonitor, Dump(msgs, true), order), env')];
    var p := Pause(s.(pauses := 1));
    var q := Pause(s);
    assert Next(s, run[0]).s == p;
    QuietResume(q, msgs, order, env');
    assert p.(pauses := 0) == q;
    assert RunFrom(s, run) == RunFrom(p, run[1..]) == RunFrom(Next(p, run[1]).s, run[1..][1..]);
  }

  // ---------------------------------------------------------------- disappearance

  lemma {:induction false} SeenOneElsewhere(s: State, m: LinkMsg, env: Env, n: string)
    requires m.telemetry || m.name != n
    ensures SameAt(s, ResumeOne(s, m, env).s, n)
  {
    var e := ParseLinkMsg(m, s.wifi, false, env);
    if e.Some? {
      SetMacElsewhere(s, m.name, m.mac, n);
      MacTryElsewhere(s, m.mac, e.value, env, n);
    }
  }

  lemma {:induction false} SeenElsewhere(s: State, msgs: seq<LinkMsg>, env: Env, n: string)
    requires n !in SeenNames(msgs)
    ensures SameAt(s, ResumeSeen(s, msgs, env).s, n)
    decreases |msgs|
  {
    if msgs != [] {
      SeenOneElsewhere(s, msgs[0], env, n);
      assert SeenNames(msgs[1..]) <= SeenNames(msgs);
      SeenElsewhere(ResumeOne(s, msgs[0], env).s, msgs[1..], env, n);
    }
  }

  lemma {:induction false} GoneElsewhere(s: State, name: string, last: LastEvent, env: Env, n: string)
    requires name != n
    ensures SameAt(s, GoneOne(s, name, last, env).s, n)
  {
    MacTryElsewhere(s, last.mac, DeleteEvent(last, name, env), env, n);
    var r := TryNotify(SetMac(s, name, last.mac), DeleteEvent(last, name, env), env);
    if r.ok {
      assert SameAt(r.s, r.s.(macs := r.s.macs - {name}), n);
    }
  }

  lemma {:induction false} AllGoneElsewhere(s: State, left: map<string, LastEvent>, order: seq<string>, env: Env,
                                            n: string)
    requires n !in left
    ensures SameAt(s, ResumeGone(s, left, order, env).s, n)
    decreases |order|
  {
    if order != [] {
      if order[0] !in left {
        AllGoneElsewhere(s, left, order[1..], env, n);
      } else {
        GoneElsewhere(s, order[0], left[order[0]], env, n);
        AllGoneElsewhere(GoneOne(s, order[0], left[order[0]], env).s, left - {order[0]}, order[1..], env, n);
      }
    }
  }

  /** The interface is watched: by name, by the MAC remembered for it, or as a wifi interface. */
  ghost predicate WatchedGone(s: State, n: string, last: LastEvent, env: Env) {
    Interested(SetMac(s, n, last.mac), DeleteEvent(last, n, env)) && !Marked(DeleteEvent(last, n, env), s.down)
  }

  lemma {:induction false} GoneHere(s: State, n: string, last: LastEvent, env: Env)
    requires WatchedGone(s, n, last, env) && (s.sender || s.batch.Some?)
    ensures var r := GoneOne(s, n, last, env);
            && r.ok && Forgotten(r.s, n)
            && EventsAbout(r.s.log, n) == EventsAbout(s.log, n) + [DeleteEvent(last, n, env)]
  {
    var s1 := SetMac(s, n, last.mac);
    NotifyHere(s1.(pending := s1.pending - {n}), DeleteEvent(last, n, env));
  }

  lemma {:induction false} AllGoneHere(s: State, left: map<string, LastEvent>, order: seq<string>, env: Env, n: string)
    requires Inv(s) && n in left && n in order && WatchedGone(s, n, left[n], env) && (s.sender || s.batch.Some?)
    ensures var t := ResumeGone(s, left, order, env).s;
            && Forgotten(t, n)
            && EventsAbout(t.log, n) == EventsAbout(s.log, n) + [DeleteEvent(left[n], n, env)]
    decreases |order|
  {
    var o := order[0];
    if o == n {
      GoneHere(s, n, left[n], env);
      AllGoneElsewhere(GoneOne(s, n, left[n], env).s, left - {n}, order[1..], env, n);
    } else if o !in left {
      AllGoneHere(s, left, order[1..], env, n);
    } else {
      GoneElsewhere(s, o, left[o], env, n);
      GoneOneFollows(s, o, left[o], env);
      AllGoneHere(GoneOne(s, o, left[o], env).s, left - {o}, order[1..], env, n);
    }
  }

  lemma {:induction false} SameInterest(s: State, t: State, e: LinkEvent)
    requires t.ifaces == s.ifaces && t.macWatch == s.macWatch && t.wifi == s.wifi
    requires (e.name in t.macs <==> e.name in s.macs) && (e.name in s.macs ==> t.macs[e.name] == s.macs[e.name])
    ensures Interested(t, e) <==> Interested(s, e)
  {
  }

  lemma {:induction false} StillWatchedGone(s: State, t: State, n: string, last: LastEvent, env: Env)
    requires WatchedGone(s, n, last, env) && SameControl(s, t) && SameAt(s, t, n)
    ensures WatchedGone(t, n, last, env)
  {
    hide EventsAbout, Interested, Marked;
    SameInterest(SetMac(s, n, last.mac), SetMac(t, n, last.mac), DeleteEvent(last, n, env));
  }

  /** An interface of the snapshot that is missing from the dump, watched (also through its remembered MAC) and not
      marked, yields exactly one event, its deletion, and leaves no record, mark or queued event. */
  lemma {:induction false} DisappearedReportedOnce(s: State, msgs: seq<LinkMsg>, order: seq<string>, env: Env,
                                                   n: string)
    requires Inv(s) && (s.sender || s.batch.Some?)
    requires s.paused.Some? && n in s.paused.value && n !in SeenNames(msgs) && Covers(order, s.paused.value.Keys)
    requires WatchedGone(s, n, s.paused.value[n], env)
    ensures var t := Resume(s, Dump(msgs, true), order, env).s;
            && Forgotten(t, n)
            && EventsAbout(t.log, n) == EventsAbout(s.log, n) + [DeleteEvent(s.paused.value[n], n, env)]
  {
    hide EventsAbout, ResumeSeen, ResumeGone;
    ResumeSeenFollows(s, msgs, env);
    SeenElsewhere(s, msgs, env, n);
    var r := ResumeSeen(s, msgs, env).s;
    var r1 := r.(paused := None);
    StillWatchedGone(s, r1, n, s.paused.value[n], env);
    hide WatchedGone, DeleteEvent;
    FollowsIfLogSame(r, r1);
    AllGoneHere(r1, r.paused.value - SeenNames(msgs), order, env, n);
  }
}
