/**
 When the monitor listens.  A netlink session is open exactly when the daemon started the monitor, no
 pause is outstanding and something is watched; interleaved pause/resume brackets end listening again;
 the boot batch is sent once.
 */
module MonitorSession {
  import opened Base
  import opened LinkMonitor
  import opened MonitorInvariants
  import opened MonitorRuns

  ghost predicate Listening(s: State) {
    s.session <==> s.started && s.pauses == 0 && HasWatch(s)
  }

  /** An open session was started and has no pause snapshot left. */
  ghost predicate OpenIsClean(s: State) {
    s.session ==> s.started && s.paused.None?
  }

  // ---------------------------------------------------------------- frames

  lemma {:induction false} ReconcileControl(s: State, view: Option<map<string, KernelIface>>, order: seq<string>,
                                            tracked: seq<string>, env: Env)
    requires Steady(s)
    ensures var t := Reconcile(s, view, order, tracked, env).s;
            SameControl(s, t) && t.paused == s.paused && BootBatches(t.log) == BootBatches(s.log)
  {
    if s.started && s.pauses == 0 && s.session && view.Some? {
      var s0 := s.(batch := Some(Batch([], false)));
      ReconcileSeenFollows(s0, view.value, order, env);
      var r := ReconcileSeen(s0, view.value, order, env);
      ReconcileGoneFollows(r.s, view.value.Keys, tracked, env);
      var d := ReconcileGone(r.s, view.value.Keys, tracked, env);
      FollowsTrans(s0, r.s, d.s);
      CleanLogKeepsBoot(s0, d.s);
      if d.s.sender {
        Appended(d.s.log, BatchSent(d.s.batch.value.events, d.s.batch.value.boot));
      }
    }
  }

  /** Nothing but a command touches watches, marks, pauses, the snapshot or the session. */
  lemma {:induction false} LinkStepControl(s: State, st: Step)
    requires Steady(s) && !st.input.Command?
    ensures var t := Next(s, st).s;
            SameControl(s, t) && t.paused == s.paused && BootBatches(t.log) == BootBatches(s.log)
  {
    match st.input
    case Netlink(m, del) =>
      NetlinkFollows(s, m, del, st.env);
      CleanLogKeepsBoot(s, Next(s, st).s);
    case UdevRetry(order) =>
      UdevTickFollows(s, order, st.env);
      CleanLogKeepsBoot(s, Next(s, st).s);
    case DelayDue(order) =>
      ReleaseFollows(s, Due(s, st.env), order);
      CleanLogKeepsBoot(s, Next(s, st).s);
    case Reconciliation(view, order, tracked) => ReconcileControl(s, view, order, tracked, st.env);
  }

  lemma {:induction false} NoBatchNoBoot(log: seq<Entry>, m: nat)
    requires m <= |log| && forall i :: m <= i < |log| ==> !log[i].BatchSent?
    ensures BootBatches(log) == BootBatches(log[..m])
    decreases |log|
  {
    if m < |log| {
      NoBatchNoBoot(log[..|log| - 1], m);
      assert log[..|log| - 1][..m] == log[..m];
    } else {
      assert log[..m] == log;
    }
  }

  lemma {:induction false} CleanLogKeepsBoot(s: State, t: State)
    requires CleanLog(s, t)
    ensures BootBatches(t.log) == BootBatches(s.log)
  {
    NoBatchNoBoot(t.log, |s.log|);
    assert t.log[..|s.log|] == s.log;
  }

  // ---------------------------------------------------------------- commands

  /** The kernel gives a socket and a complete dump. */
  ghost predicate Complete(dump: Dump) {
    dump.Dump? && dump.complete
  }

  ghost predicate Healthy(st: Step) {
    st.input.Command? ==> Complete(st.input.dump)
  }

  ghost predicate FirstStart(s: State, st: Step) {
    st.input.Command? && st.input.cmd.Start? && !s.started
  }

  /** The commands that may open a session, and the state they may open it from. */
  ghost predicate Opening(cmd: Cmd) {
    cmd.AddIface? || cmd.AddMacWatch? || cmd.EnableWifiMonitor? || cmd.ResumeMonitor?
  }

  ghost function BeforeOpen(s: State, cmd: Cmd): State
    requires Opening(cmd)
  {
    match cmd
    case AddIface(n) => s.(ifaces := s.ifaces + {n})
    case AddMacWatch(m) => s.(macWatch := s.macWatch + {Upper(m)})
    case EnableWifiMonitor => s.(wifi := true)
    case ResumeMonitor => s.(pauses := if s.pauses > 0 then s.pauses - 1 else 0)
  }

  lemma {:induction false} OpeningCmd(s: State, cmd: Cmd, dump: Dump, order: seq<string>, env: Env)
    requires Opening(cmd)
    ensures var s1 := BeforeOpen(s, cmd);
            ProcessCmd(s, cmd, dump, order, env) ==
            if HasWatch(s1) then OpenIfNeeded(s1, dump, order, env) else Outcome(s1, true)
  {
    match cmd
    case AddIface(n) => assert n in BeforeOpen(s, cmd).ifaces;
    case AddMacWatch(m) => assert Upper(m) in BeforeOpen(s, cmd).macWatch;
    case _ =>
  }

  lemma {:induction false} OpenEffect(s: State, dump: Dump, order: seq<string>, env: Env)
    requires Steady(s)
    ensures var t := OpenIfNeeded(s, dump, order, env).s;
            && SameControl(s, t.(session := s.session)) && BootBatches(t.log) == BootBatches(s.log)
            && (t.session && !s.session ==> ShouldStartNetlink(s) && t.paused.None?)
            && (s.sender && ShouldStartNetlink(s) ==> (t.session <==> Complete(dump)))
  {
    ResumeFollows(s, dump, order, env);
    CleanLogKeepsBoot(s, Resume(s, dump, order, env).s.(session := s.session));
  }

  lemma {:induction false} StartListens(s: State, dump: Dump, order: seq<string>, env: Env)
    requires Steady(s) && s.sender && !s.session
    ensures var t := StartAndDump(s, dump, order, env).s;
            (t.session <==> Complete(dump)) && SameControl(s, t.(session := false))
  {
    var s0 := s.(batch := Some(Batch([], true)));
    ResumeFollows(s0, dump, order, env);
  }

  /** The command asks the kernel for a session. */
  ghost predicate Opens(s: State, cmd: Cmd) {
    Opening(cmd) && HasWatch(BeforeOpen(s, cmd)) && ShouldStartNetlink(BeforeOpen(s, cmd))
  }

  lemma {:induction false} OpeningListens(s: State, cmd: Cmd, dump: Dump, order: seq<string>, env: Env)
    requires Steady(s) && s.sender && Listening(s) && Opening(cmd)
    ensures Listening(ProcessCmd(s, cmd, dump, order, env).s) <==> (Opens(s, cmd) ==> Complete(dump))
  {
    OpeningCmd(s, cmd, dump, order, env);
    ControlAdvances(s, BeforeOpen(s, cmd));
    OpenEffect(BeforeOpen(s, cmd), dump, order, env);
  }

  /** A watch is removed: the session stays open unless it was the last one. */
  lemma {:induction false} ClosingListens(s: State, less: State)
    requires Listening(s) && less == s.(ifaces := less.ifaces, macWatch := less.macWatch, wifi := less.wifi)
    requires HasWatch(less) ==> HasWatch(s)
    ensures Listening(CloseIfUnused(less).s)
  {
    if !HasWatch(less) {
      assert !HasWatch(Pause(less));
    }
  }

  lemma {:induction false} CmdListens(s: State, cmd: Cmd, dump: Dump, order: seq<string>, env: Env)
    requires Steady(s) && s.sender && Listening(s) && !cmd.Start?
    ensures Listening(ProcessCmd(s, cmd, dump, order, env).s) <==> (Opens(s, cmd) ==> Complete(dump))
  {
    match cmd
    case AddIface(_) => OpeningListens(s, cmd, dump, order, env);
    case AddMacWatch(_) => OpeningListens(s, cmd, dump, order, env);
    case EnableWifiMonitor => OpeningListens(s, cmd, dump, order, env);
    case ResumeMonitor => OpeningListens(s, cmd, dump, order, env);
    case DelIface(n) => ClosingListens(s, s.(ifaces := s.ifaces - {n}));
    case DelMacWatch(m) => ClosingListens(s, s.(macWatch := s.macWatch - {Upper(m)}));
    case DisableWifiMonitor => ClosingListens(s, s.(wifi := false));
    case PauseMonitor =>
    case ForgetEmitted(names) => UnmarkAllFollows(ForgetSnapshot(s, SetOf(names)), names);
    case ForgetPausedState(_) =>
    case MarkExplicitlyDown(_) =>
    case ClearExplicitlyDown(_) =>
    case SetCommanderSender =>
  }

  /** The first `Start` of a watched monitor gets its session exactly when no pause is outstanding; any other step that
      asks for a session gets one. */
  ghost predicate KeepsListening(s: State, st: Step) {
    if FirstStart(s, st) && HasWatch(s) then Complete(st.input.dump) <==> s.pauses == 0
    else st.input.Command? && Opens(s, st.input.cmd) ==> Complete(st.input.dump)
  }

  /** Whatever the kernel answers: a step keeps "listening exactly when it should" if and only if `KeepsListening`. */
  lemma {:induction false} StepListensExactlyWhen(s: State, st: Step)
    requires Steady(s) && s.sender && Listening(s) && OpenIsClean(s)
    ensures var t := Next(s, st).s;
            t.sender && OpenIsClean(t) && (Listening(t) <==> KeepsListening(s, st))
  {
    NextAdvances(s, st);
    StepClean(s, st);
    if !st.input.Command? {
      LinkStepControl(s, st);
    } else if !st.input.cmd.Start? {
      CmdListens(s, st.input.cmd, st.input.dump, st.input.order, st.env);
    } else if !s.started && HasWatch(s) {
      StartListens(s.(started := true), st.input.dump, st.input.order, st.env);
    }
  }

  /** With complete dumps, the only step that breaks it is the first `Start` of a watched monitor under a pause. */
  lemma {:induction false} StepListening(s: State, st: Step)
    requires Steady(s) && s.sender && Healthy(st) && Listening(s) && OpenIsClean(s)
    ensures var t := Next(s, st).s;
            && t.sender && OpenIsClean(t)
            && (Listening(t) <==> (FirstStart(s, st) && HasWatch(s) ==> s.pauses == 0))
  {
    hide Next, Listening, OpenIsClean;
    StepListensExactlyWhen(s, st);
  }

  /** The last resume of a watched monitor, refused a session by the kernel, leaves it deaf. */
  lemma {:induction false} RefusedResumeDeaf(s: State, dump: Dump, order: seq<string>, env: Env)
    requires Steady(s) && s.sender && Listening(s) && OpenIsClean(s)
    requires s.started && s.pauses == 1 && HasWatch(s) && !Complete(dump)
    ensures !Listening(Next(s, Step(Command(ResumeMonitor, dump, order), env)).s)
  {
    hide Next;
    StepListensExactlyWhen(s, Step(Command(ResumeMonitor, dump, order), env));
  }

  lemma {:induction false} ResumeClean(s: State, dump: Dump, order: seq<string>, env: Env)
    requires Inv(s) && s.started && !s.session
    ensures OpenIsClean(Resume(s, dump, order, env).s)
  {
    ResumeFollows(s, dump, order, env);
  }

  lemma {:induction false} OpeningClean(s: State, cmd: Cmd, dump: Dump, order: seq<string>, env: Env)
    requires Steady(s) && OpenIsClean(s) && Opening(cmd)
    ensures OpenIsClean(ProcessCmd(s, cmd, dump, order, env).s)
  {
    var s1 := BeforeOpen(s, cmd);
    OpeningCmd(s, cmd, dump, order, env);
    ControlAdvances(s, s1);
    if HasWatch(s1) && ShouldStartNetlink(s1) {
      ResumeClean(s1, dump, order, env);
    }
  }

  lemma {:induction false} StartClean(s: State, dump: Dump, order: seq<string>, env: Env)
    requires Steady(s) && OpenIsClean(s)
    ensures OpenIsClean(ProcessCmd(s, Start, dump, order, env).s)
  {
    var s1 := s.(started := true);
    if !s.started && HasWatch(s1) {
      ResumeClean(s1.(batch := Some(Batch([], true))), dump, order, env);
    }
  }

  lemma {:induction false} CmdClean(s: State, cmd: Cmd, dump: Dump, order: seq<string>, env: Env)
    requires Steady(s) && OpenIsClean(s)
    ensures OpenIsClean(ProcessCmd(s, cmd, dump, order, env).s)
  {
    hide Resume, StartAndDump, Steady;
    match cmd
    case AddIface(_) => OpeningClean(s, cmd, dump, order, env);
    case AddMacWatch(_) => OpeningClean(s, cmd, dump, order, env);
    case EnableWifiMonitor => OpeningClean(s, cmd, dump, order, env);
    case ResumeMonitor => OpeningClean(s, cmd, dump, order, env);
    case Start => StartClean(s, dump, order, env);
    case ForgetEmitted(names) => UnmarkAllFollows(ForgetSnapshot(s, SetOf(names)), names);
    case ForgetPausedState(_) =>
    case DelIface(n) => CloseClean(s, s.(ifaces := s.ifaces - {n}));
    case DelMacWatch(m) => CloseClean(s, s.(macWatch := s.macWatch - {Upper(m)}));
    case DisableWifiMonitor => CloseClean(s, s.(wifi := false));
    case PauseMonitor =>
    case MarkExplicitlyDown(_) =>
    case ClearExplicitlyDown(_) =>
    case SetCommanderSender =>
  }

  lemma {:induction false} CloseClean(s: State, less: State)
    requires OpenIsClean(s) && less == s.(ifaces := less.ifaces, macWatch := less.macWatch, wifi := less.wifi)
    ensures OpenIsClean(CloseIfUnused(less).s)
  {
    if HasWatch(less) {
    } else {
    }
  }

  /** No step, whatever the kernel answers, leaves an open session with a snapshot. */
  lemma {:induction false} StepClean(s: State, st: Step)
    requires Steady(s) && OpenIsClean(s)
    ensures OpenIsClean(Next(s, st).s)
  {
    hide ProcessCmd;
    if st.input.Command? {
      CmdClean(s, st.input.cmd, st.input.dump, st.input.order, st.env);
    } else {
      LinkStepControl(s, st);
    }
  }

  /** A session opened while the daemon had asked for a pause. */
  lemma {:induction false} StartDuringPauseListens(env: Env)
    ensures var cmds := [SetCommanderSender, EnableWifiMonitor, PauseMonitor, Start];
            var run := seq(4, i requires 0 <= i < 4 => Step(Command(cmds[i], Dump([], true), []), env));
            var t := RunFrom(INITIAL, run);
            t.session && t.pauses == 1
  {
    var e := Dump([], true);
    var s1 := INITIAL.(sender := true);
    var s2 := s1.(wifi := true);
    var s3 := Pause(s2.(pauses := 1));
    var s4 := StartAndDump(s3.(started := true), e, [], env).s;
    var cmds := [SetCommanderSender, EnableWifiMonitor, PauseMonitor, Start];
    var run := seq(4, i requires 0 <= i < 4 => Step(Command(cmds[i], e, []), env));
    assert Next(INITIAL, run[0]).s == s1;
    assert Next(s1, run[1]).s == s2;
    assert Next(s2, run[2]).s == s3;
    assert Next(s3, run[3]).s == s4;
    assert RunFrom(INITIAL, run) == RunFrom(s1, run[1..]) == RunFrom(s2, run[1..][1..]);
    assert RunFrom(s2, run[1..][1..]) == RunFrom(s3, run[1..][1..][1..]) == RunFrom(s4, run[1..][1..][1..][1..]);
  }

  // ---------------------------------------------------------------- runs

  /** Every step is healthy and no first `Start` falls into a pause with something watched. */
  ghost predicate Orderly(s: State, run: seq<Step>)
    decreases |run|
  {
    run == [] ||
    (KeepsListening(s, run[0]) && Orderly(Next(s, run[0]).s, run[1..]))
  }

  lemma {:induction false} RunListening(s: State, run: seq<Step>)
    requires Steady(s) && s.sender && Listening(s) && OpenIsClean(s) && Orderly(s, run)
    ensures var t := RunFrom(s, run); Steady(t) && t.sender && Listening(t) && OpenIsClean(t)
    decreases |run|
  {
    if run != [] {
      StepListensExactlyWhen(s, run[0]);
      NextAdvances(s, run[0]);
      RunListening(Next(s, run[0]).s, run[1..]);
    }
  }

  // ---------------------------------------------------------------- brackets

  /** A step of a transaction bracket (`tx` pauses, or resumes) or any step that does neither. */
  datatype Tagged = Enter(tx: nat, st: Step) | Leave(tx: nat, st: Step) | Other(st: Step)

  ghost predicate WellTagged(x: Tagged, open: set<nat>) {
    match x
    case Enter(tx, st) => st.input.Command? && st.input.cmd.PauseMonitor? && tx !in open && |open| < U32_MAX
    case Leave(tx, st) => st.input.Command? && st.input.cmd.ResumeMonitor? && tx in open
    case Other(st) => st.input.Command? ==> !st.input.cmd.PauseMonitor? && !st.input.cmd.ResumeMonitor?
  }

  ghost function OpenAfter(x: Tagged, open: set<nat>): set<nat> {
    match x
    case Enter(tx, _) => open + {tx}
    case Leave(tx, _) => open - {tx}
    case Other(_) => open
  }

  /** Every transaction pauses before it resumes, in whatever way the transactions interleave. */
  ghost predicate Interleaving(xs: seq<Tagged>, open: set<nat>) {
    xs == [] || (WellTagged(xs[0], open) && Interleaving(xs[1..], OpenAfter(xs[0], open)))
  }

  ghost function StillOpen(xs: seq<Tagged>, open: set<nat>): set<nat> {
    if xs == [] then open else StillOpen(xs[1..], OpenAfter(xs[0], open))
  }

  ghost function Untag(xs: seq<Tagged>): seq<Step> {
    if xs == [] then [] else [xs[0].st] + Untag(xs[1..])
  }

  lemma {:induction false} OtherKeepsPauses(s: State, st: Step)
    requires Steady(s) && WellTagged(Other(st), {})
    ensures Next(s, st).s.pauses == s.pauses
  {
    if !st.input.Command? {
      LinkStepControl(s, st);
    } else if st.input.cmd.Start? {
      ResumeFollows(s.(started := true, batch := Some(Batch([], true))), st.input.dump, st.input.order, st.env);
    } else {
      CmdEffect(s, st.input.cmd, st.input.dump, st.input.order, st.env);
    }
  }

  lemma {:induction false} CmdEffect(s: State, cmd: Cmd, dump: Dump, order: seq<string>, env: Env)
    requires Steady(s) && !cmd.Start?
    ensures var t := ProcessCmd(s, cmd, dump, order, env).s;
            && BootBatches(t.log) == BootBatches(s.log) && t.started == s.started
            && (cmd.ResumeMonitor? ==> t.pauses == if s.pauses > 0 then s.pauses - 1 else 0)
            && (!cmd.ResumeMonitor? && !cmd.PauseMonitor? ==> t.pauses == s.pauses)
  {
    var t := ProcessCmd(s, cmd, dump, order, env).s;
    if Opening(cmd) {
      OpeningCmd(s, cmd, dump, order, env);
      ControlAdvances(s, BeforeOpen(s, cmd));
      OpenEffect(BeforeOpen(s, cmd), dump, order, env);
    } else if cmd.ForgetEmitted? {
      var s1 := ForgetSnapshot(s, SetOf(cmd.names));
      UnmarkAllFollows(s1, cmd.names);
      CleanLogKeepsBoot(s1, t);
    }
  }

  lemma {:induction false} TaggedPauses(s: State, x: Tagged, open: set<nat>)
    requires Steady(s) && WellTagged(x, open) && s.pauses == |open|
    ensures Next(s, x.st).s.pauses == |OpenAfter(x, open)|
  {
    match x
    case Enter(tx, st) =>
    case Leave(tx, st) =>
      assert |open - {tx}| == |open| - 1;
      CmdEffect(s, st.input.cmd, st.input.dump, st.input.order, st.env);
    case Other(st) => OtherKeepsPauses(s, st);
  }

  /** The pause counter is the number of transactions inside their bracket. */
  lemma {:induction false} PausesCountOpen(s: State, xs: seq<Tagged>, open: set<nat>)
    requires Steady(s) && Interleaving(xs, open) && s.pauses == |open|
    ensures RunFrom(s, Untag(xs)).pauses == |StillOpen(xs, open)|
    decreases |xs|
  {
    if xs != [] {
      TaggedPauses(s, xs[0], open);
      NextAdvances(s, xs[0].st);
      PausesCountOpen(Next(s, xs[0].st).s, xs[1..], OpenAfter(xs[0], open));
      assert Untag(xs)[1..] == Untag(xs[1..]);
    }
  }

  /** However the bracketed transactions interleave with each other and with everything else, once the last bracket is
      closed a started monitor listens again if anything is watched, with no snapshot left behind. */
  lemma {:induction false} BracketsEndListening(s: State, xs: seq<Tagged>)
    requires Steady(s) && s.sender && Listening(s) && OpenIsClean(s) && s.started && s.pauses == 0
    requires Interleaving(xs, {}) && StillOpen(xs, {}) == {} && Orderly(s, Untag(xs))
    ensures var t := RunFrom(s, Untag(xs));
            t.pauses == 0 && (t.session <==> t.started && HasWatch(t)) && (t.session ==> t.paused.None?)
  {
    PausesCountOpen(s, xs, {});
    RunListening(s, Untag(xs));
  }

  // ---------------------------------------------------------------- the boot batch

  lemma {:induction false} StartBoot(s: State, dump: Dump, order: seq<string>, env: Env)
    requires Steady(s) && !s.started
    ensures var t := ProcessCmd(s, Start, dump, order, env).s;
            t.started && BootBatches(t.log) == BootBatches(s.log) + if s.sender then 1 else 0
  {
    var s1 := s.(started := true);
    if HasWatch(s1) {
      var s0 := s1.(batch := Some(Batch([], true)));
      ResumeFollows(s0, dump, order, env);
      hide Resume;
      var r := Resume(s0, dump, order, env);
      CleanLogKeepsBoot(s0, r.s.(session := s.session));
      Appended(r.s.log, BatchSent(r.s.batch.value.events, true));
    } else {
      Appended(s1.log, BatchSent([], true));
    }
  }

  /** The boot batch is sent at most once over every run, and exactly once when the channel was set before the monitor
      was started. */
  lemma {:induction false} BootBatchOnce(s: State, run: seq<Step>)
    requires Steady(s) && s.sender
    requires BootBatches(s.log) == if s.started then 1 else 0
    ensures var t := RunFrom(s, run); BootBatches(t.log) == if t.started then 1 else 0
    decreases |run|
  {
    if run != [] {
      var st := run[0];
      if !st.input.Command? {
        LinkStepControl(s, st);
      } else if !st.input.cmd.Start? {
        CmdEffect(s, st.input.cmd, st.input.dump, st.input.order, st.env);
      } else if !s.started {
        StartBoot(s, st.input.dump, st.input.order, st.env);
      }
      NextAdvances(s, st);
      BootBatchOnce(Next(s, st).s, run[1..]);
    }
  }
}
