/**
 Debouncing: a quick down and up again is reported as an up at once, and the down that was waiting is never
 delivered.
 */
module MonitorDebounce {
  import opened Base
  import opened LinkMonitor
  import opened MonitorInvariants
  import opened MonitorRuns
  import opened MonitorSession
  import opened MonitorFrame

  /** The interface has a down waiting and none of its events was ever suppressed. */
  ghost predicate DownWaiting(s: State, n: string) {
    n in s.delay && !s.delay[n].event.up && !EverSuppressed(s.log, n)
  }

  /** An up that passes the filters while a down waits leaves at once and cancels the waiting down. */
  lemma {:induction false} UpOvertakesWaitingDown(s: State, e: LinkEvent, env: Env)
    requires Inv(s) && DownWaiting(s, e.name) && (s.sender || s.batch.Some?)
    requires e.up && !e.del && !Marked(e, s.down) && Interested(s, e) && e.index in env.udev
    ensures var t := TryNotify(s, e, env).s;
            && EventsAbout(t.log, e.name) == EventsAbout(s.log, e.name) + [Flagged(s, e)]
            && e.name !in t.delay && e.name in t.emitted && t.emitted[e.name].up
  {
    assert e.name in s.emitted ==> !s.emitted[e.name].up;
    NotifyHere(s, e);
  }

  // ---------------------------------------------------------------- where queued events come from

  /** A waiting event of `n` in `t` was waiting in `s`, or was queued by a step at time `env`. */
  ghost predicate QueuedBy(s: State, t: State, n: string, env: Env) {
    n in t.delay ==>
      (n in s.delay && t.delay[n] == s.delay[n]) || t.delay[n].deadline == env.mono + DOWN_WAIT_SEC
  }

  lemma {:induction false} ForgetKeepsDelay(s: State, name: string)
    ensures Forget(s, name).delay == s.delay
  {
    if name in s.phys {
    } else {
    }
  }

  lemma {:induction false} SuppressKeepsDelay(s: State, e: LinkEvent)
    ensures Suppress(s, e).delay == s.delay
  {
    if e.del {
      ForgetKeepsDelay(Note(s, Suppressed(e)), e.name);
    } else {
    }
  }

  lemma {:induction false} NotifyQueues(s: State, e: LinkEvent)
    ensures Notify(s, e).s.delay == s.delay - {e.name}
  {
    if e.del {
      ForgetKeepsDelay(s.(delay := s.delay - {e.name}), e.name);
    }
    DeliverKeeps(Prepared(s, e), Flagged(s, e));
    assert Prepared(s, e).delay == s.delay - {e.name};
  }

  lemma {:induction false} DebounceQueues(s: State, e: LinkEvent, env: Env, n: string)
    ensures QueuedBy(s, Debounce(s, e, env).s, n, env)
  {
    if e.del || e.name !in s.emitted || Expired(s.emitted[e.name], env) || (!s.emitted[e.name].up && e.up) {
      NotifyQueues(s, e);
    } else if !e.up && s.emitted[e.name].up {
    } else {
    }
  }

  lemma {:induction false} TryNotifyQueues(s: State, e: LinkEvent, env: Env, n: string)
    ensures QueuedBy(s, TryNotify(s, e, env).s, n, env)
  {
    if Marked(e, s.down) {
      SuppressKeepsDelay(s, e);
    } else if !Interested(s, e) {
    } else if e.del {
      DebounceQueues(s.(pending := s.pending - {e.name}), e, env, n);
    } else if e.index !in env.udev {
    } else {
      DebounceQueues(s, e, env, n);
    }
  }

  lemma {:induction false} MacTryQueues(s: State, name: string, mac: Option<string>, e: LinkEvent, env: Env, n: string)
    ensures QueuedBy(s, TryNotify(SetMac(s, name, mac), e, env).s, n, env)
  {
    TryNotifyQueues(SetMac(s, name, mac), e, env, n);
    if mac.Some? {
    } else {
    }
  }

  lemma {:induction false} RetryQueues(s: State, left: map<string, LinkEvent>, order: seq<string>, env: Env, n: string)
    ensures QueuedBy(s, RetryPending(s, left, order, env).s, n, env)
    decreases |order|
  {
    if order != [] {
      if order[0] !in left {
        RetryQueues(s, left, order[1..], env, n);
      } else {
        var e := left[order[0]];
        if e.index !in env.udev {
          RetryQueues(s.(pending := s.pending[e.name := e]), left - {order[0]}, order[1..], env, n);
        } else {
          TryNotifyQueues(s, e, env, n);
          RetryQueues(TryNotify(s, e, env).s, left - {order[0]}, order[1..], env, n);
        }
      }
    }
  }

  /** What the tick delivers was waiting, and its time had come. */
  lemma {:induction false} ReleaseQueues(s: State, due: set<string>, order: seq<string>, n: string)
    requires Inv(s)
    ensures n in Release(s, due, order).s.delay ==> n in s.delay && Release(s, due, order).s.delay[n] == s.delay[n]
    ensures n !in due || n !in s.delay ==> EventsAbout(Release(s, due, order).s.log, n) == EventsAbout(s.log, n)
    decreases |order|
  {
    if order != [] {
      var o := order[0];
      if o !in due || o !in s.delay {
        ReleaseQueues(s, due, order[1..], n);
      } else {
        var r := ReleaseOne(s, o);
        var s1 := s.(delay := s.delay - {o});
        var e := s.delay[o].event;
        ReleaseOneFollows(s, o);
        NotifyQueues(s1, e);
        if o != n {
          NotifyElsewhere(s1, e, n);
        }
        ReleaseQueues(r.s, due, order[1..], n);
      }
    }
  }

  lemma {:induction false} ResumeSeenQueues(s: State, msgs: seq<LinkMsg>, env: Env, n: string)
    ensures QueuedBy(s, ResumeSeen(s, msgs, env).s, n, env)
    decreases |msgs|
  {
    if msgs != [] {
      var m := msgs[0];
      var e := ParseLinkMsg(m, s.wifi, false, env);
      if e.Some? {
        MacTryQueues(s, m.name, m.mac, e.value, env, n);
      }
      ResumeSeenQueues(ResumeOne(s, m, env).s, msgs[1..], env, n);
    }
  }

  lemma {:induction false} ResumeGoneQueues(s: State, left: map<string, LastEvent>, order: seq<string>, env: Env,
                                            n: string)
    ensures QueuedBy(s, ResumeGone(s, left, order, env).s, n, env)
    decreases |order|
  {
    if order != [] {
      if order[0] !in left {
        ResumeGoneQueues(s, left, order[1..], env, n);
      } else {
        var last := left[order[0]];
        MacTryQueues(s, order[0], last.mac, DeleteEvent(last, order[0], env), env, n);
        ResumeGoneQueues(GoneOne(s, order[0], last, env).s, left - {order[0]}, order[1..], env, n);
      }
    }
  }

  lemma {:induction false} ResumeQueues(s: State, dump: Dump, order: seq<string>, env: Env, n: string)
    ensures QueuedBy(s, Resume(s, dump, order, env).s, n, env)
  {
    if dump.Dump? {
      ResumeSeenQueues(s, dump.msgs, env, n);
      var r := ResumeSeen(s, dump.msgs, env);
      if r.ok && dump.complete && r.s.paused.Some? {
        ResumeGoneQueues(r.s.(paused := None), r.s.paused.value - SeenNames(dump.msgs), order, env, n);
      }
    }
  }

  lemma {:induction false} ReconcileOneQueues(s: State, name: string, i: KernelIface, env: Env, n: string)
    ensures QueuedBy(s, ReconcileOne(s, name, i, env).s, n, env)
  {
    var mac := if i.mac.Some? then Some(Upper(i.mac.value)) else None;
    MacTryQueues(s, name, mac, EventFromIface(name, i, s.wifi, env), env, n);
    if mac.Some? {
    } else {
    }
  }

  lemma {:induction false} ReconcileSeenQueues(s: State, left: map<string, KernelIface>, order: seq<string>, env: Env,
                                               n: string)
    ensures QueuedBy(s, ReconcileSeen(s, left, order, env).s, n, env)
    decreases |order|
  {
    if order != [] {
      if order[0] !in left {
        ReconcileSeenQueues(s, left, order[1..], env, n);
      } else {
        ReconcileOneQueues(s, order[0], left[order[0]], env, n);
        ReconcileSeenQueues(ReconcileOne(s, order[0], left[order[0]], env).s, left - {order[0]}, order[1..], env, n);
      }
    }
  }

  lemma {:induction false} ReconcileGoneOneQueues(s: State, name: string, env: Env, n: string)
    requires name in s.emitted
    ensures QueuedBy(s, ReconcileGoneOne(s, name, env).s, n, env)
  {
    var last := s.emitted[name];
    var s1 := SetMac(s, name, last.mac);
    var e := DeleteEvent(last, name, env);
    if Interested(s1, e) {
      MacTryQueues(s, name, last.mac, e, env, n);
    } else {
      ForgetKeepsDelay(s1, name);
    }
  }

  lemma {:induction false} ReconcileGoneQueues(s: State, seen: set<string>, order: seq<string>, env: Env, n: string)
    ensures QueuedBy(s, ReconcileGone(s, seen, order, env).s, n, env)
    decreases |order|
  {
    if order != [] {
      if order[0] in seen || order[0] !in s.emitted {
        ReconcileGoneQueues(s, seen, order[1..], env, n);
      } else {
        ReconcileGoneOneQueues(s, order[0], env, n);
        ReconcileGoneQueues(ReconcileGoneOne(s, order[0], env).s, seen, order[1..], env, n);
      }
    }
  }

  lemma {:induction false} ReconcileQueues(s: State, view: Option<map<string, KernelIface>>, order: seq<string>,
                                           tracked: seq<string>, env: Env, n: string)
    ensures QueuedBy(s, Reconcile(s, view, order, tracked, env).s, n, env)
  {
    if s.started && s.pauses == 0 && s.session && view.Some? {
      var s0 := s.(batch := Some(Batch([], false)));
      ReconcileSeenQueues(s0, view.value, order, env, n);
      var r := ReconcileSeen(s0, view.value, order, env);
      ReconcileGoneQueues(r.s, view.value.Keys, tracked, env, n);
    }
  }

  lemma {:induction false} UnmarkAllKeepsDelay(s: State, names: seq<string>)
    ensures UnmarkAll(s, names).delay == s.delay
    decreases |names|
  {
    if names != [] {
      UnmarkAllKeepsDelay(Unmark(s, names[0]), names[1..]);
    }
  }

  lemma {:induction false} CmdQueues(s: State, cmd: Cmd, dump: Dump, order: seq<string>, env: Env, n: string)
    ensures QueuedBy(s, ProcessCmd(s, cmd, dump, order, env).s, n, env)
  {
    if Opening(cmd) {
      OpeningCmd(s, cmd, dump, order, env);
      ResumeQueues(BeforeOpen(s, cmd), dump, order, env, n);
    } else if cmd.Start? {
      ResumeQueues(s.(started := true, batch := Some(Batch([], true))), dump, order, env, n);
    } else if cmd.ForgetEmitted? {
      UnmarkAllKeepsDelay(ForgetSnapshot(s, SetOf(cmd.names)), cmd.names);
    }
  }

  lemma {:induction false} NextQueues(s: State, st: Step, n: string)
    requires Steady(s)
    ensures QueuedBy(s, Next(s, st).s, n, st.env)
  {
    match st.input
    case Command(cmd, dump, order) => CmdQueues(s, cmd, dump, order, st.env, n);
    case Netlink(m, del) =>
      var e := ParseLinkMsg(m, s.wifi, del, st.env);
      if e.Some? {
        MacTryQueues(s, m.name, m.mac, e.value, st.env, n);
      }
    case UdevRetry(order) => RetryQueues(s.(pending := map[]), s.pending, order, st.env, n);
    case DelayDue(order) => ReleaseQueues(s, Due(s, st.env), order, n);
    case Reconciliation(view, order, tracked) => ReconcileQueues(s, view, order, tracked, st.env, n);
  }

  // ---------------------------------------------------------------- the cancelled down stays cancelled

  /** Step `k` of the run put what waits for `n` after it into the queue. */
  ghost predicate QueuedAt(s: State, run: seq<Step>, k: nat, n: string) {
    && k < |run|
    && var t, u := RunFrom(s, run[..k]), RunFrom(s, run[..k + 1]);
       && n in u.delay && u.delay[n].deadline == run[k].env.mono + DOWN_WAIT_SEC
       && !(n in t.delay && t.delay[n] == u.delay[n])
  }

  /** A run is its steps but the last, then the last. */
  lemma {:induction false} RunLast(s: State, run: seq<Step>)
    requires run != []
    ensures RunFrom(s, run) == Next(RunFrom(s, run[..|run| - 1]), run[|run| - 1]).s
    decreases |run|
  {
    if |run| > 1 {
      RunLast(Next(s, run[0]).s, run[1..]);
      assert run[1..][..|run| - 2] == run[..|run| - 1][1..];
    } else {
      assert run[..|run| - 1] == [];
    }
  }

  lemma {:induction false} QueuedEarlier(s: State, run: seq<Step>, k: nat, n: string)
    requires run != [] && QueuedAt(s, run[..|run| - 1], k, n)
    ensures QueuedAt(s, run, k, n) && run[..|run| - 1][..k + 1] == run[..k + 1]
  {
    assert run[..|run| - 1][..k] == run[..k] && run[..|run| - 1][..k + 1] == run[..k + 1];
  }

  /** What waits for an interface after a run was waiting before it, or step `k` of the run queued it. */
  lemma {:induction false} RunQueues(s: State, run: seq<Step>, n: string) returns (k: nat)
    requires Steady(s) && n in RunFrom(s, run).delay
    ensures || (n in s.delay && RunFrom(s, run).delay[n] == s.delay[n])
            || (QueuedAt(s, run, k, n) && RunFrom(s, run[..k + 1]).delay[n] == RunFrom(s, run).delay[n])
    decreases |run|
  {
    hide Next;
    k := 0;
    if run != [] {
      var m := |run| - 1;
      var t, u := RunFrom(s, run[..m]), RunFrom(s, run);
      RunLast(s, run);
      RunSteady(s, run[..m]);
      NextQueues(t, run[m], n);
      assert run[..m + 1] == run;
      if n in t.delay && t.delay[n] == u.delay[n] {
        k := RunQueues(s, run[..m], n);
        if QueuedAt(s, run[..m], k, n) {
          QueuedEarlier(s, run, k, n);
        }
      } else {
        k := m;
      }
    }
  }

  /** The events grew by nothing, or by one: `e`, as it is flagged when it leaves. */
  ghost predicate AtMost(after: seq<LinkEvent>, before: seq<LinkEvent>, e: LinkEvent) {
    after == before || (exists f :: after == before + [f] && f == e.(newPhy := f.newPhy))
  }

  lemma {:induction false} OneDelivers(s: State, n: string)
    requires n in s.delay && s.delay[n].event.name == n && s.sender
    ensures AtMost(EventsAbout(ReleaseOne(s, n).s.log, n), EventsAbout(s.log, n), s.delay[n].event)
  {
    var s1, e := s.(delay := s.delay - {n}), s.delay[n].event;
    hide EventsAbout, Notify;
    NotifyHere(s1, e);
    assert Flagged(s1, e) == e.(newPhy := Flagged(s1, e).newPhy);
  }

  /** A delay tick says nothing about an interface that has nothing due, and otherwise at most what waits for it. */
  lemma {:induction false} TickDelivers(s: State, due: set<string>, order: seq<string>, n: string)
    requires Inv(s) && s.sender
    ensures var after, before := EventsAbout(Release(s, due, order).s.log, n), EventsAbout(s.log, n);
            if n in due && n in s.delay then AtMost(after, before, s.delay[n].event) else after == before
    decreases |order|
  {
    if n !in due || n !in s.delay {
      ReleaseQueues(s, due, order, n);
    } else if order != [] {
      var o := order[0];
      if o !in due || o !in s.delay {
        TickDelivers(s, due, order[1..], n);
      } else {
        var r := ReleaseOne(s, o);
        var s1 := s.(delay := s.delay - {o});
        var e := s.delay[o].event;
        ReleaseOneFollows(s, o);
        NotifyQueues(s1, e);
        hide EventsAbout, Notify;
        if o == n {
          OneDelivers(s, n);
          ReleaseQueues(r.s, due, order[1..], n);
        } else {
          NotifyElsewhere(s1, e, n);
          TickDelivers(r.s, due, order[1..], n);
        }
      }
    }
  }

  /** After the up, in every later run and at every later tick, whatever the tick delivers for the interface was put
      into the queue by a step after the up: the down that waited before it is never delivered. */
  lemma {:induction false} CancelledDownNeverDelivered(s: State, e: LinkEvent, env: Env, run: seq<Step>,
                                                       order: seq<string>, env': Env)
    requires Steady(s) && DownWaiting(s, e.name) && s.sender
    requires e.up && !e.del && !e.newPhy && !Marked(e, s.down) && Interested(s, e) && e.index in env.udev
    ensures var t := TryNotify(s, e, env).s;
            var u := RunFrom(t, run);
            var after, before := EventsAbout(DelayTick(u, order, env').s.log, e.name), EventsAbout(u.log, e.name);
            || after == before
            || (&& e.name in u.delay && u.delay[e.name].deadline < env'.mono
                && AtMost(after, before, u.delay[e.name].event)
                && exists k :: QueuedAt(t, run, k, e.name)
                               && RunFrom(t, run[..k + 1]).delay[e.name] == u.delay[e.name])
  {
    var t := TryNotify(s, e, env).s;
    UpOvertakesWaitingDown(s, e, env);
    TryNotifyFollows(s, e, env);
    RunSteady(t, run);
    var u := RunFrom(t, run);
    TickDelivers(u, Due(u, env'), order, e.name);
    if e.name in u.delay {
      var k := RunQueues(t, run, e.name);
    }
  }

  // ---------------------------------------------------------------- interfaces never marked down

  /** Throughout the run neither the interface nor one of the SSIDs is marked explicitly down. */
  ghost predicate NeverMarked(s: State, run: seq<Step>, n: string, ssids: set<string>) {
    forall k :: 0 <= k <= |run| ==> n !in RunFrom(s, run[..k]).down && RunFrom(s, run[..k]).down !! ssids
  }

  /** A run that suppresses an event of the interface had the interface, or the SSID that event carries, marked: if
      neither the interface nor an SSID of `ssids` is ever marked, every suppressed event carries another SSID. */
  lemma {:induction false} NeverMarkedNeverSuppressed(s: State, run: seq<Step>, n: string, ssids: set<string>, i: nat)
    requires Steady(s) && NeverMarked(s, run, n, ssids) && |s.log| <= i < |RunFrom(s, run).log|
    ensures var x := RunFrom(s, run).log[i];
            x.Suppressed? && x.event.name == n ==> x.event.ssid.Some? && x.event.ssid.value !in ssids
  {
    hide Next, Steady;
    var k := EntrySafe(s, run, i);
    assert k <= |run|;
  }

  // ---------------------------------------------------------------- how long a later down waits

  ghost predicate WaitsFrom(s: State, n: string, since: real) {
    n in s.delay ==> s.delay[n].deadline >= since + DOWN_WAIT_SEC
  }

  /** The monotonic clock never goes back behind `since`. */
  ghost predicate NotBefore(run: seq<Step>, since: real) {
    forall i :: 0 <= i < |run| ==> run[i].env.mono >= since
  }

  lemma {:induction false} RunWaitsFrom(s: State, run: seq<Step>, n: string, since: real)
    requires Steady(s) && WaitsFrom(s, n, since) && NotBefore(run, since)
    ensures WaitsFrom(RunFrom(s, run), n, since)
    decreases |run|
  {
    if run != [] {
      NextQueues(s, run[0], n);
      NextAdvances(s, run[0]);
      RunWaitsFrom(Next(s, run[0]).s, run[1..], n, since);
    }
  }

  /** In particular the entry that waited before the up is not in the queue at any later time. */
  lemma {:induction false} CancelledDownGone(s: State, e: LinkEvent, env: Env, run: seq<Step>)
    requires Steady(s) && DownWaiting(s, e.name) && s.sender
    requires e.up && !e.del && !e.newPhy && !Marked(e, s.down) && Interested(s, e) && e.index in env.udev
    requires s.delay[e.name].deadline < env.mono + DOWN_WAIT_SEC && NotBefore(run, env.mono)
    ensures var u := RunFrom(TryNotify(s, e, env).s, run);
            e.name in u.delay ==>
              u.delay[e.name] != s.delay[e.name] && u.delay[e.name].deadline >= env.mono + DOWN_WAIT_SEC
  {
    UpOvertakesWaitingDown(s, e, env);
    TryNotifyFollows(s, e, env);
    RunWaitsFrom(TryNotify(s, e, env).s, run, e.name, env.mono);
  }
}
