/**
 Periodic reconciliation converges: one pass over a queried view settles every interface of the view and
 forgets every other one; a second pass over the same view at the same time changes nothing and sends an
 empty batch.
 */
module MonitorReconcile {
  import opened Base
  import opened LinkMonitor
  import opened MonitorInvariants
  import opened MonitorRuns
  import opened MonitorFrame

  ghost predicate MacKnown(s: State, n: string, i: KernelIface) {
    i.mac.Some? ==> n in s.macs && s.macs[n] == Upper(i.mac.value)
  }

  /** The record of the interface says what the view says. */
  ghost predicate Agrees(s: State, n: string, e: LinkEvent) {
    n in s.emitted && SameState(s.emitted[n], e)
  }

  ghost predicate AwaitsUdev(s: State, n: string, e: LinkEvent, env: Env) {
    e.index !in env.udev && n in s.pending && s.pending[n] == e
  }

  ghost predicate AwaitsDelay(s: State, n: string, e: LinkEvent, env: Env) {
    && e.index in env.udev && n in s.delay && s.delay[n] == Delayed(e, env.mono + DOWN_WAIT_SEC)
    && n in s.emitted && !Expired(s.emitted[n], env) && s.emitted[n].up == e.up
  }

  /** Interface `n` of the view needs nothing more: unwatched, in agreement, or its event is queued. */
  ghost predicate Settled(s: State, n: string, i: KernelIface, env: Env) {
    var e := EventFromIface(n, i, s.wifi, env);
    && MacKnown(s, n, i)
    && (Interested(s, e) ==>
          || Agrees(s, n, e)
          || (!Marked(e, s.down) && (AwaitsUdev(s, n, e, env) || AwaitsDelay(s, n, e, env))))
  }

  // ---------------------------------------------------------------- one interface

  lemma {:induction false} NotifyAgrees(s: State, e: LinkEvent)
    requires !e.del && (s.sender || s.batch.Some?)
    ensures var t := Notify(s, e).s;
            && Agrees(t, e.name, e)
            && t.macs == s.macs
  {
    var p := Prepared(s, e);
    assert p.emitted[e.name] == LastOf(s, Flagged(s, e));
    DeliverKeeps(p, Flagged(s, e));
  }

  lemma {:induction false} DebounceSettles(s: State, e: LinkEvent, env: Env)
    requires !e.del && e.index in env.udev && (s.sender || s.batch.Some?)
    ensures var t := Debounce(s, e, env).s;
            && (Agrees(t, e.name, e) || AwaitsDelay(t, e.name, e, env))
            && t.macs == s.macs
  {
    if e.name !in s.emitted || Expired(s.emitted[e.name], env) || (!s.emitted[e.name].up && e.up) {
      NotifyAgrees(s, e);
    } else if !e.up && s.emitted[e.name].up {
    } else {
    }
  }

  lemma {:induction false} TryNotifySettles(s: State, e: LinkEvent, env: Env)
    requires !e.del && Interested(s, e) && (s.sender || s.batch.Some?)
    ensures var t := TryNotify(s, e, env).s;
            && (Agrees(t, e.name, e)
                || (!Marked(e, s.down) && (AwaitsUdev(t, e.name, e, env) || AwaitsDelay(t, e.name, e, env))))
            && t.macs == s.macs
  {
    if Marked(e, s.down) {
    } else if e.index !in env.udev {
    } else {
      DebounceSettles(s, e, env);
    }
  }

  ghost function Learned(s: State, n: string, i: KernelIface): State {
    SetMac(s, n, if i.mac.Some? then Some(Upper(i.mac.value)) else None)
  }

  lemma {:induction false} OneSettles(s: State, n: string, i: KernelIface, env: Env)
    requires Inv(s) && (s.sender || s.batch.Some?)
    ensures Settled(ReconcileOne(s, n, i, env).s, n, i, env)
  {
    var s1 := Learned(s, n, i);
    var e := EventFromIface(n, i, s.wifi, env);
    ReconcileOneFollows(s, n, i, env);
    if Interested(s1, e) && !Agrees(s1, n, e) {
      TryNotifySettles(s1, e, env);
    }
  }

  lemma {:induction false} SettledIsFixed(s: State, n: string, i: KernelIface, env: Env)
    requires Settled(s, n, i, env)
    ensures ReconcileOne(s, n, i, env) == Outcome(s, true)
  {
    var e := EventFromIface(n, i, s.wifi, env);
    if i.mac.Some? {
      assert s.macs[n := Upper(i.mac.value)] == s.macs;
    }
    assert Learned(s, n, i) == s;
    if Interested(s, e) && !Agrees(s, n, e) {
      if AwaitsUdev(s, n, e, env) {
        assert s.pending[n := e] == s.pending;
      } else {
        assert s.delay[n := Delayed(e, env.mono + DOWN_WAIT_SEC)] == s.delay;
        assert Postpone(s, e, env) == s;
      }
    }
  }

  lemma {:induction false} OneElsewhere(s: State, m: string, i: KernelIface, env: Env, n: string)
    requires m != n
    ensures SameAt(s, ReconcileOne(s, m, i, env).s, n)
  {
    var mac := if i.mac.Some? then Some(Upper(i.mac.value)) else None;
    SetMacElsewhere(s, m, mac, n);
    MacTryElsewhere(s, mac, EventFromIface(m, i, s.wifi, env), env, n);
  }

  lemma {:induction false} SettledFrame(s: State, t: State, n: string, i: KernelIface, env: Env)
    requires Settled(s, n, i, env) && SameAt(s, t, n)
    requires t.ifaces == s.ifaces && t.macWatch == s.macWatch && t.wifi == s.wifi && t.down == s.down
    ensures Settled(t, n, i, env)
  {
  }

  // ---------------------------------------------------------------- the first loop

  lemma {:induction false} SeenKeepsSettled(s: State, left: map<string, KernelIface>, order: seq<string>, env: Env,
                                            n: string, i: KernelIface)
    requires Inv(s) && n !in left && Settled(s, n, i, env)
    ensures Settled(ReconcileSeen(s, left, order, env).s, n, i, env)
    decreases |order|
  {
    if order != [] {
      var o := order[0];
      if o !in left {
        SeenKeepsSettled(s, left, order[1..], env, n, i);
      } else {
        var r := ReconcileOne(s, o, left[o], env);
        OneElsewhere(s, o, left[o], env, n);
        ReconcileOneFollows(s, o, left[o], env);
        SettledFrame(s, r.s, n, i, env);
        SeenKeepsSettled(r.s, left - {o}, order[1..], env, n, i);
      }
    }
  }

  lemma {:induction false} SeenSettles(s: State, left: map<string, KernelIface>, order: seq<string>, env: Env,
                                       n: string)
    requires Inv(s) && s.batch.Some? && n in left && n in order
    ensures Settled(ReconcileSeen(s, left, order, env).s, n, left[n], env)
    decreases |order|
  {
    var o := order[0];
    if o !in left {
      SeenSettles(s, left, order[1..], env, n);
    } else {
      var r := ReconcileOne(s, o, left[o], env);
      ReconcileOneFollows(s, o, left[o], env);
      if o == n {
        OneSettles(s, n, left[n], env);
        SeenKeepsSettled(r.s, left - {n}, order[1..], env, n, left[n]);
      } else {
        SeenSettles(r.s, left - {o}, order[1..], env, n);
      }
    }
  }

  lemma {:induction false} SeenElsewhere(s: State, left: map<string, KernelIface>, order: seq<string>, env: Env,
                                         n: string)
    requires n !in left
    ensures SameAt(s, ReconcileSeen(s, left, order, env).s, n)
    decreases |order|
  {
    if order != [] {
      if order[0] !in left {
        SeenElsewhere(s, left, order[1..], env, n);
      } else {
        OneElsewhere(s, order[0], left[order[0]], env, n);
        SeenElsewhere(ReconcileOne(s, order[0], left[order[0]], env).s, left - {order[0]}, order[1..], env, n);
      }
    }
  }

  lemma {:induction false} SeenIsFixed(s: State, left: map<string, KernelIface>, order: seq<string>, env: Env)
    requires forall n :: n in left ==> Settled(s, n, left[n], env)
    ensures ReconcileSeen(s, left, order, env) == Outcome(s, true)
    decreases |order|
  {
    if order != [] {
      if order[0] !in left {
        SeenIsFixed(s, left, order[1..], env);
      } else {
        SettledIsFixed(s, order[0], left[order[0]], env);
        SeenIsFixed(s, left - {order[0]}, order[1..], env);
      }
    }
  }

  // ---------------------------------------------------------------- the second loop

  lemma {:induction false} DeleteForgets(s: State, e: LinkEvent, env: Env)
    requires e.del && Interested(s, e) && (s.sender || s.batch.Some?)
    ensures TryNotify(s, e, env).ok
    ensures e.name !in TryNotify(s, e, env).s.emitted && e.name !in TryNotify(s, e, env).s.phys
  {
    if Marked(e, s.down) {
      ForgetElsewhere(Note(s, Suppressed(e)), e.name, e.name);
    } else {
      NotifyHere(s.(pending := s.pending - {e.name}), e);
    }
  }

  lemma {:induction false} GoneOneForgets(s: State, name: string, env: Env)
    requires name in s.emitted && (s.sender || s.batch.Some?)
    ensures ReconcileGoneOne(s, name, env).ok
    ensures name !in ReconcileGoneOne(s, name, env).s.emitted && name !in ReconcileGoneOne(s, name, env).s.phys
  {
    var s1 := SetMac(s, name, s.emitted[name].mac);
    var e := DeleteEvent(s.emitted[name], name, env);
    if Interested(s1, e) {
      DeleteForgets(s1, e, env);
    } else {
      ForgetElsewhere(s1, name, name);
    }
  }

  lemma {:induction false} GoneOneElsewhere(s: State, name: string, env: Env, n: string)
    requires name in s.emitted && name != n
    ensures SameAt(s, ReconcileGoneOne(s, name, env).s, n)
  {
    var s1 := SetMac(s, name, s.emitted[name].mac);
    var e := DeleteEvent(s.emitted[name], name, env);
    if Interested(s1, e) {
      MacTryElsewhere(s, s.emitted[name].mac, e, env, n);
    } else {
      SetMacElsewhere(s, name, s.emitted[name].mac, n);
      ForgetElsewhere(s1, name, n);
    }
  }

  lemma {:induction false} GoneElsewhere(s: State, seen: set<string>, order: seq<string>, env: Env, n: string)
    requires n in seen || n !in s.emitted
    ensures SameAt(s, ReconcileGone(s, seen, order, env).s, n)
    decreases |order|
  {
    if order != [] {
      var o := order[0];
      if o in seen || o !in s.emitted {
        GoneElsewhere(s, seen, order[1..], env, n);
      } else {
        GoneOneElsewhere(s, o, env, n);
        GoneElsewhere(ReconcileGoneOne(s, o, env).s, seen, order[1..], env, n);
      }
    }
  }

  lemma {:induction false} GoneForgets(s: State, seen: set<string>, order: seq<string>, env: Env, n: string)
    requires Inv(s) && s.batch.Some? && n !in seen && n in order
    ensures n !in ReconcileGone(s, seen, order, env).s.emitted
    decreases |order|
  {
    var o := order[0];
    if n !in s.emitted {
      GoneElsewhere(s, seen, order, env, n);
    } else if o in seen || o !in s.emitted {
      GoneForgets(s, seen, order[1..], env, n);
    } else {
      var r := ReconcileGoneOne(s, o, env);
      ReconcileGoneOneFollows(s, o, env);
      if o == n {
        GoneOneForgets(s, n, env);
        GoneElsewhere(r.s, seen, order[1..], env, n);
      } else {
        GoneForgets(r.s, seen, order[1..], env, n);
      }
    }
  }

  lemma {:induction false} GoneIsFixed(s: State, seen: set<string>, order: seq<string>, env: Env)
    requires s.emitted.Keys <= seen
    ensures ReconcileGone(s, seen, order, env) == Outcome(s, true)
    decreases |order|
  {
    if order != [] {
      GoneIsFixed(s, seen, order[1..], env);
    }
  }

  // ---------------------------------------------------------------- convergence

  ghost predicate Running(s: State) {
    s.started && s.pauses == 0 && s.session
  }

  /** The state with the batch still open, at the end of both loops. */
  ghost function AfterLoops(s: State, view: map<string, KernelIface>, order: seq<string>, tracked: seq<string>,
                            env: Env): State {
    ReconcileGone(ReconcileSeen(s.(batch := Some(Batch([], false))), view, order, env).s, view.Keys, tracked, env).s
  }

  lemma {:induction false} LoopsFollow(s: State, view: map<string, KernelIface>, order: seq<string>,
                                       tracked: seq<string>, env: Env)
    requires Steady(s) && Running(s) && s.sender
    ensures var d := AfterLoops(s, view, order, tracked, env);
            && Follows(s.(batch := Some(Batch([], false))), d)
            && Reconcile(s, Some(view), order, tracked, env)
               == Outcome(Note(d.(batch := None), BatchSent(d.batch.value.events, false)), true)
  {
    var s0 := s.(batch := Some(Batch([], false)));
    ReconcileSeenFollows(s0, view, order, env);
    var r := ReconcileSeen(s0, view, order, env);
    ReconcileGoneFollows(r.s, view.Keys, tracked, env);
    FollowsTrans(s0, r.s, AfterLoops(s, view, order, tracked, env));
  }

  lemma {:induction false} LoopsSettle(s: State, view: map<string, KernelIface>, order: seq<string>,
                                       tracked: seq<string>, env: Env, n: string)
    requires Steady(s) && n in view && Covers(order, view.Keys)
    ensures Settled(AfterLoops(s, view, order, tracked, env), n, view[n], env)
  {
    var s0 := s.(batch := Some(Batch([], false)));
    var r := ReconcileSeen(s0, view, order, env);
    SeenSettles(s0, view, order, env, n);
    ReconcileSeenFollows(s0, view, order, env);
    GoneElsewhere(r.s, view.Keys, tracked, env, n);
    ReconcileGoneFollows(r.s, view.Keys, tracked, env);
    SettledFrame(r.s, AfterLoops(s, view, order, tracked, env), n, view[n], env);
  }

  lemma {:induction false} LoopsForget(s: State, view: map<string, KernelIface>, order: seq<string>,
                                       tracked: seq<string>, env: Env, n: string)
    requires Steady(s) && n !in view && Covers(tracked, s.emitted.Keys)
    ensures n !in AfterLoops(s, view, order, tracked, env).emitted
  {
    var s0 := s.(batch := Some(Batch([], false)));
    var r := ReconcileSeen(s0, view, order, env);
    SeenElsewhere(s0, view, order, env, n);
    ReconcileSeenFollows(s0, view, order, env);
    if n in r.s.emitted {
      GoneForgets(r.s, view.Keys, tracked, env, n);
    } else {
      GoneElsewhere(r.s, view.Keys, tracked, env, n);
    }
  }

  /** After one pass every record names an interface of the view, and every watched interface of the view agrees with
      its record or has its event queued for udev or for the debounce. */
  lemma {:induction false} ReconcileConverges(s: State, view: map<string, KernelIface>, order: seq<string>,
                                              tracked: seq<string>, env: Env)
    requires Steady(s) && Running(s) && s.sender
    requires Covers(order, view.Keys) && Covers(tracked, s.emitted.Keys)
    ensures var t := Reconcile(s, Some(view), order, tracked, env).s;
            && t.emitted.Keys <= view.Keys
            && forall n :: n in view ==> Settled(t, n, view[n], env)
  {
    var d := AfterLoops(s, view, order, tracked, env);
    var t := Reconcile(s, Some(view), order, tracked, env).s;
    LoopsFollow(s, view, order, tracked, env);
    forall n | n in view
      ensures Settled(t, n, view[n], env)
    {
      LoopsSettle(s, view, order, tracked, env, n);
    }
    forall n | n in t.emitted
      ensures n in view
    {
      if n !in view {
        LoopsForget(s, view, order, tracked, env, n);
      }
    }
  }

  /** A second pass over the same view at the same time, in whatever order it visits, sends an empty batch and changes
      nothing else. */
  lemma {:induction false} ReconcileIdempotent(s: State, view: map<string, KernelIface>, order: seq<string>,
                                               tracked: seq<string>, env: Env, order': seq<string>,
                                               tracked': seq<string>)
    requires Steady(s) && Running(s) && s.sender
    requires Covers(order, view.Keys) && Covers(tracked, s.emitted.Keys)
    ensures var t := Reconcile(s, Some(view), order, tracked, env).s;
            Reconcile(t, Some(view), order', tracked', env) == Outcome(Note(t, BatchSent([], false)), true)
  {
    var t := Reconcile(s, Some(view), order, tracked, env).s;
    LoopsFollow(s, view, order, tracked, env);
    ReconcileConverges(s, view, order, tracked, env);
    var t0 := t.(batch := Some(Batch([], false)));
    forall n | n in view
      ensures Settled(t0, n, view[n], env)
    {
      assert Settled(t, n, view[n], env);
    }
    SeenIsFixed(t0, view, order', env);
    GoneIsFixed(t0, view.Keys, tracked', env);
    assert t0.(batch := None) == t;
  }
}
