/**
 What every step of the link monitor keeps: queues keyed by the interface they speak of, wifi-phys
 announced once per mark, debounced downs recorded, no marked event leaving, collected events leaving
 in exactly one batch.
 */
module MonitorInvariants {
  import opened LinkMonitor

  // ---------------------------------------------------------------- reading the log

  /** The wifi-phys the log says are announced: flagged new since their last unmarking. */
  ghost function Announced(log: seq<Entry>): set<string> {
    if log == [] then {}
    else
      var before := Announced(log[..|log| - 1]);
      match log[|log| - 1]
      case Sent(e) => if e.newPhy then before + {e.name} else before
      case Collected(e) => if e.newPhy then before + {e.name} else before
      case Unmarked(n) => before - {n}
      case _ => before
  }

  ghost predicate Announces(x: Entry, n: string) {
    (x.Sent? || x.Collected?) && x.event.newPhy && x.event.name == n
  }

  /** Every announcement is of a wifi-phy that was not announced at that moment. */
  ghost predicate AnnouncedOnce(log: seq<Entry>) {
    log == [] ||
    (AnnouncedOnce(log[..|log| - 1]) &&
     var x := log[|log| - 1];
     (x.Sent? || x.Collected?) && x.event.newPhy ==> x.event.name !in Announced(log[..|log| - 1]))
  }

  /** The events put into batches, in order. */
  ghost function Gathered(log: seq<Entry>): seq<LinkEvent> {
    if log == [] then []
    else
      var before := Gathered(log[..|log| - 1]);
      var x := log[|log| - 1];
      if x.Collected? then before + [x.event] else before
  }

  /** The events of the batches sent, in order. */
  ghost function Handed(log: seq<Entry>): seq<LinkEvent> {
    if log == [] then []
    else
      var before := Handed(log[..|log| - 1]);
      var x := log[|log| - 1];
      if x.BatchSent? then before + x.events else before
  }

  ghost function BootBatches(log: seq<Entry>): nat {
    if log == [] then 0
    else
      var x := log[|log| - 1];
      BootBatches(log[..|log| - 1]) + if x.BatchSent? && x.boot then 1 else 0
  }

  lemma {:induction false} Appended(log: seq<Entry>, x: Entry)
    ensures (log + [x])[..|log|] == log
    ensures Announced(log + [x]) ==
            if (x.Sent? || x.Collected?) && x.event.newPhy then Announced(log) + {x.event.name}
            else if x.Unmarked? then Announced(log) - {x.name} else Announced(log)
    ensures AnnouncedOnce(log + [x]) <==>
            AnnouncedOnce(log) &&
            ((x.Sent? || x.Collected?) && x.event.newPhy ==> x.event.name !in Announced(log))
    ensures Gathered(log + [x]) == if x.Collected? then Gathered(log) + [x.event] else Gathered(log)
    ensures Handed(log + [x]) == if x.BatchSent? then Handed(log) + x.events else Handed(log)
    ensures BootBatches(log + [x]) == BootBatches(log) + if x.BatchSent? && x.boot then 1 else 0
  {
    assert (log + [x])[..|log|] == log;
  }

  /** Two announcements of one wifi-phy are separated by the removal of its mark. */
  lemma {:induction false} AnnouncementsSpaced(log: seq<Entry>, n: string, i: nat, j: nat)
    requires AnnouncedOnce(log)
    requires i < j < |log| && Announces(log[i], n) && Announces(log[j], n)
    ensures exists k :: i < k < j && log[k] == Unmarked(n)
  {
    PrefixOnce(log, j + 1);
    StaysAnnounced(log[..j + 1][..j], n, i);
  }

  lemma {:induction false} PrefixOnce(log: seq<Entry>, m: nat)
    requires AnnouncedOnce(log) && m <= |log|
    ensures AnnouncedOnce(log[..m])
    decreases |log|
  {
    if m == |log| {
      assert log[..m] == log;
    } else {
      PrefixOnce(log[..|log| - 1], m);
      assert log[..|log| - 1][..m] == log[..m];
    }
  }

  lemma {:induction false} StaysAnnounced(log: seq<Entry>, n: string, i: nat)
    requires i < |log| && Announces(log[i], n)
    ensures n in Announced(log) || exists k :: i < k < |log| && log[k] == Unmarked(n)
    decreases |log|
  {
    if i < |log| - 1 {
      var shorter := log[..|log| - 1];
      StaysAnnounced(shorter, n, i);
      if k :| i < k < |shorter| && shorter[k] == Unmarked(n) {
        assert log[k] == Unmarked(n);
      }
    }
  }

  // ---------------------------------------------------------------- the invariant

  /** Queued events are filed under their own interface and carry no announcement of their own. */
  ghost predicate Keyed(s: State) {
    && (forall n :: n in s.delay ==>
          s.delay[n].event.name == n && !s.delay[n].event.newPhy && !s.delay[n].event.del)
    && (forall n :: n in s.pending ==> s.pending[n].name == n && !s.pending[n].newPhy && !s.pending[n].del)
  }

  ghost predicate AnnouncedMarked(s: State) {
    Announced(s.log) <= s.phys && AnnouncedOnce(s.log)
  }

  /** An event of the interface was dropped because of an explicit down. */
  ghost predicate EverSuppressed(log: seq<Entry>, n: string) {
    exists i :: 0 <= i < |log| && log[i].Suppressed? && log[i].event.name == n
  }

  /** A queued down whose interface has a record is already recorded as down, unless an event of the interface was
      suppressed by an explicit down. */
  ghost predicate Debounced(s: State) {
    forall n :: n in s.delay && !s.delay[n].event.up && n in s.emitted && !EverSuppressed(s.log, n) ==>
      !s.emitted[n].up
  }

  ghost function OpenBatch(s: State): seq<LinkEvent> {
    if s.batch.Some? then s.batch.value.events else []
  }

  /** Every event put into a batch has left in a batch or is in the open one. */
  ghost predicate Conserved(s: State) {
    Gathered(s.log) == Handed(s.log) + OpenBatch(s)
  }

  ghost predicate Inv(s: State) {
    Keyed(s) && AnnouncedMarked(s) && Debounced(s)
  }

  // ---------------------------------------------------------------- the step relation

  ghost predicate SafeEntry(x: Entry, down: set<string>) {
    match x
    case Sent(e) => !Marked(e, down)
    case Collected(e) => !Marked(e, down)
    case BatchSent(events, _) => forall e :: e in events ==> !Marked(e, down)
    case Suppressed(e) => Marked(e, down)
    case Unmarked(_) => true
  }

  ghost predicate SafeBatch(s: State) {
    forall e :: e in OpenBatch(s) ==> !Marked(e, s.down)
  }

  /** Watches, marks, pauses and the session are untouched. */
  ghost predicate SameControl(s: State, t: State) {
    && t.ifaces == s.ifaces && t.macWatch == s.macWatch && t.wifi == s.wifi && t.sender == s.sender
    && t.pauses == s.pauses && t.down == s.down && t.started == s.started && t.session == s.session
    && t.batch.Some? == s.batch.Some?
    && (s.batch.Some? ==> t.batch.value.boot == s.batch.value.boot)
  }

  /** The log grew by entries that leak no marked event and send no batch. */
  ghost predicate CleanLog(s: State, t: State) {
    && s.log <= t.log
    && (forall i :: |s.log| <= i < |t.log| ==> SafeEntry(t.log[i], s.down) && !t.log[i].BatchSent?)
  }

  /** `t` is reached from `s` by handling link events only, and keeps what is to be kept. */
  ghost predicate Follows(s: State, t: State) {
    && SameControl(s, t)
    && CleanLog(s, t)
    && (SafeBatch(s) ==> SafeBatch(t))
    && (Conserved(s) ==> Conserved(t))
    && (Inv(s) ==> Inv(t))
  }

  lemma {:induction false} FollowsTrans(s: State, t: State, u: State)
    requires Follows(s, t) && Follows(t, u)
    ensures Follows(s, u)
  {
  }

  lemma {:induction false} FollowsIfLogSame(s: State, t: State)
    requires t == s.(macs := t.macs, emitted := t.emitted, delay := t.delay, pending := t.pending,
                     paused := t.paused, phys := t.phys)
    requires s.phys <= t.phys
    requires Inv(s) ==> Keyed(t) && Debounced(t)
    ensures Follows(s, t)
  {
  }

  lemma {:induction false} SuppressedFollows(s: State, e: LinkEvent)
    requires Marked(e, s.down)
    ensures Follows(s, Note(s, Suppressed(e)))
  {
    var t := Note(s, Suppressed(e));
    Appended(s.log, Suppressed(e));
    assert CleanLog(s, t);
    LogGrows(s, t);
  }

  /** Nothing is unsuppressed by a longer log. */
  lemma {:induction false} LogGrows(s: State, t: State)
    requires s.log <= t.log
    ensures forall n :: EverSuppressed(s.log, n) ==> EverSuppressed(t.log, n)
  {
  }

  lemma {:induction false} UnmarkFollows(s: State, name: string)
    ensures Follows(s, Unmark(s, name))
    ensures name !in Unmark(s, name).phys && Unmark(s, name).paused == s.paused
  {
    var t := Unmark(s, name);
    if name in s.phys {
      Appended(s.log, Unmarked(name));
      assert CleanLog(s, t);
      LogGrows(s, t);
    }
  }

  lemma {:induction false} ForgetFollows(s: State, name: string)
    ensures Follows(s, Forget(s, name)) && Forget(s, name).paused == s.paused
  {
    var s1 := s.(emitted := s.emitted - {name});
    FollowsIfLogSame(s, s1);
    UnmarkFollows(s1, name);
    FollowsTrans(s, s1, Forget(s, name));
  }

  lemma {:induction false} CollectFollows(s: State, e: LinkEvent)
    requires !Marked(e, s.down) && s.batch.Some?
    requires e.newPhy ==> e.name in s.phys && e.name !in Announced(s.log)
    ensures Follows(s, Deliver(s, e).s)
  {
    var t := Deliver(s, e).s;
    Appended(s.log, Collected(e));
    assert t.log == s.log + [Collected(e)];
    assert CleanLog(s, t);
    assert OpenBatch(t) == OpenBatch(s) + [e];
    assert Handed(t.log) == Handed(s.log);
    LogGrows(s, t);
    assert Inv(s) ==> Debounced(t);
  }

  lemma {:induction false} SendFollows(s: State, e: LinkEvent)
    requires !Marked(e, s.down) && s.batch.None? && s.sender
    requires e.newPhy ==> e.name in s.phys && e.name !in Announced(s.log)
    ensures Follows(s, Deliver(s, e).s)
  {
    var t := Deliver(s, e).s;
    Appended(s.log, Sent(e));
    assert t.log == s.log + [Sent(e)];
    assert CleanLog(s, t);
    LogGrows(s, t);
    assert Inv(s) ==> Debounced(t);
  }

  /** Handing an event over: an announcement is only made of a wifi-phy the log does not know. */
  lemma {:induction false} DeliverFollows(s: State, e: LinkEvent)
    requires !Marked(e, s.down)
    requires e.newPhy ==> e.name in s.phys && e.name !in Announced(s.log)
    ensures Follows(s, Deliver(s, e).s) && Deliver(s, e).s.paused == s.paused
    ensures Deliver(s, e).ok <==> s.sender || s.batch.Some?
  {
    if s.batch.Some? {
      CollectFollows(s, e);
    } else if s.sender {
      SendFollows(s, e);
    }
  }

  /** The state `Notify` hands its event over from. */
  ghost function Prepared(s: State, e: LinkEvent): State {
    var f := Flagged(s, e);
    var s1 := s.(delay := s.delay - {e.name});
    if f.del then Forget(s1, e.name)
    else Record(s1.(phys := if f.newPhy then s1.phys + {e.name} else s1.phys), f)
  }

  lemma {:induction false} RecordedFollows(s: State, e: LinkEvent)
    requires !e.del
    ensures Follows(s, Prepared(s, e))
  {
    FollowsIfLogSame(s, Prepared(s, e));
  }

  lemma {:induction false} PreparedFollows(s: State, e: LinkEvent)
    ensures Follows(s, Prepared(s, e)) && Prepared(s, e).paused == s.paused
    ensures !e.del ==> Prepared(s, e).log == s.log
  {
    if e.del {
      var s1 := s.(delay := s.delay - {e.name});
      FollowsIfLogSame(s, s1);
      ForgetFollows(s1, e.name);
      FollowsTrans(s, s1, Prepared(s, e));
    } else {
      RecordedFollows(s, e);
    }
  }

  lemma {:induction false} NotifyFollows(s: State, e: LinkEvent)
    requires Inv(s) && !e.newPhy && !Marked(e, s.down)
    ensures Follows(s, Notify(s, e).s) && Notify(s, e).s.paused == s.paused
    ensures Notify(s, e).ok <==> s.sender || s.batch.Some?
  {
    PreparedFollows(s, e);
    DeliverFollows(Prepared(s, e), Flagged(s, e));
    FollowsTrans(s, Prepared(s, e), Notify(s, e).s);
  }

  lemma {:induction false} SuppressFollows(s: State, e: LinkEvent)
    requires Marked(e, s.down)
    ensures Follows(s, Suppress(s, e)) && Suppress(s, e).paused == s.paused
  {
    var s1 := Note(s, Suppressed(e));
    SuppressedFollows(s, e);
    if e.del {
      ForgetFollows(s1, e.name);
    } else {
      var s2 := Record(s1, e);
      assert s1.log[|s.log|] == Suppressed(e);
      FollowsIfLogSame(s1, s2);
    }
    FollowsTrans(s, s1, Suppress(s, e));
  }

  lemma {:induction false} PostponeFollows(s: State, e: LinkEvent, env: Env)
    requires e.name in s.emitted && !e.newPhy && !e.del
    requires s.emitted[e.name].up || !e.up
    ensures Follows(s, Postpone(s, e, env)) && Postpone(s, e, env).paused == s.paused
  {
    FollowsIfLogSame(s, Postpone(s, e, env));
  }

  lemma {:induction false} DebounceFollows(s: State, e: LinkEvent, env: Env)
    requires Inv(s) && !e.newPhy && !Marked(e, s.down)
    ensures Follows(s, Debounce(s, e, env).s) && Debounce(s, e, env).s.paused == s.paused
    ensures s.sender || s.batch.Some? ==> Debounce(s, e, env).ok
  {
    if e.del || e.name !in s.emitted || Expired(s.emitted[e.name], env) || (!s.emitted[e.name].up && e.up) {
      NotifyFollows(s, e);
    } else {
      PostponeFollows(s, e, env);
    }
  }

  lemma {:induction false} TryNotifyFollows(s: State, e: LinkEvent, env: Env)
    requires Inv(s) && !e.newPhy
    ensures Follows(s, TryNotify(s, e, env).s) && TryNotify(s, e, env).s.paused == s.paused
    ensures s.sender || s.batch.Some? ==> TryNotify(s, e, env).ok
  {
    var t := TryNotify(s, e, env).s;
    if Marked(e, s.down) {
      SuppressFollows(s, e);
    } else if !Interested(s, e) {
    } else if e.del {
      var s1 := s.(pending := s.pending - {e.name});
      FollowsIfLogSame(s, s1);
      DebounceFollows(s1, e, env);
      FollowsTrans(s, s1, t);
    } else if e.index !in env.udev {
      FollowsIfLogSame(s, t);
    } else {
      DebounceFollows(s, e, env);
    }
  }
}
