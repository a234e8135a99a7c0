/** Handling an event of one interface leaves every other interface alone. */
module MonitorFrame {
  import opened Base
  import opened LinkMonitor
  import opened MonitorInvariants

  /** The events of one interface that were let out (or put into a batch), in order. */
  ghost function EventsAbout(log: seq<Entry>, n: string): seq<LinkEvent> {
    if log == [] then []
    else
      var before := EventsAbout(log[..|log| - 1], n);
      var x := log[|log| - 1];
      if (x.Sent? || x.Collected?) && x.event.name == n then before + [x.event] else before
  }

  lemma {:induction false} AboutAppended(log: seq<Entry>, x: Entry, n: string)
    ensures EventsAbout(log + [x], n) ==
            if (x.Sent? || x.Collected?) && x.event.name == n then EventsAbout(log, n) + [x.event]
            else EventsAbout(log, n)
  {
    assert (log + [x])[..|log|] == log;
  }

  /** Everything the monitor knows and has said about interface `n`. */
  ghost predicate SameAt(s: State, t: State, n: string) {
    && (n in t.emitted <==> n in s.emitted) && (n in s.emitted ==> t.emitted[n] == s.emitted[n])
    && (n in t.macs <==> n in s.macs) && (n in s.macs ==> t.macs[n] == s.macs[n])
    && (n in t.delay <==> n in s.delay) && (n in s.delay ==> t.delay[n] == s.delay[n])
    && (n in t.pending <==> n in s.pending) && (n in s.pending ==> t.pending[n] == s.pending[n])
    && (n in t.phys <==> n in s.phys)
    && EventsAbout(t.log, n) == EventsAbout(s.log, n)
  }

  /** No trace of interface `n` in the records and queues. */
  ghost predicate Forgotten(s: State, n: string) {
    n !in s.emitted && n !in s.phys && n !in s.delay && n !in s.pending
  }

  lemma {:induction false} ForgetElsewhere(s: State, name: string, n: string)
    ensures name != n ==> SameAt(s, Forget(s, name), n)
    ensures name == n ==> n !in Forget(s, name).emitted && n !in Forget(s, name).phys
    ensures EventsAbout(Forget(s, name).log, n) == EventsAbout(s.log, n)
  {
    AboutAppended(s.log, Unmarked(name), n);
  }

  lemma {:induction false} DeliverAbout(s: State, e: LinkEvent, n: string)
    ensures var t := Deliver(s, e).s;
            EventsAbout(t.log, n) ==
            if e.name == n && (s.sender || s.batch.Some?) then EventsAbout(s.log, n) + [e] else EventsAbout(s.log, n)
  {
    AboutAppended(s.log, Collected(e), n);
    AboutAppended(s.log, Sent(e), n);
  }

  lemma {:induction false} PreparedElsewhere(s: State, e: LinkEvent, n: string)
    requires e.name != n
    ensures SameAt(s, Prepared(s, e), n)
  {
    if e.del {
      ForgetElsewhere(s.(delay := s.delay - {e.name}), e.name, n);
    }
  }

  lemma {:induction false} DeliverKeeps(s: State, e: LinkEvent)
    ensures var t := Deliver(s, e).s;
            && t.emitted == s.emitted && t.phys == s.phys && t.macs == s.macs
            && t.delay == s.delay && t.pending == s.pending
  {
    if s.batch.Some? {
    } else if s.sender {
    } else {
    }
  }

  lemma {:induction false} DeliverElsewhere(s: State, e: LinkEvent, n: string)
    requires e.name != n
    ensures SameAt(s, Deliver(s, e).s, n)
  {
    DeliverAbout(s, e, n);
    DeliverKeeps(s, e);
  }

  lemma {:induction false} NotifyElsewhere(s: State, e: LinkEvent, n: string)
    requires e.name != n
    ensures SameAt(s, Notify(s, e).s, n)
  {
    PreparedElsewhere(s, e, n);
    DeliverElsewhere(Prepared(s, e), Flagged(s, e), n);
  }

  lemma {:induction false} PreparedHere(s: State, e: LinkEvent)
    ensures var t := Prepared(s, e);
            && EventsAbout(t.log, e.name) == EventsAbout(s.log, e.name)
            && e.name !in t.delay && t.pending == s.pending
            && t.sender == s.sender && t.batch == s.batch
            && (e.del ==> e.name !in t.emitted && e.name !in t.phys)
            && (!e.del ==> e.name in t.emitted && t.emitted[e.name].up == e.up)
  {
    if e.del {
      ForgetElsewhere(s.(delay := s.delay - {e.name}), e.name, e.name);
    }
  }

  /** What a notification leaves behind for its own interface. */
  lemma {:induction false} NotifyHere(s: State, e: LinkEvent)
    requires s.sender || s.batch.Some?
    ensures var t := Notify(s, e).s;
            && Notify(s, e).ok
            && EventsAbout(t.log, e.name) == EventsAbout(s.log, e.name) + [Flagged(s, e)]
            && e.name !in t.delay && t.pending == s.pending
            && (e.del ==> e.name !in t.emitted && e.name !in t.phys)
            && (!e.del ==> e.name in t.emitted && t.emitted[e.name].up == e.up)
  {
    PreparedHere(s, e);
    DeliverAbout(Prepared(s, e), Flagged(s, e), e.name);
  }

  lemma {:induction false} SuppressElsewhere(s: State, e: LinkEvent, n: string)
    requires e.name != n
    ensures SameAt(s, Suppress(s, e), n)
  {
    AboutAppended(s.log, Suppressed(e), n);
    ForgetElsewhere(Note(s, Suppressed(e)), e.name, n);
  }

  lemma {:induction false} PostponeElsewhere(s: State, e: LinkEvent, env: Env, n: string)
    requires e.name in s.emitted && e.name != n
    ensures SameAt(s, Postpone(s, e, env), n)
  {
    if !e.up && s.emitted[e.name].up {
    } else {
    }
  }

  lemma {:induction false} DebounceElsewhere(s: State, e: LinkEvent, env: Env, n: string)
    requires e.name != n
    ensures SameAt(s, Debounce(s, e, env).s, n)
  {
    if e.del || e.name !in s.emitted || Expired(s.emitted[e.name], env) || (!s.emitted[e.name].up && e.up) {
      NotifyElsewhere(s, e, n);
    } else {
      PostponeElsewhere(s, e, env, n);
    }
  }

  lemma {:induction false} TryNotifyElsewhere(s: State, e: LinkEvent, env: Env, n: string)
    requires e.name != n
    ensures SameAt(s, TryNotify(s, e, env).s, n)
  {
    if Marked(e, s.down) {
      SuppressElsewhere(s, e, n);
    } else if !Interested(s, e) {
    } else if e.del {
      var s1 := s.(pending := s.pending - {e.name});
      assert SameAt(s, s1, n);
      DebounceElsewhere(s1, e, env, n);
    } else if e.index !in env.udev {
      assert SameAt(s, s.(pending := s.pending[e.name := e]), n);
    } else {
      DebounceElsewhere(s, e, env, n);
    }
  }

  lemma {:induction false} SetMacElsewhere(s: State, name: string, mac: Option<string>, n: string)
    requires name != n
    ensures SameAt(s, SetMac(s, name, mac), n)
  {
    if mac.Some? {
    } else {
    }
  }

  /** Learning a MAC and then handling an event of the same interface. */
  lemma {:induction false} MacTryElsewhere(s: State, mac: Option<string>, e: LinkEvent, env: Env, n: string)
    requires e.name != n
    ensures SameAt(s, TryNotify(SetMac(s, e.name, mac), e, env).s, n)
  {
    SetMacElsewhere(s, e.name, mac, n);
    TryNotifyElsewhere(SetMac(s, e.name, mac), e, env, n);
  }
}
