/**
 The link monitor's state and the meaning of each of its operations, as functions on values.

 The class in MonitorWorker.dfy performs the same operations by updating its fields; each of its
 methods is proved to compute the function of the same name here.  The iteration order of a hash
 map is an input: any list that visits the keys.  The two clocks, the udev database and the answers
 of the kernel are inputs as well.
 */
module LinkMonitor {
  import opened Base

  const EVENT_EXPIRE_TIME_SEC := 300.0
  const DOWN_WAIT_SEC := 10.0
  const U32_MAX := 0xFFFF_FFFF

  // ---------------------------------------------------------------- events

  datatype IfaceType = WifiPhy | OtherType(name: string)

  datatype LinkEvent = LinkEvent(
    name: string, index: nat, kind: IfaceType, up: bool, del: bool,
    stamp: real, ssid: Option<string>, newPhy: bool)

  /** The compact last state kept per interface (`LastLinkEvent`). */
  datatype LastEvent = LastEvent(
    up: bool, index: nat, kind: IfaceType, extra: Option<string>,
    mac: Option<string>, stamp: real)

  /** What a step reads from outside: wall clock, monotonic clock, NICs udev has initialized. */
  datatype Env = Env(wall: real, mono: real, udev: set<nat>)

  function ExtraInfo(e: LinkEvent): Option<string> {
    if e.kind.WifiPhy? then e.ssid else None
  }

  predicate SameState(last: LastEvent, e: LinkEvent) {
    last.up == e.up && (ExtraInfo(e).Some? ==> last.extra == ExtraInfo(e))
  }

  function DeleteEvent(last: LastEvent, name: string, env: Env): LinkEvent {
    LinkEvent(name, last.index, last.kind, false, true, env.wall, last.extra, false)
  }

  predicate Marked(e: LinkEvent, down: set<string>) {
    e.name in down || (e.ssid.Some? && e.ssid.value in down)
  }

  /** A netlink link message after attribute decoding; `telemetry` is a wireless-only notification without association
      elements. */
  datatype LinkMsg = LinkMsg(
    name: string, index: nat, kind: IfaceType, carrier: bool,
    assocSsid: Option<string>, mac: Option<string>, telemetry: bool)

  function ParseLinkMsg(m: LinkMsg, wifi: bool, del: bool, env: Env): Option<LinkEvent> {
    if del then Some(LinkEvent(m.name, m.index, m.kind, false, true, env.wall, None, false))
    else if m.telemetry then None
    else
      var ssid := if wifi && m.kind.WifiPhy? then m.assocSsid else None;
      Some(LinkEvent(m.name, m.index, m.kind, m.carrier, false, env.wall, ssid, false))
  }

  datatype LinkState = LinkUp | LinkDormant | LinkUnknown | LinkDown

  /** One kernel interface of a full network state query. */
  datatype KernelIface = KernelIface(
    index: Option<nat>, kind: IfaceType, link: Option<LinkState>, adminUp: bool,
    ssid: Option<string>, mac: Option<string>)

  function EventFromIface(name: string, i: KernelIface, wifi: bool, env: Env): LinkEvent {
    var up := match i.link
      case Some(LinkUp) => true
      case Some(LinkDormant) => true
      case Some(LinkUnknown) => i.adminUp
      case _ => false;
    var ssid := if wifi && i.kind.WifiPhy? then i.ssid else None;
    LinkEvent(name, if i.index.Some? then i.index.value else 0, i.kind, up, false, env.wall, ssid, false)
  }

  // ---------------------------------------------------------------- state

  datatype Batch = Batch(events: seq<LinkEvent>, boot: bool)

  /** What the monitor did, in order. `Sent` and `BatchSent` are the messages on the channel to the daemon; `Collected`
      is an event put into the open batch; `Unmarked` is a wifi-phy losing its announced mark; `Suppressed` is an event
      dropped because of an explicit down. */
  datatype Entry =
    | Sent(event: LinkEvent)
    | Collected(event: LinkEvent)
    | BatchSent(events: seq<LinkEvent>, boot: bool)
    | Unmarked(name: string)
    | Suppressed(event: LinkEvent)

  datatype Delayed = Delayed(event: LinkEvent, deadline: real)

  datatype State = State(
    ifaces: set<string>,                    // iface_monitor_list
    macWatch: set<string>,                  // mac_watch_list
    macs: map<string, string>,              // iface_mac
    wifi: bool,                             // wifi_monitor_enabled
    sender: bool,                           // msg_to_commander is set
    pauses: nat,                            // manual_pause_count
    down: set<string>,                      // explicitly_down
    emitted: map<string, LastEvent>,
    paused: Option<map<string, LastEvent>>, // paused_state
    phys: set<string>,                      // wifi_phys_emited
    delay: map<string, Delayed>,            // delay_queue
    started: bool,
    pending: map<string, LinkEvent>,        // udev_pending_events
    batch: Option<Batch>,                   // collect_batch
    session: bool,                          // netlink_handle is set
    log: seq<Entry>)

  /** A new state and whether the operation returned `Ok`. */
  datatype Outcome = Outcome(s: State, ok: bool)

  const INITIAL := State({}, {}, map[], false, false, 0, {}, map[], None, {}, map[], false, map[], None, false, [])

  predicate HasWatch(s: State) {
    s.ifaces != {} || s.macWatch != {} || s.wifi
  }

  predicate ShouldStartNetlink(s: State) {
    s.started && s.pauses == 0 && !s.session
  }

  predicate Interested(s: State, e: LinkEvent) {
    || e.name in s.ifaces
    || (e.name in s.macs && s.macs[e.name] in s.macWatch)
    || (s.wifi && e.ssid.Some?)
    || (s.wifi && e.kind.WifiPhy?)
  }

  function LastOf(s: State, e: LinkEvent): LastEvent {
    LastEvent(e.up, e.index, e.kind, ExtraInfo(e),
              if e.name in s.macs then Some(s.macs[e.name]) else None, e.stamp)
  }

  predicate Expired(last: LastEvent, env: Env) {
    env.wall - last.stamp > EVENT_EXPIRE_TIME_SEC
  }

  // ---------------------------------------------------------------- single events

  function Note(s: State, x: Entry): State {
    s.(log := s.log + [x])
  }

  function Record(s: State, e: LinkEvent): State {
    s.(emitted := s.emitted[e.name := LastOf(s, e)])
  }

  /** Remove the announced mark of a wifi-phy. */
  function Unmark(s: State, name: string): State {
    if name in s.phys then Note(s.(phys := s.phys - {name}), Unmarked(name)) else s
  }

  function Deliver(s: State, e: LinkEvent): Outcome {
    if s.batch.Some? then
      var b := s.batch.value;
      Outcome(Note(s.(batch := Some(b.(events := b.events + [e]))), Collected(e)), true)
    else if s.sender then Outcome(Note(s, Sent(e)), true)
    else Outcome(s, false)
  }

  /** The event as it leaves: a wifi-phy not announced yet is flagged as new. */
  function Flagged(s: State, e: LinkEvent): LinkEvent {
    if !e.del && s.wifi && e.kind.WifiPhy? && e.name !in s.phys then e.(newPhy := true) else e
  }

  function Forget(s: State, name: string): State {
    Unmark(s.(emitted := s.emitted - {name}), name)
  }

  function Notify(s: State, e: LinkEvent): Outcome {
    var f := Flagged(s, e);
    var s1 := s.(delay := s.delay - {e.name});
    var s2 := if f.del then Forget(s1, e.name)
              else Record(s1.(phys := if f.newPhy then s1.phys + {e.name} else s1.phys), f);
    Deliver(s2, f)
  }

  function Suppress(s: State, e: LinkEvent): State {
    var s1 := Note(s, Suppressed(e));
    if e.del then Forget(s1, e.name) else Record(s1, e)
  }

  function Postpone(s: State, e: LinkEvent, env: Env): State
    requires e.name in s.emitted
  {
    var s1 := if !e.up && s.emitted[e.name].up then Record(s, e) else s;
    s1.(delay := s1.delay[e.name := Delayed(e, env.mono + DOWN_WAIT_SEC)])
  }

  /** An event that passed the explicit-down, interest and udev filters. */
  function Debounce(s: State, e: LinkEvent, env: Env): Outcome {
    if e.del || e.name !in s.emitted then Notify(s, e)
    else
      var prev := s.emitted[e.name];
      if Expired(prev, env) || (!prev.up && e.up) then Notify(s, e)
      else Outcome(Postpone(s, e, env), true)
  }

  function TryNotify(s: State, e: LinkEvent, env: Env): Outcome {
    if Marked(e, s.down) then Outcome(Suppress(s, e), true)
    else if !Interested(s, e) then Outcome(s, true)
    else
      var s1 := if e.del then s.(pending := s.pending - {e.name}) else s;
      if !e.del && e.index !in env.udev then
        Outcome(s1.(pending := s1.pending[e.name := e]), true)
      else Debounce(s1, e, env)
  }

  function SetMac(s: State, name: string, mac: Option<string>): State {
    if mac.Some? then s.(macs := s.macs[name := mac.value]) else s
  }

  function ProcessNetlink(s: State, m: LinkMsg, del: bool, env: Env): Outcome {
    var e := ParseLinkMsg(m, s.wifi, del, env);
    if e.None? then Outcome(s, true)
    else TryNotify(SetMac(s, m.name, m.mac), e.value, env)
  }

  // ---------------------------------------------------------------- ticks

  /** Retry the deferred events; `left` is what the drained queue still holds. */
  function RetryPending(s: State, left: map<string, LinkEvent>, order: seq<string>, env: Env): Outcome
    decreases |order|
  {
    if order == [] then Outcome(s, true)
    else if order[0] !in left then RetryPending(s, left, order[1..], env)
    else
      var e := left[order[0]];
      if e.index !in env.udev then
        RetryPending(s.(pending := s.pending[e.name := e]), left - {order[0]}, order[1..], env)
      else
        var r := TryNotify(s, e, env);
        if r.ok then RetryPending(r.s, left - {order[0]}, order[1..], env) else r
  }

  function UdevTick(s: State, order: seq<string>, env: Env): Outcome {
    RetryPending(s.(pending := map[]), s.pending, order, env)
  }

  function Due(s: State, env: Env): set<string> {
    set n | n in s.delay && s.delay[n].deadline < env.mono
  }

  function ReleaseOne(s: State, name: string): Outcome
    requires name in s.delay
  {
    var e := s.delay[name].event;
    var s1 := s.(delay := s.delay - {name});
    if Marked(e, s.down) then Outcome(s1, true)
    else if e.name in s.emitted && s.emitted[e.name].up && e.up then Outcome(s1, true)
    else Notify(s1, e)
  }

  function Release(s: State, due: set<string>, order: seq<string>): Outcome
    decreases |order|
  {
    if order == [] then Outcome(s, true)
    else if order[0] !in due || order[0] !in s.delay then Release(s, due, order[1..])
    else
      var r := ReleaseOne(s, order[0]);
      if r.ok then Release(r.s, due, order[1..]) else r
  }

  function DelayTick(s: State, order: seq<string>, env: Env): Outcome {
    Release(s, Due(s, env), order)
  }

  // ---------------------------------------------------------------- pause and resume

  function Pause(s: State): State {
    s.(paused := if s.paused.None? then Some(s.emitted) else s.paused,
       session := false, macs := map[])
  }

  predicate EmitOnResume(s: State, e: LinkEvent) {
    s.paused.None? || e.name !in s.paused.value || !SameState(s.paused.value[e.name], e)
  }

  function ResumeOne(s: State, m: LinkMsg, env: Env): Outcome {
    var e := ParseLinkMsg(m, s.wifi, false, env);
    if e.None? then Outcome(s, true)
    else
      var s1 := SetMac(s, m.name, m.mac);
      if EmitOnResume(s1, e.value) then TryNotify(s1, e.value, env) else Outcome(s1, true)
  }

  function ResumeSeen(s: State, msgs: seq<LinkMsg>, env: Env): Outcome
    decreases |msgs|
  {
    if msgs == [] then Outcome(s, true)
    else
      var r := ResumeOne(s, msgs[0], env);
      if r.ok then ResumeSeen(r.s, msgs[1..], env) else r
  }

  function SeenNames(msgs: seq<LinkMsg>): set<string> {
    set m | m in msgs && !m.telemetry :: m.name
  }

  /** Report one interface that is gone: its remembered MAC is put back only for the interest check. */
  function GoneOne(s: State, name: string, last: LastEvent, env: Env): Outcome {
    var r := TryNotify(SetMac(s, name, last.mac), DeleteEvent(last, name, env), env);
    if r.ok then Outcome(r.s.(macs := r.s.macs - {name}), true) else r
  }

  function ResumeGone(s: State, left: map<string, LastEvent>, order: seq<string>, env: Env): Outcome
    decreases |order|
  {
    if order == [] then Outcome(s, true)
    else if order[0] !in left then ResumeGone(s, left, order[1..], env)
    else
      var r := GoneOne(s, order[0], left[order[0]], env);
      if r.ok then ResumeGone(r.s, left - {order[0]}, order[1..], env) else r
  }

  /** The kernel's answer to opening a session: no socket, or a dump that may break off. */
  datatype Dump = NoSocket | Dump(msgs: seq<LinkMsg>, complete: bool)

  function Resume(s: State, dump: Dump, order: seq<string>, env: Env): Outcome {
    if dump.NoSocket? then Outcome(s, false)
    else
      var r := ResumeSeen(s, dump.msgs, env);
      if !r.ok || !dump.complete then Outcome(r.s, false)
      else
        var d := if r.s.paused.None? then r
                 else ResumeGone(r.s.(paused := None), r.s.paused.value - SeenNames(dump.msgs), order, env);
        if d.ok then Outcome(d.s.(session := true), true) else d
  }

  function SendBatch(s: State, b: Batch): Outcome {
    if s.sender then Outcome(Note(s, BatchSent(b.events, b.boot)), true) else Outcome(s, false)
  }

  function StartAndDump(s: State, dump: Dump, order: seq<string>, env: Env): Outcome {
    var r := Resume(s.(batch := Some(Batch([], true))), dump, order, env);
    if r.s.batch.None? then r
    else
      var w := SendBatch(r.s.(batch := None), r.s.batch.value);
      if w.ok then Outcome(w.s, r.ok) else w
  }

  // ---------------------------------------------------------------- reconciliation

  function ReconcileOne(s: State, name: string, i: KernelIface, env: Env): Outcome {
    var s1 := SetMac(s, name, if i.mac.Some? then Some(Upper(i.mac.value)) else None);
    var e := EventFromIface(name, i, s.wifi, env);
    if !Interested(s1, e) then Outcome(s1, true)
    else if name in s1.emitted && SameState(s1.emitted[name], e) then Outcome(s1, true)
    else TryNotify(s1, e, env)
  }

  function ReconcileSeen(s: State, left: map<string, KernelIface>, order: seq<string>, env: Env): Outcome
    decreases |order|
  {
    if order == [] then Outcome(s, true)
    else if order[0] !in left then ReconcileSeen(s, left, order[1..], env)
    else
      var r := ReconcileOne(s, order[0], left[order[0]], env);
      if r.ok then ReconcileSeen(r.s, left - {order[0]}, order[1..], env) else r
  }

  function ReconcileGoneOne(s: State, name: string, env: Env): Outcome
    requires name in s.emitted
  {
    var last := s.emitted[name];
    var s1 := SetMac(s, name, last.mac);
    var e := DeleteEvent(last, name, env);
    var r := if Interested(s1, e) then TryNotify(s1, e, env) else Outcome(Forget(s1, name), true);
    if r.ok then Outcome(r.s.(macs := r.s.macs - {name}), true) else r
  }

  function ReconcileGone(s: State, seen: set<string>, order: seq<string>, env: Env): Outcome
    decreases |order|
  {
    if order == [] then Outcome(s, true)
    else if order[0] in seen || order[0] !in s.emitted then ReconcileGone(s, seen, order[1..], env)
    else
      var r := ReconcileGoneOne(s, order[0], env);
      if r.ok then ReconcileGone(r.s, seen, order[1..], env) else r
  }

  /** `view` is the queried state, or `None` when the query failed. */
  function Reconcile(s: State, view: Option<map<string, KernelIface>>, order: seq<string>, tracked: seq<string>,
                     env: Env): Outcome {
    if !s.started || s.pauses > 0 || !s.session then Outcome(s, true)
    else if view.None? then Outcome(s, false)
    else
      var r := ReconcileSeen(s.(batch := Some(Batch([], false))), view.value, order, env);
      var d := if r.ok then ReconcileGone(r.s, view.value.Keys, tracked, env) else r;
      if !d.ok then Outcome(d.s.(batch := None), false)
      else if d.s.batch.None? then d
      else SendBatch(d.s.(batch := None), d.s.batch.value)
  }

  // ---------------------------------------------------------------- commands

  datatype Cmd =
    | SetCommanderSender
    | AddIface(name: string) | DelIface(name: string)
    | AddMacWatch(mac: string) | DelMacWatch(mac: string)
    | EnableWifiMonitor | DisableWifiMonitor
    | Start
    | PauseMonitor | ResumeMonitor
    | MarkExplicitlyDown(names: seq<string>) | ClearExplicitlyDown(names: seq<string>)
    | ForgetPausedState(names: seq<string>) | ForgetEmitted(names: seq<string>)

  function OpenIfNeeded(s: State, dump: Dump, order: seq<string>, env: Env): Outcome {
    if ShouldStartNetlink(s) then Resume(s, dump, order, env) else Outcome(s, true)
  }

  function CloseIfUnused(s: State): Outcome {
    Outcome(if HasWatch(s) then s else Pause(s), true)
  }

  function ForgetSnapshot(s: State, names: set<string>): State {
    s.(paused := if s.paused.Some? then Some(s.paused.value - names) else None,
       emitted := s.emitted - names)
  }

  function UnmarkAll(s: State, names: seq<string>): State
    decreases |names|
  {
    if names == [] then s else UnmarkAll(Unmark(s, names[0]), names[1..])
  }

  function ProcessCmd(s: State, cmd: Cmd, dump: Dump, order: seq<string>, env: Env): Outcome {
    match cmd
    case SetCommanderSender => Outcome(s.(sender := true), true)
    case AddIface(n) => OpenIfNeeded(s.(ifaces := s.ifaces + {n}), dump, order, env)
    case DelIface(n) => CloseIfUnused(s.(ifaces := s.ifaces - {n}))
    case AddMacWatch(m) => OpenIfNeeded(s.(macWatch := s.macWatch + {Upper(m)}), dump, order, env)
    case DelMacWatch(m) => CloseIfUnused(s.(macWatch := s.macWatch - {Upper(m)}))
    case EnableWifiMonitor => OpenIfNeeded(s.(wifi := true), dump, order, env)
    case DisableWifiMonitor => CloseIfUnused(s.(wifi := false))
    case Start =>
      if s.started then Outcome(s, true)
      else
        var s1 := s.(started := true);
        if HasWatch(s1) then StartAndDump(s1, dump, order, env) else SendBatch(s1, Batch([], true))
    case PauseMonitor =>
      Outcome(Pause(s.(pauses := if s.pauses < U32_MAX then s.pauses + 1 else s.pauses)), true)
    case ResumeMonitor =>
      var s1 := s.(pauses := if s.pauses > 0 then s.pauses - 1 else 0);
      if s1.pauses == 0 && HasWatch(s1) then OpenIfNeeded(s1, dump, order, env) else Outcome(s1, true)
    case MarkExplicitlyDown(names) => Outcome(s.(down := s.down + SetOf(names)), true)
    case ClearExplicitlyDown(names) => Outcome(s.(down := s.down - SetOf(names)), true)
    case ForgetPausedState(names) => Outcome(ForgetSnapshot(s, SetOf(names)), true)
    case ForgetEmitted(names) => Outcome(UnmarkAll(ForgetSnapshot(s, SetOf(names)), names), true)
  }

  // ---------------------------------------------------------------- runs

  /** One thing the worker's loop reacts to, with what the kernel answers while it is handled. */
  datatype Input =
    | Command(cmd: Cmd, dump: Dump, order: seq<string>)
    | Netlink(msg: LinkMsg, del: bool)
    | UdevRetry(order: seq<string>)
    | DelayDue(order: seq<string>)
    | Reconciliation(view: Option<map<string, KernelIface>>, order: seq<string>, tracked: seq<string>)

  datatype Step = Step(input: Input, env: Env)

  function Next(s: State, st: Step): Outcome {
    match st.input
    case Command(cmd, dump, order) => ProcessCmd(s, cmd, dump, order, st.env)
    case Netlink(m, del) => ProcessNetlink(s, m, del, st.env)
    case UdevRetry(order) => UdevTick(s, order, st.env)
    case DelayDue(order) => DelayTick(s, order, st.env)
    case Reconciliation(view, order, tracked) => Reconcile(s, view, order, tracked, st.env)
  }

  /** The state after every step of `run`; a failing step is logged and the loop goes on. */
  function RunFrom(s: State, run: seq<Step>): State
    decreases |run|
  {
    if run == [] then s else RunFrom(Next(s, run[0]).s, run[1..])
  }
}
