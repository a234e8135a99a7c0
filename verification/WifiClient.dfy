/**
 The wifi plugin's client state: one client for all wifi interfaces, the interfaces it manages with their network
 lists, the live connections, and the on/off switch.  Every operation keeps the invariant `Valid`; an apply is
 specified exactly: when it succeeds, which interfaces it manages afterwards, with which lists, and whether a client
 runs.

 The client itself is an external library: whether it starts, accepts an interface or accepts a list is an input.
 */
module WifiClient {
  import opened Base
  import opened WifiNetworks

  datatype IfState = StateUp | StateDown | StateAbsent | StateIgnore | StateOther

  /** The part of an interface the plugin looks at. */
  datatype Iface =
    | WifiCfg(name: string, state: IfState, wifi: Option<WifiConfig>)
    | WifiPhy(name: string, kernelName: string, state: IfState, wifi: Option<WifiConfig>)
    | NotWifi(name: string, state: IfState)

  datatype Managed = Managed(ifIndex: nat, networks: seq<Network>)

  datatype ApplyError = BadState(name: string) | BadList(error: ListError)
  datatype ApplyResult = Applied | Failed(error: ApplyError)

  // ---------------------------------------------------------------- reading a request

  predicate HasUpRequest(ifs: seq<Iface>) {
    exists i :: 0 <= i < |ifs| && ifs[i].state.StateUp? && !ifs[i].NotWifi? &&
                ifs[i].wifi.Some? && ifs[i].wifi.value.ssid != ""
  }

  function UpPhys(ifs: seq<Iface>): seq<string> {
    if ifs == [] then []
    else if ifs[0].WifiPhy? && ifs[0].state.StateUp? then [ifs[0].kernelName] + UpPhys(ifs[1..])
    else UpPhys(ifs[1..])
  }

  function IgnoredPhys(ifs: seq<Iface>): set<string> {
    set i | i in ifs && i.WifiPhy? && i.state.StateIgnore? :: i.kernelName
  }

  function PhysToDelete(ifs: seq<Iface>): set<string> {
    set i | i in ifs && i.WifiPhy? && (i.state.StateDown? || i.state.StateAbsent?) :: i.kernelName
  }

  /** Removing a profile names its SSID, or the profile name when the wifi section is gone. */
  function SsidsToDelete(ifs: seq<Iface>): set<string> {
    set i | i in ifs && i.WifiCfg? && (i.state.StateDown? || i.state.StateAbsent?)
      :: if i.wifi.Some? then i.wifi.value.ssid else i.name
  }

  predicate BadlyStated(i: Iface) {
    !i.NotWifi? && i.state.StateOther?
  }

  /** The wifi interfaces a profile is meant for. */
  function PhyNames(i: Iface, up: seq<string>, present: seq<string>): seq<string>
    requires !i.NotWifi? && i.wifi.Some?
  {
    var base := i.wifi.value.baseIface;
    if i.WifiPhy? then [i.kernelName]
    else if base.Some? && base.value != "" then
      if base.value in present || base.value in up then [base.value] else []
    else if up != [] then up
    else present
  }

  type Groups = map<string, seq<WifiConfig>>

  function Pushed(g: Groups, phys: seq<string>, c: WifiConfig): Groups
    decreases |phys|
  {
    if phys == [] then g
    else Pushed(g[phys[0] := (if phys[0] in g then g[phys[0]] else []) + [c]], phys[1..], c)
  }

  /** The profiles wanted on each wifi interface, in request order. */
  function Grouped(ifs: seq<Iface>, up: seq<string>, present: seq<string>): Groups {
    if ifs == [] then map[]
    else
      var g := Grouped(ifs[..|ifs| - 1], up, present);
      var i := ifs[|ifs| - 1];
      if i.NotWifi? || !i.state.StateUp? || i.wifi.None? then g
      else Pushed(g, PhyNames(i, up, present), i.wifi.value)
  }

  method GroupProfiles(ifs: seq<Iface>, up: seq<string>, present: seq<string>) returns (g: Groups, r: ApplyResult)
    ensures r.Applied? <==> forall i :: 0 <= i < |ifs| ==> !BadlyStated(ifs[i])
    ensures r.Applied? ==> g == Grouped(ifs, up, present)
  {
    g := map[];
    var k := 0;
    while k < |ifs|
      invariant 0 <= k <= |ifs|
      invariant forall i :: 0 <= i < k ==> !BadlyStated(ifs[i])
      invariant g == Grouped(ifs[..k], up, present)
    {
      var i := ifs[k];
      assert ifs[..k + 1][..k] == ifs[..k];
      if BadlyStated(i) {
        return g, Failed(BadState(i.name));
      }
      if !i.NotWifi? && i.state.StateUp? && i.wifi.Some? {
        var phys := PhyNames(i, up, present);
        ghost var before := g;
        var j := 0;
        while j < |phys|
          invariant 0 <= j <= |phys|
          invariant Pushed(g, phys[j..], i.wifi.value) == Pushed(before, phys, i.wifi.value)
        {
          assert phys[j..][0] == phys[j] && phys[j..][1..] == phys[j + 1..];
          g := g[phys[j] := (if phys[j] in g then g[phys[j]] else []) + [i.wifi.value]];
          j := j + 1;
        }
        assert phys[j..] == [];
      }
      k := k + 1;
    }
    assert ifs[..k] == ifs;
    r := Applied;
  }

  // ---------------------------------------------------------------- where profiles may go

  lemma {:induction false} PushedKeys(g: Groups, phys: seq<string>, c: WifiConfig)
    ensures Pushed(g, phys, c).Keys == g.Keys + SetOf(phys)
    decreases |phys|
  {
    if phys != [] {
      PushedKeys(g[phys[0] := (if phys[0] in g then g[phys[0]] else []) + [c]], phys[1..], c);
      assert phys == [phys[0]] + phys[1..];
    }
  }

  lemma {:induction false} UpPhysComplete(ifs: seq<Iface>, i: Iface)
    requires i in ifs && i.WifiPhy? && i.state.StateUp?
    ensures i.kernelName in UpPhys(ifs)
    decreases |ifs|
  {
    if ifs[0] != i {
      UpPhysComplete(ifs[1..], i);
    }
  }

  /** Every interface that gets a profile is present or brought up by the same request. */
  lemma {:induction false} GroupedTargets(all: seq<Iface>, ifs: seq<Iface>, present: seq<string>, n: string)
    requires (forall i :: i in ifs ==> i in all) && n in Grouped(ifs, UpPhys(all), present)
    ensures n in present || n in UpPhys(all)
    decreases |ifs|
  {
    var up := UpPhys(all);
    var before := ifs[..|ifs| - 1];
    var i := ifs[|ifs| - 1];
    if n in Grouped(before, up, present) {
      GroupedTargets(all, before, present, n);
    } else {
      PushedKeys(Grouped(before, up, present), PhyNames(i, up, present), i.wifi.value);
      if i.WifiPhy? {
        UpPhysComplete(all, i);
      }
    }
  }

  /** How often interface `n` is among the targets of an entry: once, unless a request lists an interface twice. */
  ghost function Times(i: Iface, up: seq<string>, present: seq<string>, n: string): nat {
    if i.NotWifi? || !i.state.StateUp? || i.wifi.None? then 0 else multiset(PhyNames(i, up, present))[n]
  }

  /** The profiles of the entries that target `n`, in request order. */
  ghost function ProfilesOn(ifs: seq<Iface>, up: seq<string>, present: seq<string>, n: string): seq<WifiConfig> {
    if ifs == [] then []
    else
      var i := ifs[|ifs| - 1];
      ProfilesOn(ifs[..|ifs| - 1], up, present, n)
      + if Times(i, up, present, n) == 0 then [] else seq(Times(i, up, present, n), _ => i.wifi.value)
  }

  ghost function ProfilesAt(g: Groups, n: string): seq<WifiConfig> {
    if n in g then g[n] else []
  }

  lemma {:induction false} PushedAt(g: Groups, phys: seq<string>, c: WifiConfig, n: string)
    ensures ProfilesAt(Pushed(g, phys, c), n) == ProfilesAt(g, n) + seq(multiset(phys)[n], _ => c)
    decreases |phys|
  {
    if phys != [] {
      var g1 := g[phys[0] := (if phys[0] in g then g[phys[0]] else []) + [c]];
      PushedAt(g1, phys[1..], c, n);
      assert phys == [phys[0]] + phys[1..];
      assert multiset(phys) == multiset{phys[0]} + multiset(phys[1..]);
      if phys[0] == n {
        assert seq(multiset(phys)[n], _ => c) == [c] + seq(multiset(phys[1..])[n], _ => c);
      }
    }
  }

  /** Each target gets exactly the profiles of the up entries that target it, in request order, and a target without a
      profile is not in the map. */
  lemma {:induction false} GroupedExactly(ifs: seq<Iface>, up: seq<string>, present: seq<string>, n: string)
    ensures ProfilesAt(Grouped(ifs, up, present), n) == ProfilesOn(ifs, up, present, n)
    ensures n in Grouped(ifs, up, present) <==> ProfilesOn(ifs, up, present, n) != []
    decreases |ifs|
  {
    if ifs != [] {
      var before, i := ifs[..|ifs| - 1], ifs[|ifs| - 1];
      GroupedExactly(before, up, present, n);
      if !i.NotWifi? && i.state.StateUp? && i.wifi.Some? {
        var phys := PhyNames(i, up, present);
        PushedAt(Grouped(before, up, present), phys, i.wifi.value, n);
        PushedKeys(Grouped(before, up, present), phys, i.wifi.value);
        assert n in SetOf(phys) <==> multiset(phys)[n] > 0;
      }
    }
  }

  /** The entry, with profile `c`, is meant for interface `n`: a wifi interface for itself; a profile bound to a base
      for that base, when it is present or brought up; an unbound one for every interface the request brings up, or else
      for every present one. */
  ghost predicate MeantFor(i: Iface, c: WifiConfig, up: seq<string>, present: seq<string>, n: string) {
    if i.WifiPhy? then n == i.kernelName
    else if c.baseIface != None && c.baseIface != Some("") then
      c.baseIface == Some(n) && (n in present || n in up)
    else if up != [] then n in up
    else n in present
  }

  lemma {:induction false} TimesMeans(i: Iface, c: WifiConfig, up: seq<string>, present: seq<string>, n: string)
    requires !i.NotWifi? && i.state.StateUp? && i.wifi == Some(c)
    ensures Times(i, up, present, n) > 0 <==> MeantFor(i, c, up, present, n)
  {
    assert n in multiset(PhyNames(i, up, present)) <==> n in PhyNames(i, up, present);
  }

  /** An up wifi entry that carries the profile and is meant for the interface. */
  ghost predicate Brings(i: Iface, c: WifiConfig, up: seq<string>, present: seq<string>, n: string) {
    (i.WifiCfg? || i.WifiPhy?) && i.state == StateUp && i.wifi == Some(c) && MeantFor(i, c, up, present, n)
  }

  lemma {:induction false} CopiesMembers(i: Iface, up: seq<string>, present: seq<string>, n: string, c: WifiConfig)
    ensures c in (if Times(i, up, present, n) == 0 then [] else seq(Times(i, up, present, n), _ => i.wifi.value))
            <==> Brings(i, c, up, present, n)
  {
    var times := Times(i, up, present, n);
    if !i.NotWifi? && i.state.StateUp? && i.wifi.Some? {
      TimesMeans(i, i.wifi.value, up, present, n);
      if times > 0 {
        assert seq(times, _ => i.wifi.value)[0] == i.wifi.value;
      }
    }
  }

  lemma {:induction false} ProfilesOnMembers(ifs: seq<Iface>, up: seq<string>, present: seq<string>, n: string,
                                             c: WifiConfig)
    ensures c in ProfilesOn(ifs, up, present, n) <==> exists i :: i in ifs && Brings(i, c, up, present, n)
    decreases |ifs|
  {
    hide Brings, Times;
    if ifs != [] {
      var before, last := ifs[..|ifs| - 1], ifs[|ifs| - 1];
      ProfilesOnMembers(before, up, present, n, c);
      CopiesMembers(last, up, present, n, c);
      assert ifs == before + [last];
      if i :| i in before && Brings(i, c, up, present, n) {
        assert i in ifs;
      }
    }
  }

  /** A profile is wanted on an interface exactly when some up wifi entry carries it and is meant for that interface. */
  lemma {:induction false} WantedExactly(ifs: seq<Iface>, up: seq<string>, present: seq<string>, n: string,
                                         c: WifiConfig)
    ensures (n in Grouped(ifs, up, present) && c in Grouped(ifs, up, present)[n]) <==>
              exists i :: i in ifs && Brings(i, c, up, present, n)
  {
    GroupedExactly(ifs, up, present, n);
    ProfilesOnMembers(ifs, up, present, n, c);
  }

  lemma {:induction false} UpPhysExactly(ifs: seq<Iface>, n: string)
    ensures n in UpPhys(ifs) <==> exists i :: i in ifs && i.WifiPhy? && i.state == StateUp && i.kernelName == n
    decreases |ifs|
  {
    if ifs != [] {
      UpPhysExactly(ifs[1..], n);
      assert ifs == [ifs[0]] + ifs[1..];
      if i :| i in ifs[1..] && i.WifiPhy? && i.state == StateUp && i.kernelName == n {
        assert i in ifs;
      }
    }
  }

  /** What a request asks for besides profiles: wifi interfaces down or absent are dropped, ignored ones are unmanaged,
      a profile down or absent gives up its SSID (its name, when it has no wifi section), and an up entry with an SSID
      turns wifi on. */
  lemma {:induction false} RequestReads(ifs: seq<Iface>, n: string)
    ensures n in PhysToDelete(ifs) <==>
              exists i :: i in ifs && i.WifiPhy? && i.kernelName == n &&
                (i.state == StateDown || i.state == StateAbsent)
    ensures n in IgnoredPhys(ifs) <==> exists i :: i in ifs && i.WifiPhy? && i.kernelName == n && i.state == StateIgnore
    ensures n in SsidsToDelete(ifs) <==>
              exists i :: i in ifs && i.WifiCfg? && (i.state == StateDown || i.state == StateAbsent)
                          && if i.wifi.Some? then i.wifi.value.ssid == n else i.name == n
    ensures forall i :: BadlyStated(i) <==>
                          (i.WifiCfg? || i.WifiPhy?) && i.state !in {StateUp, StateDown, StateAbsent, StateIgnore}
    ensures HasUpRequest(ifs) <==>
              exists i :: i in ifs && (i.WifiCfg? || i.WifiPhy?) && i.state == StateUp && i.wifi.Some?
                          && i.wifi.value.ssid != ""
  {
    if i :| i in ifs && (i.WifiCfg? || i.WifiPhy?) && i.state == StateUp && i.wifi.Some? && i.wifi.value.ssid != "" {
      var k :| 0 <= k < |ifs| && ifs[k] == i;
    }
  }

  // ---------------------------------------------------------------- the lists an apply asks for

  ghost predicate AtMostOnePreferred(ns: seq<Network>) {
    forall i, j :: 0 <= i < j < |ns| ==> !(ns[i].preferred && ns[j].preferred)
  }

  ghost predicate GoodList(ns: seq<Network>) {
    OneEach(ns) && AtMostOnePreferred(ns)
  }

  ghost function Kept(ns: seq<Network>, ssids: set<string>): seq<Network> {
    if ns == [] then []
    else if ns[0].ssid in ssids then Kept(ns[1..], ssids) else [ns[0]] + Kept(ns[1..], ssids)
  }

  lemma {:induction false} KeptGood(ns: seq<Network>, ssids: set<string>)
    requires GoodList(ns)
    ensures GoodList(Kept(ns, ssids))
    ensures forall n :: n in Kept(ns, ssids) ==> n in ns && n.ssid !in ssids
    decreases |ns|
  {
    if ns != [] {
      assert GoodList(ns[1..]) by {
        assert forall i :: 0 <= i < |ns[1..]| ==> ns[1..][i] == ns[i + 1];
      }
      KeptGood(ns[1..], ssids);
      var k := Kept(ns[1..], ssids);
      forall j | 0 <= j < |k|
        ensures k[j].ssid != ns[0].ssid && !(k[j].preferred && ns[0].preferred)
      {
        assert k[j] in ns[1..];
      }
    }
  }

  method KeepOthers(ns: seq<Network>, ssids: set<string>) returns (r: seq<Network>)
    ensures r == Kept(ns, ssids)
  {
    r := [];
    var i := 0;
    while i < |ns|
      invariant 0 <= i <= |ns|
      invariant r + Kept(ns[i..], ssids) == Kept(ns, ssids)
    {
      assert ns[i..][0] == ns[i] && ns[i..][1..] == ns[i + 1..];
      if ns[i].ssid !in ssids {
        assert r + ([ns[i]] + Kept(ns[i + 1..], ssids)) == (r + [ns[i]]) + Kept(ns[i + 1..], ssids);
        r := r + [ns[i]];
      }
      i := i + 1;
    }
  }

  ghost predicate Usable(g: Groups, n: string) {
    n in g ==> Compatible(g[n])
  }

  /** The list an apply asks for on an interface that has list `ns` now: a forced request for a single profile is merged
      in as preferred, other requests replace the list, no request only drops the removed SSIDs. */
  ghost function Target(ns: seq<Network>, g: Groups, n: string, ssids: set<string>, hints: HintMap, force: bool)
    : seq<Network>
    requires Usable(g, n)
  {
    if n !in g then Kept(ns, ssids)
    else if force && |g[n]| == 1 then MergedInto(ns, Firsts(g[n], hints, true))
    else Firsts(g[n], hints, false)
  }

  lemma {:induction false} SinglePreferred(ns: seq<Network>, cs: seq<WifiConfig>, hints: HintMap)
    requires OneEach(ns) && |cs| == 1 && Compatible(cs)
    ensures GoodList(MergedInto(ns, Firsts(cs, hints, true)))
  {
    var requested := Firsts(cs, hints, true);
    assert Firsts(cs[..0], hints, true) == [];
    assert requested == [Built(cs[0], hints).(preferred := true)];
    OnePreferred(ns, requested);
  }

  lemma {:induction false} OnePreferred(ns: seq<Network>, requested: seq<Network>)
    requires OneEach(ns) && |requested| == 1 && requested[0].preferred
    ensures GoodList(MergedInto(ns, requested))
  {
    var m := MergedInto(ns, requested);
    MergeKeepsLists(ns, requested);
    assert forall i :: 0 <= i < |m| && m[i].preferred ==> m[i].ssid == requested[0].ssid;
  }

  lemma {:induction false} TargetGood(ns: seq<Network>, g: Groups, n: string, ssids: set<string>, hints: HintMap,
                                      force: bool)
    requires GoodList(ns) && Usable(g, n)
    ensures GoodList(Target(ns, g, n, ssids, hints, force))
  {
    if n !in g {
      KeptGood(ns, ssids);
    } else if force && |g[n]| == 1 {
      SinglePreferred(ns, g[n], hints);
    } else {
      FirstsOneEach(g[n], hints, false);
    }
  }

  method ComputeTarget(ns: seq<Network>, g: Groups, n: string, ssids: set<string>, hints: HintMap, force: bool)
    returns (r: ListResult)
    ensures r.Ok? <==> Usable(g, n)
    ensures r.Ok? ==> r.networks == Target(ns, g, n, ssids, hints, force)
  {
    if n !in g {
      var kept := KeepOthers(ns, ssids);
      r := Ok(kept);
    } else if force && |g[n]| == 1 {
      r := MergePreferred(ns, g[n], hints);
    } else {
      r := BuildNetworks(g[n], hints, false);
    }
  }

  /** The stored list with the hints of the freshly built one. */
  ghost predicate Refreshed(r: seq<Network>, ns: seq<Network>, loaded: seq<Network>) {
    && |r| == |ns|
    && forall i :: 0 <= i < |r| ==>
         r[i] == ns[i].(hints := if HasSsid(loaded, ns[i].ssid) then loaded[Find(loaded, ns[i].ssid)].hints
                                 else ns[i].hints)
  }

  /** Whether a computed list has to be handed to the client. */
  ghost predicate MustUpdate(ns: seq<Network>, target: seq<Network>, force: bool) {
    if force then ns != target || target != [] else !SameSaved(ns, target)
  }

  /** One interface after its list was compared: untouched while an update waits for the client; otherwise the saved
      configuration is the same and at most the hints were refreshed. */
  ghost predicate Compared(now: Managed, was: Managed, target: seq<Network>, force: bool) {
    && now.ifIndex == was.ifIndex
    && (MustUpdate(was.networks, target, force) || force ==> now == was)
    && (!MustUpdate(was.networks, target, force) && !force ==> Refreshed(now.networks, was.networks, target))
  }

  /** Interface `n` was handled: its list compared, an update noted under `pending` exactly when one is needed. */
  ghost predicate Handled(now: map<string, Managed>, was: map<string, Managed>, pending: map<string, seq<Network>>,
                          g: Groups, n: string, ssids: set<string>, hints: HintMap, force: bool)
  {
    && n in now && n in was && Usable(g, n)
    && var target := Target(was[n].networks, g, n, ssids, hints, force);
       && Compared(now[n], was[n], target, force)
       && (n in pending <==> MustUpdate(was[n].networks, target, force))
       && (n in pending ==> pending[n] == target)
  }

  /** How far the comparison got: the interfaces in `todo` are as they were, the others are dropped or handled. */
  ghost predicate Progress(now: map<string, Managed>, was: map<string, Managed>, pending: map<string, seq<Network>>,
                           todo: set<string>, phys: map<string, nat>, g: Groups, ssids: set<string>, hints: HintMap,
                           force: bool)
  {
    && todo <= now.Keys && pending.Keys <= now.Keys
    && now.Keys == was.Keys - (StaleNames(was, phys) - todo)
    && (forall n :: n in todo ==> now[n] == was[n] && n !in pending)
    && (forall n :: n in now && n !in todo ==>
          !Stale(was[n], n, phys) && Handled(now, was, pending, g, n, ssids, hints, force))
  }

  lemma {:induction false} ProgressDropped(now: map<string, Managed>, was: map<string, Managed>,
                                           pending: map<string, seq<Network>>, todo: set<string>, n: string,
                                           phys: map<string, nat>, g: Groups, ssids: set<string>, hints: HintMap,
                                           force: bool)
    requires Progress(now, was, pending, todo, phys, g, ssids, hints, force) && n in todo && Stale(was[n], n, phys)
    ensures Progress(now - {n}, was, pending, todo - {n}, phys, g, ssids, hints, force)
  {
    var now' := now - {n};
    forall k | k in now' && k !in todo - {n}
      ensures !Stale(was[k], k, phys) && Handled(now', was, pending, g, k, ssids, hints, force)
    {
      HandledFrame(now, now', was, pending, pending, g, k, ssids, hints, force);
    }
  }

  lemma {:induction false} ProgressHandled(now: map<string, Managed>, now': map<string, Managed>,
                                           was: map<string, Managed>, pending: map<string, seq<Network>>,
                                           pending': map<string, seq<Network>>, todo: set<string>, n: string,
                                           phys: map<string, nat>, g: Groups, ssids: set<string>, hints: HintMap,
                                           force: bool)
    requires Progress(now, was, pending, todo, phys, g, ssids, hints, force) && n in todo && !Stale(was[n], n, phys)
    requires Handled(now', now, pending', g, n, ssids, hints, force) && now' == now[n := now'[n]]
    requires pending' == pending || (n in pending' && pending' == pending[n := pending'[n]])
    ensures Progress(now', was, pending', todo - {n}, phys, g, ssids, hints, force)
  {
    assert Handled(now', was, pending', g, n, ssids, hints, force);
    forall k | k in now' && k !in todo - {n} && k != n
      ensures !Stale(was[k], k, phys) && Handled(now', was, pending', g, k, ssids, hints, force)
    {
      HandledFrame(now, now', was, pending, pending', g, k, ssids, hints, force);
    }
  }

  lemma {:induction false} DropOne(live: map<string, string>, stale: set<string>, todo: set<string>, n: string)
    requires n in stale
    ensures live - (stale - todo) - {n} == live - (stale - (todo - {n}))
  {
  }

  lemma {:induction false} DropNone(stale: set<string>, todo: set<string>, n: string)
    requires n !in stale
    ensures stale - todo == stale - (todo - {n})
  {
  }

  lemma {:induction false} HandledFrame(now: map<string, Managed>, now': map<string, Managed>,
                                        was: map<string, Managed>, pending: map<string, seq<Network>>,
                                        pending': map<string, seq<Network>>, g: Groups, n: string, ssids: set<string>,
                                        hints: HintMap, force: bool)
    requires Handled(now, was, pending, g, n, ssids, hints, force)
    requires n in now' && now'[n] == now[n]
    requires (n in pending' <==> n in pending) && (n in pending ==> pending'[n] == pending[n])
    ensures Handled(now', was, pending', g, n, ssids, hints, force)
  {
  }

  lemma {:induction false} RefreshedGood(r: seq<Network>, ns: seq<Network>, loaded: seq<Network>)
    requires GoodList(ns) && Refreshed(r, ns, loaded)
    ensures GoodList(r)
  {
  }

  /** A managed interface whose kernel device is gone or was re-created. */
  predicate Stale(m: Managed, n: string, phys: map<string, nat>) {
    n !in phys || phys[n] != m.ifIndex
  }

  function StaleNames(ifaces: map<string, Managed>, phys: map<string, nat>): set<string> {
    set n | n in ifaces && Stale(ifaces[n], n, phys)
  }

  /** The list of an interface that was managed before and still is: the list asked for when one is needed and the
      client (if there is one) accepts it, otherwise the list it had, with hints refreshed by an unforced apply. */
  ghost predicate FinalList(now: Managed, was: Managed, target: seq<Network>, force: bool, accepted: bool) {
    && now.ifIndex == was.ifIndex
    && if MustUpdate(was.networks, target, force) then now.networks == (if accepted then target else was.networks)
       else if force then now == was
       else Refreshed(now.networks, was.networks, target)
  }

  /** What an apply is given besides the request: the wifi interfaces of the kernel with their index, those not ignored
      in some order, the loaded hints, and how the client will answer. */
  datatype World = World(phys: map<string, nat>, present: seq<string>, hints: HintMap,
                         initOk: bool, addOk: set<string>, updateOk: set<string>)

  ghost function Wanted(ifs: seq<Iface>, w: World): Groups {
    Grouped(ifs, UpPhys(ifs), w.present)
  }

  /** The interfaces an apply goes on managing. */
  ghost function Staying(was: map<string, Managed>, ifs: seq<Iface>, w: World): set<string> {
    set n | n in was && n !in PhysToDelete(ifs) && n !in IgnoredPhys(ifs) && !Stale(was[n], n, w.phys)
  }

  /** The interfaces an apply starts managing: wanted, in the kernel, and accepted by the client if there is one. */
  ghost function Joining(stay: set<string>, g: Groups, w: World, client: bool): set<string> {
    set n | n in g && n in w.phys && n !in stay && (!client || n in w.addOk)
  }

  /** Which interfaces are managed after an apply, and with which lists. */
  ghost predicate AppliedLists(now: map<string, Managed>, was: map<string, Managed>, ifs: seq<Iface>, w: World,
                               client: bool, force: bool) {
    var g := Wanted(ifs, w);
    var stay := Staying(was, ifs, w);
    && now.Keys == stay + Joining(stay, g, w, client)
    && (forall n :: n in stay ==>
          && Usable(g, n)
          && FinalList(now[n], was[n], Target(was[n].networks, g, n, SsidsToDelete(ifs), w.hints, force), force,
                       !client || n in w.updateOk))
    && (forall n :: n in now && n !in stay ==>
          Usable(g, n) && now[n] == Managed(w.phys[n], Target([], g, n, {}, w.hints, force)))
  }

  /** How far the adding of new interfaces got. */
  ghost predicate Added(now: map<string, Managed>, was: map<string, Managed>, todo: set<string>, g: Groups, w: World,
                        client: bool, force: bool)
  {
    && (forall n :: n in was ==> n in now && now[n] == was[n])
    && (forall n :: n in now && n !in was ==>
          n in g && n !in todo && n in w.phys && (client ==> n in w.addOk) && Usable(g, n)
          && now[n] == Managed(w.phys[n], Target([], g, n, {}, w.hints, force)))
    && (forall n :: n in g && n !in todo && n in w.phys && n !in was ==>
          Usable(g, n) && (!client || n in w.addOk ==> n in now))
  }

  lemma {:induction false} AddedStep(now: map<string, Managed>, now': map<string, Managed>, was: map<string, Managed>,
                                     todo: set<string>, n: string, g: Groups, w: World, client: bool, force: bool)
    requires Added(now, was, todo, g, w, client, force) && n in todo && todo <= g.Keys
    requires if n !in now && n in w.phys
             then Usable(g, n) && now' == if !client || n in w.addOk
                                          then now[n := Managed(w.phys[n], Target([], g, n, {}, w.hints, force))]
                                          else now
             else now' == now
    ensures Added(now', was, todo - {n}, g, w, client, force)
  {
  }

  /** The profiles wanted on every interface of the kernel can live together; on those that stay; on the new ones. */
  ghost predicate AllUsable(g: Groups, phys: map<string, nat>) {
    forall n :: n in phys ==> Usable(g, n)
  }

  ghost predicate PresentUsable(ifaces: map<string, Managed>, g: Groups, phys: map<string, nat>) {
    forall n :: n in ifaces && !Stale(ifaces[n], n, phys) ==> Usable(g, n)
  }

  ghost predicate NewUsable(managed: set<string>, g: Groups, phys: map<string, nat>) {
    forall n :: n in g && n !in managed && n in phys ==> Usable(g, n)
  }

  lemma {:induction false} UsableParts(ifaces: map<string, Managed>, g: Groups, phys: map<string, nat>)
    ensures AllUsable(g, phys) <==>
              PresentUsable(ifaces, g, phys) && NewUsable(ifaces.Keys - StaleNames(ifaces, phys), g, phys)
  {
    if PresentUsable(ifaces, g, phys) && NewUsable(ifaces.Keys - StaleNames(ifaces, phys), g, phys) {
      forall n | n in phys
        ensures Usable(g, n)
      {
        if n in g && n in ifaces.Keys - StaleNames(ifaces, phys) {
          assert !Stale(ifaces[n], n, phys);
        }
      }
    }
  }

  lemma {:induction false} AddedKeeps(now: map<string, Managed>, was: map<string, Managed>, g: Groups, w: World,
                                      client: bool, force: bool)
    requires Added(now, was, {}, g, w, client, force)
    ensures was.Keys <= now.Keys
  {
  }

  lemma {:induction false} StayingKeys(was: map<string, Managed>, dropped: map<string, Managed>, ifs: seq<Iface>,
                                       w: World)
    requires dropped == was - PhysToDelete(ifs) - IgnoredPhys(ifs)
    ensures dropped.Keys - StaleNames(dropped, w.phys) == Staying(was, ifs, w)
  {
  }

  lemma {:induction false} StayingLive(live: map<string, string>, was: map<string, Managed>,
                                       dropped: map<string, Managed>, ifs: seq<Iface>, w: World)
    requires dropped == was - PhysToDelete(ifs) - IgnoredPhys(ifs)
    ensures live - (PhysToDelete(ifs) * was.Keys) - (IgnoredPhys(ifs) * (was - PhysToDelete(ifs)).Keys)
            - StaleNames(dropped, w.phys) == live - (was.Keys - Staying(was, ifs, w))
  {
  }

  /** The phases of an apply, put together. */
  lemma {:induction false} PhasesCompose(was: map<string, Managed>, dropped: map<string, Managed>,
                                         compared: map<string, Managed>, added: map<string, Managed>,
                                         now: map<string, Managed>, pending: map<string, seq<Network>>,
                                         ifs: seq<Iface>, w: World, client: bool, force: bool)
    requires dropped == was - PhysToDelete(ifs) - IgnoredPhys(ifs)
    requires compared.Keys == Staying(was, ifs, w) && pending.Keys <= compared.Keys
    requires forall n :: n in compared ==>
               Handled(compared, dropped, pending, Wanted(ifs, w), n, SsidsToDelete(ifs), w.hints, force)
    requires Added(added, compared, {}, Wanted(ifs, w), w, client, force)
    requires now.Keys == added.Keys
    requires forall n :: n in now ==>
               now[n] == if n in pending && (!client || n in w.updateOk) then added[n].(networks := pending[n])
                         else added[n]
    ensures AppliedLists(now, was, ifs, w, client, force)
  {
    var g := Wanted(ifs, w);
    var stay := Staying(was, ifs, w);
    assert now.Keys == stay + Joining(stay, g, w, client);
    forall n | n in stay
      ensures Usable(g, n)
      ensures FinalList(now[n], was[n], Target(was[n].networks, g, n, SsidsToDelete(ifs), w.hints, force), force,
                        !client || n in w.updateOk)
    {
      assert Handled(compared, dropped, pending, g, n, SsidsToDelete(ifs), w.hints, force);
      assert dropped[n] == was[n] && added[n] == compared[n];
    }
  }

  lemma {:induction false} PendingGood(dropped: map<string, Managed>, compared: map<string, Managed>,
                                       pending: map<string, seq<Network>>, g: Groups, ssids: set<string>,
                                       hints: HintMap, force: bool)
    requires forall n :: n in dropped ==> GoodList(dropped[n].networks)
    requires pending.Keys <= compared.Keys
    requires forall n :: n in compared ==> Handled(compared, dropped, pending, g, n, ssids, hints, force)
    ensures forall n :: n in pending ==> GoodList(pending[n])
  {
    forall n | n in pending
      ensures GoodList(pending[n])
    {
      assert Handled(compared, dropped, pending, g, n, ssids, hints, force);
      TargetGood(dropped[n].networks, g, n, ssids, hints, force);
    }
  }

  /** A managed interface is in the kernel under the recorded index, and is not one the request ignores unless the same
      request brings it up. */
  lemma {:induction false} AppliedPresent(now: map<string, Managed>, was: map<string, Managed>, ifs: seq<Iface>,
                                          w: World, client: bool, force: bool, n: string)
    requires AppliedLists(now, was, ifs, w, client, force) && n in now
    requires SetOf(w.present) == w.phys.Keys - IgnoredPhys(ifs)
    ensures n in w.phys && now[n].ifIndex == w.phys[n]
    ensures n in IgnoredPhys(ifs) ==> n in UpPhys(ifs)
  {
    if n !in Staying(was, ifs, w) {
      GroupedTargets(ifs, ifs, w.present, n);
    }
  }

  // ---------------------------------------------------------------- applying the same request again

  /** The hints do not decide which networks a list holds. */
  lemma {:induction false} FirstsButHints(cs: seq<WifiConfig>, hints: HintMap, hints': HintMap, preferred: bool)
    requires forall i :: 0 <= i < |cs| ==> ValidBssid(cs[i])
    ensures |Firsts(cs, hints, preferred)| == |Firsts(cs, hints', preferred)|
    ensures forall i :: 0 <= i < |Firsts(cs, hints, preferred)| ==>
              Firsts(cs, hints', preferred)[i] ==
                Firsts(cs, hints, preferred)[i].(hints := Firsts(cs, hints', preferred)[i].hints)
    decreases |cs|
  {
    if cs != [] {
      FirstsButHints(cs[..|cs| - 1], hints, hints', preferred);
      var a, b := Firsts(cs[..|cs| - 1], hints, preferred), Firsts(cs[..|cs| - 1], hints', preferred);
      var c := cs[|cs| - 1];
      assert HasSsid(a, c.ssid) <==> HasSsid(b, c.ssid) by {
        if i :| 0 <= i < |a| && a[i].ssid == c.ssid {
          assert b[i].ssid == c.ssid;
        }
        if i :| 0 <= i < |b| && b[i].ssid == c.ssid {
          assert a[i].ssid == c.ssid;
        }
      }
    }
  }

  lemma {:induction false} KeptAll(ns: seq<Network>, ssids: set<string>)
    ensures |Kept(ns, ssids)| <= |ns|
    ensures |Kept(ns, ssids)| == |ns| <==> forall i :: 0 <= i < |ns| ==> ns[i].ssid !in ssids
    ensures |Kept(ns, ssids)| == |ns| ==> Kept(ns, ssids) == ns
    ensures forall i :: 0 <= i < |Kept(ns, ssids)| ==> Kept(ns, ssids)[i].ssid !in ssids
    decreases |ns|
  {
    if ns != [] {
      KeptAll(ns[1..], ssids);
      assert ns == [ns[0]] + ns[1..];
      if forall i :: 0 <= i < |ns[1..]| ==> ns[1..][i].ssid !in ssids {
        assert forall i :: 0 < i < |ns| ==> ns[i] == ns[1..][i - 1];
      }
    }
  }

  /** After an unforced apply whose lists were accepted, the same request needs no update on any managed interface,
      whatever the hint files hold by then: a live connection is left alone. */
  lemma {:induction false} ReapplyIsQuiet(now: map<string, Managed>, was: map<string, Managed>, ifs: seq<Iface>,
                                          w: World, client: bool, n: string, hints: HintMap)
    requires AppliedLists(now, was, ifs, w, client, false) && n in now
    requires n in was ==> !client || n in w.updateOk
    ensures Usable(Wanted(ifs, w), n)
    ensures !MustUpdate(now[n].networks, Target(now[n].networks, Wanted(ifs, w), n, SsidsToDelete(ifs), hints, false),
                        false)
  {
    var g := Wanted(ifs, w);
    var ssids := SsidsToDelete(ifs);
    if n in g {
      FirstsButHints(g[n], w.hints, hints, false);
      PreferenceIsNoChange(Firsts(g[n], w.hints, false), Firsts(g[n], hints, false));
    } else {
      KeptAll(was[n].networks, ssids);
      KeptAll(now[n].networks, ssids);
    }
    if n in Staying(was, ifs, w) &&
       !MustUpdate(was[n].networks, Target(was[n].networks, g, n, ssids, w.hints, false), false) {
      PreferenceIsNoChange(was[n].networks, now[n].networks);
    }
  }

  /** An apply succeeds exactly when no wifi interface has an impossible state and the profiles wanted on each present
      interface can live together. */
  ghost predicate Appliable(ifs: seq<Iface>, w: World) {
    && (forall i :: 0 <= i < |ifs| ==> !BadlyStated(ifs[i]))
    && AllUsable(Wanted(ifs, w), w.phys)
  }

  // ---------------------------------------------------------------- the state

  /** The client's answer to one drive cycle. */
  datatype RunResult =
    | Connected(iface: string, ssid: string)
    | NotConnected(iface: string)
    | Latched
    | RunFailed

  datatype Control = On | Off | Unsupported

  // ---------------------------------------------------------------- what an apply means for the lists

  lemma {:induction false} FirstsHas(cs: seq<WifiConfig>, hints: HintMap, preferred: bool, ssid: string)
    requires forall i :: 0 <= i < |cs| ==> ValidBssid(cs[i])
    ensures HasSsid(Firsts(cs, hints, preferred), ssid) <==> exists k :: 0 <= k < |cs| && cs[k].ssid == ssid
  {
    if HasSsid(Firsts(cs, hints, preferred), ssid) {
      var i :| 0 <= i < |Firsts(cs, hints, preferred)| && Firsts(cs, hints, preferred)[i].ssid == ssid;
      FirstsOrigin(cs, hints, preferred, i);
    }
    if k :| 0 <= k < |cs| && cs[k].ssid == ssid {
      FirstsContents(cs, hints, preferred, k);
    }
  }

  lemma {:induction false} KeptMembers(ns: seq<Network>, ssids: set<string>, x: Network)
    ensures x in Kept(ns, ssids) <==> x in ns && x.ssid !in ssids
    decreases |ns|
  {
    if ns != [] {
      KeptMembers(ns[1..], ssids, x);
      assert ns == [ns[0]] + ns[1..];
    }
  }

  ghost predicate Removes(ifs: seq<Iface>, n: string) {
    exists i :: i in ifs && i.WifiPhy? && i.kernelName == n
                && (i.state == StateDown || i.state == StateAbsent || i.state == StateIgnore)
  }

  lemma {:induction false} StayingExactly(was: map<string, Managed>, ifs: seq<Iface>, w: World, n: string)
    ensures n in Staying(was, ifs, w) <==>
              n in was && n in w.phys && was[n].ifIndex == w.phys[n] && !Removes(ifs, n)
  {
    RequestReads(ifs, n);
    hide PhysToDelete, IgnoredPhys;
  }

  ghost predicate MeantForSome(ifs: seq<Iface>, up: seq<string>, present: seq<string>, n: string) {
    exists i, c :: i in ifs && Brings(i, c, up, present, n)
  }

  lemma {:induction false} GroupedSomewhere(ifs: seq<Iface>, up: seq<string>, present: seq<string>, n: string)
    ensures n in Grouped(ifs, up, present) <==> MeantForSome(ifs, up, present, n)
  {
    hide Brings, Grouped;
    var g := Grouped(ifs, up, present);
    GroupedExactly(ifs, up, present, n);
    if n in g {
      assert g[n][0] in g[n];
      WantedExactly(ifs, up, present, n, g[n][0]);
    }
    if i, c :| i in ifs && Brings(i, c, up, present, n) {
      WantedExactly(ifs, up, present, n, c);
    }
  }

  /** After an apply exactly these interfaces are managed: those of the kernel that were managed under the same index
      and
      that no entry takes down, removes or ignores, and those that a profile is meant for and that the client
      accepts. */
  lemma {:induction false} ManagedExactly(now: map<string, Managed>, was: map<string, Managed>, ifs: seq<Iface>,
                                          w: World, client: bool, force: bool, n: string)
    requires AppliedLists(now, was, ifs, w, client, force)
    ensures n in now <==>
              && n in w.phys
              && (|| (n in was && was[n].ifIndex == w.phys[n] && !Removes(ifs, n))
                  || ((!client || n in w.addOk) && MeantForSome(ifs, UpPhys(ifs), w.present, n)))
  {
    StayingExactly(was, ifs, w, n);
    GroupedSomewhere(ifs, UpPhys(ifs), w.present, n);
    hide Staying, MeantForSome, Removes, UpPhys, Grouped;
  }

  /** Without a profile for the interface, only the networks of removed SSIDs leave its list. */
  lemma {:induction false} UnwantedTarget(ns: seq<Network>, g: Groups, n: string, ssids: set<string>, hints: HintMap,
                                          force: bool, x: Network)
    requires n !in g
    ensures x in Target(ns, g, n, ssids, hints, force) <==> x in ns && x.ssid !in ssids
  {
    KeptMembers(ns, ssids, x);
  }

  lemma {:induction false} OneRequested(cs: seq<WifiConfig>, hints: HintMap)
    requires |cs| == 1 && Compatible(cs)
    ensures var requested := Firsts(cs, hints, true);
            && |requested| == 1 && requested[0].ssid == cs[0].ssid && requested[0].preferred
            && (forall s :: HasSsid(requested, s) <==> s == cs[0].ssid)
  {
    assert Firsts(cs[..0], hints, true) == [];
    assert Firsts(cs, hints, true)[0].ssid == cs[0].ssid;
  }

  lemma {:induction false} ForcedTarget(ns: seq<Network>, cs: seq<WifiConfig>, hints: HintMap, ssid: string)
    requires |cs| == 1 && Compatible(cs) && OneEach(ns)
    ensures var t := MergedInto(ns, Firsts(cs, hints, true));
            && (HasSsid(t, ssid) <==> HasSsid(ns, ssid) || ssid == cs[0].ssid)
            && forall i :: 0 <= i < |t| ==> (t[i].preferred <==> t[i].ssid == cs[0].ssid)
  {
    OneRequested(cs, hints);
    hide Firsts, MergedInto, HasSsid, Compatible;
    MergeKeepsLists(ns, Firsts(cs, hints, true));
  }

  /** A forced request for one profile adds its SSID to the list and prefers it alone; any other request makes the list
      exactly the SSIDs of its profiles, none preferred. */
  lemma {:induction false} WantedTarget(ns: seq<Network>, g: Groups, n: string, ssids: set<string>, hints: HintMap,
                                        force: bool, ssid: string)
    requires n in g && Compatible(g[n]) && OneEach(ns)
    ensures var t := Target(ns, g, n, ssids, hints, force);
            if force && |g[n]| == 1 then
              && (HasSsid(t, ssid) <==> HasSsid(ns, ssid) || ssid == g[n][0].ssid)
              && forall i :: 0 <= i < |t| ==> (t[i].preferred <==> t[i].ssid == g[n][0].ssid)
            else
              && (HasSsid(t, ssid) <==> exists k :: 0 <= k < |g[n]| && g[n][k].ssid == ssid)
              && forall i :: 0 <= i < |t| ==> !t[i].preferred
  {
    if force && |g[n]| == 1 {
      ForcedTarget(ns, g[n], hints, ssid);
    } else {
      FirstsHas(g[n], hints, false, ssid);
      FirstsOneEach(g[n], hints, false);
    }
  }

  /** A forced apply hands every list to the client unless it is empty before and after; another apply hands over only
      the lists whose saved configuration differs. */
  lemma {:induction false} UpdatesHandedOver(was: seq<Network>, target: seq<Network>)
    ensures !MustUpdate(was, target, true) <==> was == [] && target == []
    ensures !MustUpdate(was, target, false) <==> SameSaved(was, target)
  {
  }

  lemma {:induction false} RefreshedSaved(now: seq<Network>, was: seq<Network>, target: seq<Network>)
    requires Refreshed(now, was, target) && SameSaved(was, target)
    ensures SameSaved(now, target)
  {
    PreferenceIsNoChange(was, now);
  }

  /** When the client accepts it, an interface that stays has after a forced apply the list asked for, and after any
      other apply a list with the same saved configuration; when it refuses, the list it had. */
  lemma {:induction false} AppliedListMeans(now: Managed, was: Managed, target: seq<Network>, force: bool,
                                            accepted: bool)
    requires FinalList(now, was, target, force, accepted)
    ensures accepted && force ==> now.networks == target
    ensures accepted && !force ==> SameSaved(now.networks, target)
    ensures !accepted ==> SameSaved(now.networks, was.networks)
  {
    if !MustUpdate(was.networks, target, force) && !force {
      RefreshedSaved(now.networks, was.networks, target);
      PreferenceIsNoChange(was.networks, now.networks);
    }
  }

  // ---------------------------------------------------------------- what wakes the worker

  /** What the plugin's worker is woken by: a request, one drive cycle of the client, or a client that stalled. */
  datatype Wake =
    | ApplyRequest(ifs: seq<Iface>, world: World, force: bool)
    | ControlRequest(control: Control, initOk: bool)
    | ResumeRequest
    | Cycle(result: RunResult)
    | Stalled(initOk: bool)

  ghost predicate Consistent(w: Wake) {
    w.ApplyRequest? ==> SetOf(w.world.present) == w.world.phys.Keys - IgnoredPhys(w.ifs)
  }

  /** The fields of the client state, as a value. */
  datatype ClientView = ClientView(client: bool, ifaces: map<string, Managed>, live: map<string, string>,
                                   enabled: bool, enabledFlag: bool, connected: bool)

  /** The switch and the shared flag agree; without the switch there is no client, without a client no live connection;
      `connected` says whether there is one; lists name each SSID once and prefer at most one. */
  ghost predicate GoodView(v: ClientView) {
    && v.enabled == v.enabledFlag
    && (!v.enabled ==> !v.client)
    && (!v.client ==> v.live == map[])
    && (v.connected <==> v.live != map[])
    && forall n :: n in v.ifaces ==> GoodList(v.ifaces[n].networks)
  }

  class WifiClientState {
    var client: bool
    var ifaces: map<string, Managed>
    var live: map<string, string>
    var enabled: bool
    var enabledFlag: bool
    var connected: bool

    ghost function View(): ClientView
      reads this
    {
      ClientView(client, ifaces, live, enabled, enabledFlag, connected)
    }

    ghost predicate Valid()
      reads this
    {
      GoodView(View())
    }

    constructor ()
      ensures Valid() && enabled && !client && ifaces == map[]
    {
      client, ifaces, live := false, map[], map[];
      enabled, enabledFlag, connected := true, true, false;
    }

    method ClearLive(n: string)
      modifies this`live, this`connected
      ensures live == old(live) - {n} && (connected <==> live != map[])
    {
      live := live - {n};
      connected := live != map[];
    }

    /** Disconnect everything; the caller decides about the client handle. */
    method Shutdown()
      modifies this`live, this`connected
      ensures live == map[] && !connected
    {
      connected := false;
      live := map[];
    }

    method StartClient(initOk: bool)
      modifies this`client, this`live, this`connected
      ensures client == (ifaces != map[] && initOk) && live == map[] && !connected
    {
      connected := false;
      live := map[];
      if ifaces == map[] {
        client := false;
        return;
      }
      client := initOk;
    }

    /** Used by the watchdog (only while a client exists) and by an explicit wifi-on. */
    method RestartClient(initOk: bool)
      requires Valid() && enabled
      modifies this
      ensures Valid() && enabled && ifaces == old(ifaces)
      ensures client == (ifaces != map[] && initOk) && live == map[]
    {
      client := false;
      connected := false;
      live := map[];
      StartClient(initOk);
    }

    method SetControl(control: Control, initOk: bool) returns (ok: bool)
      requires Valid()
      modifies this
      ensures Valid() && ifaces == old(ifaces)
      ensures ok == !control.Unsupported?
      ensures control.Off? ==> !enabled && !client && live == map[]
      ensures control.On? ==> enabled
      ensures control.On? && old(client) ==> client && live == old(live)
      ensures control.On? && !old(client) ==> client == (ifaces != map[] && initOk) && live == map[]
      ensures control.Unsupported? ==> client == old(client) && live == old(live) && enabled == old(enabled)
    {
      match control
      case Off =>
        enabled := false;
        enabledFlag := false;
        connected := false;
        Shutdown();
        live := map[];
        client := false;
        ok := true;
      case On =>
        var wasEnabled := enabled;
        enabled := true;
        enabledFlag := true;
        if !wasEnabled || !client {
          RestartClient(initOk);
        }
        ok := true;
      case Unsupported =>
        ok := false;
    }

    /** One drive cycle of the client. */
    method RunOnce(result: RunResult) returns (ok: bool)
      requires Valid()
      modifies this`live, this`connected
      ensures Valid()
      ensures !client ==> ok && live == old(live)
      ensures client && result.Connected? ==> live == old(live)[result.iface := result.ssid] && connected
      ensures client && result.NotConnected? ==> live == old(live) - {result.iface}
      ensures client && (result.Latched? || result.RunFailed?) ==> live == old(live)
      ensures ok == !(client && result.RunFailed?)
    {
      ok := true;
      if !client {
        return;
      }
      match result
      case Connected(n, ssid) =>
        live := live[n := ssid];
        connected := true;
        assert n in live;
      case NotConnected(n) => ClearLive(n);
      case Latched =>
      case RunFailed => ok := false;
    }

    // -------------------------------------------------------------- apply, phase by phase

    /** Stop managing the named interfaces. */
    method DropIfaces(names: set<string>)
      requires Valid()
      modifies this`ifaces, this`live, this`connected
      ensures Valid()
      ensures ifaces == old(ifaces) - names
      ensures live == old(live) - (names * old(ifaces).Keys)
    {
      var todo := names;
      ghost var done := {};
      while todo != {}
        invariant Valid()
        invariant done + todo == names && done !! todo
        invariant ifaces == old(ifaces) - done
        invariant live == old(live) - (done * old(ifaces).Keys)
        decreases todo
      {
        var n :| n in todo;
        if n in ifaces {
          ifaces := ifaces - {n};
          ClearLive(n);
          assert old(live) - (done * old(ifaces).Keys) - {n} == old(live) - ((done + {n}) * old(ifaces).Keys);
        } else {
          assert (done + {n}) * old(ifaces).Keys == done * old(ifaces).Keys;
        }
        todo := todo - {n};
        done := done + {n};
      }
      assert done == names;
    }

    /** Compare one interface's list with what is asked for. */
    method CompareOne(n: string, g: Groups, ssids: set<string>, hints: HintMap, force: bool)
      returns (r: ListResult, waiting: bool)
      requires Valid() && n in ifaces
      modifies this`ifaces
      ensures Valid()
      ensures r.Ok? <==> Usable(g, n)
      ensures r.Err? ==> ifaces == old(ifaces)
      ensures r.Ok? ==>
                && r.networks == Target(old(ifaces)[n].networks, g, n, ssids, hints, force)
                && waiting == MustUpdate(old(ifaces)[n].networks, r.networks, force)
                && n in ifaces && ifaces == old(ifaces)[n := ifaces[n]]
                && Compared(ifaces[n], old(ifaces)[n], r.networks, force)
    {
      var was := ifaces[n];
      r := ComputeTarget(was.networks, g, n, ssids, hints, force);
      if r.Err? {
        return r, false;
      }
      var changed;
      if force {
        changed := was.networks != r.networks;
      } else {
        var same := SameSavedNetworks(was.networks, r.networks);
        changed := !same;
      }
      waiting := changed || (force && r.networks != []);
      if !waiting && !force {
        var refreshed := RefreshHints(was.networks, r.networks);
        RefreshedGood(refreshed, was.networks, r.networks);
        ifaces := ifaces[n := was.(networks := refreshed)];
      } else {
        assert ifaces == ifaces[n := ifaces[n]];
      }
    }

    /** Drop a stale interface, or compare its list. */
    method CompareStep(n: string, phys: map<string, nat>, g: Groups, ssids: set<string>, hints: HintMap, force: bool,
                       pending: map<string, seq<Network>>)
      returns (pending': map<string, seq<Network>>, r: ApplyResult)
      requires Valid() && n in ifaces && n !in pending
      modifies this`ifaces, this`live, this`connected
      ensures Valid()
      ensures r.Applied? <==> Stale(old(ifaces)[n], n, phys) || Usable(g, n)
      ensures Stale(old(ifaces)[n], n, phys) ==>
                ifaces == old(ifaces) - {n} && live == old(live) - {n} && pending' == pending
      ensures !Stale(old(ifaces)[n], n, phys) && r.Applied? ==>
                && Handled(ifaces, old(ifaces), pending', g, n, ssids, hints, force)
                && ifaces == old(ifaces)[n := ifaces[n]] && live == old(live)
                && (pending' == pending ||
                    pending' == pending[n := Target(old(ifaces)[n].networks, g, n, ssids, hints, force)])
    {
      pending', r := pending, Applied;
      if Stale(ifaces[n], n, phys) {
        ifaces := ifaces - {n};
        ClearLive(n);
      } else {
        var list, waiting := CompareOne(n, g, ssids, hints, force);
        if list.Err? {
          r := Failed(BadList(list.error));
        } else if waiting {
          pending' := pending[n := list.networks];
        }
      }
    }

    /** Drop the stale interfaces and compare the lists of the others; `pending` collects the lists that have to be
        handed to the client. */
    method CompareLists(phys: map<string, nat>, g: Groups, ssids: set<string>, hints: HintMap, force: bool)
      returns (pending: map<string, seq<Network>>, r: ApplyResult)
      requires Valid()
      modifies this`ifaces, this`live, this`connected
      ensures Valid()
      ensures r.Applied? <==> PresentUsable(old(ifaces), g, phys)
      ensures r.Applied? ==>
                && ifaces.Keys == old(ifaces).Keys - StaleNames(old(ifaces), phys)
                && live == old(live) - StaleNames(old(ifaces), phys)
                && (forall n :: n in ifaces ==> Handled(ifaces, old(ifaces), pending, g, n, ssids, hints, force))
                && pending.Keys <= ifaces.Keys
    {
      pending := map[];
      ghost var was := ifaces;
      var todo := ifaces.Keys;
      assert StaleNames(was, phys) - todo == {} && live - {} == live;
      while todo != {}
        invariant Valid()
        invariant Progress(ifaces, was, pending, todo, phys, g, ssids, hints, force)
        invariant live == old(live) - (StaleNames(was, phys) - todo)
        decreases todo
      {
        var n :| n in todo;
        ghost var before, waiting := ifaces, pending;
        pending, r := CompareStep(n, phys, g, ssids, hints, force, pending);
        if r.Failed? {
          return;
        }
        if Stale(was[n], n, phys) {
          ProgressDropped(before, was, waiting, todo, n, phys, g, ssids, hints, force);
          DropOne(old(live), StaleNames(was, phys), todo, n);
        } else {
          ProgressHandled(before, ifaces, was, waiting, pending, todo, n, phys, g, ssids, hints, force);
          DropNone(StaleNames(was, phys), todo, n);
        }
        todo := todo - {n};
      }
      r := Applied;
    }

    /** Start managing the wanted interfaces that are in the kernel. */
    method AddIfaces(g: Groups, w: World, force: bool) returns (r: ApplyResult)
      requires Valid()
      modifies this`ifaces
      ensures Valid()
      ensures r.Applied? <==> NewUsable(old(ifaces).Keys, g, w.phys)
      ensures r.Applied? ==> Added(ifaces, old(ifaces), {}, g, w, client, force)
    {
      var todo := g.Keys;
      ghost var was := ifaces;
      while todo != {}
        invariant Valid() && todo <= g.Keys
        invariant Added(ifaces, was, todo, g, w, client, force)
        decreases todo
      {
        var n :| n in todo;
        ghost var before := ifaces;
        if n !in ifaces && n in w.phys {
          var list := ComputeTarget([], g, n, {}, w.hints, force);
          if list.Err? {
            r := Failed(BadList(list.error));
            return;
          }
          TargetGood([], g, n, {}, w.hints, force);
          if !client || n in w.addOk {
            ifaces := ifaces[n := Managed(w.phys[n], list.networks)];
          }
        }
        AddedStep(before, ifaces, was, todo, n, g, w, client, force);
        todo := todo - {n};
      }
      r := Applied;
    }

    /** Store the lists of the named interfaces. */
    method StoreLists(pending: map<string, seq<Network>>, names: set<string>)
      requires Valid() && names <= pending.Keys <= ifaces.Keys
      requires forall n :: n in pending ==> GoodList(pending[n])
      modifies this`ifaces
      ensures Valid() && ifaces.Keys == old(ifaces).Keys
      ensures forall n :: n in ifaces ==>
                ifaces[n] == if n in names then old(ifaces)[n].(networks := pending[n]) else old(ifaces)[n]
    {
      var todo := names;
      while todo != {}
        invariant Valid() && todo <= names && ifaces.Keys == old(ifaces).Keys
        invariant forall n :: n in ifaces ==>
                    ifaces[n] == if n in names && n !in todo then old(ifaces)[n].(networks := pending[n])
                                 else old(ifaces)[n]
        decreases todo
      {
        var n :| n in todo;
        todo := todo - {n};
        ifaces := ifaces[n := ifaces[n].(networks := pending[n])];
      }
    }

    /** Stop the client when nothing is left to manage, start it when there is none, or update its lists. */
    method Settle(pending: map<string, seq<Network>>, initOk: bool, updateOk: set<string>)
      requires Valid() && pending.Keys <= ifaces.Keys
      requires forall n :: n in pending ==> GoodList(pending[n])
      modifies this
      ensures Valid() && ifaces.Keys == old(ifaces).Keys && enabled == old(enabled)
      ensures client == (ifaces != map[] && enabled && (old(client) || initOk))
      ensures live == if client then old(live) else map[]
      ensures forall n :: n in ifaces ==>
                ifaces[n] == if n in pending && (!old(client) || n in updateOk)
                             then old(ifaces)[n].(networks := pending[n]) else old(ifaces)[n]
    {
      if ifaces == map[] && client {
        Shutdown();
        client := false;
        return;
      }
      if !enabled {
        StoreLists(pending, pending.Keys);
        return;
      }
      if !client && ifaces != map[] {
        StoreLists(pending, pending.Keys);
        StartClient(initOk);
        return;
      }
      StoreLists(pending, set n | n in pending && (!client || n in updateOk));
    }

    /** Bring the managed interfaces, their lists and the client in line with the grouped profiles. */
    method Realize(ifs: seq<Iface>, g: Groups, w: World, force: bool) returns (r: ApplyResult)
      requires Valid() && g == Wanted(ifs, w)
      modifies this
      ensures Valid() && enabled == old(enabled)
      ensures r.Applied? <==> AllUsable(g, w.phys)
      ensures r.Applied? ==>
                && client == (ifaces != map[] && enabled && (old(client) || w.initOk))
                && live == (if client then old(live) - (old(ifaces).Keys - Staying(old(ifaces), ifs, w)) else map[])
                && AppliedLists(ifaces, old(ifaces), ifs, w, old(client), force)
    {
      hide AppliedLists, Handled, Added, AllUsable, PresentUsable, NewUsable;
      hide Wanted, Staying, StaleNames, PhysToDelete, IgnoredPhys, SsidsToDelete, GoodList;
      ghost var was := ifaces;
      DropIfaces(PhysToDelete(ifs));
      DropIfaces(IgnoredPhys(ifs));
      ghost var dropped := ifaces;
      StayingKeys(was, dropped, ifs, w);
      StayingLive(old(live), was, dropped, ifs, w);
      UsableParts(dropped, g, w.phys);
      var pending;
      pending, r := CompareLists(w.phys, g, SsidsToDelete(ifs), w.hints, force);
      if r.Failed? {
        return;
      }
      ghost var compared := ifaces;
      PendingGood(dropped, compared, pending, g, SsidsToDelete(ifs), w.hints, force);
      r := AddIfaces(g, w, force);
      if r.Failed? {
        return;
      }
      ghost var added := ifaces;
      AddedKeeps(added, compared, g, w, client, force);
      Settle(pending, w.initOk, w.updateOk);
      PhasesCompose(was, dropped, compared, added, ifaces, pending, ifs, w, old(client), force);
    }

    /** Apply a request. */
    method Apply(ifs: seq<Iface>, w: World, force: bool) returns (r: ApplyResult)
      requires Valid()
      requires SetOf(w.present) == w.phys.Keys - IgnoredPhys(ifs)
      modifies this
      ensures Valid()
      ensures enabled == (old(enabled) || HasUpRequest(ifs))
      ensures r.Applied? <==> Appliable(ifs, w)
      ensures r.Applied? ==>
                && client == (ifaces != map[] && enabled && (old(client) || w.initOk))
                && live == (if client then old(live) - (old(ifaces).Keys - Staying(old(ifaces), ifs, w)) else map[])
                && AppliedLists(ifaces, old(ifaces), ifs, w, old(client), force)
    {
      if !enabled && HasUpRequest(ifs) {
        enabled := true;
        enabledFlag := true;
      }
      var g;
      g, r := GroupProfiles(ifs, UpPhys(ifs), w.present);
      if r.Failed? {
        return;
      }
      r := Realize(ifs, g, w, force);
    }

    /** One wake-up of the worker: a request in its turn; a drive cycle or a stall only while there is a client. */
    method Handle(w: Wake)
      requires Valid() && Consistent(w)
      modifies this
      ensures Valid()
      ensures !w.ApplyRequest? ==> ifaces == old(ifaces)
      ensures !w.ApplyRequest? && !w.ControlRequest? ==> enabled == old(enabled)
      ensures w.ApplyRequest? ==> enabled == (old(enabled) || HasUpRequest(w.ifs))
      ensures (w.Cycle? || w.Stalled?) && !old(client) ==> !client && live == old(live)
    {
      match w {
        case ApplyRequest(ifs, world, force) =>
          var _ := Apply(ifs, world, force);
        case ControlRequest(control, initOk) =>
          var _ := SetControl(control, initOk);
        case ResumeRequest =>
        case Cycle(result) =>
          if client {
            var _ := RunOnce(result);
          }
        case Stalled(initOk) =>
          if client {
            RestartClient(initOk);
          }
      }
    }

    /** Any sequence of wake-ups, from any valid state: the state is valid after it, and was after each of its parts. */
    method Serve(wakes: seq<Wake>) returns (ghost trace: seq<ClientView>)
      requires Valid() && forall i :: 0 <= i < |wakes| ==> Consistent(wakes[i])
      modifies this
      ensures Valid()
      ensures |trace| == |wakes| + 1 && trace[0] == old(View()) && trace[|wakes|] == View()
      ensures forall i :: 0 <= i < |trace| ==> GoodView(trace[i])
      ensures forall i :: 0 <= i < |wakes| && !wakes[i].ApplyRequest? ==> trace[i + 1].ifaces == trace[i].ifaces
    {
      trace := [View()];
      var k := 0;
      while k < |wakes|
        invariant 0 <= k <= |wakes| && Valid()
        invariant |trace| == k + 1 && trace[0] == old(View()) && trace[k] == View()
        invariant forall i :: 0 <= i < |trace| ==> GoodView(trace[i])
        invariant forall i :: 0 <= i < k && !wakes[i].ApplyRequest? ==> trace[i + 1].ifaces == trace[i].ifaces
      {
        Handle(wakes[k]);
        trace := trace + [View()];
        k := k + 1;
      }
    }
  }

  /** The worker's life: a fresh state serves any sequence of wake-ups until the daemon closes the connection, and then
      disconnects everything. */
  method ApplyWorker(wakes: seq<Wake>) returns (state: WifiClientState, ghost trace: seq<ClientView>)
    requires forall i :: 0 <= i < |wakes| ==> Consistent(wakes[i])
    ensures fresh(state) && state.Valid() && state.live == map[]
    ensures |trace| == |wakes| + 1 && forall i :: 0 <= i < |trace| ==> GoodView(trace[i])
  {
    state := new WifiClientState();
    trace := state.Serve(wakes);
    state.Shutdown();
  }
}
