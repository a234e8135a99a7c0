/**
 How an apply waits for the wifi connections it asks for: the requested SSIDs are grouped by the interface they target,
 and the wait is over when every group has one of its SSIDs live.
 */
module ConnectGroups {
  import opened Base

  datatype Request = Request(ssid: string, base: Option<string>)

  /** A group stands for a wifi interface that is present, or for a base name that is not resolved yet. */
  datatype Group = Group(phy: Option<string>, base: Option<string>, ssids: seq<string>)

  datatype Target = OnPhy(phy: string) | OnBase(base: Option<string>)

  function Identity(g: Group): Target {
    if g.phy.Some? then OnPhy(g.phy.value) else OnBase(g.base)
  }

  // ---------------------------------------------------------------- what is wanted where

  /** An unbound request goes to every present interface; a bound one to the interface it names, or stays unresolved. */
  predicate Hits(r: Request, phys: seq<string>, t: Target) {
    match r.base
    case None => t.OnPhy? && t.phy in phys
    case Some(b) => t == if b in phys then OnPhy(b) else OnBase(Some(b))
  }

  function AddOnce(ssids: seq<string>, ssid: string): seq<string> {
    if ssid in ssids then ssids else ssids + [ssid]
  }

  /** The SSIDs requested on a target, in the order they were first requested. */
  ghost function Wanted(rs: seq<Request>, phys: seq<string>, t: Target): seq<string> {
    if rs == [] then []
    else
      var before := Wanted(rs[..|rs| - 1], phys, t);
      if Hits(rs[|rs| - 1], phys, t) then AddOnce(before, rs[|rs| - 1].ssid) else before
  }

  lemma {:induction false} WantedExact(rs: seq<Request>, phys: seq<string>, t: Target)
    ensures Distinct(Wanted(rs, phys, t))
    ensures forall s :: s in Wanted(rs, phys, t) <==> exists r :: r in rs && r.ssid == s && Hits(r, phys, t)
    decreases |rs|
  {
    if rs != [] {
      var before, last := rs[..|rs| - 1], rs[|rs| - 1];
      WantedExact(before, phys, t);
      assert rs == before + [last];
      forall s
        ensures s in Wanted(rs, phys, t) <==> exists r :: r in rs && r.ssid == s && Hits(r, phys, t)
      {
        if s in Wanted(before, phys, t) {
          var r :| r in before && r.ssid == s && Hits(r, phys, t);
          assert r in rs;
        } else if Hits(last, phys, t) && last.ssid == s {
          assert last in rs;
        }
      }
    }
  }

  /** From the fields: a present interface gets the SSIDs of the unbound requests and of those bound to it; a base that
      is not present gets those bound to it; there is no other target. */
  lemma {:induction false} WantedFields(rs: seq<Request>, phys: seq<string>, name: string, s: string)
    ensures s in Wanted(rs, phys, OnPhy(name)) <==>
              name in phys && exists r :: r in rs && r.ssid == s && (r.base == None || r.base == Some(name))
    ensures s in Wanted(rs, phys, OnBase(Some(name))) <==>
              name !in phys && exists r :: r in rs && r.ssid == s && r.base == Some(name)
    ensures s !in Wanted(rs, phys, OnBase(None))
  {
    WantedExact(rs, phys, OnPhy(name));
    WantedExact(rs, phys, OnBase(Some(name)));
    WantedExact(rs, phys, OnBase(None));
  }

  // ---------------------------------------------------------------- the groups

  /** The groups as a map from targets to SSIDs: no target twice, none missing. */
  ghost predicate Represents(gs: seq<Group>, m: map<Target, seq<string>>) {
    && (forall i :: 0 <= i < |gs| ==> Identity(gs[i]) in m && gs[i].ssids == m[Identity(gs[i])])
    && (forall i, j :: 0 <= i < j < |gs| ==> Identity(gs[i]) != Identity(gs[j]))
    && (forall t :: t in m ==> exists i :: 0 <= i < |gs| && Identity(gs[i]) == t)
  }

  ghost function At(m: map<Target, seq<string>>, t: Target): seq<string> {
    if t in m then m[t] else []
  }

  ghost function Pushed(m: map<Target, seq<string>>, t: Target, ssid: string): map<Target, seq<string>> {
    m[t := AddOnce(At(m, t), ssid)]
  }

  /** Every target with a request has its SSIDs in the map, and no other target is in it. */
  ghost predicate Complete(m: map<Target, seq<string>>, rs: seq<Request>, phys: seq<string>) {
    forall t :: At(m, t) == Wanted(rs, phys, t) && (t in m <==> Wanted(rs, phys, t) != [])
  }

  method FindGroup(gs: seq<Group>, t: Target) returns (k: nat)
    ensures k <= |gs| && (k < |gs| ==> Identity(gs[k]) == t)
    ensures forall i :: 0 <= i < k ==> Identity(gs[i]) != t
  {
    k := 0;
    while k < |gs| && Identity(gs[k]) != t
      invariant k <= |gs|
      invariant forall i :: 0 <= i < k ==> Identity(gs[i]) != t
    {
      k := k + 1;
    }
  }

  lemma {:induction false} ReplacedGroup(gs: seq<Group>, k: nat, ssid: string, m: map<Target, seq<string>>)
    requires Represents(gs, m) && k < |gs|
    ensures var g := gs[k].(ssids := AddOnce(gs[k].ssids, ssid));
            Represents(gs[k := g], Pushed(m, Identity(gs[k]), ssid))
  {
    var g := gs[k].(ssids := AddOnce(gs[k].ssids, ssid));
    var gs' := gs[k := g];
    var m' := Pushed(m, Identity(gs[k]), ssid);
    forall i | 0 <= i < |gs'|
      ensures Identity(gs'[i]) == Identity(gs[i])
      ensures Identity(gs'[i]) in m' && gs'[i].ssids == m'[Identity(gs'[i])]
    {
    }
    forall t | t in m'
      ensures exists i :: 0 <= i < |gs'| && Identity(gs'[i]) == t
    {
      var i :| 0 <= i < |gs| && Identity(gs[i]) == t;
      assert Identity(gs'[i]) == t;
    }
  }

  lemma {:induction false} AppendedGroup(gs: seq<Group>, g: Group, ssid: string, m: map<Target, seq<string>>)
    requires Represents(gs, m) && g.ssids == [ssid] && forall i :: 0 <= i < |gs| ==> Identity(gs[i]) != Identity(g)
    ensures Represents(gs + [g], Pushed(m, Identity(g), ssid))
  {
    var gs' := gs + [g];
    var m' := Pushed(m, Identity(g), ssid);
    assert Identity(g) !in m;
    assert gs'[|gs|] == g;
    forall t | t in m'
      ensures exists i :: 0 <= i < |gs'| && Identity(gs'[i]) == t
    {
      if t in m {
        var i :| 0 <= i < |gs| && Identity(gs[i]) == t;
        assert Identity(gs'[i]) == t;
      } else {
        assert Identity(gs'[|gs|]) == t;
      }
    }
  }

  /** Add an SSID to the group of a target, which is created when it is missing. */
  method Push(gs: seq<Group>, phy: Option<string>, base: Option<string>, ssid: string,
              ghost m: map<Target, seq<string>>)
    returns (gs': seq<Group>)
    requires Represents(gs, m)
    ensures Represents(gs', Pushed(m, Identity(Group(phy, base, [])), ssid))
  {
    var k := FindGroup(gs, Identity(Group(phy, base, [])));
    if k < |gs| {
      var g := gs[k];
      ReplacedGroup(gs, k, ssid, m);
      if ssid !in g.ssids {
        gs' := gs[k := g.(ssids := g.ssids + [ssid])];
      } else {
        gs' := gs;
        assert gs[k := g] == gs;
      }
    } else {
      var g := Group(phy, base, [ssid]);
      AppendedGroup(gs, g, ssid, m);
      gs' := gs + [g];
    }
  }

  ghost function PushedOn(m: map<Target, seq<string>>, phys: seq<string>, ssid: string): map<Target, seq<string>>
    decreases |phys|
  {
    if phys == [] then m else PushedOn(Pushed(m, OnPhy(phys[0]), ssid), phys[1..], ssid)
  }

  lemma {:induction false} PushedOnAt(m: map<Target, seq<string>>, phys: seq<string>, ssid: string, t: Target)
    ensures At(PushedOn(m, phys, ssid), t) == if t.OnPhy? && t.phy in phys then AddOnce(At(m, t), ssid) else At(m, t)
    ensures t in PushedOn(m, phys, ssid) <==> t in m || (t.OnPhy? && t.phy in phys)
    decreases |phys|
  {
    if phys != [] {
      PushedOnAt(Pushed(m, OnPhy(phys[0]), ssid), phys[1..], ssid, t);
      assert phys == [phys[0]] + phys[1..];
    }
  }

  method PushEverywhere(gs: seq<Group>, phys: seq<string>, ssid: string, ghost m: map<Target, seq<string>>)
    returns (gs': seq<Group>)
    requires Represents(gs, m)
    ensures Represents(gs', PushedOn(m, phys, ssid))
  {
    gs' := gs;
    ghost var now := m;
    var j := 0;
    while j < |phys|
      invariant 0 <= j <= |phys|
      invariant Represents(gs', now) && PushedOn(now, phys[j..], ssid) == PushedOn(m, phys, ssid)
    {
      assert phys[j..][0] == phys[j] && phys[j..][1..] == phys[j + 1..];
      gs' := Push(gs', Some(phys[j]), None, ssid, now);
      now := Pushed(now, OnPhy(phys[j]), ssid);
      j := j + 1;
    }
  }

  /** One more request. */
  ghost function Step(m: map<Target, seq<string>>, r: Request, phys: seq<string>): map<Target, seq<string>> {
    match r.base
    case None => PushedOn(m, phys, r.ssid)
    case Some(b) => Pushed(m, if b in phys then OnPhy(b) else OnBase(Some(b)), r.ssid)
  }

  lemma {:induction false} StepComplete(m: map<Target, seq<string>>, rs: seq<Request>, phys: seq<string>, k: nat)
    requires k < |rs| && Complete(m, rs[..k], phys)
    ensures Complete(Step(m, rs[k], phys), rs[..k + 1], phys)
  {
    assert rs[..k + 1][..k] == rs[..k] && rs[..k + 1][k] == rs[k];
    var m' := Step(m, rs[k], phys);
    forall t
      ensures At(m', t) == Wanted(rs[..k + 1], phys, t) && (t in m' <==> Wanted(rs[..k + 1], phys, t) != [])
    {
      assert At(m, t) == Wanted(rs[..k], phys, t) && (t in m <==> Wanted(rs[..k], phys, t) != []);
      if rs[k].base.None? {
        PushedOnAt(m, phys, rs[k].ssid, t);
      }
    }
  }

  /** Every target that is asked for has exactly one group, holding exactly the SSIDs wanted there. */
  method GroupRequests(rs: seq<Request>, phys: seq<string>) returns (gs: seq<Group>)
    ensures forall i, j :: 0 <= i < j < |gs| ==> Identity(gs[i]) != Identity(gs[j])
    ensures forall i :: 0 <= i < |gs| ==> gs[i].ssids == Wanted(rs, phys, Identity(gs[i])) && gs[i].ssids != []
    ensures forall t :: Wanted(rs, phys, t) != [] ==> exists i :: 0 <= i < |gs| && Identity(gs[i]) == t
  {
    gs := [];
    ghost var m: map<Target, seq<string>> := map[];
    var k := 0;
    while k < |rs|
      invariant 0 <= k <= |rs|
      invariant Represents(gs, m) && Complete(m, rs[..k], phys)
    {
      var r := rs[k];
      match r.base {
        case None => gs := PushEverywhere(gs, phys, r.ssid, m);
        case Some(b) =>
          gs := Push(gs, if b in phys then Some(b) else None, Some(b), r.ssid, m);
      }
      StepComplete(m, rs, phys, k);
      m := Step(m, r, phys);
      k := k + 1;
    }
    assert rs[..k] == rs;
    GroupsComplete(gs, m, rs, phys);
  }

  lemma {:induction false} GroupsComplete(gs: seq<Group>, m: map<Target, seq<string>>, rs: seq<Request>,
                                          phys: seq<string>)
    requires Represents(gs, m) && Complete(m, rs, phys)
    ensures forall i, j :: 0 <= i < j < |gs| ==> Identity(gs[i]) != Identity(gs[j])
    ensures forall i :: 0 <= i < |gs| ==> gs[i].ssids == Wanted(rs, phys, Identity(gs[i])) && gs[i].ssids != []
    ensures forall t :: Wanted(rs, phys, t) != [] ==> exists i :: 0 <= i < |gs| && Identity(gs[i]) == t
  {
  }

  // ---------------------------------------------------------------- waiting

  /** A wifi interface in the live state. */
  datatype Live = Live(name: string, kernelName: string, profile: Option<string>, ssid: Option<string>)

  predicate Fits(l: Live, g: Group) {
    if g.phy.Some? then l.kernelName == g.phy.value
    else if g.base.Some? then g.base.value == l.kernelName || g.base.value == l.name || l.profile == Some(g.base.value)
    else true
  }

  predicate FitsTarget(l: Live, t: Target) {
    match t
    case OnPhy(p) => l.kernelName == p
    case OnBase(b) => b.None? || b.value == l.kernelName || b.value == l.name || l.profile == b
  }

  predicate Serves(l: Live, g: Group) {
    l.ssid.Some? && l.ssid.value in g.ssids && Fits(l, g)
  }

  method GroupConnected(live: seq<Live>, g: Group) returns (connected: bool)
    ensures connected <==> exists i :: 0 <= i < |live| && Serves(live[i], g)
  {
    var i := 0;
    while i < |live|
      invariant 0 <= i <= |live|
      invariant forall j :: 0 <= j < i ==> !Serves(live[j], g)
    {
      if Serves(live[i], g) {
        return true;
      }
      i := i + 1;
    }
    return false;
  }

  /** From the fields: a live interface serves a group when it is on one of its SSIDs and is the group's interface, or,
      for an unresolved base, goes by the base's name as kernel name, name or profile. */
  lemma {:induction false} ServesFields(l: Live, g: Group)
    requires g.phy.Some? || g.base.Some?
    ensures Serves(l, g) <==>
              && (exists s :: s in g.ssids && l.ssid == Some(s))
              && if g.phy.Some? then l.kernelName == g.phy.value
                 else l.kernelName == g.base.value || l.name == g.base.value || l.profile == g.base
    ensures Strays(l, g) <==>
              && l.ssid.Some? && (forall s :: s in g.ssids ==> l.ssid != Some(s))
              && if g.phy.Some? then l.kernelName == g.phy.value
                 else l.kernelName == g.base.value || l.name == g.base.value || l.profile == g.base
  {
  }

  /** The first interface the group targets that is connected to a network the group does not ask for. */
  method ConnectedElsewhere(live: seq<Live>, g: Group) returns (found: Option<Live>)
    ensures found.Some? ==>
              exists i :: 0 <= i < |live| && live[i] == found.value && Strays(live[i], g)
                          && forall j :: 0 <= j < i ==> !Strays(live[j], g)
    ensures found.None? ==> forall i :: 0 <= i < |live| ==> !Strays(live[i], g)
  {
    var i := 0;
    while i < |live|
      invariant 0 <= i <= |live|
      invariant forall j :: 0 <= j < i ==> !Strays(live[j], g)
    {
      if Strays(live[i], g) {
        return Some(live[i]);
      }
      i := i + 1;
    }
    return None;
  }

  predicate Strays(l: Live, g: Group) {
    l.ssid.Some? && l.ssid.value !in g.ssids && Fits(l, g)
  }

  /** A group of a present interface is stuck elsewhere exactly when its interface is live and the group is not
      connected. */
  lemma {:induction false} StuckExactlyWhen(live: seq<Live>, g: Group)
    requires g.phy.Some? && forall a, b :: 0 <= a < b < |live| ==> live[a].kernelName != live[b].kernelName
    ensures (exists j :: 0 <= j < |live| && Strays(live[j], g)) <==>
              && (exists j :: 0 <= j < |live| && live[j].ssid.Some? && Fits(live[j], g))
              && !(exists i :: 0 <= i < |live| && Serves(live[i], g))
  {
    if j :| 0 <= j < |live| && live[j].ssid.Some? && Fits(live[j], g) {
      assert forall i :: 0 <= i < |live| && Fits(live[i], g) ==> i == j;
      assert Serves(live[j], g) || Strays(live[j], g);
    }
  }

  /** A request is served on a target. */
  ghost predicate Answered(rs: seq<Request>, phys: seq<string>, live: seq<Live>, t: Target) {
    exists i, r ::
      0 <= i < |live| && r in rs && Hits(r, phys, t) && live[i].ssid == Some(r.ssid) && FitsTarget(live[i], t)
  }

  lemma {:induction false} GroupAnswered(rs: seq<Request>, phys: seq<string>, live: seq<Live>, g: Group)
    requires g.ssids == Wanted(rs, phys, Identity(g))
    ensures (exists i :: 0 <= i < |live| && Serves(live[i], g)) <==> Answered(rs, phys, live, Identity(g))
  {
    var t := Identity(g);
    WantedExact(rs, phys, t);
    if i :| 0 <= i < |live| && Serves(live[i], g) {
      var s := live[i].ssid.value;
      var r :| r in rs && r.ssid == s && Hits(r, phys, t);
      assert FitsTarget(live[i], t);
    }
    if Answered(rs, phys, live, t) {
      var i, r :|
        0 <= i < |live| && r in rs && Hits(r, phys, t) && live[i].ssid == Some(r.ssid) && FitsTarget(live[i], t);
      assert Serves(live[i], g);
    }
  }

  /** The wait is over exactly when each target some request hits is live on an SSID that was requested for it. */
  lemma {:induction false} AllConnectedExactlyWhen(rs: seq<Request>, phys: seq<string>, live: seq<Live>, gs: seq<Group>)
    requires forall i :: 0 <= i < |gs| ==> gs[i].ssids == Wanted(rs, phys, Identity(gs[i])) && gs[i].ssids != []
    requires forall t :: Wanted(rs, phys, t) != [] ==> exists i :: 0 <= i < |gs| && Identity(gs[i]) == t
    ensures (forall k :: 0 <= k < |gs| ==> exists i :: 0 <= i < |live| && Serves(live[i], gs[k]))
            <==> forall r, t :: r in rs && Hits(r, phys, t) ==> Answered(rs, phys, live, t)
  {
    forall k | 0 <= k < |gs|
      ensures (exists i :: 0 <= i < |live| && Serves(live[i], gs[k])) <==> Answered(rs, phys, live, Identity(gs[k]))
    {
      GroupAnswered(rs, phys, live, gs[k]);
    }
    if forall k :: 0 <= k < |gs| ==> exists i :: 0 <= i < |live| && Serves(live[i], gs[k]) {
      forall r, t | r in rs && Hits(r, phys, t)
        ensures Answered(rs, phys, live, t)
      {
        WantedExact(rs, phys, t);
        assert r.ssid in Wanted(rs, phys, t);
        var k :| 0 <= k < |gs| && Identity(gs[k]) == t;
      }
    }
    if forall r, t :: r in rs && Hits(r, phys, t) ==> Answered(rs, phys, live, t) {
      forall k | 0 <= k < |gs|
        ensures Answered(rs, phys, live, Identity(gs[k]))
      {
        WantedExact(rs, phys, Identity(gs[k]));
        assert gs[k].ssids[0] in Wanted(rs, phys, Identity(gs[k]));
        var r :| r in rs && r.ssid == gs[k].ssids[0] && Hits(r, phys, Identity(gs[k]));
      }
    }
  }
}
