/**
 The network lists handed to the wifi client: building them from saved profiles, merging an explicitly
 requested network into them, and telling whether two lists carry the same saved configuration.
 */
module WifiNetworks {
  import opened Base
  import opened WifiHints

  datatype HintSet = HintSet(freqs: seq<nat>, known: seq<(Mac, nat)>)

  const NO_HINTS := HintSet([], [])

  /** A saved profile. */
  datatype WifiConfig = WifiConfig(
    ssid: string, hidden: bool, password: Option<string>, bssid: Option<string>, baseIface: Option<string>)

  /** A network as the client knows it. */
  datatype Network = Network(
    ssid: string, hidden: bool, password: Option<string>, bssid: Option<Mac>, preferred: bool, hints: HintSet)

  datatype ListError = InvalidBssid(ssid: string) | Conflict(ssid: string)
  datatype ListResult = Ok(networks: seq<Network>) | Err(error: ListError)

  type HintMap = map<string, HintSet>

  predicate ValidBssid(c: WifiConfig) {
    c.bssid.Some? ==> MacOf(c.bssid.value).Some?
  }

  /** The client network of one profile; its hints are attached when a hint file was loaded. */
  function Built(c: WifiConfig, hints: HintMap): Network
    requires ValidBssid(c)
  {
    Network(c.ssid, c.hidden, c.password, if c.bssid.Some? then MacOf(c.bssid.value) else None, false,
            if c.ssid in hints then hints[c.ssid] else NO_HINTS)
  }

  // ---------------------------------------------------------------- lists by SSID

  function Find(ns: seq<Network>, ssid: string): (i: nat)
    ensures i <= |ns| && (i < |ns| ==> ns[i].ssid == ssid)
    ensures forall j :: 0 <= j < i ==> ns[j].ssid != ssid
  {
    if ns == [] || ns[0].ssid == ssid then 0 else 1 + Find(ns[1..], ssid)
  }

  predicate HasSsid(ns: seq<Network>, ssid: string) {
    exists i :: 0 <= i < |ns| && ns[i].ssid == ssid
  }

  lemma {:induction false} FindIffHas(ns: seq<Network>, ssid: string)
    ensures HasSsid(ns, ssid) <==> Find(ns, ssid) < |ns|
  {
  }

  /** No SSID twice. */
  ghost predicate OneEach(ns: seq<Network>) {
    forall i, j :: 0 <= i < j < |ns| ==> ns[i].ssid != ns[j].ssid
  }

  method Locate(ns: seq<Network>, ssid: string) returns (i: nat)
    ensures i == Find(ns, ssid)
  {
    i := 0;
    while i < |ns| && ns[i].ssid != ssid
      invariant 0 <= i <= |ns|
      invariant forall j :: 0 <= j < i ==> ns[j].ssid != ssid
    {
      i := i + 1;
    }
  }

  // ---------------------------------------------------------------- building with conflict detection

  /** Two profiles can share an interface: other SSIDs, or the same credentials and the same pinned AP. */
  ghost predicate Agree(a: WifiConfig, b: WifiConfig)
    requires ValidBssid(a) && ValidBssid(b)
  {
    a.ssid == b.ssid ==> a.password == b.password && Built(a, map[]).bssid == Built(b, map[]).bssid
  }

  ghost predicate Compatible(cs: seq<WifiConfig>) {
    && (forall i :: 0 <= i < |cs| ==> ValidBssid(cs[i]))
    && (forall i, j :: 0 <= i < j < |cs| ==> Agree(cs[i], cs[j]))
  }

  /** The first profile of every SSID, in order, as a network with the given preference. */
  ghost function Firsts(cs: seq<WifiConfig>, hints: HintMap, preferred: bool): seq<Network>
    requires forall i :: 0 <= i < |cs| ==> ValidBssid(cs[i])
  {
    if cs == [] then []
    else
      var before := Firsts(cs[..|cs| - 1], hints, preferred);
      var c := cs[|cs| - 1];
      if HasSsid(before, c.ssid) then before else before + [Built(c, hints).(preferred := preferred)]
  }

  lemma {:induction false} FirstsOneEach(cs: seq<WifiConfig>, hints: HintMap, preferred: bool)
    requires forall i :: 0 <= i < |cs| ==> ValidBssid(cs[i])
    ensures OneEach(Firsts(cs, hints, preferred))
    ensures forall i :: 0 <= i < |Firsts(cs, hints, preferred)| ==>
            Firsts(cs, hints, preferred)[i].preferred == preferred
    decreases |cs|
  {
    if cs != [] {
      FirstsOneEach(cs[..|cs| - 1], hints, preferred);
    }
  }

  /** The list has exactly the SSIDs of the profiles, each with the settings of its first profile. */
  lemma {:induction false} FirstsContents(cs: seq<WifiConfig>, hints: HintMap, preferred: bool, k: nat)
    requires (forall i :: 0 <= i < |cs| ==> ValidBssid(cs[i])) && k < |cs|
    ensures HasSsid(Firsts(cs, hints, preferred), cs[k].ssid)
    ensures (forall j :: 0 <= j < k ==> cs[j].ssid != cs[k].ssid) ==>
              Built(cs[k], hints).(preferred := preferred) in Firsts(cs, hints, preferred)
    decreases |cs|
  {
    var before := cs[..|cs| - 1];
    var f := Firsts(before, hints, preferred);
    if k < |cs| - 1 {
      FirstsContents(before, hints, preferred, k);
      var i :| 0 <= i < |f| && f[i].ssid == cs[k].ssid;
      assert Firsts(cs, hints, preferred)[i].ssid == cs[k].ssid;
    } else {
      if HasSsid(f, cs[k].ssid) {
        var i :| 0 <= i < |f| && f[i].ssid == cs[k].ssid;
        FirstsOrigin(before, hints, preferred, i);
      } else {
        assert Firsts(cs, hints, preferred)[|f|].ssid == cs[k].ssid;
      }
    }
  }

  /** The first profile of an SSID gives the network its settings: SSID, hidden flag, password, pinned access point, and
      the loaded hints. */
  lemma {:induction false} FirstGivesSettings(cs: seq<WifiConfig>, hints: HintMap, preferred: bool, k: nat)
    requires (forall i :: 0 <= i < |cs| ==> ValidBssid(cs[i])) && k < |cs|
    requires forall j :: 0 <= j < k ==> cs[j].ssid != cs[k].ssid
    ensures exists n :: n in Firsts(cs, hints, preferred)
                        && n.ssid == cs[k].ssid && n.hidden == cs[k].hidden && n.password == cs[k].password
                        && (cs[k].bssid.None? ==> n.bssid.None?)
                        && (cs[k].bssid.Some? ==> n.bssid == MacOf(cs[k].bssid.value))
                        && n.preferred == preferred
                        && n.hints == if cs[k].ssid in hints then hints[cs[k].ssid] else HintSet([], [])
  {
    FirstsContents(cs, hints, preferred, k);
    assert Built(cs[k], hints).(preferred := preferred) in Firsts(cs, hints, preferred);
  }

  /** Profiles can share an interface exactly when every pinned access point parses and profiles of one SSID have the
      same password and pin the same access point, or none. */
  lemma {:induction false} CompatibleExactly(cs: seq<WifiConfig>)
    ensures Compatible(cs) <==>
              && (forall i :: 0 <= i < |cs| && cs[i].bssid.Some? ==> MacOf(cs[i].bssid.value).Some?)
              && (forall i, j :: 0 <= i < j < |cs| && cs[i].ssid == cs[j].ssid ==>
                    && cs[i].password == cs[j].password
                    && (cs[i].bssid.Some? <==> cs[j].bssid.Some?)
                    && (cs[i].bssid.Some? && cs[j].bssid.Some? ==>
                          MacOf(cs[i].bssid.value) == MacOf(cs[j].bssid.value)))
  {
    if forall i :: 0 <= i < |cs| ==> ValidBssid(cs[i]) {
      forall i, j | 0 <= i < j < |cs|
        ensures Agree(cs[i], cs[j]) <==>
                  (cs[i].ssid == cs[j].ssid ==>
                     && cs[i].password == cs[j].password
                     && (cs[i].bssid.Some? <==> cs[j].bssid.Some?)
                     && (cs[i].bssid.Some? && cs[j].bssid.Some? ==>
                           MacOf(cs[i].bssid.value) == MacOf(cs[j].bssid.value)))
      {
        assert ValidBssid(cs[i]) && ValidBssid(cs[j]);
      }
    } else {
      var i :| 0 <= i < |cs| && !ValidBssid(cs[i]);
    }
  }

  lemma {:induction false} FirstsOrigin(cs: seq<WifiConfig>, hints: HintMap, preferred: bool, i: nat)
    requires (forall i :: 0 <= i < |cs| ==> ValidBssid(cs[i])) && i < |Firsts(cs, hints, preferred)|
    ensures exists k :: 0 <= k < |cs| && Firsts(cs, hints, preferred)[i] == Built(cs[k], hints).(preferred := preferred)
    decreases |cs|
  {
    var before := cs[..|cs| - 1];
    var f := Firsts(before, hints, preferred);
    if i < |f| {
      FirstsOrigin(before, hints, preferred, i);
      var k :| 0 <= k < |before| && f[i] == Built(before[k], hints).(preferred := preferred);
      assert cs[k] == before[k];
    } else {
      assert Firsts(cs, hints, preferred)[i] == Built(cs[|cs| - 1], hints).(preferred := preferred);
    }
  }

  lemma {:induction false} AgreeThrough(cs: seq<WifiConfig>, c: WifiConfig, k: nat)
    requires Compatible(cs) && ValidBssid(c) && k < |cs| && cs[k].ssid == c.ssid && Agree(cs[k], c)
    ensures Compatible(cs + [c])
  {
  }

  /** A conflict with the kept first entry of an SSID is a conflict between two profiles, and conversely. */
  lemma {:induction false} ConflictIsPairwise(cs: seq<WifiConfig>, hints: HintMap, preferred: bool, c: WifiConfig,
                                              i: nat)
    requires Compatible(cs) && ValidBssid(c)
    requires var f := Firsts(cs, hints, preferred); i < |f| && f[i].ssid == c.ssid
    ensures var e := Firsts(cs, hints, preferred)[i];
            (e.password == c.password && e.bssid == Built(c, hints).bssid) <==> Compatible(cs + [c])
  {
    FirstsOrigin(cs, hints, preferred, i);
    var e := Firsts(cs, hints, preferred)[i];
    var k :| 0 <= k < |cs| && e == Built(cs[k], hints).(preferred := preferred);
    if e.password == c.password && e.bssid == Built(c, hints).bssid {
      AgreeThrough(cs, c, k);
    } else {
      assert !Agree((cs + [c])[k], (cs + [c])[|cs|]);
    }
  }

  lemma {:induction false} NewSsidCompatible(cs: seq<WifiConfig>, hints: HintMap, preferred: bool, c: WifiConfig)
    requires Compatible(cs) && ValidBssid(c) && !HasSsid(Firsts(cs, hints, preferred), c.ssid)
    ensures Compatible(cs + [c])
  {
    var more := cs + [c];
    forall a, b | 0 <= a < b < |more|
      ensures Agree(more[a], more[b])
    {
      if b == |cs| {
        FirstsContents(cs, hints, preferred, a);
      } else {
        assert Agree(cs[a], cs[b]);
      }
    }
  }

  lemma {:induction false} IncompatiblePrefix(cs: seq<WifiConfig>, i: nat)
    requires i <= |cs| && !Compatible(cs[..i])
    ensures !Compatible(cs)
  {
  }

  lemma {:induction false} FirstsNext(cs: seq<WifiConfig>, i: nat, hints: HintMap, preferred: bool)
    requires i < |cs| && forall k :: 0 <= k <= i ==> ValidBssid(cs[k])
    ensures Firsts(cs[..i + 1], hints, preferred) ==
            var before := Firsts(cs[..i], hints, preferred);
            if HasSsid(before, cs[i].ssid) then before else before + [Built(cs[i], hints).(preferred := preferred)]
  {
    assert cs[..i + 1][..i] == cs[..i] && cs[..i + 1][i] == cs[i];
  }

  /** Add the network of one more profile. */
  method AddProfile(cs: seq<WifiConfig>, i: nat, hints: HintMap, preferred: bool, ret: seq<Network>)
    returns (r: ListResult)
    requires i < |cs| && Compatible(cs[..i]) && ret == Firsts(cs[..i], hints, preferred)
    ensures r.Ok? <==> Compatible(cs[..i + 1])
    ensures r.Ok? ==> r.networks == Firsts(cs[..i + 1], hints, preferred)
  {
    var c := cs[i];
    assert cs[..i + 1] == cs[..i] + [c];
    if c.bssid.Some? {
      var mac := MacFromString(c.bssid.value);
      if mac.None? {
        assert !ValidBssid(cs[..i + 1][i]);
        return Err(InvalidBssid(c.ssid));
      }
    }
    assert forall k :: 0 <= k < i ==> cs[k] == cs[..i][k];
    FirstsNext(cs, i, hints, preferred);
    var network := Built(c, hints).(preferred := preferred);
    var at := Locate(ret, c.ssid);
    FindIffHas(ret, c.ssid);
    if at < |ret| {
      ConflictIsPairwise(cs[..i], hints, preferred, c, at);
      if ret[at].password != network.password || ret[at].bssid != network.bssid {
        return Err(Conflict(c.ssid));
      }
      return Ok(ret);
    }
    NewSsidCompatible(cs[..i], hints, preferred, c);
    return Ok(ret + [network]);
  }

  /** One list of networks from the profiles of one interface: first profile of each SSID, in order; an error exactly
      when a pinned BSSID is malformed or two profiles of one SSID disagree. */
  method BuildNetworks(cs: seq<WifiConfig>, hints: HintMap, preferred: bool) returns (r: ListResult)
    ensures r.Ok? <==> Compatible(cs)
    ensures r.Ok? ==> r.networks == Firsts(cs, hints, preferred)
  {
    r := Ok([]);
    var i := 0;
    while i < |cs|
      invariant 0 <= i <= |cs| && r.Ok?
      invariant Compatible(cs[..i]) && r.networks == Firsts(cs[..i], hints, preferred)
    {
      r := AddProfile(cs, i, hints, preferred, r.networks);
      if r.Err? {
        IncompatiblePrefix(cs, i + 1);
        return;
      }
      i := i + 1;
    }
    assert cs[..i] == cs;
  }

  // ---------------------------------------------------------------- merging a request

  /** The saved configuration of a network: preference and hints erased. */
  function Saved(n: Network): Network {
    n.(preferred := false, hints := NO_HINTS)
  }

  /** The list without its entry `i`, if there is one. */
  function Without(requested: seq<Network>, i: nat): seq<Network> {
    if i < |requested| then requested[..i] + requested[i + 1..] else requested
  }

  /** `requested` merged into `existing`, the way the loop consumes the requests. */
  ghost function MergedInto(existing: seq<Network>, requested: seq<Network>): seq<Network> {
    if existing == [] then requested
    else
      var i := Find(requested, existing[0].ssid);
      [if i < |requested| then requested[i] else Saved(existing[0])] +
        MergedInto(existing[1..], Without(requested, i))
  }

  lemma {:induction false} MergeHead(done: seq<Network>, existing: seq<Network>, k: nat, requested: seq<Network>,
                                     i: nat)
    requires k < |existing| && i == Find(requested, existing[k].ssid)
    ensures var n := if i < |requested| then requested[i] else Saved(existing[k]);
            done + MergedInto(existing[k..], requested) ==
              done + [n] + MergedInto(existing[k + 1..], Without(requested, i))
  {
  }

  /** The requests are taken out as the existing list is walked. */
  method MergeWalk(existing: seq<Network>, networks: seq<Network>) returns (ret: seq<Network>)
    ensures ret == MergedInto(existing, networks)
  {
    var requested := networks;
    ghost var goal := MergedInto(existing, networks);
    ret := [];
    var k := 0;
    assert existing[0..] == existing;
    while k < |existing|
      invariant 0 <= k <= |existing|
      invariant ret + MergedInto(existing[k..], requested) == goal
    {
      var i := Locate(requested, existing[k].ssid);
      MergeHead(ret, existing, k, requested, i);
      var n := if i < |requested| then requested[i] else Saved(existing[k]);
      ret, requested := ret + [n], Without(requested, i);
      k := k + 1;
    }
    assert existing[k..] == [];
    ret := ret + requested;
  }

  method MergePreferred(existing: seq<Network>, cs: seq<WifiConfig>, hints: HintMap) returns (r: ListResult)
    ensures r.Ok? <==> Compatible(cs)
    ensures r.Ok? ==> r.networks == MergedInto(existing, Firsts(cs, hints, true))
  {
    r := BuildNetworks(cs, hints, true);
    if r.Err? {
      return;
    }
    var merged := MergeWalk(existing, r.networks);
    r := Ok(merged);
  }

  /** The requested networks whose SSID is not in the list yet. */
  ghost function Missing(existing: seq<Network>, requested: seq<Network>): seq<Network> {
    if requested == [] then []
    else if HasSsid(existing, requested[0].ssid) then Missing(existing, requested[1..])
    else [requested[0]] + Missing(existing, requested[1..])
  }

  /** An entry of the merged list in the place of an existing one. */
  ghost function Replaced(n: Network, requested: seq<Network>): Network {
    if HasSsid(requested, n.ssid) then requested[Find(requested, n.ssid)] else Saved(n)
  }

  /** Where an entry goes, and where it came from, when entry `i` is taken out. */
  lemma {:induction false} WithoutAt(ns: seq<Network>, i: nat, k: nat)
    requires i < |ns| && k < |ns| && k != i
    ensures |Without(ns, i)| == |ns| - 1
    ensures Without(ns, i)[if k < i then k else k - 1] == ns[k]
  {
  }

  lemma {:induction false} WithoutFrom(ns: seq<Network>, i: nat, k: nat)
    requires i < |ns| && k < |ns| - 1
    ensures |Without(ns, i)| == |ns| - 1
    ensures Without(ns, i)[k] == ns[if k < i then k else k + 1]
  {
  }

  /** Taking one request out does not matter to a network of another SSID. */
  lemma {:induction false} DropReplaced(requested: seq<Network>, i: nat, n: Network)
    requires OneEach(requested) && i < |requested| && n.ssid != requested[i].ssid
    ensures Replaced(n, Without(requested, i)) == Replaced(n, requested)
  {
    var rest := Without(requested, i);
    FindIffHas(requested, n.ssid);
    FindIffHas(rest, n.ssid);
    var k, f := Find(requested, n.ssid), Find(rest, n.ssid);
    if k < |requested| {
      WithoutAt(requested, i, k);
      WithoutFrom(requested, i, f);
    } else if f < |rest| {
      WithoutFrom(requested, i, f);
      assert false;
    }
  }

  lemma {:induction false} MissingAfterDrop(existing: seq<Network>, requested: seq<Network>, i: nat)
    requires OneEach(requested) && i < |requested| && |existing| > 0 && existing[0].ssid == requested[i].ssid
    requires OneEach(existing)
    ensures Missing(existing[1..], requested[..i] + requested[i + 1..]) == Missing(existing, requested)
    decreases |requested|
  {
    var rest := requested[..i] + requested[i + 1..];
    if i == 0 {
      assert rest == requested[1..];
      assert HasSsid(existing, requested[0].ssid);
      MissingTail(existing, requested[1..]);
    } else {
      assert rest[0] == requested[0] && rest[1..] == requested[1..][..i - 1] + requested[1..][i..];
      MissingAfterDrop(existing, requested[1..], i - 1);
      HasTail(existing, requested[0].ssid);
    }
  }

  lemma {:induction false} HasTail(existing: seq<Network>, ssid: string)
    requires |existing| > 0 && ssid != existing[0].ssid
    ensures HasSsid(existing[1..], ssid) <==> HasSsid(existing, ssid)
  {
  }

  lemma {:induction false} MissingTail(existing: seq<Network>, requested: seq<Network>)
    requires |existing| > 0 && forall k :: 0 <= k < |requested| ==> requested[k].ssid != existing[0].ssid
    ensures Missing(existing[1..], requested) == Missing(existing, requested)
    decreases |requested|
  {
    if requested != [] {
      HasTail(existing, requested[0].ssid);
      MissingTail(existing, requested[1..]);
    }
  }

  lemma {:induction false} OneEachRest(ns: seq<Network>, i: nat)
    requires OneEach(ns)
    ensures OneEach(Without(ns, i)) && (ns != [] ==> OneEach(ns[1..]))
  {
  }

  /** One step of a merge. */
  lemma {:induction false} MergedStep(existing: seq<Network>, requested: seq<Network>, i: nat, rest: seq<Network>)
    requires existing != [] && i == Find(requested, existing[0].ssid) &&
             rest == MergedInto(existing[1..], Without(requested, i))
    ensures MergedInto(existing, requested) == [if i < |requested| then requested[i] else Saved(existing[0])] + rest
  {
  }

  lemma {:induction false} DropOfCons(n: Network, rest: seq<Network>, k: nat)
    requires 0 < k <= |rest| + 1
    ensures ([n] + rest)[k..] == rest[k - 1..]
  {
  }

  lemma {:induction false} MergedTail(existing: seq<Network>, requested: seq<Network>)
    requires OneEach(existing) && OneEach(requested)
    ensures |MergedInto(existing, requested)| == |existing| + |Missing(existing, requested)|
    ensures MergedInto(existing, requested)[|existing|..] == Missing(existing, requested)
    decreases |existing|
  {
    if existing == [] {
      NothingMissing(requested);
    } else {
      var i := Find(requested, existing[0].ssid);
      OneEachRest(requested, i);
      OneEachRest(existing, 0);
      MergedTail(existing[1..], Without(requested, i));
      var rest := MergedInto(existing[1..], Without(requested, i));
      MergedStep(existing, requested, i, rest);
      DropOfCons(if i < |requested| then requested[i] else Saved(existing[0]), rest, |existing|);
      MissingRest(existing, requested, i);
    }
  }

  lemma {:induction false} MissingRest(existing: seq<Network>, requested: seq<Network>, i: nat)
    requires OneEach(existing) && OneEach(requested) && existing != [] && i == Find(requested, existing[0].ssid)
    ensures Missing(existing[1..], Without(requested, i)) == Missing(existing, requested)
  {
    if i < |requested| {
      MissingAfterDrop(existing, requested, i);
    } else {
      MissingTail(existing, requested);
    }
  }

  lemma {:induction false} MergedFront(existing: seq<Network>, requested: seq<Network>, k: nat)
    requires OneEach(existing) && OneEach(requested) && k < |existing|
    ensures k < |MergedInto(existing, requested)|
    ensures MergedInto(existing, requested)[k] == Replaced(existing[k], requested)
    decreases |existing|
  {
    var i := Find(requested, existing[0].ssid);
    var rest := MergedInto(existing[1..], Without(requested, i));
    MergedStep(existing, requested, i, rest);
    if k == 0 {
      FindIffHas(requested, existing[0].ssid);
    } else {
      OneEachRest(requested, i);
      OneEachRest(existing, 0);
      MergedFront(existing[1..], Without(requested, i), k - 1);
      assert existing[1..][k - 1] == existing[k];
      assert MergedInto(existing, requested)[k] == rest[k - 1];
      ReplacedRest(requested, i, existing[0], existing[k]);
    }
  }

  lemma {:induction false} ReplacedRest(requested: seq<Network>, i: nat, first: Network, n: Network)
    requires OneEach(requested) && i == Find(requested, first.ssid) && n.ssid != first.ssid
    ensures Replaced(n, Without(requested, i)) == Replaced(n, requested)
  {
    if i < |requested| {
      DropReplaced(requested, i, n);
    } else {
      assert Without(requested, i) == requested;
    }
  }

  /** What a merge of lists without repeated SSIDs is: every existing network keeps its place, as the requested network
      of its SSID or demoted; the requested networks with new SSIDs follow in request order. */
  lemma {:induction false} MergeClosedForm(existing: seq<Network>, requested: seq<Network>)
    requires OneEach(existing) && OneEach(requested)
    ensures var m := MergedInto(existing, requested);
            && |m| == |existing| + |Missing(existing, requested)|
            && (forall i :: 0 <= i < |existing| ==> m[i] == Replaced(existing[i], requested))
            && m[|existing|..] == Missing(existing, requested)
  {
    MergedTail(existing, requested);
    forall i | 0 <= i < |existing|
      ensures MergedInto(existing, requested)[i] == Replaced(existing[i], requested)
    {
      MergedFront(existing, requested, i);
    }
  }

  lemma {:induction false} NothingMissing(requested: seq<Network>)
    ensures Missing([], requested) == requested
    decreases |requested|
  {
    if requested != [] {
      NothingMissing(requested[1..]);
    }
  }

  lemma {:induction false} MissingContents(existing: seq<Network>, requested: seq<Network>)
    requires OneEach(requested)
    ensures var m := Missing(existing, requested);
            && OneEach(m)
            && (forall i :: 0 <= i < |m| ==> m[i] in requested && !HasSsid(existing, m[i].ssid))
            && (forall i :: 0 <= i < |requested| && !HasSsid(existing, requested[i].ssid) ==> requested[i] in m)
    decreases |requested|
  {
    if requested != [] {
      MissingContents(existing, requested[1..]);
      assert forall i :: 0 < i < |requested| ==> requested[i] == requested[1..][i - 1];
    }
  }

  ghost predicate AllPreferred(ns: seq<Network>) {
    forall i :: 0 <= i < |ns| ==> ns[i].preferred
  }

  lemma {:induction false} HasIntro(ns: seq<Network>, n: Network)
    requires n in ns
    ensures HasSsid(ns, n.ssid)
  {
  }

  /** One entry of the merged list. */
  lemma {:induction false} MergedAt(existing: seq<Network>, requested: seq<Network>, i: nat)
    requires OneEach(existing) && OneEach(requested) && i < |MergedInto(existing, requested)|
    ensures var n := MergedInto(existing, requested)[i];
            && (i < |existing| ==> n.ssid == existing[i].ssid)
            && (i >= |existing| ==> n in requested && !HasSsid(existing, n.ssid))
            && (HasSsid(requested, n.ssid) ==> n in requested)
            && (!HasSsid(requested, n.ssid) ==> i < |existing| && n == Saved(existing[i]))
  {
    MergedTail(existing, requested);
    if i < |existing| {
      MergedFront(existing, requested, i);
      FindIffHas(requested, existing[i].ssid);
    } else {
      MissingContents(existing, requested);
      var n := MergedInto(existing, requested)[i];
      assert MergedInto(existing, requested)[|existing|..][i - |existing|] == n;
      HasIntro(requested, n);
    }
  }

  lemma {:induction false} MergedApart(existing: seq<Network>, requested: seq<Network>, i: nat, j: nat)
    requires OneEach(existing) && OneEach(requested) && i < j < |MergedInto(existing, requested)|
    ensures MergedInto(existing, requested)[i].ssid != MergedInto(existing, requested)[j].ssid
  {
    var n := |existing|;
    MergedAt(existing, requested, i);
    MergedAt(existing, requested, j);
    if j < n {
    } else if i < n {
      assert existing[i].ssid == MergedInto(existing, requested)[i].ssid;
    } else {
      MergedTail(existing, requested);
      MissingContents(existing, requested);
      var tail := MergedInto(existing, requested)[n..];
      assert tail[i - n].ssid != tail[j - n].ssid;
    }
  }

  lemma {:induction false} MergedOneEach(existing: seq<Network>, requested: seq<Network>)
    requires OneEach(existing) && OneEach(requested)
    ensures OneEach(MergedInto(existing, requested))
  {
    forall i, j | 0 <= i < j < |MergedInto(existing, requested)|
      ensures MergedInto(existing, requested)[i].ssid != MergedInto(existing, requested)[j].ssid
    {
      MergedApart(existing, requested, i, j);
    }
  }

  /** A merge keeps one entry per SSID, has exactly the SSIDs of both lists, and prefers exactly the requested ones. */
  lemma {:induction false} MergeKeepsLists(existing: seq<Network>, requested: seq<Network>)
    requires OneEach(existing) && OneEach(requested) && AllPreferred(requested)
    ensures var m := MergedInto(existing, requested);
            && OneEach(m)
            && (forall s :: HasSsid(m, s) <==> HasSsid(existing, s) || HasSsid(requested, s))
            && (forall i :: 0 <= i < |m| ==> (m[i].preferred <==> HasSsid(requested, m[i].ssid)))
            && (forall i :: 0 <= i < |m| && HasSsid(requested, m[i].ssid) ==> m[i] in requested)
  {
    var m := MergedInto(existing, requested);
    MergedOneEach(existing, requested);
    forall i | 0 <= i < |m|
      ensures m[i].preferred <==> HasSsid(requested, m[i].ssid)
      ensures HasSsid(requested, m[i].ssid) ==> m[i] in requested
    {
      MergedAt(existing, requested, i);
    }
    forall s
      ensures HasSsid(m, s) <==> HasSsid(existing, s) || HasSsid(requested, s)
    {
      if HasSsid(existing, s) || HasSsid(requested, s) {
        MergeHas(existing, requested, s);
      }
      if HasSsid(m, s) {
        MergeHasOnly(existing, requested, s);
      }
    }
  }

  lemma {:induction false} MergeHas(existing: seq<Network>, requested: seq<Network>, s: string)
    requires OneEach(existing) && OneEach(requested) && (HasSsid(existing, s) || HasSsid(requested, s))
    ensures HasSsid(MergedInto(existing, requested), s)
  {
    if HasSsid(existing, s) {
      var i :| 0 <= i < |existing| && existing[i].ssid == s;
      MergedFront(existing, requested, i);
      FindIffHas(requested, s);
      assert MergedInto(existing, requested)[i].ssid == s;
    } else {
      MergeHasNew(existing, requested, s);
    }
  }

  lemma {:induction false} MergeHasNew(existing: seq<Network>, requested: seq<Network>, s: string)
    requires OneEach(existing) && OneEach(requested) && !HasSsid(existing, s) && HasSsid(requested, s)
    ensures HasSsid(MergedInto(existing, requested), s)
  {
    var m := MergedInto(existing, requested);
    var n := |existing|;
    MergedTail(existing, requested);
    MissingContents(existing, requested);
    var i :| 0 <= i < |requested| && requested[i].ssid == s;
    var j :| 0 <= j < |m[n..]| && m[n..][j] == requested[i];
    assert m[n + j].ssid == s;
  }

  lemma {:induction false} MergeHasOnly(existing: seq<Network>, requested: seq<Network>, s: string)
    requires OneEach(existing) && OneEach(requested) && HasSsid(MergedInto(existing, requested), s)
    ensures HasSsid(existing, s) || HasSsid(requested, s)
  {
    var m := MergedInto(existing, requested);
    var i :| 0 <= i < |m| && m[i].ssid == s;
    MergedAt(existing, requested, i);
    if i >= |existing| {
      HasIntro(requested, m[i]);
    }
  }

  lemma {:induction false} NoneMissing(existing: seq<Network>, requested: seq<Network>)
    requires forall i :: 0 <= i < |requested| ==> HasSsid(existing, requested[i].ssid)
    ensures Missing(existing, requested) == []
    decreases |requested|
  {
    if requested != [] {
      assert forall i :: 0 < i < |requested| ==> requested[i] == requested[1..][i - 1];
      NoneMissing(existing, requested[1..]);
    }
  }

  lemma {:induction false} ReplacedSelf(existing: seq<Network>, requested: seq<Network>, i: nat)
    requires OneEach(existing) && OneEach(requested) && i < |MergedInto(existing, requested)|
    ensures Replaced(MergedInto(existing, requested)[i], requested) == MergedInto(existing, requested)[i]
  {
    var n := MergedInto(existing, requested)[i];
    MergedAt(existing, requested, i);
    FindIffHas(requested, n.ssid);
    if HasSsid(requested, n.ssid) {
      var k :| 0 <= k < |requested| && requested[k] == n;
      assert Find(requested, n.ssid) == k;
    }
  }

  /** Asking again for the same networks changes nothing. */
  lemma {:induction false} MergeIdempotent(existing: seq<Network>, requested: seq<Network>)
    requires OneEach(existing) && OneEach(requested)
    ensures var m := MergedInto(existing, requested); MergedInto(m, requested) == m
  {
    var m := MergedInto(existing, requested);
    MergedOneEach(existing, requested);
    forall i | 0 <= i < |requested|
      ensures HasSsid(m, requested[i].ssid)
    {
      MergeHas(existing, requested, requested[i].ssid);
    }
    NoneMissing(m, requested);
    MergeClosedForm(m, requested);
    forall i | 0 <= i < |m|
      ensures MergedInto(m, requested)[i] == m[i]
    {
      ReplacedSelf(existing, requested, i);
    }
  }

  /** A sequence of explicit requests, merged one after the other. */
  ghost function MergedAll(existing: seq<Network>, requests: seq<seq<Network>>): seq<Network> {
    if requests == [] then existing
    else MergedInto(MergedAll(existing, requests[..|requests| - 1]), requests[|requests| - 1])
  }

  ghost predicate Asked(requests: seq<seq<Network>>, s: string) {
    exists k :: 0 <= k < |requests| && HasSsid(requests[k], s)
  }

  lemma {:induction false} AskedLast(requests: seq<seq<Network>>, s: string)
    requires requests != []
    ensures Asked(requests, s) <==> Asked(requests[..|requests| - 1], s) || HasSsid(requests[|requests| - 1], s)
  {
  }

  /** Over any sequence of explicit requests no SSID is lost, none is repeated, and the preferred ones are those of the
      last request. */
  lemma {:induction false} RequestsKeepEverything(existing: seq<Network>, requests: seq<seq<Network>>)
    requires OneEach(existing) && forall k :: 0 <= k < |requests| ==> OneEach(requests[k]) && AllPreferred(requests[k])
    ensures var m := MergedAll(existing, requests);
            && OneEach(m)
            && (forall s :: HasSsid(m, s) <==> HasSsid(existing, s) || Asked(requests, s))
            && (requests != [] ==>
                  forall i :: 0 <= i < |m| ==> (m[i].preferred <==> HasSsid(requests[|requests| - 1], m[i].ssid)))
    decreases |requests|
  {
    if requests != [] {
      var before := requests[..|requests| - 1];
      RequestsKeepEverything(existing, before);
      MergeKeepsLists(MergedAll(existing, before), requests[|requests| - 1]);
      forall s
        ensures Asked(requests, s) <==> Asked(before, s) || HasSsid(requests[|requests| - 1], s)
      {
        AskedLast(requests, s);
      }
    }
  }

  // ---------------------------------------------------------------- the same saved configuration

  function SavedAll(ns: seq<Network>): (r: seq<Network>)
    ensures |r| == |ns|
  {
    seq(|ns|, i requires 0 <= i < |ns| => Saved(ns[i]))
  }

  /** The entries not matched yet. */
  ghost function Unmatched(ns: seq<Network>, matched: seq<bool>): multiset<Network>
    requires |ns| == |matched|
  {
    if ns == [] then multiset{}
    else Unmatched(ns[..|ns| - 1], matched[..|ns| - 1])
         + if matched[|ns| - 1] then multiset{} else multiset{ns[|ns| - 1]}
  }

  lemma {:induction false} UnmatchedAll(ns: seq<Network>, matched: seq<bool>)
    requires |ns| == |matched| && forall i :: 0 <= i < |ns| ==> !matched[i]
    ensures Unmatched(ns, matched) == multiset(ns)
    decreases |ns|
  {
    if ns != [] {
      UnmatchedAll(ns[..|ns| - 1], matched[..|ns| - 1]);
      assert ns == ns[..|ns| - 1] + [ns[|ns| - 1]];
    }
  }

  lemma {:induction false} MatchOne(ns: seq<Network>, matched: seq<bool>, k: nat)
    requires |ns| == |matched| && k < |ns| && !matched[k]
    ensures Unmatched(ns, matched) == Unmatched(ns, matched[k := true]) + multiset{ns[k]}
    decreases |ns|
  {
    var m' := matched[k := true];
    var n := |ns| - 1;
    if k < n {
      MatchOne(ns[..n], matched[..n], k);
      assert m'[..n] == matched[..n][k := true];
    } else {
      assert m'[..n] == matched[..n];
    }
  }

  lemma {:induction false} UnmatchedMember(ns: seq<Network>, matched: seq<bool>, x: Network)
    requires |ns| == |matched| && x in Unmatched(ns, matched)
    ensures exists k :: 0 <= k < |ns| && !matched[k] && ns[k] == x
    decreases |ns|
  {
    var n := |ns| - 1;
    if x in Unmatched(ns[..n], matched[..n]) {
      UnmatchedMember(ns[..n], matched[..n], x);
      var k :| 0 <= k < n && !matched[..n][k] && ns[..n][k] == x;
      assert !matched[k] && ns[k] == x;
    } else {
      assert !matched[n] && ns[n] == x;
    }
  }

  lemma {:induction false} TooMany(ns: seq<Network>, i: nat, left: multiset<Network>, all: multiset<Network>)
    requires i < |ns| && multiset(ns[..i]) + left == all && ns[i] !in left
    ensures multiset(ns) != all
  {
    assert ns == ns[..i] + [ns[i]] + ns[i + 1..];
    assert multiset(ns)[ns[i]] >= multiset(ns[..i])[ns[i]] + 1;
    assert all[ns[i]] == multiset(ns[..i])[ns[i]];
  }

  /** The first entry equal to `x` that is not taken yet. */
  method FirstFree(ds: seq<Network>, matched: array<bool>, x: Network) returns (k: nat)
    requires matched.Length == |ds|
    ensures k <= |ds| && (k < |ds| ==> !matched[k] && ds[k] == x)
    ensures k == |ds| ==> x !in Unmatched(ds, matched[..])
  {
    k := 0;
    while k < |ds| && (matched[k] || ds[k] != x)
      invariant 0 <= k <= |ds|
      invariant forall j :: 0 <= j < k ==> matched[j] || ds[j] != x
    {
      k := k + 1;
    }
    if k == |ds| && x in Unmatched(ds, matched[..]) {
      UnmatchedMember(ds, matched[..], x);
      assert false;
    }
  }

  /** Take one free entry equal to `x`, if there is one. */
  method TakeOne(ds: seq<Network>, matched: array<bool>, x: Network) returns (found: bool)
    requires matched.Length == |ds|
    modifies matched
    ensures found ==> Unmatched(ds, old(matched[..])) == Unmatched(ds, matched[..]) + multiset{x}
    ensures !found ==> x !in Unmatched(ds, matched[..]) && matched[..] == old(matched[..])
  {
    var k := FirstFree(ds, matched, x);
    if k == |ds| {
      return false;
    }
    MatchOne(ds, matched[..], k);
    matched[k] := true;
    assert matched[..] == old(matched[..])[k := true];
    return true;
  }

  /** Greedy matching of two lists of the same length decides equality as multisets. */
  method MatchAll(cs: seq<Network>, ds: seq<Network>) returns (same: bool)
    requires |cs| == |ds|
    ensures same <==> multiset(cs) == multiset(ds)
  {
    var matched := new bool[|ds|](i => false);
    UnmatchedAll(ds, matched[..]);
    var i := 0;
    ghost var left := multiset(ds);
    assert cs[..0] == [] && multiset(cs[..0]) == multiset{};
    while i < |cs|
      invariant 0 <= i <= |cs|
      invariant left == Unmatched(ds, matched[..]) && multiset(cs[..i]) + left == multiset(ds)
    {
      var found := TakeOne(ds, matched, cs[i]);
      if !found {
        TooMany(cs, i, left, multiset(ds));
        return false;
      }
      Moved(cs, i, left, Unmatched(ds, matched[..]), multiset(ds));
      left := Unmatched(ds, matched[..]);
      i := i + 1;
    }
    assert cs[..i] == cs;
    SameSize(cs, ds, left);
    return true;
  }

  lemma {:induction false} Moved(cs: seq<Network>, i: nat, left: multiset<Network>, left': multiset<Network>,
                                 all: multiset<Network>)
    requires i < |cs| && multiset(cs[..i]) + left == all && left == left' + multiset{cs[i]}
    ensures multiset(cs[..i + 1]) + left' == all
  {
    assert cs[..i + 1] == cs[..i] + [cs[i]];
    assert multiset(cs[..i + 1]) == multiset(cs[..i]) + multiset{cs[i]};
  }

  lemma {:induction false} SameSize(cs: seq<Network>, ds: seq<Network>, left: multiset<Network>)
    requires |cs| == |ds| && multiset(cs) + left == multiset(ds)
    ensures multiset(cs) == multiset(ds)
  {
  }

  /** The two lists carry the same saved configuration: equal as multisets, preference and hints erased. */
  method SameSavedNetworks(current: seq<Network>, desired: seq<Network>) returns (same: bool)
    ensures same <==> SameSaved(current, desired)
  {
    if |current| != |desired| {
      assert |multiset(SavedAll(current))| == |current| && |multiset(SavedAll(desired))| == |desired|;
      return false;
    }
    same := MatchAll(SavedAll(current), SavedAll(desired));
  }

  ghost predicate SameSaved(a: seq<Network>, b: seq<Network>) {
    multiset(SavedAll(a)) == multiset(SavedAll(b))
  }

  /** Marking networks preferred or refreshing their hints is not a change of the saved configuration. */
  lemma {:induction false} PreferenceIsNoChange(a: seq<Network>, b: seq<Network>)
    requires |a| == |b| && forall i :: 0 <= i < |a| ==> b[i] == a[i].(preferred := b[i].preferred, hints := b[i].hints)
    ensures SameSaved(a, b)
  {
    assert SavedAll(a) == SavedAll(b);
  }

  /** Lists that count as the same have, for each network of one, a network of the other with the same SSID, hidden
      flag, password and pinned access point. */
  lemma {:induction false} SameSavedSettings(a: seq<Network>, b: seq<Network>, i: nat)
    requires SameSaved(a, b) && i < |a|
    ensures exists j :: 0 <= j < |b| && b[j].ssid == a[i].ssid && b[j].hidden == a[i].hidden
                        && b[j].password == a[i].password && b[j].bssid == a[i].bssid
  {
    assert SavedAll(a)[i] in multiset(SavedAll(a));
    assert SavedAll(a)[i] in multiset(SavedAll(b));
    var j :| 0 <= j < |SavedAll(b)| && SavedAll(b)[j] == SavedAll(a)[i];
    assert Saved(b[j]) == Saved(a[i]);
  }

  lemma {:induction false} SavedWithout(a: seq<Network>, j: nat)
    requires j < |a|
    ensures multiset(SavedAll(a)) == multiset(SavedAll(Without(a, j))) + multiset{Saved(a[j])}
    ensures multiset(a) == multiset(Without(a, j)) + multiset{a[j]}
  {
    assert a == a[..j] + [a[j]] + a[j + 1..];
    assert SavedAll(a) == SavedAll(a[..j]) + [Saved(a[j])] + SavedAll(a[j + 1..]);
    assert SavedAll(Without(a, j)) == SavedAll(a[..j]) + SavedAll(a[j + 1..]);
  }

  /** No reordering is a change either. */
  lemma {:induction false} OrderIsNoChange(a: seq<Network>, b: seq<Network>)
    requires multiset(a) == multiset(b)
    ensures SameSaved(a, b)
    decreases |a|
  {
    if a == [] {
      assert |multiset(b)| == |b|;
    } else {
      assert a[0] in multiset(b);
      var j :| 0 <= j < |b| && b[j] == a[0];
      SavedWithout(a, 0);
      SavedWithout(b, j);
      assert multiset(Without(a, 0)) == multiset(a) - multiset{a[0]};
      assert multiset(Without(b, j)) == multiset(b) - multiset{b[j]};
      OrderIsNoChange(Without(a, 0), Without(b, j));
    }
  }

  /** Freshly loaded hints are copied into the stored list by SSID; nothing else changes. */
  method RefreshHints(current: seq<Network>, desired: seq<Network>) returns (r: seq<Network>)
    ensures |r| == |current|
    ensures forall i :: 0 <= i < |r| ==>
              r[i] == current[i].(hints := if HasSsid(desired, current[i].ssid)
                                           then desired[Find(desired, current[i].ssid)].hints
                                           else current[i].hints)
  {
    r := [];
    while |r| < |current|
      invariant |r| <= |current|
      invariant forall i :: 0 <= i < |r| ==>
                  r[i] == current[i].(hints := if HasSsid(desired, current[i].ssid)
                                               then desired[Find(desired, current[i].ssid)].hints
                                               else current[i].hints)
      decreases |current| - |r|
    {
      var n := current[|r|];
      var k := Locate(desired, n.ssid);
      FindIffHas(desired, n.ssid);
      r := r + [if k < |desired| then n.(hints := desired[k].hints) else n];
    }
  }
}
