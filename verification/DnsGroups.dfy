/**
 The DNS cache's upstream groups: groups learned from DHCP are merged into the configured ones, and the result is
 handed to the cache server as a map by group name.

 Lower-casing a domain and parsing a nameserver are arbitrary functions here; a parsed nameserver is its canonical text.
 */
module DnsGroups {
  import opened Base

  datatype Group = Group(name: string, domains: seq<string>, servers: seq<string>, disableIpv6: bool, fromDhcp: bool)

  /** A group learned from DHCP, as configured text. */
  datatype AutoGroup = AutoGroup(name: string, domains: seq<string>, nameservers: seq<string>, disableIpv6: bool)

  datatype Result = Ok(groups: seq<Group>) | Err(nameserver: string)

  // ---------------------------------------------------------------- reading a learned group

  ghost predicate Parses(a: AutoGroup, parse: string -> Option<string>) {
    forall i :: 0 <= i < |a.nameservers| ==> parse(a.nameservers[i]).Some?
  }

  ghost function Read(a: AutoGroup, lower: string -> string, parse: string -> Option<string>): Group
    requires Parses(a, parse)
  {
    Group(a.name,
          seq(|a.domains|, i requires 0 <= i < |a.domains| => lower(a.domains[i])),
          seq(|a.nameservers|, i requires 0 <= i < |a.nameservers| => parse(a.nameservers[i]).value),
          a.disableIpv6, true)
  }

  ghost predicate AllParse(autos: seq<AutoGroup>, parse: string -> Option<string>) {
    forall k :: 0 <= k < |autos| ==> Parses(autos[k], parse)
  }

  ghost function ReadAll(autos: seq<AutoGroup>, lower: string -> string, parse: string -> Option<string>)
    : (r: seq<Group>)
    requires AllParse(autos, parse)
    ensures |r| == |autos|
  {
    seq(|autos|, k requires 0 <= k < |autos| => Read(autos[k], lower, parse))
  }

  method ReadGroup(a: AutoGroup, lower: string -> string, parse: string -> Option<string>)
    returns (g: Group, bad: Option<string>)
    ensures bad.None? <==> Parses(a, parse)
    ensures bad.None? ==> g == Read(a, lower, parse)
  {
    var domains := seq(|a.domains|, i requires 0 <= i < |a.domains| => lower(a.domains[i]));
    var servers := [];
    g := Group(a.name, domains, servers, a.disableIpv6, true);
    while |servers| < |a.nameservers|
      invariant |servers| <= |a.nameservers|
      invariant forall i :: 0 <= i < |servers| ==> parse(a.nameservers[i]) == Some(servers[i])
      decreases |a.nameservers| - |servers|
    {
      var p := parse(a.nameservers[|servers|]);
      if p.None? {
        return g, Some(a.nameservers[|servers|]);
      }
      servers := servers + [p.value];
    }
    return g.(servers := servers), None;
  }

  // ---------------------------------------------------------------- merging

  /** `xs` followed by the elements of `ys` it lacks, each once. */
  function AppendMissing(xs: seq<string>, ys: seq<string>): (r: seq<string>)
    ensures xs <= r
    ensures forall x :: x in r <==> x in xs || x in ys
    ensures forall i, j :: |xs| <= i < |r| && 0 <= j < i ==> r[j] != r[i]
  {
    if ys == [] then xs
    else
      var before := AppendMissing(xs, ys[..|ys| - 1]);
      assert ys == ys[..|ys| - 1] + [ys[|ys| - 1]];
      if ys[|ys| - 1] in before then before else before + [ys[|ys| - 1]]
  }

  method AppendEach(xs: seq<string>, ys: seq<string>) returns (r: seq<string>)
    ensures r == AppendMissing(xs, ys)
  {
    r := xs;
    var i := 0;
    while i < |ys|
      invariant 0 <= i <= |ys|
      invariant r == AppendMissing(xs, ys[..i])
    {
      assert ys[..i + 1][..i] == ys[..i] && ys[..i + 1][i] == ys[i];
      if ys[i] !in r {
        r := r + [ys[i]];
      }
      i := i + 1;
    }
    assert ys[..i] == ys;
  }

  predicate Share(g: Group, a: Group) {
    exists d :: d in g.domains && d in a.domains
  }

  function Absorb(g: Group, a: Group): Group {
    g.(servers := AppendMissing(g.servers, a.servers), domains := AppendMissing(g.domains, a.domains))
  }

  function FirstSharing(gs: seq<Group>, a: Group): (i: nat)
    ensures i <= |gs| && (i < |gs| ==> Share(gs[i], a))
    ensures forall j :: 0 <= j < i ==> !Share(gs[j], a)
  {
    if gs == [] || Share(gs[0], a) then 0 else 1 + FirstSharing(gs[1..], a)
  }

  function FirstNamed(gs: seq<Group>, name: string): (i: nat)
    ensures i <= |gs| && (i < |gs| ==> gs[i].name == name)
    ensures forall j :: 0 <= j < i ==> gs[j].name != name
  {
    if gs == [] || gs[0].name == name then 0 else 1 + FirstNamed(gs[1..], name)
  }

  /** Where a learned group goes: the first group sharing a domain, else the one with its name, else the end. */
  function Place(gs: seq<Group>, a: Group): (i: nat)
    ensures i <= |gs|
  {
    var i := FirstSharing(gs, a);
    if i < |gs| then i else FirstNamed(gs, a.name)
  }

  function MergeOne(gs: seq<Group>, a: Group): seq<Group> {
    var i := Place(gs, a);
    if i < |gs| then gs[i := Absorb(gs[i], a)] else gs + [a]
  }

  ghost function Merged(gs: seq<Group>, autos: seq<Group>): seq<Group> {
    if autos == [] then gs else MergeOne(Merged(gs, autos[..|autos| - 1]), autos[|autos| - 1])
  }

  method Find(gs: seq<Group>, a: Group) returns (i: nat)
    ensures i == Place(gs, a)
  {
    i := 0;
    while i < |gs| && !Share(gs[i], a)
      invariant 0 <= i <= |gs|
      invariant forall j :: 0 <= j < i ==> !Share(gs[j], a)
    {
      i := i + 1;
    }
    if i < |gs| {
      return;
    }
    i := 0;
    while i < |gs| && gs[i].name != a.name
      invariant 0 <= i <= |gs|
      invariant forall j :: 0 <= j < i ==> gs[j].name != a.name
    {
      i := i + 1;
    }
  }

  /** Put one learned group where it belongs. */
  method InsertGroup(gs: seq<Group>, a: Group) returns (r: seq<Group>)
    ensures r == MergeOne(gs, a)
  {
    var i := Find(gs, a);
    if i < |gs| {
      var servers := AppendEach(gs[i].servers, a.servers);
      var domains := AppendEach(gs[i].domains, a.domains);
      r := gs[i := gs[i].(servers := servers, domains := domains)];
    } else {
      r := gs + [a];
    }
  }

  lemma {:induction false} ReadNext(autos: seq<AutoGroup>, k: nat, lower: string -> string,
                                    parse: string -> Option<string>)
    requires k < |autos| && AllParse(autos[..k], parse) && Parses(autos[k], parse)
    ensures AllParse(autos[..k + 1], parse)
    ensures ReadAll(autos[..k + 1], lower, parse) == ReadAll(autos[..k], lower, parse) + [Read(autos[k], lower, parse)]
  {
  }

  lemma {:induction false} MergedNext(gs: seq<Group>, autos: seq<Group>, a: Group)
    ensures Merged(gs, autos + [a]) == MergeOne(Merged(gs, autos), a)
  {
  }

  method MergeGroups(statics: seq<Group>, autos: seq<AutoGroup>, lower: string -> string,
                     parse: string -> Option<string>)
    returns (r: Result)
    ensures r.Ok? <==> AllParse(autos, parse)
    ensures r.Ok? ==> r.groups == Merged(statics, ReadAll(autos, lower, parse))
  {
    var gs := statics;
    var k := 0;
    while k < |autos|
      invariant 0 <= k <= |autos|
      invariant AllParse(autos[..k], parse)
      invariant gs == Merged(statics, ReadAll(autos[..k], lower, parse))
    {
      var a, bad := ReadGroup(autos[k], lower, parse);
      if bad.Some? {
        return Err(bad.value);
      }
      ReadNext(autos, k, lower, parse);
      MergedNext(statics, ReadAll(autos[..k], lower, parse), a);
      gs := InsertGroup(gs, a);
      k := k + 1;
    }
    assert autos[..k] == autos;
    return Ok(gs);
  }

  // ---------------------------------------------------------------- nothing is lost or invented

  /** Group `h` is group `g` with things appended. */
  ghost predicate Extends(h: Group, g: Group) {
    && h.name == g.name && h.disableIpv6 == g.disableIpv6 && h.fromDhcp == g.fromDhcp
    && g.domains <= h.domains && g.servers <= h.servers
  }

  /** Group `g` holds every domain and every server of `a`. */
  ghost predicate Holds(g: Group, a: Group) {
    && (forall d :: d in a.domains ==> d in g.domains)
    && (forall s :: s in a.servers ==> s in g.servers)
  }

  lemma {:induction false} ExtendsHolds(h: Group, g: Group, a: Group)
    requires Extends(h, g) && Holds(g, a)
    ensures Holds(h, a)
  {
  }

  lemma {:induction false} MergeOneExtends(gs: seq<Group>, a: Group)
    ensures |gs| <= |MergeOne(gs, a)| && forall i :: 0 <= i < |gs| ==> Extends(MergeOne(gs, a)[i], gs[i])
    ensures Place(gs, a) < |MergeOne(gs, a)| && Holds(MergeOne(gs, a)[Place(gs, a)], a)
  {
  }

  /** Every configured group keeps its place, name, flags and its own servers and domains, in front. */
  lemma {:induction false} StaticsKept(statics: seq<Group>, autos: seq<Group>, i: nat)
    requires i < |statics|
    ensures |statics| <= |Merged(statics, autos)|
    ensures Extends(Merged(statics, autos)[i], statics[i])
    decreases |autos|
  {
    if autos != [] {
      StaticsKept(statics, autos[..|autos| - 1], i);
      MergeOneExtends(Merged(statics, autos[..|autos| - 1]), autos[|autos| - 1]);
    }
  }

  /** The domains and servers of each learned group end up together in one group. */
  lemma {:induction false} AutosKept(statics: seq<Group>, autos: seq<Group>, k: nat) returns (i: nat)
    requires k < |autos|
    ensures i < |Merged(statics, autos)| && Holds(Merged(statics, autos)[i], autos[k])
    decreases |autos|
  {
    var before := Merged(statics, autos[..|autos| - 1]);
    MergeOneExtends(before, autos[|autos| - 1]);
    if k == |autos| - 1 {
      i := Place(before, autos[k]);
    } else {
      i := AutosKept(statics, autos[..|autos| - 1], k);
      ExtendsHolds(Merged(statics, autos)[i], before[i], autos[k]);
    }
  }

  ghost predicate Mentions(gs: seq<Group>, d: string) {
    exists i :: 0 <= i < |gs| && d in gs[i].domains
  }

  ghost predicate Uses(gs: seq<Group>, s: string) {
    exists i :: 0 <= i < |gs| && s in gs[i].servers
  }

  lemma {:induction false} MergeOneContents(gs: seq<Group>, a: Group)
    ensures forall d :: Mentions(MergeOne(gs, a), d) <==> Mentions(gs, d) || d in a.domains
    ensures forall s :: Uses(MergeOne(gs, a), s) <==> Uses(gs, s) || s in a.servers
  {
    var r := MergeOne(gs, a);
    var p := Place(gs, a);
    assert forall i :: 0 <= i < |gs| && i != p ==> r[i] == gs[i];
    forall d
      ensures Mentions(r, d) <==> Mentions(gs, d) || d in a.domains
    {
      if i :| 0 <= i < |gs| && d in gs[i].domains {
        assert d in r[i].domains;
      }
      if d in a.domains {
        assert d in r[p].domains;
      }
    }
    forall s
      ensures Uses(r, s) <==> Uses(gs, s) || s in a.servers
    {
      if i :| 0 <= i < |gs| && s in gs[i].servers {
        assert s in r[i].servers;
      }
      if s in a.servers {
        assert s in r[p].servers;
      }
    }
  }

  /** The merged groups mention exactly the domains and servers of the configured and the learned ones. */
  lemma {:induction false} MergedContents(statics: seq<Group>, autos: seq<Group>)
    ensures forall d :: Mentions(Merged(statics, autos), d) <==> Mentions(statics, d) || Mentions(autos, d)
    ensures forall s :: Uses(Merged(statics, autos), s) <==> Uses(statics, s) || Uses(autos, s)
    decreases |autos|
  {
    if autos != [] {
      var before, last := autos[..|autos| - 1], autos[|autos| - 1];
      MergedContents(statics, before);
      MergeOneContents(Merged(statics, before), last);
      assert autos == before + [last];
      forall d
        ensures Mentions(autos, d) <==> Mentions(before, d) || d in last.domains
      {
        SplitLast(autos, d);
      }
      forall s
        ensures Uses(autos, s) <==> Uses(before, s) || s in last.servers
      {
        SplitLastServer(autos, s);
      }
    }
  }

  lemma {:induction false} SplitLast(gs: seq<Group>, d: string)
    requires gs != []
    ensures Mentions(gs, d) <==> Mentions(gs[..|gs| - 1], d) || d in gs[|gs| - 1].domains
  {
  }

  lemma {:induction false} SplitLastServer(gs: seq<Group>, s: string)
    requires gs != []
    ensures Uses(gs, s) <==> Uses(gs[..|gs| - 1], s) || s in gs[|gs| - 1].servers
  {
  }

  // ---------------------------------------------------------------- the map handed to the cache server

  ghost predicate NamesDistinct(gs: seq<Group>) {
    forall i, j :: 0 <= i < j < |gs| ==> gs[i].name != gs[j].name
  }

  /** Merging brings in no second group of the same name. */
  lemma {:induction false} MergedNames(statics: seq<Group>, autos: seq<Group>)
    ensures NamesDistinct(Merged(statics, autos)) <==> NamesDistinct(statics)
    decreases |autos|
  {
    if autos != [] {
      MergedNames(statics, autos[..|autos| - 1]);
      MergeOneNames(Merged(statics, autos[..|autos| - 1]), autos[|autos| - 1]);
    }
  }

  lemma {:induction false} MergeOneNames(gs: seq<Group>, a: Group)
    ensures NamesDistinct(MergeOne(gs, a)) <==> NamesDistinct(gs)
  {
    var r := MergeOne(gs, a);
    assert forall i :: 0 <= i < |gs| ==> r[i].name == gs[i].name;
  }

  ghost function ByName(gs: seq<Group>): map<string, Group> {
    if gs == [] then map[] else ByName(gs[..|gs| - 1])[gs[|gs| - 1].name := gs[|gs| - 1]]
  }

  method CacheGroups(gs: seq<Group>) returns (m: map<string, Group>)
    ensures m == ByName(gs)
  {
    m := map[];
    var i := 0;
    while i < |gs|
      invariant 0 <= i <= |gs|
      invariant m == ByName(gs[..i])
    {
      assert gs[..i + 1][..i] == gs[..i] && gs[..i + 1][i] == gs[i];
      m := m[gs[i].name := gs[i]];
      i := i + 1;
    }
    assert gs[..i] == gs;
  }

  lemma {:induction false} ByNameKeys(gs: seq<Group>)
    ensures forall n :: n in ByName(gs) <==> exists i :: 0 <= i < |gs| && gs[i].name == n
    decreases |gs|
  {
    if gs != [] {
      var before := gs[..|gs| - 1];
      ByNameKeys(before);
      forall n
        ensures n in ByName(gs) <==> exists i :: 0 <= i < |gs| && gs[i].name == n
      {
        if n in ByName(before) {
          var i :| 0 <= i < |before| && before[i].name == n;
          assert gs[i].name == n;
        }
        if i :| 0 <= i < |gs| && gs[i].name == n {
          assert i < |before| ==> before[i].name == n;
        }
      }
    }
  }

  lemma {:induction false} OneMore(m: map<string, Group>, n: string, g: Group)
    ensures |m[n := g]| == if n in m then |m| else |m| + 1
  {
  }

  /** The map holds every group exactly when no two groups have the same name. */
  lemma {:induction false} NoGroupLostExactlyWhen(gs: seq<Group>)
    ensures |ByName(gs)| == |gs| <==> NamesDistinct(gs)
    ensures |ByName(gs)| <= |gs|
    decreases |gs|
  {
    if gs != [] {
      var before, last := gs[..|gs| - 1], gs[|gs| - 1];
      NoGroupLostExactlyWhen(before);
      ByNameKeys(before);
      NamesSplit(gs);
      OneMore(ByName(before), last.name, last);
      if i :| 0 <= i < |before| && before[i].name == last.name {
        assert gs[i].name == last.name;
      } else {
        assert forall i :: 0 <= i < |gs| - 1 ==> before[i] == gs[i];
      }
    }
  }

  /** Then each group is found under its name. */
  lemma {:induction false} FoundByName(gs: seq<Group>, i: nat)
    requires NamesDistinct(gs) && i < |gs|
    ensures gs[i].name in ByName(gs) && ByName(gs)[gs[i].name] == gs[i]
    decreases |gs|
  {
    if i < |gs| - 1 {
      NamesSplit(gs);
      FoundByName(gs[..|gs| - 1], i);
    }
  }

  lemma {:induction false} NamesSplit(gs: seq<Group>)
    requires gs != []
    ensures NamesDistinct(gs) <==>
              NamesDistinct(gs[..|gs| - 1]) && forall i :: 0 <= i < |gs| - 1 ==> gs[i].name != gs[|gs| - 1].name
  {
  }

  // ---------------------------------------------------------------- one group per domain

  /** No domain in two groups. */
  ghost predicate DomainsApart(gs: seq<Group>) {
    forall i, j :: 0 <= i < j < |gs| ==> !Share(gs[i], gs[j])
  }

  /** A learned group shares domains with at most one of the groups. */
  ghost predicate TouchesOne(gs: seq<Group>, a: Group) {
    forall i, j :: 0 <= i < j < |gs| ==> !(Share(gs[i], a) && Share(gs[j], a))
  }

  lemma {:induction false} AbsorbShares(g: Group, a: Group, h: Group)
    ensures Share(Absorb(g, a), h) <==> Share(g, h) || Share(a, h)
    ensures Share(h, Absorb(g, a)) <==> Share(h, g) || Share(h, a)
  {
  }

  lemma {:induction false} ApartForward(gs: seq<Group>, a: Group)
    requires DomainsApart(gs) && TouchesOne(gs, a)
    ensures DomainsApart(MergeOne(gs, a))
  {
  }

  lemma {:induction false} ApartElsewhere(gs: seq<Group>, a: Group, i: nat)
    requires DomainsApart(MergeOne(gs, a)) && i < |gs| && i != Place(gs, a)
    ensures !Share(gs[i], a)
  {
    var r := MergeOne(gs, a);
    var p := FirstSharing(gs, a);
    if p < i {
      assert !Share(r[p], r[i]);
      AbsorbShares(gs[p], a, gs[i]);
      assert !Share(a, gs[i]);
    }
  }

  lemma {:induction false} ApartBackward(gs: seq<Group>, a: Group)
    requires DomainsApart(MergeOne(gs, a))
    ensures DomainsApart(gs) && TouchesOne(gs, a)
  {
    var r := MergeOne(gs, a);
    var p := Place(gs, a);
    forall i, j | 0 <= i < j < |gs|
      ensures !Share(gs[i], gs[j])
      ensures !(Share(gs[i], a) && Share(gs[j], a))
    {
      assert !Share(r[i], r[j]);
      if i == p {
        AbsorbShares(gs[p], a, gs[j]);
        ApartElsewhere(gs, a, j);
      } else {
        ApartElsewhere(gs, a, i);
        if j == p {
          AbsorbShares(gs[p], a, gs[i]);
        }
      }
    }
  }

  /** Each learned group, when its turn comes, shares domains with at most one group. */
  ghost predicate EachTouchesOne(statics: seq<Group>, autos: seq<Group>) {
    autos != [] ==>
      var before := autos[..|autos| - 1];
      EachTouchesOne(statics, before) && TouchesOne(Merged(statics, before), autos[|autos| - 1])
  }

  /** Merging keeps the groups' domains apart exactly when they were apart and each learned group touches at most
      one. */
  lemma {:induction false} DomainsApartExactlyWhen(statics: seq<Group>, autos: seq<Group>)
    ensures DomainsApart(Merged(statics, autos)) <==> DomainsApart(statics) && EachTouchesOne(statics, autos)
    decreases |autos|
  {
    if autos != [] {
      var before, last := autos[..|autos| - 1], autos[|autos| - 1];
      DomainsApartExactlyWhen(statics, before);
      if DomainsApart(Merged(statics, autos)) {
        ApartBackward(Merged(statics, before), last);
      } else if DomainsApart(Merged(statics, before)) && TouchesOne(Merged(statics, before), last) {
        ApartForward(Merged(statics, before), last);
      }
    }
  }

  /** A group that shares no domain with the learned ones only meets configured groups. */
  lemma {:induction false} MeetsStatics(statics: seq<Group>, autos: seq<Group>, a: Group, i: nat)
    requires (forall k :: 0 <= k < |autos| ==> !Share(autos[k], a)) && i < |Merged(statics, autos)|
    requires Share(Merged(statics, autos)[i], a)
    ensures i < |statics| && Share(statics[i], a)
    decreases |autos|
  {
    if autos != [] {
      var before, last := autos[..|autos| - 1], autos[|autos| - 1];
      var gs := Merged(statics, before);
      if i == Place(gs, last) && i < |gs| {
        AbsorbShares(gs[i], last, a);
      }
      MeetsStatics(statics, before, a, i);
    }
  }

  /** In particular when the configured groups are apart, the learned ones are apart, and each learned one shares
      domains with at most one configured group. */
  lemma {:induction false} DomainsStayApart(statics: seq<Group>, autos: seq<Group>)
    requires DomainsApart(statics) && DomainsApart(autos)
    requires forall k :: 0 <= k < |autos| ==> TouchesOne(statics, autos[k])
    ensures DomainsApart(Merged(statics, autos))
    decreases |autos|
  {
    if autos != [] {
      var before, last := autos[..|autos| - 1], autos[|autos| - 1];
      assert forall k :: 0 <= k < |before| ==> before[k] == autos[k];
      DomainsStayApart(statics, before);
      var gs := Merged(statics, before);
      forall i, j | 0 <= i < j < |gs|
        ensures !(Share(gs[i], last) && Share(gs[j], last))
      {
        if Share(gs[i], last) && Share(gs[j], last) {
          MeetsStatics(statics, before, last, i);
          MeetsStatics(statics, before, last, j);
          assert false;
        }
      }
      ApartForward(gs, last);
    }
  }

  /** Learned groups that share a domain are not always merged into one: a third one bridging two of them joins the
      first, and its other domain is then in both. */
  lemma {:induction false} BridgeSplitsDomain(a: string, b: string, n1: string, n2: string, n3: string)
    requires a != b && n1 != n2
    ensures var x, y := Group(n1, [a], [], false, true), Group(n2, [b], [], false, true);
            var z := Group(n3, [a, b], [], false, true);
            var r := Merged([], [x, y, z]);
            |r| == 2 && b in r[0].domains && b in r[1].domains
  {
    var x, y, z := Group(n1, [a], [], false, true), Group(n2, [b], [], false, true), Group(n3, [a, b], [], false, true);
    assert [x, y, z][..2] == [x, y] && [x, y][..1] == [x] && [x][..0] == [];
    assert Merged([], [x]) == MergeOne([], x) == [x];
    assert a in z.domains by { assert z.domains[0] == a; }
    assert b in z.domains by { assert z.domains[1] == b; }
    assert !Share(x, y);
    assert Merged([], [x, y]) == MergeOne([x], y) == [x, y];
    assert Share(x, z) && Place([x, y], z) == 0;
  }

  lemma {:induction false} ReadDomains(a: AutoGroup, lower: string -> string, parse: string -> Option<string>,
                                       y: string)
    requires Parses(a, parse)
    ensures y in Read(a, lower, parse).domains <==> exists d :: d in a.domains && lower(d) == y
  {
    var x := Read(a, lower, parse);
    if y in x.domains {
      var k :| 0 <= k < |x.domains| && x.domains[k] == y;
      assert a.domains[k] in a.domains && lower(a.domains[k]) == y;
    }
    if d :| d in a.domains && lower(d) == y {
      var k :| 0 <= k < |a.domains| && a.domains[k] == d;
      assert x.domains[k] == y;
    }
  }

  /** The group has one of the learned group's domains, compared in lower case. */
  ghost predicate HasDomainOf(g: Group, a: AutoGroup, lower: string -> string) {
    exists d :: d in a.domains && lower(d) in g.domains
  }

  lemma {:induction false} SharesExactly(g: Group, a: AutoGroup, lower: string -> string,
                                         parse: string -> Option<string>)
    requires Parses(a, parse)
    ensures Share(g, Read(a, lower, parse)) <==> HasDomainOf(g, a, lower)
  {
    var x := Read(a, lower, parse);
    if y :| y in g.domains && y in x.domains {
      ReadDomains(a, lower, parse, y);
    }
    if d :| d in a.domains && lower(d) in g.domains {
      ReadDomains(a, lower, parse, lower(d));
    }
  }

  /** A learned group that shares a domain joins the first group that has one, whatever its name. */
  lemma {:induction false} SharedDomainPlaced(gs: seq<Group>, a: AutoGroup, lower: string -> string,
                                              parse: string -> Option<string>, i: nat)
    requires Parses(a, parse) && i < |gs| && HasDomainOf(gs[i], a, lower)
    requires forall j :: 0 <= j < i ==> !HasDomainOf(gs[j], a, lower)
    ensures var r := MergeOne(gs, Read(a, lower, parse));
            && |r| == |gs| && (forall j :: 0 <= j < |gs| && j != i ==> r[j] == gs[j])
            && r[i].name == gs[i].name && r[i].disableIpv6 == gs[i].disableIpv6 && r[i].fromDhcp == gs[i].fromDhcp
            && (forall d :: d in r[i].domains <==> d in gs[i].domains || exists x :: x in a.domains && lower(x) == d)
            && (forall s :: s in r[i].servers <==> s in gs[i].servers || s in Read(a, lower, parse).servers)
  {
    var x := Read(a, lower, parse);
    forall j | 0 <= j < |gs|
      ensures Share(gs[j], x) <==> HasDomainOf(gs[j], a, lower)
    {
      SharesExactly(gs[j], a, lower, parse);
    }
    assert Place(gs, x) == i;
    forall d
      ensures d in x.domains <==> exists y :: y in a.domains && lower(y) == d
    {
      ReadDomains(a, lower, parse, d);
    }
  }

  /** One that shares no domain and no name becomes a group of its own at the end, with its domains lower-cased, its
      nameservers parsed, its IPv6 flag and the mark of DHCP. */
  lemma {:induction false} NewGroupPlaced(gs: seq<Group>, a: AutoGroup, lower: string -> string,
                                          parse: string -> Option<string>)
    requires Parses(a, parse)
    requires forall i :: 0 <= i < |gs| ==> !HasDomainOf(gs[i], a, lower) && gs[i].name != a.name
    ensures var r := MergeOne(gs, Read(a, lower, parse));
            && |r| == |gs| + 1 && r[..|gs|] == gs
            && r[|gs|].name == a.name && r[|gs|].disableIpv6 == a.disableIpv6 && r[|gs|].fromDhcp
            && |r[|gs|].domains| == |a.domains| && |r[|gs|].servers| == |a.nameservers|
            && (forall k :: 0 <= k < |a.domains| ==> r[|gs|].domains[k] == lower(a.domains[k]))
            && (forall k :: 0 <= k < |a.nameservers| ==> Some(r[|gs|].servers[k]) == parse(a.nameservers[k]))
  {
    var x := Read(a, lower, parse);
    forall i | 0 <= i < |gs|
      ensures !Share(gs[i], x)
    {
      SharesExactly(gs[i], a, lower, parse);
    }
    assert Place(gs, x) == |gs|;
  }
}
