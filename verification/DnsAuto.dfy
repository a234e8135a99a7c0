/**
 The automatic DNS snapshot: what the DHCP clients of all interfaces learned, in one order that does not depend on the
 order in which the hash map of clients is visited.

 Lower-casing a domain is an arbitrary function here.
 */
module DnsAuto {
  import opened Base
  import opened Sorting
  import DnsGroups

  datatype DhcpInfo = DhcpInfo(nameservers: seq<string>, domains: seq<string>, domainSearch: seq<string>)

  /** The automatic DNS part of an interface's IPv4 section. */
  datatype Ipv4 = Ipv4(autoDns: bool, priority: nat)

  /** The IPv4 sections in effect and the position of each interface in the saved configuration. */
  datatype Config = Config(ipv4: map<string, Ipv4>, position: map<string, nat>)

  datatype AutoIface = AutoIface(name: string, priority: nat, position: nat,
                                 nameservers: seq<string>, domains: seq<string>, domainSearch: seq<string>)

  datatype Snapshot = Snapshot(ifaces: seq<AutoIface>, servers: seq<string>, cacheServers: seq<string>,
                               domains: seq<string>,
                               hasDomainSearch: bool, groups: seq<DnsGroups.AutoGroup>)

  /** The position of an interface that is not saved. */
  const UNSAVED: nat := 0xFFFF_FFFF_FFFF_FFFF

  // ---------------------------------------------------------------- one interface

  function Enabled(n: string, c: Config): bool {
    n in c.ipv4 ==> c.ipv4[n].autoDns
  }

  /** The lower-cased domains that are not empty, in order. */
  function Lowered(ds: seq<string>, lower: string -> string): seq<string> {
    if ds == [] then []
    else Lowered(ds[..|ds| - 1], lower) + if lower(ds[|ds| - 1]) == "" then [] else [lower(ds[|ds| - 1])]
  }

  function IfaceOf(n: string, info: DhcpInfo, c: Config, lower: string -> string): AutoIface {
    AutoIface(n, if n in c.ipv4 then c.ipv4[n].priority else 0, if n in c.position then c.position[n] else UNSAVED,
              DnsGroups.AppendMissing([], info.nameservers), DnsGroups.AppendMissing([], Lowered(info.domains, lower)),
              Lowered(info.domainSearch, lower))
  }

  predicate Contributes(n: string, info: DhcpInfo, c: Config, lower: string -> string) {
    Enabled(n, c) && (IfaceOf(n, info, c, lower).nameservers != [] || IfaceOf(n, info, c, lower).domains != [])
  }

  method LowerEach(ds: seq<string>, lower: string -> string) returns (r: seq<string>)
    ensures r == Lowered(ds, lower)
  {
    r := [];
    var i := 0;
    while i < |ds|
      invariant 0 <= i <= |ds|
      invariant r == Lowered(ds[..i], lower)
    {
      assert ds[..i + 1][..i] == ds[..i] && ds[..i + 1][i] == ds[i];
      var d := lower(ds[i]);
      if d != "" {
        r := r + [d];
      }
      i := i + 1;
    }
    assert ds[..i] == ds;
  }

  // ---------------------------------------------------------------- all interfaces

  /** The contributing interfaces, in the order the map is visited. */
  function Listed(order: seq<string>, info: map<string, DhcpInfo>, c: Config, lower: string -> string): seq<AutoIface> {
    if order == [] then []
    else
      var n := order[|order| - 1];
      Listed(order[..|order| - 1], info, c, lower)
      + if n in info && Contributes(n, info[n], c, lower) then [IfaceOf(n, info[n], c, lower)] else []
  }

  method ReadIface(n: string, info: DhcpInfo, c: Config, lower: string -> string) returns (r: Option<AutoIface>)
    ensures r == if Contributes(n, info, c, lower) then Some(IfaceOf(n, info, c, lower)) else None
  {
    if !Enabled(n, c) {
      return None;
    }
    var priority := if n in c.ipv4 then c.ipv4[n].priority else 0;
    var nameservers := DnsGroups.AppendEach([], info.nameservers);
    var lowered := LowerEach(info.domains, lower);
    var domains := DnsGroups.AppendEach([], lowered);
    if nameservers == [] && domains == [] {
      return None;
    }
    var search := LowerEach(info.domainSearch, lower);
    var position := if n in c.position then c.position[n] else UNSAVED;
    return Some(AutoIface(n, priority, position, nameservers, domains, search));
  }

  lemma {:induction false} ListedNext(order: seq<string>, i: nat, info: map<string, DhcpInfo>, c: Config,
                                      lower: string -> string)
    requires i < |order|
    ensures var n := order[i];
            Listed(order[..i + 1], info, c, lower) == Listed(order[..i], info, c, lower)
              + if n in info && Contributes(n, info[n], c, lower) then [IfaceOf(n, info[n], c, lower)] else []
  {
    assert order[..i + 1][..i] == order[..i] && order[..i + 1][i] == order[i];
  }

  method ListIfaces(order: seq<string>, info: map<string, DhcpInfo>, c: Config, lower: string -> string)
    returns (r: seq<AutoIface>)
    requires SetOf(order) <= info.Keys
    ensures r == Listed(order, info, c, lower)
  {
    r := [];
    var i := 0;
    while i < |order|
      invariant 0 <= i <= |order|
      invariant r == Listed(order[..i], info, c, lower)
    {
      assert order[i] in SetOf(order);
      ListedNext(order, i, info, c, lower);
      var a := ReadIface(order[i], info[order[i]], c, lower);
      if a.Some? {
        r := r + [a.value];
      }
      i := i + 1;
    }
    assert order[..i] == order;
  }

  /** Higher priority first, then the saved order, then the name. */
  predicate Before(a: AutoIface, b: AutoIface) {
    || a.priority > b.priority
    || (a.priority == b.priority && (a.position < b.position || (a.position == b.position && TextLess(a.name, b.name))))
  }

  lemma {:induction false} BeforeStrictWeak()
    ensures StrictWeak(Before)
  {
    TextStrictWeak();
  }

  lemma {:induction false} ListedContents(order: seq<string>, info: map<string, DhcpInfo>, c: Config,
                                          lower: string -> string)
    requires Distinct(order)
    ensures forall a :: a in Listed(order, info, c, lower) <==>
                          a.name in order && a.name in info && Contributes(a.name, info[a.name], c, lower)
                          && a == IfaceOf(a.name, info[a.name], c, lower)
    ensures forall i, j :: 0 <= i < j < |Listed(order, info, c, lower)| ==>
                             Listed(order, info, c, lower)[i].name != Listed(order, info, c, lower)[j].name
    decreases |order|
  {
    if order != [] {
      var before, n := order[..|order| - 1], order[|order| - 1];
      ListedContents(before, info, c, lower);
      assert order == before + [n];
      assert n !in before;
      var l := Listed(before, info, c, lower);
      forall i | 0 <= i < |l|
        ensures l[i].name != n
      {
        assert l[i] in l;
      }
    }
  }

  lemma {:induction false} SortedStrictly(s: seq<AutoIface>)
    requires forall i, j :: 0 <= i < j < |s| ==> s[i].name != s[j].name
    ensures Increasing(SortBy(s, Before), Before)
  {
    BeforeStrictWeak();
    SortOrdered(s, Before);
    var r := SortBy(s, Before);
    NamesApart(s, r);
    forall i, j | 0 <= i < j < |r|
      ensures Before(r[i], r[j])
    {
      assert !Before(r[j], r[i]);
      if !Before(r[i], r[j]) {
        TextTotal(r[i].name, r[j].name);
      }
    }
  }

  /** A permutation of a list with distinct names has distinct names. */
  lemma {:induction false} NamesApart(s: seq<AutoIface>, r: seq<AutoIface>)
    requires (forall i, j :: 0 <= i < j < |s| ==> s[i].name != s[j].name) && multiset(s) == multiset(r)
    ensures forall i, j :: 0 <= i < j < |r| ==> r[i].name != r[j].name
  {
    forall i, j | 0 <= i < j < |r|
      ensures r[i].name != r[j].name
    {
      var x, y := r[i], r[j];
      if x == y {
        TwoOccurrences(r, i, j);
        OneOccurrence(s, x);
      } else {
        assert x in multiset(s) && y in multiset(s);
        var a :| 0 <= a < |s| && s[a] == x;
        var b :| 0 <= b < |s| && s[b] == y;
      }
    }
  }

  lemma {:induction false} TwoOccurrences(r: seq<AutoIface>, i: nat, j: nat)
    requires i < j < |r| && r[i] == r[j]
    ensures multiset(r)[r[i]] >= 2
  {
    assert r == r[..j] + [r[j]] + r[j + 1..];
    assert r[i] in multiset(r[..j]) by { assert r[..j][i] == r[i]; }
  }

  lemma {:induction false} OneOccurrence(s: seq<AutoIface>, x: AutoIface)
    requires forall i, j :: 0 <= i < j < |s| ==> s[i].name != s[j].name
    ensures multiset(s)[x] <= 1
    decreases |s|
  {
    if s != [] {
      var before := s[..|s| - 1];
      assert s == before + [s[|s| - 1]];
      OneOccurrence(before, x);
      assert forall k :: 0 <= k < |before| ==> before[k] == s[k] && before[k].name != s[|s| - 1].name;
    }
  }

  /** An order in which a map with the given keys may be visited. */
  ghost predicate Visits(order: seq<string>, keys: set<string>) {
    Distinct(order) && SetOf(order) == keys
  }

  /** However the map is visited, the sorted list is the same. */
  lemma {:induction false} OrderForgotten(order: seq<string>, order': seq<string>, info: map<string, DhcpInfo>,
                                          c: Config, lower: string -> string)
    requires Visits(order, info.Keys) && Visits(order', info.Keys)
    ensures SortBy(Listed(order, info, c, lower), Before) == SortBy(Listed(order', info, c, lower), Before)
  {
    ListedContents(order, info, c, lower);
    ListedContents(order', info, c, lower);
    var s, s' := Listed(order, info, c, lower), Listed(order', info, c, lower);
    forall n
      ensures n in order <==> n in order'
    {
      assert n in SetOf(order) <==> n in SetOf(order');
    }
    SortedStrictly(s);
    SortedStrictly(s');
    BeforeStrictWeak();
    assert forall a :: a in s <==> a in s';
    IncreasingUnique(SortBy(s, Before), SortBy(s', Before), Before);
  }

  // ---------------------------------------------------------------- the snapshot

  function BeforePercent(s: string): string {
    if s == "" || s[0] == '%' then "" else [s[0]] + BeforePercent(s[1..])
  }

  /** A nameserver bound to the interface that learned it. */
  function Bound(server: string, iface: string): string {
    BeforePercent(server) + ":53%" + iface
  }

  function BoundAll(servers: seq<string>, iface: string): seq<string> {
    seq(|servers|, i requires 0 <= i < |servers| => Bound(servers[i], iface))
  }

  function GroupOf(a: AutoIface): DnsGroups.AutoGroup {
    DnsGroups.AutoGroup("nipart-dhcp-" + a.name, a.domains, BoundAll(a.nameservers, a.name), false)
  }

  const EMPTY := Snapshot([], [], [], [], false, [])

  /** The snapshot with one more interface, which comes after those in it. */
  function Joined(s: Snapshot, a: AutoIface): Snapshot {
    Snapshot(s.ifaces + [a],
             DnsGroups.AppendMissing(s.servers, a.nameservers),
             DnsGroups.AppendMissing(s.cacheServers, BoundAll(a.nameservers, a.name)),
             DnsGroups.AppendMissing(s.domains, a.domains),
             s.hasDomainSearch || a.domainSearch != [],
             if a.domains != [] && a.nameservers != [] then s.groups + [GroupOf(a)] else s.groups)
  }

  function Assembled(ifaces: seq<AutoIface>): (s: Snapshot)
    ensures s.ifaces == ifaces
  {
    if ifaces == [] then EMPTY else Joined(Assembled(ifaces[..|ifaces| - 1]), ifaces[|ifaces| - 1])
  }

  method Join(s: Snapshot, a: AutoIface) returns (r: Snapshot)
    ensures r == Joined(s, a)
  {
    var servers := DnsGroups.AppendEach(s.servers, a.nameservers);
    var cacheServers := DnsGroups.AppendEach(s.cacheServers, BoundAll(a.nameservers, a.name));
    var domains := DnsGroups.AppendEach(s.domains, a.domains);
    r := Snapshot(s.ifaces + [a], servers, cacheServers, domains, s.hasDomainSearch || a.domainSearch != [], s.groups);
    if a.domains != [] && a.nameservers != [] {
      r := r.(groups := s.groups + [GroupOf(a)]);
    }
  }

  lemma {:induction false} AssembledNext(ifaces: seq<AutoIface>, i: nat)
    requires i < |ifaces|
    ensures Assembled(ifaces[..i + 1]) == Joined(Assembled(ifaces[..i]), ifaces[i])
  {
    assert ifaces[..i + 1][..i] == ifaces[..i] && ifaces[..i + 1][i] == ifaces[i];
  }

  method Assemble(ifaces: seq<AutoIface>) returns (s: Snapshot)
    ensures s == Assembled(ifaces)
  {
    s := EMPTY;
    var i := 0;
    while i < |ifaces|
      invariant 0 <= i <= |ifaces|
      invariant s == Assembled(ifaces[..i])
    {
      AssembledNext(ifaces, i);
      s := Join(s, ifaces[i]);
      i := i + 1;
    }
    assert ifaces[..i] == ifaces;
  }

  method CollectAutoDns(order: seq<string>, info: map<string, DhcpInfo>, c: Config, lower: string -> string)
    returns (s: Snapshot)
    requires Visits(order, info.Keys)
    ensures s.ifaces == SortBy(Listed(order, info, c, lower), Before)
    ensures s == Assembled(s.ifaces)
    ensures forall order' :: Visits(order', info.Keys) ==>
            s == Assembled(SortBy(Listed(order', info, c, lower), Before))
  {
    var ifaces := ListIfaces(order, info, c, lower);
    var sorted := SortBy(ifaces, Before);
    s := Assemble(sorted);
    forall order' | Visits(order', info.Keys)
      ensures SortBy(Listed(order', info, c, lower), Before) == sorted
    {
      OrderForgotten(order, order', info, c, lower);
    }
  }

  /** The resolver's servers and search domains: each once, exactly those some interface learned. */
  lemma {:induction false} AssembledContents(ifaces: seq<AutoIface>)
    ensures Distinct(Assembled(ifaces).servers) && Distinct(Assembled(ifaces).domains)
    ensures forall x :: x in Assembled(ifaces).servers <==> exists a :: a in ifaces && x in a.nameservers
    ensures forall x :: x in Assembled(ifaces).domains <==> exists a :: a in ifaces && x in a.domains
    decreases |ifaces|
  {
    if ifaces != [] {
      var before, a := ifaces[..|ifaces| - 1], ifaces[|ifaces| - 1];
      AssembledContents(before);
      assert ifaces == before + [a];
      var s := Assembled(before);
      AppendDistinct(s.servers, a.nameservers);
      AppendDistinct(s.domains, a.domains);
    }
  }

  lemma {:induction false} AppendDistinct(xs: seq<string>, ys: seq<string>)
    requires Distinct(xs)
    ensures Distinct(DnsGroups.AppendMissing(xs, ys))
  {
  }

  lemma {:induction false} GroupsOrigin(ifaces: seq<AutoIface>, i: nat)
    requires i < |Assembled(ifaces).groups|
    ensures exists a :: a in ifaces && Assembled(ifaces).groups[i] == GroupOf(a)
    decreases |ifaces|
  {
    var before, a := ifaces[..|ifaces| - 1], ifaces[|ifaces| - 1];
    assert ifaces == before + [a];
    if i < |Assembled(before).groups| {
      GroupsOrigin(before, i);
    }
  }

  /** Groups of different interfaces have different names. */
  lemma {:induction false} GroupNamesApart(ifaces: seq<AutoIface>)
    requires forall i, j :: 0 <= i < j < |ifaces| ==> ifaces[i].name != ifaces[j].name
    ensures forall i, j :: 0 <= i < j < |Assembled(ifaces).groups| ==>
                             Assembled(ifaces).groups[i].name != Assembled(ifaces).groups[j].name
    decreases |ifaces|
  {
    if ifaces != [] {
      var before, last := ifaces[..|ifaces| - 1], ifaces[|ifaces| - 1];
      GroupNamesApart(before);
      var gs := Assembled(before).groups;
      forall i | 0 <= i < |gs|
        ensures gs[i].name != GroupOf(last).name
      {
        GroupsOrigin(before, i);
        var a :| a in before && gs[i] == GroupOf(a);
        var k :| 0 <= k < |before| && before[k] == a;
        assert ifaces[k].name != last.name;
        PrefixedApart("nipart-dhcp-", a.name, last.name);
      }
    }
  }

  lemma {:induction false} PrefixedApart(p: string, a: string, b: string)
    requires a != b
    ensures p + a != p + b
  {
    assert (p + a)[|p|..] == a && (p + b)[|p|..] == b;
  }

  /** From the fields: a client's interface contributes when automatic DNS is not switched off for it and it learned a
      nameserver or a domain. */
  lemma {:induction false} ContributesExactly(n: string, info: DhcpInfo, c: Config, lower: string -> string)
    ensures Contributes(n, info, c, lower) <==>
              && (n in c.ipv4 ==> c.ipv4[n].autoDns)
              && (info.nameservers != [] || exists d :: d in info.domains && lower(d) != "")
  {
    var a := IfaceOf(n, info, c, lower);
    LoweredMembers(info.domains, lower);
    assert forall x :: x in a.nameservers <==> x in info.nameservers;
    if info.nameservers != [] {
      assert info.nameservers[0] in a.nameservers;
    }
    if a.domains != [] {
      assert a.domains[0] in Lowered(info.domains, lower);
    }
    if d :| d in info.domains && lower(d) != "" {
      assert lower(d) in a.domains;
    }
  }

  /** What it contributes: without an IPv4 section its priority is zero, and without a saved position it comes last. */
  lemma {:induction false} ContributionFields(n: string, info: DhcpInfo, c: Config, lower: string -> string)
    ensures var a := IfaceOf(n, info, c, lower);
            && a.name == n
            && (n in c.ipv4 ==> a.priority == c.ipv4[n].priority) && (n !in c.ipv4 ==> a.priority == 0)
            && (n in c.position ==> a.position == c.position[n])
            && (n !in c.position ==> a.position == 0xFFFF_FFFF_FFFF_FFFF)
            && (forall x :: x in a.nameservers <==> x in info.nameservers) && Distinct(a.nameservers)
            && (forall x :: x in a.domains <==> x != "" && exists d :: d in info.domains && lower(d) == x)
            && (forall x :: x in a.domainSearch <==> x != "" && exists d :: d in info.domainSearch && lower(d) == x)
  {
    LoweredMembers(info.domains, lower);
    LoweredMembers(info.domainSearch, lower);
  }

  lemma {:induction false} LoweredMembers(ds: seq<string>, lower: string -> string)
    ensures forall x :: x in Lowered(ds, lower) <==> x != "" && exists d :: d in ds && lower(d) == x
    decreases |ds|
  {
    if ds != [] {
      LoweredMembers(ds[..|ds| - 1], lower);
      assert ds == ds[..|ds| - 1] + [ds[|ds| - 1]];
    }
  }

  /** The effective order: higher priority first, then the saved position, then the name. */
  lemma {:induction false} SortedByPriority(order: seq<string>, info: map<string, DhcpInfo>, c: Config,
                                            lower: string -> string, i: nat, j: nat)
    requires Visits(order, info.Keys) && i < j < |SortBy(Listed(order, info, c, lower), Before)|
    ensures var s := SortBy(Listed(order, info, c, lower), Before);
            && s[i].priority >= s[j].priority
            && (s[i].priority == s[j].priority ==> s[i].position <= s[j].position)
            && (s[i].priority == s[j].priority && s[i].position == s[j].position ==> TextLess(s[i].name, s[j].name))
  {
    ListedContents(order, info, c, lower);
    SortedStrictly(Listed(order, info, c, lower));
  }

  lemma {:induction false} BeforePercentMeans(s: string)
    ensures '%' !in BeforePercent(s) && BeforePercent(s) <= s
    ensures BeforePercent(s) == s || s[|BeforePercent(s)|] == '%'
    decreases |s|
  {
    if s != "" && s[0] != '%' {
      BeforePercentMeans(s[1..]);
      assert s == [s[0]] + s[1..];
    }
  }

  /** One of the interface's servers, bound to it at port 53 of the address before a percent sign. */
  ghost predicate BoundTo(a: AutoIface, x: string) {
    exists y :: y in a.nameservers && x == BeforePercent(y) + ":53%" + a.name
  }

  lemma {:induction false} LastJoined(ifaces: seq<AutoIface>, x: string)
    requires ifaces != []
    ensures var before, last := Assembled(ifaces[..|ifaces| - 1]), ifaces[|ifaces| - 1];
            var s := Assembled(ifaces);
            && (x in s.cacheServers <==> x in before.cacheServers || BoundTo(last, x))
            && (s.hasDomainSearch <==> before.hasDomainSearch || last.domainSearch != [])
            && s.groups == before.groups + if last.domains != [] && last.nameservers != [] then [GroupOf(last)] else []
  {
    var last := ifaces[|ifaces| - 1];
    BoundMembers(last.nameservers, last.name);
    assert x in BoundAll(last.nameservers, last.name) <==> BoundTo(last, x);
    hide BoundTo, BoundAll, GroupOf;
  }

  lemma {:induction false} AmongIfaces(ifaces: seq<AutoIface>)
    requires ifaces != []
    ensures forall a :: a in ifaces <==> a in ifaces[..|ifaces| - 1] || a == ifaces[|ifaces| - 1]
  {
    assert ifaces == ifaces[..|ifaces| - 1] + [ifaces[|ifaces| - 1]];
  }

  /** The cache's servers are exactly the bound servers of the interfaces. */
  lemma {:induction false} CacheServersExactly(ifaces: seq<AutoIface>, x: string)
    ensures x in Assembled(ifaces).cacheServers <==> exists a :: a in ifaces && BoundTo(a, x)
    decreases |ifaces|
  {
    if ifaces != [] {
      LastJoined(ifaces, x);
      hide BoundTo, Assembled;
      CacheServersExactly(ifaces[..|ifaces| - 1], x);
      AmongIfaces(ifaces);
    }
  }

  /** There is a group for each interface with both servers and domains, and no other. */
  lemma {:induction false} GroupsExactly(ifaces: seq<AutoIface>, g: DnsGroups.AutoGroup)
    ensures g in Assembled(ifaces).groups <==>
              exists a :: a in ifaces && a.domains != [] && a.nameservers != [] && g == GroupOf(a)
    decreases |ifaces|
  {
    if ifaces != [] {
      LastJoined(ifaces, "");
      hide GroupOf, Assembled;
      GroupsExactly(ifaces[..|ifaces| - 1], g);
      AmongIfaces(ifaces);
    }
  }

  /** The search flag is up exactly when an interface has a domain search list. */
  lemma {:induction false} SearchExactly(ifaces: seq<AutoIface>)
    ensures Assembled(ifaces).hasDomainSearch <==> exists a :: a in ifaces && a.domainSearch != []
    decreases |ifaces|
  {
    if ifaces != [] {
      LastJoined(ifaces, "");
      hide Assembled;
      SearchExactly(ifaces[..|ifaces| - 1]);
      AmongIfaces(ifaces);
    }
  }

  lemma {:induction false} BoundMembers(servers: seq<string>, iface: string)
    ensures forall x :: x in BoundAll(servers, iface) <==>
                          exists y :: y in servers && x == BeforePercent(y) + ":53%" + iface
  {
    forall x
      ensures x in BoundAll(servers, iface) <==> exists y :: y in servers && x == BeforePercent(y) + ":53%" + iface
    {
      if y :| y in servers && x == BeforePercent(y) + ":53%" + iface {
        var k :| 0 <= k < |servers| && servers[k] == y;
        assert BoundAll(servers, iface)[k] == x;
      }
    }
  }

  /** The group of an interface: its name after the fixed prefix, its domains, and its servers bound to it, in order. */
  lemma {:induction false} GroupFields(a: AutoIface)
    ensures var g := GroupOf(a);
            && g.name == "nipart-dhcp-" + a.name && g.domains == a.domains && !g.disableIpv6
            && |g.nameservers| == |a.nameservers|
            && forall k :: 0 <= k < |a.nameservers| ==>
               g.nameservers[k] == BeforePercent(a.nameservers[k]) + ":53%" + a.name
  {
  }
}
