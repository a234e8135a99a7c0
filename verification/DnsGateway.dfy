/**
 The fingerprint of the default gateways: a sorted list of texts, one per default route.  The DNS cache is told about a
 network change when it differs from the last one.
 */
module DnsGateway {
  import opened Base
  import opened Sorting

  datatype Kind = Unicast | Blackhole | Unreachable | Prohibit

  datatype Route = Route(absent: bool, destination: Option<string>, kind: Option<Kind>,
                         iface: Option<string>, addr: Option<string>, metric: Option<int>, table: Option<nat>)

  predicate IsDefault(r: Route) {
    r.destination == Some("0.0.0.0/0") || r.destination == Some("::/0")
  }

  predicate Counts(r: Route) {
    && !r.absent && IsDefault(r)
    && r.kind != Some(Blackhole) && r.kind != Some(Unreachable) && r.kind != Some(Prohibit)
  }

  /** What a default route contributes. */
  datatype Gateway = Gateway(iface: string, addr: string, metric: Option<int>, table: Option<nat>)

  function GatewayOf(r: Route): Gateway {
    Gateway(if r.iface.Some? then r.iface.value else "", if r.addr.Some? then r.addr.value else "", r.metric, r.table)
  }

  // ---------------------------------------------------------------- the text of a gateway

  function Digit(d: nat): char
    requires d < 10
  {
    '0' + d as char
  }

  function Decimal(n: nat): (r: string)
    ensures r != "" && forall c :: c in r ==> '0' <= c <= '9'
  {
    if n < 10 then [Digit(n)] else Decimal(n / 10) + [Digit(n % 10)]
  }

  function Signed(n: int): (r: string)
    ensures '|' !in r && r != ""
  {
    if n < 0 then "-" + Decimal(-n) else Decimal(n)
  }

  function Optional(n: Option<int>): (r: string)
    ensures '|' !in r
  {
    if n.None? then "" else Signed(n.value)
  }

  function Text(g: Gateway): string {
    g.iface + "|" + (g.addr + "|" + (Optional(g.metric) + "|" + Optional(g.table)))
  }

  lemma {:induction false} DecimalInjective(m: nat, n: nat)
    requires Decimal(m) == Decimal(n)
    ensures m == n
    decreases m
  {
    var a, b := Decimal(m), Decimal(n);
    assert a[|a| - 1] == Digit(m % 10) && b[|b| - 1] == Digit(n % 10);
    if m >= 10 && n >= 10 {
      assert a[..|a| - 1] == Decimal(m / 10) && b[..|b| - 1] == Decimal(n / 10);
      DecimalInjective(m / 10, n / 10);
    }
  }

  lemma {:induction false} SignedInjective(m: int, n: int)
    requires Signed(m) == Signed(n)
    ensures m == n
  {
    assert m < 0 ==> Signed(m)[0] == '-' && Signed(m)[1..] == Decimal(-m);
    assert n < 0 ==> Signed(n)[0] == '-' && Signed(n)[1..] == Decimal(-n);
    assert m >= 0 ==> Signed(m)[0] in Decimal(m);
    assert n >= 0 ==> Signed(n)[0] in Decimal(n);
    if m < 0 && n < 0 {
      DecimalInjective(-m, -n);
    } else if m >= 0 && n >= 0 {
      DecimalInjective(m, n);
    }
  }

  lemma {:induction false} OptionalInjective(m: Option<int>, n: Option<int>)
    requires Optional(m) == Optional(n)
    ensures m == n
  {
    if m.Some? && n.Some? {
      SignedInjective(m.value, n.value);
    }
  }

  /** A text is split at its first bar in one way only. */
  lemma {:induction false} SplitAtFirstBar(p: string, q: string, p': string, q': string)
    requires p + "|" + q == p' + "|" + q' && '|' !in p && '|' !in p'
    ensures p == p' && q == q'
  {
    var t, t' := p + "|" + q, p' + "|" + q';
    assert t[|p|] == '|' && t'[|p'|] == '|';
    assert p == t[..|p|] && p' == t'[..|p|];
    assert q == t[|p| + 1..] && q' == t'[|p| + 1..];
  }

  /** And at its last bar. */
  lemma {:induction false} SplitAtLastBar(p: string, q: string, p': string, q': string)
    requires p + "|" + q == p' + "|" + q' && '|' !in q && '|' !in q'
    ensures p == p' && q == q'
  {
    var t, t' := p + "|" + q, p' + "|" + q';
    assert t[|p|] == '|' && t'[|p'|] == '|';
    assert p == t[..|p|] && p' == t'[..|p|];
    assert q == t[|p| + 1..] && q' == t'[|p| + 1..];
  }

  /** What the text of a gateway tells: its interface and address together, its metric and its table. */
  datatype Readable = Readable(path: string, metric: Option<int>, table: Option<nat>)

  function ReadableOf(g: Gateway): Readable {
    Readable(g.iface + "|" + g.addr, g.metric, g.table)
  }

  lemma {:induction false} TextParts(g: Gateway)
    ensures Text(g) == (ReadableOf(g).path + "|" + Optional(g.metric)) + "|" + Optional(g.table)
  {
    var m, t := Optional(g.metric), Optional(g.table);
    assert g.addr + "|" + (m + "|" + t) == ((g.addr + "|") + m) + "|" + t;
    assert g.iface + "|" + (((g.addr + "|") + m) + "|" + t) == ((g.iface + "|" + g.addr) + "|" + m) + "|" + t;
  }

  /** Two gateways have one text exactly when interface and address, joined by the bar, metric and table agree. */
  lemma {:induction false} TextEqualExactlyWhen(g: Gateway, h: Gateway)
    ensures Text(g) == Text(h) <==> ReadableOf(g) == ReadableOf(h)
  {
    TextParts(g);
    TextParts(h);
    if Text(g) == Text(h) {
      var p, p' := ReadableOf(g).path, ReadableOf(h).path;
      SplitAtLastBar(p + "|" + Optional(g.metric), Optional(g.table), p' + "|" + Optional(h.metric), Optional(h.table));
      SplitAtLastBar(p, Optional(g.metric), p', Optional(h.metric));
      OptionalInjective(g.metric, h.metric);
      OptionalInjective(g.table, h.table);
    }
  }

  /** Without a bar in the interface name that is the whole gateway. */
  lemma {:induction false} TextInjective(g: Gateway, h: Gateway)
    requires '|' !in g.iface && '|' !in h.iface && Text(g) == Text(h)
    ensures g == h
  {
    TextEqualExactlyWhen(g, h);
    SplitAtFirstBar(g.iface, g.addr, h.iface, h.addr);
  }

  /** With a bar in an interface name two gateways can read the same. */
  lemma {:induction false} BarConfuses(a: string, b: string, c: string)
    ensures Text(Gateway(a + "|" + b, c, None, None)) == Text(Gateway(a, b + "|" + c, None, None))
  {
    assert (a + "|" + b) + "|" + c == a + "|" + (b + "|" + c);
    TextEqualExactlyWhen(Gateway(a + "|" + b, c, None, None), Gateway(a, b + "|" + c, None, None));
  }

  // ---------------------------------------------------------------- the fingerprint

  ghost function Gateways(rs: seq<Route>): set<Gateway> {
    set r | r in rs && Counts(r) :: GatewayOf(r)
  }

  ghost predicate IsText(rs: seq<Route>, t: string) {
    exists r :: r in rs && Counts(r) && Text(GatewayOf(r)) == t
  }

  /** From the fields: the default routes of either family that are not absent, blackhole, unreachable or prohibit
      count, with interface and address empty when missing. */
  lemma {:induction false} GatewaysFields(rs: seq<Route>, g: Gateway)
    ensures g in Gateways(rs) <==>
              exists r :: r in rs && !r.absent
                          && (r.destination == Some("0.0.0.0/0") || r.destination == Some("::/0"))
                          && (r.kind == None || r.kind == Some(Unicast))
                          && (if r.iface == None then g.iface == "" else r.iface == Some(g.iface))
                          && (if r.addr == None then g.addr == "" else r.addr == Some(g.addr))
                          && g.metric == r.metric && g.table == r.table
  {
    if g in Gateways(rs) {
      var r :| r in rs && Counts(r) && GatewayOf(r) == g;
      assert r.kind.Some? ==> r.kind.value == Unicast;
    }
    if r :| r in rs && !r.absent
            && (r.destination == Some("0.0.0.0/0") || r.destination == Some("::/0"))
            && (r.kind == None || r.kind == Some(Unicast))
            && (if r.iface == None then g.iface == "" else r.iface == Some(g.iface))
            && (if r.addr == None then g.addr == "" else r.addr == Some(g.addr))
            && g.metric == r.metric && g.table == r.table {
      assert Counts(r) && GatewayOf(r) == g;
    }
  }

  /** The list without its repetitions, given in order. */
  method Dedup(s: seq<string>) returns (r: seq<string>)
    requires Ordered(s, TextLess)
    ensures Increasing(r, TextLess) && forall t :: t in r <==> t in s
  {
    r := [];
    var i := 0;
    while i < |s|
      invariant 0 <= i <= |s|
      invariant Increasing(r, TextLess)
      invariant forall t :: t in r <==> t in s[..i]
      invariant if i == 0 then r == [] else r != [] && r[|r| - 1] == s[i - 1]
    {
      assert s[..i + 1] == s[..i] + [s[i]];
      if i == 0 || s[i] != s[i - 1] {
        NextLarger(r, s, i);
        r := r + [s[i]];
      }
      i := i + 1;
    }
    assert s[..i] == s;
  }

  lemma {:induction false} NextLarger(r: seq<string>, s: seq<string>, i: nat)
    requires i < |s| && Ordered(s, TextLess) && Increasing(r, TextLess)
    requires i > 0 ==> r != [] && r[|r| - 1] == s[i - 1] && s[i] != s[i - 1]
    requires i == 0 ==> r == []
    ensures Increasing(r + [s[i]], TextLess)
  {
    if i > 0 {
      assert !TextLess(s[i], s[i - 1]);
      if !TextLess(s[i - 1], s[i]) {
        TextTotal(s[i - 1], s[i]);
        assert false;
      }
      forall k | 0 <= k < |r|
        ensures TextLess(r[k], s[i])
      {
        if k < |r| - 1 {
          TextTransitive(r[k], s[i - 1], s[i]);
        }
      }
    }
  }

  method Fingerprint(rs: seq<Route>) returns (r: seq<string>)
    ensures IsFingerprint(r, rs)
  {
    var texts := [];
    var i := 0;
    while i < |rs|
      invariant 0 <= i <= |rs|
      invariant forall t :: t in texts <==> IsText(rs[..i], t)
    {
      TextsNext(rs, i);
      if Counts(rs[i]) {
        texts := texts + [Text(GatewayOf(rs[i]))];
      }
      i := i + 1;
    }
    assert rs[..i] == rs;
    TextStrictWeak();
    SortOrdered(texts, TextLess);
    r := Dedup(SortBy(texts, TextLess));
  }

  lemma {:induction false} TextsNext(rs: seq<Route>, i: nat)
    requires i < |rs|
    ensures forall t :: IsText(rs[..i + 1], t) <==> IsText(rs[..i], t) || (Counts(rs[i]) && t == Text(GatewayOf(rs[i])))
  {
    assert rs[..i + 1] == rs[..i] + [rs[i]];
    forall t
      ensures IsText(rs[..i + 1], t) <==> IsText(rs[..i], t) || (Counts(rs[i]) && t == Text(GatewayOf(rs[i])))
    {
      if IsText(rs[..i], t) {
        var r :| r in rs[..i] && Counts(r) && Text(GatewayOf(r)) == t;
        assert r in rs[..i + 1];
      }
      if Counts(rs[i]) && t == Text(GatewayOf(rs[i])) {
        assert rs[i] in rs[..i + 1];
      }
    }
  }

  ghost function Readables(rs: seq<Route>): set<Readable> {
    set r | r in rs && Counts(r) :: ReadableOf(GatewayOf(r))
  }

  lemma {:induction false} TextsShowReadables(rs: seq<Route>, rs': seq<Route>, x: Readable)
    requires x in Readables(rs) && forall t :: IsText(rs, t) ==> IsText(rs', t)
    ensures x in Readables(rs')
  {
    var r :| r in rs && Counts(r) && ReadableOf(GatewayOf(r)) == x;
    assert IsText(rs, Text(GatewayOf(r)));
    var r' :| r' in rs' && Counts(r') && Text(GatewayOf(r')) == Text(GatewayOf(r));
    TextEqualExactlyWhen(GatewayOf(r'), GatewayOf(r));
  }

  lemma {:induction false} ReadablesShowTexts(rs: seq<Route>, rs': seq<Route>, t: string)
    requires Readables(rs) <= Readables(rs') && IsText(rs, t)
    ensures IsText(rs', t)
  {
    var r :| r in rs && Counts(r) && Text(GatewayOf(r)) == t;
    assert ReadableOf(GatewayOf(r)) in Readables(rs');
    var r' :| r' in rs' && Counts(r') && ReadableOf(GatewayOf(r')) == ReadableOf(GatewayOf(r));
    TextEqualExactlyWhen(GatewayOf(r'), GatewayOf(r));
  }

  /** A fingerprint of the routes. */
  ghost predicate IsFingerprint(f: seq<string>, rs: seq<Route>) {
    Increasing(f, TextLess) && forall t :: t in f <==> IsText(rs, t)
  }

  /** Two fingerprints are equal exactly when their routes give the same readable gateways. */
  lemma {:induction false} FingerprintsEqualExactlyWhen(rs: seq<Route>, rs': seq<Route>, f: seq<string>,
                                                        f': seq<string>)
    requires IsFingerprint(f, rs) && IsFingerprint(f', rs')
    ensures f == f' <==> Readables(rs) == Readables(rs')
  {
    if f == f' {
      forall x
        ensures x in Readables(rs) <==> x in Readables(rs')
      {
        if x in Readables(rs) {
          TextsShowReadables(rs, rs', x);
        }
        if x in Readables(rs') {
          TextsShowReadables(rs', rs, x);
        }
      }
    }
    if Readables(rs) == Readables(rs') {
      forall t
        ensures t in f <==> t in f'
      {
        if IsText(rs, t) {
          ReadablesShowTexts(rs, rs', t);
        }
        if IsText(rs', t) {
          ReadablesShowTexts(rs', rs, t);
        }
      }
      TextStrictWeak();
      IncreasingUnique(f, f', TextLess);
    }
  }

  /** No bar in an interface name of a default route. */
  ghost predicate NoBars(rs: seq<Route>) {
    forall r :: r in rs && Counts(r) ==> '|' !in GatewayOf(r).iface
  }

  lemma {:induction false} ReadableGateways(rs: seq<Route>, rs': seq<Route>, g: Gateway)
    requires NoBars(rs) && NoBars(rs') && Readables(rs) <= Readables(rs') && g in Gateways(rs)
    ensures g in Gateways(rs')
  {
    var r :| r in rs && Counts(r) && GatewayOf(r) == g;
    assert ReadableOf(g) in Readables(rs');
    var r' :| r' in rs' && Counts(r') && ReadableOf(GatewayOf(r')) == ReadableOf(g);
    TextEqualExactlyWhen(GatewayOf(r'), g);
    TextInjective(GatewayOf(r'), g);
  }

  lemma {:induction false} GatewaysReadable(rs: seq<Route>, rs': seq<Route>, x: Readable)
    requires Gateways(rs) <= Gateways(rs') && x in Readables(rs)
    ensures x in Readables(rs')
  {
    var r :| r in rs && Counts(r) && ReadableOf(GatewayOf(r)) == x;
    assert GatewayOf(r) in Gateways(rs');
  }

  /** Without bars in interface names: exactly when the sets of default gateways are equal. */
  lemma {:induction false} FingerprintsShowGateways(rs: seq<Route>, rs': seq<Route>, f: seq<string>, f': seq<string>)
    requires NoBars(rs) && NoBars(rs') && IsFingerprint(f, rs) && IsFingerprint(f', rs')
    ensures f == f' <==> Gateways(rs) == Gateways(rs')
  {
    FingerprintsEqualExactlyWhen(rs, rs', f, f');
    if Readables(rs) == Readables(rs') {
      forall g
        ensures g in Gateways(rs) <==> g in Gateways(rs')
      {
        if g in Gateways(rs) {
          ReadableGateways(rs, rs', g);
        }
        if g in Gateways(rs') {
          ReadableGateways(rs', rs, g);
        }
      }
    }
    if Gateways(rs) == Gateways(rs') {
      forall x
        ensures x in Readables(rs) <==> x in Readables(rs')
      {
        if x in Readables(rs) {
          GatewaysReadable(rs, rs', x);
        }
        if x in Readables(rs') {
          GatewaysReadable(rs', rs, x);
        }
      }
    }
  }
}
