/**
 What the daemon activates at boot: which saved virtual interfaces can exist after the boot apply, given the interfaces
 the kernel has, and which interfaces are left out because activating them is manual.  Both are fixpoints over the
 dependencies between interfaces.

 Saved interfaces are a list in insertion order.
 */
module BootDeps {
  import opened Base

  /** The part of a saved interface that decides about boot. */
  datatype Entry = Entry(
    name: string, kernelName: string, profile: Option<string>,
    userspace: bool, isVirtual: bool, wifiCfg: bool, absent: bool, ignored: bool,
    isController: bool, ports: seq<string>, parent: Option<string>, controller: Option<string>, manual: bool)

  datatype Route = Route(nextHop: Option<string>, destination: string)
  datatype Rule = Rule(iif: Option<string>, selector: string)
  datatype Saved = Saved(ifaces: seq<Entry>, routes: Option<seq<Route>>, rules: Option<seq<Rule>>)

  // ---------------------------------------------------------------- virtual interfaces that can be created

  predicate Eligible(e: Entry) {
    e.isVirtual && !e.absent && !e.ignored && !e.wifiCfg
  }

  /** The names other interfaces, routes and rules may use for an interface. */
  function Names(e: Entry): set<string> {
    {e.name}
    + (if e.kernelName != "" then {e.kernelName} else {})
    + (if e.profile.Some? then {e.profile.value} else {})
  }

  function Deps(e: Entry): seq<string> {
    if e.userspace then []
    else if e.isController then e.ports
    else if e.parent.Some? then [e.parent.value]
    else []
  }

  predicate Met(e: Entry, ready: set<string>) {
    forall i :: 0 <= i < |Deps(e)| ==> Deps(e)[i] in ready
  }

  /** Derivable in `k` rounds: a kernel interface, or a name of an interface that is not in the kernel and whose
      dependencies were derivable a round earlier. */
  ghost predicate Derived(es: seq<Entry>, kernel: set<string>, n: string, k: nat)
    decreases k
  {
    || n in kernel
    || (&& k > 0
        && exists e ::
             && Builds(es, kernel, e, n)
             && forall i :: 0 <= i < |Deps(e)| ==> Derived(es, kernel, Deps(e)[i], k - 1))
  }

  ghost predicate Builds(es: seq<Entry>, kernel: set<string>, e: Entry, n: string) {
    e in es && Eligible(e) && n in Names(e) && Names(e) !! kernel
  }

  ghost predicate Ready(es: seq<Entry>, kernel: set<string>, n: string) {
    exists k :: Derived(es, kernel, n, k)
  }

  lemma {:induction false} DerivedLonger(es: seq<Entry>, kernel: set<string>, n: string, k: nat, m: nat)
    requires Derived(es, kernel, n, k) && k <= m
    ensures Derived(es, kernel, n, m)
    decreases k
  {
    if n !in kernel {
      var e :| Builds(es, kernel, e, n) && forall i :: 0 <= i < |Deps(e)| ==> Derived(es, kernel, Deps(e)[i], k - 1);
      forall i | 0 <= i < |Deps(e)|
        ensures Derived(es, kernel, Deps(e)[i], m - 1)
      {
        DerivedLonger(es, kernel, Deps(e)[i], k - 1, m - 1);
      }
    }
  }

  /** Finitely many derivable names are derivable in a common number of rounds. */
  lemma {:induction false} CommonRound(es: seq<Entry>, kernel: set<string>, ns: seq<string>) returns (k: nat)
    requires forall i :: 0 <= i < |ns| ==> Ready(es, kernel, ns[i])
    ensures forall i :: 0 <= i < |ns| ==> Derived(es, kernel, ns[i], k)
    decreases |ns|
  {
    if ns == [] {
      k := 0;
    } else {
      assert forall i :: 0 <= i < |ns| - 1 ==> ns[..|ns| - 1][i] == ns[i];
      var before := CommonRound(es, kernel, ns[..|ns| - 1]);
      var last :| Derived(es, kernel, ns[|ns| - 1], last);
      k := if before <= last then last else before;
      forall i | 0 <= i < |ns|
        ensures Derived(es, kernel, ns[i], k)
      {
        if i < |ns| - 1 {
          DerivedLonger(es, kernel, ns[..|ns| - 1][i], before, k);
        } else {
          DerivedLonger(es, kernel, ns[i], last, k);
        }
      }
    }
  }

  lemma {:induction false} ReadyStep(es: seq<Entry>, kernel: set<string>, e: Entry, n: string)
    requires Builds(es, kernel, e, n)
    requires forall i :: 0 <= i < |Deps(e)| ==> Ready(es, kernel, Deps(e)[i])
    ensures Ready(es, kernel, n)
  {
    var k := CommonRound(es, kernel, Deps(e));
    assert Derived(es, kernel, n, k + 1);
  }

  /** The collected names after visiting one interface, after one pass, and after `k` passes. */
  ghost function After(e: Entry, ready: set<string>): set<string> {
    if Eligible(e) && Names(e) !! ready && Met(e, ready) then ready + Names(e) else ready
  }

  ghost function Swept(es: seq<Entry>, ready: set<string>): set<string> {
    if es == [] then ready else Swept(es[1..], After(es[0], ready))
  }

  ghost function Passes(es: seq<Entry>, kernel: set<string>, k: nat): set<string> {
    if k == 0 then kernel else Swept(es, Passes(es, kernel, k - 1))
  }

  /** `ready` is what passes over the list, repeated until one changes nothing, collect. */
  ghost predicate Collected(es: seq<Entry>, kernel: set<string>, ready: set<string>) {
    Swept(es, ready) == ready && exists k :: Passes(es, kernel, k) == ready
  }

  /** Name `n` came together with all names of an interface that is not in the kernel. */
  ghost predicate Brought(es: seq<Entry>, kernel: set<string>, ready: set<string>, n: string) {
    exists e :: Builds(es, kernel, e, n) && Names(e) <= ready
  }

  lemma {:induction false} BroughtMore(es: seq<Entry>, kernel: set<string>, ready: set<string>, more: set<string>,
                                       n: string)
    requires Brought(es, kernel, ready, n) && ready <= more
    ensures Brought(es, kernel, more, n)
  {
  }

  /** What holds of the names collected so far: they start from the kernel, each further one came with all names of an
      interface outside the kernel, and each is derivable. */
  ghost predicate Grown(es: seq<Entry>, kernel: set<string>, ready: set<string>) {
    && kernel <= ready
    && (forall n :: n in ready ==> Ready(es, kernel, n))
    && (forall n :: n in ready && n !in kernel ==> Brought(es, kernel, ready, n))
  }

  ghost predicate Touches(e: Entry, ready: set<string>) {
    !(Names(e) !! ready)
  }

  ghost predicate Offers(es: seq<Entry>, ready: set<string>, e: Entry, n: string) {
    e in es && Eligible(e) && n in Names(e) && Touches(e, ready)
  }

  /** Nothing can be added: an interface whose dependencies are ready has a ready name itself. */
  ghost predicate Saturated(es: seq<Entry>, ready: set<string>) {
    forall e :: e in es && Eligible(e) && Met(e, ready) ==> Touches(e, ready)
  }

  ghost function AllNames(es: seq<Entry>): set<string> {
    set e, n | e in es && Eligible(e) && n in Names(e) :: n
  }

  /** Name `n` belongs to an interface that has a ready name. */
  ghost predicate Offered(es: seq<Entry>, ready: set<string>, n: string) {
    exists e :: Offers(es, ready, e, n)
  }

  ghost predicate AllOffered(es: seq<Entry>, ready: set<string>, ns: set<string>) {
    forall n :: n in ns ==> Offered(es, ready, n)
  }

  lemma {:induction false} OfferedMore(es: seq<Entry>, ready: set<string>, more: set<string>, ns: set<string>, e: Entry)
    requires AllOffered(es, ready, ns) && ready <= more && e in es && Eligible(e) && Touches(e, more)
    ensures AllOffered(es, more, ns + Names(e))
  {
    forall n | n in ns + Names(e)
      ensures Offered(es, more, n)
    {
      if n in Names(e) {
        assert Offers(es, more, e, n);
      } else {
        assert Offered(es, ready, n);
        var e' :| Offers(es, ready, e', n);
        assert Touches(e', more);
        assert Offers(es, more, e', n);
      }
    }
  }

  lemma {:induction false} VisitGrows(es: seq<Entry>, kernel: set<string>, e: Entry, ready: set<string>,
                                      more: set<string>)
    requires e in es && Eligible(e) && Grown(es, kernel, ready) && Names(e) !! ready && Met(e, ready)
    requires more == ready + Names(e)
    ensures Grown(es, kernel, more)
  {
    assert Names(e) !! kernel;
    forall n | n in more
      ensures Ready(es, kernel, n)
      ensures n !in kernel ==> Brought(es, kernel, more, n)
    {
      if n in ready {
        if n !in kernel {
          BroughtMore(es, kernel, ready, more, n);
        }
      } else {
        assert Builds(es, kernel, e, n);
        ReadyStep(es, kernel, e, n);
      }
    }
  }

  lemma {:induction false} FewerLeft(es: seq<Entry>, e: Entry, ready: set<string>)
    requires e in es && Eligible(e) && Names(e) !! ready
    ensures AllNames(es) - (ready + Names(e)) < AllNames(es) - ready
  {
  }

  /** One interface of one pass. */
  method Visit(es: seq<Entry>, kernel: set<string>, e: Entry, ready: set<string>, creatable: set<string>)
    returns (ready': set<string>, creatable': set<string>, changed: bool)
    requires e in es && Eligible(e) && Grown(es, kernel, ready) && AllOffered(es, ready, creatable)
    ensures Grown(es, kernel, ready') && ready <= ready'
    ensures AllOffered(es, ready', creatable') && creatable <= creatable'
    ensures Idle(e, ready', creatable') && ready' == After(e, ready)
    ensures if changed then AllNames(es) - ready' < AllNames(es) - ready else ready' == ready
  {
    ready', creatable', changed := ready, creatable, false;
    if !(Names(e) !! ready) {
      creatable' := creatable + Names(e);
      OfferedMore(es, ready, ready, creatable, e);
    } else if Met(e, ready) {
      creatable' := creatable + Names(e);
      ready' := ready + Names(e);
      changed := true;
      VisitGrows(es, kernel, e, ready, ready');
      FewerLeft(es, e, ready);
      assert e.name in Names(e) && Touches(e, ready');
      OfferedMore(es, ready, ready', creatable, e);
    }
  }

  /** Visiting the interface again adds nothing. */
  ghost predicate Idle(e: Entry, ready: set<string>, creatable: set<string>) {
    (Met(e, ready) ==> Touches(e, ready)) && (Touches(e, ready) ==> Names(e) <= creatable)
  }

  /** One pass over the list. */
  method Pass(es: seq<Entry>, kernel: set<string>, ready: set<string>, creatable: set<string>)
    returns (ready': set<string>, creatable': set<string>, changed: bool)
    requires Grown(es, kernel, ready) && AllOffered(es, ready, creatable)
    ensures Grown(es, kernel, ready') && AllOffered(es, ready', creatable')
    ensures ready' == Swept(es, ready)
    ensures if changed then AllNames(es) - ready' < AllNames(es) - ready
            else ready' == ready && Passed(es, |es|, ready', creatable')
  {
    ready', creatable', changed := ready, creatable, false;
    var i := 0;
    while i < |es|
      invariant 0 <= i <= |es|
      invariant Swept(es[i..], ready') == Swept(es, ready)
      invariant Grown(es, kernel, ready') && AllOffered(es, ready', creatable')
      invariant if changed then AllNames(es) - ready' < AllNames(es) - ready
                else ready' == ready && Passed(es, i, ready', creatable')
    {
      assert es[i..][0] == es[i] && es[i..][1..] == es[i + 1..];
      if Eligible(es[i]) {
        var grew;
        ready', creatable', grew := Visit(es, kernel, es[i], ready', creatable');
        changed := changed || grew;
      }
      i := i + 1;
    }
  }

  /** `creatable` is the result of the loop, which collected `ready` on the way: the names of the interfaces with a
      collected name. */
  ghost predicate Computes(es: seq<Entry>, kernel: set<string>, ready: set<string>, creatable: set<string>) {
    && Collected(es, kernel, ready) && Grown(es, kernel, ready) && Saturated(es, ready)
    && forall n :: n in creatable <==> Offered(es, ready, n)
  }

  /** The names of the saved virtual interfaces that can exist after the boot apply. */
  method CreatableNames(es: seq<Entry>, kernel: set<string>) returns (creatable: set<string>)
    ensures exists ready :: Computes(es, kernel, ready, creatable)
  {
    var ready := kernel;
    creatable := {};
    var changed := true;
    ghost var passes := 0;
    KernelGrown(es, kernel);
    while changed
      invariant Passes(es, kernel, passes) == ready && (!changed ==> Swept(es, ready) == ready)
      invariant Grown(es, kernel, ready) && AllOffered(es, ready, creatable)
      invariant !changed ==> Passed(es, |es|, ready, creatable)
      decreases AllNames(es) - ready, changed
    {
      ghost var before := ready;
      ready, creatable, changed := Pass(es, kernel, ready, creatable);
      passes := passes + 1;
      assert Passes(es, kernel, passes) == Swept(es, before);
    }
    PassedAll(es, ready, creatable);
    assert Computes(es, kernel, ready, creatable);
  }

  /** The first `i` interfaces cannot add anything. */
  ghost predicate Passed(es: seq<Entry>, i: nat, ready: set<string>, creatable: set<string>)
    requires i <= |es|
  {
    forall j :: 0 <= j < i && Eligible(es[j]) ==> Idle(es[j], ready, creatable)
  }

  lemma {:induction false} KernelGrown(es: seq<Entry>, kernel: set<string>)
    ensures Grown(es, kernel, kernel)
  {
    forall n | n in kernel
      ensures Ready(es, kernel, n)
    {
      assert Derived(es, kernel, n, 0);
    }
  }

  lemma {:induction false} PassedAll(es: seq<Entry>, ready: set<string>, creatable: set<string>)
    requires Passed(es, |es|, ready, creatable) && AllOffered(es, ready, creatable)
    ensures Saturated(es, ready)
    ensures forall n :: n in creatable <==> Offered(es, ready, n)
  {
  }

  // ---------------------------------------------------------------- what the loop computes

  /** No two saved virtual interfaces go by the same name. */
  ghost predicate NoSharing(es: seq<Entry>) {
    forall e, f :: e in es && f in es && Eligible(e) && Eligible(f) && e != f ==> Names(e) !! Names(f)
  }

  lemma {:induction false} OneOwner(es: seq<Entry>, e: Entry, f: Entry, n: string)
    requires NoSharing(es) && e in es && f in es && Eligible(e) && Eligible(f) && n in Names(e) && n in Names(f)
    ensures e == f
  {
  }

  lemma {:induction false} WholeInterface(es: seq<Entry>, kernel: set<string>, ready: set<string>, e: Entry)
    requires NoSharing(es) && Grown(es, kernel, ready) && e in es && Eligible(e) && Touches(e, ready) &&
             !Touches(e, kernel)
    ensures Names(e) <= ready
  {
  }

  lemma {:induction false} DerivedIsCollected(es: seq<Entry>, kernel: set<string>, ready: set<string>, n: string,
                                              k: nat)
    requires NoSharing(es) && Grown(es, kernel, ready) && Saturated(es, ready) && Derived(es, kernel, n, k)
    ensures n in ready
    decreases k
  {
    if n !in kernel {
      var e :| Builds(es, kernel, e, n) && forall i :: 0 <= i < |Deps(e)| ==> Derived(es, kernel, Deps(e)[i], k - 1);
      forall i | 0 <= i < |Deps(e)|
        ensures Deps(e)[i] in ready
      {
        DerivedIsCollected(es, kernel, ready, Deps(e)[i], k - 1);
      }
      assert Met(e, ready);
      WholeInterface(es, kernel, ready, e);
    }
  }

  /** The loop collects exactly the derivable names. */
  lemma {:induction false} ReadyExact(es: seq<Entry>, kernel: set<string>, ready: set<string>)
    requires NoSharing(es) && Grown(es, kernel, ready) && Saturated(es, ready)
    ensures forall n :: n in ready <==> Ready(es, kernel, n)
  {
    forall n | Ready(es, kernel, n)
      ensures n in ready
    {
      var k :| Derived(es, kernel, n, k);
      DerivedIsCollected(es, kernel, ready, n, k);
    }
  }

  lemma {:induction false} DerivedSame(es: seq<Entry>, es': seq<Entry>, kernel: set<string>, n: string, k: nat)
    requires (forall e :: e in es ==> e in es') && Derived(es, kernel, n, k)
    ensures Derived(es', kernel, n, k)
    decreases k
  {
    if n !in kernel {
      var e :| Builds(es, kernel, e, n) && forall i :: 0 <= i < |Deps(e)| ==> Derived(es, kernel, Deps(e)[i], k - 1);
      assert Builds(es', kernel, e, n);
      forall i | 0 <= i < |Deps(e)|
        ensures Derived(es', kernel, Deps(e)[i], k - 1)
      {
        DerivedSame(es, es', kernel, Deps(e)[i], k - 1);
      }
    }
  }

  lemma {:induction false} ReadyWithin(es: seq<Entry>, es': seq<Entry>, kernel: set<string>, ready: set<string>,
                                       ready': set<string>)
    requires forall e :: e in es ==> e in es'
    requires NoSharing(es') && Grown(es, kernel, ready) && Grown(es', kernel, ready') && Saturated(es', ready')
    ensures ready <= ready'
  {
    forall n | n in ready
      ensures n in ready'
    {
      assert Ready(es, kernel, n);
      var k :| Derived(es, kernel, n, k);
      DerivedSame(es, es', kernel, n, k);
      DerivedIsCollected(es', kernel, ready', n, k);
    }
  }

  /** The order of the saved interfaces does not matter. */
  lemma {:induction false} OrderIrrelevant(es: seq<Entry>, es': seq<Entry>, kernel: set<string>, ready: set<string>,
                                           ready': set<string>)
    requires forall e :: e in es <==> e in es'
    requires NoSharing(es)
    requires Grown(es, kernel, ready) && Saturated(es, ready) && Grown(es', kernel, ready') && Saturated(es', ready')
    ensures ready == ready'
    ensures forall n :: Offered(es, ready, n) <==> Offered(es', ready', n)
  {
    ReadyWithin(es, es', kernel, ready, ready');
    ReadyWithin(es', es, kernel, ready', ready);
    forall n
      ensures Offered(es, ready, n) <==> Offered(es', ready', n)
    {
      if e :| Offers(es, ready, e, n) {
        assert Offers(es', ready', e, n);
      }
      if e :| Offers(es', ready', e, n) {
        assert Offers(es, ready, e, n);
      }
    }
  }

  ghost predicate DependsOn(e: Entry, names: set<string>) {
    exists i :: 0 <= i < |Deps(e)| && Deps(e)[i] in names
  }

  /** Names outside the kernel that only depend on each other are never collected. */
  lemma {:induction false} CycleNeverDerived(es: seq<Entry>, kernel: set<string>, cycle: set<string>, n: string, k: nat)
    requires cycle !! kernel && n in cycle
    requires forall e :: e in es && Eligible(e) && Touches(e, cycle) ==> DependsOn(e, cycle)
    ensures !Derived(es, kernel, n, k)
    decreases k
  {
    if Derived(es, kernel, n, k) {
      var e :| Builds(es, kernel, e, n) && forall i :: 0 <= i < |Deps(e)| ==> Derived(es, kernel, Deps(e)[i], k - 1);
      assert Touches(e, cycle);
      var i :| 0 <= i < |Deps(e)| && Deps(e)[i] in cycle;
      CycleNeverDerived(es, kernel, cycle, Deps(e)[i], k - 1);
    }
  }

  lemma {:induction false} CyclesNeverCollected(es: seq<Entry>, kernel: set<string>, ready: set<string>,
                                                cycle: set<string>)
    requires Grown(es, kernel, ready) && cycle !! kernel
    requires forall e :: e in es && Eligible(e) && Touches(e, cycle) ==> DependsOn(e, cycle)
    ensures cycle !! ready
  {
    forall n | n in cycle
      ensures n !in ready
    {
      if n in ready {
        assert Ready(es, kernel, n);
        var k :| Derived(es, kernel, n, k);
        CycleNeverDerived(es, kernel, cycle, n, k);
      }
    }
  }

  /** What an interface outside the kernel waits for, from its fields: nothing when a plugin makes it, else its ports
      when it is a controller, else its parent when it has one. */
  ghost predicate WaitsForNothing(es: seq<Entry>, kernel: set<string>, e: Entry) {
    || e.userspace
    || (e.isController && forall p :: p in e.ports ==> Ready(es, kernel, p))
    || (!e.isController && (e.parent.None? || Ready(es, kernel, e.parent.value)))
  }

  lemma {:induction false} DependenciesFromFields(es: seq<Entry>, kernel: set<string>, e: Entry)
    ensures WaitsForNothing(es, kernel, e) <==> forall i :: 0 <= i < |Deps(e)| ==> Ready(es, kernel, Deps(e)[i])
  {
    hide Ready;
    if e.userspace {
    } else if e.isController {
      assert forall i :: 0 <= i < |e.ports| ==> e.ports[i] in e.ports && Deps(e)[i] == e.ports[i];
    } else if e.parent.Some? {
      assert |Deps(e)| == 1 && Deps(e)[0] == e.parent.value;
    }
  }

  /** Without shared names, an interface outside the kernel is collected exactly when it waits for nothing. */
  lemma {:induction false} CollectedExactly(es: seq<Entry>, kernel: set<string>, ready: set<string>, e: Entry,
                                            n: string)
    requires NoSharing(es) && Grown(es, kernel, ready) && Saturated(es, ready)
    requires e in es && e.isVirtual && !e.absent && !e.ignored && !e.wifiCfg && !Touches(e, kernel)
    requires n == e.name || (n == e.kernelName && n != "") || e.profile == Some(n)
    ensures n in ready <==> WaitsForNothing(es, kernel, e)
  {
    ReadyExact(es, kernel, ready);
    DependenciesFromFields(es, kernel, e);
    assert n in Names(e) && Eligible(e);
    hide Deps, WaitsForNothing, Grown, Saturated, Met;
    if n in ready {
      OwnDependencies(es, kernel, e, n);
    }
    if forall i :: 0 <= i < |Deps(e)| ==> Ready(es, kernel, Deps(e)[i]) {
      ReadyStep(es, kernel, e, n);
    }
  }

  lemma {:induction false} OwnDependencies(es: seq<Entry>, kernel: set<string>, e: Entry, n: string)
    requires NoSharing(es) && Owns(es, e, n) && n !in kernel && Ready(es, kernel, n)
    ensures forall i :: 0 <= i < |Deps(e)| ==> Ready(es, kernel, Deps(e)[i])
  {
    hide Deps, Eligible, Names;
    var k: nat :| Derived(es, kernel, n, k);
    var f :| Builds(es, kernel, f, n) && forall i :: 0 <= i < |Deps(f)| ==> Derived(es, kernel, Deps(f)[i], k - 1);
    OneOwner(es, e, f, n);
  }

  /** Every offered name is a name, kernel name or profile name of a virtual interface that is neither absent, ignored
      nor a wifi profile. */
  lemma {:induction false} OfferedNames(es: seq<Entry>, ready: set<string>, n: string)
    ensures Offered(es, ready, n) <==>
              exists e :: e in es && e.isVirtual && !e.absent && !e.ignored && !e.wifiCfg && Touches(e, ready)
                          && (n == e.name || (n == e.kernelName && n != "") || e.profile == Some(n))
  {
    if Offered(es, ready, n) {
      var e :| Offers(es, ready, e, n);
    }
    if e :| e in es && e.isVirtual && !e.absent && !e.ignored && !e.wifiCfg && Touches(e, ready)
            && (n == e.name || (n == e.kernelName && n != "") || e.profile == Some(n)) {
      assert Offers(es, ready, e, n);
    }
  }

  // ---------------------------------------------------------------- the documented set

  ghost predicate Owns(es: seq<Entry>, e: Entry, n: string) {
    e in es && Eligible(e) && n in Names(e)
  }

  /** The documented rule, in `k` rounds: a saved virtual interface that is in the kernel, or whose dependencies are in
      the kernel or in the set itself. */
  ghost predicate Documented(es: seq<Entry>, kernel: set<string>, n: string, k: nat)
    decreases k
  {
    && k > 0
    && exists e ::
         && Owns(es, e, n)
         && (Touches(e, kernel) ||
             forall i :: 0 <= i < |Deps(e)| ==> Deps(e)[i] in kernel || Documented(es, kernel, Deps(e)[i], k - 1))
  }

  ghost predicate InDocumented(es: seq<Entry>, kernel: set<string>, n: string) {
    exists k :: Documented(es, kernel, n, k)
  }

  lemma {:induction false} DocumentedLonger(es: seq<Entry>, kernel: set<string>, n: string, k: nat, m: nat)
    requires Documented(es, kernel, n, k) && k <= m
    ensures Documented(es, kernel, n, m)
    decreases k
  {
    var e :| Owns(es, e, n) &&
      (Touches(e, kernel) ||
       forall i :: 0 <= i < |Deps(e)| ==> Deps(e)[i] in kernel || Documented(es, kernel, Deps(e)[i], k - 1));
    if !Touches(e, kernel) {
      forall i | 0 <= i < |Deps(e)| && Deps(e)[i] !in kernel
        ensures Documented(es, kernel, Deps(e)[i], m - 1)
      {
        DocumentedLonger(es, kernel, Deps(e)[i], k - 1, m - 1);
      }
    }
  }

  ghost predicate DocumentedMet(es: seq<Entry>, kernel: set<string>, ns: seq<string>) {
    forall i :: 0 <= i < |ns| ==> ns[i] in kernel || InDocumented(es, kernel, ns[i])
  }

  lemma {:induction false} CommonDocumented(es: seq<Entry>, kernel: set<string>, ns: seq<string>) returns (k: nat)
    requires DocumentedMet(es, kernel, ns)
    ensures forall i :: 0 <= i < |ns| ==> ns[i] in kernel || Documented(es, kernel, ns[i], k)
    decreases |ns|
  {
    if ns == [] {
      k := 0;
    } else {
      var n := ns[|ns| - 1];
      assert forall i :: 0 <= i < |ns| - 1 ==> ns[..|ns| - 1][i] == ns[i];
      var before := CommonDocumented(es, kernel, ns[..|ns| - 1]);
      var last: nat := 0;
      if n !in kernel {
        last :| Documented(es, kernel, n, last);
      }
      k := if before <= last then last else before;
      forall i | 0 <= i < |ns| && ns[i] !in kernel
        ensures Documented(es, kernel, ns[i], k)
      {
        if i < |ns| - 1 {
          DocumentedLonger(es, kernel, ns[..|ns| - 1][i], before, k);
        } else {
          DocumentedLonger(es, kernel, n, last, k);
        }
      }
    }
  }

  /** A name other than the kernel's own for an interface the kernel has. */
  ghost predicate Alias(es: seq<Entry>, kernel: set<string>, n: string) {
    n !in kernel && exists f :: Owns(es, f, n) && Touches(f, kernel)
  }

  /** An interface the documented rule admits and the loop does not: it is not in the kernel, and among its satisfied
      dependencies is one that names a kernel interface by an alias. */
  ghost predicate Missed(es: seq<Entry>, kernel: set<string>, e: Entry) {
    && e in es && Eligible(e) && !Touches(e, kernel)
    && DocumentedMet(es, kernel, Deps(e))
    && exists i :: 0 <= i < |Deps(e)| && Alias(es, kernel, Deps(e)[i])
  }

  lemma {:induction false} DerivedIsDocumented(es: seq<Entry>, kernel: set<string>, n: string, k: nat)
    requires Derived(es, kernel, n, k) && n !in kernel
    ensures Documented(es, kernel, n, k)
    decreases k
  {
    var e :| Builds(es, kernel, e, n) && forall i :: 0 <= i < |Deps(e)| ==> Derived(es, kernel, Deps(e)[i], k - 1);
    assert Owns(es, e, n);
    forall i | 0 <= i < |Deps(e)| && Deps(e)[i] !in kernel
      ensures Documented(es, kernel, Deps(e)[i], k - 1)
    {
      DerivedIsDocumented(es, kernel, Deps(e)[i], k - 1);
    }
  }

  /** Another saved virtual interface goes by one of its names. */
  ghost predicate Shares(es: seq<Entry>, e: Entry) {
    exists f :: f in es && Eligible(f) && f != e && Touches(f, Names(e))
  }

  /** The documented rule admits the interface. */
  ghost predicate Admissible(es: seq<Entry>, kernel: set<string>, e: Entry) {
    Touches(e, kernel) || DocumentedMet(es, kernel, Deps(e))
  }

  /** No interface that shares a name lacks a dependency. */
  ghost predicate SharersAdmissible(es: seq<Entry>, kernel: set<string>) {
    forall e :: e in es && Eligible(e) && Shares(es, e) ==> Admissible(es, kernel, e)
  }

  lemma {:induction false} AdmissibleDocumented(es: seq<Entry>, kernel: set<string>, e: Entry, n: string)
    requires Owns(es, e, n) && Admissible(es, kernel, e)
    ensures InDocumented(es, kernel, n)
  {
    if Touches(e, kernel) {
      assert Documented(es, kernel, n, 1);
    } else {
      var k := CommonDocumented(es, kernel, Deps(e));
      assert Documented(es, kernel, n, k + 1);
    }
  }

  /** An interface that shares no name and is offered is in the kernel, or was collected with its dependencies. */
  lemma {:induction false} OfferedAdmissible(es: seq<Entry>, kernel: set<string>, ready: set<string>, e: Entry)
    requires Grown(es, kernel, ready) && e in es && Eligible(e) && !Shares(es, e) && Touches(e, ready)
    ensures Admissible(es, kernel, e)
  {
    if !Touches(e, kernel) {
      var m :| m in Names(e) && m in ready;
      assert Ready(es, kernel, m);
      var k: nat :| Derived(es, kernel, m, k);
      var f :| Builds(es, kernel, f, m) && forall i :: 0 <= i < |Deps(f)| ==> Derived(es, kernel, Deps(f)[i], k - 1);
      assert f == e by {
        assert m in Names(f) && Touches(f, Names(e));
      }
      forall i | 0 <= i < |Deps(e)| && Deps(e)[i] !in kernel
        ensures InDocumented(es, kernel, Deps(e)[i])
      {
        DerivedIsDocumented(es, kernel, Deps(e)[i], k - 1);
      }
    }
  }

  /** Everything the loop offers is documented. */
  lemma {:induction false} OfferedIsDocumented(es: seq<Entry>, kernel: set<string>, ready: set<string>, n: string)
    requires SharersAdmissible(es, kernel) && Grown(es, kernel, ready) && Offered(es, ready, n)
    ensures InDocumented(es, kernel, n)
  {
    var e :| Offers(es, ready, e, n);
    assert Owns(es, e, n);
    if !Shares(es, e) {
      OfferedAdmissible(es, kernel, ready, e);
    }
    AdmissibleDocumented(es, kernel, e, n);
  }

  lemma {:induction false} NoSharingAdmissible(es: seq<Entry>, kernel: set<string>)
    requires NoSharing(es)
    ensures SharersAdmissible(es, kernel)
  {
    forall e | e in es && Eligible(e)
      ensures !Shares(es, e)
    {
      forall f | f in es && Eligible(f) && f != e
        ensures !Touches(f, Names(e))
      {
        assert Names(f) !! Names(e);
      }
    }
  }

  lemma {:induction false} OfferedOwnName(es: seq<Entry>, kernel: set<string>, ready: set<string>, n: string)
    requires NoSharing(es) && Grown(es, kernel, ready) && Offered(es, ready, n) && !Alias(es, kernel, n)
    ensures n in ready
  {
    var f :| Offers(es, ready, f, n);
    if n !in kernel {
      assert Owns(es, f, n);
      WholeInterface(es, kernel, ready, f);
    }
  }

  lemma {:induction false} DocumentedIsOffered(es: seq<Entry>, kernel: set<string>, ready: set<string>, n: string,
                                               k: nat)
    requires NoSharing(es) && Grown(es, kernel, ready) && Saturated(es, ready)
    requires (forall e :: !Missed(es, kernel, e)) && Documented(es, kernel, n, k)
    ensures Offered(es, ready, n)
    decreases k
  {
    var e :| Owns(es, e, n) &&
      (Touches(e, kernel) ||
       forall i :: 0 <= i < |Deps(e)| ==> Deps(e)[i] in kernel || Documented(es, kernel, Deps(e)[i], k - 1));
    if !Touches(e, kernel) {
      assert DocumentedMet(es, kernel, Deps(e)) && !Missed(es, kernel, e);
      forall i | 0 <= i < |Deps(e)|
        ensures Deps(e)[i] in ready
      {
        if Deps(e)[i] !in kernel {
          DocumentedIsOffered(es, kernel, ready, Deps(e)[i], k - 1);
          OfferedOwnName(es, kernel, ready, Deps(e)[i]);
        }
      }
      assert Met(e, ready);
    } else {
      var m :| m in Names(e) && m in kernel;
      assert m in ready;
    }
    assert Offers(es, ready, e, n);
  }

  lemma {:induction false} MissedNotDerived(es: seq<Entry>, kernel: set<string>, e: Entry, n: string, k: nat)
    requires NoSharing(es) && Missed(es, kernel, e) && n in Names(e)
    ensures !Derived(es, kernel, n, k)
  {
  }

  lemma {:induction false} MissedNotOffered(es: seq<Entry>, kernel: set<string>, ready: set<string>, e: Entry,
                                            n: string)
    requires NoSharing(es) && Grown(es, kernel, ready) && Missed(es, kernel, e) && n in Names(e)
    ensures !Offered(es, ready, n)
  {
    if Offered(es, ready, n) {
      var f :| Offers(es, ready, f, n);
      OneOwner(es, e, f, n);
      WholeInterface(es, kernel, ready, e);
      assert Ready(es, kernel, n);
      var k :| Derived(es, kernel, n, k);
      MissedNotDerived(es, kernel, e, n, k);
    }
  }

  lemma {:induction false} MissedIsDocumented(es: seq<Entry>, kernel: set<string>, e: Entry, n: string)
    requires Missed(es, kernel, e) && n in Names(e)
    ensures InDocumented(es, kernel, n)
  {
    assert Owns(es, e, n);
    AdmissibleDocumented(es, kernel, e, n);
  }

  /** The loop computes the documented set exactly when no interface depends on a kernel interface by an alias. */
  lemma {:induction false} DocumentedExactlyWhen(es: seq<Entry>, kernel: set<string>, ready: set<string>)
    requires NoSharing(es) && Grown(es, kernel, ready) && Saturated(es, ready)
    ensures (forall n :: InDocumented(es, kernel, n) <==> Offered(es, ready, n)) <==> forall e :: !Missed(es, kernel, e)
  {
    if forall e :: !Missed(es, kernel, e) {
      forall n
        ensures InDocumented(es, kernel, n) <==> Offered(es, ready, n)
      {
        if InDocumented(es, kernel, n) {
          var k :| Documented(es, kernel, n, k);
          DocumentedIsOffered(es, kernel, ready, n, k);
        }
        if Offered(es, ready, n) {
          NoSharingAdmissible(es, kernel);
          OfferedIsDocumented(es, kernel, ready, n);
        }
      }
    } else {
      var e :| Missed(es, kernel, e);
      assert e.name in Names(e);
      MissedIsDocumented(es, kernel, e, e.name);
      MissedNotOffered(es, kernel, ready, e, e.name);
    }
  }

  /** An interface over a kernel interface, named by an alias of that one, is left to the event path. */
  lemma {:induction false} AliasedParentMissed(lower: Entry, upper: Entry, kernel: set<string>, n: string)
    requires Eligible(lower) && Touches(lower, kernel) && n in Names(lower) && n !in kernel
    requires Eligible(upper) && !Touches(upper, kernel) && Names(upper) !! Names(lower) && Deps(upper) == [n]
    ensures NoSharing([lower, upper]) && Missed([lower, upper], kernel, upper)
  {
    var es := [lower, upper];
    assert es[0] == lower && es[1] == upper;
    assert Owns(es, lower, n);
    assert Documented(es, kernel, n, 1);
    assert Deps(upper)[0] == n && Alias(es, kernel, n);
  }

  function Plain(name: string, profile: Option<string>, parent: Option<string>): Entry {
    Entry(name, name, profile, false, true, false, false, false, false, [], parent, None, false)
  }

  /** For example a VLAN over an existing bond, named by the bond's profile. */
  lemma {:induction false} VlanOverProfileMissed()
    ensures var bond, vlan := Plain("b", Some("up"), None), Plain("vlan", None, Some("up"));
            Missed([bond, vlan], {"b"}, vlan)
  {
    var bond, vlan := Plain("b", Some("up"), None), Plain("vlan", None, Some("up"));
    assert |"b"| == 1 && |"up"| == 2 && |"vlan"| == 4;
    assert "b" in Names(bond) && "up" in Names(bond);
    assert Touches(bond, {"b"});
    AliasedParentMissed(bond, vlan, {"b"}, "up");
  }

  lemma {:induction false} PassesStay(es: seq<Entry>, kernel: set<string>, k: nat, m: nat)
    requires k <= m && Swept(es, Passes(es, kernel, k)) == Passes(es, kernel, k)
    ensures Passes(es, kernel, m) == Passes(es, kernel, k)
    decreases m
  {
    if k < m {
      PassesStay(es, kernel, k, m - 1);
    }
  }

  /** A list and the kernel determine what the loop collects. */
  lemma {:induction false} CollectedUnique(es: seq<Entry>, kernel: set<string>, ready: set<string>, ready': set<string>)
    requires Collected(es, kernel, ready) && Collected(es, kernel, ready')
    ensures ready == ready'
  {
    var k :| Passes(es, kernel, k) == ready;
    var m :| Passes(es, kernel, m) == ready';
    if k <= m {
      PassesStay(es, kernel, k, m);
    } else {
      PassesStay(es, kernel, m, k);
    }
  }

  lemma {:induction false} SweepThree(a: Entry, b: Entry, c: Entry, ready: set<string>)
    ensures Swept([a, b, c], ready) == After(c, After(b, After(a, ready)))
  {
    assert [a, b, c][1..] == [b, c] && [b, c][1..] == [c] && [c][1..] == [];
    assert Swept([c], After(b, After(a, ready))) == Swept([], After(c, After(b, After(a, ready))));
    assert Swept([b, c], After(a, ready)) == Swept([c], After(b, After(a, ready)));
  }

  /** When two interfaces share a name the order does matter: whichever of `a` and `b` comes first makes the other one
      look present, and only the first one's own name becomes ready for `c`. */
  lemma {:induction false} SharedNameOrderMatters(a: Entry, b: Entry, c: Entry, kernel: set<string>,
                                                  ready: set<string>, ready': set<string>)
    requires Eligible(a) && Eligible(b) && Eligible(c) && Touches(a, Names(b)) && b.name !in Names(a)
    requires Names(a) !! kernel && Names(b) !! kernel && Names(c) !! kernel + Names(a) + Names(b)
    requires Deps(a) == [] && Deps(b) == [] && Deps(c) == [b.name]
    requires Collected([a, b, c], kernel, ready) && Collected([b, a, c], kernel, ready')
    ensures c.name !in ready && c.name in ready'
  {
    assert b.name in Names(b) && c.name in Names(c);
    var r := kernel + Names(a);
    assert After(a, kernel) == r && After(a, r) == r && After(b, r) == r;
    assert Deps(c)[0] !in r;
    assert After(c, r) == r;
    SweepThree(a, b, c, kernel);
    SweepThree(a, b, c, r);
    assert Passes([a, b, c], kernel, 1) == r by { assert Passes([a, b, c], kernel, 0) == kernel; }
    CollectedUnique([a, b, c], kernel, ready, r);
    SweepSecond(a, b, c, kernel, ready');
  }

  lemma {:induction false} SweepSecond(a: Entry, b: Entry, c: Entry, kernel: set<string>, ready: set<string>)
    requires Eligible(a) && Eligible(b) && Eligible(c) && Touches(a, Names(b))
    requires Names(a) !! kernel && Names(b) !! kernel && Names(c) !! kernel + Names(a) + Names(b)
    requires Deps(a) == [] && Deps(b) == [] && Deps(c) == [b.name]
    requires Collected([b, a, c], kernel, ready)
    ensures Names(c) <= ready
  {
    assert b.name in Names(b);
    var r := kernel + Names(b);
    var r' := r + Names(c);
    assert After(b, kernel) == r && After(a, r) == r;
    assert Met(c, r) && After(c, r) == r';
    assert After(b, r') == r' && After(a, r') == r' && After(c, r') == r';
    SweepThree(b, a, c, kernel);
    SweepThree(b, a, c, r');
    assert Passes([b, a, c], kernel, 1) == r' by { assert Passes([b, a, c], kernel, 0) == kernel; }
    CollectedUnique([b, a, c], kernel, ready, r');
  }

  lemma {:induction false} SweepTwo(a: Entry, b: Entry, ready: set<string>)
    ensures Swept([a, b], ready) == After(b, After(a, ready))
  {
    assert [a, b][1..] == [b] && [b][1..] == [];
    assert Swept([b], After(a, ready)) == Swept([], After(b, After(a, ready)));
  }

  /** An interface that lacks its dependency is offered when it shares a name with one that is created. */
  lemma {:induction false} SharedNameOffersImpossible(a: Entry, b: Entry, x: string, kernel: set<string>,
                                                      ready: set<string>)
    requires Eligible(a) && Eligible(b) && Touches(b, Names(a)) && b.name !in Names(a)
    requires Names(a) !! kernel && Names(b) !! kernel && Deps(a) == [] && Deps(b) == [x]
    requires x !in kernel && x !in Names(a) && x !in Names(b) && Collected([a, b], kernel, ready)
    ensures Offered([a, b], ready, b.name) && !InDocumented([a, b], kernel, b.name)
  {
    var es := [a, b];
    assert es[0] == a && es[1] == b;
    var r := kernel + Names(a);
    assert After(a, kernel) == r && After(a, r) == r && After(b, r) == r;
    SweepTwo(a, b, kernel);
    SweepTwo(a, b, r);
    assert Passes(es, kernel, 1) == r by { assert Passes(es, kernel, 0) == kernel; }
    CollectedUnique(es, kernel, ready, r);
    assert b.name in Names(b) && Offers(es, ready, b, b.name);
    forall k: nat
      ensures !Documented(es, kernel, b.name, k)
    {
      assert forall m: nat :: !Documented(es, kernel, x, m);
      assert Deps(b)[0] == x;
    }
  }
}
