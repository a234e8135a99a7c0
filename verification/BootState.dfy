/**
 The state applied at boot: interfaces activated by hand, and whatever depends on them, are taken out of the saved
 state; the part not attached to a NIC is applied at once, with the routes and rules that can already be installed.
 */
module BootState {
  import opened Base
  import opened BootDeps

  // ---------------------------------------------------------------- filtering a list

  function Filter<T(!new)>(xs: seq<T>, keep: T -> bool): (r: seq<T>)
    ensures forall x :: x in r <==> x in xs && keep(x)
  {
    if xs == [] then [] else (if keep(xs[0]) then [xs[0]] else []) + Filter(xs[1..], keep)
  }

  lemma {:induction false} FilterSame<T(!new)>(xs: seq<T>, p: T -> bool, q: T -> bool)
    requires forall x :: x in xs ==> p(x) == q(x)
    ensures Filter(xs, p) == Filter(xs, q)
    decreases |xs|
  {
    if xs != [] {
      FilterSame(xs[1..], p, q);
    }
  }

  lemma {:induction false} FilterAll<T(!new)>(xs: seq<T>, p: T -> bool)
    requires forall x :: x in xs ==> p(x)
    ensures Filter(xs, p) == xs
    decreases |xs|
  {
    if xs != [] {
      FilterAll(xs[1..], p);
      assert xs == [xs[0]] + xs[1..];
    }
  }

  // ---------------------------------------------------------------- manual activation

  /** The one interface an interface depends on: its controller, else its parent. */
  function Dependency(e: Entry): Option<string> {
    if e.controller.Some? then e.controller else e.parent
  }

  /** Within `k` steps along dependencies, name `n` leads to a manually activated interface. */
  ghost predicate LeadsToManual(es: seq<Entry>, n: string, k: nat)
    decreases k
  {
    && k > 0
    && exists e ::
         Named(es, e, n) && (e.manual || (Dependency(e).Some? && LeadsToManual(es, Dependency(e).value, k - 1)))
  }

  ghost predicate Named(es: seq<Entry>, e: Entry, n: string) {
    e in es && e.name == n
  }

  ghost predicate Excluded(es: seq<Entry>, n: string) {
    exists k :: LeadsToManual(es, n, k)
  }

  lemma {:induction false} ManualExcluded(es: seq<Entry>, e: Entry)
    requires e in es && e.manual
    ensures Excluded(es, e.name)
  {
    assert Named(es, e, e.name);
    assert LeadsToManual(es, e.name, 1);
  }

  lemma {:induction false} DependentExcluded(es: seq<Entry>, e: Entry)
    requires e in es && Dependency(e).Some? && Excluded(es, Dependency(e).value)
    ensures Excluded(es, e.name)
  {
    var k: nat :| LeadsToManual(es, Dependency(e).value, k);
    assert Named(es, e, e.name);
    assert LeadsToManual(es, e.name, k + 1);
  }

  function EntryNames(es: seq<Entry>): set<string> {
    set e | e in es :: e.name
  }

  ghost predicate OnlyExcluded(es: seq<Entry>, xs: seq<string>) {
    forall n :: n in xs ==> n in EntryNames(es) && Excluded(es, n)
  }

  predicate Blocked(e: Entry, xs: seq<string>) {
    e.manual || (Dependency(e).Some? && Dependency(e).value in xs)
  }

  ghost predicate Closed(es: seq<Entry>, i: nat, xs: seq<string>)
    requires i <= |es|
  {
    forall j :: 0 <= j < i && Blocked(es[j], xs) ==> es[j].name in xs
  }

  method ManualNames(es: seq<Entry>) returns (xs: seq<string>)
    ensures OnlyExcluded(es, xs)
    ensures forall e :: e in es && e.manual ==> e.name in xs
  {
    xs := [];
    var i := 0;
    while i < |es|
      invariant 0 <= i <= |es|
      invariant OnlyExcluded(es, xs)
      invariant forall j :: 0 <= j < i && es[j].manual ==> es[j].name in xs
    {
      if es[i].manual {
        ManualExcluded(es, es[i]);
        xs := xs + [es[i].name];
      }
      i := i + 1;
    }
  }

  /** One pass over the list, adding the dependents of what is excluded. */
  method ExcludePass(es: seq<Entry>, xs: seq<string>) returns (xs': seq<string>, changed: bool)
    requires OnlyExcluded(es, xs) && forall e :: e in es && e.manual ==> e.name in xs
    ensures OnlyExcluded(es, xs') && forall n :: n in xs ==> n in xs'
    ensures if changed then EntryNames(es) - SetOf(xs') < EntryNames(es) - SetOf(xs)
            else xs' == xs && Closed(es, |es|, xs)
  {
    xs', changed := xs, false;
    var i := 0;
    while i < |es|
      invariant 0 <= i <= |es|
      invariant OnlyExcluded(es, xs') && forall n :: n in xs ==> n in xs'
      invariant if changed then EntryNames(es) - SetOf(xs') < EntryNames(es) - SetOf(xs)
                else xs' == xs && Closed(es, i, xs)
    {
      var e := es[i];
      if e.name !in xs' && Dependency(e).Some? && Dependency(e).value in xs' {
        DependentExcluded(es, e);
        assert e.name in EntryNames(es) - SetOf(xs');
        assert SetOf(xs' + [e.name]) == SetOf(xs') + {e.name};
        xs' := xs' + [e.name];
        changed := true;
      }
      i := i + 1;
    }
  }

  lemma {:induction false} ClosedComplete(es: seq<Entry>, xs: seq<string>, n: string, k: nat)
    requires Closed(es, |es|, xs) && LeadsToManual(es, n, k)
    ensures n in xs
    decreases k
  {
    var e :| Named(es, e, n) && (e.manual || (Dependency(e).Some? && LeadsToManual(es, Dependency(e).value, k - 1)));
    var j :| 0 <= j < |es| && es[j] == e;
    if !e.manual {
      ClosedComplete(es, xs, Dependency(e).value, k - 1);
    }
    assert Blocked(es[j], xs);
  }

  /** The names from which a manually activated interface can be reached. */
  method ExcludedNames(es: seq<Entry>) returns (xs: seq<string>)
    ensures forall n :: n in xs <==> Excluded(es, n)
  {
    xs := ManualNames(es);
    var changed := true;
    while changed
      invariant OnlyExcluded(es, xs) && forall e :: e in es && e.manual ==> e.name in xs
      invariant !changed ==> Closed(es, |es|, xs)
      decreases EntryNames(es) - SetOf(xs), changed
    {
      xs, changed := ExcludePass(es, xs);
    }
    forall n | Excluded(es, n)
      ensures n in xs
    {
      var k: nat :| LeadsToManual(es, n, k);
      ClosedComplete(es, xs, n, k);
    }
  }

  /** From the fields: an interface is excluded exactly when one of its name is manual, or has a controller that is
      excluded, or has no controller and a parent that is excluded. */
  lemma {:induction false} ExcludedExactly(es: seq<Entry>, n: string)
    ensures Excluded(es, n) <==>
              exists e :: e in es && e.name == n
                          && (|| e.manual
                              || (e.controller.Some? && Excluded(es, e.controller.value))
                              || (e.controller.None? && e.parent.Some? && Excluded(es, e.parent.value)))
  {
    if Excluded(es, n) {
      var k: nat :| LeadsToManual(es, n, k);
      var e :| Named(es, e, n) && (e.manual || (Dependency(e).Some? && LeadsToManual(es, Dependency(e).value, k - 1)));
    }
    if e :| e in es && e.name == n
            && (|| e.manual
                || (e.controller.Some? && Excluded(es, e.controller.value))
                || (e.controller.None? && e.parent.Some? && Excluded(es, e.parent.value))) {
      if e.manual {
        ManualExcluded(es, e);
      } else {
        DependentExcluded(es, e);
      }
    }
  }

  /** The key a saved interface is stored under. */
  function Key(e: Entry): string {
    if e.kernelName == "" then e.name else e.kernelName
  }

  ghost predicate Allowed(es: seq<Entry>, n: Option<string>) {
    n.None? || !Excluded(es, n.value)
  }

  /** What stays: interfaces whose key is not excluded, routes and rules that name no excluded interface. */
  ghost function StoredFree(es: seq<Entry>): Entry -> bool {
    (e: Entry) => !Excluded(es, Key(e))
  }

  ghost function RouteFree(es: seq<Entry>): Route -> bool {
    (route: Route) => Allowed(es, route.nextHop)
  }

  ghost function RuleFree(es: seq<Entry>): Rule -> bool {
    (rule: Rule) => Allowed(es, rule.iif)
  }

  method RemoveManual(saved: Saved) returns (r: Saved)
    ensures r.ifaces == Filter(saved.ifaces, StoredFree(saved.ifaces))
    ensures r.routes == if saved.routes.None? then None else Some(Filter(saved.routes.value, RouteFree(saved.ifaces)))
    ensures r.rules == if saved.rules.None? then None else Some(Filter(saved.rules.value, RuleFree(saved.ifaces)))
  {
    var es := saved.ifaces;
    var xs := ExcludedNames(es);
    if xs == [] {
      NothingExcluded(saved);
      return saved;
    }
    var free := (n: Option<string>) => n.None? || n.value !in xs;
    var ifaces := Filter(es, e => Key(e) !in xs);
    FilterSame(es, e => Key(e) !in xs, StoredFree(es));
    r := Saved(ifaces, None, None);
    if saved.routes.Some? {
      var keep := (route: Route) => free(route.nextHop);
      r := r.(routes := Some(Filter(saved.routes.value, keep)));
      FilterSame(saved.routes.value, keep, RouteFree(es));
    }
    if saved.rules.Some? {
      var keep := (rule: Rule) => free(rule.iif);
      r := r.(rules := Some(Filter(saved.rules.value, keep)));
      FilterSame(saved.rules.value, keep, RuleFree(es));
    }
  }

  lemma {:induction false} NothingExcluded(saved: Saved)
    requires forall n :: !Excluded(saved.ifaces, n)
    ensures Filter(saved.ifaces, StoredFree(saved.ifaces)) == saved.ifaces
    ensures saved.routes.Some? ==> Filter(saved.routes.value, RouteFree(saved.ifaces)) == saved.routes.value
    ensures saved.rules.Some? ==> Filter(saved.rules.value, RuleFree(saved.ifaces)) == saved.rules.value
  {
    FilterAll(saved.ifaces, StoredFree(saved.ifaces));
    if saved.routes.Some? {
      FilterAll(saved.routes.value, RouteFree(saved.ifaces));
    }
    if saved.rules.Some? {
      FilterAll(saved.rules.value, RuleFree(saved.ifaces));
    }
  }

  // ---------------------------------------------------------------- when removal is complete

  /** No saved interface has the name of another one as its kernel name. */
  ghost predicate KernelNamesOwn(es: seq<Entry>) {
    forall e, f :: e in es && f in es && e.kernelName == f.name ==> e.name == f.name
  }

  /** An interface that goes by its kernel name, or has none. */
  predicate Unrenamed(e: Entry) {
    e.kernelName == "" || e.kernelName == e.name
  }

  /** Every interface that leads to a manually activated one goes by its kernel name. */
  ghost predicate ExcludedUnrenamed(es: seq<Entry>) {
    forall e :: e in es && Excluded(es, e.name) ==> Unrenamed(e)
  }

  lemma {:induction false} NotNamedFree(es: seq<Entry>, n: string)
    requires forall e :: e in es ==> e.name != n
    ensures !Excluded(es, n)
  {
    forall k: nat
      ensures !LeadsToManual(es, n, k)
    {
    }
  }

  lemma {:induction false} RenamedKeyFree(es: seq<Entry>, e: Entry)
    requires KernelNamesOwn(es) && e in es && !Unrenamed(e)
    ensures !Excluded(es, Key(e))
  {
    NotNamedFree(es, Key(e));
  }

  /** A renamed interface whose kernel name is the name of an excluded one. */
  ghost predicate OntoExcluded(es: seq<Entry>, e: Entry) {
    exists f :: f in es && f.name == e.kernelName && Excluded(es, f.name)
  }

  /** Exactly the interfaces that lead to a manually activated one are removed, if and only if among the renamed ones
      those are the ones renamed onto an excluded name. */
  lemma {:induction false} RemovalExactWhen(es: seq<Entry>)
    ensures (forall e :: e in es ==> (e in Filter(es, StoredFree(es)) <==> !Excluded(es, e.name)))
            <==> (forall e :: e in es && !Unrenamed(e) ==> (Excluded(es, e.name) <==> OntoExcluded(es, e)))
  {
    forall e | e in es && !Unrenamed(e)
      ensures Excluded(es, Key(e)) <==> OntoExcluded(es, e)
    {
      if forall f :: f in es ==> f.name != Key(e) {
        NotNamedFree(es, Key(e));
      }
    }
  }

  /** When no kernel name is another interface's name: if and only if all excluded ones go by their kernel name. */
  lemma {:induction false} RemovalExactUnclashed(es: seq<Entry>)
    requires KernelNamesOwn(es)
    ensures (forall e :: e in es ==> (e in Filter(es, StoredFree(es)) <==> !Excluded(es, e.name)))
            <==> ExcludedUnrenamed(es)
  {
    forall e | e in es
      ensures (e in Filter(es, StoredFree(es)) <==> !Excluded(es, e.name)) <==> (Excluded(es, e.name) ==> Unrenamed(e))
    {
      if !Unrenamed(e) {
        RenamedKeyFree(es, e);
      }
    }
  }

  /** No interface that stays leads to a manually activated one, whatever the other names are. */
  lemma {:induction false} SurvivorsFree(es: seq<Entry>, e: Entry)
    requires ExcludedUnrenamed(es) && e in Filter(es, StoredFree(es))
    ensures !Excluded(es, e.name)
  {
  }

  /** Then no interface that stays depends on an excluded one. */
  lemma {:induction false} SurvivorsIndependent(es: seq<Entry>, e: Entry)
    requires ExcludedUnrenamed(es) && e in Filter(es, StoredFree(es))
    ensures !e.manual && Allowed(es, Dependency(e))
  {
    SurvivorsFree(es, e);
    if e.manual {
      ManualExcluded(es, e);
    } else if !Allowed(es, Dependency(e)) {
      DependentExcluded(es, e);
    }
  }

  lemma {:induction false} StillLeads(es: seq<Entry>, es': seq<Entry>, n: string, k: nat)
    requires (forall e :: e in es' ==> e in es) && LeadsToManual(es', n, k)
    ensures LeadsToManual(es, n, k)
    decreases k
  {
    var e :| Named(es', e, n) && (e.manual || (Dependency(e).Some? && LeadsToManual(es', Dependency(e).value, k - 1)));
    assert Named(es, e, n);
    if !e.manual {
      StillLeads(es, es', Dependency(e).value, k - 1);
    }
  }

  /** Then nothing manual can be reached from what stays: removing again removes nothing. */
  lemma {:induction false} RemovedOnce(es: seq<Entry>, n: string)
    requires ExcludedUnrenamed(es)
    ensures !Excluded(Filter(es, StoredFree(es)), n)
    ensures Filter(Filter(es, StoredFree(es)), StoredFree(Filter(es, StoredFree(es)))) == Filter(es, StoredFree(es))
  {
    var kept := Filter(es, StoredFree(es));
    forall m
      ensures !Excluded(kept, m)
    {
      if Excluded(kept, m) {
        var k: nat :| LeadsToManual(kept, m, k);
        var e :| Named(kept, e, m);
        StillLeads(es, kept, m, k);
        SurvivorsFree(es, e);
        assert false;
      }
    }
    FilterAll(kept, StoredFree(kept));
  }

  /** A manual interface with a name of its own and another kernel name is not removed. */
  lemma {:induction false} RenamedManualStays(e: Entry)
    requires e.manual && !Unrenamed(e)
    ensures Excluded([e], e.name) && e in Filter([e], StoredFree([e]))
  {
    assert [e][0] == e;
    ManualExcluded([e], e);
    NotNamedFree([e], e.kernelName);
  }

  /** An interface whose kernel name is the name of a manual one is removed although it depends on nothing. */
  lemma {:induction false} ClashRemovesOther(e: Entry, manual: Entry)
    requires manual.manual && !e.manual && Dependency(e).None?
    requires e.kernelName == manual.name && e.kernelName != "" && e.name != manual.name
    ensures !Excluded([e, manual], e.name) && e !in Filter([e, manual], StoredFree([e, manual]))
  {
    var es := [e, manual];
    assert es[0] == e && es[1] == manual;
    ManualExcluded(es, manual);
    forall k: nat
      ensures !LeadsToManual(es, e.name, k)
    {
    }
  }

  // ---------------------------------------------------------------- the boot state

  predicate NotOnNic(e: Entry) {
    e.isVirtual && !e.wifiCfg && !e.ignored
  }

  ghost function HopOffered(es: seq<Entry>, ready: set<string>): Route -> bool {
    (route: Route) => route.nextHop.None? || Offered(es, ready, route.nextHop.value)
  }

  ghost function IifOffered(es: seq<Entry>, ready: set<string>): Rule -> bool {
    (rule: Rule) => rule.iif.None? || Offered(es, ready, rule.iif.value)
  }

  /** The saved state that is applied before any link event.  A list of routes left empty is not part of it. */
  method NonNicState(saved: Saved, kernel: set<string>) returns (r: Saved, ghost ready: set<string>)
    ensures Collected(saved.ifaces, kernel, ready) && Grown(saved.ifaces, kernel, ready) &&
            Saturated(saved.ifaces, ready)
    ensures r.ifaces == Filter(saved.ifaces, NotOnNic)
    ensures var routes := if saved.routes.None? then []
                          else Filter(saved.routes.value, HopOffered(saved.ifaces, ready));
            r.routes == if routes == [] then None else Some(routes)
    ensures r.rules == if saved.rules.None? then None
                       else Some(Filter(saved.rules.value, IifOffered(saved.ifaces, ready)))
  {
    var creatable := CreatableNames(saved.ifaces, kernel);
    ready :| Computes(saved.ifaces, kernel, ready, creatable);
    r := Saved(Filter(saved.ifaces, NotOnNic), None, None);
    if saved.routes.Some? {
      var keep := (route: Route) => route.nextHop.None? || route.nextHop.value in creatable;
      FilterSame(saved.routes.value, keep, HopOffered(saved.ifaces, ready));
      var routes := Filter(saved.routes.value, keep);
      if routes != [] {
        r := r.(routes := Some(routes));
      }
    }
    if saved.rules.Some? {
      var keep := (rule: Rule) => rule.iif.None? || rule.iif.value in creatable;
      FilterSame(saved.rules.value, keep, IifOffered(saved.ifaces, ready));
      r := r.(rules := Some(Filter(saved.rules.value, keep)));
    }
  }

  /** What removal and the boot state keep, from the fields. */
  lemma {:induction false} KeptFields(es: seq<Entry>, e: Entry)
    ensures e in Filter(es, StoredFree(es)) <==>
              e in es && (e.kernelName == "" ==> !Excluded(es, e.name)) &&
                (e.kernelName != "" ==> !Excluded(es, e.kernelName))
    ensures e in Filter(es, NotOnNic) <==> e in es && e.isVirtual && !e.wifiCfg && !e.ignored
  {
  }

  /** Manual removal keeps the routes and rules that name no interface or one that is not excluded; the boot state those
      that name no interface or a name, kernel name or profile of a virtual interface of which one was collected. */
  lemma {:induction false} KeptRoutes(es: seq<Entry>, ready: set<string>, routes: seq<Route>, rules: seq<Rule>)
    ensures forall x :: x in Filter(routes, RouteFree(es)) <==>
                          x in routes && forall n :: x.nextHop == Some(n) ==> !Excluded(es, n)
    ensures forall x :: x in Filter(rules, RuleFree(es)) <==>
                          x in rules && forall n :: x.iif == Some(n) ==> !Excluded(es, n)
    ensures forall x :: x in Filter(routes, HopOffered(es, ready)) <==>
                          x in routes && forall n :: x.nextHop == Some(n) ==> Offered(es, ready, n)
    ensures forall x :: x in Filter(rules, IifOffered(es, ready)) <==>
                          x in rules && forall n :: x.iif == Some(n) ==> Offered(es, ready, n)
  {
  }

  /** In the kernel already, or to be created now: all dependencies are derivable from what the kernel has. */
  ghost predicate CanExist(es: seq<Entry>, kernel: set<string>, e: Entry) {
    Touches(e, kernel) || forall i :: 0 <= i < |Deps(e)| ==> Ready(es, kernel, Deps(e)[i])
  }

  lemma {:induction false} DerivedCanExist(es: seq<Entry>, kernel: set<string>, e: Entry, n: string)
    requires NoSharing(es) && Owns(es, e, n) && n !in kernel && Ready(es, kernel, n)
    ensures CanExist(es, kernel, e)
  {
    var k: nat :| Derived(es, kernel, n, k);
    var f :| Builds(es, kernel, f, n) && forall i :: 0 <= i < |Deps(f)| ==> Derived(es, kernel, Deps(f)[i], k - 1);
    OneOwner(es, e, f, n);
  }

  /** A route of the boot state goes out through an interface of the boot state that can exist. */
  lemma {:induction false} BootRouteResolves(es: seq<Entry>, kernel: set<string>, ready: set<string>, n: string)
    requires NoSharing(es) && Grown(es, kernel, ready) && Offered(es, ready, n)
    ensures exists e :: e in Filter(es, NotOnNic) && Owns(es, e, n) && CanExist(es, kernel, e)
  {
    var e :| Offers(es, ready, e, n);
    assert Owns(es, e, n) && e in Filter(es, NotOnNic);
    if !Touches(e, kernel) {
      WholeInterface(es, kernel, ready, e);
      DerivedCanExist(es, kernel, e, n);
    }
  }
}
