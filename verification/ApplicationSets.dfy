/** Source namespaces of the ApplicationSet controller (controllers/argocd/applicationset.go).
    The set of tracked namespaces is a field of the reconciler that is only ever added to and
    cleaned, never rebuilt, so it is part of the state here. */
module ApplicationSets {
  import opened Api
  import opened Lists
  import opened Sweeps
  import opened SourceNamespaces

  const APPSET_CLAIM := "argocd.argoproj.io/applicationset-managed-by-cluster-argocd"
  const CONTROLLER_RULES: Rules := ["applicationset-controller"]

  /** `listed` is spec.applicationSet.sourceNamespaces, None without an applicationSet block;
      `matches` is the glob match against spec.sourceNamespaces. */
  datatype AppSetInstance = AppSetInstance(name: string, namespace: string, listed: Option<seq<string>>, matches: string -> bool)

  datatype State = State(cluster: Cluster, tracked: set<string>)

  function Listed(cr: AppSetInstance): seq<string> {
    if cr.listed.Some? then cr.listed.value else []
  }

  /** Namespaces whose ApplicationSets the controller serves: listed, existing and matched as
      source namespaces of applications. */
  predicate Served(cr: AppSetInstance, cluster: Cluster, n: string) {
    n in Listed(cr) && n in cluster && cr.matches(n)
  }

  function ResourceName(cr: AppSetInstance): string {
    cr.name + "-" + cr.namespace + "-applicationset"
  }

  function AppSetBinding(cr: AppSetInstance): Binding {
    Binding(ResourceName(cr), [Subject(cr.name + "-applicationset-controller", cr.namespace)])
  }

  function Holder(ns: Namespace): Option<string> {
    Lookup(ns.labels, APPSET_CLAIM)
  }

  predicate HeldByOther(cr: AppSetInstance, ns: Namespace) {
    Holder(ns).Some? && Holder(ns) != Some(cr.namespace)
  }

  function Cleaned(cr: AppSetInstance, ns: Namespace): Namespace {
    var name := ResourceName(cr);
    Namespace(ns.labels - {APPSET_CLAIM}, ns.roles - {name}, ns.bindings - {name})
  }

  function FixedBindings(cr: AppSetInstance, bindings: map<string, Binding>): map<string, Binding> {
    var name := ResourceName(cr);
    if name in bindings && bindings[name].role != name then bindings - {name} else bindings[name := AppSetBinding(cr)]
  }

  /** One turn of the loop for a served namespace. */
  function Turn(cr: AppSetInstance, ns: Namespace): Namespace {
    if ManagedElsewhere(ns) then (if HeldByOther(cr, ns) then Cleaned(cr, ns) else ns)
    else Namespace(
      if APPSET_CLAIM in ns.labels then ns.labels else ns.labels[APPSET_CLAIM := cr.namespace],
      ns.roles[ResourceName(cr) := CONTROLLER_RULES],
      FixedBindings(cr, ns.bindings))
  }

  /** A namespace listed k times takes k turns. */
  function Turns(cr: AppSetInstance, ns: Namespace, k: nat): Namespace {
    if k == 0 then ns else Turn(cr, Turns(cr, ns, k - 1))
  }

  /** Turns a namespace has taken before position `i` of the list. */
  function TurnsBefore(cr: AppSetInstance, i: nat, n: string): nat
    requires i <= |Listed(cr)|
  {
    if cr.matches(n) then multiset(Listed(cr)[..i])[n] else 0
  }

  function TurnCount(cr: AppSetInstance, n: string): nat {
    TurnsBefore(cr, |Listed(cr)|, n)
  }

  lemma TurnsBeforeNext(cr: AppSetInstance, i: nat, n: string)
    requires i < |Listed(cr)|
    ensures TurnsBefore(cr, i + 1, n) == TurnsBefore(cr, i, n) + if n == Listed(cr)[i] && cr.matches(n) then 1 else 0
  {
    assert Listed(cr)[..i + 1] == Listed(cr)[..i] + [Listed(cr)[i]];
  }

  lemma ServedIff(cr: AppSetInstance, cluster: Cluster, n: string)
    ensures Served(cr, cluster, n) <==> n in cluster && TurnCount(cr, n) > 0
  {
    var listed := Listed(cr);
    assert listed[..|listed|] == listed;
    assert n in listed <==> multiset(listed)[n] > 0;
  }

  /** Whether a namespace is tracked after `k` turns. */
  predicate TrackedAfter(cr: AppSetInstance, s: State, n: string, k: nat) {
    if n in s.cluster && k > 0
    then ManagedElsewhere(s.cluster[n]) ==> n in s.tracked && !HeldByOther(cr, s.cluster[n])
    else n in s.tracked
  }

  /** Where a pass without failed requests leads. */
  function Settle(cr: AppSetInstance, s: State): State {
    State(map n | n in s.cluster :: SettledAt(cr, s, n), set n | n in s.cluster && StaysTracked(cr, s, n))
  }

  predicate Known(cr: AppSetInstance, s: State, n: string)
    requires n in s.cluster
  {
    n in s.tracked || Holder(s.cluster[n]) == Some(cr.namespace)
  }

  function SettledAt(cr: AppSetInstance, s: State, n: string): Namespace
    requires n in s.cluster
  {
    var turned := Turns(cr, s.cluster[n], TurnCount(cr, n));
    if !Served(cr, s.cluster, n) && Known(cr, s, n) then Cleaned(cr, turned) else turned
  }

  predicate StaysTracked(cr: AppSetInstance, s: State, n: string)
    requires n in s.cluster
  {
    Served(cr, s.cluster, n) && (ManagedElsewhere(s.cluster[n]) ==> !HeldByOther(cr, s.cluster[n]) && Known(cr, s, n))
  }

  /** Effect of one turn of the loop for the listed name `n`. */
  ghost predicate TurnTaken(cr: AppSetInstance, n: string, s: State, s': State) {
    if n in s.cluster && cr.matches(n) then
      && s'.cluster == s.cluster[n := Turn(cr, s.cluster[n])]
      && s'.tracked == if !ManagedElsewhere(s.cluster[n]) then s.tracked + {n}
                       else if HeldByOther(cr, s.cluster[n]) then s.tracked - {n} else s.tracked
    else s' == s
  }

  /** Where the namespace `n` is in the state `s`, reached from `start` before position `i` of
      the list. */
  ghost predicate AdvancedAt(cr: AppSetInstance, start: State, s: State, i: nat, n: string)
    requires s.cluster.Keys == start.cluster.Keys && i <= |Listed(cr)|
  {
    var k := TurnsBefore(cr, i, n);
    && (n in s.cluster ==> s.cluster[n] == Turns(cr, start.cluster[n], k))
    && (n in s.tracked <==> TrackedAfter(cr, start, n, k))
  }

  lemma TurnAdvancesAt(cr: AppSetInstance, start: State, s: State, s': State, i: nat, n: string)
    requires i < |Listed(cr)| && s.cluster.Keys == start.cluster.Keys
    requires AdvancedAt(cr, start, s, i, n) && TurnTaken(cr, Listed(cr)[i], s, s')
    ensures s'.cluster.Keys == start.cluster.Keys && AdvancedAt(cr, start, s', i + 1, n)
  {
    TurnsBeforeNext(cr, i, n);
    if n == Listed(cr)[i] && n in s.cluster {
      TurnsFacts(cr, start.cluster[n], TurnsBefore(cr, i, n));
    }
  }

  /** The three phases of a pass amount to Settle. */
  lemma PhasesAmount(cr: AppSetInstance, start: State, known: State, turned: State, end: State)
    requires known.cluster == start.cluster
    requires known.tracked == start.tracked + set n | n in start.cluster && Holder(start.cluster[n]) == Some(cr.namespace)
    requires AdvancedBut(cr, known, turned, |Listed(cr)|, {})
    requires Swept(turned.tracked, turned.cluster, end.cluster, Unserved(cr, turned.cluster))
    requires forall n :: n in end.tracked <==> n in turned.tracked && Served(cr, turned.cluster, n)
    ensures end == Settle(cr, start)
  {
    forall n | n in end.cluster
      ensures end.cluster[n] == SettledAt(cr, start, n) && (n in end.tracked <==> StaysTracked(cr, start, n))
    {
      ServedIff(cr, end.cluster, n);
      assert Served(cr, end.cluster, n) <==> Served(cr, start.cluster, n);
      assert n in known.tracked <==> Known(cr, start, n);
      assert AdvancedAt(cr, known, turned, |Listed(cr)|, n);
    }
    assert end.cluster == Settle(cr, start).cluster;
    assert end.tracked == Settle(cr, start).tracked;
  }

  // ---- Passes with failed requests ----

  /** Only the label, the role and the binding of the instance may differ. */
  ghost predicate Framed(cr: AppSetInstance, before: Namespace, after: Namespace) {
    var name := ResourceName(cr);
    && after.labels - {APPSET_CLAIM} == before.labels - {APPSET_CLAIM}
    && after.roles - {name} == before.roles - {name}
    && after.bindings - {name} == before.bindings - {name}
  }

  /** What turns may do to a namespace whatever fails: it gets the label only if it has none,
      and loses it only if it is another's and there is a managed-by label. */
  ghost predicate TurnConfined(cr: AppSetInstance, before: Namespace, after: Namespace) {
    && Framed(cr, before, after)
    && (Holder(after) == Holder(before)
        || (Holder(before).None? && Holder(after) == Some(cr.namespace) && !ManagedElsewhere(before))
        || (HeldByOther(cr, before) && Holder(after).None? && ManagedElsewhere(before)))
  }

  /** What a whole pass may do. */
  ghost predicate Confined(cr: AppSetInstance, before: Namespace, after: Namespace) {
    && Framed(cr, before, after)
    && (Holder(after) == Holder(before) || Holder(after).None?
        || (Holder(before).None? && Holder(after) == Some(cr.namespace) && !ManagedElsewhere(before)))
  }

  lemma FramedKeepsManaged(cr: AppSetInstance, before: Namespace, after: Namespace)
    requires Framed(cr, before, after)
    ensures ManagedElsewhere(after) == ManagedElsewhere(before)
  {
    LabelsDistinguished();
    OtherKept(before.labels, after.labels, APPSET_CLAIM, MANAGED_BY);
  }

  lemma TurnConfinedTransitive(cr: AppSetInstance, a: Namespace, b: Namespace, c: Namespace)
    requires TurnConfined(cr, a, b) && TurnConfined(cr, b, c)
    ensures TurnConfined(cr, a, c)
  {
    FramedKeepsManaged(cr, a, b);
  }

  /** A cleanup after `k` of its three requests: role, binding, label. */
  function CleanedSoFar(cr: AppSetInstance, ns: Namespace, k: nat): Namespace {
    var cleaned := Cleaned(cr, ns);
    Namespace(if k >= 3 then cleaned.labels else ns.labels, if k >= 1 then cleaned.roles else ns.roles,
              if k >= 2 then cleaned.bindings else ns.bindings)
  }

  ghost predicate PartlyCleaned(cr: AppSetInstance, before: Namespace, after: Namespace) {
    exists k: nat :: k <= 3 && after == CleanedSoFar(cr, before, k)
  }

  /** A cleanup that is cut short has taken the label only after role and binding, and the
      binding only after the role. */
  lemma CleaningOrder(cr: AppSetInstance, before: Namespace, after: Namespace)
    requires PartlyCleaned(cr, before, after)
    ensures var name := cr.name + "-" + cr.namespace + "-applicationset";
      && after.roles in {before.roles, before.roles - {name}} && after.bindings in {before.bindings, before.bindings - {name}}
      && after.labels in {before.labels, before.labels - {APPSET_CLAIM}}
      && (after.labels != before.labels ==> name !in after.roles && name !in after.bindings)
      && (after.bindings != before.bindings ==> name !in after.roles)
  {
  }

  lemma NotCleaned(cr: AppSetInstance, ns: Namespace)
    ensures PartlyCleaned(cr, ns, ns)
  {
    assert ns == CleanedSoFar(cr, ns, 0);
  }

  lemma CleaningConfined(cr: AppSetInstance, a: Namespace, b: Namespace, c: Namespace)
    requires TurnConfined(cr, a, b) && (c == b || PartlyCleaned(cr, b, c))
    ensures Confined(cr, a, c)
  {
  }

  lemma CleaningIsTurn(cr: AppSetInstance, a: Namespace, b: Namespace)
    requires HeldByOther(cr, a) && ManagedElsewhere(a) && PartlyCleaned(cr, a, b)
    ensures TurnConfined(cr, a, b)
  {
  }

  // ---- The steps in one namespace ----

  /** Role, binding and, last, the label of one namespace are taken away. */
  method CleanSteps(cr: AppSetInstance, ns: Namespace, failures: nat) returns (ok: bool, after: Namespace, count: nat)
    ensures count == failures + if ok then 0 else 1
    ensures PartlyCleaned(cr, ns, after) && (ok ==> after == Cleaned(cr, ns))
  {
    var name := ResourceName(cr);
    var refused: set<Call> := *;
    ok, after, count := DeleteRole(ns, name, refused, failures);
    assert after == CleanedSoFar(cr, ns, if ok then 1 else 0);
    if !ok {
      return;
    }
    ok, after, count := DeleteBinding(after, name, refused, count);
    assert after == CleanedSoFar(cr, ns, if ok then 2 else 1);
    if !ok {
      return;
    }
    ok, count := Request(count);
    if ok {
      after := after.(labels := after.labels - {APPSET_CLAIM});
    }
    assert after == CleanedSoFar(cr, ns, if ok then 3 else 2);
  }

  method ReconcileRole(cr: AppSetInstance, roles: map<string, Rules>, failures: nat)
    returns (ok: bool, after: map<string, Rules>, count: nat)
    ensures count == failures + if ok then 0 else 1
    ensures after == if ok then roles[ResourceName(cr) := CONTROLLER_RULES] else roles
  {
    var name := ResourceName(cr);
    after := roles;
    ok, count := Request(failures);
    if ok && (name !in roles || roles[name] != CONTROLLER_RULES) {
      ok, count := Request(count);
      if ok {
        after := roles[name := CONTROLLER_RULES];
      }
    }
  }

  /** A binding to another role is deleted here and only created again on a later turn. */
  method ReconcileBinding(cr: AppSetInstance, bindings: map<string, Binding>, failures: nat)
    returns (ok: bool, after: map<string, Binding>, count: nat)
    ensures count == failures + if ok then 0 else 1
    ensures after == if ok then FixedBindings(cr, bindings) else bindings
  {
    var name, wanted := ResourceName(cr), AppSetBinding(cr);
    after := bindings;
    ok, count := Request(failures);
    if !ok {
      return;
    }
    if name !in bindings {
      ok, count := Request(count);
      if ok {
        after := bindings[name := wanted];
      }
      return;
    }
    var existing := bindings[name];
    if wanted.role != existing.role {
      ok, count := Request(count);
      if ok {
        after := bindings - {name};
      }
    } else if wanted.subjects != existing.subjects {
      ok, count := Request(count);
      if ok {
        after := bindings[name := existing.(subjects := wanted.subjects)];
      }
    }
  }

  /** A namespace without managed-by label is labelled and gets role and binding; `stop` is an
      error that ends the loop. */
  method ServeSteps(cr: AppSetInstance, ns: Namespace, failures: nat)
    returns (ok: bool, stop: bool, after: Namespace, count: nat)
    requires !ManagedElsewhere(ns)
    ensures count >= failures && TurnConfined(cr, ns, after) && (stop ==> after == ns && !ok)
    ensures count == failures ==> ok && !stop && after == Turn(cr, ns)
  {
    after, stop, count := ns, false, failures;
    if APPSET_CLAIM !in ns.labels {
      var fetched;
      fetched, count := Request(count);
      if !fetched {
        return false, true, ns, count;
      }
      var updated;
      updated, count := Request(count);
      if updated {
        after := after.(labels := ns.labels[APPSET_CLAIM := cr.namespace]);
      }
    }
    var roleOk, roles, bindingOk, bindings;
    roleOk, roles, count := ReconcileRole(cr, ns.roles, count);
    bindingOk, bindings, count := ReconcileBinding(cr, ns.bindings, count);
    after := after.(roles := roles, bindings := bindings);
    ok := roleOk && bindingOk;
  }

  // ---- The loops ----

  ghost function Unserving(cr: AppSetInstance, start: Cluster): (string, Namespace, Namespace) -> bool {
    (n, a, b) => if Served(cr, start, n) then b == a else PartlyCleaned(cr, a, b)
  }

  ghost function Unserved(cr: AppSetInstance, start: Cluster): (string, Namespace, Namespace) -> bool {
    (n, a, b) => b == if Served(cr, start, n) then a else Cleaned(cr, a)
  }

  lemma CleanupDone(cr: AppSetInstance, done: set<string>, tracked: set<string>, before: Cluster, now: Cluster)
    requires Swept(done, before, now, Unserving(cr, before)) && done <= tracked
    ensures Swept(tracked, before, now, Unserving(cr, before))
  {
    forall n | n in before ensures PartlyCleaned(cr, before[n], before[n]) {
      NotCleaned(cr, before[n]);
    }
  }

  /** Turns touch served namespaces only, and track no others. */
  ghost predicate TurnsConfined(cr: AppSetInstance, start: State, now: State) {
    && now.cluster.Keys == start.cluster.Keys
    && (forall n :: n in start.cluster ==>
          if Served(cr, start.cluster, n) then TurnConfined(cr, start.cluster[n], now.cluster[n])
          else now.cluster[n] == start.cluster[n])
    && (forall n :: n in now.tracked ==> n in start.tracked || Served(cr, start.cluster, n))
  }

  /** What one turn for a listed name does whatever fails. */
  ghost predicate TurnTouches(cr: AppSetInstance, n: string, s: State, s': State) {
    && (if n in s.cluster && cr.matches(n)
        then n in s'.cluster && s'.cluster == s.cluster[n := s'.cluster[n]] && TurnConfined(cr, s.cluster[n], s'.cluster[n])
        else s'.cluster == s.cluster)
    && (forall m :: m != n ==> (m in s'.tracked <==> m in s.tracked))
    && (n in s'.tracked ==> n in s.tracked || (n in s.cluster && cr.matches(n)))
  }

  lemma TurnKeepsConfined(cr: AppSetInstance, start: State, s: State, s': State, i: nat)
    requires i < |Listed(cr)| && TurnsConfined(cr, start, s) && TurnTouches(cr, Listed(cr)[i], s, s')
    ensures TurnsConfined(cr, start, s')
  {
    var n := Listed(cr)[i];
    if n in s.cluster && cr.matches(n) {
      TurnConfinedTransitive(cr, start.cluster[n], s.cluster[n], s'.cluster[n]);
    }
  }

  /** All but the namespaces in `troubled` have had their turns before position `i`. */
  ghost predicate AdvancedBut(cr: AppSetInstance, start: State, s: State, i: nat, troubled: set<string>)
    requires i <= |Listed(cr)|
  {
    s.cluster.Keys == start.cluster.Keys && forall n :: n !in troubled ==> AdvancedAt(cr, start, s, i, n)
  }

  ghost predicate Underway(cr: AppSetInstance, start: State, s: State, i: nat, troubled: set<string>)
    requires i <= |Listed(cr)|
  {
    TurnsConfined(cr, start, s) && AdvancedBut(cr, start, s, i, troubled)
  }

  lemma TurnsNone(cr: AppSetInstance, start: State)
    ensures Underway(cr, start, start, 0, {})
  {
  }

  lemma TurnAdvancesBut(cr: AppSetInstance, start: State, s: State, s': State, i: nat,
                        troubled: set<string>, troubled': set<string>)
    requires i < |Listed(cr)| && AdvancedBut(cr, start, s, i, troubled) && TurnTouches(cr, Listed(cr)[i], s, s')
    requires TurnTaken(cr, Listed(cr)[i], s, s') || Listed(cr)[i] in troubled'
    requires troubled <= troubled'
    ensures AdvancedBut(cr, start, s', i + 1, troubled')
  {
    var next := i + 1;
    forall n | n !in troubled' ensures s'.cluster.Keys == start.cluster.Keys && AdvancedAt(cr, start, s', next, n) {
      if n == Listed(cr)[i] {
        TurnAdvancesAt(cr, start, s, s', i, n);
      } else {
        TurnsBeforeNext(cr, i, n);
      }
    }
  }

  class Reconciler {
    var cluster: Cluster
    var tracked: set<string>
    var failures: nat

    constructor (cluster: Cluster)
      ensures this.cluster == cluster && tracked == {} && failures == 0
    {
      this.cluster, tracked, failures := cluster, {}, 0;
    }

    method SetManaged(cr: AppSetInstance) returns (ok: bool)
      modifies this`tracked, this`failures
      ensures failures == old(failures) + if ok then 0 else 1
      ensures tracked == old(tracked) + if ok then set n | n in cluster && Holder(cluster[n]) == Some(cr.namespace) else {}
    {
      ok, failures := Request(failures);
      if ok {
        tracked := tracked + set n | n in cluster && Holder(cluster[n]) == Some(cr.namespace);
      }
    }

    method Cleanup(cr: AppSetInstance, n: string) returns (ok: bool)
      modifies this`cluster, this`failures
      ensures failures == old(failures) + if ok then 0 else 1
      ensures n !in old(cluster) ==> cluster == old(cluster)
      ensures n in old(cluster) ==> n in cluster && cluster == old(cluster)[n := cluster[n]]
      ensures n in old(cluster) ==> PartlyCleaned(cr, old(cluster)[n], cluster[n])
      ensures n in old(cluster) && ok ==> cluster[n] == Cleaned(cr, old(cluster)[n])
    {
      ok, failures := Request(failures);
      if n !in cluster {
        return;
      }
      NotCleaned(cr, cluster[n]);
      if ok {
        var ns;
        ok, ns, failures := CleanSteps(cr, cluster[n], failures);
        cluster := cluster[n := ns];
      }
    }

    /** One turn of the loop over the listed namespaces; `stop` is an error that ends it. */
    method ReconcileListed(cr: AppSetInstance, n: string) returns (ok: bool, stop: bool)
      modifies this
      ensures failures >= old(failures) && (stop ==> !ok)
      ensures TurnTouches(cr, n, old(State(cluster, tracked)), State(cluster, tracked))
      ensures failures == old(failures) ==>
        ok && !stop && TurnTaken(cr, n, old(State(cluster, tracked)), State(cluster, tracked))
    {
      stop := false;
      ok, failures := Request(failures);
      if !ok || n !in cluster || !cr.matches(n) {
        return;
      }
      ok, failures := Request(failures);
      if !ok {
        return;
      }
      if ManagedElsewhere(cluster[n]) {
        if HeldByOther(cr, cluster[n]) {
          tracked := tracked - {n};
          var _ := Cleanup(cr, n);
          CleaningIsTurn(cr, old(cluster)[n], cluster[n]);
        }
        return;
      }
      var ns;
      ok, stop, ns, failures := ServeSteps(cr, cluster[n], failures);
      cluster := cluster[n := ns];
      if !stop {
        tracked := tracked + {n};
      }
    }

    /** An error in one turn does not keep the later ones from being taken, unless it is the
        one that ends the loop. `troubled` are the namespaces with a failed request. */
    method ReconcileSourceNamespaces(cr: AppSetInstance) returns (ok: bool, stopped: bool, ghost troubled: set<string>)
      modifies this
      ensures failures >= old(failures) + |troubled| && (failures == old(failures) ==> ok && !stopped)
      ensures TurnsConfined(cr, old(State(cluster, tracked)), State(cluster, tracked))
      ensures !stopped ==> AdvancedBut(cr, old(State(cluster, tracked)), State(cluster, tracked), |Listed(cr)|, troubled)
    {
      ok, stopped, troubled := true, false, {};
      ghost var start := State(cluster, tracked);
      var names := Listed(cr);
      TurnsNone(cr, start);
      for i := 0 to |names|
        invariant failures >= old(failures) + |troubled| && (failures == old(failures) ==> ok)
        invariant Underway(cr, start, State(cluster, tracked), i, troubled)
      {
        var turnOk;
        turnOk, stopped, troubled := TakeTurn(cr, i, start, troubled);
        if stopped {
          return false, true, troubled;
        }
        ok := ok && turnOk;
      }
    }

    /** The turn of the name at position `i` of the list. */
    method TakeTurn(cr: AppSetInstance, i: nat, ghost start: State, ghost past: set<string>)
      returns (ok: bool, stop: bool, ghost troubled: set<string>)
      requires i < |Listed(cr)| && Underway(cr, start, State(cluster, tracked), i, past)
      modifies this
      ensures failures >= old(failures) && failures >= old(failures) + |troubled| - |past|
      ensures failures == old(failures) ==> ok && !stop
      ensures TurnsConfined(cr, start, State(cluster, tracked))
      ensures !stop ==> Underway(cr, start, State(cluster, tracked), i + 1, troubled)
      ensures stop ==> troubled == past
    {
      ok, stop := ReconcileListed(cr, Listed(cr)[i]);
      TurnKeepsConfined(cr, start, old(State(cluster, tracked)), State(cluster, tracked), i);
      troubled := past;
      if !stop {
        if failures > old(failures) {
          troubled := past + {Listed(cr)[i]};
        }
        TurnAdvancesBut(cr, start, old(State(cluster, tracked)), State(cluster, tracked), i, past, troubled);
      }
    }

    method RemoveIfUnserved(cr: AppSetInstance, n: string, ghost start: Cluster) returns (ok: bool)
      requires cluster.Keys == start.Keys
      modifies this
      ensures failures >= old(failures) && (failures == old(failures) ==> ok)
      ensures if n in old(cluster) then n in cluster && cluster == old(cluster)[n := cluster[n]] else cluster == old(cluster)
      ensures n in old(cluster) ==> Unserving(cr, start)(n, old(cluster)[n], cluster[n])
      ensures n in old(cluster) && failures == old(failures) ==> Unserved(cr, start)(n, old(cluster)[n], cluster[n])
      ensures forall m :: m != n ==> (m in tracked <==> m in old(tracked))
      ensures n in tracked ==> n in old(tracked)
      ensures failures == old(failures) ==> (n in tracked <==> n in old(tracked) && Served(cr, start, n))
    {
      ok := true;
      var served := false;
      assert Served(cr, cluster, n) <==> Served(cr, start, n);
      if cr.listed.Some? {
        ok, failures := Request(failures);
        served := Served(cr, cluster, n);
      }
      if n in cluster {
        NotCleaned(cr, cluster[n]);
      }
      if ok && !served {
        var cleaned := Cleanup(cr, n);
        if cleaned {
          tracked := tracked - {n};
        }
      }
    }

    method RemoveUnmanaged(cr: AppSetInstance) returns (ok: bool)
      modifies this
      ensures failures >= old(failures) && (failures == old(failures) ==> ok)
      ensures Swept(old(tracked), old(cluster), cluster, Unserving(cr, old(cluster))) && tracked <= old(tracked)
      ensures failures == old(failures) ==> Swept(old(tracked), old(cluster), cluster, Unserved(cr, old(cluster)))
      ensures failures == old(failures) ==> forall n :: n in tracked <==> n in old(tracked) && Served(cr, old(cluster), n)
    {
      ghost var before, held := cluster, tracked;
      SweptNone(before, Unserving(cr, before));
      SweptNone(before, Unserved(cr, before));
      ok := true;
      var rest := tracked;
      while rest != {} && ok
        invariant rest <= held && failures >= old(failures) && tracked <= held
        invariant failures == old(failures) ==> ok
        invariant Swept(held - rest, before, cluster, Unserving(cr, before))
        invariant failures == old(failures) ==> Swept(held - rest, before, cluster, Unserved(cr, before))
        invariant failures == old(failures) ==> forall n :: n in tracked <==> n in held && (n in rest || Served(cr, before, n))
        decreases rest
      {
        var n :| n in rest;
        ghost var now, done := cluster, held - rest;
        rest := rest - {n};
        ok := RemoveIfUnserved(cr, n, before);
        SweptNext(done, before, now, cluster, n, Unserving(cr, before));
        if failures == old(failures) {
          SweptNext(done, before, now, cluster, n, Unserved(cr, before));
        }
        assert held - rest == done + {n};
      }
      assert ok ==> held - rest == held;
      CleanupDone(cr, held - rest, held, before, cluster);
    }

    method Reconcile(cr: AppSetInstance) returns (ok: bool)
      modifies this
      ensures cluster.Keys == old(cluster).Keys
      ensures forall n :: n in cluster ==>
        if Served(cr, old(cluster), n) || Known(cr, old(State(cluster, tracked)), n) then Confined(cr, old(cluster)[n], cluster[n])
        else cluster[n] == old(cluster)[n]
      ensures failures == old(failures) ==> ok && State(cluster, tracked) == Settle(cr, old(State(cluster, tracked)))
    {
      ghost var start := State(cluster, tracked);
      ok := SetManaged(cr);
      if !ok {
        return;
      }
      ghost var known, turned := State(cluster, tracked), State(cluster, tracked);
      if cr.listed.Some? || tracked != {} {
        var stopped;
        ghost var troubled;
        ok, stopped, troubled := ReconcileSourceNamespaces(cr);
        turned := State(cluster, tracked);
        if ok {
          ok := RemoveUnmanaged(cr);
        }
      }
      PassConfined(cr, start, known, turned, cluster);
      if failures == old(failures) {
        PhasesAmount(cr, start, known, turned, State(cluster, tracked));
      }
    }

    /** Value of the --applicationset-namespaces argument of the controller, if it is given. */
    method NamespacesArgument(cr: AppSetInstance) returns (argument: Option<string>)
      requires forall n :: Served(cr, cluster, n) ==> ',' !in n
      modifies this`failures
      ensures failures == old(failures) ==>
        (argument.None? <==> forall n :: n in Listed(cr) ==> !Served(cr, cluster, n))
      ensures argument.Some? ==> forall n :: n in Split(argument.value, ',') <==> Served(cr, cluster, n)
    {
      var served: seq<string> := [];
      var ok;
      ok, failures := Request(failures);
      if ok {
        var names := Listed(cr);
        for i := 0 to |names|
          invariant forall n :: n in served <==> n in names[..i] && Served(cr, cluster, n)
        {
          if names[i] in cluster && cr.matches(names[i]) {
            served := served + [names[i]];
          }
        }
      }
      argument := None;
      assert Listed(cr)[..|Listed(cr)|] == Listed(cr);
      if |served| > 0 {
        argument := Some(Join(served, ','));
        assert served[0] in served;
        assert forall i :: 0 <= i < |served| ==> served[i] in served;
        SplitOfJoin(served, ',');
      }
    }
  }

  lemma PassConfined(cr: AppSetInstance, start: State, known: State, turned: State, end: Cluster)
    requires known.cluster == start.cluster
    requires known.tracked == start.tracked + set n | n in start.cluster && Holder(start.cluster[n]) == Some(cr.namespace)
    requires TurnsConfined(cr, known, turned)
    requires end == turned.cluster || Swept(turned.tracked, turned.cluster, end, Unserving(cr, turned.cluster))
    ensures end.Keys == start.cluster.Keys
    ensures forall n :: n in end ==>
      if Served(cr, start.cluster, n) || Known(cr, start, n) then Confined(cr, start.cluster[n], end[n])
      else end[n] == start.cluster[n]
  {
    forall n | n in end
      ensures if Served(cr, start.cluster, n) || Known(cr, start, n) then Confined(cr, start.cluster[n], end[n])
              else end[n] == start.cluster[n]
    {
      assert Served(cr, turned.cluster, n) <==> Served(cr, start.cluster, n);
      assert end[n] == turned.cluster[n] || PartlyCleaned(cr, turned.cluster[n], end[n]);
      CleaningConfined(cr, start.cluster[n], turned.cluster[n], end[n]);
    }
  }

  /** Turns keep the managed-by label, and a later turn never brings back a label that an
      earlier one took away. */
  lemma {:induction false} TurnsFacts(cr: AppSetInstance, ns: Namespace, k: nat)
    ensures var after := Turns(cr, ns, k);
      && ManagedElsewhere(after) == ManagedElsewhere(ns)
      && (ManagedElsewhere(ns) ==> after == if k > 0 then Turn(cr, ns) else ns)
      && (!ManagedElsewhere(ns) && k > 0 ==> Holder(after) == if Holder(ns).Some? then Holder(ns) else Some(cr.namespace))
  {
    LabelsDistinguished();
    if k > 0 {
      TurnsFacts(cr, ns, k - 1);
    }
  }

  lemma LabelsDistinguished()
    ensures APPSET_CLAIM != MANAGED_BY
  {
    assert |APPSET_CLAIM| != |MANAGED_BY|;
  }

  /** After a pass, everything the instance holds or tracks is served. */
  lemma OnlyServedRemain(cr: AppSetInstance, s: State)
    ensures var after := Settle(cr, s);
      && after.tracked <= (set n | n in after.cluster && Served(cr, after.cluster, n))
      && forall n :: n in after.cluster && Holder(after.cluster[n]) == Some(cr.namespace) ==> Served(cr, after.cluster, n)
  {
    forall n | n in s.cluster && !Served(cr, s.cluster, n)
      ensures Holder(Settle(cr, s).cluster[n]) != Some(cr.namespace)
    {
      ServedIff(cr, s.cluster, n);
    }
  }

  // ---- What a pass leaves in a namespace, case by case ----

  /** Nothing of the instance is left in a namespace it tracks or holds and does not serve, nor
      next to a managed-by label in one that another instance holds: no role, no binding and no
      label, while everything else is as before. */
  lemma NothingLeft(cr: AppSetInstance, s: State, n: string)
    requires n in s.cluster
    requires var labels := s.cluster[n].labels; var holder := Lookup(labels, APPSET_CLAIM);
      if cr.listed.Some? && n in cr.listed.value && cr.matches(n)
      then MANAGED_BY in labels && labels[MANAGED_BY] != "" && holder.Some? && holder.value != cr.namespace
      else n in s.tracked || holder == Some(cr.namespace)
    ensures var before, after := s.cluster[n], Settle(cr, s).cluster[n];
      var name := cr.name + "-" + cr.namespace + "-applicationset";
      && name !in after.roles && name !in after.bindings && APPSET_CLAIM !in after.labels
      && (forall k :: k != name ==> Lookup(after.roles, k) == Lookup(before.roles, k))
      && (forall k :: k != name ==> Lookup(after.bindings, k) == Lookup(before.bindings, k))
      && (forall k :: k != APPSET_CLAIM ==> Lookup(after.labels, k) == Lookup(before.labels, k))
      && n !in Settle(cr, s).tracked
  {
    ServedIff(cr, s.cluster, n);
    TurnsFacts(cr, s.cluster[n], TurnCount(cr, n));
  }

  /** A namespace is left alone that the instance has nothing to do with, and one that is served
      next to a managed-by label without being held by another instance. */
  lemma LeftAlone(cr: AppSetInstance, s: State, n: string)
    requires n in s.cluster
    requires var labels := s.cluster[n].labels; var holder := Lookup(labels, APPSET_CLAIM);
      if cr.listed.Some? && n in cr.listed.value && cr.matches(n)
      then MANAGED_BY in labels && labels[MANAGED_BY] != "" && (holder.None? || holder.value == cr.namespace)
      else n !in s.tracked && holder != Some(cr.namespace)
    ensures Settle(cr, s).cluster[n] == s.cluster[n]
    ensures n in Settle(cr, s).tracked <==>
      cr.listed.Some? && n in cr.listed.value && cr.matches(n) && (n in s.tracked || APPSET_CLAIM in s.cluster[n].labels)
  {
    ServedIff(cr, s.cluster, n);
    TurnsFacts(cr, s.cluster[n], TurnCount(cr, n));
  }

  /** Any other namespace that is served is tracked, keeps its label or gets that of the instance,
      has the role and, unless a binding to another role has just been deleted, the binding of
      the controller's service account to it. */
  lemma ServedGets(cr: AppSetInstance, s: State, n: string)
    requires n in s.cluster && cr.listed.Some? && n in cr.listed.value && cr.matches(n)
    requires MANAGED_BY in s.cluster[n].labels ==> s.cluster[n].labels[MANAGED_BY] == ""
    ensures var before, after := s.cluster[n], Settle(cr, s).cluster[n];
      var name := cr.name + "-" + cr.namespace + "-applicationset";
      && n in Settle(cr, s).tracked
      && after.labels == (if APPSET_CLAIM in before.labels then before.labels else before.labels[APPSET_CLAIM := cr.namespace])
      && after.roles == before.roles[name := ["applicationset-controller"]]
      && after.bindings ==
         if name in before.bindings && before.bindings[name].role != name && multiset(cr.listed.value)[n] == 1
         then before.bindings - {name}
         else before.bindings[name := Binding(name, [Subject(cr.name + "-applicationset-controller", cr.namespace)])]
  {
    ServedIff(cr, s.cluster, n);
    assert Listed(cr)[..|Listed(cr)|] == Listed(cr);
    TurnsOfBindings(cr, s.cluster[n], TurnCount(cr, n));
  }

  /** A pass leaves the labels of other instances alone exactly when every namespace of theirs
      that is tracked here is also served here, and none of theirs that is served here has a
      managed-by label. */
  lemma SparesOthersIff(cr: AppSetInstance, s: State)
    ensures (forall n :: n in s.cluster && HeldByOther(cr, s.cluster[n]) ==>
               Holder(Settle(cr, s).cluster[n]) == Holder(s.cluster[n]))
      <==> (forall n :: n in s.cluster && HeldByOther(cr, s.cluster[n]) ==>
              if Served(cr, s.cluster, n) then !ManagedElsewhere(s.cluster[n]) else n !in s.tracked)
  {
    forall n | n in s.cluster && HeldByOther(cr, s.cluster[n])
      ensures Holder(Settle(cr, s).cluster[n]) == Holder(s.cluster[n]) <==>
        if Served(cr, s.cluster, n) then !ManagedElsewhere(s.cluster[n]) else n !in s.tracked
    {
      ServedIff(cr, s.cluster, n);
      TurnsFacts(cr, s.cluster[n], TurnCount(cr, n));
    }
  }

  /** The tracked set is shared by all instances and never rebuilt: a pass of one instance
      right after a pass of another one takes the other's label away. */
  lemma PassReleasesOthers() returns (a: AppSetInstance, b: AppSetInstance, s: State)
    ensures a.namespace != b.namespace && "team" in s.cluster
    ensures Holder(Settle(b, s).cluster["team"]) == Some(b.namespace)
    ensures Holder(Settle(a, Settle(b, s)).cluster["team"]).None?
  {
    a := AppSetInstance("a", "argocd-a", None, _ => false);
    b := AppSetInstance("b", "argocd-b", Some(["team"]), _ => true);
    s := State(map["team" := Namespace(map[], map[], map[])], {});
    assert a.namespace[7] != b.namespace[7];
    assert Listed(b)[..1] == ["team"];
    assert TurnCount(b, "team") == 1;
    assert Turns(b, s.cluster["team"], 1) == Turn(b, Turns(b, s.cluster["team"], 0));
    assert "team" in Settle(b, s).tracked;
    ServedIff(a, s.cluster, "team");
  }

  /** The managed-by label is meant to exclude this one, but a pass keeps both on a served
      namespace that already has both. */
  lemma BothLabelsIff(cr: AppSetInstance, s: State, n: string)
    requires n in s.cluster && ManagedElsewhere(s.cluster[n])
    ensures Holder(Settle(cr, s).cluster[n]) == Some(cr.namespace) <==>
      Holder(s.cluster[n]) == Some(cr.namespace) && Served(cr, s.cluster, n)
  {
    ServedIff(cr, s.cluster, n);
    TurnsFacts(cr, s.cluster[n], TurnCount(cr, n));
  }

  lemma BothLabelsKept() returns (cr: AppSetInstance, s: State)
    ensures "team" in s.cluster && ManagedElsewhere(s.cluster["team"]) && Served(cr, s.cluster, "team")
    ensures Settle(cr, s) == s && Holder(s.cluster["team"]) == Some(cr.namespace)
  {
    cr := AppSetInstance("a", "argocd-a", Some(["team"]), _ => true);
    LabelsDistinguished();
    var ns := Namespace(map[MANAGED_BY := "argocd-b", APPSET_CLAIM := cr.namespace], map[], map[]);
    s := State(map["team" := ns], {"team"});
    TurnsFacts(cr, ns, TurnCount(cr, "team"));
    assert Settle(cr, s).cluster == s.cluster;
    assert Settle(cr, s).tracked == s.tracked;
  }

  lemma {:induction false} TurnsOfBindings(cr: AppSetInstance, ns: Namespace, k: nat)
    requires !ManagedElsewhere(ns) && k > 0
    ensures var name := ResourceName(cr); var after := Turns(cr, ns, k);
      && after.roles == ns.roles[name := CONTROLLER_RULES]
      && after.labels == (if APPSET_CLAIM in ns.labels then ns.labels else ns.labels[APPSET_CLAIM := cr.namespace])
      && after.bindings == if k == 1 && name in ns.bindings && ns.bindings[name].role != name
                           then ns.bindings - {name} else ns.bindings[name := AppSetBinding(cr)]
  {
    LabelsDistinguished();
    var name := ResourceName(cr);
    if k > 1 {
      TurnsOfBindings(cr, ns, k - 1);
      TurnsFacts(cr, ns, k - 1);
      assert (ns.bindings - {name})[name := AppSetBinding(cr)] == ns.bindings[name := AppSetBinding(cr)];
    } else {
      assert Turns(cr, ns, 1) == Turn(cr, Turns(cr, ns, 0));
    }
  }

  /** A binding to the wrong role is meant to be replaced, but on a namespace listed once it
      is only deleted; every other served namespace ends with the wanted binding. */
  lemma BindingWantedIff(cr: AppSetInstance, s: State, n: string)
    requires n in s.cluster && Served(cr, s.cluster, n) && !ManagedElsewhere(s.cluster[n])
    ensures var name := ResourceName(cr); var before, after := s.cluster[n].bindings, Settle(cr, s).cluster[n].bindings;
      (name in after && after[name] == AppSetBinding(cr)) <==>
      !(name in before && before[name].role != name && multiset(Listed(cr))[n] == 1)
  {
    ServedIff(cr, s.cluster, n);
    assert Listed(cr)[..|Listed(cr)|] == Listed(cr);
    TurnsOfBindings(cr, s.cluster[n], TurnCount(cr, n));
  }

  lemma BindingLost() returns (cr: AppSetInstance, s: State)
    ensures "team" in s.cluster && ResourceName(cr) in s.cluster["team"].bindings
    ensures Served(cr, s.cluster, "team") && ResourceName(cr) !in Settle(cr, s).cluster["team"].bindings
  {
    cr := AppSetInstance("a", "argocd-a", Some(["team"]), _ => true);
    var name := ResourceName(cr);
    assert |name| != 0;
    var ns := Namespace(map[], map[], map[name := Binding("", [])]);
    s := State(map["team" := ns], {});
    assert Listed(cr)[..1] == ["team"];
    assert TurnCount(cr, "team") == 1;
    TurnsOfBindings(cr, ns, 1);
  }

  // ---- Convergence ----

  /** A binding to another role that the pass deletes and only the next one creates again. */
  predicate Replaced(cr: AppSetInstance, s: State, n: string)
    requires n in s.cluster
  {
    var name := ResourceName(cr);
    && Served(cr, s.cluster, n) && !ManagedElsewhere(s.cluster[n]) && multiset(Listed(cr))[n] == 1
    && name in s.cluster[n].bindings && s.cluster[n].bindings[name].role != name
  }

  /** A second pass on one namespace. */
  lemma SettledAgain(cr: AppSetInstance, s: State, n: string)
    requires n in s.cluster
    ensures var once := Settle(cr, s);
      && (SettledAt(cr, once, n) == once.cluster[n] <==> !Replaced(cr, s, n))
      && (StaysTracked(cr, once, n) <==> n in once.tracked)
      && !Replaced(cr, once, n)
  {
    var once := Settle(cr, s);
    ServedIff(cr, s.cluster, n);
    assert Served(cr, once.cluster, n) <==> Served(cr, s.cluster, n);
    if !Served(cr, s.cluster, n) {
      assert Turns(cr, once.cluster[n], 0) == once.cluster[n];
    } else if ManagedElsewhere(s.cluster[n]) {
      TurnsFacts(cr, s.cluster[n], TurnCount(cr, n));
      TurnsFacts(cr, once.cluster[n], TurnCount(cr, n));
    } else {
      ServedAgain(cr, s, n);
    }
  }

  lemma ServedAgain(cr: AppSetInstance, s: State, n: string)
    requires n in s.cluster && Served(cr, s.cluster, n) && !ManagedElsewhere(s.cluster[n])
    ensures var once := Settle(cr, s);
      && (SettledAt(cr, once, n) == once.cluster[n] <==> !Replaced(cr, s, n))
      && !Replaced(cr, once, n) && !ManagedElsewhere(once.cluster[n])
  {
    var once, k, name := Settle(cr, s), TurnCount(cr, n), ResourceName(cr);
    ServedIff(cr, s.cluster, n);
    assert Listed(cr)[..|Listed(cr)|] == Listed(cr);
    TurnsFacts(cr, s.cluster[n], k);
    TurnsOfBindings(cr, s.cluster[n], k);
    TurnsOfBindings(cr, once.cluster[n], k);
    var after := once.cluster[n];
    assert after.roles[name := CONTROLLER_RULES] == after.roles;
    if name in after.bindings {
      assert after.bindings[name := after.bindings[name]] == after.bindings;
    }
  }

  /** One pass is enough exactly when it replaces no binding. */
  lemma SettledAfterOneIff(cr: AppSetInstance, s: State)
    ensures Settle(cr, Settle(cr, s)) == Settle(cr, s) <==> forall n :: n in s.cluster ==> !Replaced(cr, s, n)
  {
    var once := Settle(cr, s);
    var twice := Settle(cr, once);
    forall n | n in once.cluster
      ensures twice.cluster[n] == once.cluster[n] <==> !Replaced(cr, s, n)
      ensures n in twice.tracked <==> n in once.tracked
    {
      SettledAgain(cr, s, n);
    }
    SameState(twice, once);
  }

  lemma SameState(a: State, b: State)
    requires a.cluster.Keys == b.cluster.Keys && a.tracked <= a.cluster.Keys && b.tracked <= b.cluster.Keys
    requires forall n :: n in b.cluster ==> (n in a.tracked <==> n in b.tracked)
    ensures a == b <==> forall n :: n in b.cluster ==> a.cluster[n] == b.cluster[n]
  {
    assert a.tracked == b.tracked;
  }

  /** Two passes always are. */
  lemma SettledAfterTwo(cr: AppSetInstance, s: State)
    ensures var twice := Settle(cr, Settle(cr, s)); Settle(cr, twice) == twice
  {
    var once := Settle(cr, s);
    forall n | n in once.cluster ensures !Replaced(cr, once, n) {
      SettledAgain(cr, s, n);
    }
    SettledAfterOneIff(cr, once);
  }
}
