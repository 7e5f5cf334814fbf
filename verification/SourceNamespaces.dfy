/** How an Argo CD instance claims and releases source namespaces: the reconciliation of the
    managed-by-cluster-argocd label, of the role and of the role binding in every namespace
    (controllers/argocd/role.go, rolebinding.go and util.go). Namespaced objects live inside
    their namespace, so one pass is described namespace by namespace. */
module SourceNamespaces {
  import opened Api
  import opened Lists
  import opened Sweeps

  const MANAGED_BY := "argocd.argoproj.io/managed-by"
  const CLAIM := "argocd.argoproj.io/managed-by-cluster-argocd"

  datatype Binding = Binding(role: string, subjects: seq<Subject>)
  datatype Namespace = Namespace(labels: map<string, string>, roles: map<string, Rules>, bindings: map<string, Binding>)
  type Cluster = map<string, Namespace>

  /** The parts of an ArgoCD resource a pass looks at; `matches` is the glob match of a
      namespace name against spec.sourceNamespaces. */
  datatype Instance = Instance(name: string, namespace: string, matches: string -> bool, appsets: seq<string>)

  const SERVER_RULES: Rules := ["applications"]
  const APPSET_RULES: Rules := ["applicationsets"]

  /** Name of both the role and the role binding. */
  function RoleName(instance: string, n: string): string {
    instance + "_" + n
  }

  function WantedRules(cr: Instance, n: string): Rules {
    if n in cr.appsets then SERVER_RULES + APPSET_RULES else SERVER_RULES
  }

  function WantedBinding(cr: Instance, n: string): Binding {
    Binding(RoleName(cr.name, n),
            [Subject(cr.name + "-argocd-server", cr.namespace),
             Subject(cr.name + "-argocd-application-controller", cr.namespace)])
  }

  function Claimant(ns: Namespace): Option<string> {
    Lookup(ns.labels, CLAIM)
  }

  /** A non-empty managed-by label takes precedence over source namespaces. */
  predicate ManagedElsewhere(ns: Namespace) {
    MANAGED_BY in ns.labels && ns.labels[MANAGED_BY] != ""
  }

  predicate Mine(cr: Instance, ns: Namespace) {
    Claimant(ns) == Some(cr.namespace)
  }

  predicate Foreign(cr: Instance, ns: Namespace) {
    Claimant(ns).Some? && !Mine(cr, ns)
  }

  /** The instance is entitled to the namespace: it matches, it is free or already its own,
      and no managed-by label takes it away. */
  predicate Eligible(cr: Instance, n: string, ns: Namespace) {
    cr.matches(n) && !ManagedElsewhere(ns) && !Foreign(cr, ns)
  }

  function Released(cr: Instance, n: string, ns: Namespace): Namespace {
    var name := RoleName(cr.name, n);
    Namespace(ns.labels - {CLAIM}, ns.roles - {name}, ns.bindings - {name})
  }

  /** Where one pass without failed requests takes a namespace. */
  function Settled(cr: Instance, n: string, ns: Namespace): Namespace {
    var name := RoleName(cr.name, n);
    var claimed := Eligible(cr, n, ns);
    var lost := Mine(cr, ns) && !claimed;
    Namespace(
      if claimed then ns.labels[CLAIM := cr.namespace] else if lost then ns.labels - {CLAIM} else ns.labels,
      if claimed then ns.roles[name := WantedRules(cr, n)] else if lost then ns.roles - {name} else ns.roles,
      if cr.matches(n) && MANAGED_BY !in ns.labels && (claimed || name !in ns.bindings)
      then ns.bindings[name := WantedBinding(cr, n)]
      else if lost then ns.bindings - {name} else ns.bindings)
  }

  /** What a pass may do to a namespace whatever requests fail on the way: it keeps every
      label but the claim and every role and binding but its own, leaves a namespace alone
      that it neither holds nor is entitled to, except that it may add a missing binding,
      claims only what it is entitled to and releases only what it is not. */
  ghost predicate Respects(cr: Instance, n: string, before: Namespace, after: Namespace) {
    var name := RoleName(cr.name, n);
    && after.labels - {CLAIM} == before.labels - {CLAIM}
    && after.roles - {name} == before.roles - {name}
    && after.bindings - {name} == before.bindings - {name}
    && (!Mine(cr, before) && !Eligible(cr, n, before) ==>
          && after.labels == before.labels && after.roles == before.roles
          && (name in before.bindings ==> after.bindings == before.bindings))
    && (Foreign(cr, after) ==> Foreign(cr, before))
    && (Mine(cr, before) && !Mine(cr, after) ==> !Eligible(cr, n, before))
  }

  lemma Distinguished()
    ensures CLAIM != MANAGED_BY
  {
    assert |CLAIM| != |MANAGED_BY|;
  }

  lemma RespectsTransitive(cr: Instance, n: string, a: Namespace, b: Namespace, c: Namespace)
    requires Respects(cr, n, a, b) && Respects(cr, n, b, c)
    ensures Respects(cr, n, a, c)
  {
    Distinguished();
    OtherKept(a.labels, b.labels, CLAIM, MANAGED_BY);
  }

  /** The requests made while a namespace is claimed or released. */
  datatype Call = NamespaceLookup | LabelUpdate | RoleLookup | RoleCreation | RoleUpdate | RoleDeletion
                | BindingLookup | BindingDeletion

  /** Whether the deletion of a role, or of a binding, goes through; one that is not there need
      not be deleted. */
  predicate RoleGoes(roles: map<string, Rules>, name: string, refused: set<Call>) {
    RoleLookup !in refused && (name in roles ==> RoleDeletion !in refused)
  }

  predicate BindingGoes(bindings: map<string, Binding>, name: string, refused: set<Call>) {
    BindingLookup !in refused && (name in bindings ==> BindingDeletion !in refused)
  }

  /** Where a release leaves a namespace when some requests are refused: a refused label update
      does not stop it, and the binding goes only after the role. */
  function AfterRelease(cr: Instance, n: string, ns: Namespace, refused: set<Call>): Namespace {
    var name, released := RoleName(cr.name, n), Released(cr, n, ns);
    if NamespaceLookup in refused then ns
    else
      var roleGoes := RoleGoes(ns.roles, name, refused);
      Namespace(if LabelUpdate in refused then ns.labels else released.labels,
                if roleGoes then released.roles else ns.roles,
                if roleGoes && BindingGoes(ns.bindings, name, refused) then released.bindings else ns.bindings)
  }

  ghost predicate PartlyReleased(cr: Instance, n: string, before: Namespace, after: Namespace) {
    exists refused :: after == AfterRelease(cr, n, before, refused)
  }

  lemma IsPartlyReleased(cr: Instance, n: string, ns: Namespace, refused: set<Call>)
    ensures PartlyReleased(cr, n, ns, AfterRelease(cr, n, ns, refused))
  {
  }

  lemma ReleaseRespects(cr: Instance, n: string, before: Namespace, after: Namespace)
    requires PartlyReleased(cr, n, before, after) && Mine(cr, before) && !Eligible(cr, n, before)
    ensures Respects(cr, n, before, after)
  {
  }

  /** The removal phase after the role phase. */
  lemma RemovalRespects(cr: Instance, n: string, before: Namespace, claimed: Namespace, after: Namespace, released: bool)
    requires Respects(cr, n, before, claimed)
    requires if released
             then claimed == before && Mine(cr, before) && !cr.matches(n) && PartlyReleased(cr, n, before, after)
             else after == claimed
    ensures Respects(cr, n, before, after)
  {
    if released {
      ReleaseRespects(cr, n, before, after);
    }
  }

  /** Whether a claim gets as far as the label update: a missing role is created first. */
  predicate ReachesLabel(cr: Instance, n: string, ns: Namespace, refused: set<Call>) {
    && RoleLookup !in refused && NamespaceLookup !in refused
    && (RoleName(cr.name, n) !in ns.roles ==> RoleCreation !in refused)
  }

  /** Whether it ends with the wanted role. */
  predicate GetsRole(cr: Instance, n: string, ns: Namespace, refused: set<Call>) {
    var name := RoleName(cr.name, n);
    if name !in ns.roles then RoleLookup !in refused && RoleCreation !in refused
    else ns.roles[name] == WantedRules(cr, n) || (ReachesLabel(cr, n, ns, refused) && RoleUpdate !in refused)
  }

  /** Where a claim leaves a namespace when some requests are refused. */
  function AfterClaim(cr: Instance, n: string, ns: Namespace, refused: set<Call>): Namespace {
    var labelled := ReachesLabel(cr, n, ns, refused) && LabelUpdate !in refused;
    Namespace(if labelled then ns.labels[CLAIM := cr.namespace] else ns.labels,
              if GetsRole(cr, n, ns, refused) then ns.roles[RoleName(cr.name, n) := WantedRules(cr, n)] else ns.roles,
              ns.bindings)
  }

  lemma ClaimRespects(cr: Instance, n: string, ns: Namespace, refused: set<Call>)
    requires Eligible(cr, n, ns)
    ensures Respects(cr, n, ns, AfterClaim(cr, n, ns, refused))
  {
  }

  /** The three phases of a pass, per namespace. */
  function AfterRole(cr: Instance, n: string, ns: Namespace): Namespace {
    if !cr.matches(n) then ns
    else if ManagedElsewhere(ns) then (if Mine(cr, ns) then Released(cr, n, ns) else ns)
    else if Foreign(cr, ns) then ns
    else ns.(labels := ns.labels[CLAIM := cr.namespace], roles := ns.roles[RoleName(cr.name, n) := WantedRules(cr, n)])
  }

  function AfterRemoval(cr: Instance, n: string, ns: Namespace): Namespace {
    if Mine(cr, ns) && !cr.matches(n) then Released(cr, n, ns) else ns
  }

  function AfterBinding(cr: Instance, n: string, ns: Namespace): Namespace {
    var name := RoleName(cr.name, n);
    if cr.matches(n) && MANAGED_BY !in ns.labels && (name in ns.bindings ==> Mine(cr, ns))
    then ns.(bindings := ns.bindings[name := WantedBinding(cr, n)]) else ns
  }

  lemma PhasesSettle(cr: Instance, n: string, ns: Namespace)
    ensures AfterBinding(cr, n, AfterRemoval(cr, n, AfterRole(cr, n, ns))) == Settled(cr, n, ns)
  {
    assert Released(cr, n, ns).labels == ns.labels - {CLAIM};
  }

  /** The binding phase runs a second time with the service accounts and finds nothing to do. */
  lemma BindingTwice(cr: Instance, n: string, ns: Namespace)
    ensures AfterBinding(cr, n, AfterBinding(cr, n, ns)) == AfterBinding(cr, n, ns)
  {
    var once := AfterBinding(cr, n, ns);
    var name := RoleName(cr.name, n);
    assert name in once.bindings ==> once.bindings[name := once.bindings[name]] == once.bindings;
  }

  /** Deletes a role, or a binding, that exists. */
  method DeleteRole(ns: Namespace, name: string, refused: set<Call>, failures: nat)
    returns (ok: bool, after: Namespace, count: nat)
    ensures ok <==> RoleGoes(ns.roles, name, refused)
    ensures count == failures + if ok then 0 else 1
    ensures after == if ok then ns.(roles := ns.roles - {name}) else ns
  {
    after := ns;
    ok, count := Ask(RoleLookup !in refused, failures);
    if ok && name in ns.roles {
      ok, count := Ask(RoleDeletion !in refused, count);
    }
    if ok {
      after := ns.(roles := ns.roles - {name});
    }
  }

  method DeleteBinding(ns: Namespace, name: string, refused: set<Call>, failures: nat)
    returns (ok: bool, after: Namespace, count: nat)
    ensures ok <==> BindingGoes(ns.bindings, name, refused)
    ensures count == failures + if ok then 0 else 1
    ensures after == if ok then ns.(bindings := ns.bindings - {name}) else ns
  {
    after := ns;
    ok, count := Ask(BindingLookup !in refused, failures);
    if ok && name in ns.bindings {
      ok, count := Ask(BindingDeletion !in refused, count);
    }
    if ok {
      after := ns.(bindings := ns.bindings - {name});
    }
  }

  /** The requests of a claim, in order: create a missing role, label the namespace, correct the
      rules of a role that was there. A refused label update does not stop the others. */
  method ClaimSteps(cr: Instance, n: string, before: Namespace, refused: set<Call>, failures: nat)
    returns (ok: bool, ns: Namespace, count: nat)
    ensures ns == AfterClaim(cr, n, before, refused)
    ensures ok <==> ReachesLabel(cr, n, before, refused) && GetsRole(cr, n, before, refused)
    ensures count >= failures && (count == failures <==> ok && LabelUpdate !in refused)
  {
    ns := before;
    var name := RoleName(cr.name, n);
    var rules := SERVER_RULES;
    if n in cr.appsets {
      rules := rules + APPSET_RULES;
    }
    assert name in before.roles ==> before.roles[name := before.roles[name]] == before.roles;
    ok, count := Ask(RoleLookup !in refused, failures);
    if !ok {
      return;
    }
    var created := false;
    if name !in ns.roles {
      ok, count := Ask(RoleCreation !in refused, count);
      if !ok {
        return;
      }
      ns := ns.(roles := ns.roles[name := rules]);
      created := true;
    }
    ok, count := Ask(NamespaceLookup !in refused, count);
    if !ok {
      return;
    }
    var labelled;
    labelled, count := Ask(LabelUpdate !in refused, count);
    if labelled {
      ns := ns.(labels := ns.labels[CLAIM := cr.namespace]);
    }
    if !created && ns.roles[name] != rules {
      ok, count := Ask(RoleUpdate !in refused, count);
      if !ok {
        return;
      }
      ns := ns.(roles := ns.roles[name := rules]);
    }
  }

  /** Looks the binding up and creates, updates or replaces it. One that exists is left alone
      unless the namespace is claimed. */
  method BindSteps(cr: Instance, n: string, ns: Namespace, failures: nat)
    returns (ok: bool, bindings: map<string, Binding>, count: nat)
    ensures count >= failures && (count == failures ==> ok)
    ensures var name := RoleName(cr.name, n);
      && bindings - {name} == ns.bindings - {name}
      && (name in ns.bindings && !Mine(cr, ns) ==> bindings == ns.bindings)
      && (count == failures && (name in ns.bindings ==> Mine(cr, ns)) ==> bindings == ns.bindings[name := WantedBinding(cr, n)])
  {
    var name, wanted := RoleName(cr.name, n), WantedBinding(cr, n);
    bindings := ns.bindings;
    ok, count := Request(failures);
    if !ok {
      return;
    }
    if name in bindings {
      var existing := bindings[name];
      if !Mine(cr, ns) {
        return;
      }
      if existing.role != wanted.role {
        ok, count := Request(count);
        if !ok {
          return;
        }
        bindings := bindings - {name};
      } else {
        if existing.subjects != wanted.subjects {
          ok, count := Request(count);
          if !ok {
            return;
          }
          bindings := bindings[name := existing.(subjects := wanted.subjects)];
        }
        return;
      }
    }
    ok, count := Request(count);
    if ok {
      bindings := bindings[name := wanted];
    }
  }

  /** The set of managed namespaces is the set of claimed ones. */
  ghost predicate Tracks(cr: Instance, managed: set<string>, cluster: Cluster) {
    forall n :: n in managed <==> n in cluster && Mine(cr, cluster[n])
  }

  // ---- The loop over the matching namespaces ----

  ghost function Respecting(cr: Instance): (string, Namespace, Namespace) -> bool {
    (n, a, b) => Respects(cr, n, a, b)
  }

  ghost function Claiming(cr: Instance): (string, Namespace, Namespace) -> bool {
    (n, a, b) => b == AfterRole(cr, n, a)
  }

  ghost function Rebinding(cr: Instance): (string, Namespace, Namespace) -> bool {
    (n, a, b) => b == AfterBinding(cr, n, a)
  }

  /** The namespaces in `done` have had their turn; whatever failed on the way. */
  ghost predicate RolesSwept(cr: Instance, done: set<string>, before: Cluster, tracked: set<string>,
                             now: Cluster, managed: set<string>) {
    && (forall n :: n in done ==> cr.matches(n))
    && Swept(done, before, now, Respecting(cr))
    && (forall n :: !cr.matches(n) ==> (n in managed <==> n in tracked))
  }

  /** And without failures. */
  ghost predicate RolesExact(cr: Instance, done: set<string>, before: Cluster, tracked: set<string>,
                             now: Cluster, managed: set<string>) {
    && Swept(done, before, now, Claiming(cr))
    && (Tracks(cr, tracked, before) ==> Tracks(cr, managed, now))
  }

  lemma RolesNone(cr: Instance, before: Cluster, tracked: set<string>)
    ensures RolesSwept(cr, {}, before, tracked, before, tracked) && RolesExact(cr, {}, before, tracked, before, tracked)
  {
    SweptNone(before, Respecting(cr));
    SweptNone(before, Claiming(cr));
  }

  lemma RolesNext(cr: Instance, done: set<string>, before: Cluster, tracked: set<string>, now: Cluster, managed: set<string>,
                  next: Cluster, managed': set<string>, n: string)
    requires RolesSwept(cr, done, before, tracked, now, managed) && n !in done && n in now && cr.matches(n)
    requires n in next && next == now[n := next[n]] && Respects(cr, n, now[n], next[n])
    requires forall m :: m != n ==> (m in managed' <==> m in managed)
    ensures RolesSwept(cr, done + {n}, before, tracked, next, managed')
  {
    SweptNext(done, before, now, next, n, Respecting(cr));
  }

  lemma ExactNext(cr: Instance, done: set<string>, before: Cluster, tracked: set<string>, now: Cluster, managed: set<string>,
                  next: Cluster, managed': set<string>, n: string)
    requires RolesExact(cr, done, before, tracked, now, managed) && n !in done && n in now
    requires n in next && next == now[n := next[n]] && next[n] == AfterRole(cr, n, now[n])
    requires forall m :: m != n ==> (m in managed' <==> m in managed)
    requires (n in managed <==> Mine(cr, now[n])) ==> (n in managed' <==> Mine(cr, next[n]))
    ensures RolesExact(cr, done + {n}, before, tracked, next, managed')
  {
    SweptNext(done, before, now, next, n, Claiming(cr));
  }

  lemma RolesDone(cr: Instance, done: set<string>, before: Cluster, tracked: set<string>, now: Cluster, managed: set<string>)
    requires RolesSwept(cr, done, before, tracked, now, managed)
    ensures now.Keys == before.Keys
    ensures forall n :: n in now ==> Respects(cr, n, before[n], now[n])
    ensures forall n :: n in now && !cr.matches(n) ==> now[n] == before[n]
    ensures forall n :: !cr.matches(n) ==> (n in managed <==> n in tracked)
  {
  }

  lemma ExactDone(cr: Instance, done: set<string>, before: Cluster, tracked: set<string>, now: Cluster, managed: set<string>)
    requires RolesExact(cr, done, before, tracked, now, managed) && forall n :: n in before && cr.matches(n) ==> n in done
    ensures now.Keys == before.Keys && forall n :: n in now ==> now[n] == AfterRole(cr, n, before[n])
    ensures Tracks(cr, tracked, before) ==> Tracks(cr, managed, now)
  {
  }

  /** What the removal phase does to a tracked namespace, with and without failures. */
  ghost function Removing(cr: Instance, deleting: bool): (string, Namespace, Namespace) -> bool {
    (n, a, b) => if deleting || !cr.matches(n) then PartlyReleased(cr, n, a, b) else b == a
  }

  ghost function Removed(cr: Instance, deleting: bool): (string, Namespace, Namespace) -> bool {
    (n, a, b) => b == if deleting || !cr.matches(n) then Released(cr, n, a) else a
  }

  lemma NotReleased(cr: Instance, n: string, ns: Namespace)
    ensures PartlyReleased(cr, n, ns, ns)
  {
    assert ns == AfterRelease(cr, n, ns, {NamespaceLookup});
  }

  lemma RemovalDone(cr: Instance, deleting: bool, done: set<string>, tracked: set<string>, before: Cluster, now: Cluster)
    requires Swept(done, before, now, Removing(cr, deleting)) && done <= tracked
    ensures Swept(tracked, before, now, Removing(cr, deleting))
  {
    forall n | n in before ensures PartlyReleased(cr, n, before[n], before[n]) {
      NotReleased(cr, n, before[n]);
    }
  }

  /** The same for the bindings; `clean`: nothing has failed so far. */
  ghost predicate BindingsSwept(cr: Instance, done: set<string>, before: Cluster, now: Cluster, clean: bool) {
    Swept(done, before, now, Respecting(cr)) && (clean ==> Swept(done, before, now, Rebinding(cr)))
  }

  lemma BindingsNone(cr: Instance, before: Cluster)
    ensures BindingsSwept(cr, {}, before, before, true)
  {
    SweptNone(before, Respecting(cr));
    SweptNone(before, Rebinding(cr));
  }

  lemma BindingsNext(cr: Instance, done: set<string>, before: Cluster, now: Cluster, next: Cluster, n: string,
                     clean: bool, clean': bool)
    requires BindingsSwept(cr, done, before, now, clean) && n !in done && n in now && (clean' ==> clean)
    requires n in next && next == now[n := next[n]] && Respects(cr, n, now[n], next[n])
    requires clean' ==> next[n] == AfterBinding(cr, n, now[n])
    ensures BindingsSwept(cr, done + {n}, before, next, clean')
  {
    SweptNext(done, before, now, next, n, Respecting(cr));
    if clean' {
      SweptNext(done, before, now, next, n, Rebinding(cr));
    }
  }

  lemma BindingsDone(cr: Instance, done: set<string>, before: Cluster, now: Cluster, clean: bool)
    requires BindingsSwept(cr, done, before, now, clean)
    requires clean ==> forall n :: n in before && cr.matches(n) ==> n in done
    ensures now.Keys == before.Keys && forall n :: n in now ==> Respects(cr, n, before[n], now[n])
    ensures clean ==> forall n :: n in now ==> now[n] == AfterBinding(cr, n, before[n])
  {
  }

  class Reconciler {
    var cluster: Cluster
    var managed: set<string>
    var failures: nat

    constructor (cluster: Cluster)
      ensures this.cluster == cluster && managed == {} && failures == 0
    {
      this.cluster, managed, failures := cluster, {}, 0;
    }

    /** Names of the existing namespaces the spec matches, in no particular order. */
    method GetSourceNamespaces(cr: Instance) returns (ok: bool, names: seq<string>)
      modifies this`failures
      ensures failures == old(failures) + if ok then 0 else 1
      ensures ok ==> Distinct(names) && forall n :: n in names <==> n in cluster && cr.matches(n)
    {
      names := [];
      ok, failures := Request(failures);
      if !ok {
        return;
      }
      var rest := cluster.Keys;
      while rest != {}
        invariant rest <= cluster.Keys
        invariant Distinct(names)
        invariant forall n :: n in names <==> n in cluster.Keys - rest && cr.matches(n)
        decreases rest
      {
        var n :| n in rest;
        rest := rest - {n};
        if cr.matches(n) {
          names := names + [n];
        }
      }
    }

    method SetManagedSourceNamespaces(cr: Instance) returns (ok: bool)
      modifies this`managed, this`failures
      ensures failures == old(failures) + if ok then 0 else 1
      ensures managed == if ok then set n | n in cluster && Mine(cr, cluster[n]) else {}
    {
      managed := {};
      ok, failures := Request(failures);
      if ok {
        managed := set n | n in cluster && Mine(cr, cluster[n]);
      }
    }

    /** Takes the label, the role and the binding out of one namespace. The label goes
        whatever its value is. */
    method CleanupUnmanaged(cr: Instance, n: string, refused: set<Call>) returns (ok: bool)
      modifies this`cluster, this`failures
      ensures failures >= old(failures) && (failures == old(failures) ==> ok)
      ensures n !in old(cluster) ==> cluster == old(cluster)
      ensures n in old(cluster) ==> cluster == old(cluster)[n := AfterRelease(cr, n, old(cluster)[n], refused)]
      ensures n in old(cluster) && failures == old(failures) ==> cluster[n] == Released(cr, n, old(cluster)[n])
    {
      ok, failures := Ask(NamespaceLookup !in refused, failures);
      if n !in cluster {
        return;
      }
      var ns := cluster[n];
      assert old(cluster) == old(cluster)[n := ns];
      if !ok {
        return;
      }
      var updated;
      updated, failures := Ask(LabelUpdate !in refused, failures);
      if updated {
        ns := ns.(labels := ns.labels - {CLAIM});
      }
      ok, ns, failures := DeleteRole(ns, RoleName(cr.name, n), refused, failures);
      if ok {
        ok, ns, failures := DeleteBinding(ns, RoleName(cr.name, n), refused, failures);
      }
      cluster := cluster[n := ns];
    }

    /** Role and label of a namespace the instance is entitled to. */
    method ClaimNamespace(cr: Instance, n: string, refused: set<Call>) returns (ok: bool)
      requires n in cluster && Eligible(cr, n, cluster[n])
      modifies this
      ensures failures >= old(failures) && (failures == old(failures) <==> ok && LabelUpdate !in refused)
      ensures cluster == old(cluster)[n := AfterClaim(cr, n, old(cluster)[n], refused)]
      ensures failures == old(failures) ==> cluster[n] == AfterRole(cr, n, old(cluster)[n])
      ensures ok <==> ReachesLabel(cr, n, old(cluster)[n], refused) && GetsRole(cr, n, old(cluster)[n], refused)
      ensures managed == old(managed) + if ok then {n} else {}
    {
      var ns;
      ok, ns, failures := ClaimSteps(cr, n, cluster[n], refused, failures);
      cluster := cluster[n := ns];
      if ok {
        managed := managed + {n};
      }
    }

    /** One turn of the loop over the matching namespaces. */
    method ReconcileSourceRole(cr: Instance, n: string) returns (ok: bool)
      requires n in cluster && cr.matches(n)
      modifies this
      ensures failures >= old(failures)
      ensures n in cluster && cluster == old(cluster)[n := cluster[n]]
      ensures Respects(cr, n, old(cluster)[n], cluster[n])
      ensures failures == old(failures) ==> ok && cluster[n] == AfterRole(cr, n, old(cluster)[n])
      ensures forall m :: m != n ==> (m in managed <==> m in old(managed))
      ensures failures == old(failures) && (n in old(managed) <==> Mine(cr, old(cluster)[n])) ==>
        (n in managed <==> Mine(cr, cluster[n]))
    {
      ok, failures := Request(failures);
      if !ok {
        return;
      }
      if ManagedElsewhere(cluster[n]) {
        if Mine(cr, cluster[n]) {
          managed := managed - {n};
          var refused: set<Call> := *;
          var _ := CleanupUnmanaged(cr, n, refused);
          IsPartlyReleased(cr, n, old(cluster)[n], refused);
          ReleaseRespects(cr, n, old(cluster)[n], cluster[n]);
        }
        return true;
      }
      if Foreign(cr, cluster[n]) {
        return true;
      }
      var refused: set<Call> := *;
      ok := ClaimNamespace(cr, n, refused);
      ClaimRespects(cr, n, old(cluster)[n], refused);
    }

    method ReconcileRoleForApplicationSourceNamespaces(cr: Instance) returns (ok: bool)
      modifies this
      ensures failures >= old(failures) && cluster.Keys == old(cluster).Keys
      ensures forall n :: n in cluster ==> Respects(cr, n, old(cluster)[n], cluster[n])
      ensures forall n :: n in cluster && !cr.matches(n) ==> cluster[n] == old(cluster)[n]
      ensures failures == old(failures) ==> ok && forall n :: n in cluster ==> cluster[n] == AfterRole(cr, n, old(cluster)[n])
      ensures forall n :: !cr.matches(n) ==> (n in managed <==> n in old(managed))
      ensures failures == old(failures) && Tracks(cr, old(managed), old(cluster)) ==> Tracks(cr, managed, cluster)
    {
      ghost var before, tracked, done := cluster, managed, {};
      RolesNone(cr, before, tracked);
      var names: seq<string>;
      ok, names := GetSourceNamespaces(cr);
      if ok {
        for i := 0 to |names|
          invariant failures >= old(failures)
          invariant forall j :: 0 <= j < |names| ==> (names[j] in done <==> j < i)
          invariant forall n :: n in done ==> n in names
          invariant RolesSwept(cr, done, before, tracked, cluster, managed)
          invariant failures == old(failures) ==> ok && RolesExact(cr, done, before, tracked, cluster, managed)
        {
          ghost var now, held := cluster, managed;
          assert names[i] in names;
          ok := ReconcileSourceRole(cr, names[i]);
          RolesNext(cr, done, before, tracked, now, held, cluster, managed, names[i]);
          if failures == old(failures) {
            ExactNext(cr, done, before, tracked, now, held, cluster, managed, names[i]);
          }
          done := done + {names[i]};
          if !ok {
            break;
          }
        }
      }
      RolesDone(cr, done, before, tracked, cluster, managed);
      if failures == old(failures) {
        ExactDone(cr, done, before, tracked, cluster, managed);
      }
    }

    /** Releases one tracked namespace unless the spec matches it, or in any case when the
        instance is being deleted. A failed release keeps it tracked; `ok` is false when the
        namespaces cannot be listed. */
    method RemoveIfUnmanaged(cr: Instance, n: string, deleting: bool) returns (ok: bool)
      modifies this
      ensures failures >= old(failures) && (failures == old(failures) ==> ok)
      ensures if n in old(cluster) then n in cluster && cluster == old(cluster)[n := cluster[n]] else cluster == old(cluster)
      ensures n in old(cluster) ==> Removing(cr, deleting)(n, old(cluster)[n], cluster[n])
      ensures n in old(cluster) && failures == old(failures) ==> Removed(cr, deleting)(n, old(cluster)[n], cluster[n])
      ensures forall m :: m != n ==> (m in managed <==> m in old(managed))
      ensures failures == old(failures) ==> (n in managed <==> n in old(managed) && !deleting && n in cluster && cr.matches(n))
    {
      ok := true;
      var managedNamespace := false;
      if !deleting {
        var listed, names := GetSourceNamespaces(cr);
        ok := listed;
        managedNamespace := n in names;
      }
      if n in cluster {
        NotReleased(cr, n, cluster[n]);
      }
      if ok && !managedNamespace {
        var refused: set<Call> := *;
        var cleaned := CleanupUnmanaged(cr, n, refused);
        if n in cluster {
          IsPartlyReleased(cr, n, old(cluster)[n], refused);
        }
        if cleaned {
          managed := managed - {n};
        }
      }
    }

    /** Releases the tracked namespaces the spec no longer matches, or all of them when the
        instance is being deleted. */
    method RemoveUnmanaged(cr: Instance, deleting: bool) returns (ok: bool)
      modifies this
      ensures failures >= old(failures) && cluster.Keys == old(cluster).Keys
      ensures failures == old(failures) ==> ok
      ensures Swept(old(managed), old(cluster), cluster, Removing(cr, deleting))
      ensures failures == old(failures) ==> Swept(old(managed), old(cluster), cluster, Removed(cr, deleting))
      ensures failures == old(failures) ==>
        forall n :: n in managed <==> n in old(managed) && !deleting && n in cluster && cr.matches(n)
    {
      ghost var before, tracked := cluster, managed;
      SweptNone(before, Removing(cr, deleting));
      SweptNone(before, Removed(cr, deleting));
      ok := true;
      var rest := managed;
      while rest != {} && ok
        invariant rest <= tracked && failures >= old(failures)
        invariant failures == old(failures) ==> ok
        invariant Swept(tracked - rest, before, cluster, Removing(cr, deleting))
        invariant failures == old(failures) ==> Swept(tracked - rest, before, cluster, Removed(cr, deleting))
        invariant failures == old(failures) ==>
          forall n :: n in managed <==> n in rest || (n in tracked && !deleting && n in before && cr.matches(n))
        decreases rest
      {
        var n :| n in rest;
        ghost var now, done := cluster, tracked - rest;
        rest := rest - {n};
        ok := RemoveIfUnmanaged(cr, n, deleting);
        SweptNext(done, before, now, cluster, n, Removing(cr, deleting));
        if failures == old(failures) {
          SweptNext(done, before, now, cluster, n, Removed(cr, deleting));
        }
        assert tracked - rest == done + {n};
      }
      assert ok ==> tracked - rest == tracked;
      RemovalDone(cr, deleting, tracked - rest, tracked, before, cluster);
    }

    /** The binding of one matching namespace. */
    method ReconcileSourceBinding(cr: Instance, n: string) returns (ok: bool)
      requires n in cluster && cr.matches(n)
      modifies this`cluster, this`failures
      ensures failures >= old(failures)
      ensures n in cluster && cluster == old(cluster)[n := cluster[n]]
      ensures Respects(cr, n, old(cluster)[n], cluster[n])
      ensures failures == old(failures) ==> ok && cluster[n] == AfterBinding(cr, n, old(cluster)[n])
    {
      ok, failures := Request(failures);
      if !ok || MANAGED_BY in cluster[n].labels {
        return;
      }
      ok, failures := Request(failures);
      if !ok {
        return;
      }
      var bindings;
      ok, bindings, failures := BindSteps(cr, n, cluster[n], failures);
      cluster := cluster[n := cluster[n].(bindings := bindings)];
    }

    method ReconcileSourceBindings(cr: Instance) returns (ok: bool)
      modifies this`cluster, this`failures
      ensures failures >= old(failures) && cluster.Keys == old(cluster).Keys
      ensures forall n :: n in cluster ==> Respects(cr, n, old(cluster)[n], cluster[n])
      ensures failures == old(failures) ==>
        ok && forall n :: n in cluster ==> cluster[n] == AfterBinding(cr, n, old(cluster)[n])
    {
      ghost var before, done := cluster, {};
      BindingsNone(cr, before);
      var names: seq<string>;
      ok, names := GetSourceNamespaces(cr);
      if ok {
        for i := 0 to |names|
          invariant failures >= old(failures) && (failures == old(failures) ==> ok)
          invariant forall j :: 0 <= j < |names| ==> (names[j] in done <==> j < i)
          invariant forall n :: n in done ==> n in names
          invariant BindingsSwept(cr, done, before, cluster, failures == old(failures))
        {
          ghost var now, clean := cluster, failures == old(failures);
          assert names[i] in names;
          ok := ReconcileSourceBinding(cr, names[i]);
          BindingsNext(cr, done, before, now, cluster, names[i], clean, failures == old(failures));
          done := done + {names[i]};
          if !ok {
            break;
          }
        }
      }
      BindingsDone(cr, done, before, cluster, failures == old(failures));
    }

    /** The source namespace part of a reconciliation of an instance that is not being
        deleted, in the order the controller runs it: the bindings are reconciled once on
        their own and once more with the service accounts. */
    method Reconcile(cr: Instance) returns (ok: bool)
      modifies this
      ensures cluster.Keys == old(cluster).Keys
      ensures forall n :: n in cluster ==> Respects(cr, n, old(cluster)[n], cluster[n])
      ensures failures == old(failures) ==> ok && forall n :: n in cluster ==> cluster[n] == Settled(cr, n, old(cluster)[n])
      ensures failures == old(failures) ==> Tracks(cr, managed, cluster)
    {
      ok := ReconcileRoles(cr);
      if ok {
        ghost var kept := cluster;
        ok := ReconcileBindingsTwice(cr);
        forall n | n in cluster
          ensures Respects(cr, n, old(cluster)[n], cluster[n])
          ensures failures == old(failures) ==> cluster[n] == Settled(cr, n, old(cluster)[n])
        {
          RespectsTransitive(cr, n, old(cluster)[n], kept[n], cluster[n]);
          PhasesSettle(cr, n, old(cluster)[n]);
        }
      }
    }

    method ReconcileBindingsTwice(cr: Instance) returns (ok: bool)
      modifies this`cluster, this`failures
      ensures failures >= old(failures) && cluster.Keys == old(cluster).Keys
      ensures forall n :: n in cluster ==> Respects(cr, n, old(cluster)[n], cluster[n])
      ensures failures == old(failures) ==>
        ok && forall n :: n in cluster ==> cluster[n] == AfterBinding(cr, n, old(cluster)[n])
    {
      ok := ReconcileSourceBindings(cr);
      if ok {
        ghost var once := cluster;
        ok := ReconcileSourceBindings(cr);
        forall n | n in cluster
          ensures Respects(cr, n, old(cluster)[n], cluster[n])
          ensures failures == old(failures) ==> cluster[n] == AfterBinding(cr, n, old(cluster)[n])
        {
          RespectsTransitive(cr, n, old(cluster)[n], once[n], cluster[n]);
          BindingTwice(cr, n, old(cluster)[n]);
        }
      }
    }

    method ReconcileRoles(cr: Instance) returns (ok: bool)
      modifies this
      ensures failures >= old(failures) && cluster.Keys == old(cluster).Keys
      ensures forall n :: n in cluster ==> Respects(cr, n, old(cluster)[n], cluster[n])
      ensures failures == old(failures) ==>
        ok && forall n :: n in cluster ==> cluster[n] == AfterRemoval(cr, n, AfterRole(cr, n, old(cluster)[n]))
      ensures failures == old(failures) ==> Tracks(cr, managed, cluster)
    {
      ok := SetManagedSourceNamespaces(cr);
      if !ok {
        return;
      }
      ok := ReconcileRoleForApplicationSourceNamespaces(cr);
      if !ok {
        return;
      }
      ghost var claimed, tracked := cluster, managed;
      ok := RemoveUnmanaged(cr, false);
      forall n | n in cluster
        ensures Respects(cr, n, old(cluster)[n], cluster[n])
        ensures failures == old(failures) ==> cluster[n] == AfterRemoval(cr, n, AfterRole(cr, n, old(cluster)[n]))
      {
        RemovalRespects(cr, n, old(cluster)[n], claimed[n], cluster[n], n in tracked && !cr.matches(n));
      }
    }

    /** The source namespace part of the finalizer of an instance under deletion: it works on
        whatever set the previous reconciliation left behind. */
    method Finalize(cr: Instance) returns (ok: bool)
      modifies this
      ensures cluster.Keys == old(cluster).Keys
      ensures forall n :: n in cluster ==>
        if n in old(managed) then PartlyReleased(cr, n, old(cluster)[n], cluster[n]) else cluster[n] == old(cluster)[n]
      ensures failures == old(failures) ==> ok && cluster == Finalized(cr, old(managed), old(cluster)) && managed == {}
    {
      ok := RemoveUnmanaged(cr, true);
    }
  }

  function Finalized(cr: Instance, managed: set<string>, cluster: Cluster): Cluster {
    map n | n in cluster :: if n in managed then Released(cr, n, cluster[n]) else cluster[n]
  }
}
