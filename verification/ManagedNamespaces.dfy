/** Roles and role bindings of one component in the namespaces an instance manages
    (controllers/argocd/role.go and rolebinding.go). */
module ManagedNamespaces {
  import opened Api
  import opened Lists

  datatype Ref = Role(name: string) | ClusterRole(name: string)
  datatype Binding = Binding(ref: Ref, subjects: seq<Subject>)
  datatype Namespace = Namespace(managedBy: Option<string>, roles: map<string, Rules>, bindings: map<string, Binding>)
  type Cluster = map<string, Namespace>

  /** An entry of the list of managed namespaces, fetched at the start of the reconciliation. */
  datatype Item = Item(name: string, terminating: bool)

  /** `custom` is the cluster role name set in the environment of the operator, or empty;
      `hosts` are the namespaces that contain an ArgoCD resource. */
  datatype Setting = Setting(name: string, namespace: string, component: Component, rules: Rules, custom: string,
                             useDex: bool, hosts: set<string>)

  function ResourceName(s: Setting): string {
    s.name + "-" + ComponentName(s.component)
  }

  /** Internal components only get permissions where an instance runs. */
  predicate Concerns(s: Setting, n: string) {
    n in s.hosts || n == s.namespace || s.component == Controller || s.component == Server
  }

  predicate Unwanted(s: Setting) {
    s.component == DexServer && !s.useDex
  }

  /** The service account of the component has the same name as its role and binding. */
  function Account(s: Setting): Subject {
    Subject(ResourceName(s), s.namespace)
  }

  function WantedBinding(s: Setting): Binding {
    Binding(if s.custom != "" then ClusterRole(s.custom) else Role(ResourceName(s)), [Account(s)])
  }

  function AccountsAfter(s: Setting, accounts: set<Subject>): set<Subject> {
    if Unwanted(s) then accounts - {Account(s)} else accounts + {Account(s)}
  }

  function RolesAfter(s: Setting, roles: map<string, Rules>): map<string, Rules> {
    if s.custom != "" || Unwanted(s) then roles - {ResourceName(s)} else roles[ResourceName(s) := s.rules]
  }

  function BindingsAfter(s: Setting, bindings: map<string, Binding>): map<string, Binding> {
    if Unwanted(s) then bindings - {ResourceName(s)} else bindings[ResourceName(s) := WantedBinding(s)]
  }

  /** Where a pass without failed requests takes a live namespace of the list. */
  function Settled(s: Setting, n: string, ns: Namespace): Namespace {
    if Concerns(s, n) then ns.(roles := RolesAfter(s, ns.roles), bindings := BindingsAfter(s, ns.bindings)) else ns
  }

  /** A terminating one only loses its label. */
  function Dropped(ns: Namespace): Namespace {
    ns.(managedBy := None)
  }

  predicate Live(items: seq<Item>, n: string) {
    Item(n, false) in items
  }

  predicate Terminating(items: seq<Item>, n: string) {
    Item(n, true) in items
  }

  /** A namespace may be listed twice: the namespace of the instance is added to the list
      without looking at its state. */
  function After(s: Setting, items: seq<Item>, n: string, ns: Namespace): Namespace {
    var settled := if Live(items, n) then Settled(s, n, ns) else ns;
    if Terminating(items, n) then Dropped(settled) else settled
  }

  function RolesDone(s: Setting, items: seq<Item>, n: string, ns: Namespace): Namespace {
    Namespace(if Terminating(items, n) then None else ns.managedBy,
              if Live(items, n) && Concerns(s, n) then RolesAfter(s, ns.roles) else ns.roles, ns.bindings)
  }

  function BindingsDone(s: Setting, items: seq<Item>, n: string, ns: Namespace): Namespace {
    Namespace(if Terminating(items, n) then None else ns.managedBy,
              ns.roles, if Live(items, n) && Concerns(s, n) then BindingsAfter(s, ns.bindings) else ns.bindings)
  }

  lemma NextItem(items: seq<Item>, i: nat, n: string)
    requires i < |items|
    ensures Live(items[..i + 1], n) <==> Live(items[..i], n) || items[i] == Item(n, false)
    ensures Terminating(items[..i + 1], n) <==> Terminating(items[..i], n) || items[i] == Item(n, true)
  {
    assert items[..i + 1] == items[..i] + [items[i]];
  }

  lemma RolesAfterTwice(s: Setting, roles: map<string, Rules>)
    ensures RolesAfter(s, RolesAfter(s, roles)) == RolesAfter(s, roles)
  {
  }

  lemma BindingsAfterTwice(s: Setting, bindings: map<string, Binding>)
    ensures BindingsAfter(s, BindingsAfter(s, bindings)) == BindingsAfter(s, bindings)
  {
  }

  // ---- Passes with failed requests ----

  predicate LabelTouched(items: seq<Item>, n: string, a: Namespace, b: Namespace) {
    b.managedBy == a.managedBy || (Terminating(items, n) && b.managedBy.None?)
  }

  /** The roles of a namespace are as before or as wanted. */
  predicate RolesTouched(s: Setting, items: seq<Item>, n: string, a: Namespace, b: Namespace) {
    && LabelTouched(items, n, a, b) && b.bindings == a.bindings
    && (b.roles == a.roles || (Live(items, n) && Concerns(s, n) && b.roles == RolesAfter(s, a.roles)))
  }

  /** The bindings are as before, as wanted, or without the one that is being replaced. */
  predicate BindingsTouched(s: Setting, items: seq<Item>, n: string, a: Namespace, b: Namespace) {
    && LabelTouched(items, n, a, b) && b.roles == a.roles
    && (b.bindings == a.bindings
        || (Live(items, n) && Concerns(s, n) &&
            (b.bindings == BindingsAfter(s, a.bindings) || b.bindings == a.bindings - {ResourceName(s)})))
  }

  /** Both, which is what a whole pass may do whatever fails. */
  predicate Touched(s: Setting, items: seq<Item>, n: string, a: Namespace, b: Namespace) {
    && LabelTouched(items, n, a, b)
    && RolesTouched(s, items, n, a, Namespace(a.managedBy, b.roles, a.bindings))
    && BindingsTouched(s, items, n, a, Namespace(a.managedBy, a.roles, b.bindings))
  }

  lemma RolesTouchedTransitive(s: Setting, items: seq<Item>, n: string, a: Namespace, b: Namespace, c: Namespace)
    requires RolesTouched(s, items, n, a, b) && RolesTouched(s, items, n, b, c)
    ensures RolesTouched(s, items, n, a, c)
  {
    RolesAfterTwice(s, a.roles);
  }

  lemma BindingsTouchedTransitive(s: Setting, items: seq<Item>, n: string, a: Namespace, b: Namespace, c: Namespace)
    requires BindingsTouched(s, items, n, a, b) && BindingsTouched(s, items, n, b, c)
    ensures BindingsTouched(s, items, n, a, c)
  {
    var name := ResourceName(s);
    BindingsAfterTwice(s, a.bindings);
    assert BindingsAfter(s, a.bindings - {name}) == BindingsAfter(s, a.bindings);
    assert a.bindings - {name} - {name} == a.bindings - {name};
    assert BindingsAfter(s, a.bindings) - {name} == a.bindings - {name};
  }

  lemma TouchedBoth(s: Setting, items: seq<Item>, n: string, a: Namespace, b: Namespace, c: Namespace)
    requires RolesTouched(s, items, n, a, b) && BindingsTouched(s, items, n, b, c)
    ensures Touched(s, items, n, a, c)
  {
  }

  // ---- The requests in one namespace ----

  method RoleSteps(s: Setting, n: string, roles: map<string, Rules>, failures: nat)
    returns (ok: bool, after: map<string, Rules>, count: nat)
    ensures count == failures + if ok then 0 else 1
    ensures after == if ok && Concerns(s, n) then RolesAfter(s, roles) else roles
  {
    after := roles;
    ok, count := Request(failures);
    if !ok || !Concerns(s, n) {
      return;
    }
    var name := ResourceName(s);
    ok, count := Request(count);
    if !ok {
      return;
    }
    if name !in roles {
      if s.custom != "" || Unwanted(s) {
        return;
      }
      ok, count := Request(count);
      if ok {
        after := roles[name := s.rules];
      }
      return;
    }
    if s.custom != "" || Unwanted(s) {
      ok, count := Request(count);
      if ok {
        after := roles - {name};
      }
      return;
    }
    if roles[name] != s.rules {
      ok, count := Request(count);
      if ok {
        after := roles[name := s.rules];
      }
    }
  }

  /** The API server refuses an update that changes what a binding refers to. */
  method UpdateBinding(bindings: map<string, Binding>, name: string, binding: Binding, failures: nat)
    returns (ok: bool, after: map<string, Binding>, count: nat)
    requires name in bindings && binding.ref == bindings[name].ref
    ensures count == failures + if ok then 0 else 1
    ensures after == if ok then bindings[name := binding] else bindings
  {
    after := bindings;
    ok, count := Request(failures);
    if ok {
      after := bindings[name := binding];
    }
  }

  method BindingSteps(s: Setting, n: string, bindings: map<string, Binding>, failures: nat)
    returns (ok: bool, after: map<string, Binding>, count: nat)
    ensures count == failures + if ok then 0 else 1
    ensures ok ==> after == if Concerns(s, n) then BindingsAfter(s, bindings) else bindings
    ensures !ok ==> after == bindings || (Concerns(s, n) && after == bindings - {ResourceName(s)})
  {
    after := bindings;
    ok, count := Request(failures);
    if !ok || !Concerns(s, n) {
      return;
    }
    var name, wanted := ResourceName(s), WantedBinding(s);
    ok, count := Request(count);
    if !ok {
      return;
    }
    if name !in bindings {
      if Unwanted(s) {
        return;
      }
    } else {
      var existing := bindings[name];
      if Unwanted(s) {
        ok, count := Request(count);
        if ok {
          after := bindings - {name};
        }
        return;
      }
      if wanted.ref != existing.ref {
        ok, count := Request(count);
        if !ok {
          return;
        }
        after := bindings - {name};
      } else {
        if wanted.subjects != existing.subjects {
          ok, after, count := UpdateBinding(bindings, name, existing.(subjects := wanted.subjects), count);
        }
        return;
      }
    }
    ok, count := Request(count);
    if ok {
      after := after[name := wanted];
    }
  }

  // ---- The loops ----

  ghost predicate RolesSwept(s: Setting, items: seq<Item>, before: Cluster, now: Cluster) {
    now.Keys == before.Keys && forall n :: n in before ==> RolesTouched(s, items, n, before[n], now[n])
  }

  ghost predicate BindingsSwept(s: Setting, items: seq<Item>, before: Cluster, now: Cluster) {
    now.Keys == before.Keys && forall n :: n in before ==> BindingsTouched(s, items, n, before[n], now[n])
  }

  /** The first `i` items have had their turn, without failures. */
  ghost predicate RolesExact(s: Setting, items: seq<Item>, i: nat, before: Cluster, now: Cluster)
    requires i <= |items|
  {
    now.Keys == before.Keys && forall n :: n in before ==> now[n] == RolesDone(s, items[..i], n, before[n])
  }

  ghost predicate BindingsExact(s: Setting, items: seq<Item>, i: nat, before: Cluster, now: Cluster)
    requires i <= |items|
  {
    now.Keys == before.Keys && forall n :: n in before ==> now[n] == BindingsDone(s, items[..i], n, before[n])
  }

  lemma RolesNext(s: Setting, items: seq<Item>, i: nat, before: Cluster, now: Cluster, next: Cluster, clean: bool)
    requires i < |items| && items[i].name in now && items[i].name in next && RolesSwept(s, items, before, now)
    requires var m := items[i].name;
      && next == now[m := next[m]] && RolesTouched(s, items, m, now[m], next[m])
      && (clean ==> RolesExact(s, items, i, before, now) && next[m] == RolesDone(s, [items[i]], m, now[m]))
    ensures RolesSwept(s, items, before, next) && (clean ==> RolesExact(s, items, i + 1, before, next))
  {
    var m := items[i].name;
    RolesTouchedTransitive(s, items, m, before[m], now[m], next[m]);
    if clean {
      forall n | n in before ensures next[n] == RolesDone(s, items[..i + 1], n, before[n]) {
        NextItem(items, i, n);
        RolesAfterTwice(s, before[n].roles);
      }
    }
  }

  lemma BindingsNext(s: Setting, items: seq<Item>, i: nat, before: Cluster, now: Cluster, next: Cluster, clean: bool)
    requires i < |items| && items[i].name in now && items[i].name in next && BindingsSwept(s, items, before, now)
    requires var m := items[i].name;
      && next == now[m := next[m]] && BindingsTouched(s, items, m, now[m], next[m])
      && (clean ==> BindingsExact(s, items, i, before, now) && next[m] == BindingsDone(s, [items[i]], m, now[m]))
    ensures BindingsSwept(s, items, before, next) && (clean ==> BindingsExact(s, items, i + 1, before, next))
  {
    var m := items[i].name;
    BindingsTouchedTransitive(s, items, m, before[m], now[m], next[m]);
    if clean {
      forall n | n in before ensures next[n] == BindingsDone(s, items[..i + 1], n, before[n]) {
        NextItem(items, i, n);
        BindingsAfterTwice(s, before[n].bindings);
      }
    }
  }

  lemma PhasesDone(s: Setting, items: seq<Item>, before: Cluster, middle: Cluster, now: Cluster, clean: bool)
    requires RolesSwept(s, items, before, middle) && BindingsSwept(s, items, middle, now)
    requires clean ==> RolesExact(s, items, |items|, before, middle) && BindingsExact(s, items, |items|, middle, now)
    ensures now.Keys == before.Keys && forall n :: n in now ==> Touched(s, items, n, before[n], now[n])
    ensures clean ==> forall n :: n in now ==> now[n] == After(s, items, n, before[n])
  {
    assert items[..|items|] == items;
    forall n | n in now ensures Touched(s, items, n, before[n], now[n]) {
      TouchedBoth(s, items, n, before[n], middle[n], now[n]);
    }
  }

  class Reconciler {
    var cluster: Cluster
    var accounts: set<Subject>
    var failures: nat

    constructor (cluster: Cluster)
      ensures this.cluster == cluster && accounts == {} && failures == 0
    {
      this.cluster, accounts, failures := cluster, {}, 0;
    }

    method DropLabel(n: string)
      requires n in cluster
      modifies this`cluster, this`failures
      ensures failures >= old(failures) && n in cluster
      ensures cluster == old(cluster) || cluster == old(cluster)[n := Dropped(old(cluster)[n])]
      ensures failures == old(failures) ==> cluster == old(cluster)[n := Dropped(old(cluster)[n])]
    {
      if cluster[n].managedBy.Some? {
        var ok;
        ok, failures := Request(failures);
        if ok {
          cluster := cluster[n := Dropped(cluster[n])];
        }
      }
    }

    /** The role in one namespace of the list. */
    method ReconcileRoleIn(s: Setting, items: seq<Item>, item: Item) returns (ok: bool)
      requires item in items && item.name in cluster
      modifies this`cluster, this`failures
      ensures failures >= old(failures) && (failures == old(failures) ==> ok)
      ensures var n := item.name;
        && n in cluster && cluster == old(cluster)[n := cluster[n]] && RolesTouched(s, items, n, old(cluster)[n], cluster[n])
        && (failures == old(failures) ==> cluster[n] == RolesDone(s, [item], n, old(cluster)[n]))
    {
      var n := item.name;
      if item.terminating {
        DropLabel(n);
        return true;
      }
      var roles;
      ok, roles, failures := RoleSteps(s, n, cluster[n].roles, failures);
      cluster := cluster[n := cluster[n].(roles := roles)];
    }

    method ReconcileBindingIn(s: Setting, items: seq<Item>, item: Item) returns (ok: bool)
      requires item in items && item.name in cluster
      modifies this`cluster, this`failures
      ensures failures >= old(failures) && (failures == old(failures) ==> ok)
      ensures var n := item.name;
        && n in cluster && cluster == old(cluster)[n := cluster[n]] && BindingsTouched(s, items, n, old(cluster)[n], cluster[n])
        && (failures == old(failures) ==> cluster[n] == BindingsDone(s, [item], n, old(cluster)[n]))
    {
      var n := item.name;
      if item.terminating {
        DropLabel(n);
        return true;
      }
      var bindings;
      ok, bindings, failures := BindingSteps(s, n, cluster[n].bindings, failures);
      cluster := cluster[n := cluster[n].(bindings := bindings)];
    }

    /** Roles in all the namespaces of the list. */
    method ReconcileRole(s: Setting, items: seq<Item>) returns (ok: bool)
      requires forall i :: 0 <= i < |items| ==> items[i].name in cluster
      modifies this`cluster, this`failures
      ensures failures >= old(failures) && (failures == old(failures) ==> ok)
      ensures RolesSwept(s, items, old(cluster), cluster)
      ensures failures == old(failures) ==> RolesExact(s, items, |items|, old(cluster), cluster)
    {
      ghost var before := cluster;
      for i := 0 to |items|
        invariant failures >= old(failures) && RolesSwept(s, items, before, cluster)
        invariant failures == old(failures) ==> RolesExact(s, items, i, before, cluster)
      {
        ghost var now := cluster;
        ok := ReconcileRoleIn(s, items, items[i]);
        RolesNext(s, items, i, before, now, cluster, failures == old(failures));
        if !ok {
          return;
        }
      }
      ok := true;
    }

    /** The service account, then the roles, then the bindings. */
    method ReconcileRoleBinding(s: Setting, items: seq<Item>) returns (ok: bool)
      requires forall i :: 0 <= i < |items| ==> items[i].name in cluster
      modifies this
      ensures accounts == old(accounts) || accounts == AccountsAfter(s, old(accounts))
      ensures cluster.Keys == old(cluster).Keys && forall n :: n in cluster ==> Touched(s, items, n, old(cluster)[n], cluster[n])
      ensures failures == old(failures) ==>
        && ok && accounts == AccountsAfter(s, old(accounts))
        && forall n :: n in cluster ==> cluster[n] == After(s, items, n, old(cluster)[n])
    {
      ghost var before := cluster;
      ok, accounts, failures := ReconcileServiceAccount(accounts, Account(s), Unwanted(s), failures);
      if !ok {
        return;
      }
      ok := ReconcileRole(s, items);
      if ok {
        ok := ReconcileBindings(s, items, before);
      } else {
        PhasesDone(s, items, before, cluster, cluster, false);
      }
    }

    method ReconcileBindings(s: Setting, items: seq<Item>, ghost before: Cluster) returns (ok: bool)
      requires forall i :: 0 <= i < |items| ==> items[i].name in cluster
      requires RolesSwept(s, items, before, cluster)
      modifies this`cluster, this`failures
      ensures failures >= old(failures) && (failures == old(failures) ==> ok)
      ensures cluster.Keys == before.Keys && forall n :: n in cluster ==> Touched(s, items, n, before[n], cluster[n])
      ensures failures == old(failures) && RolesExact(s, items, |items|, before, old(cluster)) ==>
        forall n :: n in cluster ==> cluster[n] == After(s, items, n, before[n])
    {
      ghost var middle := cluster;
      for i := 0 to |items|
        invariant failures >= old(failures) && BindingsSwept(s, items, middle, cluster)
        invariant failures == old(failures) ==> BindingsExact(s, items, i, middle, cluster)
      {
        ghost var now := cluster;
        ok := ReconcileBindingIn(s, items, items[i]);
        BindingsNext(s, items, i, middle, now, cluster, failures == old(failures));
        if !ok {
          PhasesDone(s, items, before, middle, cluster, false);
          return;
        }
      }
      PhasesDone(s, items, before, middle, cluster, failures == old(failures) && RolesExact(s, items, |items|, before, middle));
      ok := true;
    }
  }

  /** After a pass, whatever was there before, a binding of the component refers either to the
      custom cluster role or to a role that exists in the same namespace, and names a service
      account that exists; and there is no role without a binding. */
  lemma BindingRefersToRole(s: Setting, n: string, ns: Namespace, accounts: set<Subject>)
    requires Concerns(s, n)
    ensures var after := Settled(s, n, ns); var name := ResourceName(s);
      && (name in after.bindings <==> !Unwanted(s))
      && (name in after.roles ==> name in after.bindings)
      && (name in after.bindings ==> forall a :: a in after.bindings[name].subjects ==> a in AccountsAfter(s, accounts))
      && (name in after.bindings ==>
            if s.custom != "" then after.bindings[name].ref == ClusterRole(s.custom) && name !in after.roles
            else after.bindings[name].ref == Role(name) && name in after.roles && after.roles[name] == s.rules)
  {
  }

  /** Where a component gets its permissions: controller and server in every live namespace of the
      list, the other components only where an instance runs or in the namespace of this one. It
      gets the binding of its service account to the custom cluster role or to its own role,
      which has the given rules; without dex the dex server gets neither. Elsewhere, and under
      all other names, roles and bindings are as before. */
  lemma PermissionsGranted(s: Setting, items: seq<Item>, n: string, ns: Namespace)
    ensures var after := After(s, items, n, ns); var name := s.name + "-" + ComponentName(s.component);
      && after.roles - {name} == ns.roles - {name} && after.bindings - {name} == ns.bindings - {name}
      && after.managedBy == (if Item(n, true) in items then None else ns.managedBy)
      && if Item(n, false) in items && (s.component == Controller || s.component == Server || n in s.hosts || n == s.namespace)
         then
           if s.component == DexServer && !s.useDex then name !in after.roles && name !in after.bindings
           else
             && Lookup(after.roles, name) == (if s.custom == "" then Some(s.rules) else None)
             && Lookup(after.bindings, name) ==
                Some(Binding(if s.custom == "" then Role(name) else ClusterRole(s.custom), [Subject(name, s.namespace)]))
         else after.roles == ns.roles && after.bindings == ns.bindings
  {
  }

  /** Earlier settings, such as another custom role, leave no trace. */
  lemma EarlierSettingForgotten(s: Setting, earlier: Setting, n: string, ns: Namespace)
    requires earlier.name == s.name && earlier.component == s.component && Concerns(s, n)
    ensures Settled(s, n, Settled(earlier, n, ns)) == Settled(s, n, ns)
  {
    var name := ResourceName(s);
    assert ResourceName(earlier) == name;
  }
}
