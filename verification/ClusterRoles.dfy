/** The cluster roles and cluster role bindings of an instance under the default, aggregated,
    custom and not-allowed modes (controllers/argocd/role.go, rolebinding.go and
    service_account.go). */
module ClusterRoles {
  import opened Api
  import opened Lists
  import opened Sweeps

  type Strings = map<string, string>

  datatype ClusterRole = ClusterRole(rules: Rules, aggregation: Option<Strings>, labels: Strings, annotations: Strings)
  datatype ClusterBinding = ClusterBinding(role: string, subject: Subject)

  /** An ArgoCD resource: its own annotations, and the policy rules built for a component. */
  datatype Instance = Instance(name: string, namespace: string, annotations: Strings, policy: ClusterComponent -> Rules)

  /** `allowed`: the namespace may host a cluster-scoped instance; `custom` and `aggregated`:
      spec.defaultClusterScopedRoleDisabled and spec.aggregatedClusterRoles. */
  datatype Mode = Mode(allowed: bool, custom: bool, aggregated: bool)

  predicate Conflict(mode: Mode) {
    mode.allowed && mode.custom && mode.aggregated
  }

  /** The components with cluster roles, in the order they are reconciled. */
  type ClusterComponent = c: Component | c == Controller || c == Server || c == View || c == Admin witness Controller

  const COMPONENTS: seq<ClusterComponent> := [Controller, Server, View, Admin]

  /** Position of a component. */
  function Index(c: ClusterComponent): (i: nat)
    ensures i < 4 && COMPONENTS[i] == c
  {
    match c case Controller => 0 case Server => 1 case View => 2 case Admin => 3
  }

  function RoleName(cr: Instance, c: ClusterComponent): string {
    cr.name + "-" + cr.namespace + "-" + ComponentName(c)
  }

  /** The names of all cluster roles, and cluster role bindings, of an instance. */
  function Names(cr: Instance): set<string> {
    {RoleName(cr, Controller), RoleName(cr, Server), RoleName(cr, View), RoleName(cr, Admin)}
  }

  lemma RoleNameInjective(cr: Instance, c: ClusterComponent, d: ClusterComponent)
    requires RoleName(cr, c) == RoleName(cr, d)
    ensures c == d
  {
    var prefix := cr.name + "-" + cr.namespace + "-";
    assert RoleName(cr, c) == prefix + ComponentName(c) && RoleName(cr, d) == prefix + ComponentName(d);
    assert |ComponentName(c)| == |ComponentName(d)|;
  }

  function Annotations(cr: Instance): Strings {
    map["argocds.argoproj.io/name" := cr.name, "argocds.argoproj.io/namespace" := cr.namespace] + cr.annotations
  }

  function Labels(cr: Instance): Strings {
    map["app.kubernetes.io/name" := cr.name, "app.kubernetes.io/part-of" := "argocd", "app.kubernetes.io/managed-by" := cr.name]
  }

  const TO_CONTROLLER := "argocd/aggregate-to-controller"
  const TO_ADMIN := "argocd/aggregate-to-admin"

  function NewClusterRole(cr: Instance, c: ClusterComponent): ClusterRole {
    ClusterRole(cr.policy(c), None, Labels(cr), Annotations(cr))
  }

  method ConfigureAggregatedClusterRole(cr: Instance, role: ClusterRole, c: ClusterComponent) returns (r: ClusterRole)
    ensures role == NewClusterRole(cr, c) ==> r == AggregatedRole(cr, c)
  {
    r := role;
    if c == Controller {
      r := r.(aggregation := Some(map[TO_CONTROLLER := "true", "app.kubernetes.io/managed-by" := cr.name]));
      r := r.(annotations := r.annotations["rbac.authorization.kubernetes.io/autoupdate" := "true"]);
      r := r.(rules := []);
    }
    if c == Admin {
      r := r.(aggregation := Some(map[TO_ADMIN := "true", "app.kubernetes.io/managed-by" := cr.name]));
      r := r.(labels := r.labels[TO_CONTROLLER := "true"]);
    }
    if c == View {
      r := r.(labels := r.labels[TO_CONTROLLER := "true"]);
    }
  }

  /** The role of a component as aggregated mode creates it. */
  function AggregatedRole(cr: Instance, c: ClusterComponent): ClusterRole {
    match c
    case Controller => ClusterRole([], Some(map[TO_CONTROLLER := "true", "app.kubernetes.io/managed-by" := cr.name]), Labels(cr),
                                   Annotations(cr)["rbac.authorization.kubernetes.io/autoupdate" := "true"])
    case Server => NewClusterRole(cr, c)
    case View => ClusterRole(cr.policy(c), None, Labels(cr)[TO_CONTROLLER := "true"], Annotations(cr))
    case Admin => ClusterRole(cr.policy(c), Some(map[TO_ADMIN := "true", "app.kubernetes.io/managed-by" := cr.name]),
                              Labels(cr)[TO_CONTROLLER := "true"], Annotations(cr))
  }

  function MatchedAggregated(expected: ClusterRole, existing: ClusterRole, c: ClusterComponent): ClusterRole {
    match c
    case Controller => existing.(aggregation := expected.aggregation, annotations := expected.annotations,
                                 rules := if existing.aggregation == expected.aggregation then existing.rules else [])
    case Server => existing
    case View => existing.(labels := expected.labels)
    case Admin => existing.(aggregation := expected.aggregation, labels := expected.labels)
  }

  function MatchedDefault(expected: ClusterRole, existing: ClusterRole, c: ClusterComponent): ClusterRole {
    if c == Controller
    then expected.(labels := existing.labels)
    else existing.(rules := expected.rules)
  }

  method MatchAggregatedClusterRoleFields(expected: ClusterRole, fetched: ClusterRole, c: ClusterComponent)
    returns (changed: bool, existing: ClusterRole)
    ensures existing == MatchedAggregated(expected, fetched, c)
    ensures changed <==> existing != fetched
  {
    changed, existing := false, fetched;
    var aggregatedClusterRoleExists := true;
    if c == Controller {
      if existing.aggregation != expected.aggregation {
        aggregatedClusterRoleExists := false;
        existing := existing.(aggregation := expected.aggregation);
        changed := true;
      }
      if existing.annotations != expected.annotations {
        existing := existing.(annotations := expected.annotations);
        changed := true;
      }
      if !aggregatedClusterRoleExists {
        existing := existing.(rules := []);
      }
    }
    if c == View {
      if existing.labels != expected.labels {
        existing := existing.(labels := expected.labels);
        changed := true;
      }
    }
    if c == Admin {
      if existing.aggregation != expected.aggregation {
        existing := existing.(aggregation := expected.aggregation);
        changed := true;
      }
      if existing.labels != expected.labels {
        existing := existing.(labels := expected.labels);
        changed := true;
      }
    }
  }

  method MatchDefaultClusterRoleFields(expected: ClusterRole, fetched: ClusterRole, c: ClusterComponent)
    returns (changed: bool, existing: ClusterRole)
    ensures existing == MatchedDefault(expected, fetched, c)
    ensures changed <==> existing != fetched
  {
    changed, existing := false, fetched;
    if c == Controller {
      if existing.aggregation != expected.aggregation {
        existing := existing.(aggregation := expected.aggregation);
        changed := true;
      }
      if existing.annotations != expected.annotations {
        existing := existing.(annotations := expected.annotations);
        changed := true;
      }
    }
    if existing.rules != expected.rules {
      existing := existing.(rules := expected.rules);
      changed := true;
    }
  }

  /** A role brought in line with what is expected of it. */
  function Ensured(c: ClusterComponent, expected: ClusterRole, mode: Mode, before: Option<ClusterRole>): Option<ClusterRole> {
    if !mode.allowed then None
    else if before.None? then Some(expected)
    else if mode.aggregated then Some(MatchedAggregated(expected, before.value, c))
    else Some(MatchedDefault(expected, before.value, c))
  }

  /** Where a completed pass takes the role of a component, from any earlier state of it. */
  function RoleAfter(cr: Instance, c: ClusterComponent, mode: Mode, before: Option<ClusterRole>): Option<ClusterRole> {
    if Conflict(mode) then before
    else if !mode.allowed || mode.custom || (!mode.aggregated && (c == View || c == Admin)) then None
    else Ensured(c, if mode.aggregated then AggregatedRole(cr, c) else NewClusterRole(cr, c), mode, before)
  }

  /** The service account of a component. */
  function AccountOf(cr: Instance, c: ClusterComponent): Subject {
    Subject(cr.name + "-" + ComponentName(c), cr.namespace)
  }

  /** The first `i` components have a service account, and no other account is new. */
  ghost predicate Provided(cr: Instance, i: nat, before: set<Subject>, now: set<Subject>) {
    && before <= now && (forall a :: a in now && a !in before ==> exists c: ClusterComponent :: a == AccountOf(cr, c))
    && (forall c: ClusterComponent :: Index(c) < i ==> AccountOf(cr, c) in now)
  }

  function WantedBinding(cr: Instance, c: ClusterComponent): ClusterBinding {
    ClusterBinding(RoleName(cr, c), AccountOf(cr, c))
  }

  /** The binding of a component, given the role the role reconciliation returned. */
  function BindingFor(cr: Instance, c: ClusterComponent, mode: Mode, role: Option<ClusterRole>, before: Option<ClusterBinding>)
    : Option<ClusterBinding>
  {
    if c == View || c == Admin || (mode.custom && mode.aggregated) then before
    else if mode.custom || role.None? then None
    else Some(WantedBinding(cr, c))
  }

  /** Where a completed pass takes the binding of a component. */
  function BindingAfter(cr: Instance, c: ClusterComponent, mode: Mode, before: Option<ClusterBinding>): Option<ClusterBinding> {
    if c == View || c == Admin || (mode.custom && mode.aggregated) then before
    else if mode.custom || !mode.allowed then None
    else Some(WantedBinding(cr, c))
  }

  lemma PutSame<V>(m: map<string, V>, k: string)
    ensures Put(m, k, Lookup(m, k)) == m
  {
  }

  lemma BindingForAfter(cr: Instance, c: ClusterComponent, mode: Mode, role: Option<ClusterRole>,
                        binding: Option<ClusterBinding>)
    ensures var after := if Conflict(mode) then None else RoleAfter(cr, c, mode, role);
      BindingFor(cr, c, mode, after, binding) == BindingAfter(cr, c, mode, binding)
  {
  }

  class Reconciler {
    var roles: map<string, ClusterRole>
    var bindings: map<string, ClusterBinding>
    var accounts: set<Subject>
    var failures: nat
    var roleWrites: nat

    constructor ()
      ensures roles == map[] && bindings == map[] && accounts == {} && failures == 0 && roleWrites == 0
    {
      roles, bindings, accounts, failures, roleWrites := map[], map[], {}, 0, 0;
    }

    /** Creates, updates (Some) or deletes (None) a cluster role. */
    method WriteRole(name: string, role: Option<ClusterRole>) returns (ok: bool)
      modifies this`failures, this`roles, this`roleWrites
      ensures failures == old(failures) + if ok then 0 else 1
      ensures roles == (if ok then Put(old(roles), name, role) else old(roles))
      ensures roleWrites == old(roleWrites) + if ok then 1 else 0
    {
      ok, failures := Request(failures);
      if ok {
        roles := Put(roles, name, role);
        roleWrites := roleWrites + 1;
      }
    }

    /** Looks a role up and deletes it if it is there. */
    method DeleteIfFound(name: string) returns (ok: bool)
      modifies this`failures, this`roles, this`roleWrites
      ensures failures >= old(failures) && (ok <==> failures == old(failures))
      ensures roles == if ok then old(roles) - {name} else old(roles)
      ensures ok ==> roleWrites == old(roleWrites) + if name in old(roles) then 1 else 0
    {
      ok, failures := Request(failures);
      if ok && name in roles {
        ok := WriteRole(name, None);
      }
    }

    method CheckCustomClusterRoleMode(cr: Instance, c: ClusterComponent, mode: Mode) returns (custom: bool, ok: bool)
      modifies this`failures, this`roles, this`roleWrites
      ensures custom <==> mode.allowed && mode.custom
      ensures failures >= old(failures) && (failures == old(failures) ==> ok)
      ensures ok ==> roles == (if custom then old(roles) - {RoleName(cr, c)} else old(roles))
      ensures !ok ==> roles == old(roles)
      ensures ok ==> roleWrites == old(roleWrites) + if custom && RoleName(cr, c) in old(roles) then 1 else 0
    {
      if mode.allowed && mode.custom {
        ok := DeleteIfFound(RoleName(cr, c));
        return true, ok;
      }
      return false, true;
    }

    method ReconcileClusterRole(cr: Instance, c: ClusterComponent, mode: Mode) returns (ok: bool, role: Option<ClusterRole>)
      modifies this`failures, this`roles, this`roleWrites
      ensures failures >= old(failures) && (failures == old(failures) ==> ok)
      ensures var name := RoleName(cr, c);
        roles == if ok then Put(old(roles), name, RoleAfter(cr, c, mode, Lookup(old(roles), name))) else old(roles)
      ensures ok ==> role == if Conflict(mode) then None else Lookup(roles, RoleName(cr, c))
      ensures var name := RoleName(cr, c);
        ok ==> roleWrites == old(roleWrites) + if Lookup(roles, name) == Lookup(old(roles), name) then 0 else 1
    {
      if Conflict(mode) {
        PutSame(roles, RoleName(cr, c));
        return true, None;
      }
      var custom;
      custom, ok := CheckCustomClusterRoleMode(cr, c, mode);
      if custom || !ok {
        return ok, None;
      }
      ok, role := ReconcileUncustomised(cr, c, mode);
    }

    method ReconcileUncustomised(cr: Instance, c: ClusterComponent, mode: Mode) returns (ok: bool, role: Option<ClusterRole>)
      requires !(mode.allowed && mode.custom)
      modifies this`failures, this`roles, this`roleWrites
      ensures failures >= old(failures) && (ok <==> failures == old(failures))
      ensures var name := RoleName(cr, c);
        roles == if ok then Put(old(roles), name, RoleAfter(cr, c, mode, Lookup(old(roles), name))) else old(roles)
      ensures ok ==> role == Lookup(roles, RoleName(cr, c))
      ensures var name := RoleName(cr, c);
        ok ==> roleWrites == old(roleWrites) + if Lookup(roles, name) == Lookup(old(roles), name) then 0 else 1
    {
      var name := RoleName(cr, c);
      var expected := NewClusterRole(cr, c);
      if mode.allowed && mode.aggregated {
        expected := ConfigureAggregatedClusterRole(cr, expected, c);
      } else if c == View || c == Admin {
        ok := DeleteIfFound(name);
        return ok, None;
      }
      ok, role := EnsureClusterRole(name, c, expected, mode);
    }

    /** Creates the role, brings its fields in line or, where it is not allowed, deletes it. */
    method EnsureClusterRole(name: string, c: ClusterComponent, expected: ClusterRole, mode: Mode)
      returns (ok: bool, role: Option<ClusterRole>)
      modifies this`failures, this`roles, this`roleWrites
      ensures failures >= old(failures) && (ok <==> failures == old(failures))
      ensures roles == if ok then Put(old(roles), name, Ensured(c, expected, mode, Lookup(old(roles), name))) else old(roles)
      ensures ok ==> role == Lookup(roles, name)
      ensures ok ==> roleWrites == old(roleWrites) + if Lookup(roles, name) == Lookup(old(roles), name) then 0 else 1
    {
      role := None;
      ok, failures := Request(failures);
      if !ok {
        return;
      }
      if name !in roles {
        if mode.allowed {
          role := Some(expected);
          ok := WriteRole(name, role);
        }
        return;
      }
      if !mode.allowed {
        ok := WriteRole(name, None);
        return;
      }
      var changed, existing;
      if mode.aggregated {
        changed, existing := MatchAggregatedClusterRoleFields(expected, roles[name], c);
      } else {
        changed, existing := MatchDefaultClusterRoleFields(expected, roles[name], c);
      }
      if changed {
        ok := WriteRole(name, Some(existing));
      }
      role := Some(existing);
    }

    /** The API server refuses to change the role a binding refers to. */
    method ReconcileClusterRoleBinding(cr: Instance, c: ClusterComponent, role: Option<ClusterRole>, mode: Mode)
      returns (ok: bool)
      modifies this`failures, this`bindings
      ensures failures >= old(failures) && (failures == old(failures) ==> ok)
      ensures var name := RoleName(cr, c);
        var after := Put(old(bindings), name, BindingFor(cr, c, mode, role, Lookup(old(bindings), name)));
        (bindings == old(bindings) || bindings == after) && (failures == old(failures) ==> bindings == after)
      ensures !ok ==> bindings == old(bindings)
    {
      if c == Admin || c == View {
        return true;
      }
      if mode.custom && mode.aggregated {
        return true;
      }
      var name := RoleName(cr, c);
      if mode.custom {
        var fetched;
        fetched, failures := Request(failures);
        if fetched && name in bindings {
          ok, failures := Request(failures);
          if ok {
            bindings := bindings - {name};
          }
          return;
        }
        return true;
      }
      ok, failures := Request(failures);
      if !ok {
        return;
      }
      if role.None? {
        if name in bindings {
          ok, failures := Request(failures);
          if ok {
            bindings := bindings - {name};
          }
        }
        return;
      }
      var wanted := ClusterBinding(RoleName(cr, c), Subject(cr.name + "-" + ComponentName(c), cr.namespace));
      ok, failures := Request(failures);
      if ok {
        if name in bindings && bindings[name].role != wanted.role {
          failures := failures + 1;
          return false;
        }
        bindings := bindings[name := wanted];
      }
    }

    method ReconcileRoles(cr: Instance, mode: Mode) returns (ok: bool)
      modifies this`failures, this`roles, this`roleWrites
      ensures failures >= old(failures) && (failures == old(failures) ==> ok)
      ensures Handled(cr, 4, RoleTarget(cr, mode), old(roles), roles, failures == old(failures))
    {
      for i := 0 to 4
        invariant failures >= old(failures)
        invariant Handled(cr, i, RoleTarget(cr, mode), old(roles), roles, failures == old(failures))
      {
        ok := ReconcileRoleAt(cr, i, mode, old(roles), failures == old(failures));
        if !ok {
          return;
        }
      }
      ok := true;
    }

    /** The cluster role of the component at a position. */
    method ReconcileRoleAt(cr: Instance, i: nat, mode: Mode, ghost start: map<string, ClusterRole>, ghost clean: bool)
      returns (ok: bool)
      requires i < 4 && Handled(cr, i, RoleTarget(cr, mode), start, roles, clean)
      modifies this`failures, this`roles, this`roleWrites
      ensures failures >= old(failures) && (failures == old(failures) ==> ok)
      ensures Handled(cr, if ok then i + 1 else 4, RoleTarget(cr, mode), start, roles, clean && failures == old(failures))
    {
      var role;
      ok, role := ReconcileClusterRole(cr, COMPONENTS[i], mode);
      HandledNext(cr, i, RoleTarget(cr, mode), start, old(roles), clean, roles, clean && failures == old(failures));
      if !ok {
        HandledStopped(cr, i + 1, RoleTarget(cr, mode), start, roles);
      }
    }

    /** Role and binding of a component. */
    method ReconcileRoleAndBinding(cr: Instance, c: ClusterComponent, mode: Mode) returns (ok: bool)
      modifies this`failures, this`roles, this`roleWrites, this`bindings
      ensures failures >= old(failures) && (failures == old(failures) ==> ok)
      ensures var name := RoleName(cr, c);
        var after := Put(old(roles), name, RoleAfter(cr, c, mode, Lookup(old(roles), name)));
        (roles == old(roles) || roles == after) && (failures == old(failures) ==> roles == after)
      ensures var name := RoleName(cr, c);
        var after := Put(old(bindings), name, BindingAfter(cr, c, mode, Lookup(old(bindings), name)));
        (bindings == old(bindings) || bindings == after) && (failures == old(failures) ==> bindings == after)
    {
      BindingForAfter(cr, c, mode, Lookup(roles, RoleName(cr, c)), Lookup(bindings, RoleName(cr, c)));
      var role;
      ok, role := ReconcileClusterRole(cr, c, mode);
      if ok {
        ok := ReconcileClusterRoleBinding(cr, c, role, mode);
      }
    }

    /** Service account, role and binding of the component at a position; the pass ends with a
        failure. */
    method ReconcileServiceAccountClusterPermissions(cr: Instance, i: nat, mode: Mode, ghost start: map<string, ClusterRole>,
                                                     ghost bound: map<string, ClusterBinding>, ghost clean: bool)
      returns (ok: bool)
      requires i < 4 && Handled(cr, i, RoleTarget(cr, mode), start, roles, clean)
      requires Handled(cr, i, BindingTarget(cr, mode), bound, bindings, clean)
      modifies this
      ensures failures >= old(failures) && (failures == old(failures) ==> ok)
      ensures accounts == old(accounts) + {AccountOf(cr, COMPONENTS[i])} || (!ok && accounts == old(accounts))
      ensures var next := if ok then i + 1 else 4;
        && Handled(cr, next, RoleTarget(cr, mode), start, roles, clean && failures == old(failures))
        && Handled(cr, next, BindingTarget(cr, mode), bound, bindings, clean && failures == old(failures))
    {
      ok, accounts, failures := ReconcileServiceAccount(accounts, AccountOf(cr, COMPONENTS[i]), false, failures);
      if ok {
        ok := ReconcileRoleAndBinding(cr, COMPONENTS[i], mode);
      }
      ghost var clean' := clean && failures == old(failures);
      HandledNext(cr, i, RoleTarget(cr, mode), start, old(roles), clean, roles, clean');
      HandledNext(cr, i, BindingTarget(cr, mode), bound, old(bindings), clean, bindings, clean');
      if !ok {
        HandledStopped(cr, i + 1, RoleTarget(cr, mode), start, roles);
        HandledStopped(cr, i + 1, BindingTarget(cr, mode), bound, bindings);
      }
    }

    method ReconcileServiceAccounts(cr: Instance, mode: Mode) returns (ok: bool)
      modifies this
      ensures failures >= old(failures) && (failures == old(failures) ==> ok)
      ensures Provided(cr, if ok then 4 else 0, old(accounts), accounts)
      ensures Handled(cr, 4, RoleTarget(cr, mode), old(roles), roles, failures == old(failures))
      ensures Handled(cr, 4, BindingTarget(cr, mode), old(bindings), bindings, failures == old(failures))
    {
      for i := 0 to 4
        invariant failures >= old(failures) && Provided(cr, i, old(accounts), accounts)
        invariant Handled(cr, i, RoleTarget(cr, mode), old(roles), roles, failures == old(failures))
        invariant Handled(cr, i, BindingTarget(cr, mode), old(bindings), bindings, failures == old(failures))
      {
        ghost var now := accounts;
        ok := ReconcileServiceAccountClusterPermissions(cr, i, mode, old(roles), old(bindings), failures == old(failures));
        ProvidedNext(cr, i, old(accounts), now, accounts, ok);
        if !ok {
          return;
        }
      }
      ok := true;
    }

    /** Cluster roles are reconciled once with the roles and once more, followed by the
        binding, with the service accounts. */
    method Reconcile(cr: Instance, mode: Mode) returns (ok: bool)
      modifies this
      ensures failures >= old(failures) && (failures == old(failures) ==> ok)
      ensures Handled(cr, 4, RoleTarget(cr, mode), old(roles), roles, failures == old(failures))
      ensures Handled(cr, 4, BindingTarget(cr, mode), old(bindings), bindings, failures == old(failures))
      ensures Provided(cr, if ok then 4 else 0, old(accounts), accounts)
    {
      ok := ReconcileRoles(cr, mode);
      if !ok {
        HandledStopped(cr, 0, BindingTarget(cr, mode), old(bindings), bindings);
        return;
      }
      ghost var once, clean := roles, failures == old(failures);
      ok := ReconcileServiceAccounts(cr, mode);
      RolesTwice(cr, mode, old(roles), once, roles, clean, failures == old(failures));
    }
  }

  lemma ProvidedNext(cr: Instance, i: nat, before: set<Subject>, now: set<Subject>, next: set<Subject>, ok: bool)
    requires i < 4 && Provided(cr, i, before, now)
    requires next == now + {AccountOf(cr, COMPONENTS[i])} || (!ok && next == now)
    ensures Provided(cr, if ok then i + 1 else 0, before, next)
  {
  }

  /** What a pass aims at for the role, and for the binding, of a component. */
  ghost function RoleTarget(cr: Instance, mode: Mode): (ClusterComponent, Option<ClusterRole>) -> Option<ClusterRole> {
    (c: ClusterComponent, before: Option<ClusterRole>) => RoleAfter(cr, c, mode, before)
  }

  ghost function BindingTarget(cr: Instance, mode: Mode): (ClusterComponent, Option<ClusterBinding>) -> Option<ClusterBinding> {
    (c: ClusterComponent, before: Option<ClusterBinding>) => BindingAfter(cr, c, mode, before)
  }

  /** The first `i` components have had their turn: each has what it is to have or, when
      something failed, possibly what it had before. Nothing else changes. */
  ghost predicate Handled<V>(cr: Instance, i: nat, target: (ClusterComponent, Option<V>) -> Option<V>,
                             before: map<string, V>, now: map<string, V>, clean: bool) {
    && (forall k :: k !in Names(cr) ==> Lookup(now, k) == Lookup(before, k))
    && (forall c: ClusterComponent :: HandledAt(cr, c, Index(c) < i, target, before, now, clean))
  }

  ghost predicate HandledAt<V>(cr: Instance, c: ClusterComponent, turn: bool,
                               target: (ClusterComponent, Option<V>) -> Option<V>,
                               before: map<string, V>, now: map<string, V>, clean: bool) {
    var earlier, later := Lookup(before, RoleName(cr, c)), Lookup(now, RoleName(cr, c));
    if turn then Reached(earlier, target(c, earlier), later, clean) else later == earlier
  }

  lemma HandledNext<V>(cr: Instance, i: nat, target: (ClusterComponent, Option<V>) -> Option<V>,
                       before: map<string, V>, now: map<string, V>, clean: bool, next: map<string, V>, clean': bool)
    requires i < 4 && Handled(cr, i, target, before, now, clean)
    requires var name := RoleName(cr, COMPONENTS[i]); var wanted := Put(now, name, target(COMPONENTS[i], Lookup(now, name)));
      (next == now || next == wanted) && (clean' ==> clean && next == wanted)
    ensures Handled(cr, i + 1, target, before, next, clean')
  {
    var c := COMPONENTS[i];
    var name := RoleName(cr, c);
    PutElsewhere(now, name, target(c, Lookup(now, name)));
    assert HandledAt(cr, c, false, target, before, now, clean) by {
      assert Index(c) == i;
    }
    forall d: ClusterComponent ensures HandledAt(cr, d, Index(d) < i + 1, target, before, next, clean') {
      assert HandledAt(cr, d, Index(d) < i, target, before, now, clean);
      if RoleName(cr, d) == name {
        RoleNameInjective(cr, d, c);
      }
    }
  }

  /** A sweep that ends early. */
  lemma HandledStopped<V>(cr: Instance, i: nat, target: (ClusterComponent, Option<V>) -> Option<V>,
                          before: map<string, V>, now: map<string, V>)
    requires i <= 4 && (Handled(cr, i, target, before, now, false) || now == before)
    ensures Handled(cr, 4, target, before, now, false)
  {
    forall c: ClusterComponent ensures HandledAt(cr, c, Index(c) < 4, target, before, now, false) {
      assert now == before || HandledAt(cr, c, Index(c) < i, target, before, now, false);
    }
  }

  /** The second sweep over the roles finds nothing to change, and with failures it only makes
      up for what the first one missed. */
  lemma RolesTwice(cr: Instance, mode: Mode, before: map<string, ClusterRole>, once: map<string, ClusterRole>,
                   now: map<string, ClusterRole>, clean: bool, clean': bool)
    requires Handled(cr, 4, RoleTarget(cr, mode), before, once, clean)
    requires clean' ==> clean
    requires Handled(cr, 4, RoleTarget(cr, mode), once, now, clean')
    ensures Handled(cr, 4, RoleTarget(cr, mode), before, now, clean')
  {
    forall c: ClusterComponent ensures HandledAt(cr, c, Index(c) < 4, RoleTarget(cr, mode), before, now, clean') {
      assert HandledAt(cr, c, Index(c) < 4, RoleTarget(cr, mode), before, once, clean);
      assert HandledAt(cr, c, Index(c) < 4, RoleTarget(cr, mode), once, now, clean');
      RoleAfterTwice(cr, c, mode, Lookup(before, RoleName(cr, c)));
    }
  }

  /** A second pass in the same mode finds nothing to change, from any earlier state. */
  lemma RoleAfterTwice(cr: Instance, c: ClusterComponent, mode: Mode, before: Option<ClusterRole>)
    ensures var once := RoleAfter(cr, c, mode, before); RoleAfter(cr, c, mode, once) == once
  {
  }

  /** Which roles exist after a pass, from any earlier state: those of controller and server when
      the instance is allowed and has no custom role, those for viewing and administration only
      if it also aggregates them. The refused combination leaves everything as it is. */
  lemma RoleExistsIff(cr: Instance, c: ClusterComponent, mode: Mode, before: Option<ClusterRole>)
    ensures mode.allowed && mode.custom && mode.aggregated ==> RoleAfter(cr, c, mode, before) == before
    ensures !(mode.allowed && mode.custom && mode.aggregated) ==>
      (RoleAfter(cr, c, mode, before).Some? <==>
         mode.allowed && !mode.custom && (c == Controller || c == Server || mode.aggregated))
  {
  }

  /** What an existing role holds. In default mode the rules are those of the policy, and the
      role of the controller neither aggregates nor keeps other annotations. In aggregated mode
      the role of the controller selects the roles of this instance labelled for it, starting
      without rules of its own; the roles for viewing and administration carry that label, and
      the latter selects the roles labelled for administration. Everything else is as it was, or
      as the role was created. */
  lemma RoleHolds(cr: Instance, c: ClusterComponent, mode: Mode, before: Option<ClusterRole>)
    requires mode.allowed && !mode.custom && (c == Controller || c == Server || mode.aggregated)
    ensures var labels := map["app.kubernetes.io/name" := cr.name, "app.kubernetes.io/part-of" := "argocd",
                              "app.kubernetes.io/managed-by" := cr.name];
      var own := map["argocds.argoproj.io/name" := cr.name, "argocds.argoproj.io/namespace" := cr.namespace] + cr.annotations;
      var to := (key: string) => Some(map[key := "true", "app.kubernetes.io/managed-by" := cr.name]);
      var was := if before.Some? then before.value else ClusterRole(cr.policy(c), None, labels, own);
      var role := RoleAfter(cr, c, mode, before);
      role == Some(
        if !mode.aggregated then
          (if c == Controller then was.(rules := cr.policy(c), aggregation := None, annotations := own)
           else was.(rules := cr.policy(c)))
        else match c
          case Controller =>
            was.(aggregation := to("argocd/aggregate-to-controller"),
                 annotations := own["rbac.authorization.kubernetes.io/autoupdate" := "true"],
                 rules := if before.Some? && before.value.aggregation == to("argocd/aggregate-to-controller")
                          then before.value.rules else [])
          case Server => was
          case View => was.(labels := labels["argocd/aggregate-to-controller" := "true"])
          case Admin =>
            was.(labels := labels["argocd/aggregate-to-controller" := "true"],
                 aggregation := to("argocd/aggregate-to-admin")))
  {
  }

  // ---- Histories of mode changes ----

  /** What may happen between passes: the API server fills in the rules of aggregated roles. */
  ghost predicate Filled(before: Option<ClusterRole>, after: Option<ClusterRole>) {
    || after == before
    || (before.Some? && after.Some? && before.value.aggregation.Some?
        && after.value == before.value.(rules := after.value.rules))
  }

  /** Any sequence of passes; `took` tells which of them went through for the component, as
      Handled leaves open when something failed. */
  ghost predicate History(cr: Instance, c: ClusterComponent, modes: seq<Mode>, took: seq<bool>,
                          states: seq<Option<ClusterRole>>) {
    && |took| == |modes| && |states| == |modes| + 1 && states[0] == None
    && forall i :: 0 <= i < |modes| ==>
         Filled(if took[i] then RoleAfter(cr, c, modes[i], states[i]) else states[i], states[i + 1])
  }

  /** The last mode that went through and is not the refused combination of custom and
      aggregated. */
  function LastEffective(modes: seq<Mode>, took: seq<bool>): (last: Option<Mode>)
    requires |took| == |modes|
    ensures last.Some? ==> !Conflict(last.value)
  {
    if modes == [] then None
    else
      var n := |modes| - 1;
      if took[n] && !Conflict(modes[n]) then Some(modes[n]) else LastEffective(modes[..n], took[..n])
  }

  /** What the first pass ever in that mode would create. */
  function Fresh(cr: Instance, c: ClusterComponent, last: Option<Mode>): Option<ClusterRole> {
    if last.None? then None else RoleAfter(cr, c, last.value, None)
  }

  lemma PassForgets(cr: Instance, c: ClusterComponent, last: Option<Mode>, mode: Mode, s: Option<ClusterRole>)
    requires last.Some? ==> !Conflict(last.value)
    requires Filled(Fresh(cr, c, last), s)
    ensures Filled(Fresh(cr, c, if Conflict(mode) then last else Some(mode)), RoleAfter(cr, c, mode, s))
  {
  }

  /** A role carries no trace of earlier modes, nor of passes that failed: after any sequence
      of mode changes it is what a first pass in the last effective mode creates, up to rules
      filled in by aggregation. */
  lemma {:induction false} HistoryForgotten(cr: Instance, c: ClusterComponent, modes: seq<Mode>, took: seq<bool>,
                                            states: seq<Option<ClusterRole>>)
    requires History(cr, c, modes, took, states)
    ensures Filled(Fresh(cr, c, LastEffective(modes, took)), states[|modes|])
  {
    if modes != [] {
      var n := |modes| - 1;
      assert History(cr, c, modes[..n], took[..n], states[..n + 1]);
      HistoryForgotten(cr, c, modes[..n], took[..n], states[..n + 1]);
      if took[n] {
        PassForgets(cr, c, LastEffective(modes[..n], took[..n]), modes[n], states[n]);
      }
      assert Filled(if took[n] then RoleAfter(cr, c, modes[n], states[n]) else states[n], states[n + 1]);
    }
  }

  /** Two histories that end in the same effective mode leave the same role, except for rules
      filled in by aggregation, and exactly the same role outside aggregated mode. */
  lemma HistoriesAgree(cr: Instance, c: ClusterComponent, modes: seq<Mode>, took: seq<bool>, states: seq<Option<ClusterRole>>,
                       modes': seq<Mode>, took': seq<bool>, states': seq<Option<ClusterRole>>)
    requires History(cr, c, modes, took, states) && History(cr, c, modes', took', states')
    requires LastEffective(modes, took) == LastEffective(modes', took')
    ensures Filled(states[|modes|], states'[|modes'|])
    ensures var last := LastEffective(modes, took);
      last.Some? && !last.value.aggregated ==> states[|modes|] == states'[|modes'|]
  {
    var last := LastEffective(modes, took);
    HistoryForgotten(cr, c, modes, took, states);
    HistoryForgotten(cr, c, modes', took', states');
    FilledBoth(Fresh(cr, c, last), states[|modes|], states'[|modes'|]);
    if last.Some? && !last.value.aggregated {
      FreshPlain(cr, c, last);
    }
  }

  lemma FilledBoth(first: Option<ClusterRole>, a: Option<ClusterRole>, b: Option<ClusterRole>)
    requires Filled(first, a) && Filled(first, b)
    ensures Filled(a, b)
    ensures first.None? || first.value.aggregation.None? ==> a == b
  {
  }

  lemma FreshPlain(cr: Instance, c: ClusterComponent, last: Option<Mode>)
    requires last.Some? && !last.value.aggregated
    ensures Fresh(cr, c, last).None? || Fresh(cr, c, last).value.aggregation.None?
  {
  }

  // ---- Bindings ----

  /** Outside the combination of custom and aggregated, and from any earlier state, the
      binding exists exactly when the role does, and refers to it. */
  lemma BindingFollowsRole(cr: Instance, c: ClusterComponent, mode: Mode, role: Option<ClusterRole>,
                           binding: Option<ClusterBinding>)
    requires (c == Controller || c == Server) && !(mode.custom && mode.aggregated)
    ensures RoleAfter(cr, c, mode, role).Some? <==> mode.allowed && !mode.custom
    ensures BindingAfter(cr, c, mode, binding).Some? <==> RoleAfter(cr, c, mode, role).Some?
    ensures BindingAfter(cr, c, mode, binding).Some? ==> BindingAfter(cr, c, mode, binding).value.role == RoleName(cr, c)
  {
  }

  /** A binding grants the role to the service account of its component, and a completed pass has
      provided that account. */
  lemma BindingGrants(cr: Instance, c: ClusterComponent, mode: Mode, binding: Option<ClusterBinding>,
                      before: set<Subject>, accounts: set<Subject>)
    requires (c == Controller || c == Server) && mode.allowed && !mode.custom && Provided(cr, 4, before, accounts)
    ensures var component := if c == Controller then "argocd-application-controller" else "argocd-server";
      var account := Subject(cr.name + "-" + component, cr.namespace);
      && BindingAfter(cr, c, mode, binding) == Some(ClusterBinding(cr.name + "-" + cr.namespace + "-" + component, account))
      && account in accounts
  {
    assert AccountOf(cr, c) in accounts;
  }

  /** Put together, after a completed pass outside custom with aggregated: controller and server
      have role, binding and account exactly when the instance is allowed and has no custom role,
      and then the binding grants that role to that account. */
  lemma PassGrants(cr: Instance, c: ClusterComponent, mode: Mode,
                   roles: map<string, ClusterRole>, roles': map<string, ClusterRole>,
                   bindings: map<string, ClusterBinding>, bindings': map<string, ClusterBinding>,
                   accounts: set<Subject>, accounts': set<Subject>)
    requires (c == Controller || c == Server) && !(mode.custom && mode.aggregated)
    requires Handled(cr, 4, RoleTarget(cr, mode), roles, roles', true)
    requires Handled(cr, 4, BindingTarget(cr, mode), bindings, bindings', true) && Provided(cr, 4, accounts, accounts')
    ensures var component := if c == Controller then "argocd-application-controller" else "argocd-server";
      var name := cr.name + "-" + cr.namespace + "-" + component;
      && (name in roles' <==> mode.allowed && !mode.custom) && (name in bindings' <==> mode.allowed && !mode.custom)
      && (name in bindings' ==> bindings'[name].role == name && bindings'[name].subject in accounts')
      && (name in bindings' ==> bindings'[name].subject == Subject(cr.name + "-" + component, cr.namespace))
  {
    assert HandledAt(cr, c, Index(c) < 4, RoleTarget(cr, mode), roles, roles', true);
    assert HandledAt(cr, c, Index(c) < 4, BindingTarget(cr, mode), bindings, bindings', true);
    RoleExistsIff(cr, c, mode, Lookup(roles, RoleName(cr, c)));
    if mode.allowed && !mode.custom {
      BindingGrants(cr, c, mode, Lookup(bindings, RoleName(cr, c)), accounts, accounts');
    }
  }

  /** In that combination the role reconciliation looks at `allowed` and the binding
      reconciliation does not, so a namespace that is no longer allowed keeps its binding and
      loses the role. This is exactly when the two agree after a pass. */
  lemma BindingFollowsRoleIff(cr: Instance, c: ClusterComponent, mode: Mode, role: Option<ClusterRole>,
                              binding: Option<ClusterBinding>)
    requires c == Controller || c == Server
    ensures (BindingAfter(cr, c, mode, binding).Some? <==> RoleAfter(cr, c, mode, role).Some?) <==>
      (mode.custom && mode.aggregated ==> if mode.allowed then (binding.Some? <==> role.Some?) else binding.None?)
  {
  }

  /** A default pass followed by a pass in which all three settings change: the binding is
      left referring to a role that is gone. */
  lemma BindingLeftBehind(cr: Instance)
    ensures var first, second := Mode(true, false, false), Mode(false, true, true);
      var role, binding := RoleAfter(cr, Controller, first, None), BindingAfter(cr, Controller, first, None);
      BindingAfter(cr, Controller, second, binding).Some? && RoleAfter(cr, Controller, second, role).None?
  {
  }
}
