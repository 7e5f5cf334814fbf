/** What holds over whole runs of passes of any number of instances, interleaved with edits
    made outside the controller. A step is what SourceNamespaces.Reconciler.Reconcile ensures. */
module SourceNamespaceRuns {
  import opened Api
  import opened Lists
  import opened SourceNamespaces

  datatype Event = Pass(cr: Instance) | Outside

  /** Outside edits may create and delete namespaces and change anything in them but the
      claim, and every pass may run into failing requests. */
  ghost predicate Step(e: Event, s: Cluster, s': Cluster) {
    match e
    case Pass(cr) => s'.Keys == s.Keys && forall n :: n in s ==> Respects(cr, n, s[n], s'[n])
    case Outside => forall n :: n in s' ==> Claimant(s'[n]) == if n in s then Claimant(s[n]) else None
  }

  ghost predicate Run(events: seq<Event>, states: seq<Cluster>) {
    && |states| == |events| + 1
    && forall i :: 0 <= i < |events| ==> Step(events[i], states[i], states[i + 1])
  }

  /** The claimant itself gives the namespace up, for lack of entitlement. */
  ghost predicate ReleasedBy(claimant: string, n: string, e: Event, s: Cluster, s': Cluster)
    requires n in s && n in s'
  {
    && e.Pass? && e.cr.namespace == claimant
    && Mine(e.cr, s[n]) && Claimant(s'[n]).None? && !Eligible(e.cr, n, s[n])
  }

  lemma StepKeepsClaim(e: Event, s: Cluster, s': Cluster, n: string)
    requires Step(e, s, s') && n in s && n in s'
    requires Claimant(s[n]).Some? && Claimant(s'[n]) != Claimant(s[n])
    ensures ReleasedBy(Claimant(s[n]).value, n, e, s, s')
  {
  }

  /** Between two different values of a sequence there is a first change. */
  lemma {:induction false} FirstChange<T>(values: seq<T>, i: nat, j: nat) returns (k: nat)
    requires i <= j < |values| && values[j] != values[i]
    ensures i <= k < j && values[k] == values[i] && values[k + 1] != values[k]
    decreases j - i
  {
    if values[i + 1] == values[i] {
      k := FirstChange(values, i + 1, j);
    } else {
      k := i;
    }
  }

  /** The first claimer keeps a namespace until it releases it itself: between two moments at
      which it is claimed by different instances there is a pass of the first one that
      releases it. */
  lemma FirstClaimerKeeps(events: seq<Event>, states: seq<Cluster>, n: string, i: nat, j: nat) returns (k: nat)
    requires Run(events, states) && i <= j < |states|
    requires forall l :: i <= l <= j ==> n in states[l]
    requires Claimant(states[i][n]).Some? && Claimant(states[j][n]) != Claimant(states[i][n])
    ensures i <= k < j && Claimant(states[k][n]) == Claimant(states[i][n])
    ensures ReleasedBy(Claimant(states[i][n]).value, n, events[k], states[k], states[k + 1])
  {
    var claims := seq(j + 1, l requires 0 <= l <= j => if n in states[l] then Claimant(states[l][n]) else None);
    k := FirstChange(claims, i, j);
    StepKeepsClaim(events[k], states[k], states[k + 1], n);
  }

  // ---- Passes without failed requests ----

  /** After a pass the instance holds exactly the namespaces it was entitled to. */
  lemma ClaimedIff(cr: Instance, n: string, ns: Namespace)
    ensures Lookup(Settled(cr, n, ns).labels, CLAIM) == Some(cr.namespace) <==>
      && cr.matches(n)
      && (MANAGED_BY in ns.labels ==> ns.labels[MANAGED_BY] == "")
      && (CLAIM in ns.labels ==> ns.labels[CLAIM] == cr.namespace)
    ensures CLAIM in ns.labels && ns.labels[CLAIM] != cr.namespace ==>
      Settled(cr, n, ns).labels == ns.labels && Settled(cr, n, ns).roles == ns.roles
  {
  }

  /** A second pass changes nothing. */
  lemma SettledTwice(cr: Instance, n: string, ns: Namespace)
    ensures Settled(cr, n, Settled(cr, n, ns)) == Settled(cr, n, ns)
  {
    var once := Settled(cr, n, ns);
    if Eligible(cr, n, ns) {
      assert once.labels[CLAIM := cr.namespace] == once.labels;
      assert once.roles[RoleName(cr.name, n) := WantedRules(cr, n)] == once.roles;
      assert RoleName(cr.name, n) in once.bindings ==>
        once.bindings[RoleName(cr.name, n) := once.bindings[RoleName(cr.name, n)]] == once.bindings;
    }
  }

  /** An instance by name and namespace. Two instances of a fleet share neither. */
  type Id = (string, string)

  ghost predicate Disjoint(fleet: set<Id>) {
    forall a, b :: a in fleet && b in fleet && (a.0 == b.0 || a.1 == b.1) ==> a == b
  }

  ghost predicate CleanStep(fleet: set<Id>, e: Event, s: Cluster, s': Cluster) {
    match e
    case Pass(cr) =>
      && (cr.name, cr.namespace) in fleet && s'.Keys == s.Keys
      && forall n :: n in s ==> s'[n] == Settled(cr, n, s[n])
    case Outside => forall n :: n in s' ==>
      if n in s then Claimant(s'[n]) == Claimant(s[n]) && s'[n].roles == s[n].roles
      else Claimant(s'[n]).None? && s'[n].roles == map[]
  }

  /** An instance of the fleet has its role in a namespace exactly when it holds the claim. */
  ghost predicate RolesFollow(fleet: set<Id>, n: string, ns: Namespace) {
    forall a :: a in fleet ==> (RoleName(a.0, n) in ns.roles <==> Claimant(ns) == Some(a.1))
  }

  lemma RoleNameInjective(a: string, b: string, n: string)
    requires RoleName(a, n) == RoleName(b, n)
    ensures a == b
  {
    var x := RoleName(a, n);
    assert |a| == |b|;
    assert a == x[..|a|] && b == x[..|b|];
  }

  lemma PassKeepsRolesFollowing(fleet: set<Id>, cr: Instance, n: string, ns: Namespace)
    requires Disjoint(fleet) && (cr.name, cr.namespace) in fleet && RolesFollow(fleet, n, ns)
    ensures RolesFollow(fleet, n, Settled(cr, n, ns))
  {
    var after := Settled(cr, n, ns);
    forall a | a in fleet
      ensures RoleName(a.0, n) in after.roles <==> Claimant(after) == Some(a.1)
    {
      if a.0 == cr.name {
        assert a == (cr.name, cr.namespace);
      } else {
        if RoleName(a.0, n) == RoleName(cr.name, n) {
          RoleNameInjective(a.0, cr.name, n);
        }
        assert a.1 != cr.namespace;
      }
    }
  }

  /** Roles follow claims in every state of every run without failed requests that starts
      from a cluster the controller has not touched. */
  lemma {:induction false} RolesFollowClaims(fleet: set<Id>, events: seq<Event>, states: seq<Cluster>, i: nat)
    requires Disjoint(fleet) && |states| == |events| + 1 && i < |states|
    requires forall k :: 0 <= k < |events| ==> CleanStep(fleet, events[k], states[k], states[k + 1])
    requires forall n :: n in states[0] ==> Claimant(states[0][n]).None? && states[0][n].roles == map[]
    ensures forall n :: n in states[i] ==> RolesFollow(fleet, n, states[i][n])
  {
    if i > 0 {
      RolesFollowClaims(fleet, events, states, i - 1);
      var e, s, s' := events[i - 1], states[i - 1], states[i];
      assert CleanStep(fleet, e, s, states[i - 1 + 1]);
      forall n | n in s' ensures RolesFollow(fleet, n, s'[n]) {
        if e.Pass? {
          PassKeepsRolesFollowing(fleet, e.cr, n, s[n]);
        }
      }
    }
  }

  /** A claimed namespace ends with the role. It ends with a binding of both service accounts
      to it unless it has a managed-by label, which is then empty: the role phase looks at its
      value and the binding phase at its presence. */
  lemma ClaimedIsBoundIff(cr: Instance, n: string, ns: Namespace)
    requires Mine(cr, Settled(cr, n, ns))
    ensures var after := Settled(cr, n, ns); var name := RoleName(cr.name, n);
      var bound := Some(Binding(name, [Subject(cr.name + "-argocd-server", cr.namespace),
                                       Subject(cr.name + "-argocd-application-controller", cr.namespace)]));
      && name in after.roles
      && (Lookup(after.bindings, name) == bound <==> MANAGED_BY !in ns.labels || Lookup(ns.bindings, name) == bound)
  {
  }

  /** The role of a claimed namespace lets the server handle applications and, exactly where the
      spec also lists the namespace for ApplicationSets, those. */
  lemma ClaimedRules(cr: Instance, n: string, ns: Namespace)
    ensures var after := Settled(cr, n, ns); var name := cr.name + "_" + n;
      Mine(cr, after) ==>
        && name in after.roles && "applications" in after.roles[name]
        && ("applicationsets" in after.roles[name] <==> n in cr.appsets)
  {
    assert SERVER_RULES + APPSET_RULES == ["applications", "applicationsets"];
    assert |"applications"| != |"applicationsets"|;
  }

  /** How far a claim gets when requests are refused. A missing role is created if its lookup and
      creation are granted. The label is set if the namespace is found then and the update is
      granted. The rules of a role that was there are corrected if the namespace is found and the
      update of the role is granted. */
  lemma ClaimCutShort(cr: Instance, n: string, ns: Namespace, refused: set<Call>)
    ensures var name := cr.name + "_" + n; var after := AfterClaim(cr, n, ns, refused);
      var wanted := if n in cr.appsets then ["applications", "applicationsets"] else ["applications"];
      var reached := !(RoleLookup in refused || NamespaceLookup in refused || (name !in ns.roles && RoleCreation in refused));
      && after.bindings == ns.bindings
      && after.labels == (if reached && LabelUpdate !in refused then ns.labels[CLAIM := cr.namespace] else ns.labels)
      && Lookup(after.roles, name) ==
         if name !in ns.roles then (if RoleLookup in refused || RoleCreation in refused then None else Some(wanted))
         else if reached && RoleUpdate !in refused then Some(wanted)
         else Some(ns.roles[name])
  {
    assert SERVER_RULES + APPSET_RULES == ["applications", "applicationsets"];
  }

  /** The binding after a pass. In a matching namespace without managed-by label it is as wanted if
      the namespace is free or held, and otherwise if there was none; a binding in a namespace
      that another instance holds is not touched. It goes with a claim that is given up. */
  lemma BindingAfterPass(cr: Instance, n: string, ns: Namespace)
    ensures var name := cr.name + "_" + n; var before := Lookup(ns.bindings, name);
      var held := CLAIM in ns.labels && ns.labels[CLAIM] == cr.namespace;
      var wanted := Binding(name, [Subject(cr.name + "-argocd-server", cr.namespace),
                                   Subject(cr.name + "-argocd-application-controller", cr.namespace)]);
      Lookup(Settled(cr, n, ns).bindings, name) ==
        if cr.matches(n) && MANAGED_BY !in ns.labels then
          (if CLAIM !in ns.labels || held || before.None? then Some(wanted) else before)
        else if held && (!cr.matches(n) || ns.labels[MANAGED_BY] != "") then None
        else before
  {
  }

  /** A claimed namespace with an empty managed-by label that is never bound. */
  lemma ClaimedUnbound() returns (cr: Instance, ns: Namespace)
    ensures Mine(cr, ns) && ns.labels == map[MANAGED_BY := "", CLAIM := cr.namespace]
    ensures Settled(cr, "team", ns) == ns && ns.bindings == map[]
  {
    cr := Instance("a", "argocd-a", _ => true, []);
    Distinguished();
    var empty := Namespace(map[MANAGED_BY := ""], map[], map[]);
    ns := Settled(cr, "team", empty);
    SettledTwice(cr, "team", empty);
  }

  // ---- What failed requests and foreign claims leave behind ----

  /** A pass without failed requests ends with the role exactly when it ends with the claim,
      from any state but one: a role in a namespace the instance neither holds nor is
      entitled to. */
  lemma RoleFollowsIff(cr: Instance, n: string, ns: Namespace)
    ensures var after := Settled(cr, n, ns); var name := RoleName(cr.name, n);
      (name in after.roles <==> Mine(cr, after)) <==> (Mine(cr, ns) || Eligible(cr, n, ns) || name !in ns.roles)
  {
  }

  /** A release separates role and claim exactly when it finds the namespace and one of the
      label update and the role deletion is refused and the other is not. */
  lemma ReleaseSeparatesIff(cr: Instance, n: string, ns: Namespace, refused: set<Call>)
    requires Mine(cr, ns) && RoleName(cr.name, n) in ns.roles
    ensures var after := AfterRelease(cr, n, ns, refused);
      (RoleName(cr.name, n) in after.roles <==> Mine(cr, after)) <==>
      (NamespaceLookup in refused || (LabelUpdate in refused <==> RoleLookup in refused || RoleDeletion in refused))
  {
  }

  /** A claim separates them exactly when it creates the role and the label update is refused,
      or the lookup of the namespace before it. */
  lemma ClaimSeparatesIff(cr: Instance, n: string, ns: Namespace, refused: set<Call>)
    requires Eligible(cr, n, ns) && (RoleName(cr.name, n) in ns.roles <==> Mine(cr, ns))
    ensures var after := AfterClaim(cr, n, ns, refused);
      (RoleName(cr.name, n) in after.roles <==> Mine(cr, after)) <==>
      !(!Mine(cr, ns) && RoleLookup !in refused && RoleCreation !in refused &&
        (NamespaceLookup in refused || LabelUpdate in refused))
  {
  }

  /** A release whose role deletion is refused leaves a role that later passes do not find. */
  lemma RoleLeaks() returns (cr: Instance, before: Namespace, after: Namespace)
    ensures Mine(cr, before) && !Eligible(cr, "team", before)
    ensures after == AfterRelease(cr, "team", before, {RoleDeletion}) && Respects(cr, "team", before, after)
    ensures RoleName(cr.name, "team") in after.roles && Claimant(after).None? && Settled(cr, "team", after) == after
  {
    cr := Instance("a", "argocd-a", _ => false, []);
    var wanted := cr.(matches := _ => true);
    before := Settled(wanted, "team", Namespace(map[], map[], map[]));
    after := AfterRelease(cr, "team", before, {RoleDeletion});
    ReleaseRespects(cr, "team", before, after);
  }

  /** A release leaves a binding without role exactly when there is a binding and either there
      was no role and the release stops before or at its lookup, or the role goes and the
      binding does not. */
  lemma ReleaseDanglesIff(cr: Instance, n: string, ns: Namespace, refused: set<Call>)
    ensures var after := AfterRelease(cr, n, ns, refused); var name := RoleName(cr.name, n);
      (name in after.bindings && name !in after.roles) <==>
      && name in ns.bindings
      && if NamespaceLookup in refused || RoleLookup in refused then name !in ns.roles
         else (name in ns.roles ==> RoleDeletion !in refused) && (BindingLookup in refused || BindingDeletion in refused)
  {
  }

  /** Bindings follow roles less strictly than roles follow claims: a pass also binds the
      accounts in a namespace that another instance holds, where the role does not exist, and
      leaves a binding alone where it neither holds the namespace nor is entitled to it. */
  lemma DanglingBindingIff(cr: Instance, n: string, ns: Namespace)
    ensures var after := Settled(cr, n, ns); var name := RoleName(cr.name, n);
      (name in after.bindings && name !in after.roles) <==>
      && !Mine(cr, ns) && !Eligible(cr, n, ns) && name !in ns.roles
      && ((cr.matches(n) && MANAGED_BY !in ns.labels) || name in ns.bindings)
  {
  }

  lemma DanglingBindingExists() returns (cr: Instance, ns: Namespace)
    ensures var name := RoleName(cr.name, "team"); var after := Settled(cr, "team", ns);
      ns.bindings == map[] && name in after.bindings && name !in after.roles
  {
    cr := Instance("a", "argocd-a", _ => true, []);
    ns := Namespace(map[CLAIM := "argocd-b"], map[], map[]);
    Distinguished();
  }

  /** The binding stays when the spec stops matching the namespace. */
  lemma DanglingBindingStays() returns (cr: Instance, changed: Instance, ns: Namespace)
    ensures changed == cr.(matches := changed.matches) && !changed.matches("team") && ns.bindings == map[]
    ensures var name := RoleName(cr.name, "team"); var after := Settled(changed, "team", Settled(cr, "team", ns));
      name in after.bindings && name !in after.roles
  {
    cr, ns := DanglingBindingExists();
    changed := cr.(matches := _ => false);
  }

  /** Steps after which nothing has come to the aid of an instance: its own passes find it not
      entitled, other instances share neither name nor namespace with it, and outside edits
      keep the roles and bindings. */
  ghost predicate Unhelpful(id: Id, n: string, e: Event, s: Cluster, s': Cluster)
    requires n in s && n in s'
  {
    match e
    case Pass(cr) => if (cr.name, cr.namespace) == id then !Eligible(cr, n, s[n]) else cr.name != id.0 && cr.namespace != id.1
    case Outside => s'[n].roles == s[n].roles && s'[n].bindings == s[n].bindings
  }

  /** The instance does not hold the namespace, and its role and binding there are the same. */
  ghost predicate LeftAlone(id: Id, n: string, before: Namespace, after: Namespace) {
    var name := RoleName(id.0, n);
    && Claimant(after) != Some(id.1)
    && Lookup(after.roles, name) == Lookup(before.roles, name)
    && (name in before.bindings ==> Lookup(after.bindings, name) == Lookup(before.bindings, name))
  }

  lemma StepLeavesAlone(id: Id, n: string, e: Event, s: Cluster, s': Cluster)
    requires Step(e, s, s') && n in s && n in s' && Unhelpful(id, n, e, s, s')
    requires Claimant(s[n]) != Some(id.1)
    ensures LeftAlone(id, n, s[n], s'[n])
  {
    if e.Pass? && (e.cr.name, e.cr.namespace) != id {
      var mine, other := RoleName(id.0, n), RoleName(e.cr.name, n);
      if mine == other {
        RoleNameInjective(id.0, e.cr.name, n);
      }
      OtherKept(s[n].roles, s'[n].roles, other, mine);
      OtherKept(s[n].bindings, s'[n].bindings, other, mine);
    }
  }

  lemma LeftAloneTransitive(id: Id, n: string, a: Namespace, b: Namespace, c: Namespace)
    requires LeftAlone(id, n, a, b) && LeftAlone(id, n, b, c)
    ensures LeftAlone(id, n, a, c)
  {
  }

  /** Step `k` of a run, on a namespace that exists before and after it. */
  ghost predicate UnhelpfulStep(id: Id, n: string, events: seq<Event>, states: seq<Cluster>, k: nat) {
    && k < |events| && k + 1 < |states| && n in states[k] && n in states[k + 1]
    && Step(events[k], states[k], states[k + 1]) && Unhelpful(id, n, events[k], states[k], states[k + 1])
  }

  /** What an instance left behind in a namespace it does not hold, a role or a binding, stays
      as it is through any number of passes of any instances, with any failures, until the
      instance is entitled to the namespace again. */
  lemma {:induction false} LeftoversPersist(id: Id, n: string, events: seq<Event>, states: seq<Cluster>, i: nat, j: nat)
    requires i <= j < |states| && n in states[i] && Claimant(states[i][n]) != Some(id.1)
    requires forall k: nat :: i <= k < j ==> UnhelpfulStep(id, n, events, states, k)
    ensures n in states[j] && LeftAlone(id, n, states[i][n], states[j][n])
    decreases j
  {
    if i < j {
      var k := j - 1;
      LeftoversPersist(id, n, events, states, i, k);
      assert UnhelpfulStep(id, n, events, states, k);
      StepLeavesAlone(id, n, events[k], states[k], states[j]);
      LeftAloneTransitive(id, n, states[i][n], states[k][n], states[j][n]);
    }
  }

  // ---- The finalizer ----

  /** Deleting an instance leaves the claims of the others alone exactly when none of their
      namespaces is in the set left behind by the last reconciliation. */
  lemma FinalizerSparesOthersIff(cr: Instance, managed: set<string>, cluster: Cluster)
    ensures (forall n :: n in cluster && Foreign(cr, cluster[n]) ==>
               Claimant(Finalized(cr, managed, cluster)[n]) == Claimant(cluster[n]))
      <==> (forall n :: n in managed && n in cluster ==> !Foreign(cr, cluster[n]))
  {
    forall n | n in managed && n in cluster ensures Claimant(Finalized(cr, managed, cluster)[n]).None? {
    }
  }

  /** And it releases everything of its own exactly when all of it is in that set. */
  lemma FinalizerReleasesOwnIff(cr: Instance, managed: set<string>, cluster: Cluster)
    ensures (forall n :: n in cluster ==> !Mine(cr, Finalized(cr, managed, cluster)[n]))
      <==> (forall n :: n in cluster && Mine(cr, cluster[n]) ==> n in managed)
  {
    forall n | n in cluster && n !in managed ensures Finalized(cr, managed, cluster)[n] == cluster[n] {
    }
  }

  /** That set belongs to whichever instance was reconciled last, so deleting one instance
      after a pass of another one releases the other's namespaces and keeps its own. */
  lemma FinalizerReleasesOthers() returns (a: Instance, b: Instance, cluster: Cluster)
    ensures a.namespace != b.namespace && "mine" in cluster && "team" in cluster
    ensures Mine(a, cluster["mine"]) && Mine(b, cluster["team"])
    ensures forall n :: n in cluster ==> Settled(b, n, cluster[n]) == cluster[n]
    ensures var managed := set n | n in cluster && Mine(b, cluster[n]); var after := Finalized(a, managed, cluster);
      Claimant(after["team"]).None? && Mine(a, after["mine"])
  {
    a := Instance("a", "argocd-a", n => n == "mine", []);
    b := Instance("b", "argocd-b", n => n == "team", []);
    var ns := Namespace(map[], map[], map[]);
    assert "mine"[0] != "team"[0];
    assert a.namespace[7] != b.namespace[7];
    cluster := map["mine" := Settled(a, "mine", ns), "team" := Settled(b, "team", ns)];
    SettledTwice(b, "team", ns);
  }
}
