/** The Redis workloads and the Redis service of an instance, standalone or highly available
    (controllers/argocd/deployment.go, statefulset.go and service.go). */
module Redis {
  import opened Lists

  /** spec.redis and spec.ha; `remote`: a non-empty remote endpoint is given. */
  datatype Spec = Spec(enabled: bool, ha: bool, remote: bool, autoTLS: bool)

  /** The fields of the two deployments that reconciliation compares, as opaque values. `stamp`
      is the image.upgraded label. */
  datatype Workload = Workload(image: string, placement: string, args: string, env: string, resources: string,
                               initResources: string, stamp: Option<string>)

  /** The stateful set of the highly available server has several containers. */
  datatype Container = Container(image: string, resources: string)
  datatype Server = Server(containers: seq<Container>, placement: string, initResources: string, stamp: Option<string>)

  /** What the spec asks of that set: one image for all containers, and resources for each. */
  datatype ServerSpec = ServerSpec(image: string, resources: seq<string>, placement: string, initResources: string)

  datatype Kind = Standalone | HAServer | HAProxy

  /** Whether the spec asks for a workload. */
  predicate Wanted(spec: Spec, kind: Kind) {
    match kind
    case Standalone => spec.enabled && !spec.ha
    case HAServer => spec.enabled && spec.ha
    case HAProxy => spec.ha
  }

  /** A remote endpoint keeps the server workloads from being created, not the proxy. */
  predicate Creatable(spec: Spec, kind: Kind) {
    Wanted(spec, kind) && (kind == HAProxy || !spec.remote)
  }

  /** An existing deployment with its compared fields brought in line. */
  function Refreshed(kind: Kind, existing: Workload, desired: Workload, now: string): Workload {
    existing.(image := desired.image,
              stamp := if existing.image == desired.image then existing.stamp else Some(now),
              placement := desired.placement,
              args := if kind == Standalone then desired.args else existing.args,
              env := if kind == Standalone then desired.env else existing.env,
              resources := desired.resources,
              initResources := if kind == Standalone then existing.initResources else desired.initResources)
  }

  function After(spec: Spec, kind: Kind, desired: Workload, now: string, before: Option<Workload>): Option<Workload> {
    if before.Some? then (if Wanted(spec, kind) then Some(Refreshed(kind, before.value, desired, now)) else None)
    else if Creatable(spec, kind) then Some(desired) else None
  }

  /** The first `n` containers as the spec asks for them. */
  function Containers(d: ServerSpec, n: nat): (containers: seq<Container>)
    requires n <= |d.resources|
    ensures |containers| == n && forall i :: 0 <= i < n ==> containers[i] == Container(d.image, d.resources[i])
  {
    seq(n, i requires 0 <= i < n => Container(d.image, d.resources[i]))
  }

  predicate OldImage(d: ServerSpec, containers: seq<Container>) {
    exists i :: 0 <= i < |containers| && containers[i].image != d.image
  }

  /** A set with more containers than the spec knows of makes the comparison fail. */
  predicate Stuck(spec: Spec, d: ServerSpec, before: Option<Server>) {
    before.Some? && Wanted(spec, HAServer) && |before.value.containers| > |d.resources|
  }

  function RefreshedServer(existing: Server, d: ServerSpec, now: string): Server
    requires |existing.containers| <= |d.resources|
  {
    Server(Containers(d, |existing.containers|), d.placement, d.initResources,
           if OldImage(d, existing.containers) then Some(now) else existing.stamp)
  }

  function ServerAfter(spec: Spec, d: ServerSpec, now: string, before: Option<Server>): Option<Server>
    requires !Stuck(spec, d, before)
  {
    if before.Some? then (if Wanted(spec, HAServer) then Some(RefreshedServer(before.value, d, now)) else None)
    else if Creatable(spec, HAServer) then Some(Server(Containers(d, |d.resources|), d.placement, d.initResources, None))
    else None
  }

  // ---- A pass over the three workloads ----

  datatype Workloads = Workloads(standalone: Option<Workload>, proxy: Option<Workload>, server: Option<Server>)

  datatype Desired = Desired(deploy: Workload, haproxy: Workload, server: ServerSpec)

  /** Writes that are refused, and whether another step between the deployments and the Redis
      stateful set fails. */
  datatype Trouble = Trouble(refused: set<Kind>, interrupted: bool)

  /** The workloads are handled in the order standalone, proxy, server; the first failure ends
      the pass. */
  function Passed(spec: Spec, d: Desired, now: string, t: Trouble, before: Workloads): (Workloads, bool) {
    var a := After(spec, Standalone, d.deploy, now, before.standalone);
    if a != before.standalone && Standalone in t.refused then (before, false)
    else
      var one := before.(standalone := a);
      var p := After(spec, HAProxy, d.haproxy, now, before.proxy);
      if p != before.proxy && HAProxy in t.refused then (one, false)
      else
        var two := one.(proxy := p);
        if t.interrupted || Stuck(spec, d.server, before.server) then (two, false)
        else
          var s := ServerAfter(spec, d.server, now, before.server);
          if s != before.server && HAServer in t.refused then (two, false) else (two.(server := s), true)
  }

  const SERVICE_CA := "service.beta.openshift.io/serving-cert-secret-name"
  const REDIS_TLS_SECRET := "argocd-operator-redis-tls"

  /** Whether the route API exists and whether the TLS secret exists. */
  datatype Platform = Platform(routes: bool, tlsSecret: bool)

  /** Edits the annotations in place and says whether they changed. */
  method EnsureAutoTLSAnnotation(platform: Platform, annotations: map<string, string>, enabled: bool)
    returns (changed: bool, edited: map<string, string>)
    ensures edited == Annotated(platform, annotations, enabled)
    ensures changed <==> edited != annotations
  {
    edited := annotations;
    if platform.routes {
      if enabled {
        if SERVICE_CA !in edited && platform.tlsSecret {
          return false, edited;
        }
        if SERVICE_CA !in edited || edited[SERVICE_CA] != REDIS_TLS_SECRET {
          edited := edited[SERVICE_CA := REDIS_TLS_SECRET];
          return true, edited;
        }
      } else if SERVICE_CA in edited {
        edited := edited - {SERVICE_CA};
        assert SERVICE_CA !in edited;
        return true, edited;
      }
    }
    return false, edited;
  }

  function Annotated(platform: Platform, annotations: map<string, string>, enabled: bool): map<string, string> {
    if !platform.routes then annotations
    else if !enabled then annotations - {SERVICE_CA}
    else if SERVICE_CA in annotations || !platform.tlsSecret then annotations[SERVICE_CA := REDIS_TLS_SECRET]
    else annotations
  }

  /** The service is its annotations here. An annotation change ends the pass. */
  function ServiceAfter(spec: Spec, platform: Platform, before: Option<map<string, string>>): Option<map<string, string>> {
    match before
    case Some(annotations) =>
      var edited := Annotated(platform, annotations, spec.autoTLS);
      if !spec.enabled || (edited == annotations && spec.ha) then None else Some(edited)
    case None =>
      if spec.ha || !spec.enabled then None else Some(Annotated(platform, map[], spec.autoTLS))
  }

  class Reconciler {
    var standalone: Option<Workload>
    var server: Option<Server>
    var proxy: Option<Workload>
    var service: Option<map<string, string>>
    var writes: nat

    constructor ()
      ensures standalone.None? && server.None? && proxy.None? && service.None? && writes == 0
    {
      standalone, server, proxy, service, writes := None, None, None, None, 0;
    }

    method ReconcileRedisDeployment(spec: Spec, deploy: Workload, now: string, refused: bool) returns (ok: bool)
      modifies this`standalone, this`writes
      ensures var after := After(spec, Standalone, deploy, now, old(standalone));
        && (ok <==> after == old(standalone) || !refused)
        && standalone == (if ok then after else old(standalone))
      ensures writes == old(writes) + if standalone == old(standalone) then 0 else 1
    {
      var changed, desired := false, standalone;
      if standalone.Some? {
        if !spec.enabled || spec.ha {
          changed, desired := true, None;
        } else {
          var existing;
          changed, existing := RefreshStandalone(standalone.value, deploy, now);
          desired := Some(existing);
        }
      } else if spec.enabled && spec.remote {
        return true;
      } else if !spec.enabled || spec.ha {
        return true;
      } else {
        changed, desired := true, Some(deploy);
      }
      ok := !changed || !refused;
      if changed && ok {
        standalone, writes := desired, writes + 1;
      }
    }

    method ReconcileRedisHAProxyDeployment(spec: Spec, deploy: Workload, now: string, refused: bool) returns (ok: bool)
      modifies this`proxy, this`writes
      ensures var after := After(spec, HAProxy, deploy, now, old(proxy));
        && (ok <==> after == old(proxy) || !refused)
        && proxy == (if ok then after else old(proxy))
      ensures writes == old(writes) + if proxy == old(proxy) then 0 else 1
    {
      var changed, desired := false, proxy;
      if proxy.Some? {
        if !spec.ha {
          changed, desired := true, None;
        } else {
          var existing;
          changed, existing := RefreshProxy(proxy.value, deploy, now);
          desired := Some(existing);
        }
      } else if !spec.ha {
        return true;
      } else {
        changed, desired := true, Some(deploy);
      }
      ok := !changed || !refused;
      if changed && ok {
        proxy, writes := desired, writes + 1;
      }
    }

    method ReconcileRedisStatefulSet(spec: Spec, d: ServerSpec, now: string, refused: bool) returns (ok: bool)
      modifies this`server, this`writes
      ensures Stuck(spec, d, old(server)) ==> !ok && server == old(server)
      ensures !Stuck(spec, d, old(server)) ==>
        var after := ServerAfter(spec, d, now, old(server));
        && (ok <==> after == old(server) || !refused)
        && server == (if ok then after else old(server))
      ensures writes == old(writes) + if server == old(server) then 0 else 1
    {
      var changed, desired := false, server;
      if server.Some? {
        if !(spec.ha && spec.enabled) {
          changed, desired := true, None;
        } else {
          if |server.value.containers| > |d.resources| {
            return false;
          }
          var existing;
          changed, existing := RefreshServer(server.value, d, now);
          desired := Some(existing);
        }
      } else if spec.enabled && spec.remote {
        return true;
      } else if !spec.enabled {
        return true;
      } else if !spec.ha {
        return true;
      } else {
        changed, desired := true, Some(Server(Containers(d, |d.resources|), d.placement, d.initResources, None));
      }
      ok := !changed || !refused;
      if changed && ok {
        server, writes := desired, writes + 1;
      }
    }

    /** The Redis part of the deployments and then of the stateful sets. */
    method ReconcileWorkloads(spec: Spec, d: Desired, now: string, t: Trouble) returns (ok: bool)
      modifies this`standalone, this`server, this`proxy, this`writes
      ensures (Workloads(standalone, proxy, server), ok) == Passed(spec, d, now, t, old(Workloads(standalone, proxy, server)))
      ensures Workloads(standalone, proxy, server) == old(Workloads(standalone, proxy, server)) <==> writes == old(writes)
    {
      ok := ReconcileRedisDeployment(spec, d.deploy, now, Standalone in t.refused);
      if !ok {
        return;
      }
      ok := ReconcileRedisHAProxyDeployment(spec, d.haproxy, now, HAProxy in t.refused);
      if !ok {
        return;
      }
      if t.interrupted {
        return false;
      }
      ok := ReconcileRedisStatefulSet(spec, d.server, now, HAServer in t.refused);
    }

    method ReconcileRedisService(spec: Spec, platform: Platform, refused: bool) returns (ok: bool)
      modifies this`service, this`writes
      ensures var after := ServiceAfter(spec, platform, old(service));
        && (ok <==> after == old(service) || !refused)
        && service == (if ok then after else old(service))
      ensures writes == old(writes) + if service == old(service) then 0 else 1
    {
      var changed, desired := false, service;
      if service.Some? {
        if !spec.enabled {
          changed, desired := true, None;
        } else {
          var annotations;
          changed, annotations := EnsureAutoTLSAnnotation(platform, service.value, spec.autoTLS);
          desired := Some(annotations);
          if !changed && spec.ha {
            changed, desired := true, None;
          }
        }
      } else if spec.ha || !spec.enabled {
        return true;
      } else {
        var _, annotations := EnsureAutoTLSAnnotation(platform, map[], spec.autoTLS);
        changed, desired := true, Some(annotations);
      }
      ok := !changed || !refused;
      if changed && ok {
        service, writes := desired, writes + 1;
      }
    }
  }

  /** Fields compared on the standalone deployment. */
  method RefreshStandalone(fetched: Workload, desired: Workload, now: string) returns (changed: bool, existing: Workload)
    ensures existing == Refreshed(Standalone, fetched, desired, now)
    ensures changed <==> existing != fetched
  {
    existing, changed := fetched, false;
    if existing.image != desired.image {
      existing := existing.(image := desired.image, stamp := Some(now));
      changed := true;
    }
    if existing.placement != desired.placement {
      existing := existing.(placement := desired.placement);
      changed := true;
    }
    if existing.args != desired.args {
      existing := existing.(args := desired.args);
      changed := true;
    }
    if existing.env != desired.env {
      existing := existing.(env := desired.env);
      changed := true;
    }
    if existing.resources != desired.resources {
      existing := existing.(resources := desired.resources);
      changed := true;
    }
  }

  /** Fields compared on the proxy. */
  method RefreshProxy(fetched: Workload, desired: Workload, now: string) returns (changed: bool, existing: Workload)
    ensures existing == Refreshed(HAProxy, fetched, desired, now)
    ensures changed <==> existing != fetched
  {
    existing, changed := fetched, false;
    if existing.image != desired.image {
      existing := existing.(image := desired.image, stamp := Some(now));
      changed := true;
    }
    if existing.placement != desired.placement {
      existing := existing.(placement := desired.placement);
      changed := true;
    }
    if existing.resources != desired.resources {
      existing := existing.(resources := desired.resources);
      changed := true;
    }
    if existing.initResources != desired.initResources {
      existing := existing.(initResources := desired.initResources);
      changed := true;
    }
  }

  /** Image and resources are compared container by container. */
  method RefreshServer(fetched: Server, d: ServerSpec, now: string) returns (changed: bool, existing: Server)
    requires |fetched.containers| <= |d.resources|
    ensures existing == RefreshedServer(fetched, d, now)
    ensures changed <==> existing != fetched
  {
    var containers, stamp := fetched.containers, fetched.stamp;
    changed := fetched.placement != d.placement;
    for i := 0 to |containers|
      invariant |containers| == |fetched.containers|
      invariant forall j :: i <= j < |containers| ==> containers[j] == fetched.containers[j]
      invariant forall j :: 0 <= j < i ==> containers[j] == Container(d.image, d.resources[j])
      invariant stamp == if OldImage(d, fetched.containers[..i]) then Some(now) else fetched.stamp
      invariant changed <==> fetched.placement != d.placement || containers != fetched.containers
    {
      assert containers[i] == fetched.containers[i];
      assert fetched.containers[..i + 1] == fetched.containers[..i] + [fetched.containers[i]];
      OldImageNext(d, fetched.containers, i);
      ghost var before := containers;
      var wanted := Container(d.image, d.resources[i]);
      if containers[i].image != d.image {
        containers := containers[i := containers[i].(image := d.image)];
        stamp := Some(now);
        changed := true;
      }
      if containers[i].resources != d.resources[i] {
        containers := containers[i := containers[i].(resources := d.resources[i])];
        changed := true;
      }
      assert containers == before[i := wanted];
      assert containers[i] != fetched.containers[i] ==> containers != fetched.containers;
    }
    assert fetched.containers[..|containers|] == fetched.containers;
    assert containers == Containers(d, |containers|);
    if fetched.initResources != d.initResources {
      changed := true;
    }
    OldImageSeen(d, fetched.containers);
    existing := Server(containers, d.placement, d.initResources, stamp);
  }

  lemma OldImageNext(d: ServerSpec, containers: seq<Container>, i: nat)
    requires i < |containers|
    ensures OldImage(d, containers[..i + 1]) <==> OldImage(d, containers[..i]) || containers[i].image != d.image
  {
    var longer, shorter := containers[..i + 1], containers[..i];
    assert forall j :: 0 <= j < i ==> longer[j] == shorter[j];
    assert longer[i] == containers[i];
  }

  /** A set with an old image differs from the refreshed one. */
  lemma OldImageSeen(d: ServerSpec, containers: seq<Container>)
    requires |containers| <= |d.resources|
    ensures OldImage(d, containers) ==> containers != Containers(d, |containers|)
  {
  }

  /** Every field that reconciliation looks at is as desired. */
  predicate InLine(kind: Kind, w: Workload, desired: Workload) {
    && w.image == desired.image && w.placement == desired.placement && w.resources == desired.resources
    && if kind == Standalone then w.args == desired.args && w.env == desired.env else w.initResources == desired.initResources
  }

  /** A completed pass on a deployment, from any earlier state: without a remote endpoint it
      exists exactly when it is wanted; with one, the standalone one only if it was there. Its
      compared fields are as desired, and a new image leaves the time of the pass. A second
      pass, at any later time, changes nothing. */
  lemma OnePassSettles(spec: Spec, kind: Kind, desired: Workload, now: string, later: string, before: Option<Workload>)
    requires kind != HAServer
    ensures var after := After(spec, kind, desired, now, before);
      && (kind == Standalone ==> (after.Some? <==> spec.enabled && !spec.ha && (before.Some? || !spec.remote)))
      && (kind == HAProxy ==> (after.Some? <==> spec.ha))
      && (after.Some? ==> InLine(kind, after.value, desired))
      && (after.Some? && before.None? ==> after.value == desired)
      && (after.Some? && before.Some? ==>
            if kind == Standalone then after.value.initResources == before.value.initResources
            else after.value.args == before.value.args && after.value.env == before.value.env)
      && (before.Some? && after.Some? && before.value.image == desired.image ==> after.value.stamp == before.value.stamp)
      && (before.Some? && after.Some? && before.value.image != desired.image ==> after.value.stamp == Some(now))
      && After(spec, kind, desired, later, after) == after
  {
  }

  /** The same for the server. It keeps the number of its containers. */
  lemma ServerSettles(spec: Spec, d: ServerSpec, now: string, later: string, before: Option<Server>)
    requires !Stuck(spec, d, before)
    ensures var after := ServerAfter(spec, d, now, before);
      && (after.Some? <==> spec.enabled && spec.ha && (before.Some? || !spec.remote))
      && (after.Some? ==>
            && after.value.placement == d.placement && after.value.initResources == d.initResources
            && |after.value.containers| == (if before.Some? then |before.value.containers| else |d.resources|)
            && (forall i :: 0 <= i < |after.value.containers| ==> after.value.containers[i] == Container(d.image, d.resources[i]))
            && after.value.stamp ==
               if before.None? then None
               else if exists c :: c in before.value.containers && c.image != d.image then Some(now)
               else before.value.stamp)
      && !Stuck(spec, d, after) && ServerAfter(spec, d, later, after) == after
  {
    var after := ServerAfter(spec, d, now, before);
    if after.Some? {
      assert after.value.containers == Containers(d, |after.value.containers|);
      assert !OldImage(d, after.value.containers);
    }
  }

  /** A completed pass never leaves both servers, and leaves none only when Redis is disabled
      or remote. */
  lemma OneServer(spec: Spec, d: Desired, now: string, t: Trouble, before: Workloads)
    requires Passed(spec, d, now, t, before).1
    ensures var after := Passed(spec, d, now, t, before).0;
      && !(after.standalone.Some? && after.server.Some?)
      && (spec.enabled && !spec.remote ==> after.standalone.Some? || after.server.Some?)
  {
  }

  /** Any pass leaves both exactly when the server was there and either both stay because the
      first write is refused, or the standalone deployment is in place and what follows it
      fails before the server is deleted. */
  lemma CoexistIff(spec: Spec, d: Desired, now: string, t: Trouble, before: Workloads)
    ensures var after := Passed(spec, d, now, t, before).0;
      (after.standalone.Some? && after.server.Some?) <==>
      && before.server.Some?
      && if Standalone in t.refused && After(spec, Standalone, d.deploy, now, before.standalone) != before.standalone
         then before.standalone.Some?
         else spec.enabled && !spec.ha && (before.standalone.Some? || !spec.remote) &&
              ((before.proxy.Some? && HAProxy in t.refused) || t.interrupted || HAServer in t.refused)
  {
  }

  /** Any pass for an enabled local Redis leaves no server exactly when there was none to keep
      and the creation of the wanted one is refused or not reached. */
  lemma NoServerIff(spec: Spec, d: Desired, now: string, t: Trouble, before: Workloads)
    requires spec.enabled && !spec.remote
    ensures var after := Passed(spec, d, now, t, before).0;
      (after.standalone.None? && after.server.None?) <==>
      && before.server.None?
      && if !spec.ha then before.standalone.None? && Standalone in t.refused
         else !(before.standalone.Some? && Standalone in t.refused) &&
              (t.interrupted || HAServer in t.refused ||
               (HAProxy in t.refused && After(spec, HAProxy, d.haproxy, now, before.proxy) != before.proxy))
  {
  }

  /** Switching off high availability creates the standalone deployment before it deletes the
      server, so a refused deletion leaves both. */
  lemma BothServers(d: Desired, proxy: Workload, server: Server, now: string)
    ensures var before := Workloads(None, Some(proxy), Some(server));
      var after := Passed(Spec(true, false, false, false), d, now, Trouble({HAProxy}, false), before).0;
      after.standalone.Some? && after.server.Some?
  {
  }

  /** The service reaches its target within two passes and then stays. */
  lemma ServiceSettles(spec: Spec, platform: Platform, before: Option<map<string, string>>)
    ensures var once := ServiceAfter(spec, platform, before); var twice := ServiceAfter(spec, platform, once);
      && (twice.Some? <==> spec.enabled && !spec.ha)
      && (twice.Some? ==> Annotated(platform, twice.value, spec.autoTLS) == twice.value)
      && ServiceAfter(spec, platform, twice) == twice
  {
    if before.Some? {
      AnnotatedTwice(platform, before.value, spec.autoTLS);
    }
    AnnotatedTwice(platform, map[], spec.autoTLS);
  }

  /** What the annotations are to be: without the route API, or with a TLS secret that was not
      asked for, as they are; otherwise the request for the Redis secret is there exactly when
      it is enabled, and all other annotations are kept. */
  lemma AnnotationRequested(platform: Platform, annotations: map<string, string>, enabled: bool)
    ensures var key := "service.beta.openshift.io/serving-cert-secret-name";
      var edited := Annotated(platform, annotations, enabled);
      && (forall k :: k != key ==> Lookup(edited, k) == Lookup(annotations, k))
      && Lookup(edited, key) ==
         if !platform.routes || (enabled && platform.tlsSecret && key !in annotations) then Lookup(annotations, key)
         else if enabled then Some("argocd-operator-redis-tls") else None
  {
  }

  lemma AnnotatedTwice(platform: Platform, annotations: map<string, string>, enabled: bool)
    ensures var once := Annotated(platform, annotations, enabled); Annotated(platform, once, enabled) == once
  {
    var once := Annotated(platform, annotations, enabled);
    if platform.routes && enabled && SERVICE_CA in once {
      assert once[SERVICE_CA := REDIS_TLS_SECRET] == once;
    }
  }

  /** One pass is not enough exactly when the service of a highly available setup still has
      to have its annotation changed. */
  lemma ServiceLingersIff(spec: Spec, platform: Platform, before: Option<map<string, string>>)
    ensures (ServiceAfter(spec, platform, before).Some? <==> spec.enabled && !spec.ha) <==>
      !(before.Some? && spec.enabled && spec.ha && Annotated(platform, before.value, spec.autoTLS) != before.value)
  {
  }
}
