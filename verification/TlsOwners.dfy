/** Two lookups of the ArgoCD resource behind a TLS secret, written independently of each
    other: whether Redis uses TLS (controllers/argocd/util.go) and which resource a change of
    the secret reconciles (controllers/argocd/custommapper.go). */
module TlsOwners {
  import opened Lists
  import Redis

  datatype Owner = Owner(kind: string, name: string)
  datatype Secret = Secret(name: string, owners: seq<Owner>, annotations: map<string, string>)

  /** Owner references of the services of the namespace; a service that is not there, or that
      cannot be fetched, is not in the map. */
  type Services = map<string, seq<Owner>>

  const NAME_ANNOTATION := "argocds.argoproj.io/name"

  predicate HasSuffix(s: string, suffix: string) {
    |s| >= |suffix| && s[|s| - |suffix|..] == suffix
  }

  predicate IsOwnerOfInterest(owner: Owner) {
    owner.kind == "Service" && (HasSuffix(owner.name, "-repo-server") || HasSuffix(owner.name, "-redis"))
  }

  predicate IsSecretOfInterest(name: string) {
    HasSuffix(name, "-repo-server-tls") || name == Redis.REDIS_TLS_SECRET
  }

  /** Position of the first owner of kind ArgoCD. */
  function FirstArgoCD(owners: seq<Owner>): (i: Option<nat>)
    ensures i.Some? ==> i.value < |owners| && owners[i.value].kind == "ArgoCD"
    ensures i.Some? ==> forall j :: 0 <= j < i.value ==> owners[j].kind != "ArgoCD"
    ensures i.None? ==> forall j :: 0 <= j < |owners| ==> owners[j].kind != "ArgoCD"
  {
    if owners == [] then None
    else if owners[0].kind == "ArgoCD" then Some(0)
    else
      var rest := FirstArgoCD(owners[1..]);
      if rest.Some? then Some(rest.value + 1) else None
  }

  /** The services of interest among the owners are followed in turn, up to the first that is
      missing or owned by an ArgoCD resource. */
  function Followed(owners: seq<Owner>, services: Services): Option<string> {
    if owners == [] then None
    else if !IsOwnerOfInterest(owners[0]) then Followed(owners[1..], services)
    else if owners[0].name !in services then None
    else
      var found := FirstArgoCD(services[owners[0].name]);
      if found.Some? then Some(services[owners[0].name][found.value].name) else Followed(owners[1..], services)
  }

  /** The ArgoCD resource behind a secret: through its owners, or named by an annotation. */
  function Behind(secret: Secret, services: Services): Option<string> {
    if |secret.owners| > 0 then Followed(secret.owners, services)
    else if NAME_ANNOTATION in secret.annotations then Some(secret.annotations[NAME_ANNOTATION])
    else None
  }

  method RedisShouldUseTLS(secret: Option<Secret>, services: Services) returns (use: bool)
    ensures use <==> secret.Some? && Behind(secret.value, services).Some?
  {
    if secret.None? {
      return false;
    }
    var owners := secret.value.owners;
    if |owners| > 0 {
      for i := 0 to |owners|
        invariant Followed(owners[i..], services) == Followed(owners, services)
      {
        var owner := owners[i];
        assert owners[i..][1..] == owners[i + 1..];
        if IsOwnerOfInterest(owner) {
          if owner.name !in services {
            return false;
          }
          var serviceOwners := services[owner.name];
          for j := 0 to |serviceOwners|
            invariant forall k :: 0 <= k < j ==> serviceOwners[k].kind != "ArgoCD"
          {
            if serviceOwners[j].kind == "ArgoCD" {
              return true;
            }
          }
        }
      }
    } else {
      if NAME_ANNOTATION in secret.value.annotations {
        return true;
      }
    }
    return false;
  }

  /** Names of the resources, in the namespace of the secret, to reconcile. */
  method TlsSecretMapper(secret: Secret, services: Services) returns (result: seq<string>)
    ensures var behind := Behind(secret, services);
      result == if IsSecretOfInterest(secret.name) && behind.Some? then [behind.value] else []
  {
    result := [];
    if !IsSecretOfInterest(secret.name) {
      return;
    }
    var owners := secret.owners;
    if |owners| > 0 {
      for i := 0 to |owners|
        invariant Followed(owners[i..], services) == Followed(owners, services)
      {
        var owner := owners[i];
        assert owners[i..][1..] == owners[i + 1..];
        if IsOwnerOfInterest(owner) {
          if owner.name !in services {
            return;
          }
          var serviceOwners := services[owner.name];
          for j := 0 to |serviceOwners|
            invariant forall k :: 0 <= k < j ==> serviceOwners[k].kind != "ArgoCD"
          {
            if serviceOwners[j].kind == "ArgoCD" {
              return [serviceOwners[j].name];
            }
          }
        }
      }
    } else {
      if NAME_ANNOTATION in secret.annotations {
        result := [secret.annotations[NAME_ANNOTATION]];
      }
    }
  }

  /** The owners and secrets of interest, by name. */
  lemma InterestIff(owner: Owner, name: string)
    ensures IsOwnerOfInterest(owner) <==>
      owner.kind == "Service" && exists p :: owner.name == p + "-repo-server" || owner.name == p + "-redis"
    ensures IsSecretOfInterest(name) <==> name == "argocd-operator-redis-tls" || exists p :: name == p + "-repo-server-tls"
  {
    SuffixIff(owner.name, "-repo-server");
    SuffixIff(owner.name, "-redis");
    SuffixIff(name, "-repo-server-tls");
  }

  lemma SuffixIff(s: string, suffix: string)
    ensures HasSuffix(s, suffix) <==> exists p :: s == p + suffix
  {
    if HasSuffix(s, suffix) {
      assert s == s[..|s| - |suffix|] + suffix;
    }
  }

  /** The owner at position `k` is a service of interest that `resource` owns, as the first of
      its owners of kind ArgoCD, and all services of interest before it are there and have no
      such owner. */
  ghost predicate LeadsTo(owners: seq<Owner>, services: Services, k: nat, resource: string) {
    && k < |owners| && IsOwnerOfInterest(owners[k]) && owners[k].name in services
    && (exists j :: FirstOfKind(services[owners[k].name], j) && services[owners[k].name][j].name == resource)
    && (forall i :: 0 <= i < k && IsOwnerOfInterest(owners[i]) ==>
          owners[i].name in services && forall o :: o in services[owners[i].name] ==> o.kind != "ArgoCD")
  }

  ghost predicate FirstOfKind(owners: seq<Owner>, j: int) {
    0 <= j < |owners| && owners[j].kind == "ArgoCD" && forall i :: 0 <= i < j ==> owners[i].kind != "ArgoCD"
  }

  /** The resource behind a secret, without recursion. */
  lemma BehindIff(secret: Secret, services: Services, resource: string)
    ensures Behind(secret, services) == Some(resource) <==>
      if secret.owners != [] then exists k: nat :: LeadsTo(secret.owners, services, k, resource)
      else Lookup(secret.annotations, "argocds.argoproj.io/name") == Some(resource)
  {
    FollowedIff(secret.owners, services, resource);
  }

  lemma {:induction false} FollowedIff(owners: seq<Owner>, services: Services, resource: string)
    ensures Followed(owners, services) == Some(resource) <==> exists k: nat :: LeadsTo(owners, services, k, resource)
  {
    if owners != [] {
      FollowedIff(owners[1..], services, resource);
      LeadsNext(owners, services, resource);
    }
  }

  /** Either the first owner leads to the resource, or it is passed over. */
  lemma LeadsNext(owners: seq<Owner>, services: Services, resource: string)
    requires owners != []
    ensures var first := owners[0];
      var passed := IsOwnerOfInterest(first) ==>
                      first.name in services && forall o :: o in services[first.name] ==> o.kind != "ArgoCD";
      (exists k: nat :: LeadsTo(owners, services, k, resource)) <==>
      || LeadsTo(owners, services, 0, resource)
      || (passed && exists k: nat :: LeadsTo(owners[1..], services, k, resource))
  {
    if k: nat :| LeadsTo(owners, services, k, resource) && k > 0 {
      assert LeadsTo(owners[1..], services, k - 1, resource);
    }
    if k: nat :| LeadsTo(owners[1..], services, k, resource) {
      var first := owners[0];
      if IsOwnerOfInterest(first) ==>
           first.name in services && forall o :: o in services[first.name] ==> o.kind != "ArgoCD" {
        assert LeadsTo(owners, services, k + 1, resource);
      }
    }
  }

  /** Redis uses TLS exactly when a change of its secret reconciles exactly one resource. */
  method RedisTLSIsWatched(secret: Secret, services: Services) returns (use: bool, requests: seq<string>)
    requires secret.name == Redis.REDIS_TLS_SECRET
    ensures use <==> |requests| == 1
    ensures !use ==> requests == []
  {
    use := RedisShouldUseTLS(Some(secret), services);
    requests := TlsSecretMapper(secret, services);
  }
}
