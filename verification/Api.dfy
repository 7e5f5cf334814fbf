/** What all reconcilers share: requests to the API server, which may fail, and the service
    accounts that permissions are granted to (controllers/argocd/service_account.go). */
module Api {

  type Rules = seq<string>
  datatype Subject = Subject(name: string, namespace: string)

  /** The components permissions are granted to. */
  datatype Component = Controller | Server | DexServer | RedisHA | RedisServer | View | Admin

  function ComponentName(c: Component): string {
    match c
    case Controller => "argocd-application-controller"
    case Server => "argocd-server"
    case DexServer => "argocd-dex-server"
    case RedisHA => "argocd-redis-ha"
    case RedisServer => "argocd-redis"
    case View => "argocd-application-controller-view"
    case Admin => "argocd-application-controller-admin"
  }

  /** One request that is granted or not; `count` is the number of failed ones so far. */
  method Ask(granted: bool, failures: nat) returns (ok: bool, count: nat)
    ensures ok == granted && count == failures + if ok then 0 else 1
  {
    ok, count := granted, if granted then failures else failures + 1;
  }

  /** One request that may fail. */
  method Request(failures: nat) returns (ok: bool, count: nat)
    ensures count == failures + if ok then 0 else 1
  {
    var granted: bool := *;
    ok, count := Ask(granted, failures);
  }

  /** Creates a missing service account, or deletes one that is not wanted any more. */
  method ReconcileServiceAccount<T(==)>(accounts: set<T>, account: T, unwanted: bool, failures: nat)
    returns (ok: bool, after: set<T>, count: nat)
    ensures count == failures + if ok then 0 else 1
    ensures after == if !ok then accounts else if unwanted then accounts - {account} else accounts + {account}
  {
    after := accounts;
    ok, count := Request(failures);
    if !ok {
      return;
    }
    if account !in accounts {
      if unwanted {
        return;
      }
      ok, count := Request(count);
      if ok {
        after := accounts + {account};
      }
      return;
    }
    if unwanted {
      ok, count := Request(count);
      if ok {
        after := accounts - {account};
      }
    }
  }
}
