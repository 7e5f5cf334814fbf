/** The comma-separated list of namespaces in the cluster secret of an instance
    (controllers/argocd/secret.go and util.go). */
module ClusterSecret {
  import Api
  import opened Lists
  import opened Ordering

  /** The secret for the default server: absent, or present with or without the list. */
  datatype Secret = Absent | Present(namespaces: Option<string>)

  /** One of the cluster secrets of an instance; `local`: its server is the default server. */
  datatype Item = Item(local: bool, namespaces: Option<string>)

  function Itself(s: string): string { s }

  /** unicode.IsSpace */
  predicate IsSpace(c: char) {
    || c in "\t\n\r "
    || c in {'\U{0B}', '\U{0C}', '\U{85}', '\U{A0}', '\U{1680}', '\U{2028}', '\U{2029}', '\U{202F}', '\U{205F}', '\U{3000}'}
    || '\U{2000}' <= c <= '\U{200A}'
  }

  function TrimLeft(s: string): string {
    if s != [] && IsSpace(s[0]) then TrimLeft(s[1..]) else s
  }

  function TrimRight(s: string): string {
    if s != [] && IsSpace(s[|s| - 1]) then TrimRight(s[..|s| - 1]) else s
  }

  function TrimSpace(s: string): string {
    TrimRight(TrimLeft(s))
  }

  lemma {:induction false} TrimLeftFacts(s: string)
    ensures TrimLeft(s) == [] || !IsSpace(TrimLeft(s)[0])
    ensures forall c :: c in TrimLeft(s) ==> c in s
  {
    if s != [] && IsSpace(s[0]) {
      TrimLeftFacts(s[1..]);
    }
  }

  lemma {:induction false} TrimRightFacts(s: string)
    ensures TrimRight(s) <= s
    ensures TrimRight(s) == [] || !IsSpace(TrimRight(s)[|TrimRight(s)| - 1])
  {
    if s != [] && IsSpace(s[|s| - 1]) {
      TrimRightFacts(s[..|s| - 1]);
    }
  }

  /** Trimming is idempotent and adds no character. */
  lemma TrimmedTwice(s: string)
    ensures TrimSpace(TrimSpace(s)) == TrimSpace(s)
    ensures forall c :: c in TrimSpace(s) ==> c in s
  {
    TrimLeftFacts(s);
    TrimRightFacts(TrimLeft(s));
  }

  /** Trimming takes spaces away at both ends, and all of them there. */
  lemma TrimmedExactly(s: string) returns (left: string, right: string)
    ensures s == left + TrimSpace(s) + right
    ensures (forall c :: c in left ==> IsSpace(c)) && (forall c :: c in right ==> IsSpace(c))
    ensures var t := TrimSpace(s); t == [] || (!IsSpace(t[0]) && !IsSpace(t[|t| - 1]))
  {
    left := TrimmedOff(s);
    TrimLeftFacts(s);
    var rest := TrimLeft(s);
    TrimRightFacts(rest);
    right := rest[|TrimRight(rest)|..];
    TrimmedOffRight(rest);
    assert rest == TrimRight(rest) + right;
    assert s == left + (TrimRight(rest) + right) == left + TrimRight(rest) + right;
  }

  lemma {:induction false} TrimmedOff(s: string) returns (left: string)
    ensures s == left + TrimLeft(s) && forall c :: c in left ==> IsSpace(c)
  {
    left := [];
    if s != [] && IsSpace(s[0]) {
      var rest := TrimmedOff(s[1..]);
      left := [s[0]] + rest;
      assert s == [s[0]] + s[1..];
    }
  }

  lemma {:induction false} TrimmedOffRight(s: string)
    ensures TrimRight(s) <= s && forall c :: c in s[|TrimRight(s)|..] ==> IsSpace(c)
  {
    if s != [] && IsSpace(s[|s| - 1]) {
      var n := |s| - 1;
      TrimmedOffRight(s[..n]);
      assert s[|TrimRight(s)|..] == s[..n][|TrimRight(s)|..] + [s[n]];
    }
  }

  /** A namespace name, as the API server accepts it: no comma, no surrounding space. */
  predicate IsName(n: string) {
    ',' !in n && n != "" && TrimSpace(n) == n
  }

  predicate Has(entries: seq<string>, n: string) {
    exists i :: 0 <= i < |entries| && TrimSpace(entries[i]) == n
  }

  method ContainsString(entries: seq<string>, n: string) returns (found: bool)
    ensures found <==> Has(entries, n)
  {
    for i := 0 to |entries|
      invariant forall j :: 0 <= j < i ==> TrimSpace(entries[j]) != n
    {
      if TrimSpace(entries[i]) == n {
        return true;
      }
    }
    return false;
  }

  /** The namespaces the list stands for. */
  function Members(entries: seq<string>): set<string> {
    set e | e in entries :: TrimSpace(e)
  }

  lemma HasIff(entries: seq<string>, n: string)
    ensures Has(entries, n) <==> n in Members(entries)
  {
    if Has(entries, n) {
      var i :| 0 <= i < |entries| && TrimSpace(entries[i]) == n;
      assert entries[i] in entries;
    }
  }

  function AddMissing(entries: seq<string>, names: seq<string>): seq<string> {
    if names == [] then entries
    else
      var front := AddMissing(entries, names[..|names| - 1]);
      var n := TrimSpace(names[|names| - 1]);
      if Has(front, n) then front else front + [n]
  }

  function WithOwner(managed: seq<string>, owner: string): seq<string> {
    if Has(managed, owner) then managed else managed + [owner]
  }

  function Kept(entries: seq<string>, n: string): seq<string> {
    if entries == [] then []
    else
      var front := Kept(entries[..|entries| - 1], n);
      var e := TrimSpace(entries[|entries| - 1]);
      if e == n then front else front + [e]
  }

  /** The list of a secret; Go splits a missing value into one empty entry. */
  function Entries(namespaces: Option<string>): (entries: seq<string>)
    ensures |entries| >= 1
  {
    Split(if namespaces.Some? then namespaces.value else "", ',')
  }

  /** The secret after a reconciliation. */
  function Reconciled(secret: Secret, managed: seq<string>, owner: string, clusterConfig: bool): Secret {
    WithNames(secret, Sort(WithOwner(managed, owner), Itself), clusterConfig)
  }

  /** The secret after a namespace lost its managed-by label. */
  function Removed(secret: Secret, n: string): Secret {
    if secret.Absent? || secret.namespaces.None? then secret
    else Present(Some(Without(secret.namespaces.value, n)))
  }

  function Without(namespaces: string, n: string): string {
    Stored(namespaces, Kept(Split(namespaces, ','), n))
  }

  // ---- All cluster secrets of an instance ----

  /** Position of the first secret for the default server, or the length of the list. */
  function First(secrets: seq<Item>): (k: nat)
    ensures k <= |secrets| && (k < |secrets| ==> secrets[k].local)
    ensures forall i :: 0 <= i < k ==> !secrets[i].local
  {
    if secrets == [] || secrets[0].local then 0 else 1 + First(secrets[1..])
  }

  function View(secrets: seq<Item>): Secret {
    if First(secrets) < |secrets| then Present(secrets[First(secrets)].namespaces) else Absent
  }

  /** A reconciliation updates the first secret for the default server, or creates one. */
  function ReconciledAll(secrets: seq<Item>, managed: seq<string>, owner: string, clusterConfig: bool): seq<Item> {
    Replaced(secrets, Reconciled(View(secrets), managed, owner, clusterConfig))
  }

  function Replaced(secrets: seq<Item>, after: Secret): seq<Item> {
    var k := First(secrets);
    if after.Absent? then secrets
    else if k < |secrets| then secrets[k := secrets[k].(namespaces := after.namespaces)]
    else secrets + [Item(true, after.namespaces)]
  }

  lemma ReplacedView(secrets: seq<Item>, after: Secret)
    requires View(secrets).Present? ==> after.Present?
    ensures View(Replaced(secrets, after)) == after
  {
    FirstIs(Replaced(secrets, after), First(secrets));
  }

  /** A removal updates all of them in turn; here the first `k`. */
  function RemovedUpTo(secrets: seq<Item>, n: string, k: nat): seq<Item>
    requires k <= |secrets|
  {
    MapUpTo(secrets, item => RemovedItem(item, n), k)
  }

  function MapUpTo<T>(s: seq<T>, f: T -> T, k: nat): (r: seq<T>)
    requires k <= |s|
    ensures |r| == |s| && forall i :: 0 <= i < |s| ==> r[i] == if i < k then f(s[i]) else s[i]
  {
    seq(|s|, i requires 0 <= i < |s| => if i < k then f(s[i]) else s[i])
  }

  lemma MapNext<T>(s: seq<T>, f: T -> T, k: nat)
    requires k < |s|
    ensures MapUpTo(s, f, k)[k] == s[k] && MapUpTo(s, f, k + 1) == MapUpTo(s, f, k)[k := f(s[k])]
  {
  }

  function RemovedItem(item: Item, n: string): (r: Item)
    ensures r.local == item.local
  {
    if item.local then item.(namespaces := Removed(Present(item.namespaces), n).namespaces) else item
  }

  lemma FirstIs(secrets: seq<Item>, k: nat)
    requires k <= |secrets| && (k < |secrets| ==> secrets[k].local)
    requires forall i :: 0 <= i < k ==> !secrets[i].local
    ensures First(secrets) == k
  {
  }

  /** What happens to the list amounts to the same on the first secret for the default server;
      a removal that is cut short amounts to a removal or to nothing. */
  lemma ReconciledView(secrets: seq<Item>, managed: seq<string>, owner: string, clusterConfig: bool)
    ensures View(ReconciledAll(secrets, managed, owner, clusterConfig)) ==
            Reconciled(View(secrets), managed, owner, clusterConfig)
  {
    ReplacedView(secrets, Reconciled(View(secrets), managed, owner, clusterConfig));
  }

  /** All other secrets are the same after a reconciliation. */
  lemma OthersKept(secrets: seq<Item>, managed: seq<string>, owner: string, clusterConfig: bool, i: nat)
    requires i < |secrets| && (!secrets[i].local || exists j :: 0 <= j < i && secrets[j].local)
    ensures var after := ReconciledAll(secrets, managed, owner, clusterConfig);
      |secrets| <= |after| <= |secrets| + 1 && after[i] == secrets[i]
  {
    assert i != First(secrets);
  }

  /** A removal handles every secret for the default server that has a list, and no other. */
  lemma RemovedEach(secrets: seq<Item>, n: string, i: nat)
    requires i < |secrets|
    ensures var after := RemovedUpTo(secrets, n, |secrets|);
      && |after| == |secrets|
      && after[i] == if secrets[i].local && secrets[i].namespaces.Some?
                     then Item(true, Some(Without(secrets[i].namespaces.value, n))) else secrets[i]
  {
  }

  lemma RemovedView(secrets: seq<Item>, n: string, k: nat)
    requires k <= |secrets|
    ensures View(RemovedUpTo(secrets, n, k)) == if First(secrets) < k then Removed(View(secrets), n) else View(secrets)
  {
    FirstIs(RemovedUpTo(secrets, n, k), First(secrets));
  }

  class Store {
    var secrets: seq<Item>
    var failures: nat

    constructor (secrets: seq<Item>)
      ensures this.secrets == secrets && failures == 0
    {
      this.secrets, failures := secrets, 0;
    }

    /** `managed` lists the namespaces labelled for the instance. */
    method ReconcileClusterPermissionsSecret(managed: seq<string>, owner: string, clusterConfig: bool) returns (ok: bool)
      modifies this
      ensures failures == old(failures) + if ok then 0 else 1
      ensures secrets == if ok then ReconciledAll(old(secrets), managed, owner, clusterConfig) else old(secrets)
    {
      ok, failures := Api.Request(failures);
      if !ok {
        return;
      }
      var namespaces := managed;
      var found := ContainsString(namespaces, owner);
      if !found {
        namespaces := namespaces + [owner];
      }
      namespaces := Sort(namespaces, Itself);
      ok, failures := Api.Request(failures);
      if !ok {
        return;
      }
      var k := FindFirst(secrets);
      var updated := UpdatedSecret(View(secrets), namespaces, clusterConfig);
      if k < |secrets| {
        ok, failures := Api.Request(failures);
        if ok {
          secrets := secrets[k := secrets[k].(namespaces := updated.namespaces)];
        }
        return;
      }
      if updated.Absent? {
        return;
      }
      ok, failures := Api.Request(failures);
      if ok {
        secrets := secrets + [Item(true, updated.namespaces)];
      }
    }

    method DeleteManagedNamespace(n: string) returns (ok: bool, ghost handled: nat)
      modifies this
      ensures failures == old(failures) + if ok then 0 else 1
      ensures handled <= |old(secrets)| && (ok ==> handled == |old(secrets)|)
      ensures secrets == RemovedUpTo(old(secrets), n, handled)
    {
      ok, failures := Api.Request(failures);
      handled := 0;
      if !ok {
        return;
      }
      for i := 0 to |secrets|
        invariant |secrets| == |old(secrets)| && handled == i && ok && failures == old(failures)
        invariant secrets == RemovedUpTo(old(secrets), n, i)
      {
        var item := secrets[i];
        RemovedNext(old(secrets), n, i);
        if item.local && item.namespaces.Some? {
          var value := WithoutNamespace(item.namespaces.value, n);
          ok, failures := Api.Request(failures);
          if !ok {
            return;
          }
          secrets := secrets[i := item.(namespaces := Some(value))];
        }
        handled := i + 1;
      }
    }
  }

  lemma RemovedNext(secrets: seq<Item>, n: string, i: nat)
    requires i < |secrets|
    ensures RemovedUpTo(secrets, n, i)[i] == secrets[i]
    ensures RemovedUpTo(secrets, n, i + 1) == RemovedUpTo(secrets, n, i)[i := RemovedItem(secrets[i], n)]
  {
    MapNext(secrets, item => RemovedItem(item, n), i);
  }

  /** The search for the secret of the default server. */
  method FindFirst(secrets: seq<Item>) returns (k: nat)
    ensures k == First(secrets)
  {
    for i := 0 to |secrets|
      invariant forall j :: 0 <= j < i ==> !secrets[j].local
    {
      if secrets[i].local {
        FirstIs(secrets, i);
        return i;
      }
    }
    FirstIs(secrets, |secrets|);
    return |secrets|;
  }

  /** The secret with the given names added, or without a list in a cluster configuration
      instance, which creates none. */
  method UpdatedSecret(secret: Secret, names: seq<string>, clusterConfig: bool) returns (updated: Secret)
    ensures updated == WithNames(secret, names, clusterConfig)
  {
    if clusterConfig {
      updated := if secret.Present? then Present(None) else Absent;
    } else if secret.Present? {
      var value := UpdatedList(secret.namespaces, names);
      updated := Present(Some(value));
    } else {
      updated := Present(Some(Join(names, ',')));
    }
  }

  function WithNames(secret: Secret, names: seq<string>, clusterConfig: bool): Secret {
    if clusterConfig then (if secret.Absent? then Absent else Present(None))
    else Present(Some(Join(if secret.Absent? then names else Sort(AddMissing(Entries(secret.namespaces), names), Itself), ',')))
  }

  /** The names that the list lacks are added to it. */
  method UpdatedList(namespaces: Option<string>, names: seq<string>) returns (value: string)
    ensures value == Join(Sort(AddMissing(Entries(namespaces), names), Itself), ',')
  {
    var ns := Split(if namespaces.Some? then namespaces.value else "", ',');
    ns := AppendMissing(ns, names);
    ns := Sort(ns, Itself);
    value := Join(ns, ',');
  }

  method AppendMissing(entries: seq<string>, names: seq<string>) returns (ns: seq<string>)
    ensures ns == AddMissing(entries, names)
  {
    ns := entries;
    for i := 0 to |names|
      invariant ns == AddMissing(entries, names[..i])
    {
      assert names[..i + 1][..i] == names[..i];
      var known := ContainsString(ns, TrimSpace(names[i]));
      if !known {
        ns := ns + [TrimSpace(names[i])];
      }
    }
    assert names[..|names|] == names;
  }

  /** What is stored for the entries that are kept. */
  function Stored(namespaces: string, kept: seq<string>): string {
    if kept == [] then namespaces else Join(Sort(kept, Itself), ',')
  }

  lemma KeptNext(list: seq<string>, i: nat, n: string)
    requires i < |list|
    ensures var kept, e := Kept(list[..i], n), TrimSpace(list[i]);
      && Kept(list[..i + 1], n) == (if e == n then kept else kept + [e])
      && Sort(Sort(kept, Itself) + [e], Itself) == Sort(kept + [e], Itself)
  {
    assert list[..i + 1][..i] == list[..i];
    SortOfAppend(Kept(list[..i], n), TrimSpace(list[i]), Itself);
  }

  /** The value is rewritten inside the loop, so only when some entry is kept. */
  method WithoutNamespace(namespaces: string, n: string) returns (value: string)
    ensures value == Without(namespaces, n)
  {
    value := namespaces;
    var list := Split(namespaces, ',');
    var result: seq<string> := [];
    for i := 0 to |list|
      invariant result == Sort(Kept(list[..i], n), Itself)
      invariant value == Stored(namespaces, Kept(list[..i], n))
    {
      KeptNext(list, i, n);
      if TrimSpace(list[i]) == n {
        continue;
      }
      result := result + [TrimSpace(list[i])];
      result := Sort(result, Itself);
      value := Join(result, ',');
    }
    assert list[..|list|] == list;
  }
}
