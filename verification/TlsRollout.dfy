/** Restarting workloads when a TLS secret changes (controllers/argocd/secret.go): the repo
    server secret and the Redis secret follow the same protocol with different workloads. */
module TlsRollout {
  import opened Lists

  datatype TLSSecret = Missing | OtherType | TLS(cert: Option<seq<bv8>>, key: Option<seq<bv8>>)

  /** The checksum of the secret, or None when the secret is not looked at. */
  function Observed(secret: TLSSecret, sha256: seq<bv8> -> string): Option<string> {
    match secret
    case OtherType => None
    case TLS(Some(cert), Some(key)) => Some(sha256(cert + key))
    case _ => Some("")
  }

  const REPO_ACTIONS := ["server", "repo-server", "application-controller"]

  function RedisActions(ha: bool): seq<string> {
    (if ha then ["redis-ha-configmap", "redis-ha-health-configmap", "redis-ha-haproxy", "redis-ha-server"] else ["redis"])
    + ["server", "repo-server", "application-controller"]
  }

  /** The workloads a rollout restarts, in order: those that do not exist are passed over, and
      the first request that is refused ends it. */
  function Restarted(actions: seq<string>, present: set<string>, refused: set<string>): seq<string> {
    if actions == [] then []
    else if actions[0] !in present then Restarted(actions[1..], present, refused)
    else if actions[0] in refused then []
    else [actions[0]] + Restarted(actions[1..], present, refused)
  }

  datatype State = State(checksum: string, log: seq<string>)

  /** Inputs of a reconciliation. `fetched` and `stored`: the secret can be looked up and the
      status can be updated; `refused` are the workloads whose restart request fails. The
      actions differ from one to another when the Redis setup changes. */
  datatype Input = Input(observed: Option<string>, actions: seq<string>, present: set<string>, refused: set<string>,
                         fetched: bool, stored: bool)

  /** The reconciliation sees a new checksum and stores it. */
  predicate Stores(checksum: string, i: Input) {
    i.fetched && i.stored && i.observed.Some? && i.observed.value != checksum
  }

  function Step(s: State, i: Input): State {
    if Stores(s.checksum, i) then State(i.observed.value, s.log + Restarted(i.actions, i.present, i.refused)) else s
  }

  class Reconciler {
    var checksum: string
    var log: seq<string>

    constructor ()
      ensures checksum == "" && log == []
    {
      checksum, log := "", [];
    }

    method ReconcileTLSSecret(secret: TLSSecret, sha256: seq<bv8> -> string, actions: seq<string>, present: set<string>,
                              refused: set<string>, fetched: bool, stored: bool) returns (ok: bool)
      modifies this
      ensures State(checksum, log) ==
        Step(old(State(checksum, log)), Input(Observed(secret, sha256), actions, present, refused, fetched, stored))
      ensures fetched && stored ==>
        match secret
        case TLS(Some(cert), Some(key)) => checksum == sha256(cert + key)
        case OtherType => checksum == old(checksum)
        case _ => checksum == ""
      ensures !fetched || !stored ==> checksum == old(checksum) && log == old(log)
      ensures ok <==>
        && fetched
        && (Observed(secret, sha256).Some? && Observed(secret, sha256).value != old(checksum) ==>
              stored && forall w :: w in actions && w in present ==> w !in refused)
    {
      if !fetched {
        return false;
      }
      var sum := "";
      match secret {
        case OtherType => return true;
        case Missing =>
        case TLS(cert, key) =>
          if cert.Some? && key.Some? {
            sum := sha256(cert.value + key.value);
          }
      }
      if checksum != sum {
        if !stored {
          return false;
        }
        checksum := sum;
        for j := 0 to |actions|
          invariant checksum == sum
          invariant log + Restarted(actions[j..], present, refused) == old(log) + Restarted(actions, present, refused)
          invariant forall w :: w in actions[..j] && w in present ==> w !in refused
        {
          var w := actions[j];
          assert actions[j..][0] == w && actions[j..][1..] == actions[j + 1..];
          if w in present {
            if w in refused {
              assert Restarted(actions[j..], present, refused) == [];
              return false;
            }
            log := log + [w];
          }
        }
        assert actions[|actions|..] == [] && actions[..|actions|] == actions;
      }
      ok := true;
    }
  }

  // ---- Which workloads a rollout reaches ----

  /** The workload at position `k` exists, and no existing workload up to it is refused. */
  predicate ReachedAt(i: Input, k: nat) {
    && k < |i.actions| && i.actions[k] in i.present
    && forall j :: 0 <= j <= k && i.actions[j] in i.present ==> i.actions[j] !in i.refused
  }

  ghost predicate Reached(i: Input, w: string) {
    exists k: nat :: ReachedAt(i, k) && i.actions[k] == w
  }

  /** A rollout restarts a workload once if it is reached and not at all otherwise. */
  lemma {:induction false} RestartedIff(i: Input, w: string)
    requires Distinct(i.actions)
    ensures multiset(Restarted(i.actions, i.present, i.refused))[w] == if Reached(i, w) then 1 else 0
    decreases |i.actions|
  {
    if i.actions != [] {
      var first, rest := i.actions[0], i.(actions := i.actions[1..]);
      RestartedIff(rest, w);
      ReachedNext(i, w);
      if first in i.present && first !in i.refused {
        assert multiset([first] + Restarted(rest.actions, i.present, i.refused))
            == multiset{first} + multiset(Restarted(rest.actions, i.present, i.refused));
      }
    }
  }

  lemma ReachedNext(i: Input, w: string)
    requires i.actions != [] && Distinct(i.actions)
    ensures var first, rest := i.actions[0], i.(actions := i.actions[1..]);
      && (Reached(i, w) <==>
            !(first in i.present && first in i.refused) && ((first == w && first in i.present) || Reached(rest, w)))
      && !Reached(rest, first)
  {
    var first, rest := i.actions[0], i.(actions := i.actions[1..]);
    if Reached(i, w) {
      var k: nat :| ReachedAt(i, k) && i.actions[k] == w;
      if k > 0 {
        assert ReachedAt(rest, k - 1);
      }
    }
    if !(first in i.present && first in i.refused) {
      if first == w && first in i.present {
        assert ReachedAt(i, 0);
      } else if Reached(rest, w) {
        var k: nat :| ReachedAt(rest, k) && rest.actions[k] == w;
        assert forall j :: 0 < j <= k + 1 ==> i.actions[j] == rest.actions[j - 1];
        assert ReachedAt(i, k + 1);
      }
    }
  }

  lemma ActionsDistinct(ha: bool)
    ensures Distinct(REPO_ACTIONS) && Distinct(RedisActions(ha))
  {
    assert REPO_ACTIONS == ["server", "repo-server", "application-controller"];
    assert |"server"| == 6 && |"repo-server"| == 11 && |"application-controller"| == 22;
    assert |"redis"| == 5 && |"redis-ha-configmap"| == 18 && |"redis-ha-health-configmap"| == 25;
    assert |"redis-ha-haproxy"| == 16 && |"redis-ha-server"| == 15;
  }

  // ---- Runs ----

  function Run(s: State, inputs: seq<Input>): State {
    if inputs == [] then s else Step(Run(s, inputs[..|inputs| - 1]), inputs[|inputs| - 1])
  }

  function Restarts(s: State, w: string): int {
    multiset(s.log)[w]
  }

  /** No workload occurs twice in a list of actions. */
  ghost predicate Proper(inputs: seq<Input>) {
    forall i :: i in inputs ==> Distinct(i.actions)
  }

  lemma StepRestarts(s: State, i: Input, w: string)
    requires Distinct(i.actions)
    ensures Restarts(Step(s, i), w) == Restarts(s, w) + if Stores(s.checksum, i) && Reached(i, w) then 1 else 0
  {
    RestartedIff(i, w);
  }

  /** The checksum last seen, starting from the stored one, and how often it changed. */
  function LastSeen(checksum: string, inputs: seq<Input>): string {
    if inputs == [] then checksum
    else if inputs[|inputs| - 1].observed.Some? then inputs[|inputs| - 1].observed.value
    else LastSeen(checksum, inputs[..|inputs| - 1])
  }

  function Changes(checksum: string, inputs: seq<Input>): nat {
    if inputs == [] then 0
    else
      var front := inputs[..|inputs| - 1];
      Changes(checksum, front) + if LastSeen(checksum, inputs) != LastSeen(checksum, front) then 1 else 0
  }

  /** Over any run, with any failures, a workload is restarted at most once per change of the
      secret; a change that is seen but not stored yet is still to be accounted for. */
  lemma {:induction false} RestartsBounded(s: State, inputs: seq<Input>, w: string)
    requires Proper(inputs)
    ensures var end := Run(s, inputs);
      Restarts(end, w) + (if end.checksum != LastSeen(s.checksum, inputs) then 1 else 0)
        <= Restarts(s, w) + Changes(s.checksum, inputs)
  {
    if inputs != [] {
      var n := |inputs| - 1;
      RestartsBounded(s, inputs[..n], w);
      StepRestarts(Run(s, inputs[..n]), inputs[n], w);
    }
  }

  /** The secret does not change during the inputs: whenever it is looked at it is `seen`. */
  ghost predicate Quiet(inputs: seq<Input>, seen: string) {
    forall i :: i in inputs && i.observed.Some? ==> i.observed.value == seen
  }

  /** Position of the first reconciliation that stores the checksum `seen`. */
  function FirstStored(inputs: seq<Input>): nat {
    if inputs == [] || (inputs[0].fetched && inputs[0].stored && inputs[0].observed.Some?) then 0
    else 1 + FirstStored(inputs[1..])
  }

  lemma {:induction false} RunFromFirst(s: State, inputs: seq<Input>)
    requires inputs != []
    ensures Run(s, inputs) == Run(Step(s, inputs[0]), inputs[1..])
  {
    var n := |inputs| - 1;
    if n > 0 {
      RunFromFirst(s, inputs[..n]);
      assert inputs[..n][1..] == inputs[1..][..n - 1];
    } else {
      assert inputs[1..] == [] && inputs[..0] == [];
    }
  }

  /** A checksum that is stored is final until the secret changes: nothing is restarted, and
      what was missed stays missed. */
  lemma {:induction false} StoredIsFinal(s: State, inputs: seq<Input>)
    requires Quiet(inputs, s.checksum)
    ensures Run(s, inputs) == s
  {
    if inputs != [] {
      var n := |inputs| - 1;
      StoredIsFinal(s, inputs[..n]);
      assert inputs[n] in inputs;
    }
  }

  /** The exact number of restarts of a workload between two changes of the secret: one if the
      first reconciliation that stores the new checksum reaches it, none otherwise, however
      many reconciliations follow. */
  lemma {:induction false} RestartedOnceIff(s: State, inputs: seq<Input>, seen: string, w: string)
    requires Proper(inputs) && Quiet(inputs, seen) && s.checksum != seen
    ensures var k := FirstStored(inputs);
      Restarts(Run(s, inputs), w) == Restarts(s, w) + if k < |inputs| && Reached(inputs[k], w) then 1 else 0
  {
    if inputs != [] {
      var first, rest := inputs[0], inputs[1..];
      assert first in inputs;
      assert forall i :: i in rest ==> i in inputs;
      RunFromFirst(s, inputs);
      StepRestarts(s, first, w);
      if Stores(s.checksum, first) {
        StoredIsFinal(Step(s, first), rest);
      } else {
        RestartedOnceIff(s, rest, seen, w);
      }
    }
  }

  /** A certificate or a key that changes the checksum restarts every workload that is reached
      once more: a pass over the second secret after one over the first. */
  lemma RenewalRestarts(s: State, sha256: seq<bv8> -> string, cert: seq<bv8>, key: seq<bv8>, cert': seq<bv8>, key': seq<bv8>,
                        first: Input, second: Input, w: string)
    requires sha256(cert + key) != sha256(cert' + key')
    requires first.observed == Observed(TLS(Some(cert), Some(key)), sha256) && first.fetched && first.stored
    requires second.observed == Observed(TLS(Some(cert'), Some(key')), sha256) && second.fetched && second.stored
    requires Distinct(second.actions)
    ensures var once := Step(s, first); var twice := Step(once, second);
      && once.checksum == sha256(cert + key) && twice.checksum == sha256(cert' + key')
      && Restarts(twice, w) == Restarts(once, w) + if Reached(second, w) then 1 else 0
  {
    StepRestarts(Step(s, first), second, w);
  }

  /** A rollout in which nothing is missing or refused restarts all workloads in order. */
  lemma {:induction false} CompleteRollout(actions: seq<string>, present: set<string>, refused: set<string>)
    requires forall w :: w in actions ==> w in present && w !in refused
    ensures Restarted(actions, present, refused) == actions
  {
    if actions != [] {
      CompleteRollout(actions[1..], present, refused);
    }
  }

  /** A change of the repo server secret restarts server, repo server and application controller,
      one of the Redis secret also the Redis workloads, before them. */
  lemma RolloutOrder(ha: bool, present: set<string>)
    requires forall w :: w in REPO_ACTIONS || w in RedisActions(ha) ==> w in present
    ensures Restarted(REPO_ACTIONS, present, {}) == ["server", "repo-server", "application-controller"]
    ensures Restarted(RedisActions(ha), present, {}) ==
      (if ha then ["redis-ha-configmap", "redis-ha-health-configmap", "redis-ha-haproxy", "redis-ha-server"] else ["redis"])
      + ["server", "repo-server", "application-controller"]
  {
    CompleteRollout(REPO_ACTIONS, present, {});
    CompleteRollout(RedisActions(ha), present, {});
  }

  /** So between two changes every workload is restarted at most once. */
  lemma AtMostOneRestart(s: State, inputs: seq<Input>, seen: string, w: string)
    requires Proper(inputs) && Quiet(inputs, seen)
    ensures Restarts(s, w) <= Restarts(Run(s, inputs), w) <= Restarts(s, w) + 1
  {
    if s.checksum == seen {
      StoredIsFinal(s, inputs);
    } else {
      RestartedOnceIff(s, inputs, seen, w);
    }
  }

  /** The comment in the code expects a missed restart only when the checksum cannot be
      stored; it happens when the restart itself fails after storing it, however often the
      reconciliation is repeated afterwards. */
  lemma RestartMissed(again: seq<Input>) returns (first: Input)
    requires Proper(again) && Quiet(again, "new")
    ensures first.actions == REPO_ACTIONS && (forall w :: w in REPO_ACTIONS ==> w in first.present) && first.stored
    ensures first.observed == Some("new") && Run(State("old", []), [first] + again) == State("new", [])
  {
    first := Input(Some("new"), REPO_ACTIONS, set w | w in REPO_ACTIONS, {"server"}, true, true);
    assert "new" != "old" by {
      assert "new"[0] != "old"[0];
    }
    var inputs := [first] + again;
    assert inputs[0] == first && inputs[1..] == again;
    RunFromFirst(State("old", []), inputs);
    assert REPO_ACTIONS[0] == "server" && REPO_ACTIONS[0] in first.present;
    assert Restarted(first.actions, first.present, first.refused) == [];
    var start := State("old", []);
    assert Stores(start.checksum, first);
    assert Step(start, first) == State("new", []);
    StoredIsFinal(Step(start, first), again);
  }
}
