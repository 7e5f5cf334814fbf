/** The stateful set of the application controller (controllers/argocd/statefulset.go), its
    command line (controllers/argocd/util.go and deployment.go) and its environment. */
module ControllerStatefulSet {
  import opened Api
  import opened Lists
  import opened Environment

  /** Inputs of a pass. Values the pass only copies are opaque; the three environments are
      those of the spec, of the operator and of the proxy settings. */
  datatype Spec = Spec(
    enabled: bool, verifyRepoTLS: bool,
    operationProcessors: string, statusProcessors: string, parallelismLimit: string,
    redis: Option<string>, useTLSForRedis: bool, redisInsecure: bool, repo: Option<string>,
    sourceNamespaces: seq<string>, logLevel: string, logFormat: string, extraArgs: seq<string>,
    specEnv: seq<EnvVar>, operatorEnv: seq<EnvVar>, proxyEnv: seq<EnvVar>,
    pod: Pod)

  /** Fields of the pod template and of the set that are compared and copied one by one. */
  datatype Pod = Pod(image: string, placement: string, initContainers: string, volumes: string, volumeMounts: string,
                     resources: string, replicas: int, sidecars: string)

  datatype StatefulSet = StatefulSet(pod: Pod, command: seq<string>, env: seq<EnvVar>, stamp: Option<string>)

  predicate IsFlag(arg: string) {
    |arg| > 2 && arg[..2] == "--"
  }

  /** No flag among the extra arguments is already on the command line. */
  predicate Mergable(extraArgs: seq<string>, cmd: seq<string>) {
    forall i :: 0 <= i < |extraArgs| && IsFlag(extraArgs[i]) ==> extraArgs[i] !in cmd
  }

  method IsMergable(extraArgs: seq<string>, cmd: seq<string>) returns (ok: bool)
    ensures ok <==> Mergable(extraArgs, cmd)
  {
    for i := 0 to |extraArgs|
      invariant forall j :: 0 <= j < i && IsFlag(extraArgs[j]) ==> extraArgs[j] !in cmd
    {
      if |extraArgs[i]| > 2 && extraArgs[i][..2] == "--" {
        if extraArgs[i] in cmd {
          return false;
        }
      }
    }
    return true;
  }

  /** A flag is two dashes and a name; extra arguments are refused exactly for a flag that is
      already there, whatever else they have in common with the command line. */
  lemma RefusedIff(extraArgs: seq<string>, cmd: seq<string>)
    ensures !Mergable(extraArgs, cmd) <==> exists arg :: arg in extraArgs && arg in cmd && IsFlag(arg)
    ensures forall arg :: IsFlag(arg) <==> exists name :: name != "" && arg == "--" + name
  {
    forall arg ensures IsFlag(arg) <==> exists name :: name != "" && arg == "--" + name {
      if IsFlag(arg) {
        assert arg == "--" + arg[2..];
      }
    }
    if !Mergable(extraArgs, cmd) {
      var i :| 0 <= i < |extraArgs| && IsFlag(extraArgs[i]) && extraArgs[i] in cmd;
      assert extraArgs[i] in extraArgs;
    }
  }

  function RedisArgs(spec: Spec): seq<string> {
    if spec.redis.Some? then ["--redis", spec.redis.value] else []
  }

  function RedisTLSArgs(spec: Spec): seq<string> {
    if !spec.useTLSForRedis then []
    else if spec.redisInsecure then ["--redis-use-tls", "--redis-insecure-skip-tls-verify"]
    else ["--redis-use-tls", "--redis-ca-certificate", "/app/config/controller/tls/redis/tls.crt"]
  }

  function RepoArgs(spec: Spec): seq<string> {
    if spec.repo.Some? then ["--repo-server", spec.repo.value] else []
  }

  function NamespaceArgs(spec: Spec): seq<string> {
    if |spec.sourceNamespaces| > 0 then ["--application-namespaces", Join(spec.sourceNamespaces, ',')] else []
  }

  /** The command line without extra arguments. */
  function OwnCommand(spec: Spec): seq<string> {
    ["argocd-application-controller", "--operation-processors", spec.operationProcessors]
    + RedisArgs(spec) + RedisTLSArgs(spec) + RepoArgs(spec)
    + ["--status-processors", spec.statusProcessors] + ["--kubectl-parallelism-limit", spec.parallelismLimit]
    + NamespaceArgs(spec)
    + ["--loglevel", spec.logLevel] + ["--logformat", spec.logFormat]
  }

  /** Extra arguments are taken over all together or not at all. */
  function Command(spec: Spec): seq<string> {
    if Mergable(spec.extraArgs, OwnCommand(spec)) then OwnCommand(spec) + spec.extraArgs else OwnCommand(spec)
  }

  const STRICT_TLS := "--repo-server-strict-tls"

  /** The command line the update path asks for. */
  function UpdatedCommand(spec: Spec): seq<string> {
    if spec.verifyRepoTLS then Command(spec) + [STRICT_TLS] else Command(spec)
  }

  method GetArgoApplicationControllerCommand(spec: Spec) returns (cmd: seq<string>)
    ensures cmd == Command(spec)
  {
    cmd := ["argocd-application-controller", "--operation-processors", spec.operationProcessors];
    ghost var own := cmd;
    if spec.redis.Some? {
      cmd := cmd + ["--redis", spec.redis.value];
    }
    own := own + RedisArgs(spec);
    assert cmd == own;
    if spec.useTLSForRedis {
      cmd := cmd + ["--redis-use-tls"];
      if spec.redisInsecure {
        cmd := cmd + ["--redis-insecure-skip-tls-verify"];
      } else {
        cmd := cmd + ["--redis-ca-certificate", "/app/config/controller/tls/redis/tls.crt"];
      }
    }
    own := own + RedisTLSArgs(spec);
    assert cmd == own;
    if spec.repo.Some? {
      cmd := cmd + ["--repo-server", spec.repo.value];
    }
    own := own + RepoArgs(spec);
    assert cmd == own;
    cmd := cmd + ["--status-processors", spec.statusProcessors];
    cmd := cmd + ["--kubectl-parallelism-limit", spec.parallelismLimit];
    own := own + ["--status-processors", spec.statusProcessors] + ["--kubectl-parallelism-limit", spec.parallelismLimit];
    if |spec.sourceNamespaces| > 0 {
      cmd := cmd + ["--application-namespaces", Join(spec.sourceNamespaces, ',')];
    }
    own := own + NamespaceArgs(spec);
    assert cmd == own;
    cmd := cmd + ["--loglevel", spec.logLevel];
    cmd := cmd + ["--logformat", spec.logFormat];
    assert cmd == OwnCommand(spec);
    var ok := IsMergable(spec.extraArgs, cmd);
    if !ok {
      return;
    }
    cmd := cmd + spec.extraArgs;
  }

  /** Extra arguments come last, and bring no flag the operator already set. */
  lemma ExtraArgsComeLast(spec: Spec)
    ensures OwnCommand(spec) <= Command(spec)
    ensures var extra := Command(spec)[|OwnCommand(spec)|..];
      && (extra == spec.extraArgs || extra == [])
      && forall i :: 0 <= i < |extra| && IsFlag(extra[i]) ==> extra[i] !in OwnCommand(spec)
  {
    if Mergable(spec.extraArgs, OwnCommand(spec)) {
      assert (OwnCommand(spec) + spec.extraArgs)[|OwnCommand(spec)|..] == spec.extraArgs;
    }
  }

  /** The arguments occur in the list one right after the other. */
  ghost predicate Has(cmd: seq<string>, part: seq<string>) {
    exists i: int :: OccursAt(cmd, part, i)
  }

  predicate OccursAt(cmd: seq<string>, part: seq<string>, i: int) {
    0 <= i <= |cmd| - |part| && cmd[i..i + |part|] == part
  }

  lemma HasMiddle(before: seq<string>, part: seq<string>, after: seq<string>)
    ensures Has(before + part + after, part)
  {
    assert OccursAt(before + part + after, part, |before|);
  }

  /** The operator's own command line has these arguments, each if it applies, and no others. */
  lemma OwnArguments(spec: Spec)
    ensures var cmd := OwnCommand(spec);
      && Has(cmd, ["argocd-application-controller", "--operation-processors", spec.operationProcessors])
      && Has(cmd, ["--status-processors", spec.statusProcessors])
      && Has(cmd, ["--kubectl-parallelism-limit", spec.parallelismLimit])
      && Has(cmd, ["--loglevel", spec.logLevel]) && Has(cmd, ["--logformat", spec.logFormat])
      && (spec.redis.Some? ==> Has(cmd, ["--redis", spec.redis.value]))
      && (spec.repo.Some? ==> Has(cmd, ["--repo-server", spec.repo.value]))
      && (spec.sourceNamespaces != [] ==> Has(cmd, ["--application-namespaces", Join(spec.sourceNamespaces, ',')]))
      && (spec.useTLSForRedis && spec.redisInsecure ==> Has(cmd, ["--redis-use-tls", "--redis-insecure-skip-tls-verify"]))
      && (spec.useTLSForRedis && !spec.redisInsecure ==>
            Has(cmd, ["--redis-use-tls", "--redis-ca-certificate", "/app/config/controller/tls/redis/tls.crt"]))
    ensures |OwnCommand(spec)| == 11 + (if spec.redis.Some? then 2 else 0) + (if spec.repo.Some? then 2 else 0)
      + (if spec.sourceNamespaces != [] then 2 else 0)
      + (if !spec.useTLSForRedis then 0 else if spec.redisInsecure then 2 else 3)
  {
    var parts := OwnParts(spec);
    OwnIsConcat(spec);
    forall i | 0 <= i < |parts| ensures Has(OwnCommand(spec), parts[i]) {
      HasPart(parts, i);
    }
    assert Has(OwnCommand(spec), parts[0]) && Has(OwnCommand(spec), parts[1]) && Has(OwnCommand(spec), parts[2]);
    assert Has(OwnCommand(spec), parts[3]) && Has(OwnCommand(spec), parts[4]) && Has(OwnCommand(spec), parts[5]);
    assert Has(OwnCommand(spec), parts[6]) && Has(OwnCommand(spec), parts[7]) && Has(OwnCommand(spec), parts[8]);
  }

  function OwnParts(spec: Spec): seq<seq<string>> {
    [["argocd-application-controller", "--operation-processors", spec.operationProcessors],
     RedisArgs(spec), RedisTLSArgs(spec), RepoArgs(spec),
     ["--status-processors", spec.statusProcessors], ["--kubectl-parallelism-limit", spec.parallelismLimit],
     NamespaceArgs(spec), ["--loglevel", spec.logLevel], ["--logformat", spec.logFormat]]
  }

  lemma OwnIsConcat(spec: Spec)
    ensures OwnCommand(spec) == Concat(OwnParts(spec))
  {
    var p := OwnParts(spec);
    LeftToRight(p);
    assert p[..9] == p;
  }

  lemma LeftToRight(p: seq<seq<string>>)
    requires |p| == 9
    ensures Concat(p[..9]) == p[0] + p[1] + p[2] + p[3] + p[4] + p[5] + p[6] + p[7] + p[8]
  {
    ConcatNext(p, 0);
    ConcatNext(p, 1);
    ConcatNext(p, 2);
    ConcatNext(p, 3);
    ConcatNext(p, 4);
    ConcatNext(p, 5);
    ConcatNext(p, 6);
    ConcatNext(p, 7);
    ConcatNext(p, 8);
    assert Concat(p[..0]) + p[0] == p[0];
  }

  lemma HasPart(parts: seq<seq<string>>, i: nat)
    requires i < |parts|
    ensures Has(Concat(parts), parts[i])
  {
    ConcatSplit(parts, i);
    HasMiddle(Concat(parts[..i]), parts[i], Concat(parts[i + 1..]));
  }

  function Concat(p: seq<seq<string>>): seq<string> {
    if p == [] then [] else Concat(p[..|p| - 1]) + p[|p| - 1]
  }

  lemma {:induction false} ConcatSplit(p: seq<seq<string>>, i: nat)
    requires i < |p|
    ensures Concat(p) == Concat(p[..i]) + p[i] + Concat(p[i + 1..])
  {
    var n := |p| - 1;
    if i < n {
      ConcatSplit(p[..n], i);
      assert p[..n][..i] == p[..i] && p[..n][i + 1..] == p[i + 1..][..n - i - 1];
      assert Concat(p[i + 1..]) == Concat(p[i + 1..][..n - i - 1]) + p[n];
    } else {
      assert p[i + 1..] == [];
    }
  }

  lemma ConcatNext(p: seq<seq<string>>, k: nat)
    requires k < |p|
    ensures Concat(p[..k + 1]) == Concat(p[..k]) + p[k]
  {
    assert p[..k + 1][..k] == p[..k];
  }

  /** The strict TLS flag comes after the extra arguments and is not compared with them, so the
      set gets it twice exactly when it is already among the arguments taken over, or a value
      of the operator's own. */
  lemma StrictTLSTwiceIff(spec: Spec)
    requires spec.verifyRepoTLS
    ensures OwnCommand(spec) <= UpdatedCommand(spec) && UpdatedCommand(spec)[|UpdatedCommand(spec)| - 1] == STRICT_TLS
    ensures multiset(UpdatedCommand(spec))[STRICT_TLS] > 1 <==>
      STRICT_TLS in OwnCommand(spec) || (STRICT_TLS in spec.extraArgs && Mergable(spec.extraArgs, OwnCommand(spec)))
  {
    AppendedTwiceIff(OwnCommand(spec), spec.extraArgs, Mergable(spec.extraArgs, OwnCommand(spec)), STRICT_TLS);
  }

  lemma AppendedTwiceIff(own: seq<string>, extra: seq<string>, taken: bool, flag: string)
    ensures var cmd := (if taken then own + extra else own) + [flag];
      && own <= cmd && cmd[|cmd| - 1] == flag
      && (multiset(cmd)[flag] > 1 <==> flag in own || (flag in extra && taken))
  {
    var cmd := if taken then own + extra else own;
    assert multiset(cmd + [flag]) == multiset(cmd) + multiset{flag};
    assert flag in cmd <==> flag in multiset(cmd);
  }

  lemma StrictTLSTwice() returns (spec: Spec)
    ensures spec.verifyRepoTLS && STRICT_TLS !in OwnCommand(spec)
    ensures multiset(UpdatedCommand(spec))[STRICT_TLS] == 2
  {
    spec := Spec(true, true, "10", "20", "10", None, false, false, None, [], "info", "text", [STRICT_TLS], [], [], [],
                 Pod("", "", "", "", "", "", 1, ""));
    var own := OwnCommand(spec);
    assert |STRICT_TLS| == 24;
    assert forall i :: 0 <= i < |own| ==> |own[i]| != 24;
    assert UpdatedCommand(spec) == own + [STRICT_TLS] + [STRICT_TLS];
    assert multiset(own + [STRICT_TLS] + [STRICT_TLS]) == multiset(own) + multiset{STRICT_TLS, STRICT_TLS};
  }

  /** The environment: the operator's values override the spec's, proxy settings only fill in. */
  ghost predicate IsEnv(spec: Spec, env: seq<EnvVar>) {
    exists merged :: Merged(spec.specEnv, spec.operatorEnv, true, merged) && Merged(merged, spec.proxyEnv, false, env)
  }

  lemma EnvUnique(spec: Spec, env: seq<EnvVar>, env': seq<EnvVar>)
    requires IsEnv(spec, env) && IsEnv(spec, env')
    ensures env == env'
  {
    var merged :| Merged(spec.specEnv, spec.operatorEnv, true, merged) && Merged(merged, spec.proxyEnv, false, env);
    var merged' :| Merged(spec.specEnv, spec.operatorEnv, true, merged') && Merged(merged', spec.proxyEnv, false, env');
    MergedUnique(spec.specEnv, spec.operatorEnv, true, merged, merged');
    MergedUnique(merged, spec.proxyEnv, false, env, env');
  }

  /** A variable has the value the operator gives it, else the one of the spec, and only without
      either the one of the proxy settings; repeated entries of the proxy settings lose. */
  lemma EnvLookup(spec: Spec, env: seq<EnvVar>, name: string)
    requires IsEnv(spec, env)
    ensures First(env, name) ==
      if Last(spec.operatorEnv, name).Some? then Last(spec.operatorEnv, name)
      else if Last(spec.specEnv, name).Some? then Last(spec.specEnv, name)
      else First(spec.proxyEnv, name)
  {
    var merged :| Merged(spec.specEnv, spec.operatorEnv, true, merged) && Merged(merged, spec.proxyEnv, false, env);
    MergedLookup(spec.specEnv, spec.operatorEnv, true, merged, name);
    MergedLookup(merged, spec.proxyEnv, false, env, name);
  }

  function Updated(spec: Spec, env: seq<EnvVar>, now: string, existing: StatefulSet): StatefulSet {
    StatefulSet(spec.pod, UpdatedCommand(spec), env, if existing.pod.image == spec.pod.image then existing.stamp else Some(now))
  }

  /** Where a pass takes the set when no pod is broken. */
  function After(spec: Spec, env: seq<EnvVar>, now: string, before: Option<StatefulSet>): Option<StatefulSet> {
    if !spec.enabled then None
    else if before.Some? then Some(Updated(spec, env, now, before.value))
    else Some(StatefulSet(spec.pod, Command(spec), env, None))
  }

  method UpdatePod(fetched: Pod, desired: Pod) returns (changed: bool, pod: Pod)
    ensures pod == desired && (changed <==> fetched != desired)
  {
    changed, pod := false, fetched;
    if pod.image != desired.image {
      pod := pod.(image := desired.image);
      changed := true;
    }
    if pod.placement != desired.placement {
      pod := pod.(placement := desired.placement);
      changed := true;
    }
    if pod.initContainers != desired.initContainers {
      pod := pod.(initContainers := desired.initContainers);
      changed := true;
    }
    if pod.volumes != desired.volumes {
      pod := pod.(volumes := desired.volumes);
      changed := true;
    }
    if pod.volumeMounts != desired.volumeMounts {
      pod := pod.(volumeMounts := desired.volumeMounts);
      changed := true;
    }
    if pod.resources != desired.resources {
      pod := pod.(resources := desired.resources);
      changed := true;
    }
    if pod.replicas != desired.replicas {
      pod := pod.(replicas := desired.replicas);
      changed := true;
    }
    if pod.sidecars != desired.sidecars {
      pod := pod.(sidecars := desired.sidecars);
      changed := true;
    }
  }

  method UpdateFields(spec: Spec, env: seq<EnvVar>, command: seq<string>, fetched: StatefulSet, now: string)
    returns (changed: bool, existing: StatefulSet)
    ensures existing == StatefulSet(spec.pod, command, env,
                                    if fetched.pod.image == spec.pod.image then fetched.stamp else Some(now))
    ensures changed <==> existing != fetched
  {
    existing := fetched;
    if existing.pod.image != spec.pod.image {
      existing := existing.(stamp := Some(now));
    }
    var pod;
    changed, pod := UpdatePod(existing.pod, spec.pod);
    existing := existing.(pod := pod);
    if existing.command != command {
      existing := existing.(command := command);
      changed := true;
    }
    if existing.env != env {
      existing := existing.(env := env);
      changed := true;
    }
  }

  class Reconciler {
    var existing: Option<StatefulSet>
    var failures: nat
    var writes: nat

    constructor (existing: Option<StatefulSet>)
      ensures this.existing == existing && failures == 0 && writes == 0
    {
      this.existing, failures, writes := existing, 0, 0;
    }

    method Write(value: Option<StatefulSet>) returns (ok: bool)
      modifies this
      ensures failures == old(failures) + if ok then 0 else 1
      ensures writes == old(writes) + if ok then 1 else 0
      ensures existing == if ok then value else old(existing)
    {
      ok, failures := Request(failures);
      if ok {
        writes, existing := writes + 1, value;
      }
    }

    /** `broken`: the first pod cannot pull its image, so the set is deleted first. A pass that
        fails leaves the set as it was, or without it when it is broken. */
    method ReconcileApplicationControllerStatefulSet(spec: Spec, broken: bool, now: string)
      returns (ok: bool, ghost env: seq<EnvVar>)
      modifies this
      ensures IsEnv(spec, env) && failures >= old(failures)
      ensures failures == old(failures) && !broken ==> ok
      ensures ok ==> existing == After(spec, env, now, if broken then None else old(existing))
      ensures ok && !broken ==> writes == old(writes) + if existing == old(existing) then 0 else 1
      ensures ok && broken ==> writes > old(writes)
      ensures !ok ==> existing == old(existing) || (broken && existing.None?)
      ensures !ok ==> writes == old(writes) + if existing == old(existing) then 0 else 1
    {
      var merged := EnvMerge(spec.specEnv, spec.operatorEnv, true);
      var controllerEnv := EnvMerge(merged, spec.proxyEnv, false);
      env := controllerEnv;
      var command := GetArgoApplicationControllerCommand(spec);
      if broken {
        if existing.None? {
          return false, env;
        }
        ok := Write(None);
        if !ok {
          return;
        }
      }
      if existing.Some? {
        if !spec.enabled {
          ok := Write(None);
          return;
        }
        var desiredCommand := command;
        if spec.verifyRepoTLS {
          desiredCommand := desiredCommand + [STRICT_TLS];
        }
        var changed, updated := UpdateFields(spec, controllerEnv, desiredCommand, existing.value, now);
        if changed {
          ok := Write(Some(updated));
          return;
        }
        return true, env;
      }
      if !spec.enabled {
        return true, env;
      }
      ok := Write(Some(StatefulSet(spec.pod, command, controllerEnv, None)));
    }
  }

  /** One completed pass as the method above ensures it, at some time and with some
      environment it computed. */
  ghost predicate Pass(spec: Spec, before: Option<StatefulSet>, after: Option<StatefulSet>) {
    exists env, now :: IsEnv(spec, env) && after == After(spec, env, now, before)
  }

  /** From any state two passes reach a fixed point, the set the spec asks for: a third pass,
      at any later time, finds nothing to change. */
  lemma FixedAfterTwo(spec: Spec, s0: Option<StatefulSet>, s1: Option<StatefulSet>, s2: Option<StatefulSet>,
                      s3: Option<StatefulSet>)
    requires Pass(spec, s0, s1) && Pass(spec, s1, s2) && Pass(spec, s2, s3)
    ensures s3 == s2
    ensures s2.Some? <==> spec.enabled
    ensures s2.Some? ==> s2.value.pod == spec.pod && s2.value.command == UpdatedCommand(spec) && IsEnv(spec, s2.value.env)
  {
    var env1, now1 :| IsEnv(spec, env1) && s1 == After(spec, env1, now1, s0);
    var env2, now2 :| IsEnv(spec, env2) && s2 == After(spec, env2, now2, s1);
    var env3, now3 :| IsEnv(spec, env3) && s3 == After(spec, env3, now3, s2);
    EnvUnique(spec, env1, env2);
    EnvUnique(spec, env2, env3);
  }

  /** The time of the pass is left on the set exactly when the pass changes the image of one that
      exists. */
  lemma UpgradeStamped(spec: Spec, env: seq<EnvVar>, now: string, before: Option<StatefulSet>)
    requires spec.enabled
    ensures var after := After(spec, env, now, before);
      && after.Some? && (before.None? ==> after.value.stamp.None?)
      && (before.Some? && before.value.pod.image == spec.pod.image ==> after.value.stamp == before.value.stamp)
      && (before.Some? && before.value.pod.image != spec.pod.image ==> after.value.stamp == Some(now))
  {
  }

  /** One pass is enough except when it creates the set with strict TLS towards the repo
      server, since the create path leaves the flag out. */
  lemma FixedAfterOneIff(spec: Spec, s0: Option<StatefulSet>, s1: Option<StatefulSet>, s2: Option<StatefulSet>)
    requires Pass(spec, s0, s1) && Pass(spec, s1, s2)
    ensures s2 == s1 <==> !(spec.enabled && s0.None? && spec.verifyRepoTLS)
  {
    var env1, now1 :| IsEnv(spec, env1) && s1 == After(spec, env1, now1, s0);
    var env2, now2 :| IsEnv(spec, env2) && s2 == After(spec, env2, now2, s1);
    EnvUnique(spec, env1, env2);
    assert |Command(spec) + [STRICT_TLS]| != |Command(spec)|;
  }
}
