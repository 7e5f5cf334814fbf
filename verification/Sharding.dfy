/** Number of replicas of the application controller (controllers/argocd/statefulset.go). */
module Sharding {

  newtype Int32 = x: int | -0x8000_0000 <= x < 0x8000_0000

  datatype Spec = Spec(dynamic: bool, enabled: bool, replicas: Int32, minShards: Int32, maxShards: Int32,
                       clustersPerShard: Int32)

  const DEFAULT_REPLICAS: Int32 := 1

  /** The bounds and the divisor after correction of nonsensical settings. */
  function MinShards(spec: Spec): Int32 {
    if spec.minShards < 1 then 1 else spec.minShards
  }

  function MaxShards(spec: Spec): Int32 {
    if spec.maxShards < MinShards(spec) then MinShards(spec) else spec.maxShards
  }

  function PerShard(spec: Spec): Int32 {
    if spec.clustersPerShard < 1 then 1 else spec.clustersPerShard
  }

  /** The number of shards that `clusters` clusters call for, within the bounds. */
  function Shards(spec: Spec, clusters: int): int {
    var wanted := clusters / (PerShard(spec) as int);
    if wanted < MinShards(spec) as int then MinShards(spec) as int
    else if wanted > MaxShards(spec) as int then MaxShards(spec) as int
    else wanted
  }

  /** `clusters` is the number of cluster secrets, if they can be `listed`. A count beyond 32
      bits is not modelled. */
  method GetApplicationControllerReplicaCount(spec: Spec, listed: bool, clusters: Int32) returns (r: Int32)
    requires clusters >= 0
    ensures spec.dynamic && listed ==> r as int == Shards(spec, clusters as int)
    ensures spec.dynamic && !listed ==> r == DEFAULT_REPLICAS
    ensures !spec.dynamic ==> r == if spec.enabled && spec.replicas != 0 then spec.replicas else DEFAULT_REPLICAS
  {
    var replicas := DEFAULT_REPLICAS;
    var minShards, maxShards := spec.minShards, spec.maxShards;
    if spec.dynamic {
      if minShards < 1 {
        minShards := 1;
      }
      if maxShards < minShards {
        maxShards := minShards;
      }
      var clustersPerShard := spec.clustersPerShard;
      if clustersPerShard < 1 {
        clustersPerShard := 1;
      }
      if !listed {
        return replicas;
      }
      replicas := clusters / clustersPerShard;
      if replicas < minShards {
        replicas := minShards;
      }
      if replicas > maxShards {
        replicas := maxShards;
      }
      return replicas;
    } else if spec.replicas != 0 && spec.enabled {
      return spec.replicas;
    }
    return replicas;
  }

  lemma MulMonotone(x: int, y: int, d: nat)
    ensures x <= y ==> x * d <= y * d
  {
    if x <= y {
      assert (y - x) * d >= 0;
    }
  }

  lemma DivideNext(a: nat, d: nat)
    requires d > 0
    ensures a / d <= (a + 1) / d <= a / d + 1
  {
    var q, q' := a / d, (a + 1) / d;
    assert a == q * d + a % d && a + 1 == q' * d + (a + 1) % d;
    MulMonotone(q' + 1, q, d);
    MulMonotone(q + 2, q', d);
  }

  /** One more cluster never removes a shard and adds at most one. */
  lemma OneMoreCluster(spec: Spec, clusters: nat)
    ensures Shards(spec, clusters) <= Shards(spec, clusters + 1) <= Shards(spec, clusters) + 1
    ensures MinShards(spec) as int <= Shards(spec, clusters) <= MaxShards(spec) as int
  {
    DivideNext(clusters, PerShard(spec) as int);
  }

  /** So the number of shards is monotone, and between two cluster counts it moves by no more
      than they differ. */
  lemma {:induction false} ShardsMonotone(spec: Spec, clusters: nat, more: nat)
    ensures Shards(spec, clusters) <= Shards(spec, clusters + more) <= Shards(spec, clusters) + more
  {
    if more > 0 {
      ShardsMonotone(spec, clusters, more - 1);
      OneMoreCluster(spec, clusters + more - 1);
    }
  }

  /** clustersPerShard is documented as the maximum per shard, but the division rounds down.
      The shards can take all clusters at that rate exactly when the lower bound applies, or
      when the clusters divide evenly and the upper bound does not apply. */
  lemma SharesSufficeIff(spec: Spec, clusters: nat)
    ensures var d := PerShard(spec) as int; var q := clusters / d;
      clusters <= Shards(spec, clusters) * d <==>
      q < MinShards(spec) as int || (q <= MaxShards(spec) as int && clusters % d == 0)
  {
    var d := PerShard(spec) as int;
    var q, r := clusters / d, Shards(spec, clusters);
    assert clusters == q * d + clusters % d;
    MulMonotone(q + 1, r, d);
    MulMonotone(r + 1, q, d);
  }

  /** A shard is full with `d` clusters: at most `clusters / d` shards are full. */
  lemma FullShards(clusters: nat, d: nat, r: int)
    requires d > 0
    ensures r <= clusters / d ==> r * d <= clusters
    ensures r >= clusters / d ==> clusters < (r + 1) * d
  {
    var q := clusters / d;
    assert clusters == q * d + clusters % d;
    MulMonotone(r, q, d);
    MulMonotone(q + 1, r + 1, d);
  }

  /** The corrected settings: the upper bound is at least the lower one, and both and the divisor
      are at least one; each is the setting itself wherever that is possible. */
  lemma SettingsCorrected(spec: Spec)
    ensures 1 <= MinShards(spec) <= MaxShards(spec) && 1 <= PerShard(spec)
    ensures MinShards(spec) == spec.minShards || (spec.minShards < 1 && MinShards(spec) == 1)
    ensures MaxShards(spec) == spec.maxShards || (spec.maxShards < MinShards(spec) && MaxShards(spec) == MinShards(spec))
    ensures PerShard(spec) == spec.clustersPerShard || (spec.clustersPerShard < 1 && PerShard(spec) == 1)
  {
  }

  /** The count is the number of full shards, moved into the bounds as little as needed. */
  lemma ShardsClamped(spec: Spec, clusters: nat)
    ensures var least, most, d := MinShards(spec) as int, MaxShards(spec) as int, PerShard(spec) as int;
      var r := Shards(spec, clusters);
      && least <= r <= most
      && (r > least ==> r * d <= clusters) && (r < most ==> clusters < (r + 1) * d)
  {
    FullShards(clusters, PerShard(spec) as int, Shards(spec, clusters));
  }

  lemma SharesFallShort() returns (spec: Spec, clusters: nat)
    ensures Shards(spec, clusters) < MaxShards(spec) as int
    ensures Shards(spec, clusters) * (spec.clustersPerShard as int) < clusters
  {
    spec, clusters := Spec(true, true, 0, 1, 10, 3), 5;
  }
}
