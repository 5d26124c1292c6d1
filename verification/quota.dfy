/** Resource resolution: how a pod's CPU and memory requests and limits are
    derived from its quota, the configured environment name and the
    template's flag word. */
module Quota {
  import Strings
  import V1

  /** `K8sQuota`: the quota a pod is created against. The four quantities are
      opaque (`Q`); `scope` names the priority class and `javaOpts` is handed
      to the JVM through the environment. */
  datatype K8sQuota<Q> = K8sQuota(
    requestCPU: Q,
    requestMemory: Q,
    limitCPU: Q,
    limitMemory: Q,
    scope: string,
    javaOpts: string)

  /** Bit 0 of the template's flag word allows memory oversubscription.
      The flag word is an `int64`; it is held here as its 64-bit pattern. */
  const MemOversubscribeFlag: bv64 := 1 << 0

  /** The oversubscription bit is set exactly when the flag word is odd. */
  predicate OversubscribesMemory(flags: bv64)
    ensures OversubscribesMemory(flags) <==> flags % 2 == 1
  {
    flags & MemOversubscribeFlag != 0
  }

  /** The production test: the environment name equals "pro" ignoring case,
      which accepts exactly its eight spellings. */
  predicate IsProduction(env: string)
    ensures IsProduction(env) <==>
      |env| == 3 && env[0] in "pP" && env[1] in "rR" && env[2] in "oO"
  {
    assert |env| == 3 ==>
      (Strings.ToLowerAscii(env[0]) == 'p' <==> env[0] in "pP") &&
      (Strings.ToLowerAscii(env[1]) == 'r' <==> env[1] in "rR") &&
      (Strings.ToLowerAscii(env[2]) == 'o' <==> env[2] in "oO");
    Strings.EqualFold(env, "pro")
  }

  /** The resource requirements of the pod's container. Limits always take the
      quota's limits and the CPU request always takes the quota's CPU request.
      The memory request is pinned to the memory limit in production unless
      the oversubscription bit is set; otherwise it is the quota's memory
      request. */
  function ResolveResources<Q>(quota: K8sQuota<Q>, env: string, flags: bv64): (r: V1.ResourceRequirements<Q>)
    ensures r.limits.Keys == {"cpu", "memory"} && r.requests.Keys == {"cpu", "memory"}
    ensures r.limits["cpu"] == quota.limitCPU && r.limits["memory"] == quota.limitMemory
    ensures r.requests["cpu"] == quota.requestCPU
    ensures IsProduction(env) && !OversubscribesMemory(flags) ==> r.requests["memory"] == r.limits["memory"]
    ensures !(IsProduction(env) && !OversubscribesMemory(flags)) ==> r.requests["memory"] == quota.requestMemory
  {
    if IsProduction(env) then
      var limits := map["memory" := quota.limitMemory, "cpu" := quota.limitCPU];
      var requests := map["cpu" := quota.requestCPU];
      if OversubscribesMemory(flags) then
        V1.ResourceRequirements(limits, requests["memory" := quota.requestMemory])
      else
        V1.ResourceRequirements(limits, requests["memory" := quota.limitMemory])
    else
      var limits := map["memory" := quota.limitMemory, "cpu" := quota.limitCPU];
      var requests := map["cpu" := quota.requestCPU, "memory" := quota.requestMemory];
      V1.ResourceRequirements(limits, requests)
  }

  /** Outside production the flag word has no effect at all. */
  lemma FlagsIgnoredOutsideProduction<Q>(quota: K8sQuota<Q>, env: string, f1: bv64, f2: bv64)
    requires !IsProduction(env)
    ensures ResolveResources(quota, env, f1) == ResolveResources(quota, env, f2)
  {
  }

  /** The limits and the CPU request never depend on the environment or the
      flags; only the memory request does. */
  lemma OnlyMemoryRequestVaries<Q>(quota: K8sQuota<Q>, e1: string, f1: bv64, e2: string, f2: bv64)
    ensures var r1 := ResolveResources(quota, e1, f1);
      var r2 := ResolveResources(quota, e2, f2);
      r1.limits == r2.limits && r1.requests["cpu"] == r2.requests["cpu"]
  {
  }
}
