/** One Tombstone catalog shared by several roots, with a cache of finished reports. */
module PreparedVerifier {
  import opened ClosureWalk
  import opened ClosureLimits
  import opened ClosureVerifier

  function Min(a: nat, b: nat): nat { if a < b then a else b }

  function Narrowed(l: Limits, maxObjects: nat, maxEdges: nat): Limits {
    Limits(Min(l.maxObjects, maxObjects), Min(l.maxEdges, maxEdges), l.maxDepth)
  }

  class PreparedClosureVerifier {
    const world: World
    const limits: Limits
    var cache: map<string, Report>

    ghost predicate Valid()
      reads this
    {
      forall root | root in cache :: Reported(cache[root]) == Verify(world, limits, root)
    }

    constructor (world: World, limits: Limits)
      ensures Valid() && this.world == world && this.limits == limits
    {
      this.world, this.limits, cache := world, limits, map[];
    }

    /** The cache is never observable: every call answers as if it were the first. */
    method VerifyCached(root: string) returns (r: Verdict)
      requires Valid()
      modifies this
      ensures Valid() && r == Verify(world, limits, root)
    {
      hide Verify;
      if root in cache {
        return Reported(cache[root]);
      }
      r := VerifyClosure(world, limits, root);
      if r.Reported? {
        cache := cache[root := r.report];
      }
    }

    /** Narrower budgets can only cut a report short: one they do not cut is the report under the full limits. */
    method VerifyWithWorkLimits(root: string, maxObjects: nat, maxEdges: nat) returns (r: Verdict)
      requires Valid()
      ensures r == Verify(world, Narrowed(limits, maxObjects, maxEdges), root)
      ensures r.Reported? && !r.report.truncated ==> r == Verify(world, limits, root)
    {
      hide Verify;
      var narrow := Narrowed(limits, maxObjects, maxEdges);
      r := VerifyClosure(world, narrow, root);
      if r.Reported? && !r.report.truncated {
        LargerLimitsSameReport(world, narrow, limits, root);
      }
    }
  }
}
