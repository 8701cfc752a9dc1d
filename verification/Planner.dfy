/** Bundle boundaries: which first-parent commits a push may end a bundle at. */
module Planner {
  import opened Wrappers
  import opened Names
  import opened Commits

  datatype PlanError = GitFailed | NoAncestryPath | NoBoundary

  // A strict descendant of the published base; with no base ("") every commit is one.
  predicate Follows(g: Dag, base: Hash, c: Hash) {
    base == "" || (IsAncestor(g, base, c) && c != base)
  }

  // The commits of a line that strictly descend from base, in order.
  function Followers(g: Dag, base: Hash, line: seq<Hash>): seq<Hash> {
    if line == [] then [] else
      var n := |line| - 1;
      Followers(g, base, line[..n]) + if Follows(g, base, line[n]) then [line[n]] else []
  }

  // The boundaries of a push of tip onto base.
  function Boundaries(g: Dag, base: Hash, tip: Hash): seq<Hash> {
    Followers(g, base, FirstParentLine(g, tip))
  }

  ghost predicate FollowedFrom(g: Dag, line: seq<Hash>, base: Hash, k: nat) {
    k <= |line| && forall i | 0 <= i < |line| :: k <= i <==> Follows(g, base, line[i])
  }

  lemma {:induction false} FollowersAreSuffix(g: Dag, base: Hash, line: seq<Hash>, k: nat)
    requires FollowedFrom(g, line, base, k)
    ensures Followers(g, base, line) == line[k..]
  {
    hide Reach, Follows, IsAncestor;
    if line != [] {
      var n := |line| - 1;
      var shorter := line[..n];
      if k <= n {
        assert FollowedFrom(g, shorter, base, k);
        FollowersAreSuffix(g, base, shorter, k);
        assert line[k..] == shorter[k..] + [line[n]];
      } else {
        assert FollowedFrom(g, shorter, base, n);
        FollowersAreSuffix(g, base, shorter, n);
      }
    }
  }

  // Descent is monotone along a line, so a first follower splits it.
  lemma FollowersExist(g: Dag, base: Hash, line: seq<Hash>) returns (k: nat)
    requires AncestryLine(g, line)
    ensures FollowedFrom(g, line, base, k)
  {
    hide Reach, Follows, IsAncestor, AncestryLine;
    k := 0;
    while k < |line| && !Follows(g, base, line[k])
      invariant k <= |line|
      invariant forall i | 0 <= i < k :: !Follows(g, base, line[i])
    {
      k := k + 1;
    }
    if k < |line| {
      forall i | k <= i < |line| ensures Follows(g, base, line[i]) {
        DescentIsMonotone(g, base, line, k, i);
      }
    }
  }

  lemma DescentIsMonotone(g: Dag, base: Hash, line: seq<Hash>, i: nat, j: nat)
    requires AncestryLine(g, line) && i <= j < |line|
    requires Follows(g, base, line[i])
    ensures Follows(g, base, line[j])
  {
    if i < j && base != "" {
      assert IsAncestor(g, line[i], line[j]);
      AncestorTransitive(g, base, line[i], line[j]);
      if line[j] == base { AncestorAntisymmetric(g, line[i], base); }
    }
  }

  // All planned boundaries form one ancestry line of followers that ends at the tip.
  lemma BoundariesAreAncestry(g: Dag, base: Hash, tip: Hash)
    requires tip in g.parents
    ensures AncestryLine(g, Boundaries(g, base, tip))
    ensures forall c | c in Boundaries(g, base, tip) :: Follows(g, base, c)
    ensures Follows(g, base, tip) ==> var b := Boundaries(g, base, tip); |b| > 0 && b[|b| - 1] == tip
  {
    hide Reach, FirstParentLine, Followers, IsAncestor, Follows;
    var line := FirstParentLine(g, tip);
    FirstParentLineIsAncestry(g, tip);
    var k := FollowersExist(g, base, line);
    FollowersAreSuffix(g, base, line, k);
    var b := line[k..];
    forall i | 0 <= i < |b| ensures b[i] == line[k + i] {}
    if Follows(g, base, tip) {
      assert Follows(g, base, line[|line| - 1]);
    }
  }

  // Nothing is skipped: with no base every first-parent commit is a boundary, and over a base every first-parent commit
  // that properly descends from it.
  lemma NoBoundaryIsSkipped(g: Dag, base: Hash, tip: Hash, c: Hash)
    requires tip in g.parents && c in FirstParentLine(g, tip)
    ensures c in Boundaries(g, base, tip) <==> base == "" || (IsAncestor(g, base, c) && base != c)
  {
    hide Reach, FirstParentLine, Followers, IsAncestor;
    var line := FirstParentLine(g, tip);
    FirstParentLineIsAncestry(g, tip);
    var k := FollowersExist(g, base, line);
    FollowersAreSuffix(g, base, line, k);
    var i :| 0 <= i < |line| && line[i] == c;
    if k <= i { assert line[k..][i - k] == c; }
    BoundariesAreAncestry(g, base, tip);
  }

  // Within a line, exactly the later commits follow a given one.
  lemma LaterCommitsFollow(g: Dag, line: seq<Hash>, j: nat)
    requires AncestryLine(g, line) && j < |line|
    ensures FollowedFrom(g, line, line[j], j + 1)
  {
    hide Reach;
    var c := line[j];
    assert c in g.parents && IsObjectId(c);
    forall i | 0 <= i < |line| ensures j < i <==> Follows(g, c, line[i]) {
      if i < j {
        assert IsAncestor(g, line[i], c) && line[i] != c;
        if IsAncestor(g, c, line[i]) { AncestorAntisymmetric(g, c, line[i]); }
      } else if i > j {
        assert IsAncestor(g, c, line[i]) && line[i] != c;
      }
    }
  }

  // Resuming at a boundary plans exactly what the original plan had left.
  lemma ResumedPlanIsSuffix(g: Dag, base: Hash, tip: Hash, r: nat)
    requires tip in g.parents
    requires 0 < r <= |Boundaries(g, base, tip)|
    ensures Boundaries(g, Boundaries(g, base, tip)[r - 1], tip) == Boundaries(g, base, tip)[r..]
  {
    hide Reach, FirstParentLine, Followers;
    var line := FirstParentLine(g, tip);
    FirstParentLineIsAncestry(g, tip);
    var k := FollowersExist(g, base, line);
    FollowersAreSuffix(g, base, line, k);
    LaterCommitsFollow(g, line, k + r - 1);
    FollowersAreSuffix(g, line[k + r - 1], line, k + r);
    assert line[k..][r..] == line[k + r..];
  }

  // The bisection steps needed for n candidates.
  function Bits(n: nat): nat {
    if n == 0 then 0 else 1 + Bits(n / 2)
  }

  lemma {:induction false} BitsMonotone(m: nat, n: nat)
    requires m <= n
    ensures Bits(m) <= Bits(n)
  {
    if m > 0 { BitsMonotone(m / 2, n / 2); }
  }

  lemma BitsHalve(m: nat, n: nat)
    requires 0 < n && m <= n / 2
    ensures 1 + Bits(m) <= Bits(n)
  {
    BitsMonotone(m, n / 2);
  }

  lemma ContainmentIsMonotone(g: Dag, base: Hash, line: seq<Hash>, i: nat, j: nat)
    requires AncestryLine(g, line) && i <= j < |line|
    ensures IsAncestor(g, base, line[i]) ==> IsAncestor(g, base, line[j])
  {
    if i < j && IsAncestor(g, base, line[i]) {
      AncestorTransitive(g, base, line[i], line[j]);
    }
  }

  // The first commit of a line that contains base: one look at the oldest commit, then bisection.
  method FirstContaining(g: Dag, base: Hash, commits: seq<Hash>) returns (low: nat, probes: nat)
    requires AncestryLine(g, commits)
    ensures low <= |commits|
    ensures forall i | 0 <= i < |commits| :: low <= i <==> IsAncestor(g, base, commits[i])
    ensures commits != [] ==> probes <= 1 + Bits(|commits| - 1)
  {
    hide Reach, IsAncestor, AncestryLine, Bits;
    probes := 0;
    low := 0;
    var high := |commits|;
    while low < high
      invariant 0 <= low <= high <= |commits|
      invariant forall i | 0 <= i < low :: !IsAncestor(g, base, commits[i])
      invariant forall i | high <= i < |commits| :: IsAncestor(g, base, commits[i])
      invariant low == 0 ==> (high == |commits| && probes == 0) || (high == 0 && probes == 1)
      invariant low > 0 ==> probes + Bits(high - low) <= 1 + Bits(|commits| - 1)
    {
      var middle := low + (high - low) / 2;
      if low == 0 {
        middle := 0;
      }
      probes := probes + 1;
      ghost var size, first := high - low, low == 0;
      if IsAncestor(g, base, commits[middle]) {
        forall i | middle <= i < |commits| ensures IsAncestor(g, base, commits[i]) {
          ContainmentIsMonotone(g, base, commits, middle, i);
        }
        high := middle;
      } else {
        forall i | 0 <= i <= middle ensures !IsAncestor(g, base, commits[i]) {
          ContainmentIsMonotone(g, base, commits, i, middle);
        }
        low := middle + 1;
      }
      if !first {
        BitsHalve(high - low, size);
      }
    }
  }

  lemma SuffixIsAncestry(g: Dag, line: seq<Hash>, k: nat)
    requires AncestryLine(g, line) && k <= |line|
    ensures AncestryLine(g, line[k..])
  {
    forall i | 0 <= i < |line| - k ensures line[k..][i] == line[k + i] {}
  }

  lemma ContainingSuffixIsPlan(g: Dag, base: Hash, line: seq<Hash>, k: nat, low: nat)
    requires AncestryLine(g, line) && ReachedUpTo(g, line, base, k) && k + low <= |line|
    requires forall i | 0 <= i < |line| - k :: low <= i <==> IsAncestor(g, base, line[k..][i])
    requires base in g.parents
    ensures Followers(g, base, line) == line[k..][low..]
  {
    forall i | 0 <= i < |line| ensures k + low <= i <==> Follows(g, base, line[i]) {
      if i < k {
        if IsAncestor(g, base, line[i]) { AncestorAntisymmetric(g, base, line[i]); }
      } else {
        assert line[i] == line[k..][i - k];
      }
    }
    FollowersAreSuffix(g, base, line, k + low);
    assert line[k..][low..] == line[k + low..];
  }

  lemma EmptyBaseWalksWholeLine(g: Dag, tip: Hash)
    requires tip in g.parents
    ensures RevListFirstParent(g, "", tip) == Boundaries(g, "", tip)
  {
    var line := FirstParentLine(g, tip);
    var k := RevListIsSuffix(g, "", tip);
    assert "" !in g.parents;
    assert k == 0 by {
      assert !IsAncestor(g, line[0], "");
    }
    assert FollowedFrom(g, line, "", 0);
    FollowersAreSuffix(g, "", line, 0);
  }

  // Exact reachability of each outcome, the exact plan, and a logarithmic number of ancestry probes.
  method PushBundleCommits(g: Dag, base: Hash, tip: Hash) returns (result: Result<seq<Hash>, PlanError>, probes: nat)
    ensures result ==
      if tip !in g.parents || (base != "" && base !in g.parents) then Failure(GitFailed)
      else if IsAncestor(g, tip, base) then Failure(NoAncestryPath)
      else if base != "" && !IsAncestor(g, base, tip) then Failure(NoBoundary)
      else Success(Boundaries(g, base, tip))
    ensures probes <= if base == "" || tip !in g.parents then 0 else 1 + Bits(|FirstParentLine(g, tip)| - 1)
  {
    hide Reach, FirstParentLine, RevListFirstParent, Followers, Bits;
    probes := 0;
    if tip !in g.parents || (base != "" && base !in g.parents) {
      return Failure(GitFailed), 0;
    }
    assert "" !in g.parents;
    var commits := RevListFirstParent(g, base, tip);
    if |commits| == 0 || commits[|commits| - 1] != tip {
      return Failure(NoAncestryPath), 0;
    }
    if base == "" {
      EmptyBaseWalksWholeLine(g, tip);
      return Success(commits), 0;
    }
    ghost var k := WalkSuffix(g, base, tip);
    var low;
    low, probes := FirstContaining(g, base, commits);
    BitsMonotone(|commits| - 1, |FirstParentLine(g, tip)| - 1);
    if low == |commits| {
      return Failure(NoBoundary), probes;
    }
    ContainingSuffixIsPlan(g, base, FirstParentLine(g, tip), k, low);
    return Success(commits[low..]), probes;
  }

  lemma WalkSuffix(g: Dag, base: Hash, tip: Hash) returns (k: nat)
    requires tip in g.parents && RevListFirstParent(g, base, tip) != []
    ensures AncestryLine(g, FirstParentLine(g, tip)) && ReachedUpTo(g, FirstParentLine(g, tip), base, k)
    ensures RevListFirstParent(g, base, tip) == FirstParentLine(g, tip)[k..]
    ensures AncestryLine(g, RevListFirstParent(g, base, tip))
    ensures !IsAncestor(g, tip, base)
  {
    FirstParentLineIsAncestry(g, tip);
    k := RevListIsSuffix(g, base, tip);
    SuffixIsAncestry(g, FirstParentLine(g, tip), k);
  }

  // For a base the tip properly descends from, planning cannot fail, however the base is merged in.
  lemma ProperAncestorAlwaysPlans(g: Dag, base: Hash, tip: Hash)
    requires IsAncestor(g, base, tip) && base != tip
    ensures Boundaries(g, base, tip) != [] && !IsAncestor(g, tip, base)
  {
    BoundariesAreAncestry(g, base, tip);
    if IsAncestor(g, tip, base) { AncestorAntisymmetric(g, base, tip); }
  }
}
