/** The dynamic program that selects a completed prefix, proved against the selection's specification. */
module Selection {
  import opened Wrappers
  import opened Ordering
  import opened Names
  import opened Commits
  import opened Chains
  import opened Planner
  import opened Resume

  // ----- The tables -----

  // After the first i edges: counts include the starting boundary, zero is unreachable.
  ghost predicate Settled(edges: seq<Edge>, i: nat, count: seq<nat>, previous: seq<nat>) {
    && i <= |edges| && |count| == |previous| > 0 && count[0] == 1
    && (forall e | e in edges :: e.from < e.to < |count|)
    && (forall k | 0 < k < |count| && count[k] != 0 :: Backed(edges, i, count, previous, k))
    && (forall j | 0 <= j < i :: Relaxed(edges, j, count))
  }

  // Position k was reached over an edge, and every earlier edge into k gives a strictly longer route.
  ghost predicate Backed(edges: seq<Edge>, i: nat, count: seq<nat>, previous: seq<nat>, k: nat)
    requires i <= |edges| && k < |count| == |previous|
    requires forall e | e in edges :: e.from < e.to < |count|
  {
    && previous[k] < i && edges[previous[k]].to == k
    && count[edges[previous[k]].from] != 0
    && count[k] == count[edges[previous[k]].from] + 1
    && forall j | 0 <= j < previous[k] && edges[j].to == k
      && count[edges[j].from] != 0 :: count[edges[j].from] + 1 > count[k]
  }

  ghost predicate Relaxed(edges: seq<Edge>, j: nat, count: seq<nat>)
    requires j < |edges| && forall e | e in edges :: e.from < e.to < |count|
  {
    count[edges[j].from] != 0 ==> 0 < count[edges[j].to] <= count[edges[j].from] + 1
  }

  predicate Improves(e: Edge, count: seq<nat>)
    requires e.from < |count| && e.to < |count|
  {
    count[e.from] != 0 && (count[e.to] == 0 || count[e.from] + 1 < count[e.to])
  }

  lemma KeepSettled(edges: seq<Edge>, i: nat, count: seq<nat>, previous: seq<nat>)
    requires Settled(edges, i, count, previous) && i < |edges|
    requires edges[i] in edges && !Improves(edges[i], count)
    ensures Settled(edges, i + 1, count, previous)
  {
    hide Before;
    assert Relaxed(edges, i, count);
    forall k | 0 < k < |count| && count[k] != 0 ensures Backed(edges, i + 1, count, previous, k) {
      assert Backed(edges, i, count, previous, k);
    }
  }

  // Edges are sorted by where they end, so no earlier edge starts where this one ends.
  lemma UpdateSettled(edges: seq<Edge>, i: nat, count: seq<nat>, previous: seq<nat>)
    requires Settled(edges, i, count, previous) && Ordered(edges) && i < |edges|
    requires edges[i] in edges && Improves(edges[i], count)
    ensures Settled(edges, i + 1, count[edges[i].to := count[edges[i].from] + 1], previous[edges[i].to := i])
  {
    var e := edges[i];
    var c, p := count[e.to := count[e.from] + 1], previous[e.to := i];
    forall j | 0 <= j <= i ensures edges[j].from != e.to && edges[j] in edges {
      if j < i { assert Before(edges[j], e); }
    }
    forall j | 0 <= j < i + 1 ensures Relaxed(edges, j, c) {
      if j < i { assert Relaxed(edges, j, count); }
    }
    forall k | 0 < k < |c| && c[k] != 0 ensures Backed(edges, i + 1, c, p, k) {
      if k != e.to {
        assert Backed(edges, i, count, previous, k);
        assert edges[previous[k]].from != e.to;
      } else {
        forall j | 0 <= j < i && edges[j].to == k && c[edges[j].from] != 0 ensures c[edges[j].from] + 1 > c[k] {
          assert Relaxed(edges, j, count);
        }
      }
    }
  }

  // ----- The tables describe the paths -----

  ghost function SetOf(edges: seq<Edge>): set<Edge> {
    set e | e in edges
  }

  // No path beats the table.
  lemma {:induction false} PathCounted(edges: seq<Edge>, count: seq<nat>, previous: seq<nat>, q: seq<Edge>, k: nat)
    requires Settled(edges, |edges|, count, previous)
    requires Path(SetOf(edges), q, 0, k)
    ensures k < |count| && 0 < count[k] <= |q| + 1
  {
    if q != [] {
      var e := q[|q| - 1];
      PathCounted(edges, count, previous, q[..|q| - 1], e.from);
      var j :| 0 <= j < |edges| && edges[j] == e;
      assert Relaxed(edges, j, count);
    }
  }

  // The path the table records.
  ghost function Trace(edges: seq<Edge>, count: seq<nat>, previous: seq<nat>, k: nat): (p: seq<Edge>)
    requires Settled(edges, |edges|, count, previous) && k < |count| && count[k] != 0
    ensures |p| + 1 == count[k] && EndOf(p) == k
    ensures Path(SetOf(edges), p, 0, k)
    decreases k
  {
    if k == 0 then [] else
      assert Backed(edges, |edges|, count, previous, k);
      var e := edges[previous[k]];
      assert e in edges;
      var p := Trace(edges, count, previous, e.from) + [e];
      assert p[..|p| - 1] == Trace(edges, count, previous, e.from);
      p
  }

  // The last step of a recorded path is the best one into its end.
  lemma LastStepIsStable(edges: seq<Edge>, count: seq<nat>, previous: seq<nat>, k: nat)
    requires Settled(edges, |edges|, count, previous) && Ordered(edges) && 0 < k < |count| && count[k] != 0
    ensures var p := Trace(edges, count, previous, k); |p| > 0 && Stable(SetOf(edges), p, |p| - 1)
  {
    hide Leq;
    var p := Trace(edges, count, previous, k);
    assert Backed(edges, |edges|, count, previous, k);
    forall q: seq<Edge> | Path(SetOf(edges), q, 0, k) && q != []
      ensures |p| <= |q| && (|q| == |p| ==> Leq(p[|p| - 1].ref.key, q[|q| - 1].ref.key))
    {
      PathCounted(edges, count, previous, q, k);
      if |q| == |p| {
        var f := q[|q| - 1];
        PathCounted(edges, count, previous, q[..|q| - 1], f.from);
        var j :| 0 <= j < |edges| && edges[j] == f;
        assert previous[k] <= j;
        if previous[k] < j { assert Before(edges[previous[k]], edges[j]); } else { LeqReflexive(f.ref.key); }
      }
    }
  }

  lemma {:induction false} LeqReflexive(a: string)
    ensures Leq(a, a)
  {
    LeqTotal(a, a);
  }

  lemma {:induction false} TraceIsStable(edges: seq<Edge>, count: seq<nat>, previous: seq<nat>, k: nat, i: nat)
    requires Settled(edges, |edges|, count, previous) && Ordered(edges) && k < |count| && count[k] != 0
    requires i < |Trace(edges, count, previous, k)|
    ensures Stable(SetOf(edges), Trace(edges, count, previous, k), i)
    decreases k
  {
    hide Settled, Stable, Ordered;
    var p := Trace(edges, count, previous, k);
    if i == |p| - 1 {
      LastStepIsStable(edges, count, previous, k);
    } else {
      TraceStep(edges, count, previous, k);
      var from := edges[previous[k]].from;
      TraceIsStable(edges, count, previous, from, i);
      StableInLonger(SetOf(edges), Trace(edges, count, previous, from), p, i);
    }
  }

  lemma TraceStep(edges: seq<Edge>, count: seq<nat>, previous: seq<nat>, k: nat)
    requires Settled(edges, |edges|, count, previous) && 0 < k < |count| && count[k] != 0
    ensures k < |previous| && previous[k] < |edges| && edges[previous[k]].from < k
      && count[edges[previous[k]].from] != 0
    ensures Trace(edges, count, previous, k) ==
      Trace(edges, count, previous, edges[previous[k]].from) + [edges[previous[k]]]
  {
    assert Backed(edges, |edges|, count, previous, k);
    assert edges[previous[k]] in edges;
  }

  lemma StableInLonger(edges: set<Edge>, shorter: seq<Edge>, longer: seq<Edge>, i: nat)
    requires i < |shorter| < |longer| && longer[..|shorter|] == shorter && Stable(edges, shorter, i)
    ensures Stable(edges, longer, i)
  {
    assert longer[i] == shorter[i];
  }

  // ----- The method -----

  lemma InitiallySettled(edges: seq<Edge>, count: seq<nat>, previous: seq<nat>)
    requires |count| == |previous| > 0 && count[0] == 1 && forall k | 0 < k < |count| :: count[k] == 0
    requires forall e | e in edges :: e.from < e.to < |count|
    ensures Settled(edges, 0, count, previous)
  {}

  // Settle the edges one by one and note the furthest boundary reached.
  method FillTables(edges: seq<Edge>, n: nat) returns (count: array<nat>, previous: array<nat>, end: nat)
    requires Ordered(edges) && forall e | e in edges :: e.from < e.to <= n
    ensures Settled(edges, |edges|, count[..], previous[..]) && count.Length == n + 1
    ensures end <= n && count[end] != 0 && forall k | 0 <= k <= n && count[k] != 0 :: k <= end
  {
    hide Ordered, Before, Settled;
    count, previous := new nat[n + 1](_ => 0), new nat[n + 1](_ => 0);
    count[0] := 1;
    end := 0;
    InitiallySettled(edges, count[..], previous[..]);
    for i := 0 to |edges|
      invariant Settled(edges, i, count[..], previous[..])
      invariant end <= n && count[end] != 0
      invariant forall k | 0 <= k <= n && count[k] != 0 :: k <= end
    {
      var edge := edges[i];
      assert edge in edges;
      ghost var c, p := count[..], previous[..];
      if count[edge.from] != 0 && (count[edge.to] == 0 || count[edge.from] + 1 < count[edge.to]) {
        UpdateSettled(edges, i, c, p);
        count[edge.to], previous[edge.to] := count[edge.from] + 1, i;
        assert count[..] == c[edge.to := c[edge.from] + 1] && previous[..] == p[edge.to := i];
        end := if end < edge.to then edge.to else end;
      } else {
        KeepSettled(edges, i, c, p);
      }
    }
  }

  // Fill the tables, then walk back from the furthest boundary.
  method BestChain(edges: seq<Edge>, n: nat) returns (chain: seq<Edge>)
    requires Ordered(edges) && forall e | e in edges :: e.from < e.to <= n
    ensures Selected(SetOf(edges), chain)
  {
    hide Ordered, Path, Selected, Stable, Settled;
    var count, previous, end := FillTables(edges, n);
    ghost var c, p, furthest := count[..], previous[..], end;
    TraceIsSelected(edges, c, p, furthest);
    chain := [];
    assert Trace(edges, c, p, furthest) + [] == Trace(edges, c, p, furthest);
    while end != 0
      invariant 0 <= end <= n && c[end] != 0 && previous[..] == p
      invariant Trace(edges, c, p, furthest) == Trace(edges, c, p, end) + chain
      decreases end
    {
      TraceStep(edges, c, p, end);
      var edge := edges[previous[end]];
      chain := [edge] + chain;
      end := edge.from;
    }
    assert Trace(edges, c, p, end) == [];
    assert chain == Trace(edges, c, p, furthest);
  }

  lemma TraceIsSelected(edges: seq<Edge>, count: seq<nat>, previous: seq<nat>, end: nat)
    requires Settled(edges, |edges|, count, previous) && Ordered(edges)
    requires end < |count| && count[end] != 0 && forall k | 0 <= k < |count| && count[k] != 0 :: k <= end
    ensures Selected(SetOf(edges), Trace(edges, count, previous, end))
  {
    hide Ordered, Settled, Stable;
    var p := Trace(edges, count, previous, end);
    forall q, k: nat | Path(SetOf(edges), q, 0, k) ensures k <= end {
      PathCounted(edges, count, previous, q, k);
    }
    forall i | 0 <= i < |p| ensures Stable(SetOf(edges), p, i) {
      TraceIsStable(edges, count, previous, end, i);
    }
  }

  function RefsOf(p: seq<Edge>): seq<BundleRef> {
    seq(|p|, i requires 0 <= i < |p| => p[i].ref)
  }

  function StartOf(base: Hash, tip: Hash): Hash {
    if base == "" then Zeros(|tip|) else base
  }

  // The completed ranges of a push as forward edges over its planned boundaries.
  function PushEdges(g: Dag, base: Hash, tip: Hash, refs: map<string, BundleRef>): set<Edge> {
    EdgesOf(refs, Positions(StartOf(base, tip), Boundaries(g, base, tip)))
  }

  lemma {:induction false} PositionsBounded(start: Hash, commits: seq<Hash>)
    ensures forall c | c in Positions(start, commits) :: Positions(start, commits)[c] <= |commits|
  {
    if commits != [] { PositionsBounded(start, commits[..|commits| - 1]); }
  }

  ghost predicate RangesParse(refs: map<string, BundleRef>) {
    forall name | name in refs :: ParseRange(refs[name].range).Some?
  }

  function PlanOutcome(g: Dag, base: Hash, tip: Hash): Option<PlanError> {
    if tip !in g.parents || (base != "" && base !in g.parents) then Some(GitFailed)
    else if IsAncestor(g, tip, base) then Some(NoAncestryPath)
    else if base != "" && !IsAncestor(g, base, tip) then Some(NoBoundary)
    else None
  }

  method CompletedPushPrefix(g: Dag, base: Hash, tip: Hash, refs: map<string, BundleRef>)
    returns (result: Result<seq<BundleRef>, ResumeError>)
    ensures refs == map[] ==> result == Success([])
    ensures refs != map[] && PlanOutcome(g, base, tip).Some? ==>
      result == Failure(Plan(PlanOutcome(g, base, tip).value))
    ensures refs != map[] && PlanOutcome(g, base, tip).None? && !RangesParse(refs) ==> result == Failure(InvalidRange)
    ensures refs != map[] && PlanOutcome(g, base, tip).None? && RangesParse(refs) ==>
      result.Success? && exists p :: Selected(PushEdges(g, base, tip, refs), p) && result.value == RefsOf(p)
  {
    hide Reach, Boundaries, Positions, EdgeOf, ParseRange, Ordered, Selected, IsAncestor;
    if |refs| == 0 {
      return Success([]);
    }
    var commits, _ := PushBundleCommits(g, base, tip);
    if commits.Failure? {
      return Failure(Plan(commits.error));
    }
    var position := PositionMap(StartOf(base, tip), commits.value);
    PositionsBounded(StartOf(base, tip), commits.value);
    var edges, ok := CollectEdges(refs, position, |commits.value|);
    if !ok {
      return Failure(InvalidRange);
    }
    edges := SortEdges(edges);
    var chain := BestChain(edges, |commits.value|);
    assert SetOf(edges) == PushEdges(g, base, tip, refs);
    return Success(RefsOf(chain));
  }

  method PositionMap(start: Hash, commits: seq<Hash>) returns (position: map<Hash, nat>)
    ensures position == Positions(start, commits)
  {
    position := map[start := 0];
    for i := 0 to |commits|
      invariant position == Positions(start, commits[..i])
    {
      position := position[commits[i] := i + 1];
      assert commits[..i + 1][..i] == commits[..i];
    }
    assert commits[..|commits|] == commits;
  }

  method CollectEdges(refs: map<string, BundleRef>, position: map<Hash, nat>, n: nat)
    returns (edges: seq<Edge>, ok: bool)
    requires forall c | c in position :: position[c] <= n
    ensures ok <==> RangesParse(refs)
    ensures ok ==> SetOf(edges) == EdgesOf(refs, position)
    ensures forall e | e in edges :: e.from < e.to <= n
  {
    hide ParseRange;
    edges := [];
    var names := refs.Keys;
    while names != {}
      invariant names <= refs.Keys
      invariant forall name | name in refs && name !in names :: ParseRange(refs[name].range).Some?
      invariant forall e :: e in edges <==>
        exists name :: name in refs.Keys - names && EdgeOf(refs[name], position) == Some(e)
      invariant forall e | e in edges :: e.from < e.to <= n
      decreases names
    {
      var name :| name in names;
      var ref := refs[name];
      if ParseRange(ref.range).None? {
        return edges, false;
      }
      var edge := EdgeOf(ref, position);
      ghost var before := edges;
      if edge.Some? {
        edges := edges + [edge.value];
      }
      forall e ensures e in edges <==> exists m ::
        m in refs.Keys - (names - {name}) && EdgeOf(refs[m], position) == Some(e) {
        if e in before {
          var m :| m in refs.Keys - names && EdgeOf(refs[m], position) == Some(e);
          assert m in refs.Keys - (names - {name});
        } else if edge == Some(e) {
          assert name in refs.Keys - (names - {name});
        }
      }
      names := names - {name};
    }
    ok := true;
    forall e ensures e in SetOf(edges) <==> e in EdgesOf(refs, position) {
      assert e in SetOf(edges) <==> e in edges;
    }
  }

  // ----- Discovered descriptors -----

  // Every descriptor is filed under its own range.
  ghost predicate Named(refs: map<string, BundleRef>) {
    forall name | name in refs :: refs[name].range == name && ParseRange(name).Some?
  }

  lemma DiscoveredAreNamed(refs: map<string, BundleRef>, prefix: string, tip: Hash, recipients: seq<string>,
    objects: seq<ListedObject>)
    requires Discovered(refs, prefix, tip, recipients, objects)
    ensures Named(refs) && forall name | name in refs :: refs[name].key == prefix + name
  {
    hide ParseRange, RangeEnd;
    forall name | name in refs
      ensures refs[name].range == name && ParseRange(name).Some? && refs[name].key == prefix + name
    {
      var o :| o in objects && prefix <= o.key && name == o.key[|prefix|..];
      assert Acceptable(prefix, tip, o);
      assert o.key == prefix + o.key[|prefix|..];
    }
  }

  // Discovery files each object under its own key, so ties are broken by a strict order.
  lemma DiscoveredEdges(g: Dag, base: Hash, tip: Hash, refs: map<string, BundleRef>, prefix: string)
    requires Named(refs) && forall name | name in refs :: refs[name].key == prefix + name
    ensures Forward(PushEdges(g, base, tip, refs)) && DistinctKeys(PushEdges(g, base, tip, refs))
  {
    hide Reach, Boundaries, Positions, ParseRange;
    var edges := PushEdges(g, base, tip, refs);
    forall a, b | a in edges && b in edges && a.ref.key == b.ref.key ensures a == b {
      assert a.ref.key[|prefix|..] == a.ref.range && b.ref.key[|prefix|..] == b.ref.range;
    }
  }

  // The prefix a push resumes depends only on the set of completed objects it lists.
  lemma ResumeIsDeterministic(g: Dag, base: Hash, tip: Hash, refs: map<string, BundleRef>, prefix: string,
    p: seq<Edge>, q: seq<Edge>)
    requires Named(refs) && forall name | name in refs :: refs[name].key == prefix + name
    requires Selected(PushEdges(g, base, tip, refs), p) && Selected(PushEdges(g, base, tip, refs), q)
    ensures p == q
  {
    DiscoveredEdges(g, base, tip, refs, prefix);
    SelectionIsUnique(PushEdges(g, base, tip, refs), p, q);
  }

  // ----- Positions and boundaries -----

  lemma {:induction false} PositionNames(start: Hash, commits: seq<Hash>, h: Hash)
    requires h in Positions(start, commits)
    ensures var k := Positions(start, commits)[h];
      k <= |commits| && h == if k == 0 then start else commits[k - 1]
  {
    if commits != [] {
      var n := |commits| - 1;
      if h != commits[n] { PositionNames(start, commits[..n], h); }
    }
  }

  lemma {:induction false} PositionOf(start: Hash, commits: seq<Hash>, k: nat)
    requires k <= |commits| && start !in commits
    requires forall i, j | 0 <= i < j < |commits| :: commits[i] != commits[j]
    ensures var h := if k == 0 then start else commits[k - 1];
      h in Positions(start, commits) && Positions(start, commits)[h] == k
  {
    if commits != [] {
      var n := |commits| - 1;
      if k <= n {
        PositionOf(start, commits[..n], k);
        if k > 0 { assert commits[..n][k - 1] == commits[k - 1]; }
      }
    }
  }

  // The boundary a resumed prefix ends at: position 0 is the published base itself.
  function BoundaryAt(g: Dag, base: Hash, tip: Hash, k: nat): Hash
    requires k <= |Boundaries(g, base, tip)|
  {
    if k == 0 then base else Boundaries(g, base, tip)[k - 1]
  }

  lemma EdgeEnds(g: Dag, base: Hash, tip: Hash, refs: map<string, BundleRef>, e: Edge)
    requires e in PushEdges(g, base, tip, refs)
    ensures e.from < e.to <= |Boundaries(g, base, tip)| && ParseRange(e.ref.range).Some?
    ensures RangeBase(e.ref.range) == if e.from == 0 then StartOf(base, tip) else BoundaryAt(g, base, tip, e.from)
    ensures RangeEnd(e.ref.range) == BoundaryAt(g, base, tip, e.to)
  {
    hide Reach, Boundaries, Positions, ParseRange;
    var start, commits := StartOf(base, tip), Boundaries(g, base, tip);
    PositionNames(start, commits, RangeBase(e.ref.range));
    PositionNames(start, commits, RangeEnd(e.ref.range));
  }

  // A resumed prefix is itself a gap-free ancestral chain from the base to its boundary.
  lemma {:induction false} PathIsChain(g: Dag, base: Hash, tip: Hash, refs: map<string, BundleRef>, p: seq<Edge>,
    k: nat)
    requires tip in g.parents && Follows(g, base, tip)
    requires Path(PushEdges(g, base, tip, refs), p, 0, k)
    ensures k <= |Boundaries(g, base, tip)|
    ensures Linked(RefsOf(p), StartOf(base, tip), if k == 0 then StartOf(base, tip) else BoundaryAt(g, base, tip, k))
    ensures Ancestral(g, RefsOf(p))
  {
    hide Reach, Boundaries, Positions, ParseRange, RangeBase, RangeEnd, PushEdges, IsAncestor;
    if p != [] {
      var n := |p| - 1;
      var e := p[n];
      EdgeEnds(g, base, tip, refs, e);
      PathIsChain(g, base, tip, refs, p[..n], e.from);
      assert RefsOf(p)[..n] == RefsOf(p[..n]);
      EdgeIsGrounded(g, base, tip, refs, e);
      forall i | 0 <= i < |p| ensures Grounded(g, RefsOf(p)[i].range) {
        if i < n { assert RefsOf(p)[i] == RefsOf(p[..n])[i]; }
      }
    }
  }

  lemma EdgeIsGrounded(g: Dag, base: Hash, tip: Hash, refs: map<string, BundleRef>, e: Edge)
    requires tip in g.parents && Follows(g, base, tip)
    requires e in PushEdges(g, base, tip, refs)
    ensures Grounded(g, e.ref.range)
  {
    hide Reach, Boundaries, Positions, ParseRange, RangeBase, RangeEnd, PushEdges;
    EdgeEnds(g, base, tip, refs, e);
    BoundariesAreAncestry(g, base, tip);
    var commits := Boundaries(g, base, tip);
    var end := commits[e.to - 1];
    assert end in commits && Follows(g, base, end);
    if e.from > 0 { assert IsAncestor(g, commits[e.from - 1], end); }
  }
}
