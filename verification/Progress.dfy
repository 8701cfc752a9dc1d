/** Retrying one push: every attempt that uploads anything resumes further next time. */
module Progress {
  import opened Wrappers
  import opened Names
  import opened Commits
  import opened Planner
  import opened Resume
  import opened Selection
  import opened Splitter

  // The next attempt lists every object this one listed, unchanged, and every bundle it uploaded.
  ghost predicate Grew(refs: map<string, BundleRef>, next: map<string, BundleRef>, uploaded: set<string>) {
    && (forall name | name in refs :: name in next && next[name] == refs[name])
    && uploaded <= next.Keys
  }

  lemma {:induction false} PathMonotone(small: set<Edge>, large: set<Edge>, p: seq<Edge>, from: nat, to: nat)
    requires small <= large && Path(small, p, from, to)
    ensures Path(large, p, from, to)
  {
    if p != [] { PathMonotone(small, large, p[..|p| - 1], from, p[|p| - 1].from); }
  }

  lemma EdgesMonotone(g: Dag, base: Hash, tip: Hash, refs: map<string, BundleRef>, next: map<string, BundleRef>)
    requires Grew(refs, next, {})
    ensures PushEdges(g, base, tip, refs) <= PushEdges(g, base, tip, next)
  {
    hide Reach, Boundaries, Positions, EdgeOf;
  }

  // A stored range that begins at a boundary is an edge that leaves it.
  lemma RangeIsEdge(g: Dag, base: Hash, tip: Hash, refs: map<string, BundleRef>, r: nat, c: Hash) returns (e: Edge)
    requires tip in g.parents && Follows(g, base, tip) && Named(refs)
    requires r < |Boundaries(g, base, tip)| && c in Boundaries(g, base, tip)[r..]
    requires RangeName(Start(BoundaryAt(g, base, tip, r), c), c) in refs
    ensures e in PushEdges(g, base, tip, refs) && e.from == r < e.to
  {
    hide Reach, Boundaries, Positions, FirstParentLine, IsAncestor, ParseRange, ValidRange, RangeName, Follows,
      AncestryLine;
    var commits := Boundaries(g, base, tip);
    var i :| 0 <= i < |commits| - r && commits[r..][i] == c;
    assert commits[r + i] == c;
    var from := Start(BoundaryAt(g, base, tip, r), c);
    BoundaryRange(g, base, tip, r, r + i);
    ParseRangeRoundTrip(from, c);
    SpanPositions(g, base, tip, r, r + i);
    e := Edge(refs[RangeName(from, c)], r, r + i + 1);
    assert EdgeOf(e.ref, Positions(StartOf(base, tip), commits)) == Some(e);
  }

  lemma SpanPositions(g: Dag, base: Hash, tip: Hash, r: nat, j: nat)
    requires tip in g.parents && Follows(g, base, tip)
    requires r <= j < |Boundaries(g, base, tip)|
    ensures
      var start, commits := StartOf(base, tip), Boundaries(g, base, tip);
      var position, from := Positions(start, commits), if r == 0 then start else BoundaryAt(g, base, tip, r);
      from in position && position[from] == r && commits[j] in position && position[commits[j]] == j + 1
  {
    hide Reach, Boundaries, Positions, FirstParentLine, IsAncestor;
    BoundaryRange(g, base, tip, r, j);
    PositionOf(StartOf(base, tip), Boundaries(g, base, tip), r);
    PositionOf(StartOf(base, tip), Boundaries(g, base, tip), j + 1);
  }

  lemma BoundaryRange(g: Dag, base: Hash, tip: Hash, r: nat, j: nat)
    requires tip in g.parents && Follows(g, base, tip)
    requires r <= j < |Boundaries(g, base, tip)|
    ensures var c := Boundaries(g, base, tip)[j]; var from := Start(BoundaryAt(g, base, tip, r), c);
      && from == (if r == 0 then StartOf(base, tip) else BoundaryAt(g, base, tip, r))
      && ValidRange(from, c) && |from| == |c|
    ensures StartOf(base, tip) !in Boundaries(g, base, tip)
    ensures AncestryLine(g, Boundaries(g, base, tip))
  {
    hide Reach, Boundaries, FirstParentLine;
    BoundariesAreAncestry(g, base, tip);
    var commits := Boundaries(g, base, tip);
    var c := commits[j];
    assert c in commits && Follows(g, base, c) && c in g.parents;
    if r > 0 {
      assert commits[r - 1] in commits && commits[r - 1] in g.parents;
      if r - 1 < j { assert commits[r - 1] != commits[j]; }
    } else if base != "" {
      assert base in g.parents;
    } else {
      assert IsHex(Zeros(g.width));
    }
    assert base == "" || !Follows(g, base, base);
    assert Zeros(g.width) !in g.parents && |tip| == g.width;
  }

  // Nothing completed leaves the furthest reachable boundary.
  lemma NothingLeavesTheEnd(g: Dag, base: Hash, tip: Hash, refs: map<string, BundleRef>, p: seq<Edge>)
    requires tip in g.parents && Follows(g, base, tip) && Named(refs)
    requires Selected(PushEdges(g, base, tip, refs), p) && EndOf(p) < |Boundaries(g, base, tip)|
    ensures !Begins(refs.Keys, BoundaryAt(g, base, tip, EndOf(p)), Boundaries(g, base, tip)[EndOf(p)..])
  {
    hide Reach, Boundaries, PushEdges, Stable, Path, Begins;
    if Begins(refs.Keys, BoundaryAt(g, base, tip, EndOf(p)), Boundaries(g, base, tip)[EndOf(p)..]) {
      UploadExtends(g, base, tip, refs, p, refs.Keys);
    }
  }

  // One retry. The boundary never retreats, and an attempt that uploaded anything moves it forward,
  // whatever sizes, targets and failures the attempt met.
  lemma RetryAdvances(g: Dag, base: Hash, tip: Hash, w: World, refs: map<string, BundleRef>, p: seq<Edge>,
                      next: map<string, BundleRef>, q: seq<Edge>)
    requires tip in g.parents && Follows(g, base, tip) && Named(refs) && Named(next)
    requires Selected(PushEdges(g, base, tip, refs), p) && Selected(PushEdges(g, base, tip, next), q)
    requires EndOf(p) < |Boundaries(g, base, tip)| && w.completed == refs.Keys
    requires Grew(refs, next, Uploaded(Attempted(g, base, tip, w, p).effects))
    ensures EndOf(p) <= EndOf(q)
    ensures Uploaded(Attempted(g, base, tip, w, p).effects) != {} ==> EndOf(p) < EndOf(q)
  {
    hide Reach, Boundaries, PushEdges, Stable, RunRange, Path, Begins, RangeName, Start;
    var r, rest := EndOf(p), Boundaries(g, base, tip)[EndOf(p)..];
    var from, uploaded := BoundaryAt(g, base, tip, r), Uploaded(Attempted(g, base, tip, w, p).effects);
    EdgesMonotone(g, base, tip, refs, next);
    PathMonotone(PushEdges(g, base, tip, refs), PushEdges(g, base, tip, next), p, 0, r);
    if uploaded != {} {
      NothingLeavesTheEnd(g, base, tip, refs, p);
      FirstLeafIsUploaded(w, from, rest);
      UploadExtends(g, base, tip, next, p, uploaded);
    }
  }

  lemma UploadExtends(g: Dag, base: Hash, tip: Hash, next: map<string, BundleRef>, p: seq<Edge>, uploaded: set<string>)
    requires tip in g.parents && Follows(g, base, tip) && Named(next) && uploaded <= next.Keys
    requires EndOf(p) < |Boundaries(g, base, tip)| && Path(PushEdges(g, base, tip, next), p, 0, EndOf(p))
    requires Begins(uploaded, BoundaryAt(g, base, tip, EndOf(p)), Boundaries(g, base, tip)[EndOf(p)..])
    ensures exists longer, k: nat :: EndOf(p) < k && Path(PushEdges(g, base, tip, next), longer, 0, k)
  {
    hide Reach, Boundaries, PushEdges, RangeName, Start;
    var r := EndOf(p);
    var c :| c in Boundaries(g, base, tip)[r..] && RangeName(Start(BoundaryAt(g, base, tip, r), c), c) in uploaded;
    var e := RangeIsEdge(g, base, tip, next, r, c);
    assert (p + [e])[..|p|] == p;
    assert Path(PushEdges(g, base, tip, next), p + [e], 0, e.to);
  }

  // What an attempt does after resuming: it packs the boundaries left beyond the resumed prefix.
  function Attempted(g: Dag, base: Hash, tip: Hash, w: World, p: seq<Edge>): Outcome
    requires EndOf(p) < |Boundaries(g, base, tip)|
  {
    RunRange(w, BoundaryAt(g, base, tip, EndOf(p)), Boundaries(g, base, tip)[EndOf(p)..])
  }

  // The builder is given the resumed boundary, and plans exactly those left-over boundaries again.
  lemma BuilderPlansTheRest(g: Dag, base: Hash, tip: Hash, r: nat)
    requires tip in g.parents && r <= |Boundaries(g, base, tip)|
    ensures Boundaries(g, BoundaryAt(g, base, tip, r), tip) == Boundaries(g, base, tip)[r..]
  {
    hide Reach, Boundaries;
    if r > 0 {
      ResumedPlanIsSuffix(g, base, tip, r);
    } else {
      assert Boundaries(g, base, tip)[0..] == Boundaries(g, base, tip);
    }
  }

  // ----- Whole sequences of attempts -----

  datatype Attempt = Attempt(world: World, refs: map<string, BundleRef>, prefix: seq<Edge>)

  // The attempt listed its objects, resumed the best prefix and had boundaries left to pack.
  ghost predicate Resumed(g: Dag, base: Hash, tip: Hash, a: Attempt) {
    && Named(a.refs) && a.world.completed == a.refs.Keys
    && Selected(PushEdges(g, base, tip, a.refs), a.prefix)
    && EndOf(a.prefix) < |Boundaries(g, base, tip)|
  }

  function Uploads(g: Dag, base: Hash, tip: Hash, a: Attempt): set<string> {
    if EndOf(a.prefix) < |Boundaries(g, base, tip)|
    then Uploaded(Attempted(g, base, tip, a.world, a.prefix).effects) else {}
  }

  ghost predicate Attempts(g: Dag, base: Hash, tip: Hash, run: seq<Attempt>) {
    && (forall i | 0 <= i < |run| :: Resumed(g, base, tip, run[i]))
    && (forall i | 0 <= i < |run| - 1 :: Grew(run[i].refs, run[i + 1].refs, Uploads(g, base, tip, run[i])))
  }

  // How many of the attempts uploaded something.
  function Productive(g: Dag, base: Hash, tip: Hash, run: seq<Attempt>): nat {
    if run == [] then 0 else
      var n := |run| - 1;
      Productive(g, base, tip, run[..n]) + if Uploads(g, base, tip, run[n]) != {} then 1 else 0
  }

  lemma RetryStep(g: Dag, base: Hash, tip: Hash, a: Attempt, b: Attempt)
    requires tip in g.parents && Follows(g, base, tip)
    requires Resumed(g, base, tip, a) && Resumed(g, base, tip, b)
    requires Grew(a.refs, b.refs, Uploads(g, base, tip, a))
    ensures EndOf(a.prefix) + (if Uploads(g, base, tip, a) != {} then 1 else 0) <= EndOf(b.prefix)
  {
    hide Reach, Boundaries, PushEdges, Selected, RunRange, Attempted, Named, Grew;
    RetryAdvances(g, base, tip, a.world, a.refs, a.prefix, b.refs, b.prefix);
  }

  // Where an attempt stands counts every productive attempt before it.
  lemma {:induction false} ProductiveAttemptsAdvance(g: Dag, base: Hash, tip: Hash, run: seq<Attempt>)
    requires tip in g.parents && Follows(g, base, tip)
    requires run != [] && Attempts(g, base, tip, run)
    ensures EndOf(run[0].prefix) + Productive(g, base, tip, run[..|run| - 1]) <= EndOf(run[|run| - 1].prefix)
  {
    hide Reach, Boundaries, Resumed, Uploads, Grew;
    if |run| > 1 {
      var n := |run| - 1;
      var shorter := run[..n];
      assert forall i | 0 <= i < n :: shorter[i] == run[i];
      ProductiveAttemptsAdvance(g, base, tip, shorter);
      RetryStep(g, base, tip, run[n - 1], run[n]);
    }
  }

  // Attempts that had boundaries left to pack and uploaded something, the last one included, are at most the
  // boundaries.
  lemma ProductiveAttemptsAreBounded(g: Dag, base: Hash, tip: Hash, run: seq<Attempt>)
    requires tip in g.parents && Follows(g, base, tip)
    requires run != [] && Attempts(g, base, tip, run)
    ensures Productive(g, base, tip, run) <= |Boundaries(g, base, tip)|
  {
    hide Reach, Boundaries, PushEdges, Selected, Uploads, Named, Grew;
    ProductiveAttemptsAdvance(g, base, tip, run);
    assert Resumed(g, base, tip, run[|run| - 1]);
  }
}
