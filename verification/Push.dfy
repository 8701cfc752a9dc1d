/** Assembling one push's bundle list: the kept chain, the resumed prefix, then the newly built ranges. */
module Push {
  import opened Wrappers
  import opened Names
  import opened Commits
  import opened Chains
  import opened Planner
  import opened Manifests
  import opened Resume
  import opened Selection
  import opened Splitter
  import Validation

  // What a successful inspection of one of this push's objects returns.
  ghost predicate Inspects(w: World, repo: Repository, tip: Hash) {
    forall name :: w.inspect(name).Some? ==>
      var ref := w.inspect(name).value;
      ref.range == name && ref.key == repo.BundleKey(tip, name) && Identified(ref)
  }

  // Validation provides exactly that, whatever its caches hold: its answers are plain readings of the push's own
  // objects.
  lemma ValidationInspects(w: World, repo: Repository, tip: Hash, objects: map<string, Validation.StoredObject>,
    wanted: string -> BundleRef)
    requires forall name :: wanted(name).range == name && wanted(name).key == repo.BundleKey(tip, name)
    requires forall name :: Validation.Agrees(objects, wanted(name), tip, w.inspect(name))
    ensures Inspects(w, repo, tip)
  {
    hide Validation.Plain, Identified;
    forall name | w.inspect(name).Some?
      ensures var ref := w.inspect(name).value;
        ref.range == name && ref.key == repo.BundleKey(tip, name) && Identified(ref)
    {
      assert Validation.Agrees(objects, wanted(name), tip, w.inspect(name));
      Validation.AcceptedIsIdentified(objects, wanted(name), tip, w.inspect(name).value);
    }
  }

  // A chain with stored, identified bundles that runs from the zero commit to end.
  ghost predicate GoodChain(g: Dag, repo: Repository, bundles: seq<BundleRef>, end: Hash) {
    && Linked(bundles, Zeros(g.width), end) && Ancestral(g, bundles)
    && forall b | b in bundles :: Stored(repo, b)
  }

  // Inspect the selected prefix in order; one refusal refuses the whole prefix.
  method InspectPrefix(w: World, refs: seq<BundleRef>) returns (result: Option<seq<BundleRef>>)
    ensures result.Some? <==> forall i | 0 <= i < |refs| :: w.inspect(refs[i].range).Some?
    ensures result.Some? ==>
      |result.value| == |refs| && forall i | 0 <= i < |refs| :: w.inspect(refs[i].range) == Some(result.value[i])
  {
    var checked: seq<BundleRef> := [];
    for i := 0 to |refs|
      invariant |checked| == i
      invariant forall j | 0 <= j < i :: w.inspect(refs[j].range) == Some(checked[j])
    {
      var ref := w.inspect(refs[i].range);
      if ref.None? {
        return None;
      }
      checked := checked + [ref.value];
    }
    return Some(checked);
  }

  lemma {:induction false} SameRangesLink(a: seq<BundleRef>, b: seq<BundleRef>, start: Hash, end: Hash)
    requires |a| == |b| && forall i | 0 <= i < |a| :: a[i].range == b[i].range
    requires Linked(a, start, end)
    ensures Linked(b, start, end)
  {
    hide ParseRange, RangeBase, RangeEnd;
    if a != [] {
      var n := |a| - 1;
      SameRangesLink(a[..n], b[..n], start, RangeBase(a[n].range));
    }
  }

  lemma GoodConcat(g: Dag, repo: Repository, a: seq<BundleRef>, b: seq<BundleRef>, middle: Hash, end: Hash)
    requires GoodChain(g, repo, a, middle)
    requires Linked(b, middle, end) && Ancestral(g, b) && forall x | x in b :: Stored(repo, x)
    ensures GoodChain(g, repo, a + b, end)
  {
    hide Reach, Linked, Stored, Grounded;
    LinkedConcat(a, b, Zeros(g.width), middle, end);
  }

  // Every object a push inspects under its own tip is stored where validation accepts it.
  lemma InspectedIsStored(g: Dag, w: World, repo: Repository, tip: Hash, name: string)
    requires tip in g.parents && Inspects(w, repo, tip) && w.inspect(name).Some?
    requires ParseRange(name).Some? && Grounded(g, name)
    ensures Stored(repo, w.inspect(name).value)
  {
    hide Reach, ParseRange, ValidBundleKey, Identified;
    BundleKeyIsValid(repo, tip, w.inspect(name).value);
  }

  // Whatever a run emits, each emitted descriptor came from an inspection.
  lemma {:induction false} EmittedAreInspected(w: World, base: Hash, commits: seq<Hash>)
    requires commits != []
    ensures forall b | b in RunRange(w, base, commits).bundles :: (exists name :: w.inspect(name) == Some(b))
    decreases |commits|
  {
    hide NameOf;
    if Splits(w, base, commits) {
      var middle := |commits| / 2;
      EmittedAreInspected(w, base, commits[..middle]);
      EmittedAreInspected(w, commits[middle - 1], commits[middle..]);
      assert RunRange(w, base, commits).bundles == RunSplit(w, base, commits).bundles;
    } else {
      forall b | b in RunRange(w, base, commits).bundles ensures exists name :: w.inspect(name) == Some(b) {
        assert w.inspect(NameOf(base, commits)) == Some(b);
      }
    }
  }

  // The selected leftover ranges, or none if nothing was left over.
  ghost predicate ResumedPrefix(g: Dag, base: Hash, tip: Hash, refs: map<string, BundleRef>, resumed: seq<BundleRef>) {
    if refs == map[] then resumed == [] else exists p ::
      Selected(PushEdges(g, base, tip, refs), p) && resumed == RefsOf(p)
  }

  predicate Checked(w: World, refs: seq<BundleRef>, checked: seq<BundleRef>) {
    |checked| == |refs| && forall i | 0 <= i < |refs| :: w.inspect(refs[i].range) == Some(checked[i])
  }

  // What splitting the rest of the history records.
  function Rest(g: Dag, w: World, start: Hash, tip: Hash): seq<BundleRef> {
    var commits := Boundaries(g, start, tip);
    if start == tip || commits == [] then [] else RunRange(w, start, commits).bundles
  }

  function StandsAt(base: Hash, checked: seq<BundleRef>): Hash {
    if checked == [] then base else RangeEnd(checked[|checked| - 1].range)
  }

  // Exactly the kept bundles, the resumed prefix as inspected, and what splitting the rest records.
  // At the pushed tip already, it is the kept list alone.
  ghost predicate AssembledFrom(g: Dag, base: Hash, tip: Hash, kept: seq<BundleRef>, refs: map<string, BundleRef>,
    w: World, bundles: seq<BundleRef>) {
    if base == tip then bundles == kept else
    exists resumed, checked :: ResumedPrefix(g, base, tip, refs, resumed) && Checked(w, resumed, checked)
      && bundles == kept + checked + Rest(g, w, StandsAt(base, checked), tip)
  }

  // The whole list a push publishes: it keeps what was there, and is a complete chain to the pushed tip.
  method AssembleBundles(g: Dag, repo: Repository, base: Hash, tip: Hash, kept: seq<BundleRef>,
                         refs: map<string, BundleRef>, w: World) returns (result: Option<seq<BundleRef>>)
    requires tip in g.parents && (base == "" || IsAncestor(g, base, tip))
    requires GoodChain(g, repo, kept, StartOf(base, tip))
    requires Named(refs) && w.completed == refs.Keys && Inspects(w, repo, tip)
    ensures result.Some? ==> kept <= result.value && GoodChain(g, repo, result.value, tip)
    ensures result.Some? ==> AssembledFrom(g, base, tip, kept, refs, w, result.value)
    ensures Cooperative(w) ==> result.Some?
  {
    hide Reach, Boundaries, IsAncestor, Stored, Inspects, Linked, Grounded, Named, RunRange, Selected, ParseRange,
      PushEdges, Start, GoodChain, StartOf;
    if base == tip {
      StartAtTip(g, tip);
      return Some(kept);
    }
    NothingToRefuse(g, base, tip, refs);
    var resumed := CompletedPushPrefix(g, base, tip, refs);
    if resumed.Failure? {
      return None;
    }
    var checked := InspectPrefix(w, resumed.value);
    if checked.None? {
      return None;
    }
    assert Checked(w, resumed.value, checked.value) && ResumedPrefix(g, base, tip, refs, resumed.value);
    var bundles := kept + checked.value;
    ghost var k := ResumedIsGood(g, repo, base, tip, kept, refs, w, resumed.value, checked.value);
    var start := StandsAt(base, checked.value);
    ghost var rest := Rest(g, w, start, tip);
    if start == tip {
      FinishedAtTip(g, base, tip, k);
      assert bundles == kept + checked.value + rest;
      return Some(bundles);
    }
    BoundaryFollows(g, base, tip, k);
    var builder := new PushBundleBuilder(w, bundles);
    var ok := builder.Create(g, start, tip);
    if !ok {
      if Cooperative(w) { CooperativeRunSucceeds(w, start, Boundaries(g, start, tip)); }
      return None;
    }
    BuiltIsGood(g, repo, w, base, start, tip, bundles, k);
    assert builder.bundles == kept + checked.value + rest;
    return Some(builder.bundles);
  }

  lemma StartAtTip(g: Dag, tip: Hash)
    requires tip in g.parents
    ensures StartOf(tip, tip) == tip
  {}

  // Discovered ranges and a proper ancestor leave the selection nothing to fail on.
  lemma NothingToRefuse(g: Dag, base: Hash, tip: Hash, refs: map<string, BundleRef>)
    requires tip in g.parents && Follows(g, base, tip) && Named(refs)
    ensures PlanOutcome(g, base, tip).None? && RangesParse(refs)
  {
    hide Reach, ParseRange, Boundaries;
    assert "" !in g.parents by { assert !IsObjectId(""); }
    if base != "" { ProperAncestorAlwaysPlans(g, base, tip); }
  }

  lemma BoundaryFollows(g: Dag, base: Hash, tip: Hash, k: nat)
    requires tip in g.parents && Follows(g, base, tip) && k <= |Boundaries(g, base, tip)|
      && BoundaryAt(g, base, tip, k) != tip
    ensures Follows(g, BoundaryAt(g, base, tip, k), tip)
  {
    hide Reach, Boundaries, IsAncestor;
    BoundariesAreAncestry(g, base, tip);
  }

  lemma FinishedAtTip(g: Dag, base: Hash, tip: Hash, k: nat)
    requires tip in g.parents && Follows(g, base, tip) && k <= |Boundaries(g, base, tip)|
    requires BoundaryAt(g, base, tip, k) == tip
    ensures ChainEnd(g, base, tip, k) == tip
  {
    hide Reach, Boundaries;
  }

  // Where the assembled chain stands after resuming through boundary k.
  function ChainEnd(g: Dag, base: Hash, tip: Hash, k: nat): Hash
    requires k <= |Boundaries(g, base, tip)|
  {
    if k == 0 then StartOf(base, tip) else BoundaryAt(g, base, tip, k)
  }

  lemma CheckedIsStored(g: Dag, repo: Repository, tip: Hash, w: World, resumed: seq<BundleRef>, checked: seq<BundleRef>,
                        start: Hash, end: Hash, i: nat)
    requires tip in g.parents && Inspects(w, repo, tip) && Linked(resumed, start, end) && Ancestral(g, resumed)
    requires Checked(w, resumed, checked) && i < |resumed|
    ensures checked[i].range == resumed[i].range && Stored(repo, checked[i]) && Grounded(g, checked[i].range)
  {
    hide Reach, ParseRange, RangeBase, RangeEnd, Linked, Stored, Identified;
    assert Grounded(g, resumed[i].range);
    LinkedAt(resumed, start, end, i);
    InspectedIsStored(g, w, repo, tip, resumed[i].range);
  }

  lemma ResumedIsGood(g: Dag, repo: Repository, base: Hash, tip: Hash, kept: seq<BundleRef>,
    refs: map<string, BundleRef>, w: World, resumed: seq<BundleRef>, checked: seq<BundleRef>) returns (k: nat)
    requires tip in g.parents && Follows(g, base, tip) && Named(refs) && Inspects(w, repo, tip)
    requires GoodChain(g, repo, kept, StartOf(base, tip))
    requires ResumedPrefix(g, base, tip, refs, resumed) && Checked(w, resumed, checked)
    ensures k <= |Boundaries(g, base, tip)|
    ensures GoodChain(g, repo, kept + checked, ChainEnd(g, base, tip, k))
    ensures BoundaryAt(g, base, tip, k) == StandsAt(base, checked)
  {
    hide Reach, Boundaries, IsAncestor, Stored, Named, Stable, ParseRange, RangeBase, RangeEnd, PushEdges, Linked,
      StartOf, Identified;
    if refs == map[] {
      k := 0;
      assert kept + checked == kept;
    } else {
      var p :| Selected(PushEdges(g, base, tip, refs), p) && resumed == RefsOf(p);
      k := EndOf(p);
      PathIsChain(g, base, tip, refs, p, k);
      forall i | 0 <= i < |resumed| ensures checked[i].range == resumed[i].range && Stored(repo, checked[i])
        && Grounded(g, checked[i].range) {
        CheckedIsStored(g, repo, tip, w, resumed, checked, StartOf(base, tip), ChainEnd(g, base, tip, k), i);
      }
      SameRangesLink(resumed, checked, StartOf(base, tip), ChainEnd(g, base, tip, k));
      GoodConcat(g, repo, kept, checked, StartOf(base, tip), ChainEnd(g, base, tip, k));
      if p != [] {
        PathPrefix(PushEdges(g, base, tip, refs), p, k, |p|);
        EdgeEnds(g, base, tip, refs, p[|p| - 1]);
      } else {
        assert kept + checked == kept;
      }
    }
  }

  lemma BuiltIsGood(g: Dag, repo: Repository, w: World, base: Hash, start: Hash, tip: Hash, bundles: seq<BundleRef>,
    k: nat)
    requires tip in g.parents && Follows(g, base, tip) && k <= |Boundaries(g, base, tip)|
    requires start == BoundaryAt(g, base, tip, k) && Follows(g, start, tip) && Inspects(w, repo, tip)
    requires GoodChain(g, repo, bundles, ChainEnd(g, base, tip, k))
    requires Boundaries(g, start, tip) != [] && RunRange(w, start, Boundaries(g, start, tip)).ok
    ensures GoodChain(g, repo, bundles + RunRange(w, start, Boundaries(g, start, tip)).bundles, tip)
  {
    hide Reach, Boundaries, FirstParentLine, IsAncestor, Stored, ParseRange, RangeBase, RangeEnd, Linked, RunRange,
      Identified, Ancestral, Follows;
    var commits := Boundaries(g, start, tip);
    var built := RunRange(w, start, commits).bundles;
    BoundariesAreAncestry(g, start, tip);
    var end := EmitsChain(g, w, start, commits);
    StartIsChainEnd(g, base, tip, k);
    EmittedAreInspected(w, start, commits);
    forall b | b in built ensures Stored(repo, b) {
      var name :| w.inspect(name) == Some(b);
      var i :| 0 <= i < |built| && built[i] == b;
      LinkedAt(built, Start(start, tip), tip, i);
      AncestralAt(g, built, i);
      InspectedIsStored(g, w, repo, tip, name);
    }
    GoodConcat(g, repo, bundles, built, ChainEnd(g, base, tip, k), tip);
  }

  lemma AncestralAt(g: Dag, refs: seq<BundleRef>, i: nat)
    requires Ancestral(g, refs) && i < |refs|
    ensures Grounded(g, refs[i].range)
  {}

  lemma StartIsChainEnd(g: Dag, base: Hash, tip: Hash, k: nat)
    requires tip in g.parents && Follows(g, base, tip) && k <= |Boundaries(g, base, tip)|
    ensures Start(BoundaryAt(g, base, tip, k), tip) == ChainEnd(g, base, tip, k)
  {
    hide Reach, Boundaries, FirstParentLine;
    if k > 0 {
      BoundariesAreAncestry(g, base, tip);
      assert Boundaries(g, base, tip)[k - 1] in Boundaries(g, base, tip);
      assert Boundaries(g, base, tip)[k - 1] in g.parents;
    }
  }

  // Every list a push assembles passes manifest validation.
  method BuildManifest(g: Dag, repo: Repository, branch: string, base: Hash, tip: Hash, kept: seq<BundleRef>,
                       refs: map<string, BundleRef>, w: World) returns (result: Option<Manifest>)
    requires tip in g.parents && branch != "" && (base == "" || IsAncestor(g, base, tip))
    requires GoodChain(g, repo, kept, StartOf(base, tip))
    requires Named(refs) && w.completed == refs.Keys && Inspects(w, repo, tip)
    ensures result.Some? ==>
      var m := result.value;
      && Complete(m, repo) && GoodChain(g, repo, m.bundles, tip) && kept <= m.bundles
      && m.tip == tip && m.branch == branch && !m.legacy
      && AssembledFrom(g, base, tip, kept, refs, w, m.bundles)
    ensures Cooperative(w) ==> result.Some?
  {
    hide Reach, IsAncestor, Stored, Inspects, Linked, Ancestral, Named, StartOf, IsHex, AssembledFrom, Cooperative,
      Boundaries;
    var bundles := AssembleBundles(g, repo, base, tip, kept, refs, w);
    if bundles.None? {
      return None;
    }
    var m := NewManifest(repo, branch, tip, bundles.value);
    NonEmptyChain(g, bundles.value, tip);
    AncestralChainIsComplete(g, m, repo);
    return Some(m);
  }

  lemma NonEmptyChain(g: Dag, bundles: seq<BundleRef>, tip: Hash)
    requires tip in g.parents && Linked(bundles, Zeros(g.width), tip)
    ensures bundles != [] && IsObjectId(tip) && |tip| == g.width
  {
    hide Reach;
  }
}
