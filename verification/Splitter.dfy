/** Splitting one push's remaining history into size-bounded bundles. */
module Splitter {
  import opened Wrappers
  import opened Names
  import opened Commits
  import opened Chains
  import opened Planner

  // What Git, the disk and the object store answer during one attempt. No answer is constrained.
  datatype World = World(
    target: int,
    estimate: (Hash, Hash) -> Option<int>,
    pack: (Hash, Hash) -> Option<int>,
    completed: set<string>,
    upload: string -> bool,
    inspect: string -> Option<BundleRef>)

  // Externally visible steps, in order. A plaintext bundle file exists from Pack to Remove.
  datatype Effect =
    | Pack(name: string, size: int, commits: nat)
    | Remove(name: string)
    | Upload(name: string, size: int, commits: nat)
    | Reuse(name: string)

  datatype Outcome = Outcome(ok: bool, effects: seq<Effect>, bundles: seq<BundleRef>) {
    function Then(next: Outcome): Outcome {
      Outcome(next.ok, effects + next.effects, bundles + next.bundles)
    }
  }

  function Start(base: Hash, tip: Hash): Hash {
    if base == "" then Zeros(|tip|) else base
  }

  function NameOf(base: Hash, commits: seq<Hash>): string
    requires commits != []
  {
    var tip := commits[|commits| - 1];
    RangeName(Start(base, tip), tip)
  }

  function RunRange(w: World, base: Hash, commits: seq<Hash>): Outcome
    requires commits != []
    decreases |commits|, 1
  {
    var tip, name, n := commits[|commits| - 1], NameOf(base, commits), |commits|;
    if name in w.completed then
      match w.inspect(name)
      case Some(ref) => Outcome(true, [Reuse(name)], [ref])
      case None => Outcome(false, [], [])
    else if n > 1 && (w.estimate(base, tip).None? || w.estimate(base, tip).value < 0) then
      Outcome(false, [], [])
    else if n > 1 && w.estimate(base, tip).value > w.target then
      RunSplit(w, base, commits)
    else if w.pack(base, tip).None? then
      Outcome(false, [], [])
    else
      var size := w.pack(base, tip).value;
      var created := Outcome(true, [Pack(name, size, n)], []);
      if size > w.target && n > 1 then
        created.Then(Outcome(true, [Remove(name)], [])).Then(RunSplit(w, base, commits))
      else if !w.upload(name) then
        created.Then(Outcome(false, [], []))
      else match w.inspect(name)
        case None => created.Then(Outcome(false, [Upload(name, size, n)], []))
        case Some(ref) => created.Then(Outcome(true, [Upload(name, size, n), Remove(name)], [ref]))
  }

  // The size its bundle would have.
  function SizeOf(w: World, base: Hash, commits: seq<Hash>): int
    requires commits != []
  {
    var packed := w.pack(base, commits[|commits| - 1]);
    if packed.Some? then packed.value else 0
  }

  // Neither reused nor packed whole: estimated or found to exceed the target, and divisible.
  predicate Splits(w: World, base: Hash, commits: seq<Hash>)
    requires commits != []
  {
    var tip := commits[|commits| - 1];
    && NameOf(base, commits) !in w.completed && |commits| > 1
    && w.estimate(base, tip).Some? && 0 <= w.estimate(base, tip).value
    && (w.estimate(base, tip).value > w.target || (w.pack(base, tip).Some? && w.pack(base, tip).value > w.target))
  }

  function RunSplit(w: World, base: Hash, commits: seq<Hash>): Outcome
    requires |commits| > 1
    decreases |commits|, 0
  {
    var middle := |commits| / 2;
    var left := RunRange(w, base, commits[..middle]);
    if !left.ok then left else left.Then(RunRange(w, commits[middle - 1], commits[middle..]))
  }

  class PushBundleBuilder {
    const world: World
    var effects: seq<Effect>
    var bundles: seq<BundleRef>

    constructor (world: World, bundles: seq<BundleRef>)
      ensures this.world == world && effects == [] && this.bundles == bundles
    {
      this.world, this.effects, this.bundles := world, [], bundles;
    }

    ghost predicate Ran(outcome: Outcome, before: seq<Effect>, kept: seq<BundleRef>)
      reads this
    {
      effects == before + outcome.effects && bundles == kept + outcome.bundles
    }

    method CreateRange(base: Hash, commits: seq<Hash>) returns (ok: bool)
      requires commits != []
      modifies this
      ensures ok == RunRange(world, base, commits).ok
      ensures Ran(RunRange(world, base, commits), old(effects), old(bundles))
      decreases |commits|, 1
    {
      hide NameOf, RunSplit;
      var tip := commits[|commits| - 1];
      var name := NameOf(base, commits);
      if name in world.completed {
        ok := Record(name);
        if ok {
          effects := effects + [Reuse(name)];
        }
        return;
      }
      if |commits| > 1 {
        var estimate := world.estimate(base, tip);
        if estimate.None? || estimate.value < 0 {
          return false;
        }
        if estimate.value > world.target {
          ok := SplitRange(base, commits);
          return;
        }
      }
      var packed := world.pack(base, tip);
      if packed.None? {
        return false;
      }
      effects := effects + [Pack(name, packed.value, |commits|)];
      if packed.value > world.target && |commits| > 1 {
        effects := effects + [Remove(name)];
        ok := SplitRange(base, commits);
        assert effects == old(effects)
          + ([Pack(name, packed.value, |commits|)] + [Remove(name)] + RunSplit(world, base, commits).effects);
        return;
      }
      if !world.upload(name) {
        return false;
      }
      effects := effects + [Upload(name, packed.value, |commits|)];
      ok := Record(name);
      if ok {
        effects := effects + [Remove(name)];
      }
    }

    method SplitRange(base: Hash, commits: seq<Hash>) returns (ok: bool)
      requires |commits| > 1
      modifies this
      ensures ok == RunSplit(world, base, commits).ok
      ensures Ran(RunSplit(world, base, commits), old(effects), old(bundles))
      decreases |commits|, 0
    {
      hide RunRange, NameOf;
      var middle := |commits| / 2;
      ok := CreateRange(base, commits[..middle]);
      if ok {
        ok := CreateRange(commits[middle - 1], commits[middle..]);
      }
    }

    // Plan the boundaries from base to tip, then pack them.
    method Create(g: Dag, base: Hash, tip: Hash) returns (ok: bool)
      modifies this
      ensures tip in g.parents && (base == "" || IsAncestor(g, base, tip)) && base != tip ==>
        && Boundaries(g, base, tip) != []
        && ok == RunRange(world, base, Boundaries(g, base, tip)).ok
        && Ran(RunRange(world, base, Boundaries(g, base, tip)), old(effects), old(bundles))
        && Frugal(world, base, Boundaries(g, base, tip), effects[|old(effects)|..])
      ensures !(tip in g.parents && (base == "" || IsAncestor(g, base, tip)) && base != tip) ==>
        !ok && effects == old(effects) && bundles == old(bundles)
    {
      hide Reach, Boundaries, RunRange, Accounted, Thrifty;
      var commits, _ := PushBundleCommits(g, base, tip);
      if commits.Failure? {
        if base != "" && IsAncestor(g, base, tip) && base != tip { ProperAncestorAlwaysPlans(g, base, tip); }
        return false;
      }
      BoundariesAreAncestry(g, base, tip);
      ok := CreateRange(base, commits.value);
      StepsAreAccounted(world, base, commits.value);
      NothingIsWasted(world, base, commits.value);
      assert effects[|old(effects)|..] == RunRange(world, base, commits.value).effects;
    }

    // Append a freshly inspected descriptor; a failed inspection appends nothing.
    method Record(name: string) returns (ok: bool)
      modifies this`bundles
      ensures ok == world.inspect(name).Some?
      ensures bundles == if ok then old(bundles) + [world.inspect(name).value] else old(bundles)
    {
      var ref := world.inspect(name);
      ok := ref.Some?;
      if ok {
        bundles := bundles + [ref.value];
      }
    }
  }

  // Nothing the attempt asks of Git, the disk or the store goes wrong. Sizes stay arbitrary.
  ghost predicate Cooperative(w: World) {
    && (forall base, tip :: w.estimate(base, tip).Some? && w.estimate(base, tip).value >= 0)
    && (forall base, tip :: w.pack(base, tip).Some?)
    && (forall name :: w.upload(name) && w.inspect(name).Some?)
  }

  // Splitting adds no failure of its own: whatever the sizes and the target, the work completes.
  lemma {:induction false} CooperativeRunSucceeds(w: World, base: Hash, commits: seq<Hash>)
    requires Cooperative(w) && commits != []
    ensures RunRange(w, base, commits).ok
    decreases |commits|
  {
    hide NameOf;
    if Splits(w, base, commits) {
      var middle := |commits| / 2;
      CooperativeRunSucceeds(w, base, commits[..middle]);
      CooperativeRunSucceeds(w, commits[middle - 1], commits[middle..]);
    }
    assert w.inspect(NameOf(base, commits)).Some?;
  }

  // ----- The emitted chain -----

  // Inspection describes the object it was asked about.
  ghost predicate Honest(w: World) {
    forall name :: w.inspect(name).Some? ==> w.inspect(name).value.range == name
  }

  // Work a builder can be given: boundaries on one line, all following the base.
  ghost predicate Work(g: Dag, base: Hash, commits: seq<Hash>) {
    && commits != [] && AncestryLine(g, commits)
    && (forall c | c in commits :: Follows(g, base, c))
  }

  lemma WorkSplits(g: Dag, base: Hash, commits: seq<Hash>, middle: nat)
    requires Work(g, base, commits) && 0 < middle < |commits|
    ensures Work(g, base, commits[..middle])
    ensures Work(g, commits[middle - 1], commits[middle..])
  {
    hide Reach, IsAncestor;
    forall i | 0 <= i < |commits| - middle ensures commits[middle..][i] == commits[middle + i] {}
  }

  lemma SameWidth(g: Dag, base: Hash, commits: seq<Hash>, middle: nat)
    requires Work(g, base, commits) && 0 < middle < |commits|
    ensures commits[..middle][middle - 1] == commits[middle - 1]
    ensures commits[middle..][|commits| - middle - 1] == commits[|commits| - 1]
    ensures Start(base, commits[middle - 1]) == Start(base, commits[|commits| - 1])
    ensures commits[middle - 1] != ""
  {
    hide Reach, IsAncestor;
    assert commits[middle - 1] in g.parents && commits[|commits| - 1] in g.parents;
  }

  lemma WorkNamesRange(g: Dag, base: Hash, commits: seq<Hash>)
    requires Work(g, base, commits)
    ensures ParseRange(NameOf(base, commits)) == Some((Start(base, commits[|commits| - 1]), commits[|commits| - 1]))
    ensures Grounded(g, NameOf(base, commits))
  {
    hide Reach;
    var tip := commits[|commits| - 1];
    assert tip in commits && Follows(g, base, tip) && tip in g.parents && IsObjectId(tip) && |tip| == g.width;
    if base == "" {
      assert IsHex(Zeros(g.width));
    } else {
      assert base in g.parents;
    }
    ParseRangeRoundTrip(Start(base, tip), tip);
  }

  // A finished run emits, left to right, a gap-free ancestral chain from the base to the last commit;
  // an unfinished one emits a chain that starts at the base.
  lemma {:induction false} EmitsChain(g: Dag, w: World, base: Hash, commits: seq<Hash>) returns (end: Hash)
    requires Work(g, base, commits) && Honest(w)
    ensures
      var o := RunRange(w, base, commits);
      && Ancestral(g, o.bundles)
      && Linked(o.bundles, Start(base, commits[|commits| - 1]), end)
      && (o.ok ==> end == commits[|commits| - 1])
    decreases |commits|, 1
  {
    hide Reach, IsAncestor, Follows, AncestryLine, Zeros, ParseRange, NameOf, Start, RunSplit;
    var o, tip, name := RunRange(w, base, commits), commits[|commits| - 1], NameOf(base, commits);
    WorkNamesRange(g, base, commits);
    if Splits(w, base, commits) {
      end := SplitEmitsChain(g, w, base, commits);
      assert o.bundles == RunSplit(w, base, commits).bundles;
    } else if o.bundles == [] {
      end := Start(base, tip);
    } else {
      end := tip;
      assert o.bundles == [w.inspect(name).value] && o.bundles[..0] == [];
    }
  }

  lemma {:induction false} SplitEmitsChain(g: Dag, w: World, base: Hash, commits: seq<Hash>) returns (end: Hash)
    requires Work(g, base, commits) && Honest(w) && |commits| > 1
    ensures
      var o := RunSplit(w, base, commits);
      && Ancestral(g, o.bundles)
      && Linked(o.bundles, Start(base, commits[|commits| - 1]), end)
      && (o.ok ==> end == commits[|commits| - 1])
    decreases |commits|, 0
  {
    hide Reach, IsAncestor, Follows, AncestryLine, Zeros, ParseRange, Grounded;
    var middle := |commits| / 2;
    var tip, left := commits[|commits| - 1], RunRange(w, base, commits[..middle]);
    WorkSplits(g, base, commits, middle);
    SameWidth(g, base, commits, middle);
    end := EmitsChain(g, w, base, commits[..middle]);
    if left.ok {
      var turn, right := commits[middle - 1], RunRange(w, commits[middle - 1], commits[middle..]);
      end := EmitsChain(g, w, turn, commits[middle..]);
      LinkedConcat(left.bundles, right.bundles, Start(base, tip), turn, end);
    }
  }

  // ----- Sizes -----

  predicate Fits(w: World, e: Effect) {
    e.Upload? ==> e.size <= w.target || e.commits == 1
  }

  // Every uploaded bundle fits the target or is one first-parent increment.
  lemma {:induction false} UploadsFit(w: World, base: Hash, commits: seq<Hash>)
    requires commits != []
    ensures forall e | e in RunRange(w, base, commits).effects :: Fits(w, e)
    decreases |commits|
  {
    hide NameOf;
    if Splits(w, base, commits) {
      var middle := |commits| / 2;
      UploadsFit(w, base, commits[..middle]);
      UploadsFit(w, commits[middle - 1], commits[middle..]);
    }
  }

  // ----- What a trace accounts for -----

  // The boundary before position i.
  function BaseAt(base: Hash, commits: seq<Hash>, i: nat): Hash
    requires i <= |commits|
  {
    if i == 0 then base else commits[i - 1]
  }

  // This step is about the commits from position i to j, and what it was answered calls for it: only a range nobody
  // completed and whose estimate fits is packed, only what fits or cannot be divided is uploaded.
  ghost predicate About(w: World, base: Hash, commits: seq<Hash>, e: Effect, i: nat, j: nat) {
    && i < j <= |commits| && e.name == NameOf(BaseAt(base, commits, i), commits[i..j])
    && var from, tip := BaseAt(base, commits, i), commits[j - 1];
    match e
    case Pack(name, size, n) =>
      && n == j - i && name !in w.completed && w.pack(from, tip) == Some(size)
      && (n > 1 ==> w.estimate(from, tip).Some? && 0 <= w.estimate(from, tip).value <= w.target)
    case Remove(name) => name !in w.completed && w.pack(from, tip).Some?
    case Upload(name, size, n) =>
      && n == j - i && name !in w.completed && w.pack(from, tip) == Some(size) && w.upload(name)
      && (n > 1 ==> size <= w.target)
    case Reuse(name) => name in w.completed && w.inspect(name).Some?
  }

  // Some answer about the whole range exceeds the target.
  ghost predicate Exceeds(w: World, base: Hash, commits: seq<Hash>)
    requires commits != []
  {
    var tip := commits[|commits| - 1];
    || (w.estimate(base, tip).Some? && w.estimate(base, tip).value > w.target)
    || (w.pack(base, tip).Some? && w.pack(base, tip).value > w.target)
  }

  // A step is about the whole range; or nobody completed the range, it exceeds the target, and the step stays inside
  // one of its halves.
  ghost predicate Accounted(w: World, base: Hash, commits: seq<Hash>, e: Effect) {
    exists i: nat, j: nat :: About(w, base, commits, e, i, j) && Placed(w, base, commits, i, j)
  }

  ghost predicate Placed(w: World, base: Hash, commits: seq<Hash>, i: nat, j: nat) {
    var n := |commits|;
    && n > 0
    && (|| (i == 0 && j == n)
        || (n > 1 && NameOf(base, commits) !in w.completed && Exceeds(w, base, commits) && (j <= n / 2 || i >= n / 2)))
  }

  // What is packed is uploaded as it is; it is discarded only if it can be divided and is larger than the target.
  ghost predicate Thrifty(w: World, effects: seq<Effect>) {
    forall k | 0 <= k < |effects| - 1 && effects[k].Pack? ::
      || effects[k + 1] == Upload(effects[k].name, effects[k].size, effects[k].commits)
      || (effects[k + 1] == Remove(effects[k].name) && effects[k].commits > 1 && effects[k].size > w.target)
  }

  lemma SliceOfSlice<T>(s: seq<T>, a: nat, b: nat, i: nat, j: nat)
    requires a <= b <= |s| && i <= j <= b - a
    ensures s[a..b][i..j] == s[a + i..a + j]
  {
    var part := s[a..b];
    assert |part| == b - a && |part[i..j]| == j - i == |s[a + i..a + j]|;
    forall k | 0 <= k < j - i ensures part[i..j][k] == s[a + i..a + j][k] {
      assert part[i + k] == s[a + (i + k)];
    }
  }

  lemma AboutPart(w: World, base: Hash, commits: seq<Hash>, a: nat, b: nat, e: Effect, i: nat, j: nat)
    requires a <= b <= |commits| && About(w, BaseAt(base, commits, a), commits[a..b], e, i, j)
    ensures About(w, base, commits, e, a + i, a + j)
  {
    hide NameOf;
    AboutFits(w, BaseAt(base, commits, a), commits[a..b], e, i, j);
    SliceOfSlice(commits, a, b, i, j);
    assert BaseAt(BaseAt(base, commits, a), commits[a..b], i) == BaseAt(base, commits, a + i);
  }

  lemma AboutWhole(w: World, base: Hash, commits: seq<Hash>, e: Effect)
    requires commits != [] && About(w, base, commits, e, 0, |commits|)
    ensures Accounted(w, base, commits, e)
  {
    hide About;
    assert Placed(w, base, commits, 0, |commits|);
  }

  lemma HalfIsAccounted(w: World, base: Hash, commits: seq<Hash>, a: nat, b: nat, e: Effect)
    requires a <= b <= |commits| && |commits| > 1 && Exceeds(w, base, commits)
    requires NameOf(base, commits) !in w.completed
    requires Accounted(w, BaseAt(base, commits, a), commits[a..b], e)
    requires b <= |commits| / 2 || a >= |commits| / 2
    ensures Accounted(w, base, commits, e)
  {
    hide About;
    var i: nat, j: nat :| About(w, BaseAt(base, commits, a), commits[a..b], e, i, j)
                          && Placed(w, BaseAt(base, commits, a), commits[a..b], i, j);
    AboutPart(w, base, commits, a, b, e, i, j);
    assert j <= b - a by { AboutFits(w, BaseAt(base, commits, a), commits[a..b], e, i, j); }
    assert Placed(w, base, commits, a + i, a + j);
  }

  lemma AboutFits(w: World, base: Hash, commits: seq<Hash>, e: Effect, i: nat, j: nat)
    requires About(w, base, commits, e, i, j)
    ensures i < j <= |commits|
  {}

  // Every step of a run is accounted for, at every depth of the division.
  lemma {:induction false} StepsAreAccounted(w: World, base: Hash, commits: seq<Hash>)
    requires commits != []
    ensures forall e | e in RunRange(w, base, commits).effects :: Accounted(w, base, commits, e)
    decreases |commits|
  {
    hide NameOf, Accounted, Exceeds;
    var o, n := RunRange(w, base, commits), |commits|;
    if Splits(w, base, commits) {
      var middle := n / 2;
      var left, right := RunRange(w, base, commits[..middle]), RunRange(w, commits[middle - 1], commits[middle..]);
      StepsAreAccounted(w, base, commits[..middle]);
      StepsAreAccounted(w, commits[middle - 1], commits[middle..]);
      SplitsExceeds(w, base, commits);
      forall e | e in left.effects ensures Accounted(w, base, commits, e) {
        assert commits[0..middle] == commits[..middle];
        HalfIsAccounted(w, base, commits, 0, middle, e);
      }
      forall e | e in right.effects ensures Accounted(w, base, commits, e) {
        assert commits[middle..n] == commits[middle..];
        HalfIsAccounted(w, base, commits, middle, n, e);
      }
    }
    OwnSteps(w, base, commits);
    forall e | e in o.effects ensures Accounted(w, base, commits, e) {
      if WholeStep(w, base, commits, e) {
        WholeIsAccounted(w, base, commits, e);
      }
    }
  }

  lemma OwnSteps(w: World, base: Hash, commits: seq<Hash>)
    requires commits != []
    ensures forall e | e in RunRange(w, base, commits).effects ::
      WholeStep(w, base, commits, e) || (Splits(w, base, commits) && e in RunSplit(w, base, commits).effects)
  {
    hide NameOf, RunSplit;
    var o, split := RunRange(w, base, commits), if |commits| > 1 then RunSplit(w, base, commits).effects else [];
    var name, size, n := NameOf(base, commits), SizeOf(w, base, commits), |commits|;
    assert Splits(w, base, commits) ==>
      o.effects == split || o.effects == [Pack(name, size, n)] + [Remove(name)] + split;
  }

  // A step taken on the range itself.
  predicate WholeStep(w: World, base: Hash, commits: seq<Hash>, e: Effect)
    requires commits != []
  {
    var name, tip, n := NameOf(base, commits), commits[|commits| - 1], |commits|;
    if name in w.completed then e == Reuse(name) && w.inspect(name).Some?
    else
      && w.pack(base, tip).Some?
      && (n > 1 ==> w.estimate(base, tip).Some? && 0 <= w.estimate(base, tip).value <= w.target)
      && (|| e == Pack(name, SizeOf(w, base, commits), n) || e == Remove(name)
          || (e == Upload(name, SizeOf(w, base, commits), n) && w.upload(name)
              && (n > 1 ==> SizeOf(w, base, commits) <= w.target)))
  }

  lemma WholeIsAccounted(w: World, base: Hash, commits: seq<Hash>, e: Effect)
    requires commits != [] && WholeStep(w, base, commits, e)
    ensures Accounted(w, base, commits, e)
  {
    hide NameOf;
    assert commits[0..|commits|] == commits;
    AboutWhole(w, base, commits, e);
  }

  lemma SplitsExceeds(w: World, base: Hash, commits: seq<Hash>)
    requires commits != [] && Splits(w, base, commits)
    ensures Exceeds(w, base, commits)
  {}

  predicate EndsPacked(effects: seq<Effect>) {
    effects != [] && effects[|effects| - 1].Pack?
  }

  lemma ThriftyConcat(w: World, a: seq<Effect>, b: seq<Effect>)
    requires Thrifty(w, a) && Thrifty(w, b) && !EndsPacked(a)
    ensures Thrifty(w, a + b)
  {
    var both := a + b;
    forall k | 0 <= k < |both| - 1 && both[k].Pack?
      ensures || both[k + 1] == Upload(both[k].name, both[k].size, both[k].commits)
              || (both[k + 1] == Remove(both[k].name) && both[k].commits > 1 && both[k].size > w.target)
    {
      if k >= |a| { assert both[k] == b[k - |a|] && both[k + 1] == b[k + 1 - |a|]; }
    }
  }

  // No bundle is packed in vain: after a pack comes its upload, or its removal because it exceeds the target.
  lemma {:induction false} NothingIsWasted(w: World, base: Hash, commits: seq<Hash>)
    requires commits != []
    ensures
      var o := RunRange(w, base, commits);
      Thrifty(w, o.effects) && (o.ok ==> !EndsPacked(o.effects))
    decreases |commits|, 1
  {
    hide NameOf, Thrifty, RunSplit;
    if Splits(w, base, commits) {
      SplitWastesNothing(w, base, commits);
      var name, size, n := NameOf(base, commits), SizeOf(w, base, commits), |commits|;
      if size > w.target {
        DiscardIsThrifty(w, name, size, n);
        ThriftyConcat(w, [Pack(name, size, n)] + [Remove(name)], RunSplit(w, base, commits).effects);
      }
    } else {
      LeafIsThrifty(w, base, commits);
    }
  }

  lemma {:induction false} SplitWastesNothing(w: World, base: Hash, commits: seq<Hash>)
    requires |commits| > 1
    ensures
      var o := RunSplit(w, base, commits);
      Thrifty(w, o.effects) && (o.ok ==> !EndsPacked(o.effects))
    decreases |commits|, 0
  {
    hide RunRange, Thrifty;
    var middle := |commits| / 2;
    var left := RunRange(w, base, commits[..middle]);
    NothingIsWasted(w, base, commits[..middle]);
    if left.ok {
      NothingIsWasted(w, commits[middle - 1], commits[middle..]);
      ThriftyConcat(w, left.effects, RunRange(w, commits[middle - 1], commits[middle..]).effects);
    }
  }

  lemma DiscardIsThrifty(w: World, name: string, size: int, n: nat)
    requires size > w.target && n > 1
    ensures Thrifty(w, [Pack(name, size, n)] + [Remove(name)]) && !EndsPacked([Pack(name, size, n)] + [Remove(name)])
  {}

  lemma LeafIsThrifty(w: World, base: Hash, commits: seq<Hash>)
    requires commits != [] && !Splits(w, base, commits)
    ensures
      var o := RunRange(w, base, commits);
      Thrifty(w, o.effects) && (o.ok ==> !EndsPacked(o.effects))
  {
    hide NameOf, RunSplit;
  }

  // A whole range that nobody completed, that fits and meets no failure is packed once and recorded as one bundle.
  lemma FittingIsKeptWhole(w: World, base: Hash, commits: seq<Hash>)
    requires Cooperative(w) && commits != [] && NameOf(base, commits) !in w.completed
    requires |commits| == 1 || !Exceeds(w, base, commits)
    ensures
      var o, name, n := RunRange(w, base, commits), NameOf(base, commits), |commits|;
      var size := w.pack(base, commits[n - 1]).value;
      && o.effects == [Pack(name, size, n), Upload(name, size, n), Remove(name)]
      && o.bundles == [w.inspect(name).value]
  {
    hide NameOf;
  }

  // What any finished or failed run leaves in the trace.
  ghost predicate Frugal(w: World, base: Hash, commits: seq<Hash>, effects: seq<Effect>) {
    && Thrifty(w, effects) && forall e | e in effects :: Accounted(w, base, commits, e)
  }

  // ----- Plaintext files -----

  // Follow the one plaintext file through a trace: None when a step would need a second file
  // or touch a file that is not there.
  function Replay(effects: seq<Effect>, open: Option<string>): Option<Option<string>> {
    if effects == [] then Some(open) else
      match effects[0]
      case Pack(name, _, _) => if open == None then Replay(effects[1..], Some(name)) else None
      case Remove(name) => if open == Some(name) then Replay(effects[1..], None) else None
      case Upload(name, _, _) => if open == Some(name) then Replay(effects[1..], open) else None
      case Reuse(_) => if open == None then Replay(effects[1..], open) else None
  }

  lemma {:induction false} ReplayConcat(a: seq<Effect>, b: seq<Effect>, open: Option<string>)
    ensures Replay(a + b, open) == match Replay(a, open) case None => None case Some(next) => Replay(b, next)
  {
    if a == [] {
      assert a + b == b;
    } else {
      assert (a + b)[1..] == a[1..] + b && (a + b)[0] == a[0];
      match a[0]
      case Pack(name, _, _) => ReplayConcat(a[1..], b, Some(name));
      case Remove(_) => ReplayConcat(a[1..], b, None);
      case Upload(_, _, _) => ReplayConcat(a[1..], b, open);
      case Reuse(_) => ReplayConcat(a[1..], b, open);
    }
  }

  // At every moment at most one plaintext file exists, and a finished run leaves none.
  lemma {:induction false} OneFileAtATime(w: World, base: Hash, commits: seq<Hash>)
    requires commits != []
    ensures Replay(RunRange(w, base, commits).effects, None).Some?
    ensures RunRange(w, base, commits).ok ==> Replay(RunRange(w, base, commits).effects, None) == Some(None)
    decreases |commits|
  {
    hide NameOf;
    var o, name := RunRange(w, base, commits), NameOf(base, commits);
    if Splits(w, base, commits) {
      var middle := |commits| / 2;
      var left, right := RunRange(w, base, commits[..middle]), RunRange(w, commits[middle - 1], commits[middle..]);
      OneFileAtATime(w, base, commits[..middle]);
      OneFileAtATime(w, commits[middle - 1], commits[middle..]);
      ReplayConcat(left.effects, right.effects, None);
      var split := RunSplit(w, base, commits).effects;
      var size := SizeOf(w, base, commits);
      var discarded := [Pack(name, size, |commits|), Remove(name)];
      ReplayConcat(discarded, split, None);
      ReplayDiscard(name, size, |commits|);
      assert [Pack(name, size, |commits|)] + [Remove(name)] + split == discarded + split;
    } else {
      ReplayKeep(name, SizeOf(w, base, commits), |commits|);
      assert forall xs: seq<Effect> :: xs + [] == xs;
    }
  }

  lemma ReplayDiscard(name: string, size: int, n: nat)
    ensures Replay([Pack(name, size, n), Remove(name)], None) == Some(None)
  {
    assert [Pack(name, size, n), Remove(name)][1..] == [Remove(name)];
    assert Replay([Remove(name)], Some(name)) == Some(None);
  }

  lemma ReplayKeep(name: string, size: int, n: nat)
    ensures Replay([Reuse(name)], None) == Some(None)
    ensures Replay([Pack(name, size, n)], None) == Some(Some(name))
    ensures Replay([Pack(name, size, n)] + [Upload(name, size, n)], None) == Some(Some(name))
    ensures Replay([Pack(name, size, n)] + [Upload(name, size, n), Remove(name)], None) == Some(None)
  {
    ReplayConcat([Pack(name, size, n)], [Upload(name, size, n)], None);
    ReplayConcat([Pack(name, size, n)], [Upload(name, size, n), Remove(name)], None);
    ReplayConcat([Upload(name, size, n)], [Remove(name)], Some(name));
    assert [Upload(name, size, n), Remove(name)] == [Upload(name, size, n)] + [Remove(name)];
  }

  // ----- Packing work -----

  function PackedCommits(effects: seq<Effect>): nat {
    if effects == [] then 0 else
      (if effects[0].Pack? then effects[0].commits else 0) + PackedCommits(effects[1..])
  }

  lemma {:induction false} PackedConcat(a: seq<Effect>, b: seq<Effect>)
    ensures PackedCommits(a + b) == PackedCommits(a) + PackedCommits(b)
  {
    if a == [] {
      assert a + b == b;
    } else {
      PackedConcat(a[1..], b);
      assert (a + b)[1..] == a[1..] + b && (a + b)[0] == a[0];
    }
  }

  function CeilLog2(n: nat): nat {
    if n <= 1 then 0 else 1 + CeilLog2((n + 1) / 2)
  }

  lemma {:induction false} CeilLog2Monotone(m: nat, n: nat)
    requires m <= n
    ensures CeilLog2(m) <= CeilLog2(n)
  {
    if m > 1 { CeilLog2Monotone((m + 1) / 2, (n + 1) / 2); }
  }

  lemma HalvesBound(n: nat, left: nat, right: nat)
    requires n > 1
    requires left <= (n / 2) * (CeilLog2(n / 2) + 1)
    requires right <= (n - n / 2) * (CeilLog2(n - n / 2) + 1)
    ensures n + left + right <= n * (CeilLog2(n) + 1)
  {
    var a, b, k := n / 2, n - n / 2, CeilLog2(n);
    assert b == (n + 1) / 2 && CeilLog2(b) + 1 == k;
    CeilLog2Monotone(a, b);
    HalvesArithmetic(a, b, CeilLog2(a) + 1, k, left, right);
  }

  lemma HalvesArithmetic(a: nat, b: nat, x: nat, k: nat, left: nat, right: nat)
    requires x <= k && left <= a * x && right <= b * k
    ensures a + b + left + right <= (a + b) * (k + 1)
  {
    ProductMonotone(a, x, k);
    assert (a + b) * (k + 1) == a * k + b * k + a + b;
  }

  lemma ProductMonotone(a: nat, x: nat, y: nat)
    requires x <= y
    ensures a * x <= a * y
  {}

  // Over all packing attempts, kept and discarded, no more than n * (ceil(log2 n) + 1) commits are packed.
  lemma {:induction false} PackingIsBounded(w: World, base: Hash, commits: seq<Hash>)
    requires commits != []
    ensures PackedCommits(RunRange(w, base, commits).effects) <= |commits| * (CeilLog2(|commits|) + 1)
    decreases |commits|
  {
    hide NameOf, CeilLog2;
    var o, name, n := RunRange(w, base, commits), NameOf(base, commits), |commits|;
    if Splits(w, base, commits) {
      var middle := n / 2;
      var left, right := RunRange(w, base, commits[..middle]), RunRange(w, commits[middle - 1], commits[middle..]);
      PackingIsBounded(w, base, commits[..middle]);
      PackingIsBounded(w, commits[middle - 1], commits[middle..]);
      PackedConcat(left.effects, right.effects);
      HalvesBound(n, PackedCommits(left.effects), PackedCommits(right.effects));
      var split := RunSplit(w, base, commits).effects;
      var size := SizeOf(w, base, commits);
      PackedConcat([Pack(name, size, n)] + [Remove(name)], split);
      PackedConcat([Pack(name, size, n)], [Remove(name)]);
      PackedOne(Pack(name, size, n));
      PackedOne(Remove(name));
    } else {
      PackedWhole(o.effects, n);
      ProductMonotone(n, 1, CeilLog2(n) + 1);
    }
  }

  lemma PackedOne(e: Effect)
    ensures PackedCommits([e]) == if e.Pack? then e.commits else 0
  {}

  lemma PackedWhole(effects: seq<Effect>, n: nat)
    requires |effects| <= 3
    requires forall i | 0 <= i < |effects| :: effects[i].Pack? ==> i == 0 && effects[i].commits == n
    ensures PackedCommits(effects) <= n
  {
    if |effects| > 0 {
      var rest := effects[1..];
      assert forall i | 0 <= i < |rest| :: rest[i] == effects[i + 1];
      PackedNone(rest);
    }
  }

  lemma {:induction false} PackedNone(effects: seq<Effect>)
    requires forall i | 0 <= i < |effects| :: !effects[i].Pack?
    ensures PackedCommits(effects) == 0
  {
    if effects != [] {
      assert forall i | 0 <= i < |effects| - 1 :: effects[1..][i] == effects[i + 1];
      PackedNone(effects[1..]);
    }
  }

  // ----- The first leaf -----

  function Uploaded(effects: seq<Effect>): set<string> {
    set e | e in effects && e.Upload? :: e.name
  }

  ghost predicate Begins(names: set<string>, base: Hash, commits: seq<Hash>) {
    exists c :: c in commits && RangeName(Start(base, c), c) in names
  }

  // When nothing completed starts at the base, an attempt that finishes or uploads anything
  // has uploaded a bundle that starts there.
  lemma {:induction false} FirstLeafIsUploaded(w: World, base: Hash, commits: seq<Hash>)
    requires commits != []
    requires !Begins(w.completed, base, commits)
    ensures
      var o := RunRange(w, base, commits);
      o.ok || Uploaded(o.effects) != {} ==> Begins(Uploaded(o.effects), base, commits)
    decreases |commits|
  {
    hide RangeName, Start;
    var o, n := RunRange(w, base, commits), |commits|;
    var tip, name := commits[n - 1], NameOf(base, commits);
    if Splits(w, base, commits) {
      var middle := n / 2;
      var left := RunRange(w, base, commits[..middle]);
      BeginsMonotone(w.completed, w.completed, base, commits[..middle], commits);
      FirstLeafIsUploaded(w, base, commits[..middle]);
      SplitUploads(w, base, commits);
      if o.ok || Uploaded(o.effects) != {} {
        BeginsMonotone(Uploaded(left.effects), Uploaded(o.effects), base, commits[..middle], commits);
      }
    } else {
      assert tip in commits && RangeName(Start(base, tip), tip) == name;
      if w.pack(base, tip).Some? {
        var keep := Upload(name, w.pack(base, tip).value, n);
        if keep in o.effects { assert name in Uploaded(o.effects); }
      }
    }
  }

  lemma BeginsMonotone(some: set<string>, more: set<string>, base: Hash, part: seq<Hash>, all: seq<Hash>)
    requires some <= more && forall c | c in part :: c in all
    ensures Begins(some, base, part) ==> Begins(more, base, all)
  {}

  lemma SplitUploads(w: World, base: Hash, commits: seq<Hash>)
    requires commits != [] && Splits(w, base, commits)
    ensures
      var o, left := RunRange(w, base, commits), RunRange(w, base, commits[..|commits| / 2]);
      && Uploaded(left.effects) <= Uploaded(o.effects)
      && (o.ok ==> left.ok)
      && (!left.ok ==> Uploaded(o.effects) == Uploaded(left.effects))
  {
    hide NameOf;
    var o, left := RunRange(w, base, commits), RunRange(w, base, commits[..|commits| / 2]);
    var split, name, n := RunSplit(w, base, commits), NameOf(base, commits), |commits|;
    var rest := if left.ok then RunRange(w, commits[n / 2 - 1], commits[n / 2..]).effects else [];
    var size := SizeOf(w, base, commits);
    var discarded := if o.effects == split.effects then [] else [Pack(name, size, n)] + [Remove(name)];
    assert split.effects == left.effects + rest;
    assert o.effects == discarded + split.effects;
    forall e ensures e in o.effects <==> e in discarded || e in left.effects || e in rest {}
  }
}
