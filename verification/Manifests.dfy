/** Published manifests: one-pass validation against what a complete bundle chain is. */
module Manifests {
  import opened Ordering
  import opened Names
  import opened Commits
  import opened Chains

  const VERSION := 2
  const CODEC := "libsodium-secretstream-box-v1"

  datatype Manifest = Manifest(
    version: int, repository: string, branch: string, tip: Hash, objectFormat: string, codec: string,
    bundles: seq<BundleRef>, legacy: bool)

  function NewManifest(repo: Repository, branch: string, tip: Hash, bundles: seq<BundleRef>): Manifest {
    Manifest(VERSION, repo.Canonical(), branch, tip, if |tip| == 64 then "sha256" else "sha1", CODEC, bundles, false)
  }

  // ----- What a complete manifest is -----

  predicate IsRecipient(s: string) {
    |s| == 128 && IsHex(s)
  }

  // A duplicate-free sorted list of key fingerprints.
  ghost predicate Policy(recipients: seq<string>) {
    recipients != [] && StrictlySorted(recipients) && forall r | r in recipients :: IsRecipient(r)
  }

  ghost predicate Identified(bundle: BundleRef) {
    bundle.size > 0 && bundle.etag != "" && Policy(bundle.recipients)
  }

  ghost predicate Stored(repo: Repository, bundle: BundleRef) {
    ValidBundleKey(repo, bundle) && Identified(bundle)
  }

  predicate Header(m: Manifest, repo: Repository) {
    && m.version == VERSION && m.repository == repo.Canonical() && m.codec == CODEC && IsObjectId(m.tip)
    && m.branch != ""
    && ((m.objectFormat == "sha1" && |m.tip| == 40) || (m.objectFormat == "sha256" && |m.tip| == 64))
  }

  ghost predicate DistinctEnds(bundles: seq<BundleRef>) {
    forall i, j | 0 <= i < j < |bundles| :: RangeEnd(bundles[i].range) != RangeEnd(bundles[j].range)
  }

  // A complete acyclic chain from the zero commit to the tip, inside the repository's namespace.
  ghost predicate Complete(m: Manifest, repo: Repository) {
    && Header(m, repo) && m.bundles != []
    && Linked(m.bundles, Zeros(|m.tip|), m.tip)
    && DistinctEnds(m.bundles)
    && (forall b | b in m.bundles :: |RangeEnd(b.range)| == |m.tip| && ValidBundleKey(repo, b))
    && (!m.legacy ==> forall b | b in m.bundles :: Identified(b))
  }

  // ----- The one-pass check -----

  method ValidPolicy(recipients: seq<string>) returns (ok: bool)
    ensures ok <==> Policy(recipients)
  {
    hide Leq, IsRecipient;
    if |recipients| == 0 {
      return false;
    }
    for i := 0 to |recipients|
      invariant forall j | 0 < j < i :: Leq(recipients[j - 1], recipients[j])
    {
      if i > 0 && !Leq(recipients[i - 1], recipients[i]) {
        return false;
      }
    }
    AdjacentSorted(recipients);
    for i := 0 to |recipients|
      invariant forall j | 0 <= j < i :: IsRecipient(recipients[j])
      invariant forall j | 0 < j < i :: recipients[j - 1] != recipients[j]
    {
      if !IsRecipient(recipients[i]) || (i > 0 && recipients[i] == recipients[i - 1]) {
        return false;
      }
    }
    forall i, j | 0 <= i < j < |recipients| ensures Less(recipients[i], recipients[j]) {
      if recipients[i] == recipients[j] {
        LeqAntisymmetric(recipients[j - 1], recipients[j]);
      }
    }
    ok := true;
  }

  // What one descriptor must satisfy on its own.
  ghost predicate Admissible(m: Manifest, repo: Repository, b: BundleRef) {
    |RangeEnd(b.range)| == |m.tip| && ValidBundleKey(repo, b) && (!m.legacy ==> Identified(b))
  }

  method CheckBundle(m: Manifest, repo: Repository, bundle: BundleRef) returns (ok: bool)
    requires |RangeEnd(bundle.range)| == |m.tip|
    ensures ok <==> Admissible(m, repo, bundle)
  {
    hide ParseRange, ValidBundleKey, Policy;
    if !ValidBundleKey(repo, bundle) {
      return false;
    }
    if !m.legacy {
      var policy := ValidPolicy(bundle.recipients);
      return bundle.size > 0 && bundle.etag != "" && policy;
    }
    return true;
  }

  // The loop keeps only the previous end and the set of ends seen, and accepts exactly the complete manifests.
  method Validate(m: Manifest, repo: Repository) returns (ok: bool)
    ensures ok <==> Complete(m, repo)
  {
    hide ParseRange, RangeBase, RangeEnd, Admissible, Zeros, Linked, DistinctEnds, Header;
    CompleteBySteps(m, repo);
    if !Header(m, repo) || |m.bundles| == 0 {
      return false;
    }
    var previous := Zeros(|m.tip|);
    var seen: set<Hash> := {};
    StartChain(m.bundles[..0], previous);
    for i := 0 to |m.bundles|
      invariant Linked(m.bundles[..i], Zeros(|m.tip|), previous) && DistinctEnds(m.bundles[..i])
      invariant seen == Ends(m.bundles[..i])
      invariant forall j | 0 <= j < i :: Admissible(m, repo, m.bundles[j])
    {
      var bundle := m.bundles[i];
      if ParseRange(bundle.range).None? || RangeBase(bundle.range) != previous
         || RangeEnd(bundle.range) in seen || |RangeEnd(bundle.range)| != |m.tip| {
        if Complete(m, repo) { BrokenAt(m, i, previous); EndWidth(m, repo, i); }
        return false;
      }
      ExtendChain(m.bundles, i, Zeros(|m.tip|), previous);
      seen, previous := seen + {RangeEnd(bundle.range)}, RangeEnd(bundle.range);
      var admissible := CheckBundle(m, repo, bundle);
      if !admissible {
        return false;
      }
    }
    assert m.bundles[..|m.bundles|] == m.bundles;
    LinkedEnd(m.bundles, Zeros(|m.tip|), previous, m.tip);
    ok := previous == m.tip;
  }

  lemma CompleteBySteps(m: Manifest, repo: Repository)
    ensures Complete(m, repo) <==>
      && Header(m, repo) && m.bundles != []
      && Linked(m.bundles, Zeros(|m.tip|), m.tip) && DistinctEnds(m.bundles)
      && forall j | 0 <= j < |m.bundles| :: Admissible(m, repo, m.bundles[j])
  {
    hide ParseRange, RangeEnd, Header, Linked, Identified, ValidBundleKey, DistinctEnds;
    assert forall b | b in m.bundles :: exists j :: 0 <= j < |m.bundles| && m.bundles[j] == b;
    assert forall j | 0 <= j < |m.bundles| :: m.bundles[j] in m.bundles;
  }

  lemma EndWidth(m: Manifest, repo: Repository, i: nat)
    requires Complete(m, repo) && i < |m.bundles|
    ensures |RangeEnd(m.bundles[i].range)| == |m.tip|
  {
    hide ParseRange, RangeEnd;
    assert m.bundles[i] in m.bundles;
  }

  lemma StartChain(none: seq<BundleRef>, start: Hash)
    requires none == []
    ensures Linked(none, start, start) && DistinctEnds(none) && Ends(none) == {}
  {}

  lemma ExtendChain(bundles: seq<BundleRef>, i: nat, start: Hash, previous: Hash)
    requires i < |bundles| && Linked(bundles[..i], start, previous) && DistinctEnds(bundles[..i])
    requires ParseRange(bundles[i].range).Some? && RangeBase(bundles[i].range) == previous
    requires RangeEnd(bundles[i].range) !in Ends(bundles[..i])
    ensures Linked(bundles[..i + 1], start, RangeEnd(bundles[i].range)) && DistinctEnds(bundles[..i + 1])
    ensures Ends(bundles[..i + 1]) == Ends(bundles[..i]) + {RangeEnd(bundles[i].range)}
  {
    hide ParseRange, RangeBase, RangeEnd;
    ExtendEnds(bundles, i);
  }

  function Ends(bundles: seq<BundleRef>): set<Hash> {
    set b | b in bundles :: RangeEnd(b.range)
  }

  lemma ExtendEnds(bundles: seq<BundleRef>, i: nat)
    requires i < |bundles|
    ensures bundles[..i + 1] == bundles[..i] + [bundles[i]] && bundles[..i + 1][..i] == bundles[..i]
    ensures Ends(bundles[..i + 1]) == Ends(bundles[..i]) + {RangeEnd(bundles[i].range)}
    ensures DistinctEnds(bundles[..i]) && RangeEnd(bundles[i].range) !in Ends(bundles[..i]) ==>
      DistinctEnds(bundles[..i + 1])
  {
    hide ParseRange, RangeEnd;
    var more := bundles[..i + 1];
    assert more == bundles[..i] + [bundles[i]];
    assert forall b :: b in more <==> b in bundles[..i] || b == bundles[i];
    assert forall j | 0 <= j < i :: bundles[..i][j] in bundles[..i] && bundles[..i][j] == more[j];
  }

  lemma BrokenAt(m: Manifest, i: nat, previous: Hash)
    requires i < |m.bundles| && Linked(m.bundles[..i], Zeros(|m.tip|), previous)
    requires Linked(m.bundles, Zeros(|m.tip|), m.tip) && DistinctEnds(m.bundles)
    ensures ParseRange(m.bundles[i].range).Some? && RangeBase(m.bundles[i].range) == previous
    ensures RangeEnd(m.bundles[i].range) !in Ends(m.bundles[..i])
  {
    hide ParseRange, RangeBase, RangeEnd;
    LinkedAt(m.bundles, Zeros(|m.tip|), m.tip, i);
    LinkedEnd(m.bundles[..i], Zeros(|m.tip|), previous, RangeBase(m.bundles[i].range));
    forall b | b in m.bundles[..i] ensures RangeEnd(b.range) != RangeEnd(m.bundles[i].range) {
      var j :| 0 <= j < i && m.bundles[..i][j] == b;
      assert m.bundles[j] == b;
    }
  }

  // A chain has one end.
  lemma LinkedEnd(refs: seq<BundleRef>, start: Hash, x: Hash, y: Hash)
    requires Linked(refs, start, x)
    ensures Linked(refs, start, y) <==> x == y
  {}

  // ----- What is accepted, said without the chain predicates -----

  // The list walks from the zero commit to the tip over cuts that are all different, one bundle from each to the next.
  ghost predicate Walks(m: Manifest, cuts: seq<Hash>) {
    && |cuts| == |m.bundles| + 1 > 1 && cuts[0] == Zeros(|m.tip|) && cuts[|m.bundles|] == m.tip
    && (forall i | 0 <= i < |cuts| :: IsObjectId(cuts[i]) && |cuts[i]| == |m.tip|)
    && (forall i, j | 0 <= i < j < |cuts| :: cuts[i] != cuts[j])
    && forall i | 0 <= i < |m.bundles| :: m.bundles[i].range == RangeName(cuts[i], cuts[i + 1])
  }

  ghost predicate Described(m: Manifest, repo: Repository) {
    && m.version == 2 && m.codec == "libsodium-secretstream-box-v1" && m.branch != ""
    && m.repository == repo.namespace + "/" + repo.name
    && (m.objectFormat, |m.tip|) in {("sha1", 40), ("sha256", 64)}
    && forall i | 0 <= i < |m.bundles| :: Placed(repo, m.bundles[i])
  }

  ghost predicate Recorded(bundle: BundleRef) {
    && bundle.size > 0 && bundle.etag != "" && bundle.recipients != []
    && (forall r | r in bundle.recipients :: |r| == 128 && IsHex(r))
    && forall i, j | 0 <= i < j < |bundle.recipients| ::
         bundle.recipients[i] != bundle.recipients[j] && Leq(bundle.recipients[i], bundle.recipients[j])
  }

  function CutsOf(m: Manifest): seq<Hash> {
    [Zeros(|m.tip|)] + seq(|m.bundles|, i requires 0 <= i < |m.bundles| => RangeEnd(m.bundles[i].range))
  }

  // Both ends of one bundle, as cuts.
  predicate Spans(cuts: seq<Hash>, i: nat, range: string)
    requires i + 1 < |cuts|
  {
    range == RangeName(cuts[i], cuts[i + 1]) && ValidRange(cuts[i], cuts[i + 1])
  }

  lemma ChainSpans(m: Manifest, i: nat)
    requires Linked(m.bundles, Zeros(|m.tip|), m.tip) && i < |m.bundles|
    ensures Spans(CutsOf(m), i, m.bundles[i].range)
  {
    hide ParseRange, RangeEnd, RangeBase, Linked, ValidRange, RangeName;
    LinkedAt(m.bundles, Zeros(|m.tip|), m.tip, i);
    RangeNameRoundTrip(m.bundles[i].range);
  }

  lemma LastCut(m: Manifest)
    requires m.bundles != [] && Linked(m.bundles, Zeros(|m.tip|), m.tip)
    ensures CutsOf(m)[|m.bundles|] == m.tip
  {
    hide ParseRange, RangeEnd, RangeBase, Linked;
    var n := |m.bundles| - 1;
    LinkedAt(m.bundles, Zeros(|m.tip|), m.tip, n);
    assert m.bundles[..n + 1] == m.bundles;
    LinkedEnd(m.bundles, Zeros(|m.tip|), RangeEnd(m.bundles[n].range), m.tip);
  }

  lemma CutsDiffer(m: Manifest, i: nat, j: nat)
    requires Linked(m.bundles, Zeros(|m.tip|), m.tip) && DistinctEnds(m.bundles) && i < j <= |m.bundles|
    requires |RangeEnd(m.bundles[j - 1].range)| == |m.tip|
    ensures CutsOf(m)[i] != CutsOf(m)[j]
  {
    hide ParseRange, RangeEnd, RangeBase, Linked, IsObjectId, DistinctEnds, RangeName;
    ChainSpans(m, j - 1);
    if i > 0 { EndsDiffer(m.bundles, i - 1, j - 1); }
  }

  lemma ChainWalks(m: Manifest)
    requires m.bundles != [] && Linked(m.bundles, Zeros(|m.tip|), m.tip) && DistinctEnds(m.bundles)
    requires forall i | 0 <= i < |m.bundles| :: |RangeEnd(m.bundles[i].range)| == |m.tip|
    ensures Walks(m, CutsOf(m))
  {
    hide ParseRange, RangeEnd, RangeBase, Linked, IsObjectId, DistinctEnds, RangeName, Zeros, Spans;
    var cuts := CutsOf(m);
    LastCut(m);
    ZerosLength(|m.tip|);
    forall i | 0 <= i < |m.bundles| ensures m.bundles[i].range == RangeName(cuts[i], cuts[i + 1]) {
      ChainSpans(m, i);
      SpanEnds(cuts, i, m.bundles[i].range);
    }
    forall i, j | 0 <= i < j < |cuts| ensures cuts[i] != cuts[j] { CutsDiffer(m, i, j); }
    forall i | 0 <= i < |cuts| ensures IsObjectId(cuts[i]) {
      var k := if i == 0 then 0 else i - 1;
      ChainSpans(m, k);
      SpanEnds(cuts, k, m.bundles[k].range);
    }
  }

  lemma SpanEnds(cuts: seq<Hash>, i: nat, range: string)
    requires i + 1 < |cuts| && Spans(cuts, i, range)
    ensures range == RangeName(cuts[i], cuts[i + 1]) && IsObjectId(cuts[i]) && IsObjectId(cuts[i + 1])
  {
    hide IsObjectId, RangeName;
  }

  lemma ZerosLength(n: nat)
    ensures |Zeros(n)| == n
  {}

  predicate DistinctAt(bundles: seq<BundleRef>, i: nat, j: nat)
    requires i < |bundles| && j < |bundles|
  {
    RangeEnd(bundles[i].range) != RangeEnd(bundles[j].range)
  }

  lemma EndsDiffer(bundles: seq<BundleRef>, i: nat, j: nat)
    requires DistinctEnds(bundles) && i < j < |bundles|
    ensures DistinctAt(bundles, i, j)
  {
    hide RangeEnd;
  }

  lemma WalkStep(m: Manifest, cuts: seq<Hash>, i: nat)
    requires Walks(m, cuts) && i < |m.bundles|
    ensures var name := m.bundles[i].range;
      ParseRange(name).Some? && RangeBase(name) == cuts[i] && RangeEnd(name) == cuts[i + 1]
  {
    hide IsObjectId;
    assert cuts[i] != cuts[i + 1] && cuts[0] != cuts[i + 1];
    ParseRangeRoundTrip(cuts[i], cuts[i + 1]);
  }

  lemma {:induction false} WalkIsLinked(m: Manifest, cuts: seq<Hash>, n: nat)
    requires Walks(m, cuts) && n <= |m.bundles|
    ensures Linked(m.bundles[..n], cuts[0], cuts[n])
  {
    hide ParseRange, RangeBase, RangeEnd, Walks;
    if n > 0 {
      assert n < |cuts| by { WalkLength(m, cuts); }
      WalkStep(m, cuts, n - 1);
      WalkIsLinked(m, cuts, n - 1);
      assert m.bundles[..n][..n - 1] == m.bundles[..n - 1];
    }
  }

  lemma WalkLength(m: Manifest, cuts: seq<Hash>)
    requires Walks(m, cuts)
    ensures |cuts| == |m.bundles| + 1
  {}

  lemma WalkIsChain(m: Manifest, cuts: seq<Hash>)
    requires Walks(m, cuts)
    ensures m.bundles != [] && Linked(m.bundles, Zeros(|m.tip|), m.tip) && DistinctEnds(m.bundles)
    ensures forall i | 0 <= i < |m.bundles| ::
      ParseRange(m.bundles[i].range).Some? && |RangeEnd(m.bundles[i].range)| == |m.tip|
    ensures IsObjectId(m.tip)
  {
    hide ParseRange, RangeBase, RangeEnd, Linked, IsObjectId, Zeros;
    WalkIsLinked(m, cuts, |m.bundles|);
    assert m.bundles[..|m.bundles|] == m.bundles;
    forall i | 0 <= i < |m.bundles|
      ensures ParseRange(m.bundles[i].range).Some? && RangeEnd(m.bundles[i].range) == cuts[i + 1]
    {
      WalkStep(m, cuts, i);
    }
  }

  // A manifest is accepted exactly if it describes itself, walks from zero to its tip without coming back to a cut,
  // and, unless it is legacy, records every bundle's identity and recipients.
  lemma CompleteIffWalks(m: Manifest, repo: Repository)
    ensures Complete(m, repo) <==>
      && Described(m, repo) && (exists cuts :: Walks(m, cuts))
      && (!m.legacy ==> forall i | 0 <= i < |m.bundles| :: Recorded(m.bundles[i]))
  {
    hide ParseRange, RangeEnd, Linked, ValidBundleKey, Placed, Zeros, IsObjectId, DistinctEnds, Walks, CutsOf, Policy,
      Recorded;
    CompleteBySteps(m, repo);
    if Complete(m, repo) { ChainWalks(m); }
    if exists cuts :: Walks(m, cuts) {
      var cuts :| Walks(m, cuts);
      WalkIsChain(m, cuts);
    }
    if m.bundles != [] && Linked(m.bundles, Zeros(|m.tip|), m.tip) {
      forall i | 0 <= i < |m.bundles| ensures ValidBundleKey(repo, m.bundles[i]) <==> Placed(repo, m.bundles[i]) {
        LinkedAt(m.bundles, Zeros(|m.tip|), m.tip, i);
        ValidIffPlaced(repo, m.bundles[i]);
      }
    }
    forall i | 0 <= i < |m.bundles| ensures Recorded(m.bundles[i]) <==> Identified(m.bundles[i]) {
      RecordedIsIdentified(m.bundles[i]);
    }
  }

  lemma RecordedIsIdentified(bundle: BundleRef)
    ensures Recorded(bundle) <==> Identified(bundle)
  {
    hide Leq, IsHex;
  }

  // ----- Acyclic ancestry is enough -----

  // On a commit graph an ancestral chain never visits a boundary twice, so it always validates.
  lemma AncestralChainIsComplete(g: Dag, m: Manifest, repo: Repository)
    requires Header(m, repo) && m.bundles != [] && |m.tip| == g.width
    requires Linked(m.bundles, Zeros(|m.tip|), m.tip) && Ancestral(g, m.bundles)
    requires forall b | b in m.bundles :: Stored(repo, b)
    ensures Complete(m, repo)
  {
    hide Reach, IsAncestor, ValidBundleKey, Identified, Linked, ParseRange, RangeBase, RangeEnd;
    var ends := m.bundles;
    forall i, j | 0 <= i < j < |ends| ensures RangeEnd(ends[i].range) != RangeEnd(ends[j].range) {
      EarlierEndIsAncestor(g, ends, Zeros(|m.tip|), m.tip, i, j);
    }
    forall b | b in ends ensures |RangeEnd(b.range)| == |m.tip| {
      var i :| 0 <= i < |ends| && ends[i] == b;
      assert Grounded(g, ends[i].range);
    }
  }
}
