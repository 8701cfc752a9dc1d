/** Adopting an existing bundle chain from a sibling repository of the namespace. */
module Adoption {
  import opened Wrappers
  import opened Ordering
  import opened Names
  import opened Commits
  import opened Chains
  import opened Manifests
  import opened Recipients
  import opened Push

  // ----- Discovery -----

  predicate HasSuffix(s: string, suffix: string) {
    |suffix| <= |s| && s[|s| - |suffix|..] == suffix
  }

  // Which repository of the namespace a manifest key belongs to, and whether it is a legacy list.
  function ManifestRepository(namespace: Repository, key: string): Option<(Repository, bool)> {
    var modern := CutPrefix(key, namespace.Root() + ("repos" + "/"));
    var parts := if modern.Some? then Split(modern.value) else [];
    if |parts| == 3 && IsComponent(parts[0]) && parts[1] == "manifests" && HasSuffix(parts[2], ".json") then
      Some((Repository(namespace.namespace, parts[0]), false))
    else
      var legacy := CutPrefix(key, namespace.namespace + "/");
      var tail := if legacy.Some? then Split(legacy.value) else [];
      if |tail| == 1 && "bundles_" <= tail[0] then Some((Repository(namespace.namespace, "1"), true))
      else if |tail| == 2 && tail[0] != "1" && IsComponent(tail[0]) && "bundles_" <= tail[1] then
        Some((Repository(namespace.namespace, tail[0]), true))
      else None
  }

  // The key of a manifest a push writes.
  function ManifestKey(repo: Repository, tip: Hash, uuid: string): string {
    repo.Manifests() + (tip + "-" + uuid + ".json")
  }

  lemma SplitThree(s: string)
    requires |Split(s)| == 3
    ensures s == Split(s)[0] + "/" + (Split(s)[1] + "/" + Split(s)[2])
    ensures '/' !in Split(s)[2]
  {
    var i := FirstSlash(s);
    assert i < |s|;
    var t := s[i + 1..];
    assert s == s[..i] + [s[i]] + t;
    assert Split(s) == [s[..i]] + Split(t);
    SplitTwo(t);
  }

  lemma ModernIsPointer(namespace: Repository, key: string, name: string, leaf: string)
    requires '/' !in leaf && key == namespace.Root() + ("repos" + "/") + (name + "/" + ("manifests" + "/" + leaf))
    ensures ModernPointer(Repository(namespace.namespace, name), key)
  {
    var source := Repository(namespace.namespace, name);
    ConcatAssociates(name + "/", "manifests" + "/", leaf);
    ConcatAssociates(source.Root() + ("repos" + "/"), name + "/" + ("manifests" + "/"), leaf);
    PrefixDrops(source.Manifests(), leaf);
  }

  lemma ModernEndsWithLeaf(namespace: Repository, key: string, name: string, leaf: string)
    requires key == namespace.Root() + ("repos" + "/") + (name + "/" + ("manifests" + "/" + leaf))
    ensures HasSuffix(leaf, ".json") ==> HasSuffix(key, ".json")
  {
    assert key[|key| - |leaf|..] == leaf;
    if |leaf| >= 5 { assert key[|key| - 5..] == leaf[|leaf| - 5..]; }
  }

  lemma LegacyIsPointer(source: Repository, key: string, leaf: string)
    requires '/' !in leaf && "bundles_" <= leaf && key == source.Id() + "/" + leaf
    ensures LegacyPointer(source, key)
  {
    hide Repository.Id;
    var rest := leaf[|"bundles_"|..];
    assert leaf == "bundles_" + rest;
    ConcatAssociates(source.Id() + "/", "bundles_", rest);
    assert source.Id() + "/" + "bundles_" == source.Id() + "/bundles_";
    PrefixDrops(source.Id() + "/bundles_", rest);
  }

  // A list that this repository of the namespace may read: modern ones are JSON documents.
  predicate Belongs(namespace: Repository, key: string, source: Repository, legacy: bool) {
    && source.namespace == namespace.namespace && IsComponent(source.name)
    && if legacy then LegacyPointer(source, key) else ModernPointer(source, key) && HasSuffix(key, ".json")
  }

  // Every key discovery takes for a manifest lies where the pointer guard of its own repository lets it be read.
  lemma ListedIsPointer(namespace: Repository, key: string)
    requires namespace.Valid() && ManifestRepository(namespace, key).Some?
    ensures var (source, legacy) := ManifestRepository(namespace, key).value;
      source.Valid() && ManifestPointer(source, key) && Belongs(namespace, key, source, legacy)
  {
    hide Split, ModernPointer, LegacyPointer, IsComponent, HasSuffix;
    var (source, legacy) := ManifestRepository(namespace, key).value;
    OneIsComponent();
    if legacy {
      var tail := key[|namespace.namespace + "/"|..];
      assert key == namespace.namespace + "/" + tail;
      if |Split(tail)| == 1 {
        SplitOne(tail);
        LegacyIsPointer(source, key, tail);
      } else {
        SplitTwo(tail);
        ConcatAssociates(namespace.namespace + "/", source.name + "/", Split(tail)[1]);
        LegacyIsPointer(source, key, Split(tail)[1]);
      }
    } else {
      var prefix := namespace.Root() + ("repos" + "/");
      assert key == prefix + key[|prefix|..];
      SplitThree(key[|prefix|..]);
      var leaf := Split(key[|prefix|..])[2];
      ModernIsPointer(namespace, key, source.name, leaf);
      ModernEndsWithLeaf(namespace, key, source.name, leaf);
    }
  }

  // Discovery is exact: a key is taken for a list of a repository precisely where that repository's own pointer guard
  // lets it be read, and then for that repository's and of that kind.
  lemma DiscoveryIsExact(namespace: Repository, key: string, source: Repository, legacy: bool)
    requires namespace.Valid()
    ensures ManifestRepository(namespace, key) == Some((source, legacy)) <==> Belongs(namespace, key, source, legacy)
  {
    hide ManifestRepository, ModernPointer, LegacyPointer, IsComponent, HasSuffix;
    if ManifestRepository(namespace, key) == Some((source, legacy)) {
      ListedIsPointer(namespace, key);
    }
    if Belongs(namespace, key, source, legacy) {
      if legacy { LegacyIsListed(namespace, key, source); } else { ModernIsListed(namespace, key, source); }
    }
  }

  // A legacy list, of the default repository or of a named one, is discovered as its own repository's.
  lemma LegacyIsListed(namespace: Repository, key: string, source: Repository)
    requires namespace.Valid() && source.namespace == namespace.namespace && IsComponent(source.name)
    requires LegacyPointer(source, key)
    ensures ManifestRepository(namespace, key) == Some((source, true))
  {
    hide Split, IsComponent, HasSuffix;
    NoSlashInComponent(source.name);
    NoSlashInComponent(namespace.namespace);
    var rest := key[|source.Id() + "/bundles_"|..];
    var leaf := "bundles_" + rest;
    assert key == source.Id() + "/" + leaf;
    var p := namespace.namespace + "/";
    if source.name == "1" {
      PrefixDrops(p, leaf);
      SplitLeaf(leaf);
      ShallowIsNotModern(namespace, key, leaf);
    } else {
      var tail := source.name + "/" + leaf;
      assert key == p + tail;
      PrefixDrops(p, tail);
      SplitPair(source.name, leaf);
      ShallowIsNotModern(namespace, key, tail);
    }
  }

  // With at most one slash below the namespace there is no room for a modern list.
  lemma ShallowIsNotModern(namespace: Repository, key: string, tail: string)
    requires key == namespace.namespace + "/" + tail && |Split(tail)| <= 2
    ensures var modern := CutPrefix(key, namespace.Root() + ("repos" + "/")); modern.Some? ==> |Split(modern.value)| < 3
  {
    hide Split;
    var prefix := namespace.Root() + ("repos" + "/");
    if prefix <= key {
      var rest := key[|prefix|..];
      assert key == prefix + rest;
      ConcatAssociates(namespace.namespace + "/", ".remote-aws-v2" + "/", "repos" + "/" + rest);
      ConcatAssociates(namespace.Root(), "repos" + "/", rest);
      assert tail == ".remote-aws-v2" + "/" + ("repos" + "/" + rest) by {
        ConcatAssociates(".remote-aws-v2", "/", "repos" + "/" + rest);
        PrefixDrops(namespace.namespace + "/", tail);
        PrefixDrops(namespace.namespace + "/", ".remote-aws-v2" + "/" + ("repos" + "/" + rest));
      }
      SplitCons(".remote-aws-v2", "repos" + "/" + rest);
      SplitCons("repos", rest);
      AnyPart(rest);
      assert false;
    }
  }

  lemma ModernIsListed(namespace: Repository, key: string, source: Repository)
    requires namespace.Valid() && source.namespace == namespace.namespace && IsComponent(source.name)
    requires ModernPointer(source, key) && HasSuffix(key, ".json")
    ensures ManifestRepository(namespace, key) == Some((source, false))
  {
    hide Split, IsComponent;
    NoSlashInComponent(source.name);
    var leaf := key[|source.Manifests()|..];
    assert key == source.Manifests() + leaf;
    var prefix, tail := namespace.Root() + ("repos" + "/"), source.name + "/" + ("manifests" + "/" + leaf);
    ConcatAssociates(source.name + "/", "manifests" + "/", leaf);
    ConcatAssociates(prefix, source.name + "/" + ("manifests" + "/"), leaf);
    PrefixDrops(prefix, tail);
    SplitCons(source.name, "manifests" + "/" + leaf);
    SplitPair("manifests", leaf);
    LeafHasSuffix(source.name + "/" + "manifests", key, leaf);
  }

  // The suffix of a key without slashes is the suffix of its last component.
  lemma LeafHasSuffix(stem: string, key: string, leaf: string)
    requires |leaf| < |key| && key[|key| - |leaf| - 1] == '/' && key[|key| - |leaf|..] == leaf
    ensures HasSuffix(key, ".json") <==> HasSuffix(leaf, ".json")
  {
    if |leaf| < 5 <= |key| {
      assert key[|key| - 5..][4 - |leaf|] == '/';
      assert ".json"[4 - |leaf|] != '/';
    }
    if |leaf| >= 5 {
      assert key[|key| - 5..] == leaf[|leaf| - 5..];
    }
  }

  // A manifest a push writes is discovered by every repository of its namespace, as its own repository's.
  lemma WrittenIsListed(namespace: Repository, repo: Repository, tip: Hash, uuid: string)
    requires repo.Valid() && namespace.namespace == repo.namespace && IsObjectId(tip) && '/' !in uuid
    ensures ManifestRepository(namespace, ManifestKey(repo, tip, uuid)) == Some((repo, false))
    ensures ModernPointer(repo, ManifestKey(repo, tip, uuid))
  {
    hide Split, IsObjectId, IsComponent;
    var leaf := tip + "-" + uuid + ".json";
    ObjectIdHasNoSlash(tip);
    NoSlashInComponent(repo.name);
    var prefix := namespace.Root() + ("repos" + "/");
    var tail := repo.name + "/" + ("manifests" + "/" + leaf);
    ConcatAssociates(repo.name + "/", "manifests" + "/", leaf);
    ConcatAssociates(prefix, repo.name + "/" + ("manifests" + "/"), leaf);
    PrefixDrops(prefix, tail);
    SplitCons(repo.name, "manifests" + "/" + leaf);
    SplitPair("manifests", leaf);
    assert Split(tail) == [repo.name, "manifests", leaf];
    assert HasSuffix(leaf, ".json");
    PrefixDrops(repo.Manifests(), leaf);
  }

  lemma ListedWhereReadable(namespace: Repository, key: string)
    requires namespace.Valid()
    ensures ManifestRepository(namespace, key).Some? <==>
      exists source, legacy :: Belongs(namespace, key, source, legacy)
  {
    hide ManifestRepository, Belongs;
    if ManifestRepository(namespace, key).Some? {
      var (source, legacy) := ManifestRepository(namespace, key).value;
      DiscoveryIsExact(namespace, key, source, legacy);
    }
    if exists source, legacy :: Belongs(namespace, key, source, legacy) {
      var source, legacy :| Belongs(namespace, key, source, legacy);
      DiscoveryIsExact(namespace, key, source, legacy);
    }
  }

  // Exactly the lists that some repository of the namespace may read, in key order.
  method NamespaceManifests(listing: seq<string>, repo: Repository) returns (keys: seq<string>)
    ensures Sorted(keys)
    ensures forall key :: key in keys <==> key in listing && ManifestRepository(repo, key).Some?
    ensures repo.Valid() ==>
      forall key :: key in keys <==> key in listing && exists source, legacy :: Belongs(repo, key, source, legacy)
  {
    hide Leq, ManifestRepository, Belongs;
    var found: seq<string> := [];
    for i := 0 to |listing|
      invariant forall key :: key in found <==> key in listing[..i] && ManifestRepository(repo, key).Some?
    {
      if ManifestRepository(repo, listing[i]).Some? {
        found := found + [listing[i]];
      }
      assert listing[..i + 1] == listing[..i] + [listing[i]];
    }
    assert listing[..|listing|] == listing;
    keys := Sort(found);
    forall key ensures key in keys <==> key in found {
      assert key in keys <==> key in multiset(keys);
      assert key in found <==> key in multiset(found);
    }
    if repo.Valid() {
      forall key
        ensures ManifestRepository(repo, key).Some? <==> exists source, legacy :: Belongs(repo, key, source, legacy)
      {
        ListedWhereReadable(repo, key);
      }
    }
  }

  // ----- What can be adopted from one manifest -----

  // What adoption works with: the local commit graph, the pushed tip, its key chains and object inspection.
  datatype Context = Context(g: Dag, repo: Repository, branch: string, tip: Hash, chains: seq<seq<string>>,
    inspect: BundleRef -> Option<BundleRef>)

  // Inspection keeps the range and key asked about and completes the descriptor.
  ghost predicate Faithful(x: Context) {
    forall ref :: x.inspect(ref).Some? ==>
      var seen := x.inspect(ref).value; seen.range == ref.range && seen.key == ref.key && Identified(seen)
  }

  predicate Usable(x: Context, ref: BundleRef) {
    x.inspect(ref).Some? && Compatible(x.inspect(ref).value.recipients, x.chains)
  }

  // A complete, compatible prefix whose end the pushed tip contains.
  ghost predicate Candidate(x: Context, bundles: seq<BundleRef>, n: nat) {
    && 0 < n <= |bundles|
    && (forall i | 0 <= i < n :: Usable(x, bundles[i]))
    && IsAncestor(x.g, RangeEnd(bundles[n - 1].range), x.tip)
  }

  // No candidate prefix is longer than n.
  ghost predicate Longest(x: Context, bundles: seq<BundleRef>, n: nat) {
    forall k: nat | Candidate(x, bundles, k) :: k <= n
  }

  // No candidate prefix leaves fewer commits than c.
  ghost predicate Nearest(x: Context, bundles: seq<BundleRef>, c: seq<BundleRef>) {
    forall n: nat | Candidate(x, bundles, n) :: c != [] && Remaining(x, c) <= RemainingAt(x, bundles, n)
  }

  function RemainingAt(x: Context, bundles: seq<BundleRef>, n: nat): nat {
    if 0 < n <= |bundles| then RevListCount(x.g, RangeEnd(bundles[n - 1].range), x.tip) else 0
  }

  // git rev-list --count end..tip for the end of an offered prefix.
  function Remaining(x: Context, c: seq<BundleRef>): nat {
    RemainingAt(x, c, |c|)
  }

  // Inspected descriptors of the first |c| bundles: an ancestral chain from zero, inside the tip's history.
  ghost predicate Sound(x: Context, bundles: seq<BundleRef>, c: seq<BundleRef>) {
    && |c| <= |bundles|
    && (forall i | 0 <= i < |c| :: Usable(x, bundles[i]) && c[i] == x.inspect(bundles[i]).value)
    && (forall i | 0 <= i < |c| :: Grounded(x.g, c[i].range) && IsAncestor(x.g, RangeEnd(c[i].range), x.tip))
  }

  // As far as the local repository knows, every bundle's base is an ancestor of its end.
  ghost predicate AncestralSource(x: Context, bundles: seq<BundleRef>) {
    forall i | 0 < i < |bundles| && RangeEnd(bundles[i].range) in x.g.parents ::
      IsAncestor(x.g, RangeBase(bundles[i].range), RangeEnd(bundles[i].range))
  }

  lemma {:induction false} ContainmentIsMonotone(x: Context, bundles: seq<BundleRef>, start: Hash, end: Hash, i: nat,
    j: nat)
    requires Linked(bundles, start, end) && AncestralSource(x, bundles) && i <= j < |bundles|
    requires IsAncestor(x.g, RangeEnd(bundles[j].range), x.tip)
    ensures IsAncestor(x.g, RangeEnd(bundles[i].range), x.tip)
    decreases j
  {
    hide Reach, Linked, ParseRange, RangeEnd, RangeBase;
    if i < j {
      LinkedAt(bundles, start, end, j);
      AncestorTransitive(x.g, RangeBase(bundles[j].range), RangeEnd(bundles[j].range), x.tip);
      ContainmentIsMonotone(x, bundles, start, end, i, j - 1);
    }
  }

  // Bisection over a chain's ends. Its answer is contained even when containment is not monotone.
  // Where the bisection stops, whatever the containment answers are.
  function Bisect(x: Context, bundles: seq<BundleRef>, low: nat, high: nat): (n: nat)
    requires low <= high <= |bundles|
    ensures low <= n <= high
    decreases high - low
  {
    if low == high then low else
      var mid := low + (high - low) / 2;
      if IsAncestor(x.g, RangeEnd(bundles[mid].range), x.tip) then Bisect(x, bundles, mid + 1, high)
        else Bisect(x, bundles, low, mid)
  }

  function ContainedEnd(x: Context, bundles: seq<BundleRef>): (n: nat)
    ensures n <= |bundles|
  {
    Bisect(x, bundles, 0, |bundles|)
  }

  method ContainedPrefix(x: Context, bundles: seq<BundleRef>, ghost end: Hash) returns (low: nat)
    requires Linked(bundles, Zeros(|x.tip|), end)
    ensures low == ContainedEnd(x, bundles)
    ensures low > 0 ==> IsAncestor(x.g, RangeEnd(bundles[low - 1].range), x.tip)
    ensures AncestralSource(x, bundles) ==> Longest(x, bundles, low)
  {
    hide Reach, Linked, ParseRange, RangeEnd, IsAncestor, AncestralSource, Zeros, Longest, Bisect;
    low := 0;
    var high := |bundles|;
    while low < high
      invariant 0 <= low <= high <= |bundles|
      invariant Bisect(x, bundles, low, high) == ContainedEnd(x, bundles)
      invariant low > 0 ==> IsAncestor(x.g, RangeEnd(bundles[low - 1].range), x.tip)
      invariant AncestralSource(x, bundles) ==>
        forall i | high <= i < |bundles| :: !IsAncestor(x.g, RangeEnd(bundles[i].range), x.tip)
    {
      var mid := low + (high - low) / 2;
      BisectStep(x, bundles, low, high);
      if IsAncestor(x.g, RangeEnd(bundles[mid].range), x.tip) {
        low := mid + 1;
      } else {
        if AncestralSource(x, bundles) { NotContainedAfter(x, bundles, end, mid); }
        high := mid;
      }
    }
    BisectEnds(x, bundles, low);
    if AncestralSource(x, bundles) { NoneIsLonger(x, bundles, low); }
  }

  lemma BisectStep(x: Context, bundles: seq<BundleRef>, low: nat, high: nat)
    requires low < high <= |bundles|
    ensures
      var mid := low + (high - low) / 2;
      var next := if IsAncestor(x.g, RangeEnd(bundles[mid].range), x.tip) then Bisect(x, bundles, mid + 1, high)
        else Bisect(x, bundles, low, mid);
      Bisect(x, bundles, low, high) == next
  {
    hide IsAncestor, RangeEnd;
  }

  lemma BisectEnds(x: Context, bundles: seq<BundleRef>, low: nat)
    requires low <= |bundles|
    ensures Bisect(x, bundles, low, low) == low
  {}

  lemma NoneIsLonger(x: Context, bundles: seq<BundleRef>, low: nat)
    requires low <= |bundles| && forall i | low <= i < |bundles| :: !IsAncestor(x.g, RangeEnd(bundles[i].range), x.tip)
    ensures Longest(x, bundles, low)
  {
    hide IsAncestor, RangeEnd, Usable;
  }

  lemma NotContainedAfter(x: Context, bundles: seq<BundleRef>, end: Hash, mid: nat)
    requires Linked(bundles, Zeros(|x.tip|), end) && AncestralSource(x, bundles) && mid < |bundles|
    requires !IsAncestor(x.g, RangeEnd(bundles[mid].range), x.tip)
    ensures forall i | mid <= i < |bundles| :: !IsAncestor(x.g, RangeEnd(bundles[i].range), x.tip)
  {
    hide Reach, Linked, ParseRange, RangeEnd, IsAncestor, AncestralSource, Zeros;
    forall i | mid <= i < |bundles| ensures !IsAncestor(x.g, RangeEnd(bundles[i].range), x.tip) {
      if IsAncestor(x.g, RangeEnd(bundles[i].range), x.tip) {
        ContainmentIsMonotone(x, bundles, Zeros(|x.tip|), end, mid, i);
      }
    }
  }

  // What the chain check demands of descriptor i.
  ghost predicate LinkAccepted(x: Context, refs: seq<BundleRef>, i: nat)
    requires i < |refs|
  {
    var base, tip := RangeBase(refs[i].range), RangeEnd(refs[i].range);
    && ParseRange(refs[i].range).Some? && x.inspect(refs[i]).Some?
    && (if i == 0 then base == Zeros(|tip|) else base == RangeEnd(refs[i - 1].range) && IsAncestor(x.g, base, tip))
  }

  // Check the links and ancestry of a chain and inspect every object, in order.
  method ValidateChain(x: Context, refs: seq<BundleRef>) returns (result: Option<seq<BundleRef>>)
    ensures result.Some? <==> forall i | 0 <= i < |refs| :: LinkAccepted(x, refs, i)
    ensures result.Some? ==>
      |result.value| == |refs| && forall i | 0 <= i < |refs| :: x.inspect(refs[i]) == Some(result.value[i])
  {
    hide LinkAccepted;
    var checked: seq<BundleRef> := [];
    for i := 0 to |refs|
      invariant |checked| == i
      invariant forall j | 0 <= j < i :: LinkAccepted(x, refs, j) && x.inspect(refs[j]) == Some(checked[j])
    {
      var seen := CheckLink(x, refs, i);
      if seen.None? {
        return None;
      }
      checked := checked + [seen.value];
    }
    return Some(checked);
  }

  method CheckLink(x: Context, refs: seq<BundleRef>, i: nat) returns (seen: Option<BundleRef>)
    requires i < |refs|
    ensures seen.Some? <==> LinkAccepted(x, refs, i)
    ensures seen.Some? ==> seen == x.inspect(refs[i])
  {
    hide Reach, ParseRange, RangeEnd, RangeBase, Zeros, IsAncestor;
    var base, tip := RangeBase(refs[i].range), RangeEnd(refs[i].range);
    if ParseRange(refs[i].range).None? || (i == 0 && base != Zeros(|tip|))
      || (i > 0 && base != RangeEnd(refs[i - 1].range)) {
      return None;
    }
    if i > 0 && !IsAncestor(x.g, base, tip) {
      return None;
    }
    return x.inspect(refs[i]);
  }

  method CompatiblePrefix(x: Context, checked: seq<BundleRef>) returns (n: nat)
    ensures n <= |checked|
    ensures forall i | 0 <= i < n :: Compatible(checked[i].recipients, x.chains)
    ensures n < |checked| ==> !Compatible(checked[n].recipients, x.chains)
  {
    n := 0;
    while n < |checked|
      invariant n <= |checked|
      invariant forall i | 0 <= i < n :: Compatible(checked[i].recipients, x.chains)
    {
      var ok := CompatibleRecipients(checked[n].recipients, x.chains);
      if !ok {
        return;
      }
      n := n + 1;
    }
  }

  // The ancestry checks carry the endpoint's containment back to every earlier boundary.
  lemma {:induction false} AllContained(x: Context, refs: seq<BundleRef>, low: nat, i: nat)
    requires forall j | 0 <= j < |refs| :: LinkAccepted(x, refs, j)
    requires 0 < low <= |refs| && IsAncestor(x.g, RangeEnd(refs[low - 1].range), x.tip) && i < low
    ensures IsAncestor(x.g, RangeEnd(refs[i].range), x.tip)
    decreases low - i
  {
    hide Reach, ParseRange, RangeEnd, RangeBase, Zeros;
    if i < low - 1 {
      AllContained(x, refs, low, i + 1);
      assert LinkAccepted(x, refs, i + 1);
      AncestorTransitive(x.g, RangeEnd(refs[i].range), RangeEnd(refs[i + 1].range), x.tip);
    }
  }

  lemma ContainedIsGrounded(x: Context, refs: seq<BundleRef>, i: nat)
    requires i < |refs| && LinkAccepted(x, refs, i) && IsAncestor(x.g, RangeEnd(refs[i].range), x.tip)
    ensures Grounded(x.g, refs[i].range)
  {
    hide Reach, ParseRange;
  }

  // Some bundle before the bisection's end does not link, descend or inspect.
  ghost predicate ChainBroken(x: Context, bundles: seq<BundleRef>) {
    exists i: nat :: i < ContainedEnd(x, bundles) && !LinkAccepted(x, bundles, i)
  }

  lemma PrefixLink(x: Context, bundles: seq<BundleRef>, n: nat, i: nat)
    requires i < n <= |bundles|
    ensures LinkAccepted(x, bundles[..n], i) == LinkAccepted(x, bundles, i)
  {
    hide ParseRange, RangeEnd, RangeBase, Zeros, IsAncestor;
  }

  // How many bundles from i on, before n, are usable without a gap.
  function Leading(x: Context, bundles: seq<BundleRef>, i: nat, n: nat): (k: nat)
    requires i <= n <= |bundles|
    ensures i <= k <= n && (k < n ==> !Usable(x, bundles[k])) && forall j | i <= j < k :: Usable(x, bundles[j])
    decreases n - i
  {
    if i < n && Usable(x, bundles[i]) then Leading(x, bundles, i + 1, n) else i
  }

  // The inspected descriptors of the compatible part of the contained prefix.
  function OfferOf(x: Context, bundles: seq<BundleRef>): seq<BundleRef> {
    var n := Leading(x, bundles, 0, ContainedEnd(x, bundles));
    seq(n, i requires 0 <= i < n => x.inspect(bundles[i]).value)
  }

  lemma {:induction false} BisectIsContained(x: Context, bundles: seq<BundleRef>, low: nat, high: nat)
    requires low <= high <= |bundles|
    requires low > 0 ==> IsAncestor(x.g, RangeEnd(bundles[low - 1].range), x.tip)
    ensures var n := Bisect(x, bundles, low, high); n > 0 ==> IsAncestor(x.g, RangeEnd(bundles[n - 1].range), x.tip)
    decreases high - low
  {
    hide IsAncestor, RangeEnd;
    if low < high {
      var mid := low + (high - low) / 2;
      if IsAncestor(x.g, RangeEnd(bundles[mid].range), x.tip) {
        BisectIsContained(x, bundles, mid + 1, high);
      } else {
        BisectIsContained(x, bundles, low, mid);
      }
    }
  }

  // The last bundle before the bisection's end is contained, whatever the other answers are.
  lemma ContainedEndIsContained(x: Context, bundles: seq<BundleRef>)
    ensures var n := ContainedEnd(x, bundles); n > 0 ==> IsAncestor(x.g, RangeEnd(bundles[n - 1].range), x.tip)
  {
    hide IsAncestor, RangeEnd;
    BisectIsContained(x, bundles, 0, |bundles|);
  }

  lemma LeadingIs(x: Context, bundles: seq<BundleRef>, n: nat, k: nat)
    requires k <= n <= |bundles| && (forall j | 0 <= j < k :: Usable(x, bundles[j]))
      && (k < n ==> !Usable(x, bundles[k]))
    ensures Leading(x, bundles, 0, n) == k
  {
    hide Usable;
  }

  lemma OfferIsSound(x: Context, bundles: seq<BundleRef>)
    requires !ChainBroken(x, bundles)
    requires ContainedEnd(x, bundles) > 0 ==>
      IsAncestor(x.g, RangeEnd(bundles[ContainedEnd(x, bundles) - 1].range), x.tip)
    requires Faithful(x)
    ensures Sound(x, bundles, OfferOf(x, bundles))
  {
    hide Reach, ParseRange, RangeEnd, RangeBase, IsAncestor, Grounded, LinkAccepted, Compatible, Zeros, Identified,
      Bisect;
    var low, c := ContainedEnd(x, bundles), OfferOf(x, bundles);
    var prefix := bundles[..low];
    forall i | 0 <= i < low ensures LinkAccepted(x, prefix, i) { PrefixLink(x, bundles, low, i); }
    forall i | 0 <= i < |c| ensures Grounded(x.g, c[i].range) && IsAncestor(x.g, RangeEnd(c[i].range), x.tip) {
      AllContained(x, prefix, low, i);
      ContainedIsGrounded(x, prefix, i);
    }
  }

  // The best prefix one manifest offers: None is an error, the empty prefix offers nothing.
  method BestPrefix(x: Context, bundles: seq<BundleRef>, ghost end: Hash) returns (result: Option<seq<BundleRef>>)
    requires Faithful(x) && Linked(bundles, Zeros(|x.tip|), end)
    ensures result.None? <==> ChainBroken(x, bundles)
    ensures result.Some? ==> result.value == OfferOf(x, bundles) && Sound(x, bundles, result.value)
    ensures result.Some? && AncestralSource(x, bundles) ==> Longest(x, bundles, |result.value|)
  {
    hide Reach, Linked, ParseRange, RangeEnd, RangeBase, IsAncestor, Grounded, AncestralSource, LinkAccepted,
      Compatible, Zeros, Identified, ContainedEnd, Leading, Sound;
    var low := ContainedPrefix(x, bundles, end);
    if low == 0 {
      OfferIsSound(x, bundles);
      return Some([]);
    }
    var prefix := bundles[..low];
    var checked := ValidateChain(x, prefix);
    forall i | 0 <= i < low ensures LinkAccepted(x, prefix, i) == LinkAccepted(x, bundles, i) {
      PrefixLink(x, bundles, low, i);
    }
    if checked.None? {
      return None;
    }
    var n := CompatiblePrefix(x, checked.value);
    var c := checked.value[..n];
    forall i | 0 <= i < low ensures x.inspect(bundles[i]) == Some(checked.value[i]) { assert prefix[i] == bundles[i]; }
    LeadingIs(x, bundles, low, n);
    OfferIsSound(x, bundles);
    return Some(c);
  }

  // ----- Choosing between manifests -----

  datatype ManifestRead = Missing | Unreadable | Readable(m: Manifest)

  // A readable manifest passed validation for its own repository.
  ghost predicate Validated(x: Context, keys: seq<string>, read: string -> ManifestRead) {
    forall key | key in keys ::
      && ManifestRepository(x.repo, key).Some?
      && (read(key).Readable? ==> Complete(read(key).m, ManifestRepository(x.repo, key).value.0))
  }

  predicate SameFormat(x: Context, r: ManifestRead) {
    r.Readable? && |r.m.tip| == |x.tip|
  }

  // The chosen prefix comes from one manifest; from is its place in the key order.
  ghost predicate From(x: Context, keys: seq<string>, read: string -> ManifestRead, best: seq<BundleRef>, from: nat) {
    && best != [] && from < |keys| && SameFormat(x, read(keys[from]))
    && Sound(x, read(keys[from]).m.bundles, best)
  }

  // No candidate of manifest j is better, and an earlier manifest's candidates are strictly worse.
  ghost predicate Beats(x: Context, keys: seq<string>, read: string -> ManifestRead, best: seq<BundleRef>, from: nat,
    j: nat)
    requires j < |keys|
  {
    SameFormat(x, read(keys[j])) ==>
      && Nearest(x, read(keys[j]).m.bundles, best)
      && (j < from ==> forall n: nat | Candidate(x, read(keys[j]).m.bundles, n) ::
                         Remaining(x, best) < RemainingAt(x, read(keys[j]).m.bundles, n))
  }

  ghost predicate AllAncestral(x: Context, keys: seq<string>, read: string -> ManifestRead) {
    forall key | key in keys && SameFormat(x, read(key)) :: AncestralSource(x, read(key).m.bundles)
  }

  // S3 history of the destination itself that the push does not extend.
  predicate Diverged(x: Context, key: string, r: ManifestRead) {
    && r.Readable? && ManifestRepository(x.repo, key).Some?
    && var (source, legacy) := ManifestRepository(x.repo, key).value;
    source == x.repo && (!IsAncestor(x.g, r.m.tip, x.tip) || (!legacy && r.m.branch != x.branch))
  }

  datatype AdoptError = UnreadableManifest | HistoryWithoutPointer | InvalidChain

  lemma {:induction false} LongestIsNearest(x: Context, bundles: seq<BundleRef>, end: Hash, c: seq<BundleRef>, n: nat)
    requires Linked(bundles, Zeros(|x.tip|), end) && AncestralSource(x, bundles) && Faithful(x)
    requires Sound(x, bundles, c) && Candidate(x, bundles, n) && n <= |c|
    ensures Remaining(x, c) <= RemainingAt(x, bundles, n)
  {
    hide Reach, Linked, ParseRange, RangeEnd, RangeBase, Compatible, Identified, Zeros, RevListCount;
    var last := |c| - 1;
    assert c[last].range == bundles[last].range;
    assert Usable(x, bundles[last]) && IsAncestor(x.g, RangeEnd(c[last].range), x.tip);
    EndsAreOrdered(x, bundles, end, c, n - 1, last);
    CountAntitone(x.g, RangeEnd(bundles[n - 1].range), RangeEnd(bundles[last].range), x.tip);
  }

  lemma {:induction false} EndsAreOrdered(x: Context, bundles: seq<BundleRef>, end: Hash, c: seq<BundleRef>, i: nat,
    j: nat)
    requires Linked(bundles, Zeros(|x.tip|), end) && AncestralSource(x, bundles) && Faithful(x)
    requires Sound(x, bundles, c) && i <= j < |c|
    ensures IsAncestor(x.g, RangeEnd(bundles[i].range), RangeEnd(bundles[j].range))
    decreases j
  {
    hide Reach, Linked, ParseRange, RangeEnd, RangeBase, Compatible, Identified, Zeros;
    assert Usable(x, bundles[j]) && c[j].range == bundles[j].range && Grounded(x.g, c[j].range);
    if i < j {
      EndsAreOrdered(x, bundles, end, c, i, j - 1);
      LinkedAt(bundles, Zeros(|x.tip|), end, j);
      AncestorTransitive(x.g, RangeEnd(bundles[i].range), RangeEnd(bundles[j - 1].range), RangeEnd(bundles[j].range));
    }
  }

  // What one more manifest does to the choice so far: refuse the push, or keep the nearer offer, the earlier one in a
  // tie.
  datatype Survey = Refused(error: AdoptError) | Holding(offer: seq<BundleRef>)

  function Better(x: Context, offer: seq<BundleRef>, c: seq<BundleRef>): seq<BundleRef> {
    if c != [] && (offer == [] || Remaining(x, c) < Remaining(x, offer)) then c else offer
  }

  ghost function Consider(x: Context, key: string, r: ManifestRead, offer: seq<BundleRef>): Survey {
    if r.Missing? then Holding(offer)
    else if r.Unreadable? then Refused(UnreadableManifest)
    else if Diverged(x, key, r) then Refused(HistoryWithoutPointer)
    else if |r.m.tip| != |x.tip| then Holding(offer)
    else if ChainBroken(x, r.m.bundles) then Refused(InvalidChain)
    else Holding(Better(x, offer, OfferOf(x, r.m.bundles)))
  }

  // A manifest that refuses the push, whatever was offered before it.
  ghost predicate Refuses(x: Context, key: string, r: ManifestRead) {
    r.Unreadable? || Diverged(x, key, r) || (SameFormat(x, r) && ChainBroken(x, r.m.bundles))
  }

  // Who refuses, said of the list's own repository and kind: an unreadable list; the destination's own list, if the
  // push does not contain its tip, or, unless it is a legacy list and so records no branch, has another branch; and a
  // list of this object format whose bundles inside the pushed history do not follow one another, descend and inspect.
  lemma RefusesExactly(x: Context, key: string, r: ManifestRead, source: Repository, legacy: bool)
    requires x.repo.Valid() && Belongs(x.repo, key, source, legacy)
    ensures Refuses(x, key, r) <==>
      match r
      case Missing => false
      case Unreadable => true
      case Readable(m) =>
        || (source == x.repo && !IsAncestor(x.g, m.tip, x.tip))
        || (source == x.repo && !legacy && m.branch != x.branch)
        || (|m.tip| == |x.tip| && exists i: nat | i < ContainedEnd(x, m.bundles) :: Broken(x, m.bundles, i))
  {
    hide ManifestRepository, Belongs, IsAncestor, ContainedEnd, LinkAccepted, Broken;
    DiscoveryIsExact(x.repo, key, source, legacy);
    if r.Readable? {
      forall i: nat | i < ContainedEnd(x, r.m.bundles)
        ensures Broken(x, r.m.bundles, i) <==> !LinkAccepted(x, r.m.bundles, i)
      {
        BrokenIsNotAccepted(x, r.m.bundles, i);
      }
    }
  }

  lemma BrokenIsNotAccepted(x: Context, refs: seq<BundleRef>, i: nat)
    requires i < |refs|
    ensures Broken(x, refs, i) <==> !LinkAccepted(x, refs, i)
  {
    hide ParseRange, RangeEnd, RangeBase, Zeros, IsAncestor;
  }

  ghost predicate Broken(x: Context, refs: seq<BundleRef>, i: nat)
    requires i < |refs|
  {
    || ParseRange(refs[i].range).None? || x.inspect(refs[i]).None?
    || (if i == 0 then RangeBase(refs[i].range) != Zeros(|RangeEnd(refs[i].range)|)
        else RangeBase(refs[i].range) != RangeEnd(refs[i - 1].range)
             || !IsAncestor(x.g, RangeBase(refs[i].range), RangeEnd(refs[i].range)))
  }

  ghost function Surveyed(x: Context, keys: seq<string>, read: string -> ManifestRead): Survey {
    if keys == [] then Holding([]) else
      var n := |keys| - 1;
      match Surveyed(x, keys[..n], read)
      case Refused(error) => Refused(error)
      case Holding(offer) => Consider(x, keys[n], read(keys[n]), offer)
  }

  // The survey read from the front, with something offered already.
  ghost function Onward(x: Context, offer: seq<BundleRef>, keys: seq<string>, read: string -> ManifestRead): Survey
    decreases |keys|
  {
    hide Consider;
    if keys == [] then Holding(offer) else
      match Consider(x, keys[0], read(keys[0]), offer)
      case Refused(error) => Refused(error)
      case Holding(next) => Onward(x, next, keys[1..], read)
  }

  lemma {:induction false} OnwardIsSurveyed(x: Context, a: seq<string>, b: seq<string>, read: string -> ManifestRead)
    ensures Surveyed(x, a + b, read) ==
      match Surveyed(x, a, read)
      case Refused(error) => Refused(error)
      case Holding(offer) => Onward(x, offer, b, read)
    decreases |b|
  {
    hide Consider;
    if b == [] {
      assert a + b == a;
    } else {
      assert a + b == a + [b[0]] + b[1..];
      OnwardIsSurveyed(x, a + [b[0]], b[1..], read);
      assert (a + [b[0]])[..|a|] == a;
    }
  }

  lemma ConsiderRefuses(x: Context, key: string, r: ManifestRead, offer: seq<BundleRef>)
    ensures Consider(x, key, r, offer).Refused? <==> Refuses(x, key, r)
  {
    hide ManifestRepository, IsAncestor, ChainBroken, Better, OfferOf;
  }

  // A survey fails exactly when one of its manifests refuses.
  lemma {:induction false} RefusedIffSomeRefuses(x: Context, keys: seq<string>, read: string -> ManifestRead)
    ensures Surveyed(x, keys, read).Refused? <==> exists key :: key in keys && Refuses(x, key, read(key))
  {
    hide Consider, Refuses;
    if keys != [] {
      var n := |keys| - 1;
      RefusedIffSomeRefuses(x, keys[..n], read);
      var before := Surveyed(x, keys[..n], read);
      if before.Holding? { ConsiderRefuses(x, keys[n], read(keys[n]), before.offer); }
      assert keys == keys[..n] + [keys[n]];
    }
  }

  // The outcome is the survey of all manifests in key order. Every adopted boundary is an ancestor of the tip; when the
  // sources are ancestral, no manifest offers a prefix with fewer commits left, and ties go to the earliest key.
  method AdoptBundles(x: Context, keys: seq<string>, read: string -> ManifestRead)
    returns (result: Result<seq<BundleRef>, AdoptError>, ghost from: nat)
    requires Faithful(x) && Validated(x, keys, read)
    ensures match Surveyed(x, keys, read)
            case Refused(error) => result == Failure(error)
            case Holding(offer) => result == Success(offer)
    ensures result.Success? ==>
      && (result.value == [] || From(x, keys, read, result.value, from))
      && (AllAncestral(x, keys, read) ==> forall j | 0 <= j < |keys| :: Beats(x, keys, read, result.value, from, j))
    ensures result.Failure? <==> exists key :: key in keys && Refuses(x, key, read(key))
  {
    hide Reach, Linked, ParseRange, RangeEnd, RangeBase, IsAncestor, ManifestRepository, Sound, Candidate,
      AncestralSource, Complete, RevListCount, Faithful, Zeros, RemainingAt, ChainBroken, OfferOf, Surveyed, Consider,
      Refuses;
    RefusedIffSomeRefuses(x, keys, read);
    var best: seq<BundleRef> := [];
    var bestDistance: int := -1;
    from := 0;
    SurveyStarts(x, keys, read);
    for i := 0 to |keys|
      invariant best == [] <==> bestDistance == -1
      invariant best != [] ==> bestDistance == Remaining(x, best) && From(x, keys, read, best, from) && from < i
      invariant AllAncestral(x, keys, read) ==> forall j | 0 <= j < i :: Beats(x, keys, read, best, from, j)
      invariant Surveyed(x, keys[..i], read) == Holding(best)
    {
      var key := keys[i];
      assert key in keys;
      SurveyStep(x, keys, read, i, best);
      var (source, legacy) := ManifestRepository(x.repo, key).value;
      if read(key).Missing? {
        continue;
      }
      if read(key).Unreadable? {
        return Failure(UnreadableManifest), from;
      }
      var m := read(key).m;
      if source == x.repo {
        if !IsAncestor(x.g, m.tip, x.tip) || (!legacy && m.branch != x.branch) {
          return Failure(HistoryWithoutPointer), from;
        }
      }
      if |m.tip| != |x.tip| {
        continue;
      }
      CompleteIsLinked(m, source);
      var candidate := BestPrefix(x, m.bundles, m.tip);
      if candidate.None? {
        return Failure(InvalidChain), from;
      }
      var c := candidate.value;
      if AllAncestral(x, keys, read) { Offered(x, m.bundles, m.tip, c); }
      if |c| == 0 {
        continue;
      }
      var distance: int := Remaining(x, c);
      if bestDistance < 0 || distance < bestDistance {
        ghost var before, was := best, from;
        best, bestDistance, from := c, distance, i;
        if AllAncestral(x, keys, read) {
          forall j | 0 <= j < i ensures Beats(x, keys, read, best, from, j) {
            NearerBeats(x, keys, read, before, was, best, from, j);
          }
        }
      }
    }
    assert keys[..|keys|] == keys;
    result := Success(best);
  }

  lemma SurveyStarts(x: Context, keys: seq<string>, read: string -> ManifestRead)
    ensures Surveyed(x, keys[..0], read) == Holding([])
  {}

  // One more manifest of the survey, and what a refusal there means for the whole of it.
  lemma SurveyStep(x: Context, keys: seq<string>, read: string -> ManifestRead, i: nat, best: seq<BundleRef>)
    requires i < |keys| && Surveyed(x, keys[..i], read) == Holding(best)
    ensures var key := keys[i]; var r := read(key);
      Surveyed(x, keys[..i + 1], read) ==
        if r.Missing? then Holding(best)
        else if r.Unreadable? then Refused(UnreadableManifest)
        else if Diverged(x, key, r) then Refused(HistoryWithoutPointer)
        else if |r.m.tip| != |x.tip| then Holding(best)
        else if ChainBroken(x, r.m.bundles) then Refused(InvalidChain)
        else Holding(Better(x, best, OfferOf(x, r.m.bundles)))
    ensures Surveyed(x, keys[..i + 1], read).Refused? ==> Surveyed(x, keys, read) == Surveyed(x, keys[..i + 1], read)
  {
    hide Diverged, ChainBroken, OfferOf, Better;
    assert keys[..i + 1][..i] == keys[..i];
    if Surveyed(x, keys[..i + 1], read).Refused? { RefusalSticks(x, keys, read, i + 1); }
  }

  lemma {:induction false} RefusalSticks(x: Context, keys: seq<string>, read: string -> ManifestRead, i: nat)
    requires i <= |keys| && Surveyed(x, keys[..i], read).Refused?
    ensures Surveyed(x, keys, read) == Surveyed(x, keys[..i], read)
    decreases |keys|
  {
    hide Consider;
    if i < |keys| {
      var n := |keys| - 1;
      assert keys[..n][..i] == keys[..i];
      RefusalSticks(x, keys[..n], read, i);
    } else {
      assert keys[..i] == keys;
    }
  }

  // A strictly nearer choice beats whatever the earlier choice beat.
  lemma NearerBeats(x: Context, keys: seq<string>, read: string -> ManifestRead, before: seq<BundleRef>, was: nat,
                    best: seq<BundleRef>, from: nat, j: nat)
    requires j < |keys| && Beats(x, keys, read, before, was, j) && best != []
    requires before != [] ==> Remaining(x, best) < Remaining(x, before)
    ensures Beats(x, keys, read, best, from, j)
  {
    hide Candidate, RemainingAt;
  }

  lemma CompleteIsLinked(m: Manifest, repo: Repository)
    requires Complete(m, repo)
    ensures Linked(m.bundles, Zeros(|m.tip|), m.tip)
  {}

  // What an ancestral manifest offers: nothing, or a prefix nearest to the tip.
  lemma Offered(x: Context, bundles: seq<BundleRef>, end: Hash, c: seq<BundleRef>)
    requires Linked(bundles, Zeros(|x.tip|), end) && AncestralSource(x, bundles) && Faithful(x)
    requires Sound(x, bundles, c) && Longest(x, bundles, |c|)
    ensures Nearest(x, bundles, c)
  {
    hide Reach, Linked, ParseRange, RangeEnd, RangeBase, Compatible, Identified, Zeros, RevListCount, RemainingAt,
      Sound, AncestralSource, Faithful;
    forall n: nat | Candidate(x, bundles, n) ensures c != [] && Remaining(x, c) <= RemainingAt(x, bundles, n) {
      LongestIsNearest(x, bundles, end, c, n);
    }
  }

  // ----- The adopted chain -----

  // Key validation looks at the namespace only, so siblings accept each other's bundles.
  lemma SiblingsShareKeys(a: Repository, b: Repository, bundle: BundleRef)
    requires a.namespace == b.namespace && ValidBundleKey(a, bundle)
    ensures ValidBundleKey(b, bundle)
  {
    hide Split, ParseRange;
  }

  lemma AdoptedKeyIsValid(x: Context, source: Repository, m: Manifest, i: nat, seen: BundleRef)
    requires Complete(m, source) && source.namespace == x.repo.namespace && i < |m.bundles|
    requires seen.key == m.bundles[i].key && seen.range == m.bundles[i].range && Identified(seen)
    ensures Stored(x.repo, seen)
  {
    hide Linked, ParseRange, RangeEnd, ValidBundleKey, DistinctEnds, Header, Policy;
    assert m.bundles[i] in m.bundles;
    SameKey(source, m.bundles[i], seen);
    SiblingsShareKeys(source, x.repo, seen);
  }

  lemma AdoptedIsStored(x: Context, source: Repository, m: Manifest, best: seq<BundleRef>, i: nat)
    requires Faithful(x) && Sound(x, m.bundles, best) && i < |best|
    requires Complete(m, source) && source.namespace == x.repo.namespace
    ensures best[i].range == m.bundles[i].range && Stored(x.repo, best[i])
  {
    hide Complete, Stored, Compatible, Grounded, IsAncestor;
    assert Usable(x, m.bundles[i]);
    AdoptedKeyIsValid(x, source, m, i, best[i]);
  }

  lemma SameKey(repo: Repository, a: BundleRef, b: BundleRef)
    requires ValidBundleKey(repo, a) && a.key == b.key && a.range == b.range
    ensures ValidBundleKey(repo, b)
  {
    hide Split, ParseRange;
  }

  lemma SourceIsSibling(namespace: Repository, key: string)
    requires ManifestRepository(namespace, key).Some?
    ensures ManifestRepository(namespace, key).value.0.namespace == namespace.namespace
  {
    hide Split;
  }

  // What one manifest offers is a stored chain that a push may continue from.
  lemma OfferIsGoodChain(x: Context, source: Repository, m: Manifest, c: seq<BundleRef>)
    requires x.tip in x.g.parents && Faithful(x) && Complete(m, source) && source.namespace == x.repo.namespace
    requires |m.tip| == |x.tip| && Sound(x, m.bundles, c) && c != []
    ensures var end := RangeEnd(c[|c| - 1].range);
      GoodChain(x.g, x.repo, c, end) && IsAncestor(x.g, end, x.tip)
  {
    hide Reach, ParseRange, RangeEnd, RangeBase, Identified, IsAncestor, Complete, Zeros, ValidBundleKey, Linked,
      Compatible, Grounded, Stored, RemainingAt, Candidate, Faithful, Usable, Sound, Ancestral;
    CompleteIsLinked(m, source);
    forall b | b in c ensures Stored(x.repo, b) {
      var i :| 0 <= i < |c| && c[i] == b;
      SoundIsShorter(x, m.bundles, c);
      AdoptedIsStored(x, source, m, c, i);
    }
    SoundLinks(x, m.bundles, m.tip, c);
    TipWidth(x);
  }

  lemma SoundIsShorter(x: Context, bundles: seq<BundleRef>, c: seq<BundleRef>)
    requires Sound(x, bundles, c)
    ensures |c| <= |bundles|
  {
    hide Usable, Grounded, IsAncestor;
  }

  // What adoption returns is a complete stored chain that a push may continue from.
  lemma AdoptedIsGoodChain(x: Context, keys: seq<string>, read: string -> ManifestRead, best: seq<BundleRef>, from: nat)
    requires x.tip in x.g.parents && Faithful(x) && Validated(x, keys, read) && From(x, keys, read, best, from)
    ensures var end := RangeEnd(best[|best| - 1].range);
      GoodChain(x.g, x.repo, best, end) && IsAncestor(x.g, end, x.tip)
    ensures forall b | b in best :: Compatible(b.recipients, x.chains)
  {
    hide Reach, RangeEnd, ManifestRepository, IsAncestor, Complete, Faithful, Sound, GoodChain, Compatible;
    SoundIsCompatible(x, read(keys[from]).m.bundles, best);
    var key := keys[from];
    assert key in keys;
    SourceIsSibling(x.repo, key);
    OfferIsGoodChain(x, ManifestRepository(x.repo, key).value.0, read(key).m, best);
  }

  lemma SoundIsCompatible(x: Context, bundles: seq<BundleRef>, best: seq<BundleRef>)
    requires Sound(x, bundles, best)
    ensures forall b | b in best :: Compatible(b.recipients, x.chains)
  {
    hide Grounded, IsAncestor, RangeEnd, Compatible;
  }

  lemma SoundLinks(x: Context, bundles: seq<BundleRef>, tip: Hash, best: seq<BundleRef>)
    requires Faithful(x) && Sound(x, bundles, best) && best != [] && Linked(bundles, Zeros(|x.tip|), tip)
    ensures var end := RangeEnd(best[|best| - 1].range);
      Linked(best, Zeros(|x.tip|), end) && Ancestral(x.g, best) && IsAncestor(x.g, end, x.tip)
  {
    hide Reach, ParseRange, RangeEnd, RangeBase, Identified, IsAncestor, Zeros, Linked, Compatible, Grounded;
    forall i | 0 <= i < |best| ensures best[i].range == bundles[i].range {
      assert Usable(x, bundles[i]);
    }
    LinkedAt(bundles, Zeros(|x.tip|), tip, |best| - 1);
    SameRangesLink(bundles[..|best|], best, Zeros(|x.tip|), RangeEnd(best[|best| - 1].range));
  }

  lemma TipWidth(x: Context)
    requires x.tip in x.g.parents
    ensures |x.tip| == x.g.width
  {}
}
