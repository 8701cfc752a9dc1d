/** Fetching a published manifest into a local repository. */
module Fetch {
  import opened Wrappers
  import opened Names
  import opened Commits
  import opened Chains

  // A stored bundle as its reader finds it after decryption.
  datatype RemoteBundle = RemoteBundle(etag: string, size: int, base: Hash, end: Hash)

  datatype FetchError = NoObject | IdentityChanged | MissingPrerequisites | WrongHead | IncompleteHistory

  predicate Pinned(held: RemoteBundle, ref: BundleRef) {
    (ref.etag == "" || ref.etag == held.etag) && (ref.size == 0 || ref.size == held.size)
  }

  // The store holds what the descriptor promises.
  predicate Serves(store: map<string, RemoteBundle>, ref: BundleRef) {
    && ref.key in store && Pinned(store[ref.key], ref)
    && store[ref.key].base == RangeBase(ref.range) && store[ref.key].end == RangeEnd(ref.range)
  }

  // What was downloaded is the object the list recorded, with the recorded head.
  predicate AsRecorded(store: map<string, RemoteBundle>, ref: BundleRef) {
    && ref.key in store && ref.etag in {"", store[ref.key].etag} && ref.size in {0, store[ref.key].size}
    && store[ref.key].end == RangeEnd(ref.range)
  }

  ghost predicate AllAsRecorded(at: nat -> map<string, RemoteBundle>, bundles: seq<BundleRef>, k: nat) {
    forall i: nat | k <= i < |bundles| :: AsRecorded(at(i), bundles[i])
  }

  lemma NoneRecorded(at: nat -> map<string, RemoteBundle>, bundles: seq<BundleRef>, k: nat)
    requires |bundles| <= k
    ensures AllAsRecorded(at, bundles, k)
  {}

  lemma OneMoreRecorded(at: nat -> map<string, RemoteBundle>, bundles: seq<BundleRef>, k: nat, i: nat)
    requires i < |bundles| && AllAsRecorded(at, bundles[..i], k) && AsRecorded(at(i), bundles[i])
    ensures AllAsRecorded(at, bundles[..i + 1], k)
  {
    hide AsRecorded;
    forall j: nat | k <= j < i + 1 ensures AsRecorded(at(j), bundles[..i + 1][j]) {
      if j < i { assert bundles[..i][j] == bundles[j]; }
    }
  }

  // merge-base --is-ancestor hash branch, in a repository that may know neither.
  predicate Contains(g: Dag, branch: Option<Hash>, objects: set<Hash>, hash: Hash) {
    branch.Some? && branch.value in objects && hash in objects && IsAncestor(g, hash, branch.value)
  }

  // Exactly the bundles before k end in an ancestor of the local branch.
  ghost predicate MissingFrom(g: Dag, branch: Option<Hash>, objects: set<Hash>, bundles: seq<BundleRef>, k: nat) {
    && k <= |bundles|
    && forall i | 0 <= i < |bundles| :: i < k <==>
         branch.Some? && branch.value in objects && IsAncestor(g, RangeEnd(bundles[i].range), branch.value)
  }

  // In a parent-closed repository asking Git amounts to ancestry of the branch commit.
  lemma ContainsIsAncestry(g: Dag, branch: Option<Hash>, objects: set<Hash>, hash: Hash)
    requires Closed(g, objects)
    ensures Contains(g, branch, objects, hash) <==>
      branch.Some? && branch.value in objects && IsAncestor(g, hash, branch.value)
  {
    hide Reach;
    if branch.Some? && branch.value in objects { ReachClosed(g, objects, branch.value); }
  }

  // A chain a push publishes, each bundle served as recorded at the moment at(i) it is asked for.
  ghost predicate Published(g: Dag, at: nat -> map<string, RemoteBundle>, bundles: seq<BundleRef>, tip: Hash) {
    && tip in g.parents && Linked(bundles, Zeros(g.width), tip) && Ancestral(g, bundles)
    && forall i: nat | i < |bundles| :: Serves(at(i), bundles[i])
  }

  class LocalRepository {
    const g: Dag
    const branch: Option<Hash> // the local branch's commit, absent in a fresh clone
    var objects: set<Hash>

    constructor (g: Dag, branch: Option<Hash>, objects: set<Hash>)
      ensures this.g == g && this.branch == branch && this.objects == objects
    {
      this.g, this.branch, this.objects := g, branch, objects;
    }

    // Walk back from the newest bundle to the first one whose end the local branch contains.
    method FirstMissing(bundles: seq<BundleRef>) returns (k: nat)
      ensures k <= |bundles|
      ensures forall i | k <= i < |bundles| :: !Contains(g, branch, objects, RangeEnd(bundles[i].range))
      ensures k > 0 ==> Contains(g, branch, objects, RangeEnd(bundles[k - 1].range))
    {
      hide Contains, RangeEnd;
      k := |bundles|;
      while k > 0
        invariant k <= |bundles|
        invariant forall i | k <= i < |bundles| :: !Contains(g, branch, objects, RangeEnd(bundles[i].range))
      {
        if Contains(g, branch, objects, RangeEnd(bundles[k - 1].range)) {
          return;
        }
        k := k - 1;
      }
    }

    method Unbundle(held: RemoteBundle) returns (ok: bool)
      requires Closed(g, objects)
      modifies this`objects
      ensures ok <==> Prerequisites(g, held.base, held.end) <= old(objects)
      ensures objects == if ok then old(objects) + Carried(g, held.base, held.end) else old(objects)
      ensures Closed(g, objects)
    {
      ok := Prerequisites(g, held.base, held.end) <= objects;
      if ok {
        UnbundleKeepsClosed(g, objects, held.base, held.end);
        objects := objects + Carried(g, held.base, held.end);
      }
    }

    method Import(store: map<string, RemoteBundle>, ref: BundleRef) returns (error: Option<FetchError>)
      requires Closed(g, objects)
      modifies this`objects
      ensures Closed(g, objects) && old(objects) <= objects
      ensures Serves(store, ref) && Prerequisites(g, RangeBase(ref.range), RangeEnd(ref.range)) <= old(objects) ==>
        error.None? && objects == old(objects) + Carried(g, RangeBase(ref.range), RangeEnd(ref.range))
      ensures error.None? ==> AsRecorded(store, ref)
    {
      if ref.key !in store {
        return Some(NoObject);
      }
      var held := store[ref.key];
      if !Pinned(held, ref) {
        return Some(IdentityChanged);
      }
      var ok := Unbundle(held);
      if !ok {
        return Some(MissingPrerequisites);
      }
      if held.end != RangeEnd(ref.range) {
        return Some(WrongHead);
      }
      return None;
    }

    // Fetch, decrypt and unbundle everything from bundle k on, oldest first.
    method ImportFrom(at: nat -> map<string, RemoteBundle>, bundles: seq<BundleRef>, k: nat, ghost tip: Hash)
      returns (error: Option<FetchError>, downloaded: seq<BundleRef>)
      requires Closed(g, objects) && k <= |bundles|
      requires Published(g, at, bundles, tip) ==> objects == objects + Reach(g, EndBefore(g, bundles, k))
      modifies this`objects
      ensures Closed(g, objects) && old(objects) <= objects
      ensures error.None? ==>
        downloaded == bundles[k..] && AllAsRecorded(at, bundles, k)
      ensures Published(g, at, bundles, tip) ==>
        error.None? && objects == old(objects) + Reach(g, EndBefore(g, bundles, |bundles|))
    {
      hide Reach, Published, RangeBase, RangeEnd, Carried, Prerequisites, Serves, EndBefore, Pinned, Closed, AsRecorded,
        AllAsRecorded;
      ghost var published, before := Published(g, at, bundles, tip), objects;
      downloaded, error := [], None;
      NoneRecorded(at, bundles[..k], k);
      for i := k to |bundles|
        invariant Closed(g, objects) && before <= objects && error == None
        invariant downloaded == bundles[k..i] && AllAsRecorded(at, bundles[..i], k)
        invariant published ==> objects == before + Reach(g, EndBefore(g, bundles, i))
      {
        ghost var was := objects;
        if published { NextPrerequisites(g, at, bundles, tip, i, objects); }
        downloaded := downloaded + [bundles[i]];
        error := Import(at(i), bundles[i]);
        if error.Some? {
          return;
        }
        assert published ==> objects == was + Carried(g, RangeBase(bundles[i].range), RangeEnd(bundles[i].range));
        assert bundles[k..i + 1] == bundles[k..i] + [bundles[i]];
        OneMoreRecorded(at, bundles, k, i);
      }
      assert bundles[k..|bundles|] == bundles[k..] && bundles[..|bundles|] == bundles;
    }

    // Whatever the store serves, and however it changes between downloads, the repository stays parent-closed and loses
    // nothing, and success means the whole history of the tip is local. From a published chain the exact missing
    // bundles are imported, in order, and every prerequisite is there.
    method FetchManifest(at: nat -> map<string, RemoteBundle>, bundles: seq<BundleRef>, tip: Hash)
      returns (error: Option<FetchError>, downloaded: seq<BundleRef>)
      requires Closed(g, objects)
      modifies this`objects
      ensures Closed(g, objects) && old(objects) <= objects
      ensures error.None? ==> tip in objects && Reach(g, tip) <= objects
      ensures error.None? ==>
        exists k: nat :: k <= |bundles| && downloaded == bundles[k..] && AllAsRecorded(at, bundles, k)
      ensures Published(g, at, bundles, tip) ==>
        && error.None? && objects == old(objects) + Reach(g, tip)
        && exists k: nat :: MissingFrom(g, branch, old(objects), bundles, k) && downloaded == bundles[k..]
    {
      hide Reach, Published, Contains, RangeEnd, MissingFrom, EndBefore, Closed, AllAsRecorded;
      var k := FirstMissing(bundles);
      if Published(g, at, bundles, tip) {
        PlanIsExact(g, branch, objects, at, bundles, tip, k);
        EndsAtTip(g, at, bundles, tip);
      }
      error, downloaded := ImportFrom(at, bundles, k, tip);
      if error.None? && (tip !in objects || !(Reach(g, tip) <= objects)) {
        error := Some(IncompleteHistory);
      }
    }
  }

  // In a published chain containment goes down, so the backward walk stops at the exact missing suffix.
  lemma PlanIsExact(g: Dag, branch: Option<Hash>, objects: set<Hash>, at: nat -> map<string, RemoteBundle>,
                    bundles: seq<BundleRef>, tip: Hash, k: nat)
    requires Closed(g, objects) && Published(g, at, bundles, tip) && k <= |bundles|
    requires forall i | k <= i < |bundles| :: !Contains(g, branch, objects, RangeEnd(bundles[i].range))
    requires k > 0 ==> Contains(g, branch, objects, RangeEnd(bundles[k - 1].range))
    ensures MissingFrom(g, branch, objects, bundles, k)
    ensures objects == objects + Reach(g, EndBefore(g, bundles, k))
  {
    hide Reach, Linked, Ancestral, ParseRange, RangeEnd, Serves, Zeros;
    forall i | 0 <= i < |bundles|
      ensures Contains(g, branch, objects, RangeEnd(bundles[i].range)) <==>
        branch.Some? && branch.value in objects && IsAncestor(g, RangeEnd(bundles[i].range), branch.value)
    {
      ContainsIsAncestry(g, branch, objects, RangeEnd(bundles[i].range));
    }
    forall i | 0 <= i < k ensures Contains(g, branch, objects, RangeEnd(bundles[i].range)) {
      var end := RangeEnd(bundles[k - 1].range);
      EarlierEndIsAncestor(g, bundles, Zeros(g.width), tip, i, k - 1);
      AncestorTransitive(g, RangeEnd(bundles[i].range), end, branch.value);
      ReachClosed(g, objects, end);
    }
    if k > 0 {
      ReachClosed(g, objects, RangeEnd(bundles[k - 1].range));
    } else {
      ZeroReachesNothing(g);
    }
  }

  // Where the first i bundles end.
  function EndBefore(g: Dag, bundles: seq<BundleRef>, i: nat): Hash
    requires i <= |bundles|
  {
    if i == 0 then Zeros(g.width) else RangeEnd(bundles[i - 1].range)
  }

  lemma ZeroReachesNothing(g: Dag)
    ensures Reach(g, Zeros(g.width)) == {}
  {
    assert Zeros(g.width) !in g.parents;
  }

  lemma UnbundleKeepsClosed(g: Dag, local: set<Hash>, base: Hash, end: Hash)
    requires Closed(g, local) && Prerequisites(g, base, end) <= local
    ensures Closed(g, local + Carried(g, base, end))
  {
    hide Reach;
    forall c, p | c in Carried(g, base, end) && p in g.parents[c] ensures p in local + Carried(g, base, end) {
      assert p in Carried(g, base, end) || p in Prerequisites(g, base, end);
    }
  }

  // The next bundle of a chain finds its prerequisites, and completes the history of its own end.
  lemma NextPrerequisites(g: Dag, at: nat -> map<string, RemoteBundle>, bundles: seq<BundleRef>, tip: Hash, i: nat,
    local: set<Hash>)
    requires Published(g, at, bundles, tip) && i < |bundles|
    requires Reach(g, EndBefore(g, bundles, i)) <= local
    ensures Serves(at(i), bundles[i])
    ensures var base, end := RangeBase(bundles[i].range), RangeEnd(bundles[i].range);
      && Prerequisites(g, base, end) <= local
      && Reach(g, EndBefore(g, bundles, i + 1)) == Reach(g, EndBefore(g, bundles, i)) + Carried(g, base, end)
  {
    hide Reach, Linked, ParseRange, RangeBase, RangeEnd, Zeros, Prerequisites, Serves;
    var base, end := RangeBase(bundles[i].range), RangeEnd(bundles[i].range);
    LinkedAt(bundles, Zeros(g.width), tip, i);
    PrerequisitesAreInBase(g, base, end);
    assert Grounded(g, bundles[i].range);
    if base == Zeros(g.width) {
      ZeroReachesNothing(g);
    } else {
      ReachSubset(g, base, end);
    }
  }

  lemma EndsAtTip(g: Dag, at: nat -> map<string, RemoteBundle>, bundles: seq<BundleRef>, tip: Hash)
    requires Published(g, at, bundles, tip)
    ensures EndBefore(g, bundles, |bundles|) == tip && tip in Reach(g, tip)
  {
    hide Reach;
  }
}
