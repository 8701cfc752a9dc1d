/** What every protocol step keeps. */
module ProtocolInvariant {
  import opened Wrappers
  import opened Names
  import opened Commits
  import opened Chains
  import opened Manifests
  import opened Protocol
  import Adoption
  import Push

  // ----- The invariant -----

  ghost predicate Refines(before: seq<BundleRef>, after: seq<BundleRef>) {
    |before| <= |after| && forall i | 0 <= i < |before| :: Enriches(before[i], after[i])
  }

  // A published state and its successor: one branch, a descending tip, and the old bundle list kept as a prefix.
  ghost predicate Extends(g: Dag, a: Manifest, b: Manifest) {
    b.branch == a.branch && IsAncestor(g, a.tip, b.tip) && Refines(a.bundles, b.bundles)
  }

  function ManifestOf(s: State, key: string): Manifest
    requires key in s.archive
  {
    s.archive[key].manifest
  }

  // A published pointer written by a modelled writer is the one that writer landed.
  ghost predicate Authored(s: State, repo: Repository, key: string) {
    key in s.archive && (s.archive[key].writer.Some? ==>
      var id := s.archive[key].writer.value;
      id in s.writers && s.writers[id].landed && s.writers[id].repo == repo && s.writers[id].newKey == key)
  }

  // A push brings something new: another tip, or the first modern list of this one.
  predicate BringsNews(before: Manifest, tip: Hash) {
    before.tip != tip || before.legacy
  }

  ghost predicate Advances(g: Dag, s: State, log: seq<string>, i: nat)
    requires 0 < i < |log|
  {
    && log[i - 1] in s.archive && log[i] in s.archive
    && Extends(g, ManifestOf(s, log[i - 1]), ManifestOf(s, log[i]))
    && BringsNews(ManifestOf(s, log[i - 1]), ManifestOf(s, log[i]).tip)
  }

  ghost predicate LogSound(g: Dag, s: State, repo: Repository) {
    var log := LogOf(s, repo);
    && (forall i | 0 <= i < |log| :: Published(g, s, repo, log[i]) && Authored(s, repo, log[i]))
    && (forall i, j | 0 <= i < j < |log| :: log[i] != log[j])
    && (forall i | 0 < i < |log| :: Advances(g, s, log, i))
    && (log != [] ==> repo.Valid() && log[|log| - 1] in s.live)
  }

  // The list under construction: a stored ancestral chain that keeps what the destination had.
  ghost predicate Building(g: Dag, s: State, w: Writer) {
    && Linked(w.bundles, Zeros(g.width), ChainTip(g, w.bundles)) && Ancestral(g, w.bundles)
    && (forall b | b in w.bundles :: Stored(w.repo, b) && Holds(s, b))
    && (forall b | b in w.pending :: ValidBundleKey(w.repo, b))
    && (w.prior != "" ==> w.prior in s.archive && var m := ManifestOf(s, w.prior);
        && m.branch == w.branch && IsAncestor(g, m.tip, w.tip) && BringsNews(m, w.tip)
        && Refines(m.bundles, w.bundles + w.pending))
  }

  // What an adoption pass has found so far: nothing, or a stored chain into the pushed history.
  ghost predicate OfferSound(g: Dag, s: State, w: Writer) {
    w.offer == [] ||
    (Push.GoodChain(g, w.repo, w.offer, ChainTip(g, w.offer)) && IsAncestor(g, ChainTip(g, w.offer), w.tip)
     && forall b | b in w.offer :: Holds(s, b))
  }

  // A manifest written but not yet published.
  ghost predicate Ready(g: Dag, s: State, id: nat, w: Writer) {
    && w.pending == [] && w.newKey in s.live && Published(g, s, w.repo, w.newKey)
    && s.archive[w.newKey] == Archived(NewManifest(w.repo, w.branch, w.tip, w.bundles), Some(id))
  }

  // The writer's manifest was published directly after the state it read.
  ghost predicate Landed(s: State, id: nat, w: Writer) {
    var log := LogOf(s, w.repo);
    && w.newKey in s.archive && s.archive[w.newKey].writer == Some(id)
    && exists i: nat :: LandedAt(log, w, i)
  }

  predicate LandedAt(log: seq<string>, w: Writer, i: nat) {
    i < |log| && log[i] == w.newKey && if w.prior == "" then i == 0 else i > 0 && log[i - 1] == w.prior
  }

  ghost predicate Fenced(s: State, id: nat, w: Writer) {
    !w.landed && RecordOf(s, w.repo).owner == Some(id) ==>
      RecordOf(s, w.repo).pointer == w.prior && RecordOf(s, w.repo).branch == w.seenBranch
  }

  ghost predicate WriterSound(g: Dag, s: State, id: nat, w: Writer) {
    && w.repo.Valid() && w.branch != "" && w.tip in g.parents
    && (w.prior != "" ==> w.prior in LogOf(s, w.repo))
    && Fenced(s, id, w)
    && (w.stage == Locked || w.stage == Discovering || w.stage == Surveying ==> w.bundles == [] && w.pending == [])
    && (w.stage == Discovering || w.stage == Surveying ==> w.prior == "")
    && (w.stage == Locked || w.stage == Discovering ==> w.offer == [])
    && OfferSound(g, s, w)
    && (w.stage == Working || w.stage == Manifested ==> Building(g, s, w))
    && (w.stage == Manifested ==> Ready(g, s, id, w))
    && (Early(w.stage) || w.stage == Manifested ==> !w.landed)
    && (w.stage == Committed ==> w.landed)
    && (w.landed ==> Landed(s, id, w))
  }

  ghost predicate ReaderSound(s: State, r: Reader) {
    var log := LogOf(s, r.repo);
    && 1 <= r.attempt <= MAXIMUM_ATTEMPTS && r.started <= |log| && r.seen <= |log|
    && (r.stage == AtRecord ==> r.started + (r.attempt - 1) <= |log| && (r.missed <==> r.attempt > 1))
    && (r.stage == AtManifest || r.stage == Returned ==> r.started + (r.attempt - 1) <= r.seen)
    && (r.stage == AtManifest || r.stage == Returned || r.missed ==>
         if r.pointer == "" then r.seen == 0 && !r.missed else
           r.seen > 0 && log[r.seen - 1] == r.pointer && r.pointer in s.archive
             && ManifestOf(s, r.pointer).branch == r.branch)
    && (r.stage == Returned ==> r.pointer != "")
    && r.stage != LostPointer && r.stage != ChangedBranch
    && (r.stage == Exhausted ==> r.started + MAXIMUM_ATTEMPTS <= |log|)
  }

  ghost predicate OwnerSound(s: State, repo: Repository) {
    var owner := RecordOf(s, repo).owner;
    owner.Some? ==> owner.value in s.writers && s.writers[owner.value].repo == repo
  }

  // The key is one this writer chose for its manifest.
  ghost predicate KeyOf(w: Writer, key: string) {
    exists uuid: string :: '/' !in uuid && key == Adoption.ManifestKey(w.repo, w.tip, uuid)
  }

  // A manifest some modelled writer wrote is its own, and sound for its repository whether published or not.
  ghost predicate AuthorSound(g: Dag, s: State, key: string)
    requires key in s.archive
  {
    s.archive[key].writer.Some? ==>
      var id := s.archive[key].writer.value;
      && id in s.writers && s.writers[id].newKey == key && !Early(s.writers[id].stage)
      && Published(g, s, s.writers[id].repo, key) && !s.archive[key].manifest.legacy && KeyOf(s.writers[id], key)
      && s.archive[key].manifest.tip == s.writers[id].tip
  }

  ghost predicate StoreSound(g: Dag, s: State) {
    && (forall key | key in s.bundles :: WellNamed(key, s.bundles[key]))
    && s.live <= s.archive.Keys
    && (forall key | key in s.archive :: ListNamed(key) && AuthorSound(g, s, key))
  }

  ghost predicate Inv(g: Dag, s: State) {
    && StoreSound(g, s)
    && (forall repo :: LogSound(g, s, repo))
    && (forall repo :: RecordSound(s, repo, RecordOf(s, repo)) && OwnerSound(s, repo))
    && (forall id | id in s.writers :: WriterSound(g, s, id, s.writers[id]))
    && (forall id | id in s.readers :: ReaderSound(s, s.readers[id]))
  }

  // ----- What never shrinks -----

  ghost predicate Later(s: State, t: State) {
    && (forall key | key in s.bundles :: key in t.bundles && t.bundles[key] == s.bundles[key])
    && (forall key | key in s.archive :: key in t.archive && t.archive[key] == s.archive[key])
    && (forall repo :: LogOf(s, repo) <= LogOf(t, repo))
  }

  lemma PublishedLater(g: Dag, s: State, t: State, repo: Repository, key: string)
    requires Later(s, t) && Published(g, s, repo, key)
    ensures Published(g, t, repo, key)
  {
    hide Reach, Complete, Ancestral, ManifestPointer, Enriches;
  }

  lemma BuildingLater(g: Dag, s: State, t: State, w: Writer)
    requires Later(s, t) && Building(g, s, w)
    ensures Building(g, t, w)
  {
    hide Reach, Linked, Ancestral, Stored, ValidBundleKey, Enriches, Refines, ChainTip;
  }

  lemma OfferLater(g: Dag, s: State, t: State, w: Writer)
    requires Later(s, t) && OfferSound(g, s, w)
    ensures OfferSound(g, t, w)
  {
    hide Reach, IsAncestor, Push.GoodChain, Enriches, ChainTip;
  }

  lemma WriterFrame(g: Dag, s: State, t: State, id: nat, w: Writer)
    requires Later(s, t) && WriterSound(g, s, id, w)
    requires !w.landed && RecordOf(t, w.repo).owner == Some(id) ==>
      RecordOf(s, w.repo).owner == Some(id)
      && RecordOf(t, w.repo).pointer == RecordOf(s, w.repo).pointer
        && RecordOf(t, w.repo).branch == RecordOf(s, w.repo).branch
    requires w.stage == Manifested ==> w.newKey in t.live
    ensures WriterSound(g, t, id, w)
  {
    hide Reach, Building, OfferSound, Protocol.Sound, ManifestPointer, NewManifest, RecordOf, LogOf;
    OfferLater(g, s, t, w);
    assert LogOf(s, w.repo) <= LogOf(t, w.repo);
    if w.prior != "" {
      var i :| 0 <= i < |LogOf(s, w.repo)| && LogOf(s, w.repo)[i] == w.prior;
      assert LogOf(t, w.repo)[i] == w.prior;
    }
    if w.stage == Working || w.stage == Manifested { BuildingLater(g, s, t, w); }
    if w.stage == Manifested { PublishedLater(g, s, t, w.repo, w.newKey); }
    if w.landed {
      var log := LogOf(s, w.repo);
      var i: nat :| LandedAt(log, w, i);
      assert LandedAt(LogOf(t, w.repo), w, i);
    }
  }

  lemma ReaderFrame(s: State, t: State, r: Reader)
    requires Later(s, t) && ReaderSound(s, r)
    ensures ReaderSound(t, r)
  {
    hide LogOf;
    assert LogOf(s, r.repo) <= LogOf(t, r.repo);
  }

  // A log that did not grow stays sound while its last manifest is live and its authors stay landed.
  lemma LogFrame(g: Dag, s: State, t: State, repo: Repository)
    requires Later(s, t) && LogSound(g, s, repo) && LogOf(t, repo) == LogOf(s, repo)
    requires forall id | id in s.writers && s.writers[id].landed ::
      id in t.writers && t.writers[id].landed && t.writers[id].repo == s.writers[id].repo
        && t.writers[id].newKey == s.writers[id].newKey
    requires LogOf(s, repo) != [] ==> LogOf(s, repo)[|LogOf(s, repo)| - 1] in t.live
    ensures LogSound(g, t, repo)
  {
    hide Reach, Published, Extends, LogOf;
    var log := LogOf(s, repo);
    forall i | 0 < i < |log| ensures Advances(g, t, log, i) {
      assert Advances(g, s, log, i);
    }
    forall i | 0 <= i < |log| ensures Published(g, t, repo, log[i]) && Authored(t, repo, log[i]) {
      PublishedLater(g, s, t, repo, log[i]);
      assert log[i] in s.archive by { assert Authored(s, repo, log[i]); }
    }
  }

  // Two repositories never publish the same manifest.
  lemma LogsAreDisjoint(g: Dag, s: State, a: Repository, b: Repository, key: string)
    requires a.Valid() && b.Valid() && Published(g, s, a, key) && Published(g, s, b, key)
    ensures a == b
  {
    hide Reach, Linked, Ancestral, ManifestPointer, Holds, DistinctEnds;
    assert a.Canonical() == b.Canonical();
    NoSlashInComponent(a.name);
    NoSlashInComponent(b.name);
    LastSlashUnique(a.namespace, a.name, b.namespace, b.name);
    assert a.namespace == a.Canonical()[..|a.namespace|] == b.namespace;
  }
}
