/** Publishing a manifest, and reading one, keep the invariant. */
module ProtocolPublish {
  import opened Wrappers
  import opened Names
  import opened Commits
  import opened Chains
  import opened Manifests
  import opened Protocol
  import opened ProtocolInvariant
  import opened ProtocolSteps

  // ----- Commit -----

  predicate CanPublish(s: State, id: nat, stage: WriterStage) {
    At(s, id, Manifested) && HoldsLease(s, id) && (stage == Committed || stage == Stopped)
  }

  lemma PublishShape(s: State, id: nat, stage: WriterStage)
    requires id in s.writers
    ensures var t, w := Publish(s, id, stage), s.writers[id];
      && Later(s, t) && LogOf(t, w.repo) == LogOf(s, w.repo) + [w.newKey]
      && RecordOf(t, w.repo) == Record(w.newKey, w.branch, None)
      && t.writers == s.writers[id := w.(stage := stage, landed := true)]
      && t.readers == s.readers && t.archive == s.archive && t.live == s.live && t.bundles == s.bundles
    ensures forall repo | repo != s.writers[id].repo ::
      (LogOf(Publish(s, id, stage), repo) == LogOf(s, repo)
        && RecordOf(Publish(s, id, stage), repo) == RecordOf(s, repo))
  {}

  // A manifest not yet published is in no log of its repository.
  lemma ReadyIsNew(g: Dag, s: State, id: nat, i: nat)
    requires Inv(g, s) && At(s, id, Manifested) && i < |LogOf(s, s.writers[id].repo)|
    ensures LogOf(s, s.writers[id].repo)[i] != s.writers[id].newKey
  {
    hide StoreSound, ReaderSound, RecordSound, OwnerSound, LogOf, RecordOf, Building, Published, Fenced, Advances,
      Landed;
    var w := s.writers[id];
    assert WriterSound(g, s, id, w);
    assert LogSound(g, s, w.repo);
    assert Authored(s, w.repo, LogOf(s, w.repo)[i]);
  }

  // While the token is stored the record is still the one the writer read.
  lemma PriorIsLast(g: Dag, s: State, id: nat)
    requires Inv(g, s) && At(s, id, Manifested) && HoldsLease(s, id)
    ensures var w := s.writers[id]; var log := LogOf(s, w.repo);
      if w.prior == "" then log == [] else log != [] && log[|log| - 1] == w.prior
  {
    hide StoreSound, LogSound, ReaderSound, OwnerSound, LogOf, RecordOf, Building, Ready, Published, Landed;
    var w := s.writers[id];
    assert WriterSound(g, s, id, w);
    assert RecordSound(s, w.repo, RecordOf(s, w.repo));
  }

  // The new manifest extends the one it replaces.
  lemma NewExtendsPrior(g: Dag, s: State, id: nat)
    requires Inv(g, s) && At(s, id, Manifested) && s.writers[id].prior != ""
    ensures var w := s.writers[id];
      && w.prior in s.archive && w.newKey in s.archive
      && Extends(g, ManifestOf(s, w.prior), ManifestOf(s, w.newKey))
      && BringsNews(ManifestOf(s, w.prior), ManifestOf(s, w.newKey).tip)
  {
    hide StoreSound, LogSound, ReaderSound, RecordSound, OwnerSound, LogOf, RecordOf, Reach, IsAncestor, Fenced,
      Landed, Linked, Ancestral, Stored, Holds, ManifestPointer, Enriches, Protocol.Sound;
    var w := s.writers[id];
    assert WriterSound(g, s, id, w);
    assert w.bundles + w.pending == w.bundles;
  }

  lemma PublishedAdvances(g: Dag, s: State, id: nat, stage: WriterStage, i: nat)
    requires Inv(g, s) && CanPublish(s, id, stage)
    requires 0 < i < |LogOf(s, s.writers[id].repo)| + 1
    ensures Advances(g, Publish(s, id, stage), LogOf(s, s.writers[id].repo) + [s.writers[id].newKey], i)
  {
    hide StoreSound, ReaderSound, RecordSound, OwnerSound, WriterSound, LogOf, RecordOf, Reach, Published, Authored,
      Extends;
    var w, log := s.writers[id], LogOf(s, s.writers[id].repo);
    PublishShape(s, id, stage);
    if i < |log| {
      assert LogSound(g, s, w.repo);
      assert Advances(g, s, log, i);
    } else {
      PriorIsLast(g, s, id);
      NewExtendsPrior(g, s, id);
    }
  }

  lemma ManifestedHasKey(g: Dag, s: State, id: nat)
    requires Inv(g, s) && At(s, id, Manifested)
    ensures var w := s.writers[id];
      w.newKey in s.archive && s.archive[w.newKey].writer == Some(id) && Published(g, s, w.repo, w.newKey)
    ensures !s.writers[id].landed && s.writers[id].repo.Valid() && s.writers[id].newKey in s.live
  {
    hide StoreSound, ReaderSound, RecordSound, OwnerSound, LogSound, LogOf, RecordOf, Building, Fenced, Landed,
      Protocol.Sound, ManifestPointer, NewManifest;
    assert WriterSound(g, s, id, s.writers[id]);
  }

  lemma PublishedIsAuthored(g: Dag, s: State, id: nat, stage: WriterStage, i: nat)
    requires Inv(g, s) && CanPublish(s, id, stage)
    requires i < |LogOf(s, s.writers[id].repo)| + 1
    ensures var key := (LogOf(s, s.writers[id].repo) + [s.writers[id].newKey])[i]; var t := Publish(s, id, stage);
      Published(g, t, s.writers[id].repo, key) && Authored(t, s.writers[id].repo, key)
  {
    hide StoreSound, ReaderSound, RecordSound, OwnerSound, WriterSound, LogOf, RecordOf, Published, Advances, Later,
      Publish;
    var w, log := s.writers[id], LogOf(s, s.writers[id].repo);
    var t := Publish(s, id, stage);
    PublishShape(s, id, stage);
    ManifestedHasKey(g, s, id);
    if i < |log| {
      assert LogSound(g, s, w.repo);
      assert Published(g, s, w.repo, log[i]) && Authored(s, w.repo, log[i]);
      PublishedLater(g, s, t, w.repo, log[i]);
    } else {
      PublishedLater(g, s, t, w.repo, w.newKey);
    }
  }

  lemma PublishedLogIsSound(g: Dag, s: State, id: nat, stage: WriterStage)
    requires Inv(g, s) && CanPublish(s, id, stage)
    ensures LogSound(g, Publish(s, id, stage), s.writers[id].repo)
  {
    hide StoreSound, ReaderSound, RecordSound, OwnerSound, WriterSound, LogOf, RecordOf, Published, Authored, Advances,
      Later, Publish, Repository.Valid;
    var w, log := s.writers[id], LogOf(s, s.writers[id].repo);
    var t := Publish(s, id, stage);
    PublishShape(s, id, stage);
    var grown := LogOf(t, w.repo);
    ManifestedHasKey(g, s, id);
    assert LogSound(g, s, w.repo);
    forall i | 0 <= i < |grown| ensures Published(g, t, w.repo, grown[i]) && Authored(t, w.repo, grown[i]) {
      PublishedIsAuthored(g, s, id, stage, i);
    }
    forall i | 0 < i < |grown| ensures Advances(g, t, grown, i) {
      PublishedAdvances(g, s, id, stage, i);
    }
    forall i | 0 <= i < |log| ensures log[i] != w.newKey {
      ReadyIsNew(g, s, id, i);
    }
  }

  lemma PublisherHasLanded(g: Dag, s: State, id: nat, stage: WriterStage)
    requires Inv(g, s) && CanPublish(s, id, stage)
    ensures Landed(Publish(s, id, stage), id, Publish(s, id, stage).writers[id])
  {
    hide Inv, LogOf, RecordOf, Publish, Later, Published;
    var w := s.writers[id];
    var t := Publish(s, id, stage);
    PublishShape(s, id, stage);
    PriorIsLast(g, s, id);
    ManifestedHasKey(g, s, id);
    var n: nat := |LogOf(s, w.repo)|;
    assert LandedAt(LogOf(t, w.repo), t.writers[id], n) by {
      if w.prior != "" { assert LogOf(t, w.repo)[n - 1] == w.prior; }
    }
  }

  lemma PublisherIsSound(g: Dag, s: State, id: nat, stage: WriterStage)
    requires Inv(g, s) && CanPublish(s, id, stage)
    ensures WriterSound(g, Publish(s, id, stage), id, Publish(s, id, stage).writers[id])
  {
    hide StoreSound, ReaderSound, RecordSound, OwnerSound, LogSound, LogOf, RecordOf, Building, Ready, Landed, Publish,
      Later;
    PublishShape(s, id, stage);
    PublisherHasLanded(g, s, id, stage);
    assert WriterSound(g, s, id, s.writers[id]);
  }

  lemma PublishKeepsLogs(g: Dag, s: State, id: nat, stage: WriterStage, repo: Repository)
    requires Inv(g, s) && CanPublish(s, id, stage) && repo != s.writers[id].repo
    ensures LogSound(g, Publish(s, id, stage), repo)
  {
    hide StoreSound, ReaderSound, RecordSound, OwnerSound, WriterSound, LogOf, RecordOf, Published, Authored, Advances,
      Later, Publish;
    PublishShape(s, id, stage);
    assert LogSound(g, s, repo);
    LogFrame(g, s, Publish(s, id, stage), repo);
  }

  lemma PublishKeepsRecords(g: Dag, s: State, id: nat, stage: WriterStage, repo: Repository)
    requires Inv(g, s) && CanPublish(s, id, stage)
    ensures var t := Publish(s, id, stage); RecordSound(t, repo, RecordOf(t, repo)) && OwnerSound(t, repo)
  {
    hide StoreSound, ReaderSound, LogSound, LogOf, RecordOf, Building, Fenced, Landed, Later, Publish, Protocol.Sound,
      ManifestPointer;
    PublishShape(s, id, stage);
    assert WriterSound(g, s, id, s.writers[id]);
    assert RecordSound(s, repo, RecordOf(s, repo)) && OwnerSound(s, repo);
  }

  lemma PublishKeepsStore(g: Dag, s: State, id: nat, stage: WriterStage)
    requires Inv(g, s) && CanPublish(s, id, stage)
    ensures StoreSound(g, Publish(s, id, stage))
  {
    hide ReaderSound, LogSound, RecordSound, OwnerSound, WriterSound, LogOf, RecordOf, Later, Publish, WellNamed,
      ListNamed;
    PublishShape(s, id, stage);
    AuthorsStay(g, s, Publish(s, id, stage), id);
  }

  lemma PublishKeepsWriter(g: Dag, s: State, id: nat, stage: WriterStage, j: nat)
    requires Inv(g, s) && CanPublish(s, id, stage) && j in s.writers && j != id
    ensures WriterSound(g, Publish(s, id, stage), j, s.writers[j])
  {
    hide ReaderSound, LogSound, RecordSound, OwnerSound, StoreSound, WriterSound, LogOf, RecordOf, Later, Publish;
    PublishShape(s, id, stage);
    assert WriterSound(g, s, j, s.writers[j]);
    ReadyIsLive(g, s, j, s.writers[j]);
    WriterFrame(g, s, Publish(s, id, stage), j, s.writers[j]);
  }

  lemma PublishKeeps(g: Dag, s: State, id: nat, stage: WriterStage)
    requires Inv(g, s) && CanPublish(s, id, stage)
    ensures Inv(g, Publish(s, id, stage))
  {
    hide ReaderSound, LogSound, RecordSound, OwnerSound, StoreSound, WriterSound, LogOf, RecordOf, Later, Publish;
    var t := Publish(s, id, stage);
    PublishShape(s, id, stage);
    PublishKeepsStore(g, s, id, stage);
    PublisherIsSound(g, s, id, stage);
    forall repo ensures LogSound(g, t, repo) && RecordSound(t, repo, RecordOf(t, repo)) && OwnerSound(t, repo) {
      if repo == s.writers[id].repo {
        PublishedLogIsSound(g, s, id, stage);
      } else {
        PublishKeepsLogs(g, s, id, stage, repo);
      }
      PublishKeepsRecords(g, s, id, stage, repo);
    }
    forall j | j in t.writers ensures WriterSound(g, t, j, t.writers[j]) {
      if j != id { PublishKeepsWriter(g, s, id, stage, j); }
    }
    forall j | j in t.readers ensures ReaderSound(t, t.readers[j]) {
      ReaderFrame(s, t, s.readers[j]);
    }
  }

  // ----- Reading -----

  // Along a log of sound publications every manifest extends every earlier one.
  lemma {:induction false} LogIsLinear(g: Dag, s: State, repo: Repository, i: nat, j: nat)
    requires LogSound(g, s, repo) && i <= j < |LogOf(s, repo)|
    ensures LogOf(s, repo)[i] in s.archive && LogOf(s, repo)[j] in s.archive
    ensures Extends(g, ManifestOf(s, LogOf(s, repo)[i]), ManifestOf(s, LogOf(s, repo)[j]))
    decreases j
  {
    hide Reach, IsAncestor, Published, Enriches, Repository.Valid, LogOf;
    var log := LogOf(s, repo);
    assert Authored(s, repo, log[i]) && Authored(s, repo, log[j]);
    if i == j {
      PublishedExtendsItself(g, s, repo, log[i]);
    } else {
      LogIsLinear(g, s, repo, i, j - 1);
      assert Advances(g, s, log, j);
      ExtendsTransitive(g, ManifestOf(s, log[i]), ManifestOf(s, log[j - 1]), ManifestOf(s, log[j]));
    }
  }

  // No push publishes a tip again: of the states a repository goes through, no two that pushes wrote have one tip.
  lemma TipsNeverRepeat(g: Dag, s: State, repo: Repository, i: nat, j: nat)
    requires LogSound(g, s, repo) && i < j < |LogOf(s, repo)|
    ensures LogOf(s, repo)[i] in s.archive && LogOf(s, repo)[j] in s.archive
    ensures BringsNews(ManifestOf(s, LogOf(s, repo)[i]), ManifestOf(s, LogOf(s, repo)[j]).tip)
  {
    hide Reach, Published, Enriches, Repository.Valid, LogOf, Refines;
    var log := LogOf(s, repo);
    LogIsLinear(g, s, repo, i + 1, j);
    assert Advances(g, s, log, i + 1);
    var a, b, c := ManifestOf(s, log[i]).tip, ManifestOf(s, log[i + 1]).tip, ManifestOf(s, log[j]).tip;
    if a == c { AncestorAntisymmetric(g, a, b); }
  }

  lemma PublishedExtendsItself(g: Dag, s: State, repo: Repository, key: string)
    requires Published(g, s, repo, key)
    ensures Extends(g, ManifestOf(s, key), ManifestOf(s, key))
  {
    hide Complete, Ancestral, Holds, ManifestPointer;
  }

  lemma ExtendsTransitive(g: Dag, a: Manifest, b: Manifest, c: Manifest)
    requires Extends(g, a, b) && Extends(g, b, c)
    ensures Extends(g, a, c)
  {
    hide Reach, IsAncestor, Enriches;
    AncestorTransitive(g, a.tip, b.tip, c.tip);
    forall i | 0 <= i < |a.bundles| ensures Enriches(a.bundles[i], c.bundles[i]) {
      EnrichesTransitive(a.bundles[i], b.bundles[i], c.bundles[i]);
    }
  }

  // The record's branch is the branch of every manifest the repository ever published.
  lemma BranchIsConstant(g: Dag, s: State, repo: Repository, i: nat)
    requires Inv(g, s) && i < |LogOf(s, repo)|
    ensures LogOf(s, repo)[i] in s.archive && ManifestOf(s, LogOf(s, repo)[i]).branch == RecordOf(s, repo).branch
  {
    hide WriterSound, ReaderSound, OwnerSound, StoreSound, LogSound, LogOf, RecordOf, Refines;
    assert LogSound(g, s, repo) && RecordSound(s, repo, RecordOf(s, repo));
    LogIsLinear(g, s, repo, i, |LogOf(s, repo)| - 1);
  }

  lemma ReadPointerIsSound(g: Dag, s: State, r: Reader)
    requires Inv(g, s) && ReaderSound(s, r) && r.stage == AtRecord
    ensures ReaderSound(s, ReadPointer(s, r))
  {
    hide WriterSound, OwnerSound, StoreSound, LogSound, LogOf, RecordOf;
    assert RecordSound(s, r.repo, RecordOf(s, r.repo));
    if r.missed { BranchIsConstant(g, s, r.repo, r.seen - 1); }
  }

  // A published manifest is missing only when a newer one has been published since the record was read.
  lemma MissingMeansSuperseded(g: Dag, s: State, r: Reader)
    requires Inv(g, s) && ReaderSound(s, r) && r.stage == AtManifest && r.pointer != "" && r.pointer !in s.live
    ensures r.seen < |LogOf(s, r.repo)|
  {
    hide WriterSound, RecordSound, OwnerSound, StoreSound, LogOf, Published, Authored, Advances, Repository.Valid;
    assert LogSound(g, s, r.repo);
  }

  lemma ReadBodyIsSound(g: Dag, s: State, r: Reader)
    requires Inv(g, s) && ReaderSound(s, r) && r.stage == AtManifest
    ensures ReaderSound(s, ReadBody(s, r))
  {
    hide Inv, LogOf;
    if r.pointer != "" && r.pointer !in s.live { MissingMeansSuperseded(g, s, r); }
  }

  // Reads change nothing but the reader.
  lemma ReaderStep(g: Dag, s: State, reader: nat, r: Reader)
    requires Inv(g, s) && ReaderSound(s, r)
    ensures Inv(g, s.(readers := s.readers[reader := r]))
  {
    hide LogSound, WriterSound, RecordSound, OwnerSound, StoreSound, LogOf, RecordOf;
    var t := s.(readers := s.readers[reader := r]);
    ReadersAreUnseen(g, s, t);
    forall j | j in t.readers ensures ReaderSound(t, t.readers[j]) {
      ReaderFrame(s, t, t.readers[j]);
    }
  }

  lemma ReadersAreUnseen(g: Dag, s: State, t: State)
    requires Inv(g, s) && t == s.(readers := t.readers)
    ensures Later(s, t) && StoreSound(g, t)
    ensures forall repo :: LogSound(g, t, repo) && RecordSound(t, repo, RecordOf(t, repo)) && OwnerSound(t, repo)
    ensures forall id | id in t.writers :: WriterSound(g, t, id, t.writers[id])
  {
    hide ReaderSound, LogSound, RecordSound, OwnerSound, WriterSound, WellNamed, ListNamed, Published, Later;
    SameStoreIsLater(s, t);
    forall repo ensures LogSound(g, t, repo) && RecordSound(t, repo, RecordOf(t, repo)) && OwnerSound(t, repo) {
      ReadersAreUnseenByLogs(g, s, t, repo);
    }
    forall id | id in t.writers ensures WriterSound(g, t, id, t.writers[id]) {
      assert WriterSound(g, s, id, s.writers[id]);
      ReadyIsLive(g, s, id, s.writers[id]);
      WriterFrame(g, s, t, id, s.writers[id]);
    }
    forall key | key in t.archive ensures AuthorSound(g, t, key) {
      assert AuthorSound(g, s, key);
      if s.archive[key].writer.Some? { PublishedLater(g, s, t, s.writers[s.archive[key].writer.value].repo, key); }
    }
  }

  lemma ReadersAreUnseenByLogs(g: Dag, s: State, t: State, repo: Repository)
    requires Inv(g, s) && t == s.(readers := t.readers)
    ensures LogSound(g, t, repo) && RecordSound(t, repo, RecordOf(t, repo)) && OwnerSound(t, repo)
  {
    hide ReaderSound, WriterSound, StoreSound, Published, Authored, Advances, Repository.Valid;
    assert LogSound(g, s, repo) && RecordSound(s, repo, RecordOf(s, repo)) && OwnerSound(s, repo);
    LogFrame(g, s, t, repo);
  }
}
