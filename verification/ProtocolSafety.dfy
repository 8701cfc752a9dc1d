/** What holds over every run: integrity, linear history, at most one winner, and what a reader sees. */
module ProtocolSafety {
  import opened Wrappers
  import opened Names
  import opened Commits
  import opened Chains
  import opened Manifests
  import opened Protocol
  import opened ProtocolInvariant
  import opened ProtocolSteps
  import opened ProtocolPublish
  import Fetch
  import Adoption

  // ----- Every reachable state is sound -----

  lemma InitIsSound(g: Dag, s: State)
    requires Init(g, s)
    ensures Inv(g, s)
  {
    hide RecordSound, Published, WellNamed, ListNamed, Repository.Valid;
    forall repo ensures LogSound(g, s, repo) && RecordSound(s, repo, RecordOf(s, repo)) && OwnerSound(s, repo) {
      InitLogIsSound(g, s, repo);
    }
  }

  lemma InitLogIsSound(g: Dag, s: State, repo: Repository)
    requires Init(g, s)
    ensures LogSound(g, s, repo)
  {
    hide RecordSound, Protocol.Sound, ManifestPointer, WellNamed, Repository.Valid, LogOf;
    assert LogOf(s, repo) != [] ==> Published(g, s, repo, LogOf(s, repo)[0]);
  }

  lemma WriterStepKeeps(g: Dag, s: State, step: Step)
    requires Inv(g, s) && Enabled(g, s, step) && !step.StartRead? && !step.ReadRecord? && !step.GetManifest?
    ensures Inv(g, Apply(g, s, step))
  {
    hide Inv, Continues, InspectionAccepts, Complete, Policy, ParseRange, IsAncestor, Repository.Valid, CurrentAdmits,
      Next, TakeCurrent, SurveyOne, Listing, Append, Publish, Unlock, PutState, DeletedState, Create, AcquireState,
      Newcomer;
    match step
    case Acquire(id, repo, branch, tip, chains, policy) =>
      NewcomerKeepsPush(s, repo, branch, tip, chains, policy);
      AcquireKeeps(g, s, id, Newcomer(s, repo, branch, tip, chains, policy));
    case ReadCurrent(id) => ReadCurrentKeeps(g, s, id);
    case ListManifests(id) => ListManifestsKeeps(g, s, id);
    case Survey(id, key) => SurveyKeeps(g, s, id, key);
    case Settle(id) => SettleKeeps(g, s, id);
    case Inspect(id) => InspectKeeps(g, s, id);
    case Upload(id, name, size, etag) => UploadKeeps(g, s, id, name, size, etag);
    case RecordRange(id, name) => RecordRangeKeeps(g, s, id, name);
    case PutManifest(id, uuid) => PutManifestKeeps(g, s, id, uuid);
    case CommitAcknowledged(id) => PublishKeeps(g, s, id, Committed);
    case CommitReplyLost(id) => PublishKeeps(g, s, id, Stopped);
    case CommitRefused(id) => StopKeeps(g, s, id);
    case DeleteOld(id) => DeleteOldKeeps(g, s, id);
    case Release(id) => ReleaseKeeps(g, s, id);
    case Crash(id) => StopKeeps(g, s, id);
  }

  lemma NewcomerKeepsPush(s: State, repo: Repository, branch: string, tip: Hash, chains: seq<seq<string>>,
    policy: seq<string>)
    ensures var w := Newcomer(s, repo, branch, tip, chains, policy);
      w.repo == repo && w.branch == branch && w.tip == tip && w.chains == chains && w.policy == policy
  {}

  lemma NewReaderIsSound(g: Dag, s: State, repo: Repository)
    requires Inv(g, s)
    ensures ReaderSound(s, Reader(repo, AtRecord, 1, false, "", "", |LogOf(s, repo)|, 0))
  {
    hide Inv, LogOf;
  }

  lemma ReaderStepKeeps(g: Dag, s: State, step: Step)
    requires Inv(g, s) && Enabled(g, s, step) && (step.StartRead? || step.ReadRecord? || step.GetManifest?)
    ensures Inv(g, Apply(g, s, step))
  {
    hide LogSound, WriterSound, RecordSound, OwnerSound, StoreSound, ReaderSound, ReadPointer, ReadBody, LogOf,
      RecordOf, Repository.Valid;
    match step
    case StartRead(reader, repo) =>
      NewReaderIsSound(g, s, repo);
      ReaderStep(g, s, reader, Reader(repo, AtRecord, 1, false, "", "", |LogOf(s, repo)|, 0));
    case ReadRecord(reader) =>
      ReadPointerIsSound(g, s, s.readers[reader]);
      ReaderStep(g, s, reader, ReadPointer(s, s.readers[reader]));
    case GetManifest(reader) =>
      ReadBodyIsSound(g, s, s.readers[reader]);
      ReaderStep(g, s, reader, ReadBody(s, s.readers[reader]));
  }

  lemma StepKeeps(g: Dag, s: State, step: Step)
    requires Inv(g, s) && Enabled(g, s, step)
    ensures Inv(g, Apply(g, s, step))
  {
    hide Inv, Enabled, Apply;
    if step.StartRead? || step.ReadRecord? || step.GetManifest? {
      ReaderStepKeeps(g, s, step);
    } else {
      WriterStepKeeps(g, s, step);
    }
  }

  lemma {:induction false} ReachableIsSound(g: Dag, states: seq<State>, steps: seq<Step>, i: nat)
    requires Run(g, states, steps) && i < |states|
    ensures Inv(g, states[i])
  {
    hide Inv, Enabled, Apply, Init;
    if i == 0 {
      InitIsSound(g, states[0]);
    } else {
      ReachableIsSound(g, states, steps, i - 1);
      StepKeeps(g, states[i - 1], steps[i - 1]);
    }
  }

  // ----- Nothing stored is lost -----

  // No step overwrites or deletes a bundle, rewrites a manifest, or takes back a publication: a delete names one key of
  // the one key space, and that key never holds a bundle.
  lemma StepIsLater(g: Dag, s: State, step: Step)
    requires Inv(g, s) && Enabled(g, s, step)
    ensures Later(s, Apply(g, s, step))
  {
    hide Inv, Later, Continues, InspectionAccepts, Complete, Policy, ParseRange, IsAncestor, Repository.Valid,
      CurrentAdmits, Next, TakeCurrent, SurveyOne, Listing, Append, NewManifest, ReadPointer, ReadBody,
      Repository.BundleKey, RecordOf, Publish, Create, Unlock, PutState, DeletedState, AcquireState, Newcomer, LogOf,
      Adoption.ManifestKey;
    match step
    case Acquire(id, repo, branch, tip, chains, policy) => AcquireIsLater(s, id,
      Newcomer(s, repo, branch, tip, chains, policy));
    case Upload(id, name, size, etag) =>
      var w := s.writers[id];
      CreateIsLater(s, w.repo.BundleKey(w.tip, name), StoredBundle(name, size, etag, w.tip, w.policy));
    case PutManifest(id, uuid) => PutIsLater(s, id, Adoption.ManifestKey(s.writers[id].repo, s.writers[id].tip, uuid));
    case CommitAcknowledged(id) => PublishShape(s, id, Committed);
    case CommitReplyLost(id) => PublishShape(s, id, Stopped);
    case DeleteOld(id) => DeleteIsLater(g, s, id);
    case Release(id) => UnlockIsLater(s, id);
    case _ => SameStoreIsLater(s, Apply(g, s, step));
  }

  lemma {:induction false} RunIsLater(g: Dag, states: seq<State>, steps: seq<Step>, i: nat, j: nat)
    requires Run(g, states, steps) && i <= j < |states|
    ensures Later(states[i], states[j])
    decreases j
  {
    hide Inv, Enabled, Apply, Init, LogOf;
    if i < j {
      RunIsLater(g, states, steps, i, j - 1);
      ReachableIsSound(g, states, steps, j - 1);
      StepIsLater(g, states[j - 1], steps[j - 1]);
    }
  }

  // In every reachable state no key holds, or ever held, both a bundle and a manifest. So what a landed writer of any
  // repository deletes is no bundle of any published manifest.
  lemma DeletesHitNoBundle(g: Dag, states: seq<State>, steps: seq<Step>, i: nat, id: nat, repo: Repository, k: nat,
    b: BundleRef)
    requires Run(g, states, steps) && i < |states| && id in states[i].writers && states[i].writers[id].prior != ""
    requires k < |LogOf(states[i], repo)|
    ensures var s := states[i]; s.bundles.Keys !! s.archive.Keys && LogOf(s, repo)[k] in s.archive
    ensures b in states[i].archive[LogOf(states[i], repo)[k]].manifest.bundles ==> b.key != states[i].writers[id].prior
  {
    hide Run, Inv, StoreSound, LogOf, Holds, Complete, Ancestral, ManifestPointer;
    ReachableIsSound(g, states, steps, i);
    var s := states[i];
    InvHasStore(g, s);
    forall key | key in s.archive ensures key !in s.bundles { ManifestIsNoBundle(g, s, key); }
    LoggedIsPublished(g, s, repo, k);
    PriorWasPublished(g, s, id);
    if b in s.archive[LogOf(s, repo)[k]].manifest.bundles {
      assert Holds(s, b);
      HeldIsStored(s, b);
    }
  }

  lemma HeldIsStored(s: State, b: BundleRef)
    requires Holds(s, b)
    ensures b.key in s.bundles
  {
    hide Enriches;
  }

  lemma LoggedIsPublished(g: Dag, s: State, repo: Repository, k: nat)
    requires Inv(g, s) && k < |LogOf(s, repo)|
    ensures Published(g, s, repo, LogOf(s, repo)[k])
  {
    hide StoreSound, ReaderSound, RecordSound, OwnerSound, WriterSound, LogOf, Published, Authored, Advances,
      Repository.Valid;
    assert LogSound(g, s, repo);
  }

  // The only manifest a step ever deletes has been superseded in its own repository.
  lemma OnlySupersededDies(g: Dag, s: State, step: Step, key: string) returns (repo: Repository, k: nat)
    requires Inv(g, s) && Enabled(g, s, step)
    requires key in s.live && key !in Apply(g, s, step).live
    ensures k + 1 < |LogOf(s, repo)| && LogOf(s, repo)[k] == key
  {
    hide LogOf, Continues, InspectionAccepts, Complete, Policy, ParseRange, IsAncestor, Repository.Valid,
      CurrentAdmits, Next, TakeCurrent, SurveyOne, Listing, Append, NewManifest, ReadPointer, ReadBody,
      Repository.BundleKey, RecordOf, Inv;
    assert step.DeleteOld?;
    CommittedHasLanded(g, s, step.id);
    repo := s.writers[step.id].repo;
    k := PriorIndex(g, s, step.id);
  }

  lemma PriorIndex(g: Dag, s: State, id: nat) returns (k: nat)
    requires Inv(g, s) && id in s.writers && s.writers[id].landed && s.writers[id].prior != ""
    ensures k + 1 < |LogOf(s, s.writers[id].repo)| && LogOf(s, s.writers[id].repo)[k] == s.writers[id].prior
  {
    hide StoreSound, LogSound, ReaderSound, RecordSound, OwnerSound, LogOf, RecordOf, Published, Building, Ready,
      OfferSound, Fenced;
    var w := s.writers[id];
    assert WriterSound(g, s, id, w);
    var i: nat :| LandedAt(LogOf(s, w.repo), w, i);
    k := i - 1;
  }

  // ----- Integrity -----

  // Every pointer a record names is a live, complete manifest of that repository whose bundles all exist as recorded.
  lemma PointersAreWhole(g: Dag, states: seq<State>, steps: seq<Step>, i: nat, repo: Repository)
    requires Run(g, states, steps) && i < |states|
    ensures var s := states[i]; var r := RecordOf(s, repo);
      r.pointer != "" ==>
        r.pointer in s.live && Published(g, s, repo, r.pointer) && s.archive[r.pointer].manifest.branch == r.branch
  {
    hide Run, WriterSound, ReaderSound, OwnerSound, StoreSound, Published, Authored, Advances, LogOf, RecordOf,
      Repository.Valid;
    ReachableIsSound(g, states, steps, i);
    assert LogSound(g, states[i], repo) && RecordSound(states[i], repo, RecordOf(states[i], repo));
  }

  // The object store as a fetch sees it.
  function View(s: State): map<string, Fetch.RemoteBundle> {
    map key | key in s.bundles :: Fetch.RemoteBundle(s.bundles[key].etag, s.bundles[key].size,
      RangeBase(s.bundles[key].range), RangeEnd(s.bundles[key].range))
  }

  lemma HeldIsServed(s: State, b: BundleRef)
    requires Holds(s, b)
    ensures Fetch.Serves(View(s), b)
  {
    hide RangeBase, RangeEnd;
  }

  // A sound manifest is served in full, each bundle at its own later state.
  lemma SoundIsServed(g: Dag, s: State, repo: Repository, m: Manifest, later: nat -> State,
    at: nat -> map<string, Fetch.RemoteBundle>)
    requires Protocol.Sound(g, s, repo, m)
    requires forall k: nat :: Later(s, later(k)) && at(k) == View(later(k))
    ensures Fetch.Published(g, at, m.bundles, m.tip)
  {
    hide Reach, Linked, Ancestral, ValidBundleKey, Identified, DistinctEnds, View, Fetch.Serves, RangeEnd, Enriches,
      LogOf;
    forall k: nat | k < |m.bundles| ensures Fetch.Serves(at(k), m.bundles[k]) {
      assert Holds(s, m.bundles[k]);
      HeldIsServed(later(k), m.bundles[k]);
    }
  }

  // Whatever was once published stays fetchable: its whole chain is served, at whatever later moments its bundles are
  // read.
  lemma PublishedStaysFetchable(g: Dag, states: seq<State>, steps: seq<Step>, i: nat, repo: Repository,
    index: nat -> nat, later: nat -> State, at: nat -> map<string, Fetch.RemoteBundle>)
    requires Run(g, states, steps) && i < |states| && RecordOf(states[i], repo).pointer != ""
    requires forall k: nat :: i <= index(k) < |states| && later(k) == states[index(k)] && at(k) == View(later(k))
    ensures var s, key := states[i], RecordOf(states[i], repo).pointer;
      key in s.archive && Fetch.Published(g, at, s.archive[key].manifest.bundles, s.archive[key].manifest.tip)
  {
    hide Run, ManifestPointer, View, Protocol.Sound, Fetch.Published, LogOf, RecordOf, Later;
    var key := RecordOf(states[i], repo).pointer;
    PointersAreWhole(g, states, steps, i, repo);
    forall k: nat ensures Later(states[i], later(k)) { RunIsLater(g, states, steps, i, index(k)); }
    SoundIsServed(g, states[i], repo, states[i].archive[key].manifest, later, at);
  }

  // ----- One linear history -----

  // A later record of the same repository: same branch, descending tip, the old list kept as a prefix.
  ghost predicate Succeeds(g: Dag, s: State, p: Record, t: State, q: Record) {
    && q.pointer != "" && q.branch == p.branch
    && p.pointer in s.archive && q.pointer in t.archive
    && Extends(g, ManifestOf(s, p.pointer), ManifestOf(t, q.pointer))
  }

  // The record of a repository only ever moves along one line.
  lemma HistoryIsLinear(g: Dag, states: seq<State>, steps: seq<Step>, i: nat, j: nat, repo: Repository)
    requires Run(g, states, steps) && i <= j < |states| && RecordOf(states[i], repo).pointer != ""
    ensures Succeeds(g, states[i], RecordOf(states[i], repo), states[j], RecordOf(states[j], repo))
  {
    hide Run, WriterSound, ReaderSound, OwnerSound, StoreSound, LogSound, Extends, LogOf, RecordOf;
    ReachableIsSound(g, states, steps, i);
    ReachableIsSound(g, states, steps, j);
    RunIsLater(g, states, steps, i, j);
    RecordsAreLinear(g, states[i], states[j], repo);
  }

  // Whoever releases gives up its own lease and nobody else's; what the record names stays.
  lemma ReleaseGivesUpOwnLease(g: Dag, s: State, id: nat, repo: Repository)
    requires Enabled(g, s, Release(id))
    ensures var t := Apply(g, s, Release(id));
      && RecordOf(t, s.writers[id].repo).owner != Some(id)
      && RecordOf(t, repo).pointer == RecordOf(s, repo).pointer && RecordOf(t, repo).branch == RecordOf(s, repo).branch
      && (RecordOf(s, repo).owner != Some(id) ==> RecordOf(t, repo).owner == RecordOf(s, repo).owner)
  {
    hide CurrentAdmits, Next, Continues, InspectionAccepts, Policy, ParseRange, RangeEnd, Repository.Valid, SurveyOne,
      Listing, TakeCurrent, Append, Create, AcquireState, Newcomer, DeletedState, LogOf, PutState, Publish;
  }

  // A push of the tip that is already published, in a modern list, publishes nothing: no run's history holds a tip
  // twice unless the first of the two was a legacy list.
  lemma UpToDatePublishesNothing(g: Dag, states: seq<State>, steps: seq<Step>, i: nat, repo: Repository, j: nat, k: nat)
    requires Run(g, states, steps) && i < |states| && j < k < |LogOf(states[i], repo)|
    ensures var s := states[i]; var log := LogOf(s, repo);
      && log[j] in s.archive && log[k] in s.archive
      && (ManifestOf(s, log[j]).tip == ManifestOf(s, log[k]).tip ==> ManifestOf(s, log[j]).legacy)
  {
    hide Run, Inv, LogOf, IsAncestor, LogSound;
    ReachableIsSound(g, states, steps, i);
    LogIsSound(g, states[i], repo);
    TipsNeverRepeat(g, states[i], repo, j, k);
  }

  lemma LogIsSound(g: Dag, s: State, repo: Repository)
    requires Inv(g, s)
    ensures LogSound(g, s, repo)
  {
    hide LogSound, StoreSound, WriterSound, ReaderSound, RecordSound, OwnerSound;
  }

  lemma RecordsAreLinear(g: Dag, s: State, t: State, repo: Repository)
    requires Inv(g, s) && Inv(g, t) && Later(s, t) && RecordOf(s, repo).pointer != ""
    ensures Succeeds(g, s, RecordOf(s, repo), t, RecordOf(t, repo))
  {
    hide WriterSound, ReaderSound, OwnerSound, StoreSound, LogSound, Extends, LogOf, RecordOf;
    assert RecordSound(s, repo, RecordOf(s, repo)) && RecordSound(t, repo, RecordOf(t, repo));
    assert LogOf(s, repo) <= LogOf(t, repo);
    var k := |LogOf(s, repo)| - 1;
    BranchIsConstant(g, t, repo, k);
    assert LogSound(g, t, repo);
    LogIsLinear(g, t, repo, k, |LogOf(t, repo)| - 1);
  }

  // Of two pushes that started from the same published state of a repository, at most one lands.
  lemma AtMostOneLands(g: Dag, states: seq<State>, steps: seq<Step>, i: nat, a: nat, b: nat)
    requires Run(g, states, steps) && i < |states| && a in states[i].writers && b in states[i].writers
    requires var v, w := states[i].writers[a], states[i].writers[b];
      v.landed && w.landed && v.repo == w.repo && v.prior == w.prior
    ensures a == b
  {
    hide Run, ReaderSound, OwnerSound, StoreSound, RecordSound, LogOf, RecordOf, Published, Authored, Advances,
      Building, Ready, Fenced, Repository.Valid;
    ReachableIsSound(g, states, steps, i);
    var s := states[i];
    var v, w := s.writers[a], s.writers[b];
    assert WriterSound(g, s, a, v) && WriterSound(g, s, b, w) && LogSound(g, s, v.repo);
    var m: nat :| LandedAt(LogOf(s, v.repo), v, m);
    var n: nat :| LandedAt(LogOf(s, w.repo), w, n);
  }

  // ----- What a reader sees -----

  predicate HasPointer(r: Reader) {
    r.stage == AtManifest || r.stage == Returned
  }

  lemma ShapesLeaveReaders(s: State, id: nat)
    ensures forall key, held :: Create(s, key, held).readers == s.readers
    ensures forall w :: AcquireState(s, id, w).readers == s.readers && SetWriter(s, id, w).readers == s.readers
    ensures id in s.writers ==> Unlock(s, id).readers == s.readers && DeletedState(s, id).readers == s.readers
    ensures id in s.writers ==> forall key :: PutState(s, id, key).readers == s.readers
    ensures id in s.writers ==> forall stage :: Publish(s, id, stage).readers == s.readers
  {
    hide RecordOf, LogOf, HoldsLease, Written;
  }

  lemma WritersLeaveReaders(g: Dag, s: State, step: Step)
    requires Enabled(g, s, step) && !step.StartRead? && !step.ReadRecord? && !step.GetManifest?
    ensures Apply(g, s, step).readers == s.readers
  {
    hide Continues, InspectionAccepts, Policy, ParseRange, Repository.Valid, CurrentAdmits, Next, TakeCurrent,
      SurveyOne, Listing, Append, HoldsLease, Newcomer, Create, AcquireState, PutState, Publish, DeletedState, Unlock,
      SetWriter, Adoption.ManifestKey, ChainTip;
    ShapesLeaveReaders(s, step.id);
  }

  // One step back from a reader holding a pointer: it held it already, or the record says it now.
  ghost predicate CameFrom(s: State, id: nat, r: Reader) {
    && (id in s.readers ==> s.readers[id].repo == r.repo && s.readers[id].started == r.started)
    && (id !in s.readers ==> r.started == |LogOf(s, r.repo)|)
    && (HasPointer(r) ==>
      || (id in s.readers && HasPointer(s.readers[id]) && s.readers[id].pointer == r.pointer
        && s.readers[id].branch == r.branch)
      || (RecordOf(s, r.repo).pointer == r.pointer && RecordOf(s, r.repo).branch == r.branch))
  }

  lemma ReaderBefore(g: Dag, s: State, step: Step, id: nat)
    requires Enabled(g, s, step) && id in Apply(g, s, step).readers
    ensures CameFrom(s, id, Apply(g, s, step).readers[id])
  {
    hide Continues, InspectionAccepts, Policy, ParseRange, Repository.Valid, CurrentAdmits, Next, TakeCurrent,
      SurveyOne, Listing, Append, RecordOf, LogOf, HoldsLease, Newcomer, Create, AcquireState, PutState, Publish,
      DeletedState, Unlock, Adoption.ManifestKey, ChainTip;
    if !step.StartRead? && !step.ReadRecord? && !step.GetManifest? { WritersLeaveReaders(g, s, step); }
  }

  // A successful read returns a pointer and branch that the record named at some instant of the read.
  lemma {:induction false} ReadWasCurrent(g: Dag, states: seq<State>, steps: seq<Step>, a: nat, j: nat, id: nat)
    returns (k: nat)
    requires Run(g, states, steps) && a <= j < |states|
    requires id !in states[a].readers && id in states[j].readers && HasPointer(states[j].readers[id])
    ensures a <= k <= j
    ensures var record, r := RecordOf(states[k], states[j].readers[id].repo), states[j].readers[id];
      record.pointer == r.pointer && record.branch == r.branch
    decreases j
  {
    hide Inv, Enabled, Apply, Init, RecordOf, LogOf;
    ReaderBefore(g, states[j - 1], steps[j - 1], id);
    var r := states[j].readers[id];
    if RecordOf(states[j - 1], r.repo).pointer == r.pointer && RecordOf(states[j - 1], r.repo).branch == r.branch {
      k := j - 1;
    } else {
      k := ReadWasCurrent(g, states, steps, a, j - 1, id);
    }
  }

  lemma {:induction false} StartedAfter(g: Dag, states: seq<State>, steps: seq<Step>, a: nat, j: nat, id: nat)
    requires Run(g, states, steps) && a <= j < |states| && id !in states[a].readers && id in states[j].readers
    ensures |LogOf(states[a], states[j].readers[id].repo)| <= states[j].readers[id].started
    decreases j
  {
    hide Enabled, Apply, Init, RecordOf, LogOf, HasPointer;
    ReaderBefore(g, states[j - 1], steps[j - 1], id);
    if id in states[j - 1].readers {
      StartedAfter(g, states, steps, a, j - 1, id);
    } else {
      RunIsLater(g, states, steps, a, j - 1);
      assert LogOf(states[a], states[j].readers[id].repo) <= LogOf(states[j - 1], states[j].readers[id].repo);
    }
  }

  // Giving up after three attempts means at least three publications landed during the read.
  lemma ExhaustionNeedsThreePublications(g: Dag, states: seq<State>, steps: seq<Step>, a: nat, j: nat, id: nat)
    requires Run(g, states, steps) && a <= j < |states| && id !in states[a].readers && id in states[j].readers
    requires states[j].readers[id].stage == Exhausted
    ensures var repo := states[j].readers[id].repo; |LogOf(states[j], repo)| >= |LogOf(states[a], repo)| + 3
    ensures states[j].readers[id].attempt <= 3
  {
    hide Run, LogOf, LogSound, WriterSound, RecordSound, OwnerSound, StoreSound;
    StartedAfter(g, states, steps, a, j, id);
    ReachableIsSound(g, states, steps, j);
    assert ReaderSound(states[j], states[j].readers[id]);
  }

  // Rediscovery never finds the pointer gone or the branch changed.
  lemma RediscoveryNeverFails(g: Dag, states: seq<State>, steps: seq<Step>, j: nat, id: nat)
    requires Run(g, states, steps) && j < |states| && id in states[j].readers
    ensures states[j].readers[id].stage != LostPointer && states[j].readers[id].stage != ChangedBranch
  {
    hide Run, LogOf, LogSound, WriterSound, RecordSound, OwnerSound, StoreSound;
    ReachableIsSound(g, states, steps, j);
    assert ReaderSound(states[j], states[j].readers[id]);
  }
}
