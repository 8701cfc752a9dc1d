/** Each protocol step, taken alone, keeps the invariant. */
module ProtocolSteps {
  import opened Wrappers
  import opened Names
  import opened Commits
  import opened Chains
  import opened Manifests
  import opened Protocol
  import opened ProtocolInvariant
  import Adoption

  // ----- Steps of one writer that publish nothing -----

  // One writer moved on: it never leaves its repository, and what it landed stays landed.
  predicate Follows(w: Writer, v: Writer) {
    && v.repo == w.repo && v.tip == w.tip && (w.landed ==> v.landed && v.newKey == w.newKey)
    && (Wrote(w) ==> Wrote(v) && v.newKey == w.newKey)
  }

  // A manifest has been written, and the list can no longer change.
  predicate Wrote(w: Writer) {
    !Early(w.stage)
  }

  // The record still names the same state; only its owner may have changed, to nobody or to this writer.
  predicate QuietRecord(s: State, t: State, id: nat, repo: Repository) {
    var r, q := RecordOf(s, repo), RecordOf(t, repo);
    && q.pointer == r.pointer && q.branch == r.branch
    && (q.owner == r.owner || q.owner == None || (q.owner == Some(id) && id in t.writers && t.writers[id].repo == repo))
  }

  // What is published, or about to be, stays live.
  ghost predicate KeepsLive(s: State, t: State, id: nat) {
    && (forall repo :: LogOf(s, repo) != [] ==> LogOf(s, repo)[|LogOf(s, repo)| - 1] in t.live)
    && (forall j | j in s.writers && j != id && s.writers[j].stage == Manifested :: s.writers[j].newKey in t.live)
  }

  ghost predicate Quiet(g: Dag, s: State, t: State, id: nat) {
    && Later(s, t) && StoreSound(g, t) && KeepsLive(s, t, id) && t.log == s.log && t.readers == s.readers
    && id in t.writers && t.writers == s.writers[id := t.writers[id]]
    && (id in s.writers ==> Follows(s.writers[id], t.writers[id]))
    && forall repo :: QuietRecord(s, t, id, repo)
  }

  lemma QuietKeepsLogs(g: Dag, s: State, t: State, id: nat, repo: Repository)
    requires Inv(g, s) && Quiet(g, s, t, id)
    ensures LogSound(g, t, repo) && RecordSound(t, repo, RecordOf(t, repo)) && OwnerSound(t, repo)
  {
    hide LogSound, StoreSound, WriterSound, ReaderSound, RecordSound, Published;
    assert LogSound(g, s, repo) && OwnerSound(s, repo) && QuietRecord(s, t, id, repo);
    LogFrame(g, s, t, repo);
    RecordFrame(g, s, t, id, repo);
  }

  lemma RecordFrame(g: Dag, s: State, t: State, id: nat, repo: Repository)
    requires Inv(g, s) && Later(s, t) && t.log == s.log && QuietRecord(s, t, id, repo)
    ensures RecordSound(t, repo, RecordOf(t, repo))
  {
    hide LogSound, StoreSound, WriterSound, ReaderSound;
    assert RecordSound(s, repo, RecordOf(s, repo));
  }

  lemma QuietKeepsWriter(g: Dag, s: State, t: State, id: nat, j: nat)
    requires Inv(g, s) && Quiet(g, s, t, id) && j in s.writers && j != id
    ensures j in t.writers && WriterSound(g, t, j, t.writers[j])
  {
    hide LogSound, StoreSound, WriterSound, ReaderSound, RecordSound, OwnerSound, Later;
    assert WriterSound(g, s, j, s.writers[j]);
    assert QuietRecord(s, t, id, s.writers[j].repo);
    WriterFrame(g, s, t, j, s.writers[j]);
  }

  lemma QuietStep(g: Dag, s: State, t: State, id: nat)
    requires Inv(g, s) && Quiet(g, s, t, id) && WriterSound(g, t, id, t.writers[id])
    ensures Inv(g, t)
  {
    hide LogSound, StoreSound, WriterSound, ReaderSound, RecordSound, OwnerSound, Later, QuietRecord, KeepsLive,
      RecordOf, LogOf;
    forall repo ensures LogSound(g, t, repo) && RecordSound(t, repo, RecordOf(t, repo)) && OwnerSound(t, repo) {
      QuietKeepsLogs(g, s, t, id, repo);
    }
    forall j | j in t.writers ensures WriterSound(g, t, j, t.writers[j]) {
      if j != id { QuietKeepsWriter(g, s, t, id, j); }
    }
    forall j | j in t.readers ensures ReaderSound(t, t.readers[j]) {
      ReaderFrame(s, t, s.readers[j]);
    }
  }

  lemma LiveWhileNothingDies(g: Dag, s: State, t: State, id: nat)
    requires Inv(g, s) && s.live <= t.live
    ensures KeepsLive(s, t, id)
  {
    hide StoreSound, ReaderSound, RecordSound, OwnerSound, Building, Fenced, Landed, Published, Protocol.Sound,
      Advances, LogOf;
    forall repo | LogOf(s, repo) != [] ensures LogOf(s, repo)[|LogOf(s, repo)| - 1] in t.live {
      assert LogSound(g, s, repo);
    }
    forall j | j in s.writers && j != id && s.writers[j].stage == Manifested ensures s.writers[j].newKey in t.live {
      assert WriterSound(g, s, j, s.writers[j]);
    }
  }

  lemma SameStoreIsLater(s: State, t: State)
    requires t.bundles == s.bundles && t.archive == s.archive && t.log == s.log
    ensures Later(s, t)
  {}

  // What modelled writers wrote stays theirs, and sound, while one of them moves.
  lemma AuthorsStay(g: Dag, s: State, t: State, id: nat)
    requires Inv(g, s) && Later(s, t) && t.archive == s.archive && id in s.writers && id in t.writers
    requires t.writers == s.writers[id := t.writers[id]] && Follows(s.writers[id], t.writers[id])
    ensures forall key | key in t.archive :: ListNamed(key) && AuthorSound(g, t, key)
  {
    hide LogSound, WriterSound, ReaderSound, RecordSound, OwnerSound, WellNamed, ListNamed, LogOf, RecordOf, Published,
      Later;
    forall key | key in t.archive ensures ListNamed(key) && AuthorSound(g, t, key) {
      assert ListNamed(key) && AuthorSound(g, s, key);
      if s.archive[key].writer.Some? { PublishedLater(g, s, t, s.writers[s.archive[key].writer.value].repo, key); }
    }
  }

  lemma ReadyIsLive(g: Dag, s: State, id: nat, v: Writer)
    requires WriterSound(g, s, id, v)
    ensures v.stage == Manifested ==> v.newKey in s.live
  {
    hide Building, Fenced, Landed, Published, LogOf;
  }

  // A writer alone moves: nothing shared changes.
  lemma LocalStep(g: Dag, s: State, id: nat, v: Writer)
    requires Inv(g, s) && id in s.writers && Follows(s.writers[id], v)
    requires WriterSound(g, s, id, v)
    ensures Inv(g, SetWriter(s, id, v))
  {
    hide LogSound, WriterSound, ReaderSound, RecordSound, OwnerSound, WellNamed, ListNamed, KeepsLive, AuthorSound,
      Follows, Later;
    var t := SetWriter(s, id, v);
    SameStoreIsLater(s, t);
    ReadyIsLive(g, s, id, v);
    WriterFrame(g, s, t, id, v);
    LiveWhileNothingDies(g, s, t, id);
    AuthorsStay(g, s, t, id);
    QuietStep(g, s, t, id);
  }

  lemma StoppedIsSound(g: Dag, s: State, id: nat, w: Writer)
    requires WriterSound(g, s, id, w)
    ensures WriterSound(g, s, id, w.(stage := Stopped))
  {
    hide Building, Ready, OfferSound, LogOf, RecordOf, Repository.Valid;
    OfferIgnoresProgress(g, s, w, w.(stage := Stopped));
    if w.landed {
      var i: nat :| LandedAt(LogOf(s, w.repo), w, i);
      assert LandedAt(LogOf(s, w.repo), w.(stage := Stopped), i);
    }
  }

  lemma WriterIs(g: Dag, s: State, id: nat)
    requires Inv(g, s) && id in s.writers
    ensures WriterSound(g, s, id, s.writers[id])
  {
    hide LogSound, StoreSound, ReaderSound, RecordSound, OwnerSound, WriterSound;
  }

  lemma StopKeeps(g: Dag, s: State, id: nat)
    requires Inv(g, s) && id in s.writers
    ensures Inv(g, SetWriter(s, id, s.writers[id].(stage := Stopped)))
  {
    hide Inv, WriterSound, LogOf, RecordOf;
    WriterIs(g, s, id);
    StoppedIsSound(g, s, id, s.writers[id]);
    LocalStep(g, s, id, s.writers[id].(stage := Stopped));
  }

  // ----- Building the list -----

  // The offer speaks of the repository, the tip and the store only.
  lemma OfferIgnoresProgress(g: Dag, s: State, w: Writer, v: Writer)
    requires OfferSound(g, s, w) && v.repo == w.repo && v.tip == w.tip && v.offer == w.offer
    ensures OfferSound(g, s, v)
  {
    hide Push.GoodChain, IsAncestor, Holds;
  }

  lemma EnrichesSelf(b: BundleRef)
    ensures Enriches(b, b)
  {}

  // The list read from the current manifest keeps it exactly.
  lemma TakenIsBuilding(g: Dag, s: State, w: Writer)
    requires w.bundles == [] && w.pending == [] && w.prior != "" && Published(g, s, w.repo, w.prior)
    requires ManifestOf(s, w.prior).branch == w.branch && IsAncestor(g, ManifestOf(s, w.prior).tip, w.tip)
    requires BringsNews(ManifestOf(s, w.prior), w.tip)
    ensures Building(g, s, TakeCurrent(s, w))
  {
    hide Reach, IsAncestor, ValidBundleKey, Identified, Enriches, Linked, ParseRange, RangeBase, RangeEnd, Header,
      DistinctEnds, ManifestPointer, Grounded, Holds;
    var v := TakeCurrent(s, w);
    var m := ManifestOf(s, w.prior);
    assert v.bundles + v.pending == m.bundles;
    forall i | 0 <= i < |m.bundles| ensures Enriches(m.bundles[i], m.bundles[i]) { EnrichesSelf(m.bundles[i]); }
    if !m.legacy { CompleteEnd(m, w.repo); } else { NoneIsLinked(g); }
  }

  lemma NoneIsLinked(g: Dag)
    ensures Linked([], Zeros(g.width), Zeros(g.width))
  {}

  lemma CompleteEnd(m: Manifest, repo: Repository)
    requires Complete(m, repo)
    ensures RangeEnd(m.bundles[|m.bundles| - 1].range) == m.tip
  {
    hide ParseRange, RangeBase, RangeEnd, ValidBundleKey, Header, Identified, DistinctEnds;
  }

  // What is known of a writer that has not written its manifest yet.
  lemma EarlyFacts(g: Dag, s: State, id: nat)
    requires Inv(g, s) && id in s.writers && Early(s.writers[id].stage)
    ensures var w := s.writers[id];
      && !w.landed && OfferSound(g, s, w)
      && (w.stage == Working ==> Building(g, s, w))
      && (w.stage != Working ==> w.bundles == [] && w.pending == [])
      && (w.stage == Discovering || w.stage == Surveying ==> w.prior == "")
      && (w.stage == Locked || w.stage == Discovering ==> w.offer == [])
  {
    hide LogSound, StoreSound, ReaderSound, RecordSound, OwnerSound, Building, OfferSound, LogOf, RecordOf, Landed;
    assert WriterSound(g, s, id, s.writers[id]);
  }

  lemma PriorIsPublished(g: Dag, s: State, id: nat)
    requires Inv(g, s) && id in s.writers && s.writers[id].prior != ""
    ensures Published(g, s, s.writers[id].repo, s.writers[id].prior)
  {
    hide StoreSound, ReaderSound, RecordSound, OwnerSound, LogOf, RecordOf, Building, Ready, Fenced, Landed, Advances,
      Published, OfferSound;
    var w := s.writers[id];
    assert WriterSound(g, s, id, w);
    assert LogSound(g, s, w.repo);
    var i :| 0 <= i < |LogOf(s, w.repo)| && LogOf(s, w.repo)[i] == w.prior;
    assert Published(g, s, w.repo, LogOf(s, w.repo)[i]);
  }

  // What an early writer's next state must have.
  ghost predicate Moves(g: Dag, s: State, w: Writer, v: Writer) {
    && v == w.(stage := v.stage, unread := v.unread, offer := v.offer, bundles := v.bundles, pending := v.pending)
    && v.stage != Locked && v.stage != Manifested && v.stage != Committed && OfferSound(g, s, v)
    && (v.stage == Working ==> Building(g, s, v))
    && (v.stage == Discovering || v.stage == Surveying ==> v.prior == "" && v.bundles == [] && v.pending == [])
    && (v.stage == Discovering ==> v.offer == [])
  }

  lemma EarlyMove(g: Dag, s: State, id: nat, v: Writer)
    requires Inv(g, s) && id in s.writers && Early(s.writers[id].stage) && Moves(g, s, s.writers[id], v)
    ensures Inv(g, SetWriter(s, id, v))
  {
    hide LogSound, StoreSound, ReaderSound, RecordSound, OwnerSound, Building, OfferSound, Ready, LogOf, RecordOf,
      Landed, Repository.Valid;
    assert WriterSound(g, s, id, s.writers[id]);
    MovedIsSound(g, s, id, s.writers[id], v);
    LocalStep(g, s, id, v);
  }

  lemma MovedIsSound(g: Dag, s: State, id: nat, w: Writer, v: Writer)
    requires WriterSound(g, s, id, w) && Early(w.stage) && Moves(g, s, w, v)
    ensures WriterSound(g, s, id, v)
  {
    hide Building, OfferSound, Ready, LogOf, RecordOf, Landed, Repository.Valid;
  }

  lemma ReadCurrentKeeps(g: Dag, s: State, id: nat)
    requires Inv(g, s) && Enabled(g, s, ReadCurrent(id))
    ensures Inv(g, Apply(g, s, ReadCurrent(id)))
  {
    hide Inv, IsAncestor, Building, OfferSound, Published;
    var w := s.writers[id];
    var v := TakeCurrent(s, w);
    EarlyFacts(g, s, id);
    OfferIgnoresProgress(g, s, w, v);
    if w.prior != "" {
      PriorIsPublished(g, s, id);
      TakenIsBuilding(g, s, w);
    }
    EarlyMove(g, s, id, v);
  }

  lemma ListManifestsKeeps(g: Dag, s: State, id: nat)
    requires Inv(g, s) && Enabled(g, s, ListManifests(id))
    ensures Inv(g, Apply(g, s, ListManifests(id)))
  {
    hide Inv, Building, OfferSound, Listing;
    var w := s.writers[id];
    var v := w.(stage := Surveying, unread := Listing(s, w.repo));
    EarlyFacts(g, s, id);
    OfferIgnoresProgress(g, s, w, v);
    EarlyMove(g, s, id, v);
  }

  lemma InspectorIsFaithful(g: Dag, bundles: map<string, StoredBundle>, w: Writer)
    ensures Adoption.Faithful(ContextOf(g, bundles, w))
  {
    hide Identified, Enriches;
    var x := ContextOf(g, bundles, w);
    forall ref | x.inspect(ref).Some?
      ensures var seen := x.inspect(ref).value; seen.range == ref.range && seen.key == ref.key && Identified(seen)
    {
      assert Inspector(bundles)(ref) == x.inspect(ref);
    }
  }

  // What one readable manifest offers is a stored chain of the destination into the pushed history.
  lemma OfferedIsSound(g: Dag, s: State, w: Writer, key: string, m: Manifest)
    requires StoreSound(g, s) && w.repo.Valid() && w.tip in g.parents && ReadOf(s, w.repo, key) == Adoption.Readable(m)
    requires |m.tip| == |w.tip| && var x := ContextOf(g, s.bundles, w);
      !Adoption.ChainBroken(x, m.bundles) && w.offer == Adoption.OfferOf(x, m.bundles)
    ensures OfferSound(g, s, w)
  {
    hide Reach, IsAncestor, ParseRange, RangeEnd, RangeBase, Linked, ValidBundleKey, Identified, Header, DistinctEnds,
      WellNamed, ListNamed, AuthorSound, Holds, Push.GoodChain, Adoption.ManifestRepository, Adoption.ContainedEnd,
      Adoption.ChainBroken, Inspector, Adoption.Sound, Adoption.OfferOf, Adoption.Faithful, Adoption.LinkAccepted,
      Adoption.Usable;
    var x := ContextOf(g, s.bundles, w);
    var source := Adoption.ManifestRepository(w.repo, key).value.0;
    InspectorIsFaithful(g, s.bundles, w);
    Adoption.ContainedEndIsContained(x, m.bundles);
    Adoption.OfferIsSound(x, m.bundles);
    if w.offer != [] {
      Adoption.SourceIsSibling(w.repo, key);
      Adoption.OfferIsGoodChain(x, source, m, w.offer);
      forall b | b in w.offer ensures Holds(s, b) { OfferedIsHeld(g, s, w, source, m, b); }
    }
  }

  // Every offered descriptor is the inspected one of a stored object.
  lemma OfferedIsHeld(g: Dag, s: State, w: Writer, source: Repository, m: Manifest, b: BundleRef)
    requires StoreSound(g, s) && Complete(m, source) && b in w.offer
    requires Adoption.Sound(ContextOf(g, s.bundles, w), m.bundles, w.offer)
    ensures Holds(s, b)
  {
    hide Reach, IsAncestor, ParseRange, RangeEnd, RangeBase, ValidBundleKey, Header, DistinctEnds, WellNamed, ListNamed,
      AuthorSound, Grounded, InspectionAccepts, Inspected, Identified;
    var i :| 0 <= i < |w.offer| && w.offer[i] == b;
    var x := ContextOf(g, s.bundles, w);
    var ref := m.bundles[i];
    assert Adoption.Usable(x, ref) && b == x.inspect(ref).value;
    assert x.inspect(ref) == Inspector(s.bundles)(ref);
    assert ref in m.bundles;
    LinkedAt(m.bundles, Zeros(|m.tip|), m.tip, i);
    InspectedIsHeld(s, source, ref);
  }

  lemma SurveyIsSound(g: Dag, s: State, id: nat, key: string)
    requires Inv(g, s) && At(s, id, Surveying)
    ensures OfferSound(g, s, SurveyOne(g, s, s.writers[id], key))
  {
    hide Inv, StoreSound, Building, OfferSound, ReadOf, ContextOf, Adoption.ChainBroken, Adoption.OfferOf,
      Adoption.Remaining, Adoption.Diverged;
    var w := s.writers[id];
    var v := SurveyOne(g, s, w, key);
    EarlyFacts(g, s, id);
    RepositoryIsValid(g, s, id);
    TipIsCommit(g, s, id);
    assert StoreSound(g, s) by { InvHasStore(g, s); }
    if v.offer == w.offer {
      OfferIgnoresProgress(g, s, w, v);
    } else {
      var x := ContextOf(g, s.bundles, w);
      assert x.tip == w.tip by { ContextTip(g, s.bundles, w); }
      SameContext(g, s.bundles, w, v);
      OfferedIsSound(g, s, v, key, ReadOf(s, w.repo, key).m);
    }
  }

  lemma InvHasStore(g: Dag, s: State)
    requires Inv(g, s)
    ensures StoreSound(g, s)
  {
    hide LogSound, StoreSound, ReaderSound, RecordSound, OwnerSound, WriterSound;
  }

  lemma ContextTip(g: Dag, bundles: map<string, StoredBundle>, w: Writer)
    ensures ContextOf(g, bundles, w).tip == w.tip
  {}

  lemma SameContext(g: Dag, bundles: map<string, StoredBundle>, w: Writer, v: Writer)
    requires v.repo == w.repo && v.branch == w.branch && v.tip == w.tip && v.chains == w.chains
    ensures ContextOf(g, bundles, v) == ContextOf(g, bundles, w)
  {}

  lemma SurveyKeeps(g: Dag, s: State, id: nat, key: string)
    requires Inv(g, s) && Enabled(g, s, Survey(id, key))
    ensures Inv(g, Apply(g, s, Survey(id, key)))
  {
    hide Inv, Building, OfferSound, ReadOf, ContextOf, Adoption.Consider, Next;
    EarlyFacts(g, s, id);
    SurveyIsSound(g, s, id, key);
    EarlyMove(g, s, id, SurveyOne(g, s, s.writers[id], key));
  }

  // A finished survey's offer is where the list starts.
  lemma SettledIsBuilding(g: Dag, s: State, w: Writer)
    requires OfferSound(g, s, w) && w.pending == [] && w.prior == "" && w.bundles == w.offer
    ensures Building(g, s, w)
  {
    hide Reach, IsAncestor, ParseRange, RangeEnd, RangeBase, ValidBundleKey, Identified, Holds, Stored;
  }

  lemma SettleKeeps(g: Dag, s: State, id: nat)
    requires Inv(g, s) && Enabled(g, s, Settle(id))
    ensures Inv(g, Apply(g, s, Settle(id)))
  {
    hide Inv, Building, OfferSound;
    var w := s.writers[id];
    var v := w.(stage := Working, bundles := w.offer);
    EarlyFacts(g, s, id);
    OfferIgnoresProgress(g, s, w, v);
    SettledIsBuilding(g, s, v);
    EarlyMove(g, s, id, v);
  }

  // ----- Growing the list -----

  lemma EnrichesTransitive(a: BundleRef, b: BundleRef, c: BundleRef)
    requires Enriches(a, b) && Enriches(b, c)
    ensures Enriches(a, c)
  {}

  // An object's key fixes its range, so an accepted inspection is of the object the descriptor means.
  lemma KeyFixesRange(repo: Repository, ref: BundleRef, held: StoredBundle)
    requires WellNamed(ref.key, held) && ParseRange(ref.range).Some? && ValidBundleKey(repo, ref)
    ensures held.range == ref.range
  {
    hide ParseRange, ValidBundleKey, Repository.Valid;
    var owner: Repository :| AcceptsAt(owner, ref.key, held);
    var there := BundleRef(held.range, ref.key, 0, "", []);
    var stem := KeyEndsWithRange(repo, ref);
    var other := KeyEndsWithRange(owner, there);
    RangeNameRoundTrip(ref.range);
    RangeNameRoundTrip(held.range);
    LastSlashUnique(stem, ref.range, other, held.range);
  }

  lemma InspectedIsHeld(s: State, repo: Repository, ref: BundleRef)
    requires ref.key in s.bundles && WellNamed(ref.key, s.bundles[ref.key])
    requires ParseRange(ref.range).Some? && ValidBundleKey(repo, ref) && InspectionAccepts(s.bundles, ref)
    ensures Holds(s, Inspected(ref, s.bundles[ref.key])) && Stored(repo, Inspected(ref, s.bundles[ref.key]))
    ensures Enriches(ref, Inspected(ref, s.bundles[ref.key]))
  {
    hide ParseRange, Policy, ValidBundleKey, WellNamed;
    KeyFixesRange(repo, ref, s.bundles[ref.key]);
    Adoption.SameKey(repo, ref, Inspected(ref, s.bundles[ref.key]));
  }

  lemma LinkedGrows(g: Dag, bundles: seq<BundleRef>, b: BundleRef, start: Hash, end: Hash)
    requires Linked(bundles, start, end) && ParseRange(b.range).Some? && RangeBase(b.range) == end
    ensures Linked(bundles + [b], start, RangeEnd(b.range))
  {
    hide ParseRange, RangeBase, RangeEnd;
    assert (bundles + [b])[..|bundles|] == bundles;
  }

  lemma AncestralGrows(g: Dag, bundles: seq<BundleRef>, b: BundleRef)
    requires Ancestral(g, bundles) && Grounded(g, b.range)
    ensures Ancestral(g, bundles + [b])
  {
    hide Grounded;
  }

  // What was kept stays kept when the pending head is replaced by what was found.
  lemma RefinesGrows(before: seq<BundleRef>, bundles: seq<BundleRef>, pending: seq<BundleRef>, b: BundleRef)
    requires Refines(before, bundles + pending) && (pending == [] || Enriches(pending[0], b))
    ensures Refines(before, bundles + [b] + if pending == [] then [] else pending[1..])
  {
    hide Enriches;
    var now, grown := bundles + pending, bundles + [b] + if pending == [] then [] else pending[1..];
    forall i | 0 <= i < |before| ensures Enriches(before[i], grown[i]) {
      assert Enriches(before[i], now[i]);
      if i == |bundles| {
        EnrichesTransitive(before[i], pending[0], b);
      } else {
        assert grown[i] == now[i];
      }
    }
  }

  lemma AppendBuilds(g: Dag, s: State, w: Writer, ref: BundleRef)
    requires Building(g, s, w) && ref.key in s.bundles && WellNamed(ref.key, s.bundles[ref.key])
    requires ValidBundleKey(w.repo, ref) && InspectionAccepts(s.bundles, ref) && Continues(g, w, ref.range)
    requires w.pending == [] || w.pending[0] == ref
    ensures Building(g, s, Append(s, w, ref))
  {
    hide Reach, IsAncestor, ParseRange, RangeBase, RangeEnd, ValidBundleKey, InspectionAccepts, WellNamed, Linked,
      Enriches, Stored, Holds, Refines, Zeros, Ancestral;
    var v := Append(s, w, ref);
    var b := Inspected(ref, s.bundles[ref.key]);
    InspectedIsHeld(s, w.repo, ref);
    LinkedGrows(g, w.bundles, b, Zeros(g.width), ChainTip(g, w.bundles));
    AncestralGrows(g, w.bundles, b);
    assert v.bundles[|w.bundles|] == b;
    if w.prior != "" { RefinesGrows(ManifestOf(s, w.prior).bundles, w.bundles, w.pending, b); }
  }

  lemma StoredIsWellNamed(g: Dag, s: State, key: string)
    requires StoreSound(g, s) && key in s.bundles
    ensures WellNamed(key, s.bundles[key])
  {
    hide WellNamed, ListNamed, AuthorSound;
  }

  // A descriptor the list may grow by.
  ghost predicate CanAppend(g: Dag, s: State, w: Writer, ref: BundleRef) {
    && ref.key in s.bundles && ValidBundleKey(w.repo, ref) && InspectionAccepts(s.bundles, ref)
      && Continues(g, w, ref.range)
    && (w.pending == [] || w.pending[0] == ref)
  }

  // Appending to a sound working list leaves a sound writer.
  lemma AppendKeeps(g: Dag, s: State, id: nat, ref: BundleRef)
    requires Inv(g, s) && At(s, id, Working) && CanAppend(g, s, s.writers[id], ref)
    ensures Inv(g, SetWriter(s, id, Append(s, s.writers[id], ref)))
  {
    hide Inv, StoreSound, ValidBundleKey, InspectionAccepts, Continues, Building, OfferSound, WellNamed;
    var w := s.writers[id];
    EarlyFacts(g, s, id);
    OfferIgnoresProgress(g, s, w, Append(s, w, ref));
    assert WellNamed(ref.key, s.bundles[ref.key]) by { InvHasStore(g, s); StoredIsWellNamed(g, s, ref.key); }
    AppendBuilds(g, s, w, ref);
    EarlyMove(g, s, id, Append(s, w, ref));
  }

  lemma InspectKeeps(g: Dag, s: State, id: nat)
    requires Inv(g, s) && Enabled(g, s, Inspect(id))
    ensures Inv(g, Apply(g, s, Inspect(id)))
  {
    hide Inv, ValidBundleKey, InspectionAccepts, Continues, OfferSound;
    EarlyFacts(g, s, id);
    PendingIsValid(g, s, s.writers[id]);
    AppendKeeps(g, s, id, s.writers[id].pending[0]);
  }

  lemma PendingIsValid(g: Dag, s: State, w: Writer)
    requires Building(g, s, w) && w.pending != []
    ensures ValidBundleKey(w.repo, w.pending[0])
  {
    hide ValidBundleKey, Linked, Ancestral, Stored, Holds, Refines;
    assert w.pending[0] in w.pending;
  }

  lemma OwnRefIsValid(g: Dag, w: Writer, name: string)
    requires w.tip in g.parents && Continues(g, w, name)
    ensures ValidBundleKey(w.repo, OwnRef(w, name))
  {
    hide Reach, ValidBundleKey, ParseRange;
    BundleKeyIsValid(w.repo, w.tip, OwnRef(w, name));
  }

  lemma TipIsCommit(g: Dag, s: State, id: nat)
    requires Inv(g, s) && id in s.writers
    ensures s.writers[id].tip in g.parents
  {
    hide LogSound, StoreSound, ReaderSound, RecordSound, OwnerSound, LogOf, RecordOf, Building, Landed;
    assert WriterSound(g, s, id, s.writers[id]);
  }

  lemma RecordRangeKeeps(g: Dag, s: State, id: nat, name: string)
    requires Inv(g, s) && Enabled(g, s, RecordRange(id, name))
    ensures Inv(g, Apply(g, s, RecordRange(id, name)))
  {
    hide Inv, ValidBundleKey, InspectionAccepts, Continues;
    var w := s.writers[id];
    TipIsCommit(g, s, id);
    OwnRefIsValid(g, w, name);
    AppendKeeps(g, s, id, OwnRef(w, name));
  }

  // ----- Steps that touch the store or the record -----

  lemma CreatedIsWellNamed(g: Dag, repo: Repository, tip: Hash, name: string, held: StoredBundle)
    requires repo.Valid() && tip in g.parents && ParseRange(name).Some? && RangeEnd(name) in g.parents
      && held.range == name
    ensures WellNamed(repo.BundleKey(tip, name), held)
  {
    hide Reach, ParseRange, RangeEnd, ValidBundleKey, Repository.BundleKey;
    BundleKeyIsValid(repo, tip, BundleRef(name, repo.BundleKey(tip, name), 0, "", []));
    assert AcceptsAt(repo, repo.BundleKey(tip, name), held);
  }

  // Where some repository reads a manifest no bundle lies.
  lemma PointerIsNoBundle(g: Dag, s: State, reader: Repository, key: string)
    requires StoreSound(g, s) && reader.Valid() && ManifestPointer(reader, key)
    ensures key !in s.bundles
  {
    hide AuthorSound, ListNamed, ParseRange, ValidBundleKey, ManifestPointer, Repository.Valid;
    if key in s.bundles {
      var held := s.bundles[key];
      assert WellNamed(key, held);
      var owner: Repository :| AcceptsAt(owner, key, held);
      PointerIsNeverABundle(reader, key, owner, BundleRef(held.range, key, 0, "", []));
    }
  }

  // The two kinds of object never meet in their one key space.
  lemma ManifestIsNoBundle(g: Dag, s: State, key: string)
    requires StoreSound(g, s) && key in s.archive
    ensures key !in s.bundles
  {
    hide AuthorSound, WellNamed, ManifestPointer, Repository.Valid;
    assert ListNamed(key);
    var reader: Repository :| ReadsAt(reader, key);
    PointerIsNoBundle(g, s, reader, key);
  }

  // No manifest lies where a push stores a range.
  lemma BundleKeyIsFree(g: Dag, s: State, repo: Repository, tip: Hash, name: string)
    requires StoreSound(g, s) && repo.Valid() && tip in g.parents && ParseRange(name).Some?
      && RangeEnd(name) in g.parents
    ensures repo.BundleKey(tip, name) !in s.live
  {
    hide AuthorSound, WellNamed, ParseRange, RangeEnd, ValidBundleKey, Repository.BundleKey, Repository.Valid,
      ManifestPointer, IsObjectId;
    var ref := BundleRef(name, repo.BundleKey(tip, name), 0, "", []);
    TipIsObjectId(g, tip);
    TipIsObjectId(g, RangeEnd(name));
    BundleKeyIsValid(repo, tip, ref);
    if ref.key in s.live {
      assert ListNamed(ref.key);
      var reader: Repository :| ReadsAt(reader, ref.key);
      PointerIsNeverABundle(reader, ref.key, repo, ref);
    }
  }

  lemma CreateIsLater(s: State, key: string, held: StoredBundle)
    ensures Later(s, Create(s, key, held))
    ensures forall repo :: RecordOf(Create(s, key, held), repo) == RecordOf(s, repo)
  {}

  lemma CreateStoreIsSound(g: Dag, s: State, id: nat, key: string, held: StoredBundle)
    requires Inv(g, s) && id in s.writers && WellNamed(key, held)
    ensures StoreSound(g, Create(s, key, held))
  {
    hide LogSound, ReaderSound, RecordSound, OwnerSound, WellNamed, WriterSound, AuthorSound, ListNamed, Later;
    CreateIsLater(s, key, held);
    AuthorsStay(g, s, Create(s, key, held), id);
  }

  lemma CreateIsQuiet(g: Dag, s: State, id: nat, key: string, held: StoredBundle)
    requires Inv(g, s) && id in s.writers && WellNamed(key, held)
    ensures Quiet(g, s, Create(s, key, held), id)
  {
    hide Inv, StoreSound, KeepsLive, LogOf, RecordOf, Later;
    var t := Create(s, key, held);
    CreateIsLater(s, key, held);
    LiveWhileNothingDies(g, s, t, id);
    CreateStoreIsSound(g, s, id, key, held);
  }

  // A conditional create changes no existing object, and no writer.
  lemma CreateKeeps(g: Dag, s: State, id: nat, key: string, held: StoredBundle)
    requires Inv(g, s) && id in s.writers && WellNamed(key, held)
    ensures Inv(g, Create(s, key, held))
  {
    hide LogSound, StoreSound, ReaderSound, RecordSound, OwnerSound, WellNamed, WriterSound, LogOf, RecordOf, Later,
      Quiet;
    var t := Create(s, key, held);
    CreateIsLater(s, key, held);
    CreateIsQuiet(g, s, id, key, held);
    assert WriterSound(g, s, id, s.writers[id]);
    ReadyIsLive(g, s, id, s.writers[id]);
    WriterFrame(g, s, t, id, s.writers[id]);
    QuietStep(g, s, t, id);
  }

  lemma RepositoryIsValid(g: Dag, s: State, id: nat)
    requires Inv(g, s) && id in s.writers
    ensures s.writers[id].repo.Valid() && s.writers[id].branch != ""
  {
    hide LogSound, StoreSound, ReaderSound, RecordSound, OwnerSound, LogOf, RecordOf, Building, Landed, OfferSound;
    assert WriterSound(g, s, id, s.writers[id]);
  }

  lemma UploadKeeps(g: Dag, s: State, id: nat, name: string, size: int, etag: string)
    requires Inv(g, s) && Enabled(g, s, Upload(id, name, size, etag))
    ensures Inv(g, Apply(g, s, Upload(id, name, size, etag)))
  {
    hide Inv, WellNamed, Policy, ParseRange, RangeEnd;
    var w := s.writers[id];
    TipIsCommit(g, s, id);
    RepositoryIsValid(g, s, id);
    var held := StoredBundle(name, size, etag, w.tip, w.policy);
    CreatedIsWellNamed(g, w.repo, w.tip, name, held);
    CreateKeeps(g, s, id, w.repo.BundleKey(w.tip, name), held);
  }

  // The list a push assembled always makes a complete manifest.
  lemma AssembledIsComplete(g: Dag, s: State, w: Writer)
    requires Building(g, s, w) && w.bundles != [] && ChainTip(g, w.bundles) == w.tip && w.tip in g.parents
      && w.branch != ""
    ensures Protocol.Sound(g, s, w.repo, NewManifest(w.repo, w.branch, w.tip, w.bundles))
  {
    hide Reach, Holds, Stored, Linked, RangeEnd, Ancestral, Complete, IsObjectId, Refines, ValidBundleKey;
    AncestralChainIsComplete(g, NewManifest(w.repo, w.branch, w.tip, w.bundles), w.repo);
  }

  // What a writer about to put its manifest has.
  ghost predicate Assembled(g: Dag, w: Writer, key: string) {
    && w.stage == Working && w.pending == [] && w.bundles != [] && ChainTip(g, w.bundles) == w.tip
    && key != "" && ModernPointer(w.repo, key) && KeyOf(w, key)
  }

  lemma WrittenIsReady(g: Dag, s: State, t: State, id: nat, w: Writer, v: Writer)
    requires Building(g, s, w) && Assembled(g, w, v.newKey) && w.tip in g.parents && w.branch != ""
    requires v == w.(stage := Manifested, newKey := v.newKey)
    requires t.bundles == s.bundles && Later(s, t) && v.newKey in t.live
    requires v.newKey in t.archive && t.archive[v.newKey] == Written(w, id)
    ensures Building(g, t, v) && Ready(g, t, id, v)
  {
    hide Reach, Stored, Linked, Ancestral, Complete, Refines, ValidBundleKey, ModernPointer, LegacyPointer, ChainTip,
      Enriches;
    AssembledIsComplete(g, s, w);
    BuildingLater(g, s, t, w);
  }

  lemma PutIsLater(s: State, id: nat, key: string)
    requires id in s.writers && key !in s.archive
    ensures Later(s, PutState(s, id, key))
    ensures forall repo :: RecordOf(PutState(s, id, key), repo) == RecordOf(s, repo)
    ensures forall repo :: LogOf(PutState(s, id, key), repo) == LogOf(s, repo)
  {}

  lemma WorkingHasNotLanded(g: Dag, s: State, id: nat)
    requires Inv(g, s) && At(s, id, Working)
    ensures !s.writers[id].landed && Building(g, s, s.writers[id]) && OfferSound(g, s, s.writers[id])
  {
    hide LogSound, StoreSound, ReaderSound, RecordSound, OwnerSound, LogOf, RecordOf, Building, OfferSound, Landed;
    assert WriterSound(g, s, id, s.writers[id]);
  }

  // The new manifest is ready, and no other manifest was this writer's.
  lemma PutIsReady(g: Dag, s: State, id: nat, key: string)
    requires Inv(g, s) && At(s, id, Working) && key !in s.archive && Assembled(g, s.writers[id], key)
    ensures var t := PutState(s, id, key);
      Building(g, t, t.writers[id]) && Ready(g, t, id, t.writers[id]) && OfferSound(g, t, t.writers[id])
  {
    hide Inv, Assembled, Building, OfferSound, Later, NewManifest, Ready;
    var t := PutState(s, id, key);
    PutIsLater(s, id, key);
    TipIsCommit(g, s, id);
    RepositoryIsValid(g, s, id);
    WorkingHasNotLanded(g, s, id);
    WrittenIsReady(g, s, t, id, s.writers[id], t.writers[id]);
    OfferLater(g, s, t, s.writers[id]);
    OfferIgnoresProgress(g, t, s.writers[id], t.writers[id]);
  }

  lemma PutStoreIsSound(g: Dag, s: State, id: nat, key: string)
    requires Inv(g, s) && At(s, id, Working) && key !in s.archive && Assembled(g, s.writers[id], key)
    ensures StoreSound(g, PutState(s, id, key))
  {
    hide LogSound, ReaderSound, RecordSound, OwnerSound, WellNamed, WriterSound, Building, Published, NewManifest,
      Later, Assembled, ListNamed;
    var t := PutState(s, id, key);
    PutIsLater(s, id, key);
    PutIsReady(g, s, id, key);
    RepositoryIsValid(g, s, id);
    assert ListNamed(key) by { OwnPointerIsListed(g, s.writers[id], key); }
    forall k | k in t.archive ensures ListNamed(k) && AuthorSound(g, t, k) {
      if k != key {
        assert ListNamed(k) && AuthorSound(g, s, k);
        if s.archive[k].writer.Some? { PublishedLater(g, s, t, s.writers[s.archive[k].writer.value].repo, k); }
      } else {
        NewIsModern(s.writers[id]);
        AssembledHasKey(g, s.writers[id], t.writers[id], key);
      }
    }
  }

  lemma NewIsModern(w: Writer)
    ensures var m := NewManifest(w.repo, w.branch, w.tip, w.bundles); !m.legacy && m.tip == w.tip
  {}

  lemma AssembledHasKey(g: Dag, w: Writer, v: Writer, key: string)
    requires Assembled(g, w, key) && v.repo == w.repo && v.tip == w.tip
    ensures KeyOf(v, key)
  {
    hide ModernPointer, ChainTip, Adoption.ManifestKey;
    var uuid: string :| '/' !in uuid && key == Adoption.ManifestKey(w.repo, w.tip, uuid);
  }

  lemma OwnPointerIsListed(g: Dag, w: Writer, key: string)
    requires Assembled(g, w, key) && w.repo.Valid()
    ensures ListNamed(key)
  {
    hide ModernPointer, LegacyPointer, Repository.Valid;
    assert ReadsAt(w.repo, key);
  }

  lemma PutIsQuiet(g: Dag, s: State, id: nat, key: string)
    requires Inv(g, s) && At(s, id, Working) && key !in s.archive && Assembled(g, s.writers[id], key)
    ensures Quiet(g, s, PutState(s, id, key), id)
  {
    hide Inv, StoreSound, LogOf, RecordOf, Later, KeepsLive, Assembled;
    var t := PutState(s, id, key);
    WorkingHasNotLanded(g, s, id);
    PutIsLater(s, id, key);
    LiveWhileNothingDies(g, s, t, id);
    PutStoreIsSound(g, s, id, key);
  }

  lemma PutWriterIsSound(g: Dag, s: State, t: State, id: nat, w: Writer, v: Writer)
    requires WriterSound(g, s, id, w) && w.stage == Working && v == w.(stage := Manifested, newKey := v.newKey)
    requires Later(s, t) && LogOf(t, w.repo) == LogOf(s, w.repo) && RecordOf(t, w.repo) == RecordOf(s, w.repo)
    requires Building(g, t, v) && Ready(g, t, id, v) && OfferSound(g, t, v)
    ensures WriterSound(g, t, id, v)
  {
    hide Later, LogOf, RecordOf, Building, Ready, OfferSound, Landed, Repository.Valid;
  }

  lemma PutKeeps(g: Dag, s: State, id: nat, key: string)
    requires Inv(g, s) && At(s, id, Working) && key !in s.archive && Assembled(g, s.writers[id], key)
    ensures Inv(g, PutState(s, id, key))
  {
    hide Inv, WriterSound, LogOf, RecordOf, Later, Assembled, Written, Building, Ready, OfferSound, Quiet;
    var t := PutState(s, id, key);
    WriterIs(g, s, id);
    PutIsLater(s, id, key);
    PutIsReady(g, s, id, key);
    PutIsQuiet(g, s, id, key);
    PutWriterIsSound(g, s, t, id, s.writers[id], t.writers[id]);
    QuietStep(g, s, t, id);
  }

  // The key a push chooses is one its repository reads manifests under.
  lemma NewKeyIsModern(w: Writer, uuid: string)
    requires w.repo.Valid() && IsObjectId(w.tip) && '/' !in uuid
    ensures var key := Adoption.ManifestKey(w.repo, w.tip, uuid);
      key != "" && ModernPointer(w.repo, key) && KeyOf(w, key)
  {
    hide ModernPointer, IsObjectId, Repository.Valid;
    Adoption.WrittenIsListed(w.repo, w.repo, w.tip, uuid);
  }

  lemma TipIsObjectId(g: Dag, tip: Hash)
    requires tip in g.parents
    ensures IsObjectId(tip) && |tip| == g.width
  {}

  lemma PutManifestKeeps(g: Dag, s: State, id: nat, uuid: string)
    requires Inv(g, s) && Enabled(g, s, PutManifest(id, uuid))
    ensures Inv(g, Apply(g, s, PutManifest(id, uuid)))
  {
    hide Inv, ModernPointer, ChainTip, NewManifest, IsObjectId, Repository.Valid, Adoption.ManifestKey;
    var w := s.writers[id];
    TipIsCommit(g, s, id);
    TipIsObjectId(g, w.tip);
    RepositoryIsValid(g, s, id);
    NewKeyIsModern(w, uuid);
    PutKeeps(g, s, id, Adoption.ManifestKey(w.repo, w.tip, uuid));
  }

  // ----- Taking and dropping the lease -----

  lemma AcquireIsLater(s: State, id: nat, w: Writer)
    ensures Later(s, AcquireState(s, id, w))
    ensures RecordOf(AcquireState(s, id, w), w.repo) == RecordOf(s, w.repo).(owner := Some(id))
    ensures forall repo | repo != w.repo :: RecordOf(AcquireState(s, id, w), repo) == RecordOf(s, repo)
  {}

  lemma AcquireIsQuiet(g: Dag, s: State, id: nat, w: Writer)
    requires Inv(g, s) && id !in s.writers
    ensures Quiet(g, s, AcquireState(s, id, w), id)
  {
    hide LogSound, ReaderSound, RecordSound, OwnerSound, WellNamed, ListNamed, WriterSound, KeepsLive, Published,
      KeyOf, Later, RecordOf, LogOf;
    var t := AcquireState(s, id, w);
    AcquireIsLater(s, id, w);
    LiveWhileNothingDies(g, s, t, id);
    forall k | k in t.archive ensures AuthorSound(g, t, k) {
      assert AuthorSound(g, s, k);
      if s.archive[k].writer.Some? { PublishedLater(g, s, t, s.writers[s.archive[k].writer.value].repo, k); }
    }
  }

  lemma NewcomerIsSound(g: Dag, s: State, id: nat, w: Writer)
    requires Inv(g, s) && id !in s.writers && w.repo.Valid() && w.branch != "" && w.tip in g.parents
    requires w == Newcomer(s, w.repo, w.branch, w.tip, w.chains, w.policy)
    ensures WriterSound(g, AcquireState(s, id, w), id, w)
  {
    hide LogSound, ReaderSound, OwnerSound, StoreSound, Building, Ready, Landed, Repository.Valid;
    assert RecordSound(s, w.repo, RecordOf(s, w.repo));
  }

  lemma AcquireKeeps(g: Dag, s: State, id: nat, w: Writer)
    requires Inv(g, s) && Enabled(g, s, Acquire(id, w.repo, w.branch, w.tip, w.chains, w.policy))
    requires w == Newcomer(s, w.repo, w.branch, w.tip, w.chains, w.policy)
    ensures Inv(g, Apply(g, s, Acquire(id, w.repo, w.branch, w.tip, w.chains, w.policy)))
  {
    hide Inv, Quiet, RecordOf, WriterSound, Repository.Valid;
    AcquireIsQuiet(g, s, id, w);
    NewcomerIsSound(g, s, id, w);
    QuietStep(g, s, AcquireState(s, id, w), id);
  }

  predicate OwnerKeptOrCleared(r: Record, q: Record) {
    q.pointer == r.pointer && q.branch == r.branch && (q.owner == r.owner || q.owner == None)
  }

  lemma UnlockIsLater(s: State, id: nat)
    requires id in s.writers
    ensures var t := Unlock(s, id);
      Later(s, t) && t == SetWriter(s, id, s.writers[id].(stage := Stopped)).(records := t.records)
    ensures forall repo :: OwnerKeptOrCleared(RecordOf(s, repo), RecordOf(Unlock(s, id), repo))
  {}

  lemma UnlockIsQuiet(g: Dag, s: State, id: nat)
    requires Inv(g, s) && id in s.writers
    ensures Quiet(g, s, Unlock(s, id), id)
  {
    hide LogSound, ReaderSound, RecordSound, OwnerSound, WellNamed, WriterSound, KeepsLive, AuthorSound, Unlock,
      RecordOf, LogOf, Later;
    var t := Unlock(s, id);
    UnlockIsLater(s, id);
    LiveWhileNothingDies(g, s, t, id);
    AuthorsStay(g, s, t, id);
    assert forall repo :: QuietRecord(s, t, id, repo);
  }

  lemma UnlockKeeps(g: Dag, s: State, id: nat)
    requires Inv(g, s) && id in s.writers
    ensures Inv(g, Unlock(s, id))
  {
    hide Inv, Quiet, WriterSound, Unlock, RecordOf, LogOf, Later;
    var t := Unlock(s, id);
    UnlockIsLater(s, id);
    UnlockIsQuiet(g, s, id);
    WriterIs(g, s, id);
    StoppedIsSound(g, s, id, s.writers[id]);
    WriterFrame(g, s, t, id, s.writers[id].(stage := Stopped));
    QuietStep(g, s, t, id);
  }

  lemma ReleaseKeeps(g: Dag, s: State, id: nat)
    requires Inv(g, s) && Enabled(g, s, Release(id))
    ensures Inv(g, Apply(g, s, Release(id)))
  {
    hide Inv, Unlock;
    UnlockKeeps(g, s, id);
  }

  // ----- Deleting the superseded list -----

  // A landed writer's prior manifest is no repository's current one.
  lemma PriorIsSuperseded(g: Dag, s: State, id: nat, repo: Repository)
    requires Inv(g, s) && id in s.writers && s.writers[id].landed && s.writers[id].prior != "" && LogOf(s, repo) != []
    ensures LogOf(s, repo)[|LogOf(s, repo)| - 1] != s.writers[id].prior
  {
    hide StoreSound, ReaderSound, RecordSound, OwnerSound, LogOf, RecordOf, Published, Building, Ready, Fenced,
      Authored, Advances;
    var w := s.writers[id];
    assert WriterSound(g, s, id, w);
    assert LogSound(g, s, repo) && LogSound(g, s, w.repo);
    var i: nat :| LandedAt(LogOf(s, w.repo), w, i);
    if LogOf(s, repo)[|LogOf(s, repo)| - 1] == w.prior && repo != w.repo {
      LogsAreDisjoint(g, s, repo, w.repo, w.prior);
    }
  }

  // Nor is it a manifest any writer is about to publish.
  lemma PriorIsNotPending(g: Dag, s: State, id: nat, j: nat)
    requires Inv(g, s) && id in s.writers && s.writers[id].landed && s.writers[id].prior != "" && At(s, j, Manifested)
    ensures s.writers[j].newKey != s.writers[id].prior
  {
    hide StoreSound, ReaderSound, RecordSound, OwnerSound, LogOf, RecordOf, Building, Fenced, Landed, Advances,
      Published;
    var w := s.writers[id];
    assert WriterSound(g, s, id, w) && WriterSound(g, s, j, s.writers[j]);
    assert LogSound(g, s, w.repo);
    var i :| 0 <= i < |LogOf(s, w.repo)| && LogOf(s, w.repo)[i] == w.prior;
    assert Authored(s, w.repo, w.prior);
  }

  lemma PriorWasPublished(g: Dag, s: State, id: nat)
    requires Inv(g, s) && id in s.writers && s.writers[id].prior != ""
    ensures s.writers[id].prior in s.archive && s.writers[id].prior in LogOf(s, s.writers[id].repo)
  {
    hide StoreSound, ReaderSound, RecordSound, OwnerSound, LogOf, RecordOf, Building, Ready, Fenced, Landed, Advances,
      Published, OfferSound;
    var w := s.writers[id];
    assert WriterSound(g, s, id, w);
    assert LogSound(g, s, w.repo);
    var i :| 0 <= i < |LogOf(s, w.repo)| && LogOf(s, w.repo)[i] == w.prior;
    assert Authored(s, w.repo, LogOf(s, w.repo)[i]);
  }

  // The delete takes one manifest and nothing else: the object at a prior pointer is never a bundle.
  lemma DeleteIsLater(g: Dag, s: State, id: nat)
    requires Inv(g, s) && id in s.writers
    ensures DeletedState(s, id).bundles == s.bundles && Later(s, DeletedState(s, id))
    ensures forall repo :: RecordOf(DeletedState(s, id), repo) == RecordOf(s, repo)
  {
    hide LogSound, StoreSound, ReaderSound, RecordSound, OwnerSound, WriterSound, Later, LogOf;
    var t := DeletedState(s, id);
    if s.writers[id].prior != "" {
      PriorWasPublished(g, s, id);
      ManifestIsNoBundle(g, s, s.writers[id].prior);
    }
    assert t.bundles == s.bundles;
    SameStoreIsLater(s, t);
  }

  lemma DeleteKeepsLive(g: Dag, s: State, id: nat)
    requires Inv(g, s) && id in s.writers && s.writers[id].landed
    ensures KeepsLive(s, DeletedState(s, id), id)
  {
    hide Inv, LogOf;
    LiveWhileNothingDies(g, s, s, id);
    var w := s.writers[id];
    if w.prior != "" {
      forall repo | LogOf(s, repo) != [] ensures LogOf(s, repo)[|LogOf(s, repo)| - 1] != w.prior {
        PriorIsSuperseded(g, s, id, repo);
      }
      forall j | At(s, j, Manifested) ensures s.writers[j].newKey != w.prior {
        PriorIsNotPending(g, s, id, j);
      }
      assert forall j | j in s.writers && s.writers[j].stage == Manifested :: At(s, j, Manifested);
    }
  }

  lemma DeleteIsQuiet(g: Dag, s: State, id: nat)
    requires Inv(g, s) && id in s.writers && s.writers[id].landed
    ensures Quiet(g, s, DeletedState(s, id), id)
  {
    hide LogSound, ReaderSound, RecordSound, OwnerSound, WellNamed, ListNamed, WriterSound, KeepsLive, AuthorSound,
      Later, RecordOf, LogOf;
    DeleteIsLater(g, s, id);
    DeleteKeepsLive(g, s, id);
    AuthorsStay(g, s, DeletedState(s, id), id);
  }

  lemma CommittedHasLanded(g: Dag, s: State, id: nat)
    requires Inv(g, s) && At(s, id, Committed)
    ensures s.writers[id].landed
  {
    hide LogSound, StoreSound, ReaderSound, RecordSound, OwnerSound, LogOf, RecordOf, Landed;
    assert WriterSound(g, s, id, s.writers[id]);
  }

  lemma DeleteKeeps(g: Dag, s: State, id: nat)
    requires Inv(g, s) && id in s.writers && s.writers[id].landed
    ensures Inv(g, DeletedState(s, id))
  {
    hide Inv, Quiet, WriterSound, Later, RecordOf, LogOf;
    var t := DeletedState(s, id);
    DeleteIsLater(g, s, id);
    DeleteIsQuiet(g, s, id);
    WriterIs(g, s, id);
    StoppedIsSound(g, s, id, s.writers[id]);
    WriterFrame(g, s, t, id, s.writers[id].(stage := Stopped));
    QuietStep(g, s, t, id);
  }

  lemma DeleteOldKeeps(g: Dag, s: State, id: nat)
    requires Inv(g, s) && Enabled(g, s, DeleteOld(id))
    ensures Inv(g, Apply(g, s, DeleteOld(id)))
  {
    hide Inv, DeletedState;
    CommittedHasLanded(g, s, id);
    DeleteKeeps(g, s, id);
  }
}
