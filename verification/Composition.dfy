/** Where the pieces meet: what one push assembles is what the protocol publishes, what its attempts leave behind is
  what the next one resumes, and what is published is what a fetch imports. */
module Composition {
  import opened Wrappers
  import opened Names
  import opened Commits
  import opened Chains
  import opened Manifests
  import opened Protocol
  import opened ProtocolInvariant
  import opened ProtocolSteps
  import opened ProtocolSafety
  import Adoption
  import Envelope
  import Fetch
  import Planner
  import Progress
  import Push
  import Reading
  import Resume
  import Selection
  import Splitter
  import Validation

  // ----- Assembling from the store -----

  // Every successful inspection of the push was answered by the store, each at its own state of the run so far.
  ghost predicate Answered(states: seq<State>, j: nat, w: Writer, world: Splitter.World) {
    forall name :: world.inspect(name).Some? ==>
      exists k: nat :: AnsweredAt(states, j, k, w, name, world.inspect(name).value)
  }

  ghost predicate AnsweredAt(states: seq<State>, j: nat, k: nat, w: Writer, name: string, seen: BundleRef) {
    k <= j < |states| && Inspector(states[k].bundles)(OwnRef(w, name)) == Some(seen)
  }

  // Such answers are all that assembly asks of inspection.
  lemma AnswersInspect(states: seq<State>, j: nat, w: Writer, world: Splitter.World)
    requires Answered(states, j, w, world)
    ensures Push.Inspects(world, w.repo, w.tip)
  {
    hide Identified, Repository.BundleKey;
    forall name | world.inspect(name).Some?
      ensures var ref := world.inspect(name).value;
        ref.range == name && ref.key == w.repo.BundleKey(w.tip, name) && Identified(ref)
    {
      var k: nat :| AnsweredAt(states, j, k, w, name, world.inspect(name).value);
      AnswerIsIdentified(states[k].bundles, OwnRef(w, name), world.inspect(name).value);
    }
  }

  lemma AnswerIsIdentified(bundles: map<string, StoredBundle>, ref: BundleRef, seen: BundleRef)
    requires Inspector(bundles)(ref) == Some(seen)
    ensures ref.key in bundles && InspectionAccepts(bundles, ref) && seen == Inspected(ref, bundles[ref.key])
    ensures seen.range == ref.range && seen.key == ref.key && Identified(seen)
  {
    hide Identified, Enriches;
  }

  lemma HoldsLater(s: State, t: State, b: BundleRef)
    requires Later(s, t) && Holds(s, b)
    ensures Holds(t, b)
  {
    hide Enriches, LogOf;
  }

  // The protocol's objects are what validation reads: same keys, sizes, tags and push tips, and the recipients an
  // object is taken to have are the ones its bytes yield, if they yield a valid policy at all.
  ghost predicate Corresponds(bundles: map<string, StoredBundle>, objects: map<string, Validation.StoredObject>) {
    bundles.Keys == objects.Keys && forall key | key in bundles :: SameObject(bundles[key], objects[key])
  }

  ghost predicate SameObject(held: StoredBundle, stored: Validation.StoredObject) {
    && held.size == |stored.body| && held.etag == stored.etag && held.pushTip == stored.pushTip
    && forall r :: Envelope.Yields(stored.body, |stored.body|, r) <==> r == held.recipients && Policy(held.recipients)
  }

  // So the protocol's inspections, of its own ranges with the push tip and of any other without, are what validation
  // answers through its caches.
  lemma InspectionIsValidation(bundles: map<string, StoredBundle>, objects: map<string, Validation.StoredObject>,
    ref: BundleRef, pushTip: string, answer: Option<BundleRef>)
    requires Corresponds(bundles, objects) && Validation.Agrees(objects, ref, pushTip, answer)
    ensures answer ==
      if ref.key in bundles && InspectionAccepts(bundles, ref) && pushTip in {"", bundles[ref.key].pushTip}
      then Some(Inspected(ref, bundles[ref.key])) else None
  {
    hide Envelope.Yields, Policy;
    Validation.AcceptedExactly(objects, ref, pushTip, answer);
    if ref.key in bundles {
      var held, stored := bundles[ref.key], objects[ref.key];
      assert SameObject(held, stored);
      assert Envelope.Yields(stored.body, |stored.body|, held.recipients) <==> Policy(held.recipients);
      assert InspectionAccepts(bundles, ref) <==>
        && ref.size in {0, held.size} && ref.etag in {"", held.etag} && ref.recipients in {[], held.recipients}
        && held.size > 0 && held.etag != "" && Policy(held.recipients);
      if answer.Some? { Validation.AcceptedIsIdentified(objects, ref, pushTip, answer.value); }
    }
  }

  // A push records one of its ranges exactly when the range comes next and validation accepts the object under the
  // push's tip, and it records what validation answered.
  lemma RecordedIsValidated(g: Dag, s: State, id: nat, name: string, objects: map<string, Validation.StoredObject>,
    answer: Option<BundleRef>)
    requires At(s, id, Working) && s.writers[id].pending == [] && s.writers[id].tip != ""
    requires Corresponds(s.bundles, objects)
    requires Validation.Agrees(objects, OwnRef(s.writers[id], name), s.writers[id].tip, answer)
    ensures Enabled(g, s, RecordRange(id, name)) <==> Continues(g, s.writers[id], name) && answer.Some?
    ensures var w := s.writers[id]; answer.Some? ==>
      OwnRef(w, name).key in s.bundles && Append(s, w, OwnRef(w, name)).bundles == w.bundles + [answer.value]
  {
    hide Continues, InspectionAccepts, Policy, ParseRange, CurrentAdmits, Next, SurveyOne, Listing, TakeCurrent,
      Create, PutState, Publish, DeletedState, Unlock, Newcomer, AcquireState, ReadPointer, ReadBody, HoldsLease,
      ChainTip, LogOf, Repository.Valid, RangeEnd, Validation.Agrees, Corresponds;
    InspectionIsValidation(s.bundles, objects, OwnRef(s.writers[id], name), s.writers[id].tip, answer);
  }

  // The stored form of a list: a document of it, or the lines that name the ranges of a legacy one.
  ghost predicate StoredAs(body: Reading.Body, m: Manifest, source: Repository, legacy: bool) {
    if legacy then
      && body.Text? && var names := Reading.NamesOf(body.lines);
      && names != [] && (forall n | n in names :: ParseRange(n).Some?)
      && m == Reading.LegacyManifest(source, m.branch, names).(legacy := m.legacy)
    else body.Document? && body.decoded == Some(m)
  }

  // What the protocol's adoption pass reads is what reading the object gives, for a legacy list under the placeholder
  // branch and for a modern one under whatever branch it records.
  lemma PassReadsManifests(s: State, repo: Repository, key: string, source: Repository, legacy: bool,
    listed: Reading.Listed, literal: string -> bool, m: Manifest)
    requires repo.Valid() && key in s.live && key in s.archive && Adoption.Belongs(repo, key, source, legacy)
    requires StoredAs(listed.body, s.archive[key].manifest, source, legacy)
    requires listed.size <= Reading.MAX_MANIFEST_BYTES && literal(DEFAULT_BRANCH)
    requires literal(s.archive[key].manifest.branch)
    ensures ReadOf(s, repo, key) == Adoption.Readable(m) <==>
      Reading.Readable(source, key, if legacy then DEFAULT_BRANCH else "", map[key := listed], literal, m)
  {
    hide ParseRange, RangeEnd, Complete, ModernPointer, LegacyPointer, Adoption.ManifestRepository, Reading.NamesOf,
      Adoption.HasSuffix, Linked;
    Adoption.DiscoveryIsExact(repo, key, source, legacy);
    Adoption.DiscoveryIsExact(repo, key, source, !legacy);
    assert Adoption.Belongs(repo, key, source, true) <==> LegacyPointer(source, key);
  }

  // What the store once answered it still holds.
  lemma AnswerIsHeld(g: Dag, states: seq<State>, steps: seq<Step>, j: nat, w: Writer, world: Splitter.World,
    name: string)
    requires Run(g, states, steps) && j < |states| && Answered(states, j, w, world) && world.inspect(name).Some?
    requires w.tip in g.parents && ParseRange(name).Some? && RangeEnd(name) in g.parents
    ensures Holds(states[j], world.inspect(name).value)
  {
    hide Run, Inv, StoreSound, Inspector, InspectionAccepts, Holds, Later, ParseRange, RangeEnd, ValidBundleKey,
      IsObjectId, OwnRef, WellNamed;
    var k: nat :| AnsweredAt(states, j, k, w, name, world.inspect(name).value);
    var ref := OwnRef(w, name);
    AnswerIsIdentified(states[k].bundles, ref, world.inspect(name).value);
    ReachableIsSound(g, states, steps, k);
    InvHasStore(g, states[k]);
    StoredIsWellNamed(g, states[k], ref.key);
    OwnRefLies(g, w, name);
    InspectedIsHeld(states[k], w.repo, ref);
    RunIsLater(g, states, steps, k, j);
    HoldsLater(states[k], states[j], world.inspect(name).value);
  }

  lemma OwnRefLies(g: Dag, w: Writer, name: string)
    requires w.tip in g.parents && ParseRange(name).Some? && RangeEnd(name) in g.parents
    ensures OwnRef(w, name).range == name && ValidBundleKey(w.repo, OwnRef(w, name))
  {
    hide ParseRange, RangeEnd, ValidBundleKey, IsObjectId, Repository.BundleKey;
    TipIsObjectId(g, w.tip);
    TipIsObjectId(g, RangeEnd(name));
    BundleKeyIsValid(w.repo, w.tip, OwnRef(w, name));
  }

  // Whatever assembly appends to the kept list, an inspection answered.
  lemma AppendedAreAnswers(g: Dag, base: Hash, tip: Hash, kept: seq<BundleRef>, refs: map<string, BundleRef>,
    world: Splitter.World, bundles: seq<BundleRef>, b: BundleRef)
    requires Push.AssembledFrom(g, base, tip, kept, refs, world, bundles) && b in bundles && b !in kept
    ensures exists name :: world.inspect(name) == Some(b)
  {
    hide Push.ResumedPrefix, Planner.Boundaries, Splitter.RunRange;
    assert base != tip;
    var resumed: seq<BundleRef>, checked: seq<BundleRef> :| Push.ResumedPrefix(g, base, tip, refs, resumed)
      && Push.Checked(world, resumed, checked)
      && bundles == kept + checked + Push.Rest(g, world, Push.StandsAt(base, checked), tip);
    if b in checked {
      var i :| 0 <= i < |checked| && checked[i] == b;
      assert world.inspect(resumed[i].range) == Some(b);
    } else {
      var start := Push.StandsAt(base, checked);
      assert b in Push.Rest(g, world, start, tip);
      Push.EmittedAreInspected(world, start, Planner.Boundaries(g, start, tip));
    }
  }

  // A list assembled by a working writer from the store's own answers is one the protocol publishes: a stored chain to
  // the pushed tip whose bundles are all there, that keeps what the destination had.
  lemma AssembledIsPublishable(g: Dag, states: seq<State>, steps: seq<Step>, j: nat, id: nat, base: Hash,
    refs: map<string, BundleRef>, world: Splitter.World, bundles: seq<BundleRef>)
    requires Run(g, states, steps) && j < |states| && At(states[j], id, Working) && states[j].writers[id].pending == []
    requires Answered(states, j, states[j].writers[id], world)
    requires var w := states[j].writers[id];
      Push.AssembledFrom(g, base, w.tip, w.bundles, refs, world, bundles) && Push.GoodChain(g, w.repo, bundles, w.tip)
      && w.bundles <= bundles
    ensures var w := states[j].writers[id];
      Building(g, states[j], w.(bundles := bundles)) && bundles != [] && ChainTip(g, bundles) == w.tip
  {
    hide Run, Inv, Answered, Push.AssembledFrom, Push.GoodChain, Building, Holds, Refines;
    var s, w := states[j], states[j].writers[id];
    ReachableIsSound(g, states, steps, j);
    EarlyFacts(g, s, id);
    TipIsCommit(g, s, id);
    forall b | b in bundles ensures Holds(s, b) {
      if b in w.bundles {
        BuiltAreHeld(g, s, w, b);
      } else {
        AppendedAreAnswers(g, base, w.tip, w.bundles, refs, world, bundles, b);
        var name :| world.inspect(name) == Some(b);
        AnswersInspect(states, j, w, world);
        ChainRangeParses(g, w.repo, bundles, w.tip, b);
        assert b.range == name by { InspectsRange(world, w.repo, w.tip, name); }
        AnswerIsHeld(g, states, steps, j, w, world, name);
      }
    }
    ListIsBuilding(g, s, w, bundles);
  }

  lemma BuiltAreHeld(g: Dag, s: State, w: Writer, b: BundleRef)
    requires Building(g, s, w) && b in w.bundles
    ensures Holds(s, b)
  {
    hide Linked, Ancestral, Stored, Holds, Refines, ValidBundleKey;
  }

  lemma InspectsRange(world: Splitter.World, repo: Repository, tip: Hash, name: string)
    requires Push.Inspects(world, repo, tip) && world.inspect(name).Some?
    ensures world.inspect(name).value.range == name
  {
    hide Identified;
  }

  lemma ChainRangeParses(g: Dag, repo: Repository, bundles: seq<BundleRef>, end: Hash, b: BundleRef)
    requires Push.GoodChain(g, repo, bundles, end) && b in bundles
    ensures ParseRange(b.range).Some? && RangeEnd(b.range) in g.parents
  {
    hide Reach, IsAncestor, Linked, ParseRange, RangeBase, RangeEnd, Stored;
    var i :| 0 <= i < |bundles| && bundles[i] == b;
    LinkedAt(bundles, Zeros(g.width), end, i);
    assert Grounded(g, bundles[i].range);
  }

  lemma PrefixRefines(before: seq<BundleRef>, kept: seq<BundleRef>, bundles: seq<BundleRef>)
    requires Refines(before, kept) && kept <= bundles
    ensures Refines(before, bundles)
  {
    hide Enriches;
    forall i | 0 <= i < |before| ensures Enriches(before[i], bundles[i]) {
      assert Enriches(before[i], kept[i]);
    }
  }

  lemma ListIsBuilding(g: Dag, s: State, w: Writer, bundles: seq<BundleRef>)
    requires Building(g, s, w) && w.pending == [] && w.tip in g.parents && w.bundles <= bundles
    requires Push.GoodChain(g, w.repo, bundles, w.tip) && forall b | b in bundles :: Holds(s, b)
    ensures Building(g, s, w.(bundles := bundles)) && bundles != [] && ChainTip(g, bundles) == w.tip
  {
    hide Reach, IsAncestor, ParseRange, RangeBase, RangeEnd, Ancestral, Stored, Holds, Refines;
    Push.NonEmptyChain(g, bundles, w.tip);
    assert w.bundles + [] == w.bundles && bundles + [] == bundles;
    if w.prior != "" { PrefixRefines(ManifestOf(s, w.prior).bundles, w.bundles, bundles); }
  }

  // One working writer assembles its list from the store's own answers, and the protocol may publish what it gets.
  method AssembleList(g: Dag, ghost states: seq<State>, ghost steps: seq<Step>, ghost j: nat, ghost id: nat, w: Writer,
                      refs: map<string, BundleRef>, world: Splitter.World)
    returns (result: Option<seq<BundleRef>>)
    requires Run(g, states, steps) && j < |states| && At(states[j], id, Working) && w == states[j].writers[id]
      && w.pending == []
    requires w.bundles == [] || IsAncestor(g, ChainTip(g, w.bundles), w.tip)
    requires Answered(states, j, w, world) && Selection.Named(refs) && world.completed == refs.Keys
    ensures result.Some? ==>
      && Building(g, states[j], w.(bundles := result.value)) && result.value != [] && ChainTip(g, result.value) == w.tip
      && w.bundles <= result.value
    ensures Splitter.Cooperative(world) ==> result.Some?
  {
    hide Run, Inv, Answered, Push.AssembledFrom, Push.GoodChain, Building, Push.Inspects, Splitter.Cooperative,
      IsAncestor, Selection.Named, RangeEnd;
    ReachableIsSound(g, states, steps, j);
    EarlyFacts(g, states[j], id);
    TipIsCommit(g, states[j], id);
    AnswersInspect(states, j, w, world);
    var base := if |w.bundles| == 0 then "" else RangeEnd(w.bundles[|w.bundles| - 1].range);
    BuiltIsGoodChain(g, states[j], w, base);
    result := Push.AssembleBundles(g, w.repo, base, w.tip, w.bundles, refs, world);
    if result.Some? {
      AssembledIsPublishable(g, states, steps, j, id, base, refs, world, result.value);
    }
  }

  lemma BuiltIsGoodChain(g: Dag, s: State, w: Writer, base: Hash)
    requires Building(g, s, w) && w.tip in g.parents && base == (if w.bundles == [] then "" else ChainTip(g, w.bundles))
    requires w.bundles == [] || IsAncestor(g, ChainTip(g, w.bundles), w.tip)
    ensures Push.GoodChain(g, w.repo, w.bundles, Selection.StartOf(base, w.tip))
  {
    hide Reach, Linked, Ancestral, Stored, Holds, Refines, RangeEnd, ValidBundleKey;
    assert |w.tip| == g.width;
    if w.bundles != [] { assert ChainTip(g, w.bundles) != ""; }
  }

  // ----- Retrying from the store -----

  // What discovery of a push's own objects finds: every range stored under its tip, described as it is stored.
  ghost predicate ListedAs(s: State, repo: Repository, tip: Hash, policy: seq<string>, refs: map<string, BundleRef>) {
    forall name :: (name in refs <==> repo.BundleKey(tip, name) in s.bundles)
      && (name in refs ==> refs[name] == DescribedAs(s, repo, tip, policy, name))
  }

  function DescribedAs(s: State, repo: Repository, tip: Hash, policy: seq<string>, name: string): BundleRef {
    var key := repo.BundleKey(tip, name);
    if key in s.bundles then BundleRef(name, key, s.bundles[key].size, s.bundles[key].etag, policy)
      else BundleRef(name, key, 0, "", policy)
  }

  // The listing of the store, page contents put together.
  ghost predicate ListingOf(s: State, prefix: string, objects: seq<Resume.ListedObject>) {
    forall o :: o in objects <==>
      prefix <= o.key && o.key in s.bundles && o.size == s.bundles[o.key].size && o.etag == s.bundles[o.key].etag
  }

  // Discovery over that listing finds exactly this.
  lemma DiscoveryListsStore(s: State, repo: Repository, tip: Hash, policy: seq<string>, refs: map<string, BundleRef>,
                            objects: seq<Resume.ListedObject>)
    requires ListingOf(s, repo.BundleKey(tip, ""), objects)
    requires Resume.Discovered(refs, repo.BundleKey(tip, ""), tip, policy, objects)
    ensures ListedAs(s, repo, tip, policy, refs)
  {
    hide Repository.BundleKey, ParseRange;
    var prefix := repo.BundleKey(tip, "");
    forall name
      ensures name in refs <==> repo.BundleKey(tip, name) in s.bundles
      ensures name in refs ==> refs[name] == DescribedAs(s, repo, tip, policy, name)
    {
      KeyIsPrefixed(repo, tip, name);
      if repo.BundleKey(tip, name) in s.bundles {
        var key := repo.BundleKey(tip, name);
        var o := Resume.ListedObject(key, s.bundles[key].size, s.bundles[key].etag);
        assert o in objects && o.key[|prefix|..] == name;
      }
      if name in refs {
        var o :| o in objects && prefix <= o.key && name == o.key[|prefix|..];
        assert o.key == prefix + name;
      }
    }
  }

  lemma KeyIsPrefixed(repo: Repository, tip: Hash, name: string)
    ensures var prefix := repo.BundleKey(tip, ""); repo.BundleKey(tip, name) == prefix + name
    ensures var prefix := repo.BundleKey(tip, ""); prefix <= prefix + name && (prefix + name)[|prefix|..] == name
  {
    assert repo.BundleKey(tip, "") == repo.Bundles() + tip + "/";
    PrefixDrops(repo.BundleKey(tip, ""), name);
  }

  // A successful upload leaves its object in the store: created, or left as an earlier attempt made it.
  lemma UploadedIsStored(g: Dag, s: State, step: Step)
    requires Inv(g, s) && Enabled(g, s, step) && step.Upload?
    ensures var w := s.writers[step.id]; w.repo.BundleKey(w.tip, step.name) in Apply(g, s, step).bundles
  {
    hide Inv, Policy, ParseRange, RangeEnd, ValidBundleKey, Repository.BundleKey, Repository.Valid, ManifestPointer,
      IsObjectId;
    var w := s.writers[step.id];
    var key := w.repo.BundleKey(w.tip, step.name);
    InvHasStore(g, s);
    TipIsCommit(g, s, step.id);
    RepositoryIsValid(g, s, step.id);
    BundleKeyIsFree(g, s, w.repo, w.tip, step.name);
  }

  // The range was uploaded for this repository and tip somewhere between two states of the run.
  ghost predicate UploadedBetween(states: seq<State>, steps: seq<Step>, i: nat, j: nat, repo: Repository, tip: Hash,
    name: string) {
    exists k: nat :: i <= k < j && UploadsAt(states, steps, k, repo, tip, name)
  }

  predicate UploadsAt(states: seq<State>, steps: seq<Step>, k: nat, repo: Repository, tip: Hash, name: string) {
    && k < |steps| && k < |states| && steps[k].Upload? && steps[k].name == name && steps[k].id in states[k].writers
    && states[k].writers[steps[k].id].repo == repo && states[k].writers[steps[k].id].tip == tip
  }

  // So whatever else happens meanwhile, the next attempt at a push lists everything this one listed and uploaded.
  lemma NextAttemptGrew(g: Dag, states: seq<State>, steps: seq<Step>, i: nat, j: nat, repo: Repository, tip: Hash,
    policy: seq<string>, refs: map<string, BundleRef>, next: map<string, BundleRef>, uploaded: set<string>)
    requires Run(g, states, steps) && i <= j < |states|
    requires ListedAs(states[i], repo, tip, policy, refs) && ListedAs(states[j], repo, tip, policy, next)
    requires forall name | name in uploaded :: UploadedBetween(states, steps, i, j, repo, tip, name)
    ensures Progress.Grew(refs, next, uploaded)
  {
    hide Inv, Enabled, Apply, Init, Repository.BundleKey, LogOf;
    RunIsLater(g, states, steps, i, j);
    forall name | name in uploaded ensures name in next {
      var k: nat :| i <= k < j && UploadsAt(states, steps, k, repo, tip, name);
      ReachableIsSound(g, states, steps, k);
      UploadedIsStored(g, states[k], steps[k]);
      RunIsLater(g, states, steps, k + 1, j);
    }
  }

  // ----- Fetching -----

  // Whatever any run published, and however the run goes on while its bundles are read one by one, a fetch of it adds
  // exactly the history of its tip and downloads exactly the bundles the local branch lacked.
  method FetchPublished(g: Dag, ghost states: seq<State>, ghost steps: seq<Step>, ghost i: nat, ghost repo: Repository,
                        ghost index: nat -> nat, ghost later: nat -> State, at: nat -> map<string, Fetch.RemoteBundle>,
                        m: Manifest, local: Fetch.LocalRepository)
    returns (error: Option<Fetch.FetchError>, downloaded: seq<BundleRef>)
    requires Run(g, states, steps) && i < |states| && RecordOf(states[i], repo).pointer != ""
    requires forall k: nat :: i <= index(k) < |states| && later(k) == states[index(k)] && at(k) == View(later(k))
    requires RecordOf(states[i], repo).pointer in states[i].archive
    requires m == states[i].archive[RecordOf(states[i], repo).pointer].manifest
    requires local.g == g && Closed(g, local.objects)
    modifies local
    ensures error.None? && local.objects == old(local.objects) + Reach(g, m.tip)
    ensures exists k: nat ::
      Fetch.MissingFrom(g, local.branch, old(local.objects), m.bundles, k) && downloaded == m.bundles[k..]
  {
    hide Run, Reach, RecordOf, View, Fetch.Published, Fetch.MissingFrom;
    PublishedStaysFetchable(g, states, steps, i, repo, index, later, at);
    error, downloaded := local.FetchManifest(at, m.bundles, m.tip);
  }
}
