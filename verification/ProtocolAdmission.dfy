/** Which pushes the destination admits, and that a push it does not admit publishes nothing however long it runs
  alone. */
module ProtocolAdmission {
  import opened Wrappers
  import opened Names
  import opened Commits
  import opened Chains
  import opened Manifests
  import opened Protocol
  import opened ProtocolInvariant
  import opened ProtocolSteps
  import Adoption

  // What one push brings: the key chains committed at its tip and the fingerprints it encrypts to.
  datatype Request = Request(repo: Repository, branch: string, tip: Hash, chains: seq<seq<string>>, policy: seq<string>)

  function Starter(s: State, p: Request): Writer {
    Newcomer(s, p.repo, p.branch, p.tip, p.chains, p.policy)
  }

  function StartOf(id: nat, p: Request): Step {
    Acquire(id, p.repo, p.branch, p.tip, p.chains, p.policy)
  }

  ghost function ContextFor(g: Dag, s: State, p: Request): Adoption.Context {
    ContextOf(g, s.bundles, Starter(s, p))
  }

  // This manifest of the namespace makes an adoption pass refuse the push.
  ghost predicate Refusing(g: Dag, s: State, p: Request, key: string) {
    key in Listing(s, p.repo) && Adoption.Refuses(ContextFor(g, s, p), key, ReadOf(s, p.repo, key))
  }

  ghost predicate Blocked(g: Dag, s: State, p: Request) {
    exists key :: Refusing(g, s, p, key)
  }

  ghost predicate Inspectable(bundles: map<string, StoredBundle>, b: BundleRef) {
    b.key in bundles && InspectionAccepts(bundles, b)
  }

  // What can be checked before the push: the guard on the current list, that a legacy list still inspects, and, with
  // nothing published yet, that no manifest of the namespace refuses.
  ghost predicate Admitted(g: Dag, s: State, p: Request) {
    && CurrentAdmits(g, s, Starter(s, p))
    && var r := RecordOf(s, p.repo);
       if r.pointer == "" then !Blocked(g, s, p)
       else s.archive[r.pointer].manifest.legacy ==>
         forall b | b in s.archive[r.pointer].manifest.bundles :: Inspectable(s.bundles, b)
  }

  // Said of the record: it has no other branch; the list it names is there, has this branch, is an ancestor of the
  // push and not its tip already, unless it is legacy and then all its bundles inspect; or it names none and no list
  // refuses.
  lemma AdmittedExactly(g: Dag, s: State, p: Request)
    ensures var r := RecordOf(s, p.repo);
      Admitted(g, s, p) <==>
        && r.branch in {"", p.branch}
        && if r.pointer == "" then forall key :: !Refusing(g, s, p, key)
           else
             && r.pointer in s.live && r.pointer in s.archive
             && var m := s.archive[r.pointer].manifest;
             && m.branch == p.branch && IsAncestor(g, m.tip, p.tip)
             && if m.legacy then forall b | b in m.bundles :: Inspectable(s.bundles, b) else m.tip != p.tip
  {
    hide Refusing, IsAncestor, Inspectable, RecordOf;
    StarterReadsRecord(s, p);
    StarterIsPush(s, p);
  }

  // The pass goes through every stored key that some repository of the namespace may read a list from.
  lemma ListingIsDiscovery(s: State, repo: Repository, key: string)
    requires repo.Valid()
    ensures key in Listing(s, repo) <==>
      (key in s.live || key in s.bundles) && exists source, legacy :: Adoption.Belongs(repo, key, source, legacy)
  {
    hide Adoption.ManifestRepository, Adoption.Belongs;
    Adoption.ListedWhereReadable(repo, key);
  }

  // ----- A writer running alone -----

  function StepWriter(step: Step): Option<nat> {
    if step.StartRead? || step.ReadRecord? || step.GetManifest? then None else Some(step.id)
  }

  predicate Only(id: nat, steps: seq<Step>) {
    forall i | 0 <= i < |steps| :: StepWriter(steps[i]) == Some(id)
  }

  ghost predicate Reaches(g: Dag, s: State, steps: seq<Step>, t: State)
    decreases |steps|
  {
    if steps == [] then s == t else Enabled(g, s, steps[0]) && Reaches(g, Apply(g, s, steps[0]), steps[1..], t)
  }

  // The push takes the lease and nobody else moves.
  ghost predicate Undisturbed(g: Dag, s: State, p: Request, id: nat, steps: seq<Step>, t: State) {
    steps != [] && steps[0] == StartOf(id, p) && Only(id, steps) && Reaches(g, s, steps, t)
  }

  // ----- Without admission nothing is published -----

  predicate SameStore(s: State, t: State) {
    t.bundles == s.bundles && t.archive == s.archive && t.live == s.live && t.log == s.log
  }

  predicate SamePush(w: Writer, v: Writer) {
    && v.repo == w.repo && v.branch == w.branch && v.tip == w.tip && v.chains == w.chains && v.policy == w.policy
    && v.prior == w.prior && v.seenBranch == w.seenBranch
  }

  // Where a push that is not admitted can get to, and what holds it there.
  ghost predicate HeldBack(g: Dag, s: State, p: Request, v: Writer) {
    && SamePush(Starter(s, p), v)
    && match v.stage
       case Locked => v.bundles == [] && v.pending == []
       case Discovering => Blocked(g, s, p)
       case Surveying => exists key :: key in v.unread && Refusing(g, s, p, key)
       case Working => exists b :: b in v.pending && !Inspectable(s.bundles, b)
       case Stopped => true
       case _ => false
  }

  lemma SameListing(s: State, t: State, repo: Repository)
    requires SameStore(s, t)
    ensures Listing(t, repo) == Listing(s, repo)
  {
    hide Adoption.ManifestRepository;
  }

  lemma SameReads(s: State, t: State, repo: Repository, key: string)
    requires SameStore(s, t)
    ensures ReadOf(t, repo, key) == ReadOf(s, repo, key)
  {
    hide Adoption.ManifestRepository, Complete;
  }

  lemma CurrentIsSame(g: Dag, s: State, t: State, w: Writer, v: Writer)
    requires SameStore(s, t) && SamePush(w, v)
    ensures CurrentAdmits(g, t, v) == CurrentAdmits(g, s, w)
  {
    hide IsAncestor;
  }

  lemma HeldAtCurrent(g: Dag, s: State, t: State, p: Request, v: Writer)
    requires !Admitted(g, s, p) && SameStore(s, t) && HeldBack(g, s, p, v) && v.stage == Locked
    requires CurrentAdmits(g, t, v) && (v.prior != "" ==> v.prior in t.archive)
    ensures HeldBack(g, s, p, TakeCurrent(t, v))
  {
    hide IsAncestor, Blocked, Inspectable, CurrentAdmits, RecordOf;
    CurrentIsSame(g, s, t, Starter(s, p), v);
    StarterReadsRecord(s, p);
    var q := TakeCurrent(t, v);
    if v.prior != "" {
      var m := s.archive[v.prior].manifest;
      assert m.legacy;
      var b :| b in m.bundles && !Inspectable(s.bundles, b);
      assert b in q.pending;
    }
  }

  lemma StarterReadsRecord(s: State, p: Request)
    ensures Starter(s, p).prior == RecordOf(s, p.repo).pointer
    ensures Starter(s, p).seenBranch == RecordOf(s, p.repo).branch
  {}

  lemma HeldAtSurvey(g: Dag, s: State, t: State, p: Request, v: Writer, key: string)
    requires SameStore(s, t) && HeldBack(g, s, p, v) && v.stage == Surveying && key in v.unread
    ensures HeldBack(g, s, p, SurveyOne(g, t, v, key))
  {
    hide Listing, ReadOf, ContextOf, Adoption.Refuses, Adoption.Consider, Newcomer;
    var block :| block in v.unread && Refusing(g, s, p, block);
    SameReads(s, t, v.repo, key);
    SameContext(g, s.bundles, Starter(s, p), v);
    StarterIsPush(s, p);
    if key == block {
      Adoption.ConsiderRefuses(ContextOf(g, t.bundles, v), key, ReadOf(t, v.repo, key), v.offer);
    } else {
      var q := SurveyOne(g, t, v, key);
      assert q.stage == Surveying ==> block in q.unread;
    }
  }

  lemma StarterIsPush(s: State, p: Request)
    ensures
      var w := Starter(s, p);
      && w.repo == p.repo && w.branch == p.branch && w.tip == p.tip && w.chains == p.chains
      && w.policy == p.policy && w.stage == Locked && w.bundles == [] && w.pending == [] && w.offer == [] && !w.landed
        && w.newKey == ""
  {}

  lemma HeldAtInspect(g: Dag, s: State, t: State, p: Request, v: Writer)
    requires SameStore(s, t) && HeldBack(g, s, p, v) && v.stage == Working && v.pending != []
      && Inspectable(t.bundles, v.pending[0])
    ensures HeldBack(g, s, p, Append(t, v, v.pending[0]))
  {
    hide Inspectable, Newcomer, Inspected;
    assert v.pending[0].key in t.bundles by { InspectableIsStored(t.bundles, v.pending[0]); }
    var b :| b in v.pending && !Inspectable(s.bundles, b);
    var i :| 0 <= i < |v.pending| && v.pending[i] == b;
    assert v.pending[1..][i - 1] == b;
  }

  lemma InspectableIsStored(bundles: map<string, StoredBundle>, b: BundleRef)
    requires Inspectable(bundles, b)
    ensures b.key in bundles
  {}

  lemma NextIsUnread(unread: set<string>, key: string)
    requires Next(unread, key)
    ensures key in unread
  {}

  predicate Ends(step: Step) {
    step.Release? || step.Crash?
  }

  lemma HeldWhenEnding(g: Dag, s: State, t: State, p: Request, id: nat, step: Step)
    requires SameStore(s, t) && id in t.writers && HeldBack(g, s, p, t.writers[id])
    requires Ends(step) && Enabled(g, t, step) && StepWriter(step) == Some(id)
    ensures var u := Apply(g, t, step); SameStore(s, u) && id in u.writers && HeldBack(g, s, p, u.writers[id])
  {
    hide Continues, InspectionAccepts, Policy, ParseRange, Repository.Valid, CurrentAdmits, Next, TakeCurrent,
      SurveyOne, Listing, Append, Blocked, Refusing, Inspectable, Newcomer, RecordOf, LogOf, HoldsLease, Create,
      AcquireState, PutState, Publish, DeletedState, Unlock, Adoption.ManifestKey, ChainTip;
    if step.Release? { UnlockIsLater(t, id); }
  }

  // No step of its own takes such a push any further, or changes what is stored.
  lemma HeldStep(g: Dag, s: State, t: State, p: Request, id: nat, step: Step)
    requires !Admitted(g, s, p) && SameStore(s, t) && id in t.writers && HeldBack(g, s, p, t.writers[id])
    requires Enabled(g, t, step) && StepWriter(step) == Some(id)
    ensures var u := Apply(g, t, step); SameStore(s, u) && id in u.writers && HeldBack(g, s, p, u.writers[id])
  {
    hide HeldBack, SameStore, Continues, InspectionAccepts, Policy, ParseRange, Repository.Valid, CurrentAdmits, Next,
      TakeCurrent, SurveyOne, Listing, Append, Admitted, Blocked, Refusing, Inspectable, Newcomer, RecordOf, LogOf,
      HoldsLease, Create, AcquireState, PutState, Publish, DeletedState, Unlock, Adoption.ManifestKey, ChainTip;
    var v := t.writers[id];
    HeldStages(g, s, p, v);
    match step
    case ReadCurrent(_) =>
      HeldAtCurrent(g, s, t, p, v);
      WriterOnly(s, t, id, TakeCurrent(t, v));
    case ListManifests(_) =>
      HeldAtListing(g, s, t, p, v);
      WriterOnly(s, t, id, v.(stage := Surveying, unread := Listing(t, v.repo)));
    case Survey(_, key) =>
      NextIsUnread(v.unread, key);
      HeldAtSurvey(g, s, t, p, v, key);
      WriterOnly(s, t, id, SurveyOne(g, t, v, key));
    case Settle(_) => SurveyIsHeld(g, s, p, v);
    case Inspect(_) =>
      EnabledIsInspectable(t.bundles, v.pending[0]);
      HeldAtInspect(g, s, t, p, v);
      WriterOnly(s, t, id, Append(t, v, v.pending[0]));
    case Upload(_, _, _, _) => NothingHeldWithoutPending(g, s, p, v);
    case RecordRange(_, _) => NothingHeldWithoutPending(g, s, p, v);
    case PutManifest(_, _) => NothingHeldWithoutPending(g, s, p, v);
    case _ => if Ends(step) { HeldWhenEnding(g, s, t, p, id, step); }
  }

  lemma HeldStages(g: Dag, s: State, p: Request, v: Writer)
    requires HeldBack(g, s, p, v)
    ensures v.stage != Manifested && v.stage != Committed
  {
    hide Blocked, Refusing, Inspectable, Newcomer;
  }

  lemma WriterOnly(s: State, t: State, id: nat, v: Writer)
    requires SameStore(s, t)
    ensures SameStore(s, SetWriter(t, id, v)) && SetWriter(t, id, v).writers == t.writers[id := v]
  {}

  lemma SurveyIsHeld(g: Dag, s: State, p: Request, v: Writer)
    requires HeldBack(g, s, p, v) && v.stage == Surveying
    ensures v.unread != {}
  {
    hide Blocked, Refusing, Inspectable, Newcomer;
  }

  lemma EnabledIsInspectable(bundles: map<string, StoredBundle>, b: BundleRef)
    requires b.key in bundles && InspectionAccepts(bundles, b)
    ensures Inspectable(bundles, b)
  {}

  lemma NothingHeldWithoutPending(g: Dag, s: State, p: Request, v: Writer)
    requires v.stage == Working && v.pending == []
    ensures !HeldBack(g, s, p, v)
  {
    hide Inspectable, Newcomer;
  }

  lemma HeldAtListing(g: Dag, s: State, t: State, p: Request, v: Writer)
    requires SameStore(s, t) && HeldBack(g, s, p, v) && v.stage == Discovering
    ensures HeldBack(g, s, p, v.(stage := Surveying, unread := Listing(t, v.repo)))
  {
    hide Listing, Adoption.Refuses, ReadOf, ContextOf, Newcomer;
    SameListing(s, t, v.repo);
    StarterIsPush(s, p);
    var key :| Refusing(g, s, p, key);
    assert key in Listing(t, v.repo);
  }

  // A push that is not admitted publishes nothing, however long it goes on alone.
  lemma NotAdmittedNeverLands(g: Dag, s: State, p: Request, id: nat, steps: seq<Step>, t: State)
    requires id !in s.writers && !Admitted(g, s, p) && Undisturbed(g, s, p, id, steps, t)
    ensures SameStore(s, t)
  {
    hide Enabled, Apply, Admitted, HeldBack, SameStore;
    var u := Apply(g, s, steps[0]);
    StartIsHeld(g, s, p, id);
    assert forall i | 0 <= i < |steps[1..]| :: StepWriter(steps[1..][i]) == StepWriter(steps[1 + i]);
    StaysHeld(g, s, u, p, id, steps[1..], t);
  }

  // A push of exactly what is published, in a modern list, is not admitted: alone it changes nothing.
  lemma UpToDateIsNotAdmitted(g: Dag, s: State, p: Request, id: nat, steps: seq<Step>, t: State)
    requires id !in s.writers && Undisturbed(g, s, p, id, steps, t)
    requires var key := RecordOf(s, p.repo).pointer;
      key != "" && key in s.archive && s.archive[key].manifest.tip == p.tip && !s.archive[key].manifest.legacy
    ensures SameStore(s, t)
  {
    hide Undisturbed, SameStore, IsAncestor, RecordOf;
    StarterReadsRecord(s, p);
    NotAdmittedNeverLands(g, s, p, id, steps, t);
  }

  lemma StartIsHeld(g: Dag, s: State, p: Request, id: nat)
    requires id !in s.writers && Enabled(g, s, StartOf(id, p))
    ensures var u := Apply(g, s, StartOf(id, p)); SameStore(s, u) && id in u.writers && HeldBack(g, s, p, u.writers[id])
  {
    hide RecordOf, Repository.Valid, Blocked, Inspectable;
  }

  lemma {:induction false} StaysHeld(g: Dag, s: State, u: State, p: Request, id: nat, steps: seq<Step>, t: State)
    requires !Admitted(g, s, p) && SameStore(s, u) && id in u.writers && HeldBack(g, s, p, u.writers[id])
    requires Only(id, steps) && Reaches(g, u, steps, t)
    ensures SameStore(s, t)
    decreases |steps|
  {
    hide Enabled, Apply, Admitted, HeldBack, SameStore;
    if steps != [] {
      HeldStep(g, s, u, p, id, steps[0]);
      assert forall i | 0 <= i < |steps[1..]| :: StepWriter(steps[1..][i]) == StepWriter(steps[1 + i]);
      StaysHeld(g, s, Apply(g, u, steps[0]), p, id, steps[1..], t);
    }
  }

  // ----- What blocks -----

  // A manifest of the repository itself that the push does not contain, or of another branch.
  ghost predicate OwnDiverged(g: Dag, s: State, p: Request, key: string) {
    && key in s.live && key in s.archive && s.archive[key].writer.Some?
    && s.archive[key].writer.value in s.writers && s.writers[s.archive[key].writer.value].repo == p.repo
    && var m := s.archive[key].manifest; (!IsAncestor(g, m.tip, p.tip) || m.branch != p.branch)
  }

  lemma SameNamespace(a: Repository, b: Repository, key: string)
    requires a.Valid() && b.Valid() && a.namespace + "/" <= key && b.namespace + "/" <= key
    ensures a.namespace == b.namespace
  {
    hide Split;
    NoSlashInComponent(a.namespace);
    NoSlashInComponent(b.namespace);
    SplitBelow1(a.namespace, key);
    SplitBelow1(b.namespace, key);
    assert Split(key)[0] == a.namespace && Split(key)[0] == b.namespace;
  }

  lemma PointerIsBelowNamespace(repo: Repository, key: string)
    requires ManifestPointer(repo, key)
    ensures repo.namespace + "/" <= key
  {
    var n := repo.namespace + "/";
    if ModernPointer(repo, key) {
      assert n <= repo.Root() <= repo.Root() + ("repos" + "/") <= repo.Manifests() <= key;
    } else {
      assert n <= repo.Id() + "/bundles_" <= key;
    }
  }

  // What a modelled writer wrote is discovered as its own repository's manifest, and always reads.
  lemma AuthoredReads(g: Dag, s: State, repo: Repository, key: string)
    requires Inv(g, s) && repo.Valid() && key in s.live && key in s.archive && s.archive[key].writer.Some?
    requires key in Listing(s, repo)
    ensures var w := s.writers[s.archive[key].writer.value];
      && Adoption.ManifestRepository(repo, key) == Some((w.repo, false)) && w.repo.Valid()
      && ReadOf(s, repo, key) == Adoption.Readable(s.archive[key].manifest)
      && Protocol.Sound(g, s, w.repo, s.archive[key].manifest) && !s.archive[key].manifest.legacy
      && s.archive[key].manifest.tip in g.parents
  {
    hide Inv, Adoption.ManifestRepository, Complete, ManifestPointer, Ancestral, Holds, WellNamed, ListNamed,
      Adoption.ManifestKey, IsObjectId, Repository.Valid;
    InvHasStore(g, s);
    assert AuthorSound(g, s, key);
    var id := s.archive[key].writer.value;
    var w := s.writers[id];
    RepositoryIsValid(g, s, id);
    TipIsCommit(g, s, id);
    TipIsObjectId(g, w.tip);
    Adoption.ListedIsPointer(repo, key);
    PointerIsBelowNamespace(Adoption.ManifestRepository(repo, key).value.0, key);
    PointerIsBelowNamespace(w.repo, key);
    SameNamespace(Adoption.ManifestRepository(repo, key).value.0, w.repo, key);
    var uuid: string :| '/' !in uuid && key == Adoption.ManifestKey(w.repo, w.tip, uuid);
    Adoption.WrittenIsListed(repo, w.repo, w.tip, uuid);
    AsReadIsSame(s.archive[key].manifest);
  }

  lemma AsReadIsSame(m: Manifest)
    requires !m.legacy
    ensures AsRead(m, false) == m
  {}

  // Every bundle of a sound modern manifest links, descends and inspects, whoever asks.
  lemma SoundChainHolds(g: Dag, s: State, repo: Repository, m: Manifest, x: Adoption.Context)
    requires Protocol.Sound(g, s, repo, m) && !m.legacy && x.g == g && x.inspect == Inspector(s.bundles)
    ensures !Adoption.ChainBroken(x, m.bundles)
  {
    hide Reach, IsAncestor, Linked, Ancestral, Holds, ParseRange, RangeEnd, RangeBase, ValidBundleKey, Header,
      DistinctEnds, Identified, Adoption.LinkAccepted, Adoption.ContainedEnd, Inspector;
    forall i: nat | i < Adoption.ContainedEnd(x, m.bundles) ensures Adoption.LinkAccepted(x, m.bundles, i) {
      SoundLinkHolds(g, s, repo, m, x, i);
    }
  }

  lemma SoundLinkHolds(g: Dag, s: State, repo: Repository, m: Manifest, x: Adoption.Context, i: nat)
    requires Protocol.Sound(g, s, repo, m) && !m.legacy && x.g == g && x.inspect == Inspector(s.bundles)
      && i < |m.bundles|
    ensures Adoption.LinkAccepted(x, m.bundles, i)
  {
    hide Reach, IsAncestor, Linked, ParseRange, RangeEnd, RangeBase, ValidBundleKey, Header, DistinctEnds, Policy;
    var b := m.bundles[i];
    assert b in m.bundles && Holds(s, b) && Identified(b);
    assert Inspector(s.bundles)(b).Some? by { HeldInspects(s, b); }
    LinkedAt(m.bundles, Zeros(|m.tip|), m.tip, i);
    assert Grounded(g, b.range);
    if i > 0 {
      assert Grounded(g, m.bundles[i - 1].range);
      EndIsNotZero(g, m.bundles[i - 1].range);
    }
  }

  lemma HeldInspects(s: State, b: BundleRef)
    requires Holds(s, b) && Identified(b)
    ensures Inspector(s.bundles)(b).Some?
  {
    hide IsRecipient;
  }

  // Among manifests that pushes wrote, exactly the repository's own diverged ones block: no such manifest is ever
  // unreadable, and no chain of one is ever found broken.
  lemma BlockedIffOwnDiverged(g: Dag, s: State, p: Request)
    requires Inv(g, s) && p.repo.Valid()
    requires forall key | key in Listing(s, p.repo) && key in s.live :: key in s.archive && s.archive[key].writer.Some?
    ensures Blocked(g, s, p) <==> exists key :: key in Listing(s, p.repo) && OwnDiverged(g, s, p, key)
  {
    hide Inv, Listing, ReadOf, Adoption.Refuses, ContextOf, OwnDiverged, Newcomer, Repository.Valid;
    forall key | key in Listing(s, p.repo) ensures Refusing(g, s, p, key) <==> OwnDiverged(g, s, p, key) {
      ListedIsLive(g, s, p.repo, key);
      RefusingIffDiverged(g, s, p, key);
    }
    if Blocked(g, s, p) {
      var key :| Refusing(g, s, p, key);
      assert key in Listing(s, p.repo) && OwnDiverged(g, s, p, key);
    }
    if exists key :: key in Listing(s, p.repo) && OwnDiverged(g, s, p, key) {
      var key :| key in Listing(s, p.repo) && OwnDiverged(g, s, p, key);
      assert Refusing(g, s, p, key);
    }
  }

  // Discovery takes no bundle for a manifest.
  lemma ListedIsLive(g: Dag, s: State, repo: Repository, key: string)
    requires Inv(g, s) && repo.Valid() && key in Listing(s, repo)
    ensures key in s.live
  {
    hide Inv, StoreSound, Adoption.ManifestRepository, Repository.Valid, ManifestPointer;
    InvHasStore(g, s);
    Adoption.ListedIsPointer(repo, key);
    PointerIsNoBundle(g, s, Adoption.ManifestRepository(repo, key).value.0, key);
  }

  lemma RefusingIffDiverged(g: Dag, s: State, p: Request, key: string)
    requires Inv(g, s) && p.repo.Valid() && key in Listing(s, p.repo) && key in s.live && key in s.archive
      && s.archive[key].writer.Some?
    ensures Refusing(g, s, p, key) <==> OwnDiverged(g, s, p, key)
  {
    hide Inv, Listing, ReadOf, Adoption.ManifestRepository, Adoption.ChainBroken, Inspector, IsAncestor,
      Protocol.Sound, Repository.Valid, RecordOf;
    AuthoredReads(g, s, p.repo, key);
    InvHasStore(g, s);
    var id := s.archive[key].writer.value;
    AuthorIsWriter(g, s, key);
    SoundChainHolds(g, s, s.writers[id].repo, s.archive[key].manifest, ContextFor(g, s, p));
  }

  lemma AuthorIsWriter(g: Dag, s: State, key: string)
    requires StoreSound(g, s) && key in s.archive && s.archive[key].writer.Some?
    ensures s.archive[key].writer.value in s.writers
  {
    hide WellNamed, ListNamed, Published, KeyOf;
    assert AuthorSound(g, s, key);
  }
}
