/** Pushes that land and pushes that are blocked, from a bucket and a table with nothing in them. */
module ProtocolWitness {
  import opened Wrappers
  import opened Names
  import opened Commits
  import opened Manifests
  import opened Protocol
  import opened ProtocolInvariant
  import opened ProtocolSteps
  import opened ProtocolSafety
  import opened ProtocolAdmission
  import opened ProtocolProgress
  import Adoption

  // ----- Witnesses -----

  // One range for everything that remains.
  function Whole(p: Request, size: int, etag: string): Hash -> seq<Piece> {
    (base: Hash) => if base == p.tip then [] else [Piece(RangeName(base, p.tip), size, etag)]
  }

  lemma WholeName(g: Dag, base: Hash, tip: Hash)
    requires tip in g.parents && base != tip && (base == Zeros(g.width) || IsAncestor(g, base, tip))
    ensures var name := RangeName(base, tip); ParseRange(name).Some? && RangeBase(name) == base && RangeEnd(name) == tip
  {
    hide Reach;
    assert IsObjectId(Zeros(g.width)) && |Zeros(g.width)| == g.width;
    assert ValidRange(base, tip);
    ParseRangeRoundTrip(base, tip);
  }

  // Whatever lies under the push's own keys is this push's and inspects.
  ghost predicate LeftoversUsable(bundles: map<string, StoredBundle>, p: Request) {
    forall name :: RefFor(p, name).key in bundles ==>
      bundles[RefFor(p, name).key].pushTip == p.tip && Inspectable(bundles, RefFor(p, name))
  }

  // If earlier attempts left only usable objects, one bundle for all that remains is a splitting.
  lemma WholeSplits(g: Dag, bundles: map<string, StoredBundle>, p: Request, size: int, etag: string)
    requires p.tip in g.parents && size > 0 && etag != "" && LeftoversUsable(bundles, p)
    ensures Splitting(g, bundles, p, Whole(p, size, etag))
  {
    hide Reach, IsAncestor, ParseRange, RangeBase, RangeEnd, RefFor, RangeName, Inspectable;
    forall base | base == Zeros(g.width) || IsAncestor(g, base, p.tip)
      ensures Covers(g, bundles, p, base, Whole(p, size, etag)(base)) {
      if base != p.tip {
        var x := Piece(RangeName(base, p.tip), size, etag);
        WholeName(g, base, p.tip);
        TipIsItsAncestor(g, p.tip);
        assert [x][1..] == [];
        assert Covers(g, bundles, p, p.tip, []);
        assert Leads(g, p, base, x.name) && Storable(bundles, p, x);
        assert Whole(p, size, etag)(base) == [x];
      }
    }
  }

  lemma TipIsItsAncestor(g: Dag, tip: Hash)
    requires tip in g.parents
    ensures IsAncestor(g, tip, tip)
  {}

  // Where earlier attempts left only usable objects, a push left alone lands exactly when it is admitted, already with
  // one bundle for all it has to send.
  lemma AdmissionDecides(g: Dag, s: State, id: nat, p: Request, size: int, etag: string, uuid: string)
    requires Inv(g, s) && id !in s.writers && p.repo.Valid() && p.branch != "" && p.tip in g.parents
    requires Policy(p.policy) && size > 0 && etag != "" && LeftoversUsable(s.bundles, p)
    requires '/' !in uuid && Adoption.ManifestKey(p.repo, p.tip, uuid) !in s.archive
    ensures Admitted(g, s, p) <==> exists steps, t ::
      Undisturbed(g, s, p, id, steps, t) && LogOf(t, p.repo) != LogOf(s, p.repo)
  {
    hide Inv, Admitted, Undisturbed, Splitting, Policy, Repository.Valid, Adoption.ManifestKey, LeftoversUsable, LogOf;
    WholeSplits(g, s.bundles, p, size, etag);
    LandsIffAdmitted(g, s, id, p, Whole(p, size, etag), uuid);
  }

  const NOTHING := State(map[], map[], {}, map[], map[], map[], map[])

  lemma NothingAdmits(g: Dag, p: Request)
    requires p.repo.Valid()
    ensures Init(g, NOTHING) && Inv(g, NOTHING) && Admitted(g, NOTHING, p)
  {
    hide Inv, Repository.Valid, IsAncestor, Adoption.Refuses, ReadOf;
    NothingIsInitial(g);
    InitIsSound(g, NOTHING);
    assert Listing(NOTHING, p.repo) == {};
  }

  lemma NothingIsInitial(g: Dag)
    ensures Init(g, NOTHING)
  {
    hide Published, WellNamed, ListNamed, Repository.Valid;
  }

  // A bucket and table with nothing in them take any first push.
  lemma FirstPushLands(g: Dag, p: Request, size: int, etag: string, uuid: string) returns (steps: seq<Step>, t: State)
    requires p.repo.Valid() && p.branch != "" && p.tip in g.parents && Policy(p.policy) && size > 0 && etag != ""
      && '/' !in uuid
    ensures Init(g, NOTHING) && Undisturbed(g, NOTHING, p, 0, steps, t) && Inv(g, t)
    ensures Lands(g, NOTHING, t, p, Adoption.ManifestKey(p.repo, p.tip, uuid))
  {
    hide Inv, Admitted, Undisturbed, Lands, Splitting, Policy, Repository.Valid, Adoption.ManifestKey, Init;
    NothingAdmits(g, p);
    WholeSplits(g, NOTHING.bundles, p, size, etag);
    steps, t := AdmittedPushLands(g, NOTHING, 0, p, Whole(p, size, etag), uuid);
  }

  lemma CrashIsPossible(g: Dag, t: State, id: nat)
    requires id in t.writers
    ensures Enabled(g, t, Crash(id)) && Apply(g, t, Crash(id)) == SetWriter(t, id, t.writers[id].(stage := Stopped))
  {}

  // A first push that crashes right after writing its manifest leaves a sound state with nothing published, where every
  // later push of the repository that does not contain its tip, or has another branch, is refused.
  lemma CrashedPushBlocks(g: Dag, p: Request, q: Request, size: int, etag: string, uuid: string)
    returns (steps: seq<Step>, t: State)
    requires p.repo.Valid() && p.branch != "" && p.tip in g.parents && Policy(p.policy) && size > 0 && etag != ""
      && '/' !in uuid
    requires q.repo == p.repo && (!IsAncestor(g, p.tip, q.tip) || q.branch != p.branch)
    ensures Init(g, NOTHING) && Undisturbed(g, NOTHING, p, 0, steps, t) && Inv(g, t)
    ensures RecordOf(t, q.repo).pointer == "" && Blocked(g, t, q) && !Admitted(g, t, q)
  {
    hide Inv, Admitted, InTurn, Goes, Splitting, Policy, Repository.Valid, Adoption.ManifestKey, Init, Blocked,
      Undisturbed, IsAncestor;
    NothingAdmits(g, p);
    WholeSplits(g, NOTHING.bundles, p, size, etag);
    var first, turn, end := TakeTurn(g, NOTHING, 0, p);
    var stored, u := StoredFromTurn(g, NOTHING, turn, 0, p, end, Whole(p, size, etag), first);
    var last;
    last, t := PutAndCrash(g, NOTHING, u, 0, p, uuid, first + stored);
    steps := first + stored + last;
    var key := Adoption.ManifestKey(p.repo, p.tip, uuid);
    GoesIsSound(g, NOTHING, 0, steps, t);
    LeftoverBlocks(g, t, q, key);
    NothingPublished(g, t, q.repo);
    BlockedIsNotAdmitted(g, t, q);
    GoesIsUndisturbed(g, NOTHING, 0, p, steps, t);
  }

  lemma PutAndCrash(g: Dag, s: State, u: State, id: nat, p: Request, uuid: string, before: seq<Step>)
    returns (last: seq<Step>, t: State)
    requires Goes(g, s, id, before, u) && InTurn(g, s, u, id, p, p.tip) && p.tip in g.parents
    requires '/' !in uuid && Adoption.ManifestKey(p.repo, p.tip, uuid) !in s.archive
    ensures Goes(g, s, id, before + last, t) && t.log == s.log
    ensures var key := Adoption.ManifestKey(p.repo, p.tip, uuid);
      && key in t.live && key in t.archive && t.archive[key].writer == Some(id) && id in t.writers
        && t.writers[id].repo == p.repo
      && t.archive[key].manifest.tip == p.tip && t.archive[key].manifest.branch == p.branch
  {
    hide Inv, InTurn, Goes, Adoption.ManifestKey, Written, PutState, Enabled, Apply;
    GoesIsSound(g, s, id, before, u);
    TurnIsPush(g, s, u, id, p, p.tip);
    WrittenIs(u.writers[id], id);
    var put := PutList(g, s, u, id, p, uuid);
    GoesThen(g, s, id, before, u, [PutManifest(id, uuid)], put);
    GoesIsSound(g, u, id, [PutManifest(id, uuid)], put);
    t := SetWriter(put, id, put.writers[id].(stage := Stopped));
    CrashIsPossible(g, put, id);
    GoesOnce(g, put, id, Crash(id), t);
    GoesThen(g, s, id, before + [PutManifest(id, uuid)], put, [Crash(id)], t);
    last := [PutManifest(id, uuid)] + [Crash(id)];
    assert before + last == before + [PutManifest(id, uuid)] + [Crash(id)];
  }

  lemma GoesIsUndisturbed(g: Dag, s: State, id: nat, p: Request, steps: seq<Step>, t: State)
    requires Goes(g, s, id, steps, t) && steps != [] && steps[0] == StartOf(id, p)
    ensures Undisturbed(g, s, p, id, steps, t)
  {
    hide Inv, Enabled, Apply, Only;
  }

  lemma StoredFromTurn(g: Dag, s: State, turn: State, id: nat, p: Request, end: Hash, cut: Hash -> seq<Piece>,
    first: seq<Step>)
    returns (stored: seq<Step>, u: State)
    requires Goes(g, s, id, first, turn) && InTurn(g, s, turn, id, p, end) && turn.bundles == s.bundles
    requires p.repo.Valid() && p.tip in g.parents && Policy(p.policy) && Splitting(g, s.bundles, p, cut)
    ensures Goes(g, s, id, first + stored, u) && InTurn(g, s, u, id, p, p.tip)
  {
    hide Inv, InTurn, Goes, Covers, Policy, Repository.Valid;
    GoesIsSound(g, s, id, first, turn);
    TurnEnd(g, s, turn, id, p, end);
    stored, u := StoreAll(g, s, turn, id, p, end, cut(end));
    GoesThen(g, s, id, first, turn, stored, u);
  }

  // A manifest left behind, live but unpublished, blocks whoever does not contain it.
  lemma LeftoverBlocks(g: Dag, t: State, q: Request, key: string)
    requires Inv(g, t) && q.repo.Valid() && key in t.live && key in t.archive && t.archive[key].writer.Some?
    requires OwnDiverged(g, t, q, key)
    ensures Blocked(g, t, q)
  {
    hide Inv, Repository.Valid, OwnDiverged, Adoption.ManifestKey;
    OwnIsListed(g, t, q, key);
    RefusingIffDiverged(g, t, q, key);
  }

  lemma OwnIsListed(g: Dag, t: State, q: Request, key: string)
    requires Inv(g, t) && OwnDiverged(g, t, q, key)
    ensures key in Listing(t, q.repo)
  {
    hide Inv, IsAncestor, Adoption.ManifestKey, Adoption.ManifestRepository, WellNamed, ListNamed, Published,
      Repository.Valid, IsObjectId;
    InvHasStore(g, t);
    assert AuthorSound(g, t, key);
    var id := t.archive[key].writer.value;
    var w := t.writers[id];
    RepositoryIsValid(g, t, id);
    TipIsCommit(g, t, id);
    TipIsObjectId(g, w.tip);
    var uuid: string :| '/' !in uuid && key == Adoption.ManifestKey(w.repo, w.tip, uuid);
    Adoption.WrittenIsListed(q.repo, w.repo, w.tip, uuid);
  }

  lemma NothingPublished(g: Dag, t: State, repo: Repository)
    requires Inv(g, t) && t.log == map[]
    ensures RecordOf(t, repo).pointer == ""
  {
    hide LogSound, StoreSound, ReaderSound, OwnerSound, WriterSound, RecordOf;
    assert RecordSound(t, repo, RecordOf(t, repo));
  }

  lemma BlockedIsNotAdmitted(g: Dag, t: State, q: Request)
    requires RecordOf(t, q.repo).pointer == "" && Blocked(g, t, q)
    ensures !Admitted(g, t, q)
  {
    hide Blocked, CurrentAdmits, RecordOf;
  }
}
