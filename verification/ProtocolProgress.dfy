/** An admitted push left alone lands, however its history is cut and whatever earlier attempts left behind. */
module ProtocolProgress {
  import opened Wrappers
  import opened Ordering
  import opened Names
  import opened Commits
  import opened Chains
  import opened Manifests
  import opened Protocol
  import opened ProtocolInvariant
  import opened ProtocolSteps
  import opened ProtocolPublish
  import opened ProtocolSafety
  import opened ProtocolAdmission
  import Adoption
  import Push

  // ----- Runs of one writer -----

  // Steps of one writer from s to t that end in a sound state.
  ghost predicate Goes(g: Dag, s: State, id: nat, steps: seq<Step>, t: State) {
    Only(id, steps) && Reaches(g, s, steps, t) && Inv(g, t)
  }

  lemma GoesNowhere(g: Dag, s: State, id: nat)
    requires Inv(g, s)
    ensures Goes(g, s, id, [], s)
  {
    hide Inv;
  }

  lemma GoesOnce(g: Dag, s: State, id: nat, step: Step, t: State)
    requires Inv(g, s) && Enabled(g, s, step) && StepWriter(step) == Some(id) && t == Apply(g, s, step)
    ensures Goes(g, s, id, [step], t)
  {
    hide Inv, Enabled, Apply;
    StepKeeps(g, s, step);
    assert [step][1..] == [];
    assert Reaches(g, t, [], t);
  }

  lemma {:induction false} ReachesThen(g: Dag, s: State, a: seq<Step>, m: State, b: seq<Step>, t: State)
    requires Reaches(g, s, a, m) && Reaches(g, m, b, t)
    ensures Reaches(g, s, a + b, t)
    decreases |a|
  {
    hide Enabled, Apply;
    if a == [] {
      assert a + b == b;
    } else {
      ReachesThen(g, Apply(g, s, a[0]), a[1..], m, b, t);
      assert (a + b)[1..] == a[1..] + b;
    }
  }

  lemma GoesThen(g: Dag, s: State, id: nat, a: seq<Step>, m: State, b: seq<Step>, t: State)
    requires Goes(g, s, id, a, m) && Goes(g, m, id, b, t)
    ensures Goes(g, s, id, a + b, t)
  {
    hide Inv, Reaches, StepWriter;
    ReachesThen(g, s, a, m, b, t);
  }

  // ----- The writer in its turn -----

  // The writer runs this push under the lease; only it has moved since s, and nothing is published yet.
  ghost predicate Holding(s: State, t: State, id: nat, p: Request) {
    && id in t.writers && HoldsLease(t, id) && SamePush(Starter(s, p), t.writers[id])
    && t.archive == s.archive && t.log == s.log && t.live == s.live
  }

  ghost function Reading(s: State, repo: Repository): string -> Adoption.ManifestRead {
    (key: string) => ReadOf(s, repo, key)
  }

  // What the adoption pass decides over the manifests listed in s, read in key order.
  ghost predicate Offers(g: Dag, s: State, p: Request, keys: seq<string>, offer: seq<BundleRef>) {
    && StrictlySorted(keys) && (forall key :: key in keys <==> key in Listing(s, p.repo))
    && Adoption.Surveyed(ContextFor(g, s, p), keys, Reading(s, p.repo)) == Adoption.Holding(offer)
  }

  // With nothing published yet, the list starts with what adoption decides.
  ghost predicate StartsAdopted(g: Dag, s: State, p: Request, bundles: seq<BundleRef>) {
    Starter(s, p).prior == "" ==> exists keys, offer :: Offers(g, s, p, keys, offer) && offer <= bundles
  }

  lemma AdoptedStaysFirst(g: Dag, s: State, p: Request, a: seq<BundleRef>, b: seq<BundleRef>)
    requires StartsAdopted(g, s, p, a) && a <= b
    ensures StartsAdopted(g, s, p, b)
  {
    hide Offers, Newcomer;
    if Starter(s, p).prior == "" {
      var keys, offer :| Offers(g, s, p, keys, offer) && offer <= a;
    }
  }

  // Its list ends at end, inside the pushed history, and nothing is left to revalidate.
  ghost predicate InTurn(g: Dag, s: State, t: State, id: nat, p: Request, end: Hash) {
    && Holding(s, t, id, p) && At(t, id, Working) && StartsAdopted(g, s, p, t.writers[id].bundles)
    && var w := t.writers[id];
    w.pending == [] && ChainTip(g, w.bundles) == end
      && if w.bundles == [] then end == Zeros(g.width) else IsAncestor(g, end, p.tip)
  }

  lemma TakeLease(g: Dag, s: State, id: nat, p: Request) returns (t: State)
    requires Inv(g, s) && id !in s.writers && p.repo.Valid() && p.branch != "" && p.tip in g.parents
    ensures Goes(g, s, id, [StartOf(id, p)], t) && Holding(s, t, id, p) && t.writers[id] == Starter(s, p)
      && t.bundles == s.bundles
  {
    hide Inv, Enabled, Apply, RecordOf, Repository.Valid;
    t := AcquireState(s, id, Starter(s, p));
    AcquireIsPossible(g, s, id, p);
    AcquireIsLater(s, id, Starter(s, p));
    StarterIsPush(s, p);
    GoesOnce(g, s, id, StartOf(id, p), t);
  }

  lemma AcquireIsPossible(g: Dag, s: State, id: nat, p: Request)
    requires id !in s.writers && p.repo.Valid() && p.branch != "" && p.tip in g.parents
    ensures Enabled(g, s, StartOf(id, p)) && Apply(g, s, StartOf(id, p)) == AcquireState(s, id, Starter(s, p))
  {
    hide RecordOf, Repository.Valid;
  }

  // Moving only this writer keeps the lease and everything stored.
  lemma StillHolding(s: State, t: State, id: nat, p: Request, v: Writer)
    requires Holding(s, t, id, p) && SamePush(t.writers[id], v)
    ensures Holding(s, SetWriter(t, id, v), id, p) && SetWriter(t, id, v).writers[id] == v
  {
    hide RecordOf, Newcomer;
    assert RecordOf(SetWriter(t, id, v), v.repo) == RecordOf(t, v.repo) by {
      SameRecords(t, SetWriter(t, id, v), v.repo);
    }
  }

  lemma SameRecords(s: State, t: State, repo: Repository)
    requires t.records == s.records
    ensures RecordOf(t, repo) == RecordOf(s, repo)
  {}

  lemma ReadIsPossible(g: Dag, t: State, id: nat)
    requires At(t, id, Locked) && CurrentAdmits(g, t, t.writers[id])
    ensures t.writers[id].prior != "" ==> t.writers[id].prior in t.archive
    ensures Enabled(g, t, ReadCurrent(id))
      && Apply(g, t, ReadCurrent(id)) == SetWriter(t, id, TakeCurrent(t, t.writers[id]))
  {
    hide IsAncestor, Next, Continues, InspectionAccepts, Policy, ParseRange, RangeEnd, Repository.Valid, SurveyOne,
      Listing, Append, Create, AcquireState, Newcomer, DeletedState, Unlock, LogOf;

  }

  // Under the lease the current list is read.
  lemma TakeAndRead(g: Dag, s: State, id: nat, p: Request) returns (steps: seq<Step>, t: State)
    requires Inv(g, s) && id !in s.writers && p.repo.Valid() && p.branch != "" && p.tip in g.parents
      && CurrentAdmits(g, s, Starter(s, p))
    ensures steps == [StartOf(id, p), ReadCurrent(id)] && Goes(g, s, id, steps, t) && Holding(s, t, id, p)
      && t.bundles == s.bundles
    ensures (Starter(s, p).prior != "" ==> Starter(s, p).prior in s.archive)
      && t.writers[id] == TakeCurrent(s, Starter(s, p))
  {
    hide Inv, Enabled, Apply, RecordOf, Repository.Valid, CurrentAdmits, Goes, Newcomer;
    var u := TakeLease(g, s, id, p);
    StarterIsPush(s, p);
    var v := u.writers[id];
    AdmitsByStore(g, s, u, v);
    ReadIsPossible(g, u, id);
    t := SetWriter(u, id, TakeCurrent(u, v));
    TakenIsSamePush(u, v);
    StillHolding(s, u, id, p, TakeCurrent(u, v));
    assert Inv(g, u) by { GoesIsSound(g, s, id, [StartOf(id, p)], u); }
    GoesOnce(g, u, id, ReadCurrent(id), t);
    GoesThen(g, s, id, [StartOf(id, p)], u, [ReadCurrent(id)], t);
    steps := [StartOf(id, p)] + [ReadCurrent(id)];
    TakenByArchive(s, u, v);
  }

  lemma AdmitsByStore(g: Dag, s: State, u: State, v: Writer)
    requires u.archive == s.archive && u.live == s.live
    ensures CurrentAdmits(g, u, v) == CurrentAdmits(g, s, v)
  {
    hide IsAncestor;
  }

  lemma TakenByArchive(s: State, u: State, v: Writer)
    requires u.archive == s.archive && (v.prior != "" ==> v.prior in s.archive)
    ensures TakeCurrent(u, v) == TakeCurrent(s, v)
  {}

  lemma TakenIsSamePush(u: State, v: Writer)
    requires v.prior != "" ==> v.prior in u.archive
    ensures SamePush(v, TakeCurrent(u, v))
  {}

  lemma GoesIsSound(g: Dag, s: State, id: nat, steps: seq<Step>, t: State)
    requires Goes(g, s, id, steps, t)
    ensures Inv(g, t)
  {}

  // ----- The adoption pass -----

  lemma {:induction false} LeastKey(unread: set<string>) returns (key: string)
    requires unread != {}
    ensures Next(unread, key)
  {
    hide Leq;
    var x :| x in unread;
    var rest := unread - {x};
    LeqTotal(x, x);
    if rest == {} {
      key := x;
      forall other | other in unread ensures other == x { assert other !in rest; }
    } else {
      var y := LeastKey(rest);
      LeqTotal(x, y);
      key := if Leq(x, y) then x else y;
      forall other | other in unread ensures Leq(key, other) {
        if other != x {
          assert other in rest && Leq(y, other);
          if key == x { LeqTransitive(x, y, other); }
        }
      }
    }
  }

  lemma StoresAgree(s: State, t: State, id: nat, p: Request)
    requires Holding(s, t, id, p) && t.bundles == s.bundles
    ensures SameStore(s, t)
  {
    hide HoldsLease, Newcomer;
  }

  // A manifest that does not refuse is read, and the pass goes on.
  lemma SurveyGoesOn(g: Dag, s: State, t: State, p: Request, v: Writer, key: string)
    requires SameStore(s, t) && SamePush(Starter(s, p), v) && v.stage == Surveying
    requires key in Listing(s, p.repo) && !Refusing(g, s, p, key)
    ensures var q := SurveyOne(g, t, v, key);
      && q == v.(offer := q.offer, unread := v.unread - {key})
      && Adoption.Consider(ContextFor(g, s, p), key, ReadOf(s, p.repo, key), v.offer) == Adoption.Holding(q.offer)
  {
    hide Listing, ReadOf, ContextOf, Adoption.Refuses, Newcomer, SameStore, Adoption.Diverged, Adoption.ChainBroken,
      Adoption.Better, Adoption.OfferOf;
    SameReads(s, t, v.repo, key);
    StarterIsPush(s, p);
    SameContext(g, s.bundles, Starter(s, p), v);
    BundlesAgree(s, t);
    Adoption.ConsiderRefuses(ContextOf(g, t.bundles, v), key, ReadOf(t, v.repo, key), v.offer);
  }

  lemma BundlesAgree(s: State, t: State)
    requires SameStore(s, t)
    ensures t.bundles == s.bundles
  {}

  lemma SurveyIsPossible(g: Dag, t: State, id: nat, key: string)
    requires At(t, id, Surveying) && Next(t.writers[id].unread, key)
    ensures Enabled(g, t, Survey(id, key))
      && Apply(g, t, Survey(id, key)) == SetWriter(t, id, SurveyOne(g, t, t.writers[id], key))
  {
    hide CurrentAdmits, Next, Continues, InspectionAccepts, Policy, ParseRange, RangeEnd, Repository.Valid,
      SurveyOne, Listing, TakeCurrent, Append, Create, AcquireState, Newcomer, DeletedState, Unlock, LogOf;

  }

  // These keys, in order, are what the writer has still to read, and reading them all leads it to this offer.
  ghost predicate Reads(g: Dag, s: State, p: Request, w: Writer, keys: seq<string>, offer: seq<BundleRef>) {
    && StrictlySorted(keys) && (forall key :: key in keys <==> key in w.unread)
    && Adoption.Onward(ContextFor(g, s, p), w.offer, keys, Reading(s, p.repo)) == Adoption.Holding(offer)
  }

  // With nothing refusing, the pass reads every manifest it listed.
  lemma {:induction false} SurveyAll(g: Dag, s: State, t: State, id: nat, p: Request)
    returns (steps: seq<Step>, u: State, keys: seq<string>)
    requires Inv(g, t) && Holding(s, t, id, p) && t.bundles == s.bundles && At(t, id, Surveying) && !Blocked(g, s, p)
    requires t.writers[id].unread <= Listing(s, p.repo)
    ensures Goes(g, t, id, steps, u) && Holding(s, u, id, p) && u.bundles == s.bundles && At(u, id, Surveying)
    ensures u.writers[id].unread == {} && Reads(g, s, p, t.writers[id], keys, u.writers[id].offer)
    decreases |t.writers[id].unread|
  {
    hide Inv, Enabled, Apply, Listing, Refusing, Goes, Holding, SameStore, Newcomer, SurveyOne, Next, ReadOf, Leq,
      ContextFor, Adoption.Consider, Reads;
    var v := t.writers[id];
    if v.unread == {} {
      GoesNowhere(g, t, id);
      steps, u, keys := [], t, [];
      NothingToRead(g, s, p, v);
    } else {
      var key := LeastKey(v.unread);
      NextIsUnread(v.unread, key);
      StoresAgree(s, t, id, p);
      HoldingIsPush(s, t, id, p);
      SurveyGoesOn(g, s, t, p, v, key);
      SurveyIsPossible(g, t, id, key);
      var m := SetWriter(t, id, SurveyOne(g, t, v, key));
      StillHolding(s, t, id, p, SurveyOne(g, t, v, key));
      GoesOnce(g, t, id, Survey(id, key), m);
      GoesIsSound(g, t, id, [Survey(id, key)], m);
      var rest, later;
      rest, u, later := SurveyAll(g, s, m, id, p);
      keys := [key] + later;
      ReadsNext(g, s, p, v, key, m.writers[id], later, u.writers[id].offer);
      GoesThen(g, t, id, [Survey(id, key)], m, rest, u);
      steps := [Survey(id, key)] + rest;
    }
  }

  lemma NothingToRead(g: Dag, s: State, p: Request, w: Writer)
    requires w.unread == {}
    ensures Reads(g, s, p, w, [], w.offer)
  {
    hide ReadOf, ContextOf, Newcomer;
  }

  lemma ReadsNext(g: Dag, s: State, p: Request, w: Writer, key: string, v: Writer, later: seq<string>,
    offer: seq<BundleRef>)
    requires Next(w.unread, key) && v.unread == w.unread - {key} && Reads(g, s, p, v, later, offer)
    requires Adoption.Consider(ContextFor(g, s, p), key, ReadOf(s, p.repo, key), w.offer) == Adoption.Holding(v.offer)
    ensures Reads(g, s, p, w, [key] + later, offer)
  {
    hide ReadOf, Adoption.Consider, ContextOf, Newcomer, Leq;
    var all := [key] + later;
    assert all[1..] == later;
    forall i, j | 0 <= i < j < |all| ensures Less(all[i], all[j]) {
      assert all[j] == later[j - 1] && later[j - 1] in later;
      if i > 0 { assert all[i] == later[i - 1]; }
    }
  }

  lemma HoldingIsPush(s: State, t: State, id: nat, p: Request)
    requires Holding(s, t, id, p)
    ensures id in t.writers && SamePush(Starter(s, p), t.writers[id])
  {
    hide HoldsLease, Newcomer;
  }

  lemma ListIsPossible(g: Dag, t: State, id: nat)
    requires At(t, id, Discovering)
    ensures Enabled(g, t, ListManifests(id))
    ensures Apply(g, t, ListManifests(id)) ==
      SetWriter(t, id, t.writers[id].(stage := Surveying, unread := Listing(t, t.writers[id].repo)))
  {
    hide CurrentAdmits, Next, Continues, InspectionAccepts, Policy, ParseRange, RangeEnd, Repository.Valid,
      SurveyOne, Listing, TakeCurrent, Append, Create, AcquireState, Newcomer, DeletedState, Unlock, LogOf;
  }

  lemma SettleIsPossible(g: Dag, t: State, id: nat)
    requires At(t, id, Surveying) && t.writers[id].unread == {}
    ensures Enabled(g, t, Settle(id))
    ensures Apply(g, t, Settle(id)) == SetWriter(t, id,
      t.writers[id].(stage := Working, bundles := t.writers[id].offer))
  {}

  // The whole pass, from discovery to the adopted list.
  lemma Adopt(g: Dag, s: State, t: State, id: nat, p: Request) returns (steps: seq<Step>, u: State, end: Hash)
    requires Inv(g, t) && Holding(s, t, id, p) && t.bundles == s.bundles && At(t, id, Discovering) && !Blocked(g, s, p)
    ensures Goes(g, t, id, steps, u) && InTurn(g, s, u, id, p, end) && u.bundles == s.bundles
  {
    hide Inv, Enabled, Apply, Listing, Blocked, Goes, Holding, SameStore, Newcomer, OfferSound, StartsAdopted,
      Reads;
    var v := t.writers[id];
    ListIsPossible(g, t, id);
    var listed := v.(stage := Surveying, unread := Listing(t, v.repo));
    var m := SetWriter(t, id, listed);
    HoldingIsPush(s, t, id, p);
    StarterIsPush(s, p);
    StoresAgree(s, t, id, p);
    SameListing(s, t, v.repo);
    StillHolding(s, t, id, p, listed);
    GoesOnce(g, t, id, ListManifests(id), m);
    GoesIsSound(g, t, id, [ListManifests(id)], m);
    EarlyFacts(g, t, id);
    var survey, read, keys := SurveyAll(g, s, m, id, p);
    WholeSurvey(g, s, p, listed, keys, read.writers[id].offer);
    GoesThen(g, t, id, [ListManifests(id)], m, survey, read);
    GoesIsSound(g, m, id, survey, read);
    SettleIsPossible(g, read, id);
    var settled := read.writers[id].(stage := Working, bundles := read.writers[id].offer);
    u := SetWriter(read, id, settled);
    HoldingIsPush(s, read, id, p);
    StillHolding(s, read, id, p, settled);
    GoesOnce(g, read, id, Settle(id), u);
    GoesThen(g, t, id, [ListManifests(id)] + survey, read, [Settle(id)], u);
    steps := [ListManifests(id)] + survey + [Settle(id)];
    EarlyFacts(g, read, id);
    end := ChainTip(g, settled.bundles);
    OfferEnds(g, read, read.writers[id]);
  }

  lemma WholeSurvey(g: Dag, s: State, p: Request, w: Writer, keys: seq<string>, offer: seq<BundleRef>)
    requires w.unread == Listing(s, p.repo) && w.offer == [] && Reads(g, s, p, w, keys, offer)
    ensures StartsAdopted(g, s, p, offer)
  {
    hide Listing, Leq, ContextFor, Reading, Newcomer, Adoption.Consider;
    Adoption.OnwardIsSurveyed(ContextFor(g, s, p), [], keys, Reading(s, p.repo));
    assert [] + keys == keys;
    assert Offers(g, s, p, keys, offer);
  }

  lemma OfferEnds(g: Dag, s: State, w: Writer)
    requires OfferSound(g, s, w)
    ensures var end := ChainTip(g, w.offer); if w.offer == [] then end == Zeros(g.width) else IsAncestor(g, end, w.tip)
  {
    hide Push.GoodChain, IsAncestor, Holds;
  }

  // ----- A legacy list -----

  // The first n descriptors of the list have been revalidated, the others are still to be.
  ghost predicate Revalidating(w: Writer, refs: seq<BundleRef>, n: nat) {
    && n <= |refs| && w.pending == refs[n..] && |w.bundles| == n
    && forall i | 0 <= i < n :: w.bundles[i].range == refs[i].range
  }

  lemma NextContinues(g: Dag, w: Writer, refs: seq<BundleRef>, n: nat, tip: Hash)
    requires Revalidating(w, refs, n) && n < |refs| && Linked(refs, Zeros(g.width), tip) && Ancestral(g, refs)
    ensures Continues(g, w, refs[n].range)
  {
    hide Reach, IsAncestor, Linked, ParseRange, RangeBase, RangeEnd, Zeros;
    LinkedAt(refs, Zeros(g.width), tip, n);
    assert Grounded(g, refs[n].range);
    if n > 0 {
      assert Grounded(g, refs[n - 1].range);
      EndIsNotZero(g, refs[n - 1].range);
    }
  }

  lemma InspectIsPossible(g: Dag, t: State, id: nat)
    requires At(t, id, Working) && t.writers[id].pending != []
      && Continues(g, t.writers[id], t.writers[id].pending[0].range)
    requires Inspectable(t.bundles, t.writers[id].pending[0])
    ensures t.writers[id].pending[0].key in t.bundles && Enabled(g, t, Inspect(id))
    ensures Apply(g, t, Inspect(id)) == SetWriter(t, id, Append(t, t.writers[id], t.writers[id].pending[0]))
  {
    hide CurrentAdmits, Next, Continues, InspectionAccepts, Policy, ParseRange, RangeEnd, Repository.Valid,
      SurveyOne, Listing, TakeCurrent, Append, Create, AcquireState, Newcomer, DeletedState, Unlock, LogOf;
  }

  lemma AppendRevalidates(g: Dag, t: State, w: Writer, refs: seq<BundleRef>, n: nat)
    requires Revalidating(w, refs, n) && n < |refs| && refs[n].key in t.bundles
    ensures Revalidating(Append(t, w, refs[n]), refs, n + 1) && SamePush(w, Append(t, w, refs[n]))
      && Append(t, w, refs[n]).stage == w.stage
  {
    assert refs[n..][1..] == refs[n + 1..];
  }

  lemma RevalidateOne(g: Dag, s: State, t: State, id: nat, p: Request, refs: seq<BundleRef>, n: nat, tip: Hash)
    returns (u: State)
    requires Inv(g, t) && Holding(s, t, id, p) && t.bundles == s.bundles && At(t, id, Working)
      && Revalidating(t.writers[id], refs, n)
    requires n < |refs| && Linked(refs, Zeros(g.width), tip) && Ancestral(g, refs) && Inspectable(s.bundles, refs[n])
    ensures Goes(g, t, id, [Inspect(id)], u) && Holding(s, u, id, p) && u.bundles == s.bundles && At(u, id, Working)
    ensures Revalidating(u.writers[id], refs, n + 1)
  {
    hide Inv, Enabled, Apply, Goes, Holding, Newcomer, Inspectable, Linked, Ancestral, Continues, Append;
    var v := t.writers[id];
    assert v.pending[0] == refs[n];
    NextContinues(g, v, refs, n, tip);
    InspectIsPossible(g, t, id);
    AppendRevalidates(g, t, v, refs, n);
    HoldingIsPush(s, t, id, p);
    SamePushTwice(Starter(s, p), v, Append(t, v, refs[n]));
    StillHolding(s, t, id, p, Append(t, v, refs[n]));
    u := SetWriter(t, id, Append(t, v, refs[n]));
    GoesOnce(g, t, id, Inspect(id), u);
  }

  lemma {:induction false} Revalidate(g: Dag, s: State, t: State, id: nat, p: Request, refs: seq<BundleRef>, n: nat,
    tip: Hash)
    returns (steps: seq<Step>, u: State)
    requires Inv(g, t) && Holding(s, t, id, p) && t.bundles == s.bundles && At(t, id, Working)
      && Revalidating(t.writers[id], refs, n)
    requires Linked(refs, Zeros(g.width), tip) && Ancestral(g, refs)
      && forall b | b in refs :: Inspectable(s.bundles, b)
    ensures Goes(g, t, id, steps, u) && Holding(s, u, id, p) && u.bundles == s.bundles && At(u, id, Working)
    ensures Revalidating(u.writers[id], refs, |refs|)
    decreases |refs| - n
  {
    hide Inv, Enabled, Apply, Goes, Holding, Inspectable, Linked, Ancestral, Revalidating;
    RevalidatingIsWithin(t.writers[id], refs, n);
    if n == |refs| {
      GoesNowhere(g, t, id);
      steps, u := [], t;
    } else {
      assert refs[n] in refs;
      var m := RevalidateOne(g, s, t, id, p, refs, n, tip);
      GoesIsSound(g, t, id, [Inspect(id)], m);
      var rest;
      rest, u := Revalidate(g, s, m, id, p, refs, n + 1, tip);
      GoesThen(g, t, id, [Inspect(id)], m, rest, u);
      steps := [Inspect(id)] + rest;
    }
  }

  lemma RevalidatingIsWithin(w: Writer, refs: seq<BundleRef>, n: nat)
    requires Revalidating(w, refs, n)
    ensures n <= |refs|
  {}

  lemma SamePushTwice(a: Writer, b: Writer, c: Writer)
    requires SamePush(a, b) && SamePush(b, c)
    ensures SamePush(a, c)
  {}

  // ----- Getting to the turn -----

  // What the record of an admitted push names, read in full.
  lemma CurrentIsPublished(g: Dag, s: State, repo: Repository)
    requires Inv(g, s) && RecordOf(s, repo).pointer != ""
    ensures Published(g, s, repo, RecordOf(s, repo).pointer)
  {
    hide WriterSound, ReaderSound, OwnerSound, StoreSound, Published, Authored, Advances, LogOf, RecordOf,
      Repository.Valid;
    assert LogSound(g, s, repo) && RecordSound(s, repo, RecordOf(s, repo));
  }

  lemma PublishedIsChain(g: Dag, s: State, repo: Repository, key: string)
    requires Published(g, s, repo, key)
    ensures var m := ManifestOf(s, key);
      && m.bundles != [] && Linked(m.bundles, Zeros(g.width), m.tip) && Ancestral(g, m.bundles)
      && RangeEnd(m.bundles[|m.bundles| - 1].range) == m.tip
  {
    hide Holds, ManifestPointer, Linked, Ancestral, RangeEnd, ValidBundleKey, Identified, DistinctEnds;
    CompleteEnd(ManifestOf(s, key), repo);
  }

  // The current list of an admitted push: a sound chain into the pushed history, that inspects if it is legacy.
  ghost predicate CurrentChain(g: Dag, s: State, p: Request, m: Manifest) {
    && m.bundles != [] && Linked(m.bundles, Zeros(g.width), m.tip) && Ancestral(g, m.bundles)
    && RangeEnd(m.bundles[|m.bundles| - 1].range) == m.tip && IsAncestor(g, m.tip, p.tip)
    && (m.legacy ==> forall b | b in m.bundles :: Inspectable(s.bundles, b))
  }

  lemma AdmittedHasChain(g: Dag, s: State, p: Request)
    requires Inv(g, s) && Starter(s, p).prior != "" && Admitted(g, s, p) && Starter(s, p).prior in s.archive
    ensures CurrentChain(g, s, p, ManifestOf(s, Starter(s, p).prior))
  {
    hide Inv, Newcomer, RecordOf, CurrentAdmits, Blocked, Inspectable, Published, Linked, Ancestral, RangeEnd,
      IsAncestor;
    StarterReadsRecord(s, p);
    StarterIsPush(s, p);
    CurrentIsPublished(g, s, p.repo);
    PublishedIsChain(g, s, p.repo, Starter(s, p).prior);
    CurrentIsAncestor(g, s, Starter(s, p));
  }

  lemma TurnAfterLegacy(g: Dag, s: State, u: State, id: nat, p: Request, m: Manifest)
    returns (steps: seq<Step>, t: State)
    requires Inv(g, u) && Holding(s, u, id, p) && u.bundles == s.bundles && CurrentChain(g, s, p, m) && m.legacy
    requires At(u, id, Working) && Revalidating(u.writers[id], m.bundles, 0) && Starter(s, p).prior != ""
    ensures Goes(g, u, id, steps, t) && InTurn(g, s, t, id, p, m.tip) && t.bundles == s.bundles
  {
    hide Inv, Enabled, Apply, Goes, Holding, InTurn, Revalidating, Inspectable, Linked, Ancestral, IsAncestor,
      StartsAdopted, Newcomer, RangeEnd, ChainTip;
    steps, t := Revalidate(g, s, u, id, p, m.bundles, 0, m.tip);
    LegacyTurn(g, s, t, id, p, m);
  }

  lemma LegacyTurn(g: Dag, s: State, t: State, id: nat, p: Request, m: Manifest)
    requires Holding(s, t, id, p) && At(t, id, Working) && Revalidating(t.writers[id], m.bundles, |m.bundles|)
    requires CurrentChain(g, s, p, m) && Starter(s, p).prior != ""
    ensures InTurn(g, s, t, id, p, m.tip)
  {
    hide Holding, InTurn, Revalidating, Inspectable, Linked, Ancestral, IsAncestor, StartsAdopted, Newcomer, RangeEnd,
      ChainTip;
    RevalidatedEnds(g, t.writers[id], m.bundles);
    NothingToAdopt(g, s, p, t.writers[id].bundles);
    TurnHasCome(g, s, t, id, p, m.tip);
  }

  lemma NothingToAdopt(g: Dag, s: State, p: Request, bundles: seq<BundleRef>)
    requires Starter(s, p).prior != ""
    ensures StartsAdopted(g, s, p, bundles)
  {}

  lemma TurnAtOnce(g: Dag, s: State, u: State, id: nat, p: Request, m: Manifest)
    requires Holding(s, u, id, p) && CurrentChain(g, s, p, m) && At(u, id, Working)
    requires u.writers[id].bundles == m.bundles && u.writers[id].pending == [] && Starter(s, p).prior != ""
    ensures InTurn(g, s, u, id, p, m.tip)
  {
    hide Holding, InTurn, Inspectable, Linked, Ancestral, IsAncestor, RangeEnd;
    TurnHasCome(g, s, u, id, p, m.tip);
  }

  // With a current list, modern or legacy, the turn comes once it is read and, if legacy, revalidated.
  lemma TurnAfterCurrent(g: Dag, s: State, u: State, id: nat, p: Request)
    returns (steps: seq<Step>, t: State, end: Hash)
    requires Inv(g, s) && Inv(g, u) && Holding(s, u, id, p) && u.bundles == s.bundles && Starter(s, p).prior != ""
      && Admitted(g, s, p)
    requires Starter(s, p).prior in s.archive && u.writers[id] == TakeCurrent(s, Starter(s, p))
    ensures Goes(g, u, id, steps, t) && InTurn(g, s, t, id, p, end) && t.bundles == s.bundles
  {
    hide Inv, Goes, Newcomer, Admitted, CurrentChain, InTurn, HoldsLease, Revalidating;
    StarterIsPush(s, p);
    AdmittedHasChain(g, s, p);
    var m := ManifestOf(s, Starter(s, p).prior);
    end := m.tip;
    if m.legacy {
      LegacyStarts(Starter(s, p), m.bundles, u.writers[id]);
      steps, t := TurnAfterLegacy(g, s, u, id, p, m);
    } else {
      GoesNowhere(g, u, id);
      steps, t := [], u;
      TurnAtOnce(g, s, u, id, p, m);
    }
  }

  lemma LegacyStarts(w: Writer, refs: seq<BundleRef>, v: Writer)
    requires w.bundles == [] && v == w.(stage := Working, pending := refs)
    ensures Revalidating(v, refs, 0)
  {}

  // An admitted push gets its turn: by an adoption pass, a revalidated legacy list, or the current list as it is.
  lemma TakeTurn(g: Dag, s: State, id: nat, p: Request) returns (steps: seq<Step>, t: State, end: Hash)
    requires Inv(g, s) && id !in s.writers && p.repo.Valid() && p.branch != "" && p.tip in g.parents
      && Admitted(g, s, p)
    ensures Goes(g, s, id, steps, t) && steps != [] && steps[0] == StartOf(id, p)
    ensures InTurn(g, s, t, id, p, end) && t.bundles == s.bundles
  {
    hide Inv, Enabled, Apply, Goes, Holding, Newcomer, RecordOf, Repository.Valid, CurrentAdmits, Blocked, Inspectable,
      InTurn;
    StarterReadsRecord(s, p);
    StarterIsPush(s, p);
    var first, u := TakeAndRead(g, s, id, p);
    GoesIsSound(g, s, id, first, u);
    HoldingIsPush(s, u, id, p);
    var rest;
    if Starter(s, p).prior == "" {
      rest, t, end := Adopt(g, s, u, id, p);
    } else {
      rest, t, end := TurnAfterCurrent(g, s, u, id, p);
    }
    GoesThen(g, s, id, first, u, rest, t);
    steps := first + rest;
  }

  lemma CurrentIsAncestor(g: Dag, s: State, w: Writer)
    requires CurrentAdmits(g, s, w) && w.prior != ""
    ensures w.prior in s.archive && IsAncestor(g, s.archive[w.prior].manifest.tip, w.tip)
  {
    hide IsAncestor;
  }

  lemma RevalidatedEnds(g: Dag, w: Writer, refs: seq<BundleRef>)
    requires Revalidating(w, refs, |refs|) && refs != []
    ensures w.pending == [] && w.bundles != [] && ChainTip(g, w.bundles) == RangeEnd(refs[|refs| - 1].range)
  {
    hide RangeEnd;
    var last: nat := |refs| - 1;
    assert w.bundles[last].range == refs[last].range;
  }

  lemma TurnHasCome(g: Dag, s: State, t: State, id: nat, p: Request, end: Hash)
    requires Holding(s, t, id, p) && At(t, id, Working) && t.writers[id].pending == [] && t.writers[id].bundles != []
    requires StartsAdopted(g, s, p, t.writers[id].bundles)
    requires ChainTip(g, t.writers[id].bundles) == end && IsAncestor(g, end, p.tip)
    ensures InTurn(g, s, t, id, p, end)
  {
    hide IsAncestor, HoldsLease, Newcomer;
  }

  // ----- The ranges -----

  // One range of a splitting of the remaining history, with the object that holds it if it has to be uploaded.
  datatype Piece = Piece(name: string, size: int, etag: string)

  function RefFor(p: Request, name: string): BundleRef {
    BundleRef(name, p.repo.BundleKey(p.tip, name), 0, "", p.policy)
  }

  // The range can be recorded: an object left behind by an earlier attempt carries this push's tip and inspects, or
  // there is none and the new one has a size and a tag.
  ghost predicate Storable(bundles: map<string, StoredBundle>, p: Request, x: Piece) {
    var ref := RefFor(p, x.name);
    if ref.key in bundles then bundles[ref.key].pushTip == p.tip && Inspectable(bundles, ref)
      else x.size > 0 && x.etag != ""
  }

  // The pieces lead along ancestry from base to the pushed tip.
  ghost predicate Covers(g: Dag, bundles: map<string, StoredBundle>, p: Request, base: Hash, pieces: seq<Piece>)
    decreases |pieces|
  {
    if pieces == [] then base == p.tip else
      var x := pieces[0];
      && Leads(g, p, base, x.name) && Storable(bundles, p, x)
      && Covers(g, bundles, p, RangeEnd(x.name), pieces[1..])
  }

  predicate Leads(g: Dag, p: Request, base: Hash, name: string) {
    && ParseRange(name).Some? && RangeBase(name) == base && RangeEnd(name) in g.parents
      && IsAncestor(g, RangeEnd(name), p.tip)
    && (base == Zeros(g.width) || IsAncestor(g, base, RangeEnd(name)))
  }

  // A way to cut the history of the push from wherever its list ends.
  ghost predicate Splitting(g: Dag, bundles: map<string, StoredBundle>, p: Request, cut: Hash -> seq<Piece>) {
    forall base :: base == Zeros(g.width) || IsAncestor(g, base, p.tip) ==> Covers(g, bundles, p, base, cut(base))
  }

  function Made(p: Request, x: Piece): StoredBundle {
    StoredBundle(x.name, x.size, x.etag, p.tip, p.policy)
  }

  lemma MadeIsInspectable(bundles: map<string, StoredBundle>, p: Request, x: Piece)
    requires var ref := RefFor(p, x.name); ref.key in bundles && bundles[ref.key] == Made(p, x)
    requires x.size > 0 && x.etag != "" && Policy(p.policy)
    ensures Inspectable(bundles, RefFor(p, x.name))
  {
    hide Policy;
  }

  // Adding this push's own object leaves every other range as recordable as it was.
  lemma {:induction false} CoversLater(g: Dag, bundles: map<string, StoredBundle>, p: Request, x: Piece, base: Hash,
    pieces: seq<Piece>)
    requires Covers(g, bundles, p, base, pieces) && RefFor(p, x.name).key !in bundles
    requires x.size > 0 && x.etag != "" && Policy(p.policy)
    ensures Covers(g, bundles[RefFor(p, x.name).key := Made(p, x)], p, base, pieces)
    decreases |pieces|
  {
    hide Policy, Leads, RangeEnd, Inspectable;
    if pieces != [] {
      StorableLater(bundles, p, x, pieces[0]);
      CoversLater(g, bundles, p, x, RangeEnd(pieces[0].name), pieces[1..]);
    }
  }

  lemma StorableLater(bundles: map<string, StoredBundle>, p: Request, x: Piece, y: Piece)
    requires Storable(bundles, p, y) && RefFor(p, x.name).key !in bundles && x.size > 0 && x.etag != ""
      && Policy(p.policy)
    ensures Storable(bundles[RefFor(p, x.name).key := Made(p, x)], p, y)
  {
    hide Policy, Repository.BundleKey;
    var after := bundles[RefFor(p, x.name).key := Made(p, x)];
    if RefFor(p, y.name).key == RefFor(p, x.name).key {
      SameKeySameName(p, x.name, y.name);
      MadeIsInspectable(after, p, x);
    }
  }

  lemma SameKeySameName(p: Request, a: string, b: string)
    requires p.repo.BundleKey(p.tip, a) == p.repo.BundleKey(p.tip, b)
    ensures a == b
  {
    BundleKeyTail(p.repo, p.tip, a);
    BundleKeyTail(p.repo, p.tip, b);
    PrefixDrops(p.repo.Bundles(), p.tip + "/" + a);
    PrefixDrops(p.repo.Bundles(), p.tip + "/" + b);
    PrefixDrops(p.tip + "/", a);
    PrefixDrops(p.tip + "/", b);
  }

  lemma UploadIsPossible(g: Dag, t: State, id: nat, p: Request, x: Piece)
    requires At(t, id, Working) && t.writers[id].pending == [] && SamePushAs(t.writers[id], p)
    requires ParseRange(x.name).Some? && RangeEnd(x.name) in g.parents && x.size > 0 && x.etag != "" && Policy(p.policy)
    ensures var step := Upload(id, x.name, x.size, x.etag);
      Enabled(g, t, step) && Apply(g, t, step) == Create(t, RefFor(p, x.name).key, Made(p, x))
  {
    hide Repository.BundleKey, CurrentAdmits, Next, Continues, InspectionAccepts, Policy, ParseRange, RangeEnd,
      Repository.Valid, SurveyOne, Listing, TakeCurrent, Append, Create, AcquireState, Newcomer, DeletedState,
      Unlock, LogOf;

  }

  predicate SamePushAs(w: Writer, p: Request) {
    w.repo == p.repo && w.branch == p.branch && w.tip == p.tip && w.chains == p.chains && w.policy == p.policy
  }

  lemma RecordIsPossible(g: Dag, t: State, id: nat, p: Request, name: string)
    requires At(t, id, Working) && t.writers[id].pending == [] && SamePushAs(t.writers[id], p)
    requires Continues(g, t.writers[id], name)
    requires RefFor(p, name).key in t.bundles && t.bundles[RefFor(p, name).key].pushTip == p.tip
      && Inspectable(t.bundles, RefFor(p, name))
    ensures var step := RecordRange(id, name);
      Enabled(g, t, step) && Apply(g, t, step) == SetWriter(t, id, Append(t, t.writers[id], RefFor(p, name)))
  {
    hide Repository.BundleKey, CurrentAdmits, Next, Continues, InspectionAccepts, Policy, ParseRange, RangeEnd,
      Repository.Valid, SurveyOne, Listing, TakeCurrent, Append, Create, AcquireState, Newcomer, DeletedState,
      Unlock, LogOf;
    assert OwnRef(t.writers[id], name) == RefFor(p, name);
  }

  lemma TurnIsPush(g: Dag, s: State, t: State, id: nat, p: Request, end: Hash)
    requires InTurn(g, s, t, id, p, end)
    ensures At(t, id, Working) && Holding(s, t, id, p) && SamePushAs(t.writers[id], p) && t.writers[id].pending == []
  {
    hide IsAncestor, HoldsLease, RecordOf;
  }

  lemma TurnStartsAdopted(g: Dag, s: State, t: State, id: nat, p: Request, end: Hash)
    requires InTurn(g, s, t, id, p, end)
    ensures StartsAdopted(g, s, p, t.writers[id].bundles)
  {
    hide IsAncestor, Holding, StartsAdopted;
  }

  lemma LeadsContinues(g: Dag, s: State, t: State, id: nat, p: Request, end: Hash, name: string)
    requires InTurn(g, s, t, id, p, end) && Leads(g, p, end, name) && p.tip in g.parents
    ensures Continues(g, t.writers[id], name)
  {
    hide IsAncestor, HoldsLease, Newcomer, ParseRange, RangeBase, RangeEnd;
    if t.writers[id].bundles != [] { AncestorIsNotZero(g, end, p.tip); }
  }

  lemma AncestorIsNotZero(g: Dag, a: Hash, c: Hash)
    requires IsAncestor(g, a, c)
    ensures a != Zeros(g.width)
  {}

  // With the object in place the range is recorded, and the turn goes on from its end.
  lemma RecordOne(g: Dag, s: State, t: State, id: nat, p: Request, end: Hash, name: string) returns (u: State)
    requires Inv(g, t) && InTurn(g, s, t, id, p, end) && Leads(g, p, end, name) && p.tip in g.parents
    requires RefFor(p, name).key in t.bundles && t.bundles[RefFor(p, name).key].pushTip == p.tip
      && Inspectable(t.bundles, RefFor(p, name))
    ensures Goes(g, t, id, [RecordRange(id, name)], u) && InTurn(g, s, u, id, p, RangeEnd(name))
      && u.bundles == t.bundles
  {
    hide Inv, Enabled, Apply, Goes, Holding, Newcomer, Inspectable, Continues, Append, InTurn, Leads, StartsAdopted;
    TurnIsPush(g, s, t, id, p, end);
    TurnStartsAdopted(g, s, t, id, p, end);
    LeadsContinues(g, s, t, id, p, end, name);
    RecordIsPossible(g, t, id, p, name);
    var v := Append(t, t.writers[id], RefFor(p, name));
    AppendedEnds(g, t, t.writers[id], RefFor(p, name));
    AdoptedStaysFirst(g, s, p, t.writers[id].bundles, v.bundles);
    HoldingIsPush(s, t, id, p);
    SamePushTwice(Starter(s, p), t.writers[id], v);
    StillHolding(s, t, id, p, v);
    u := SetWriter(t, id, v);
    GoesOnce(g, t, id, RecordRange(id, name), u);
    LeadsOn(g, p, end, name);
    TurnHasCome(g, s, u, id, p, RangeEnd(name));
  }

  lemma LeadsOn(g: Dag, p: Request, end: Hash, name: string)
    requires Leads(g, p, end, name)
    ensures IsAncestor(g, RangeEnd(name), p.tip) && ParseRange(name).Some? && RangeEnd(name) in g.parents
  {
    hide IsAncestor, ParseRange, RangeEnd, RangeBase;
  }

  lemma AppendedEnds(g: Dag, t: State, w: Writer, ref: BundleRef)
    requires w.stage == Working && w.pending == [] && ref.key in t.bundles
    ensures var v := Append(t, w, ref);
      && v.stage == Working && v.pending == [] && v.bundles != [] && ChainTip(g, v.bundles) == RangeEnd(ref.range)
        && SamePush(w, v) && w.bundles <= v.bundles
  {
    hide RangeEnd;
  }

  // The object of a range nobody stored yet is created first.
  lemma UploadFirst(g: Dag, s: State, t: State, id: nat, p: Request, end: Hash, x: Piece) returns (u: State)
    requires Inv(g, t) && InTurn(g, s, t, id, p, end) && Leads(g, p, end, x.name) && p.tip in g.parents
      && p.repo.Valid()
    requires RefFor(p, x.name).key !in t.bundles && x.size > 0 && x.etag != "" && Policy(p.policy)
    ensures Goes(g, t, id, [Upload(id, x.name, x.size, x.etag)], u) && InTurn(g, s, u, id, p, end)
    ensures u.bundles == t.bundles[RefFor(p, x.name).key := Made(p, x)]
  {
    hide Inv, Enabled, Apply, Goes, Policy, InTurn, Leads, Repository.Valid, Repository.BundleKey, ParseRange, RangeEnd,
      StartsAdopted, Holding;
    TurnIsPush(g, s, t, id, p, end);
    LeadsOn(g, p, end, x.name);
    UploadIsPossible(g, t, id, p, x);
    InvHasStore(g, t);
    BundleKeyIsFree(g, t, p.repo, p.tip, x.name);
    u := Create(t, RefFor(p, x.name).key, Made(p, x));
    GoesOnce(g, t, id, Upload(id, x.name, x.size, x.etag), u);
    TurnSurvivesUpload(g, s, t, id, p, end, RefFor(p, x.name).key, Made(p, x));
  }

  lemma TurnSurvivesUpload(g: Dag, s: State, t: State, id: nat, p: Request, end: Hash, key: string, held: StoredBundle)
    requires InTurn(g, s, t, id, p, end)
    ensures InTurn(g, s, Create(t, key, held), id, p, end)
  {
    hide IsAncestor, Newcomer, StartsAdopted;
  }

  // Every piece in turn, reused or uploaded, until the list covers the pushed history.
  lemma {:induction false} StoreAll(g: Dag, s: State, t: State, id: nat, p: Request, end: Hash, pieces: seq<Piece>)
    returns (steps: seq<Step>, u: State)
    requires Inv(g, t) && InTurn(g, s, t, id, p, end) && p.tip in g.parents && p.repo.Valid() && Policy(p.policy)
    requires Covers(g, t.bundles, p, end, pieces)
    ensures Goes(g, t, id, steps, u) && InTurn(g, s, u, id, p, p.tip)
    decreases |pieces|
  {
    hide Inv, Enabled, Apply, Goes, Policy, InTurn, Leads, Repository.Valid, Inspectable, RangeEnd, RefFor, Made;
    if pieces == [] {
      GoesNowhere(g, t, id);
      steps, u := [], t;
    } else {
      var x, key := pieces[0], RefFor(p, pieces[0].name).key;
      var first: seq<Step>, m := [], t;
      GoesNowhere(g, t, id);
      if key !in t.bundles {
        first := [Upload(id, x.name, x.size, x.etag)];
        m := UploadFirst(g, s, t, id, p, end, x);
        CoversLater(g, t.bundles, p, x, RangeEnd(x.name), pieces[1..]);
        MadeIsStored(p, x);
        MadeIsInspectable(m.bundles, p, x);
      }
      GoesIsSound(g, t, id, first, m);
      var r := RecordOne(g, s, m, id, p, end, x.name);
      GoesThen(g, t, id, first, m, [RecordRange(id, x.name)], r);
      GoesIsSound(g, m, id, [RecordRange(id, x.name)], r);
      var rest;
      rest, u := StoreAll(g, s, r, id, p, RangeEnd(x.name), pieces[1..]);
      GoesThen(g, t, id, first + [RecordRange(id, x.name)], r, rest, u);
      steps := first + [RecordRange(id, x.name)] + rest;
    }
  }

  lemma MadeIsStored(p: Request, x: Piece)
    ensures Made(p, x).pushTip == p.tip
  {}

  // ----- Publishing -----

  lemma PutIsPossible(g: Dag, t: State, id: nat, uuid: string)
    requires At(t, id, Working) && var w := t.writers[id];
      w.pending == [] && w.bundles != [] && ChainTip(g, w.bundles) == w.tip
      && '/' !in uuid && Adoption.ManifestKey(w.repo, w.tip, uuid) !in t.archive
    ensures var w := t.writers[id];
      Enabled(g, t, PutManifest(id, uuid)) && Apply(g, t, PutManifest(id, uuid)) ==
        PutState(t, id, Adoption.ManifestKey(w.repo, w.tip, uuid))
  {
    hide ChainTip, Adoption.ManifestKey, PutState, CurrentAdmits, Next, Continues, InspectionAccepts, Policy,
      ParseRange, RangeEnd, Repository.Valid, SurveyOne, Listing, TakeCurrent, Append, Create, AcquireState,
      Newcomer, DeletedState, Unlock, LogOf;
  }

  lemma CommitIsPossible(g: Dag, m: State, id: nat)
    requires At(m, id, Manifested) && HoldsLease(m, id)
    ensures Enabled(g, m, CommitAcknowledged(id)) && Apply(g, m, CommitAcknowledged(id)) == Publish(m, id, Committed)
  {
    hide RecordOf, Publish, CurrentAdmits, Next, Continues, InspectionAccepts, Policy, ParseRange, RangeEnd,
      Repository.Valid, SurveyOne, Listing, TakeCurrent, Append, Create, AcquireState, Newcomer, DeletedState,
      Unlock, LogOf;

  }

  // The list is complete: what a writer in its turn at the pushed tip has.
  lemma TurnIsComplete(g: Dag, s: State, t: State, id: nat, p: Request)
    requires InTurn(g, s, t, id, p, p.tip) && p.tip in g.parents
    ensures var w := t.writers[id];
      w.pending == [] && w.bundles != [] && ChainTip(g, w.bundles) == w.tip && SamePushAs(w, p)
    ensures At(t, id, Working) && HoldsLease(t, id) && t.archive == s.archive && t.log == s.log
  {
    hide IsAncestor, RecordOf, HoldsLease;
    assert p.tip != Zeros(g.width);
  }

  // What landing means: the record names the new manifest, for this branch and tip, as the next of its history; the
  // list it replaces is gone, and if it replaces none, it starts with the bundles adoption decides on.
  ghost predicate Lands(g: Dag, s: State, t: State, p: Request, key: string) {
    && RecordOf(t, p.repo) == Record(key, p.branch, None)
    && key in t.archive && t.archive[key].manifest.tip == p.tip && t.archive[key].manifest.branch == p.branch
    && LogOf(t, p.repo) == LogOf(s, p.repo) + [key]
    && (RecordOf(s, p.repo).pointer != "" ==> RecordOf(s, p.repo).pointer !in t.live)
    && StartsAdopted(g, s, p, t.archive[key].manifest.bundles)
  }

  lemma PutList(g: Dag, s: State, t: State, id: nat, p: Request, uuid: string) returns (u: State)
    requires Inv(g, t) && InTurn(g, s, t, id, p, p.tip) && p.tip in g.parents
    requires '/' !in uuid && Adoption.ManifestKey(p.repo, p.tip, uuid) !in s.archive
    ensures var key := Adoption.ManifestKey(p.repo, p.tip, uuid);
      && Goes(g, t, id, [PutManifest(id, uuid)], u) && u == PutState(t, id, key)
      && At(u, id, Manifested) && HoldsLease(u, id) && u.writers[id].repo == p.repo && u.writers[id].branch == p.branch
      && u.writers[id].newKey == key && u.writers[id].prior == t.writers[id].prior && u.log == s.log
      && u.archive == s.archive[key := Written(t.writers[id], id)] && key in u.live
        && RecordOf(u, p.repo) == RecordOf(t, p.repo)
  {
    hide Inv, Enabled, Apply, Goes, InTurn, Adoption.ManifestKey, ChainTip, Written, RecordOf;
    TurnIsComplete(g, s, t, id, p);
    PutIsPossible(g, t, id, uuid);
    u := PutState(t, id, Adoption.ManifestKey(p.repo, p.tip, uuid));
    SameRecords(t, u, p.repo);
    GoesOnce(g, t, id, PutManifest(id, uuid), u);
  }

  lemma WrittenIs(w: Writer, id: nat)
    ensures Written(w, id).manifest.tip == w.tip && Written(w, id).manifest.branch == w.branch
      && Written(w, id).writer == Some(id) && Written(w, id).manifest.bundles == w.bundles
  {}

  lemma SameLogs(s: State, t: State, repo: Repository)
    requires t.log == s.log
    ensures LogOf(t, repo) == LogOf(s, repo)
  {}

  lemma Finish(g: Dag, s: State, t: State, id: nat, p: Request, uuid: string) returns (steps: seq<Step>, u: State)
    requires Inv(g, t) && InTurn(g, s, t, id, p, p.tip) && p.tip in g.parents
    requires '/' !in uuid && Adoption.ManifestKey(p.repo, p.tip, uuid) !in s.archive
    ensures Goes(g, t, id, steps, u) && Lands(g, s, u, p, Adoption.ManifestKey(p.repo, p.tip, uuid))
  {
    hide Inv, Enabled, Apply, Goes, InTurn, Adoption.ManifestKey, Written, RecordOf, LogOf, PutState, Publish,
      HoldsLease;
    TurnIsPush(g, s, t, id, p, p.tip);
    TurnStartsAdopted(g, s, t, id, p, p.tip);
    var m := PutList(g, s, t, id, p, uuid);
    WrittenIs(t.writers[id], id);
    GoesIsSound(g, t, id, [PutManifest(id, uuid)], m);
    CommitIsPossible(g, m, id);
    var c := Publish(m, id, Committed);
    PublishShape(m, id, Committed);
    SameLogs(s, m, p.repo);
    GoesOnce(g, m, id, CommitAcknowledged(id), c);
    GoesThen(g, t, id, [PutManifest(id, uuid)], m, [CommitAcknowledged(id)], c);
    GoesIsSound(g, m, id, [CommitAcknowledged(id)], c);
    DeleteIsPossible(g, c, id);
    u := DeletedState(c, id);
    OldIsGone(s, t, c, id, p);
    GoesOnce(g, c, id, DeleteOld(id), u);
    GoesThen(g, t, id, [PutManifest(id, uuid)] + [CommitAcknowledged(id)], c, [DeleteOld(id)], u);
    steps := [PutManifest(id, uuid)] + [CommitAcknowledged(id)] + [DeleteOld(id)];
  }

  lemma DeleteIsPossible(g: Dag, c: State, id: nat)
    requires At(c, id, Committed)
    ensures Enabled(g, c, DeleteOld(id)) && Apply(g, c, DeleteOld(id)) == DeletedState(c, id)
  {
    hide RecordOf, Publish, CurrentAdmits, Next, Continues, InspectionAccepts, Policy, ParseRange, RangeEnd,
      Repository.Valid, SurveyOne, Listing, TakeCurrent, Append, Create, AcquireState, Newcomer, DeletedState,
      Unlock, LogOf;
  }

  // The list this push read is no longer there, and nothing else of what was published has changed.
  lemma OldIsGone(s: State, t: State, c: State, id: nat, p: Request)
    requires Holding(s, t, id, p) && id in c.writers && c.writers[id].prior == t.writers[id].prior
    ensures var u := DeletedState(c, id);
      && (RecordOf(s, p.repo).pointer != "" ==> RecordOf(s, p.repo).pointer !in u.live) && u.archive == c.archive
      && RecordOf(u, p.repo) == RecordOf(c, p.repo) && LogOf(u, p.repo) == LogOf(c, p.repo)
  {
    hide HoldsLease;
    StarterReadsRecord(s, p);
  }

  // ----- The theorems -----

  // What every push brings along, and a way to cut its history that the store can serve.
  ghost predicate Prepared(g: Dag, s: State, p: Request, cut: Hash -> seq<Piece>, uuid: string) {
    && p.repo.Valid() && p.branch != "" && p.tip in g.parents && Policy(p.policy) && Splitting(g, s.bundles, p, cut)
    && '/' !in uuid && Adoption.ManifestKey(p.repo, p.tip, uuid) !in s.archive
  }

  // An admitted push left alone lands, from every sound state, whoever crashed in it holding the lease.
  lemma AdmittedPushLands(g: Dag, s: State, id: nat, p: Request, cut: Hash -> seq<Piece>, uuid: string)
    returns (steps: seq<Step>, t: State)
    requires Inv(g, s) && id !in s.writers && Prepared(g, s, p, cut, uuid) && Admitted(g, s, p)
    ensures Undisturbed(g, s, p, id, steps, t) && Inv(g, t)
    ensures Lands(g, s, t, p, Adoption.ManifestKey(p.repo, p.tip, uuid))
  {
    hide Inv, Enabled, Apply, Admitted, InTurn, Covers, Policy, Repository.Valid, Adoption.ManifestKey, Lands, Reaches;
    var first, turn, end := TakeTurn(g, s, id, p);
    var u: State;
    u, steps, t := LandFromTurn(g, s, turn, id, p, end, cut(end), uuid, first);
  }

  lemma LandFromTurn(g: Dag, s: State, turn: State, id: nat, p: Request, end: Hash, pieces: seq<Piece>, uuid: string,
    first: seq<Step>)
    returns (u: State, steps: seq<Step>, t: State)
    requires Goes(g, s, id, first, turn) && first != [] && InTurn(g, s, turn, id, p, end) && turn.bundles == s.bundles
    requires p.repo.Valid() && p.tip in g.parents && Policy(p.policy)
    requires '/' !in uuid && Adoption.ManifestKey(p.repo, p.tip, uuid) !in s.archive
    requires (end == Zeros(g.width) || IsAncestor(g, end, p.tip)) ==> Covers(g, s.bundles, p, end, pieces)
    ensures Goes(g, s, id, steps, t) && steps != [] && steps[0] == first[0]
      && Lands(g, s, t, p, Adoption.ManifestKey(p.repo, p.tip, uuid))
  {
    hide Inv, Enabled, Apply, InTurn, Goes, Covers, Policy, Repository.Valid, Adoption.ManifestKey, Lands;
    GoesIsSound(g, s, id, first, turn);
    TurnEnd(g, s, turn, id, p, end);
    var stored;
    stored, u := StoreAll(g, s, turn, id, p, end, pieces);
    GoesIsSound(g, turn, id, stored, u);
    GoesThen(g, s, id, first, turn, stored, u);
    var last;
    last, t := Finish(g, s, u, id, p, uuid);
    GoesThen(g, s, id, first + stored, u, last, t);
    steps := first + stored + last;
  }

  lemma TurnEnd(g: Dag, s: State, t: State, id: nat, p: Request, end: Hash)
    requires InTurn(g, s, t, id, p, end)
    ensures end == Zeros(g.width) || IsAncestor(g, end, p.tip)
  {
    hide IsAncestor, HoldsLease, Newcomer;
  }

  // A push left alone publishes something if and only if it is admitted.
  lemma LandsIffAdmitted(g: Dag, s: State, id: nat, p: Request, cut: Hash -> seq<Piece>, uuid: string)
    requires Inv(g, s) && id !in s.writers && Prepared(g, s, p, cut, uuid)
    ensures Admitted(g, s, p) <==> exists steps, t ::
      Undisturbed(g, s, p, id, steps, t) && LogOf(t, p.repo) != LogOf(s, p.repo)
  {
    hide Inv, Prepared, Admitted, Undisturbed, LogOf;
    if Admitted(g, s, p) {
      var steps, t := AdmittedPushLands(g, s, id, p, cut, uuid);
      assert Lands(g, s, t, p, Adoption.ManifestKey(p.repo, p.tip, uuid));
    }
    if exists steps, t :: Undisturbed(g, s, p, id, steps, t) && LogOf(t, p.repo) != LogOf(s, p.repo) {
      var steps, t :| Undisturbed(g, s, p, id, steps, t) && LogOf(t, p.repo) != LogOf(s, p.repo);
      if !Admitted(g, s, p) {
        NotAdmittedNeverLands(g, s, p, id, steps, t);
        SameLogs(s, t, p.repo);
      }
    }
  }
}
