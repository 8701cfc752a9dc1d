/** Publication: writers, readers and sibling repositories over one object store and one record table. */
module Protocol {
  import opened Wrappers
  import opened Names
  import opened Commits
  import opened Ordering
  import opened Chains
  import opened Manifests
  import Adoption

  // ----- Remote state -----

  // An encrypted bundle object: what it really carries, its identity, its push tip and its envelope's recipients.
  datatype StoredBundle = StoredBundle(range: string, size: int, etag: string, pushTip: Hash, recipients: seq<string>)

  // Bundles and manifests share one key space; a delete removes whatever its key names.

  // A repository's leased record. The owner is the identity of the writer whose token is stored.
  datatype Record = Record(pointer: string, branch: string, owner: Option<nat>)

  // Every manifest object ever created; writer None means it was there before.
  datatype Archived = Archived(manifest: Manifest, writer: Option<nat>)

  // ----- Participants -----

  // Discovering and Surveying are the adoption pass of a push to an empty destination.
  datatype WriterStage = Locked | Discovering | Surveying | Working | Manifested | Committed | Stopped

  // One push. Its identity is its lease token, never reused. chains and policy are the key chains committed at its tip
  // and the fingerprints it encrypts to; unread and offer are what its adoption pass has still to read and has found.
  datatype Writer = Writer(
    repo: Repository, branch: string, tip: Hash, chains: seq<seq<string>>, policy: seq<string>,
    prior: string, seenBranch: string, stage: WriterStage, unread: set<string>, offer: seq<BundleRef>,
    bundles: seq<BundleRef>, pending: seq<BundleRef>, newKey: string, landed: bool)

  datatype ReaderStage = AtRecord | AtManifest | Returned | Empty | LostPointer | ChangedBranch | Exhausted

  // One metadata read. started and seen count the publications at its start and at its last record read.
  datatype Reader = Reader(
    repo: Repository, stage: ReaderStage, attempt: nat, missed: bool, pointer: string, branch: string,
    started: nat, seen: nat)

  datatype State = State(
    bundles: map<string, StoredBundle>,
    archive: map<string, Archived>,
    live: set<string>,
    records: map<Repository, Record>,
    log: map<Repository, seq<string>>,
    writers: map<nat, Writer>,
    readers: map<nat, Reader>)

  const MAXIMUM_ATTEMPTS: nat := 3

  function RecordOf(s: State, repo: Repository): Record {
    if repo in s.records then s.records[repo] else Record("", "", None)
  }

  // The pointers one repository has published, oldest first.
  function LogOf(s: State, repo: Repository): seq<string> {
    if repo in s.log then s.log[repo] else []
  }

  // ----- Descriptors and objects -----

  // b is a with any missing identity or policy filled in.
  predicate Enriches(a: BundleRef, b: BundleRef) {
    && a.range == b.range && a.key == b.key
    && (a.size == 0 || a.size == b.size) && (a.etag == "" || a.etag == b.etag)
    && (a.recipients == [] || a.recipients == b.recipients)
  }

  // The descriptor a fresh inspection of an object returns.
  function Inspected(ref: BundleRef, held: StoredBundle): BundleRef {
    ref.(size := held.size, etag := held.etag, recipients := held.recipients)
  }

  ghost predicate InspectionAccepts(bundles: map<string, StoredBundle>, ref: BundleRef)
    requires ref.key in bundles
  {
    && Enriches(ref, Inspected(ref, bundles[ref.key]))
    && Identified(Inspected(ref, bundles[ref.key]))
  }

  // Inspection against the stored objects: the completed descriptor, or a refusal.
  ghost function Inspector(bundles: map<string, StoredBundle>): BundleRef -> Option<BundleRef> {
    (ref: BundleRef) =>
      if ref.key in bundles && InspectionAccepts(bundles, ref) then Some(Inspected(ref, bundles[ref.key])) else None
  }

  // What a push knows of one of its own ranges.
  function OwnRef(w: Writer, name: string): BundleRef {
    BundleRef(name, w.repo.BundleKey(w.tip, name), 0, "", w.policy)
  }

  // ----- Adoption -----

  // A legacy list records no branch; this placeholder stands for one while its bundles are considered.
  const DEFAULT_BRANCH := "master"

  function AsRead(m: Manifest, legacy: bool): Manifest {
    if legacy then m.(branch := DEFAULT_BRANCH, legacy := true) else m.(legacy := false)
  }

  ghost function ReadOf(s: State, repo: Repository, key: string): Adoption.ManifestRead {
    var place := Adoption.ManifestRepository(repo, key);
    if key in s.live && key in s.archive && place.Some? then
      var m := AsRead(s.archive[key].manifest, place.value.1);
      if Complete(m, place.value.0) then Adoption.Readable(m) else Adoption.Unreadable
    else if key in s.bundles then Adoption.Unreadable
    else Adoption.Missing
  }

  ghost function ContextOf(g: Dag, bundles: map<string, StoredBundle>, w: Writer): Adoption.Context {
    Adoption.Context(g, w.repo, w.branch, w.tip, w.chains, Inspector(bundles))
  }

  // The keys of the namespace that discovery takes for manifests.
  function Listing(s: State, repo: Repository): set<string> {
    set key | key in s.live + s.bundles.Keys && Adoption.ManifestRepository(repo, key).Some?
  }

  // Manifests are read in key order.
  predicate Next(unread: set<string>, key: string) {
    key in unread && forall other | other in unread :: Leq(key, other)
  }

  // What reading one manifest does to a survey.
  ghost function SurveyOne(g: Dag, s: State, w: Writer, key: string): Writer {
    match Adoption.Consider(ContextOf(g, s.bundles, w), key, ReadOf(s, w.repo, key), w.offer)
    case Refused(_) => w.(stage := Stopped)
    case Holding(offer) => w.(offer := offer, unread := w.unread - {key})
  }

  // Where a list of bundles ends.
  function ChainTip(g: Dag, bundles: seq<BundleRef>): Hash {
    if bundles == [] then Zeros(g.width) else RangeEnd(bundles[|bundles| - 1].range)
  }

  // The next descriptor continues the chain, along ancestry, inside the pushed history.
  predicate Continues(g: Dag, w: Writer, range: string) {
    && ParseRange(range).Some? && RangeBase(range) == ChainTip(g, w.bundles)
    && RangeEnd(range) in g.parents
    && (w.bundles == [] || IsAncestor(g, RangeBase(range), RangeEnd(range)))
  }

  // ----- Steps -----

  datatype Step =
    | Acquire(id: nat, repo: Repository, branch: string, tip: Hash, chains: seq<seq<string>>, policy: seq<string>)
    | ReadCurrent(id: nat)
    | ListManifests(id: nat)
    | Survey(id: nat, key: string)
    | Settle(id: nat)
    | Inspect(id: nat)
    | Upload(id: nat, name: string, size: int, etag: string)
    | RecordRange(id: nat, name: string)
    | PutManifest(id: nat, uuid: string)
    | CommitAcknowledged(id: nat)
    | CommitReplyLost(id: nat)
    | CommitRefused(id: nat)
    | DeleteOld(id: nat)
    | Release(id: nat)
    | Crash(id: nat)
    | StartRead(reader: nat, repo: Repository)
    | ReadRecord(reader: nat)
    | GetManifest(reader: nat)

  predicate At(s: State, id: nat, stage: WriterStage) {
    id in s.writers && s.writers[id].stage == stage
  }

  // Before its manifest is written.
  predicate Early(stage: WriterStage) {
    stage == Locked || stage == Discovering || stage == Surveying || stage == Working
  }

  predicate HoldsLease(s: State, id: nat)
    requires id in s.writers
  {
    RecordOf(s, s.writers[id].repo).owner == Some(id)
  }

  ghost predicate Enabled(g: Dag, s: State, step: Step) {
    match step
    // Any writer may take the lease: the stored token may have expired.
    case Acquire(id, repo, branch, tip, chains, policy) =>
      id !in s.writers && repo.Valid() && branch != "" && tip in g.parents
    // The branch matches, and the current manifest, if any, is there and is an ancestor of the push.
    case ReadCurrent(id) =>
      At(s, id, Locked) && CurrentAdmits(g, s, s.writers[id])
        && (s.writers[id].prior != "" ==> s.writers[id].prior in s.archive)
    // A push to an empty destination first goes through every manifest of its namespace.
    case ListManifests(id) => At(s, id, Discovering)
    case Survey(id, key) => At(s, id, Surveying) && Next(s.writers[id].unread, key)
    case Settle(id) => At(s, id, Surveying) && s.writers[id].unread == {}
    case Inspect(id) =>
      && At(s, id, Working) && var w := s.writers[id];
      && w.pending != [] && Continues(g, w, w.pending[0].range)
      && w.pending[0].key in s.bundles && InspectionAccepts(s.bundles, w.pending[0])
    // A conditional create of one of the push's own ranges.
    case Upload(id, name, size, etag) =>
      && At(s, id, Working) && s.writers[id].pending == []
      && ParseRange(name).Some? && RangeEnd(name) in g.parents && size > 0 && etag != "" && Policy(s.writers[id].policy)
    // A range uploaded now or by an earlier attempt of the same push.
    case RecordRange(id, name) =>
      && At(s, id, Working) && var w := s.writers[id]; var ref := OwnRef(w, name);
      && w.pending == [] && Continues(g, w, name) && ref.key in s.bundles && s.bundles[ref.key].pushTip == w.tip
      && InspectionAccepts(s.bundles, ref)
    case PutManifest(id, uuid) =>
      && At(s, id, Working) && var w := s.writers[id];
      && w.pending == [] && w.bundles != [] && ChainTip(g, w.bundles) == w.tip
      && '/' !in uuid && Adoption.ManifestKey(w.repo, w.tip, uuid) !in s.archive
    case CommitAcknowledged(id) => At(s, id, Manifested) && HoldsLease(s, id)
    case CommitReplyLost(id) => At(s, id, Manifested) && HoldsLease(s, id)
    case CommitRefused(id) => At(s, id, Manifested) && !HoldsLease(s, id)
    case DeleteOld(id) => At(s, id, Committed)
    case Release(id) => id in s.writers
    case Crash(id) => id in s.writers
    case StartRead(reader, repo) => reader !in s.readers && repo.Valid()
    case ReadRecord(reader) => reader in s.readers && s.readers[reader].stage == AtRecord
    case GetManifest(reader) => reader in s.readers && s.readers[reader].stage == AtManifest
  }

  // The guard of a push on what its record names.
  ghost predicate CurrentAdmits(g: Dag, s: State, w: Writer) {
    && (w.seenBranch == "" || w.seenBranch == w.branch)
    && (w.prior != "" ==>
      && w.prior in s.live && w.prior in s.archive
      && var m := s.archive[w.prior].manifest;
         m.branch == w.branch && IsAncestor(g, m.tip, w.tip) && (m.tip != w.tip || m.legacy))
  }

  function SetWriter(s: State, id: nat, w: Writer): State {
    s.(writers := s.writers[id := w])
  }

  function Publish(s: State, id: nat, stage: WriterStage): State
    requires id in s.writers
  {
    var w := s.writers[id];
    SetWriter(s, id, w.(stage := stage, landed := true)).(
      records := s.records[w.repo := Record(w.newKey, w.branch, None)],
      log := s.log[w.repo := LogOf(s, w.repo) + [w.newKey]])
  }

  // A modern list is taken as validated; a legacy one is revalidated bundle by bundle; with none, adoption comes first.
  function TakeCurrent(s: State, w: Writer): Writer
    requires w.prior != "" ==> w.prior in s.archive
  {
    if w.prior == "" then w.(stage := Discovering) else
      var m := s.archive[w.prior].manifest;
      if m.legacy then w.(stage := Working, pending := m.bundles) else w.(stage := Working, bundles := m.bundles)
  }

  // The list grows by a descriptor as its object was found.
  function Append(s: State, w: Writer, ref: BundleRef): Writer
    requires ref.key in s.bundles
  {
    w.(bundles := w.bundles + [Inspected(ref, s.bundles[ref.key])],
      pending := if w.pending == [] then [] else w.pending[1..])
  }

  // If-None-Match: an existing object is left as it is.
  function Create(s: State, key: string, held: StoredBundle): State {
    if key in s.bundles || key in s.live then s else s.(bundles := s.bundles[key := held])
  }

  function Written(w: Writer, id: nat): Archived {
    Archived(NewManifest(w.repo, w.branch, w.tip, w.bundles), Some(id))
  }

  function PutState(s: State, id: nat, key: string): State
    requires id in s.writers
  {
    var w := s.writers[id];
    SetWriter(s, id, w.(stage := Manifested, newKey := key)).(
      archive := s.archive[key := Written(w, id)], live := s.live + {key})
  }

  // The object at the prior pointer is deleted, whatever it is.
  function DeletedState(s: State, id: nat): State
    requires id in s.writers
  {
    var w := s.writers[id];
    var stopped := SetWriter(s, id, w.(stage := Stopped));
    if w.prior == "" then stopped else stopped.(live := s.live - {w.prior}, bundles := s.bundles - {w.prior})
  }

  // A writer as it takes the lease and reads the record under it.
  function Newcomer(s: State, repo: Repository, branch: string, tip: Hash, chains: seq<seq<string>>,
    policy: seq<string>): Writer {
    var r := RecordOf(s, repo);
    Writer(repo, branch, tip, chains, policy, r.pointer, r.branch, Locked, {}, [], [], [], "", false)
  }

  function AcquireState(s: State, id: nat, w: Writer): State {
    SetWriter(s, id, w).(records := s.records[w.repo := RecordOf(s, w.repo).(owner := Some(id))])
  }

  // The lease is dropped only while this writer's token is the stored one.
  function Unlock(s: State, id: nat): State
    requires id in s.writers
  {
    var w := s.writers[id];
    var stopped := SetWriter(s, id, w.(stage := Stopped));
    if HoldsLease(s, id) then stopped.(records := s.records[w.repo := RecordOf(s, w.repo).(owner := None)]) else stopped
  }

  ghost function Apply(g: Dag, s: State, step: Step): State
    requires Enabled(g, s, step)
  {
    hide Continues, InspectionAccepts, Policy, ParseRange, CurrentAdmits, Next, SurveyOne, Listing, TakeCurrent,
      Append, Create, PutState, Publish, DeletedState, Unlock, Newcomer, AcquireState, SetWriter, ReadPointer,
      ReadBody, HoldsLease, ChainTip, LogOf;
    match step
    case Acquire(id, repo, branch, tip, chains, policy) => AcquireState(s, id,
      Newcomer(s, repo, branch, tip, chains, policy))
    case ReadCurrent(id) => SetWriter(s, id, TakeCurrent(s, s.writers[id]))
    case ListManifests(id) => SetWriter(s, id,
      s.writers[id].(stage := Surveying, unread := Listing(s, s.writers[id].repo)))
    case Survey(id, key) => SetWriter(s, id, SurveyOne(g, s, s.writers[id], key))
    case Settle(id) => SetWriter(s, id, s.writers[id].(stage := Working, bundles := s.writers[id].offer))
    case Inspect(id) => SetWriter(s, id, Append(s, s.writers[id], s.writers[id].pending[0]))
    case Upload(id, name, size, etag) =>
      var w := s.writers[id];
      Create(s, w.repo.BundleKey(w.tip, name), StoredBundle(name, size, etag, w.tip, w.policy))
    case RecordRange(id, name) => SetWriter(s, id, Append(s, s.writers[id], OwnRef(s.writers[id], name)))
    case PutManifest(id, uuid) => PutState(s, id, Adoption.ManifestKey(s.writers[id].repo, s.writers[id].tip, uuid))
    case CommitAcknowledged(id) => Publish(s, id, Committed)
    case CommitReplyLost(id) => Publish(s, id, Stopped)
    case CommitRefused(id) => SetWriter(s, id, s.writers[id].(stage := Stopped))
    case DeleteOld(id) => DeletedState(s, id)
    case Release(id) => Unlock(s, id)
    case Crash(id) => SetWriter(s, id, s.writers[id].(stage := Stopped))
    case StartRead(reader, repo) =>
      s.(readers := s.readers[reader := Reader(repo, AtRecord, 1, false, "", "", |LogOf(s, repo)|, 0)])
    case ReadRecord(reader) => s.(readers := s.readers[reader := ReadPointer(s, s.readers[reader])])
    case GetManifest(reader) => s.(readers := s.readers[reader := ReadBody(s, s.readers[reader])])
  }

  // A strongly consistent read of the record.
  function ReadPointer(s: State, r: Reader): Reader {
    var record := RecordOf(s, r.repo);
    if r.missed && record.pointer == "" then r.(stage := LostPointer)
    else if r.missed && record.branch != r.branch then r.(stage := ChangedBranch)
    else r.(stage := AtManifest, pointer := record.pointer, branch := record.branch, seen := |LogOf(s, r.repo)|)
  }

  // The manifest read: only its precise absence leads to another attempt.
  function ReadBody(s: State, r: Reader): Reader {
    if r.pointer == "" then r.(stage := Empty)
    else if r.pointer in s.live then r.(stage := Returned)
    else if r.attempt == MAXIMUM_ATTEMPTS then r.(stage := Exhausted)
    else r.(stage := AtRecord, attempt := r.attempt + 1, missed := true)
  }

  // ----- Runs -----

  // The environment before any modelled participant starts: sound published manifests, and objects that lie
  // where their kind lies.
  ghost predicate Init(g: Dag, s: State) {
    && s.writers == map[] && s.readers == map[] && s.live <= s.archive.Keys
    && (forall key | key in s.bundles :: WellNamed(key, s.bundles[key]))
    && (forall key | key in s.archive :: s.archive[key].writer == None && ListNamed(key))
    && (forall repo :: |LogOf(s, repo)| <= 1)
    && (forall repo :: LogOf(s, repo) != [] ==>
      repo.Valid() && Published(g, s, repo, LogOf(s, repo)[0]) && LogOf(s, repo)[0] in s.live)
    && (forall repo :: RecordSound(s, repo, RecordOf(s, repo)))
    && (forall repo :: RecordOf(s, repo).owner == None)
  }

  // The record names the last published pointer, and its branch.
  ghost predicate RecordSound(s: State, repo: Repository, r: Record) {
    var log := LogOf(s, repo);
    && (r.pointer == "" <==> log == [])
    && (log != [] ==>
      r.pointer == log[|log| - 1] && r.pointer in s.archive && r.branch == s.archive[r.pointer].manifest.branch)
  }

  // A bundle object lies where some repository accepts the range it carries.
  ghost predicate WellNamed(key: string, held: StoredBundle) {
    ParseRange(held.range).Some? && exists owner: Repository :: AcceptsAt(owner, key, held)
  }

  predicate AcceptsAt(owner: Repository, key: string, held: StoredBundle) {
    owner.Valid() && ValidBundleKey(owner, BundleRef(held.range, key, 0, "", []))
  }

  // A manifest object lies where some repository reads its manifests.
  ghost predicate ListNamed(key: string) {
    exists owner: Repository :: ReadsAt(owner, key)
  }

  predicate ReadsAt(owner: Repository, key: string) {
    owner.Valid() && ManifestPointer(owner, key)
  }

  // The store holds the object a descriptor names, with the recorded identity.
  ghost predicate Holds(s: State, b: BundleRef) {
    && b.key in s.bundles && s.bundles[b.key].range == b.range
    && Enriches(b, Inspected(b, s.bundles[b.key]))
  }

  // A valid manifest for this repository whose bundles all exist as recorded.
  ghost predicate Sound(g: Dag, s: State, repo: Repository, m: Manifest) {
    && Complete(m, repo) && m.tip in g.parents && Ancestral(g, m.bundles)
    && forall b | b in m.bundles :: Holds(s, b)
  }

  ghost predicate Published(g: Dag, s: State, repo: Repository, key: string) {
    key != "" && key in s.archive && ManifestPointer(repo, key) && Sound(g, s, repo, s.archive[key].manifest)
  }

  ghost predicate Run(g: Dag, states: seq<State>, steps: seq<Step>) {
    && |states| == |steps| + 1 && Init(g, states[0])
    && forall i | 0 <= i < |steps| :: Enabled(g, states[i], steps[i]) && states[i + 1] == Apply(g, states[i], steps[i])
  }
}
