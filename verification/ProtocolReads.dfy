/** The metadata read as one call, against a remote state that moves between its requests. */
module ProtocolReads {
  import opened Names
  import opened Commits
  import opened Protocol
  import opened ProtocolInvariant
  import opened ProtocolPublish
  import opened ProtocolSafety

  datatype ReadOutcome = Found(pointer: string, branch: string) | Nothing | Lost | Changed | GaveUp

  // at(2k) is the remote state at the k-th record read, at(2k + 1) at the k-th manifest read.
  // The reader machine driven by those two requests until it stops.
  ghost function Driven(at: nat -> State, r: Reader, k: nat): Reader
    decreases if r.attempt <= MAXIMUM_ATTEMPTS then MAXIMUM_ATTEMPTS + 1 - r.attempt else 0,
      if r.stage == AtRecord then 1 else 0
  {
    if r.stage != AtRecord || r.attempt > MAXIMUM_ATTEMPTS then r else
      var p := ReadPointer(at(2 * k), r);
      if p.stage == AtManifest then Driven(at, ReadBody(at(2 * k + 1), p), k + 1) else p
  }

  ghost function Fresh(s: State, repo: Repository): Reader {
    Reader(repo, AtRecord, 1, false, "", "", |LogOf(s, repo)|, 0)
  }

  ghost function OutcomeOf(r: Reader): ReadOutcome {
    match r.stage
    case Returned => Found(r.pointer, r.branch)
    case Empty => Nothing
    case LostPointer => Lost
    case ChangedBranch => Changed
    case _ => GaveUp
  }

  // One state of a run after another.
  ghost predicate Moving(g: Dag, at: nat -> State) {
    (forall k: nat :: Inv(g, at(k))) && forall j: nat, k: nat | j <= k :: Later(at(j), at(k))
  }

  lemma DrivenUnfolds(at: nat -> State, r: Reader, k: nat)
    requires r.stage == AtRecord && r.attempt <= MAXIMUM_ATTEMPTS
    ensures var p := ReadPointer(at(2 * k), r); var q := ReadBody(at(2 * k + 1), p);
      Driven(at, r, k) == if p.stage != AtManifest then p else if q.stage != AtRecord then q else Driven(at, q, k + 1)
  {
    hide RecordOf, LogOf;
  }

  // The loop over attempts does exactly what the reader machine does.
  method ReadPublishedMetadata(at: nat -> State, repo: Repository) returns (outcome: ReadOutcome)
    ensures outcome == OutcomeOf(Driven(at, Fresh(at(0), repo), 0))
  {
    hide LogOf, RecordOf, Driven;
    ghost var r := Fresh(at(0), repo);
    ghost var whole := Driven(at, r, 0);
    var missing := false;
    var previousBranch := "";
    var attempt: nat := 1;
    while true
      invariant 1 <= attempt <= MAXIMUM_ATTEMPTS
      invariant r.repo == repo && r.stage == AtRecord && r.attempt == attempt && r.missed == missing
      invariant missing ==> r.branch == previousBranch
      invariant Driven(at, r, attempt - 1) == whole
      decreases MAXIMUM_ATTEMPTS - attempt
    {
      var record := RecordOf(at(2 * (attempt - 1)), repo);
      DrivenUnfolds(at, r, attempt - 1);
      if missing {
        if record.pointer == "" {
          return Lost;
        }
        if record.branch != previousBranch {
          return Changed;
        }
      }
      ghost var p := ReadPointer(at(2 * (attempt - 1)), r);
      var live := at(2 * (attempt - 1) + 1).live;
      if record.pointer == "" {
        return Nothing;
      }
      if record.pointer in live {
        return Found(record.pointer, record.branch);
      }
      if attempt == MAXIMUM_ATTEMPTS {
        return GaveUp;
      }
      r := ReadBody(at(2 * (attempt - 1) + 1), p);
      missing, previousBranch := true, record.branch;
      attempt := attempt + 1;
    }
  }

  predicate Said(s: State, repo: Repository, pointer: string, branch: string) {
    RecordOf(s, repo).pointer == pointer && RecordOf(s, repo).branch == branch
  }

  // The instant of the last request a read can make.
  const LAST: nat := 2 * MAXIMUM_ATTEMPTS - 1

  lemma FrameAt(g: Dag, at: nat -> State, i: nat, j: nat, r: Reader)
    requires Moving(g, at) && i <= j && ReaderSound(at(i), r)
    ensures ReaderSound(at(j), r)
  {
    hide Inv, Later, ReaderSound;
    ReaderFrame(at(i), at(j), r);
  }

  // Driven to its end, the machine has stopped, is sound, and holds a pair the record named at one of its record reads.
  lemma {:induction false} DrivenIsSound(g: Dag, at: nat -> State, r: Reader, k: nat) returns (j: nat)
    requires Moving(g, at) && r.stage == AtRecord && r.attempt == k + 1 <= MAXIMUM_ATTEMPTS && ReaderSound(at(2 * k), r)
    ensures var q := Driven(at, r, k);
      && q.repo == r.repo && q.started == r.started && q.stage != AtRecord && q.stage != AtManifest
        && ReaderSound(at(LAST), q)
      && (q.stage == Returned || q.stage == Empty ==>
        k <= j < MAXIMUM_ATTEMPTS && Said(at(2 * j), r.repo, q.pointer, q.branch))
      && (q.stage == Empty ==> q.pointer == "")
    decreases MAXIMUM_ATTEMPTS - k
  {
    hide Inv, Later, LogOf, RecordOf, Driven;
    j := k;
    var p := ReadPointer(at(2 * k), r);
    ReadPointerIsSound(g, at(2 * k), r);
    assert p.stage == AtManifest;
    FrameAt(g, at, 2 * k, 2 * k + 1, p);
    var q := ReadBody(at(2 * k + 1), p);
    ReadBodyIsSound(g, at(2 * k + 1), p);
    DrivenUnfolds(at, r, k);
    if q.stage == AtRecord {
      FrameAt(g, at, 2 * k + 1, 2 * (k + 1), q);
      j := DrivenIsSound(g, at, q, k + 1);
    } else {
      FrameAt(g, at, 2 * k + 1, LAST, q);
    }
  }

  // Whatever writers do between its requests, a read returns a pair the record named during it, reports nothing
  // published only if so, gives up only after three publications, and never reports a lost pointer or a changed branch.
  lemma ReadIsConsistent(g: Dag, at: nat -> State, repo: Repository) returns (j: nat)
    requires Moving(g, at)
    ensures var outcome := OutcomeOf(Driven(at, Fresh(at(0), repo), 0));
      && !outcome.Lost? && !outcome.Changed?
      && (outcome.Found? ==>
        j < MAXIMUM_ATTEMPTS && outcome.pointer != "" && Said(at(2 * j), repo, outcome.pointer, outcome.branch))
      && (outcome.Nothing? ==> j < MAXIMUM_ATTEMPTS && RecordOf(at(2 * j), repo).pointer == "")
      && (outcome.GaveUp? ==> |LogOf(at(LAST), repo)| >= |LogOf(at(0), repo)| + 3)
  {
    hide Inv, Later, LogOf, RecordOf;
    NewReaderIsSound(g, at(0), repo);
    j := DrivenIsSound(g, at, Fresh(at(0), repo), 0);
  }

  // Any run, looked at at ever later instants, is such a moving state.
  lemma RunIsMoving(g: Dag, states: seq<State>, steps: seq<Step>, index: nat -> nat, at: nat -> State)
    requires Run(g, states, steps) && forall k: nat :: index(k) < |states| && at(k) == states[index(k)]
    requires forall j: nat, k: nat | j <= k :: index(j) <= index(k)
    ensures Moving(g, at)
  {
    hide Run, Inv, Later;
    forall k: nat ensures Inv(g, at(k)) { ReachableIsSound(g, states, steps, index(k)); }
    forall j: nat, k: nat | j <= k ensures Later(at(j), at(k)) { RunIsLater(g, states, steps, index(j), index(k)); }
  }
}
