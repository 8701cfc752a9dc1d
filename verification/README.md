# git-remote-aws, verified

git-remote-aws keeps a Git branch in S3 as an ordered chain of encrypted bundles. Each bundle covers a range
`BASE..END` of commits, a manifest lists the chain, and a leased DynamoDB record points at the current manifest.
This project models that system over one abstract commit graph and proves what its components promise, alone and
together. `dafny verify dfyconfig.toml` checks everything.

- `Commits`, `Chains`, `Names`: finite commit graphs with ordered parents, ancestry, what a bundle carries, chains of
  ranges, storage keys and manifest pointers as text.
- `Planner`, `Splitter`, `Resume`, `Selection`, `Progress`: boundary planning with its odd binary search, recursive
  splitting against arbitrary size oracles, the shortest-path choice over leftover bundles, and why every productive
  retry gets further.
- `Manifests`, `Reading`, `Recipients`, `Envelope`, `Validation`, `Adoption`, `Push`: the one-pass manifest check,
  reading modern and legacy lists, recipient matching, the two ways to read an envelope, the caches, reuse of sibling
  bundles, and the list a push assembles.
- `Fetch`: the backward walk and the imports into a parent-closed local repository.
- `Protocol`, `ProtocolInvariant`, `ProtocolSteps`, `ProtocolPublish`, `ProtocolSafety`, `ProtocolProgress`,
  `ProtocolReads`: any number of writers, readers and sibling repositories over one object store and one record
  table, interleaved step by step.
- `ProtocolAdmission`, `ProtocolWitness`: which pushes the destination admits, why the others never publish, and runs
  that reach both outcomes from an empty bucket.
- `Pool`: the eight-worker inspection pool as a state machine over its feeder, workers and cancellation.
- `Migration`, `MigrationRun`: the pure migration, an evaluator for the conditional update, and whole runs.
- `Upload`: part sizes in 64-bit arithmetic, the part loop, and creation that never overwrites.
- `Composition`: what assembly returns is publishable, what one attempt leaves the next one lists, and what any run
  published can be fetched at any later time.

Code that updates state step by step is modelled by methods with loops and by classes over their fields, each proved
against a specification; concurrency is modelled by state machines whose steps are the externally visible actions.

## Assumptions

- The lease library is taken at its contract: every acquisition stores a fresh owner token, commit and release apply
  only while that token is stored, commit replaces the record atomically and clears the owner, reads are strongly
  consistent. Any writer may take the lease at any time, as the stored token may have expired. Section 13.1.2 of
  RFC 9110 gives conditional creation its meaning, section 13.1.1 pinned reads.
- Manifest keys are fresh, as they contain a random UUID.
- At the start of a run the records name sound manifests, every bundle lies under a key that some repository accepts for
  the range it carries, and every manifest under a key that some repository may read. Nobody edits the store or the
  table by hand during a run.
- The key listing of one adoption pass shows one instant of the store; its manifests are then read one at a time.
- An object's ETag and size fix its bytes, for all operations alike; digests of cache identities and recipient
  fingerprints are injective.
- All commits of one model live in one graph with one object-ID length.

## Model

| member | source | states |
|---|---|---|
| Names.ParseRangeRoundTrip | manifest.go:113-119 | A name built from two halves of one length parses exactly when it is a valid range, and to the same two commits |
| Names.RangeNameRoundTrip | manifest.go:113-119 | An accepted range name is the name of its parsed halves and holds no slash |
| Names.RangeTextIsExact | manifest.go:113-119 | Said of the text: a name of two equally long halves is a range exactly if both have 40 or 64 lower-case hexadecimal digits, they differ, and the end is not all zeros |
| Names.ParsedIsNamed | manifest.go:42-66 | A text names a repository exactly if it is its identity or its canonical name, up to a final slash: the default repository answers to both, and no text names two |
| Names.BundleKeyIsValid | manifest.go:156-169 | Every key a push writes is one that manifest validation accepts |
| Names.ValidIffPlaced | manifest.go:156-169 | The key check accepts exactly three places, written out: beside the default legacy list, beside a named one, and under the push's tip with an object ID as long as the range's |
| Names.KeyDeterminesRange | manifest.go:156-169 | Two accepted descriptors of one object name the same range, whichever key layout each uses |
| Names.ReservedIsApart | manifest.go:33-66 | No legacy list or legacy bundle of any repository lies in the directory where modern lists and bundles are kept |
| Names.PointerIsNeverABundle | manifest.go:171-179 | Whatever the manifest-pointer guard lets through, of any repository, is never an accepted bundle key, so deleting an old manifest never deletes a bundle |
| Commits.ReachIsClosed | main.go:148-163 | What a commit reaches is closed under parents, for any finite commit graph |
| Commits.AncestorAntisymmetric | main.go:148-163 | Two commits that are ancestors of each other are one commit |
| Commits.CountAntitone | manifest.go:489-497 | Moving the base towards the tip never leaves more commits to send |
| Commits.CountShrinks | manifest.go:489-497 | Moving it to a proper descendant inside the tip's history leaves fewer |
| Commits.FirstParentLineIsAncestry | bundle_split.go:58-104 | Along the first-parent line every commit is a proper ancestor of the next, and the line ends at the tip |
| Commits.LineFollowsFirstParents | bundle_split.go:58-104 | The line begins at a root, and each commit's first parent is the commit before it |
| Commits.RevListIsSuffix | bundle_split.go:58-104 | Excluding what the base reaches leaves a suffix of the first-parent line, even for a base merged through a side parent |
| Commits.UnbundleCompletes | main.go:560-577 | A bundle whose base history is local finds its prerequisites, and leaves a parent-closed repository that reaches its end |
| Planner.PushBundleCommits | bundle_split.go:58-104 | The exact outcome for every base and tip: Git failure, no ancestry path, no boundary, or precisely the first-parent commits that strictly descend from the base, in order; with a logarithmic number of ancestry checks |
| Planner.FirstContaining | bundle_split.go:79-101 | Probe the oldest, then bisect: finds the first commit that contains the base, within 1 + the bit length of the line |
| Planner.BoundariesAreAncestry | bundle_split.go:58-104 | A plan is an ancestry line of strict descendants of the base that ends at the tip |
| Planner.NoBoundaryIsSkipped | bundle_split.go:58-104 | Every first-parent commit that properly descends from the base is a boundary, and with no base every first-parent commit is |
| Planner.ResumedPlanIsSuffix | bundle_split.go:58-104 | Planning again from any boundary of a plan gives the rest of that plan |
| Planner.ProperAncestorAlwaysPlans | bundle_split.go:98-100 | For a proper ancestor base there is always a boundary, so neither planning error can occur |
| Chains.LinkedAt | manifest.go:129-151 | In a gap-free chain each descriptor starts where the one before it ended, and every prefix is such a chain |
| Chains.EarlierEndIsAncestor | manifest.go:365-387 | Along an ancestral chain every earlier end is an ancestor of, and different from, every later one |
| Splitter.PushBundleBuilder.CreateRange | bundle_split.go:106-165 | Reuse, oversize estimate, packing and consumption take the effects and record the bundles of the run that the laws below speak of, for any size and estimate oracle |
| Splitter.PushBundleBuilder.SplitRange | bundle_split.go:167-173 | The older half completes before the newer half is touched |
| Splitter.PushBundleBuilder.Create | bundle_split.go:50-56 | From a proper ancestor, or nothing, the builder runs over exactly the planned boundaries, and every step it adds to the trace is accounted for and thrifty in the sense of the two laws below; otherwise it fails without an effect |
| Splitter.EmitsChain | bundle_split.go:106-173 | What is recorded is always a gap-free ancestral chain from the base, and reaches the last commit on success |
| Splitter.StepsAreAccounted | bundle_split.go:106-173 | Every step concerns a stretch of the commits and is called for by the answers about it: only what nobody completed and whose estimate fits is packed, only what fits or cannot be divided is uploaded; and no step is about less than the whole range unless the range is not completed and its estimate or its packed size exceeds the target, in which case the step stays inside one half |
| Splitter.NothingIsWasted | bundle_split.go:150-163 | After a pack comes its own upload, or its removal, and that only if it holds more than one commit and is larger than the target |
| Splitter.FittingIsKeptWhole | bundle_split.go:106-165 | A range that is not completed and fits, or cannot be divided, is packed once, uploaded, removed and recorded as one bundle when nothing fails |
| Splitter.UploadsFit | bundle_split.go:106-165 | Every consumed bundle fits the target or is a single first-parent increment |
| Splitter.OneFileAtATime | bundle_split.go:106-165 | At most one plaintext bundle file exists at any moment, and none remains after success |
| Splitter.PackingIsBounded | bundle_split.go:106-173 | Commits packed over all attempts are at most n (ceil(log2 n) + 1) |
| Splitter.CooperativeRunSucceeds | bundle_split.go:106-173 | Splitting adds no failure of its own: with any sizes and any target it completes unless an oracle fails |
| Splitter.FirstLeafIsUploaded | bundle_split.go:106-173 | If no completed range begins at the base, whatever is uploaded first begins there |
| Ordering.SortedUnique | manifest.go:391-408 | A sorted list is determined by its contents, so sorted output does not depend on listing or map order |
| Ordering.Sort | manifest.go:391-408 | The sorted permutation of a list of strings |
| Resume.ListPushBundles | bundle_resume.go:17-43 | Over all pages, exactly the objects under the push's own prefix, with a usable size and identity, keyed by range; refused exactly when one is unusable |
| Resume.AcceptableIffStorable | bundle_resume.go:17-43 | An object under the push's prefix is taken exactly if it could stand in a manifest under that key: its name parses, its range is as long as the tip, and it has a size and an ETag |
| Resume.SelectionIsUnique | bundle_resume.go:66-104 | At most one path is furthest, shortest and takes the smallest key at each backward step |
| Selection.FillTables | bundle_resume.go:82-97 | After sorting, one pass settles for every boundary whether it is reachable, with how few ranges, and by which last range |
| Selection.BestChain | bundle_resume.go:82-105 | The reconstructed chain is the selected path: furthest boundary, fewest ranges, ties to the smallest key backwards |
| Selection.PathCounted | bundle_resume.go:82-97 | No path to a boundary uses fewer ranges than the table says |
| Selection.CompletedPushPrefix | bundle_resume.go:50-106 | For every base, tip and set of completed ranges: the planning error, the range error, or the ranges of the selected path |
| Selection.DiscoveredAreNamed | bundle_resume.go:17-43 | Discovered objects are keyed by their own range under the push's prefix |
| Selection.ResumeIsDeterministic | bundle_resume.go:66-104 | The selection depends only on the set of completed objects |
| Selection.PathIsChain | bundle_resume.go:50-106 | A selected path is a gap-free ancestral chain from the base to its boundary |
| Progress.BuilderPlansTheRest | main.go:342-394 | Splitting after a resumed prefix plans exactly the boundaries the prefix did not reach |
| Progress.RetryAdvances | main.go:342-394 | Whatever size targets are used, an attempt that uploads at least one bundle moves the next attempt's resume boundary strictly forward, and none moves it back |
| Progress.ProductiveAttemptsAreBounded | main.go:342-394 | Over any series of attempts at one push, those that had boundaries left and uploaded something, the last one included, are at most the boundaries |
| Manifests.ValidPolicy | manifest.go:138-149 | Accepts exactly the nonempty strictly sorted lists of 128-digit fingerprints |
| Manifests.Validate | manifest.go:121-154 | The one-pass check accepts exactly the complete, acyclic, zero-to-tip chains inside their namespace, with identities and policies unless legacy |
| Manifests.CompleteIffWalks | manifest.go:121-154 | Accepted manifests are exactly those that describe version, codec, repository, branch and object format, have a walk of pairwise different object IDs from zero to the tip that names every range and only accepted places, and, unless legacy, record size, ETag and a strictly sorted list of fingerprints for every bundle |
| Manifests.AncestralChainIsComplete | manifest.go:121-154 | On a commit graph a stored ancestral chain never repeats a boundary, so it always validates |
| Push.InspectPrefix | bundle_resume.go:113-157 | The sequential meaning of prefix inspection: all results in order, or nothing |
| Push.ValidationInspects | main.go:355-365 | Answers that agree with plain readings of the push's own objects give identified descriptors under the push's keys |
| Push.EmittedAreInspected | main.go:355-365 | Every descriptor a build records came from an inspection |
| Push.ResumedIsGood | main.go:346-353 | The kept chain followed by the resumed prefix is again a stored ancestral chain |
| Push.BuiltIsGood | main.go:366-394 | Adding the newly built ranges completes the chain to the pushed tip |
| Push.AssembleBundles | main.go:309-395 | Exactly the kept, revalidated or adopted chain, the selected leftover ranges as inspected, then what splitting the rest records, or the chain alone if it already ends at the tip: a stored ancestral chain from zero to the tip; only a failing oracle makes it fail |
| Push.BuildManifest | main.go:309-400 | Every manifest a push assembles, a legacy list published again at its own tip included, passes validation and carries that list, the pushed tip and the branch |
| Recipients.CompatibleRecipients | manifest.go:340-359 | The greedy loop with its matched set decides exactly the greedy assignment |
| Recipients.AcceptanceIsBijection | manifest.go:340-359 | Acceptance of a duplicate-free list gives a bijection to the key chains, each recipient from its own chain |
| Recipients.CompleteWhenUnshared | manifest.go:340-359 | When no recipient is in two chains, it accepts if and only if such a bijection exists |
| Recipients.GreedyMissesSharedKeys | manifest.go:340-359 | Two fingerprints that a manifest may record and two chains sharing one of them, which greedy refuses although a bijection exists |
| Envelope.ReadBundleRecipients | manifest.go:272-332 | Both strategies: discovery succeeds exactly when some policy is readable and returns it; the one-read path accepts exactly when the recorded policy is what the bytes yield |
| Envelope.YieldsUnique | manifest.go:272-319 | An object's bytes yield at most one recipient list |
| Envelope.YieldsPolicy | manifest.go:272-319 | A yielded list is a valid policy of at most the maximum count, equal to the stored count, whose records leave room for ciphertext in the object |
| Envelope.EnvelopeRoundTrip | manifest.go:272-319 | Reading any well-formed envelope with distinct fingerprints yields its sorted fingerprints |
| Envelope.HexInjective | manifest.go:272-319 | Hexadecimal fingerprints of different keys differ |
| Envelope.HexReadsBack | manifest.go:272-319 | Each byte is two lower-case digits whose values, the high one first, make up the byte |
| Envelope.CountBytes | manifest.go:272-319 | The count's bytes are read least significant first |
| Validation.BundleValidation.Load | validation_cache.go:103-134 | A hit is an intact entry filed under this very identity, for this very descriptor, with a valid policy; everything else is a miss |
| Validation.BundleValidation.Store | validation_cache.go:136-161 | Storing what a reading of the object yields keeps every intact entry truthful about the bytes its key, ETag and size fix, whatever objects are stored now or later |
| Validation.BundleValidation.InspectPush | validation_cache.go:51-65 | If every intact entry came from a reading of its object, and ETag and size fix an object's bytes, the answer is that of an uncached HEAD and envelope read, which accepts no object with another push tip than the one asked for; other entries may hold anything, and the entries left are again of that kind, with one that will answer for what was accepted |
| Validation.BundleValidation.Inspect | validation_cache.go:33-46 | Nor does the in-memory map change an answer, under the same assumption on intact entries |
| Validation.InspectTwice | validation_cache.go:103-161 | The entries one operation leaves serve the next one over whatever objects are stored by then, and both answer as uncached readings would |
| Validation.ComparisonIsPlain | validation_cache.go:67-77 | Comparing a descriptor with an earlier plain reading of the object accepts, returns and refuses as a fresh reading would |
| Validation.PlainUnique | validation_cache.go:33-77 | A plain reading has one answer |
| Validation.AcceptedIsIdentified | manifest.go:245-266 | An accepted descriptor keeps its range and key and carries size, ETag and policy |
| Validation.AcceptedExactly | manifest.go:245-266 | Accepted exactly if the object is there, has a body and an ETag, agrees with every size, ETag, recipient list and push tip asked for, and its bytes yield recipients |
| Adoption.NamespaceManifests | manifest.go:391-408 | Exactly the listed keys that some repository of the namespace may read under the pointer guard, modern ones ending in .json, sorted |
| Adoption.DiscoveryIsExact | manifest.go:410-427 | A key is taken for a list of a repository exactly where that repository's own pointer guard accepts it, legacy lists of the default and of named repositories included, and for that repository and kind only |
| Adoption.ContainedPrefix | manifest.go:461-475 | The endpoint the bisection finds is a contained boundary of any source, and the longest contained prefix of an ancestral one |
| Adoption.ValidateChain | manifest.go:365-387 | Succeeds exactly when every link parses, follows, descends and inspects, and returns the inspected descriptors in order |
| Adoption.BestPrefix | manifest.go:461-488 | Refused if and only if the contained chain does not validate; otherwise a sound offer, the longest compatible contained prefix if the source is ancestral |
| Adoption.LongestIsNearest | manifest.go:489-500 | The longest candidate leaves no more commits than any other candidate of that source |
| Adoption.AdoptBundles | manifest.go:429-510 | Fails exactly when some manifest of the namespace is unreadable, is the repository's own diverged history, or has a contained chain that does not validate, with the first such error in key order; otherwise the nearest sound offer: over ancestral sources no candidate of any source leaves fewer commits, ties going to the earliest key |
| Adoption.RefusedIffSomeRefuses | manifest.go:429-510 | The manifest-by-manifest survey refuses if and only if some single manifest refuses, whatever the others offer |
| Adoption.RefusesExactly | manifest.go:441-480 | A manifest refuses exactly if it is unreadable; belongs to the destination itself and has a tip the push does not contain or, unless legacy, another branch; or has, inside the pushed history, a link that does not parse, follow, descend or inspect |
| Adoption.ListedIsPointer | manifest.go:410-427 | Every key discovery takes for a manifest passes the pointer guard of the repository it is assigned to |
| Adoption.WrittenIsListed | manifest.go:237-240 | Every manifest a push writes is discovered by all its namespace, as its own repository's |
| Adoption.AdoptedIsGoodChain | manifest.go:429-510 | What is adopted is a stored ancestral chain of the destination that ends in an ancestor of the tip, every bundle of which is compatible with the committed key chains |
| Adoption.SiblingsShareKeys | manifest.go:156-169 | A key accepted by one repository is accepted by every repository of its namespace |
| Fetch.LocalRepository.FirstMissing | main.go:474-487 | The backward walk stops after the newest contained end |
| Fetch.LocalRepository.Unbundle | main.go:560-577 | Importing succeeds exactly when the prerequisites are local, and adds exactly what the bundle carries |
| Fetch.LocalRepository.Import | main.go:497-577 | A served bundle with its prerequisites imports; success means an object of the recorded ETag and size with the right head |
| Fetch.LocalRepository.ImportFrom | main.go:497-588 | From a published chain every bundle in turn finds its prerequisites |
| Fetch.LocalRepository.FetchManifest | main.go:472-596 | From a published chain the fetch succeeds, downloads exactly the bundles whose end is not an ancestor of the local branch commit, and adds exactly the history of the tip; from anything else, success still means complete history, from objects with the recorded ETag, size and head |
| Fetch.PlanIsExact | main.go:474-487 | In a published chain the planned suffix is exactly the bundles whose end is not an ancestor of the local branch commit |
| Fetch.NextPrerequisites | main.go:497-588 | Once the history before a bundle is local, its prerequisites are, and importing it makes its own history local |
| Pool.StepKeeps | bundle_resume.go:113-157 | Every interleaving of feeder, workers, failures and cancellation keeps the pool invariant |
| Pool.EveryRunIsBounded | bundle_resume.go:113-157 | At most eight inspections in flight; each slot written at most once; on return every worker has gone and the result is the sequential list or one error |
| Pool.SucceedsIffSequentialDoes | bundle_resume.go:113-157 | Without outside cancellation the pool returns all results if and only if every inspection succeeds |
| Pool.CauseHasAReason | bundle_resume.go:113-157 | A failing pool reports an inspection that failed, or was interrupted |
| Pool.NeverDeadlocks | bundle_resume.go:113-157 | Before it returns, some step of the pool is always possible |
| Pool.EveryStepAdvances | bundle_resume.go:113-157 | Every step decreases a bounded measure, so every run ends |
| ProtocolInvariant.LogsAreDisjoint | manifest.go:171-179 | Two repositories never publish the same manifest |
| ProtocolSteps.QuietStep | main.go:166-422 | A step of one writer that publishes nothing keeps every other participant's guarantees |
| ProtocolSteps.AssembledIsComplete | main.go:396-400 | A list built step by step, however it was interleaved, makes a complete manifest |
| ProtocolSteps.PriorIsSuperseded | main.go:402-417 | The manifest a landed push deletes is no repository's current one |
| ProtocolSteps.PriorIsNotPending | main.go:402-417 | Nor is it one any other writer is about to publish |
| ProtocolPublish.PriorIsLast | main.go:195-215 | While a writer's token is stored, the record is still the one it read under the lease |
| ProtocolPublish.NewExtendsPrior | main.go:247-275 | What a commit publishes has the branch of what it replaces, a descending tip, and its bundle list as a prefix, legacy descriptors only filled in |
| ProtocolPublish.LogIsLinear | main.go:237-287 | Along one repository's publications every manifest extends every earlier one |
| ProtocolPublish.TipsNeverRepeat | main.go:282-287 | Two publications of one repository never have one tip, unless the earlier one was a legacy list |
| ProtocolPublish.MissingMeansSuperseded | main.go:74-117 | A manifest found missing by a reader has been superseded since the record was read |
| ProtocolSafety.StepKeeps | main.go:166-422 | Every step of every writer and reader, including crashes, lost leases and lost commit replies, keeps the protocol invariant |
| ProtocolSafety.ReachableIsSound | main.go:166-422 | So every reachable state satisfies it |
| ProtocolSafety.StepIsLater | bundle_upload.go:52-65 | In one key space where a delete removes whatever its key names, no step overwrites or deletes a bundle, rewrites a manifest, or takes back a publication |
| ProtocolSafety.DeletesHitNoBundle | main.go:402-417 | In every reachable state no key ever held both kinds of object, and what a writer deletes is no bundle of any manifest that any repository ever published |
| ProtocolSafety.OnlySupersededDies | main.go:402-417 | A manifest that leaves the store had a successor in its own repository's history |
| ProtocolSafety.PointersAreWhole | main.go:396-417 | In every reachable state, every pointer names a live, complete manifest of its repository, with the record's branch, whose bundles all exist with the recorded identity |
| ProtocolSafety.PublishedStaysFetchable | main.go:472-596 | Once published, a manifest's whole chain stays served for the rest of the run, each of its bundles read at a later moment of its own |
| ProtocolSafety.HistoryIsLinear | main.go:237-287 | Over any run a repository's successive published states keep one branch, descending tips and a growing bundle list |
| ProtocolSafety.UpToDatePublishesNothing | main.go:282-287 | In no run does a push of an already published tip add to the history, except to replace a legacy list |
| ProtocolSafety.ReleaseGivesUpOwnLease | main.go:195-229 | A release clears the writer's own token, never another's, and leaves the published pointer and branch |
| ProtocolSafety.AtMostOneLands | main.go:309-402 | Of two pushes that started from one published state at most one lands |
| ProtocolSafety.ReadWasCurrent | main.go:74-117 | A successful metadata read returns a pointer and branch that the record named at some instant of the read |
| ProtocolSafety.ExhaustionNeedsThreePublications | main.go:74-117 | A read makes at most three attempts, and exhausting them means at least three publications meanwhile |
| ProtocolSafety.RediscoveryNeverFails | main.go:95-102 | Without outside edits the lost-pointer and changed-branch errors never occur |
| ProtocolProgress.AdmittedPushLands | main.go:166-422 | From every sound state, whoever crashed holding the lease, an admitted push left alone publishes its tip, with any splitting of its history, over legacy lists and over ranges an earlier attempt stored; the list it replaces is gone, and a first list starts with what the adoption pass decides over the manifests listed in key order |
| ProtocolProgress.LandsIffAdmitted | main.go:247-335 | A push left alone publishes if and only if it is admitted: branch and ancestry fit the current list, a legacy list still inspects, and with nothing published no manifest of the namespace refuses |
| ProtocolAdmission.AdmittedExactly | main.go:235-335 | Admission said of the record: no other branch; its list, if any, there, of this branch, an ancestor of the push and not its very tip, or legacy and then inspecting in full; with no list, no manifest of the namespace refusing |
| ProtocolAdmission.ListingIsDiscovery | manifest.go:391-427 | The adoption pass goes through every stored key that some repository of the namespace may read a list from |
| ProtocolAdmission.NotAdmittedNeverLands | main.go:247-335 | A push that is not admitted leaves bundles, manifests and publications as they were, however long it goes on alone |
| ProtocolAdmission.UpToDateIsNotAdmitted | main.go:282-287 | A push left alone whose tip is already published in a modern list leaves everything as it was |
| ProtocolAdmission.BlockedIffOwnDiverged | manifest.go:455-459 | In a sound state whose listed manifests were written by pushes, the adoption pass refuses if and only if the repository itself has a live manifest of another branch or with a tip the push does not contain |
| ProtocolWitness.AdmissionDecides | main.go:309-395 | Where earlier attempts left only usable objects, being admitted alone decides whether a push left alone publishes |
| ProtocolWitness.FirstPushLands | main.go:166-422 | From an empty bucket and table a first push of any tip is published, and the state reached is sound |
| ProtocolWitness.CrashedPushBlocks | manifest.go:455-459 | A first push that crashes after writing its manifest leaves a sound state with nothing published, in which every push of that repository that does not contain its tip, or has another branch, is refused |
| ProtocolReads.ReadPublishedMetadata | main.go:74-117 | The loop over three attempts, with its remembered miss and branch, returns what the reader machine ends in, whatever happens between its requests |
| ProtocolReads.ReadIsConsistent | main.go:74-117 | Against a state that writers keep changing, the call returns a pair the record named during it, gives up only after three publications, and never reports a lost pointer or a changed branch |
| ProtocolReads.RunIsMoving | main.go:74-117 | Any protocol run, looked at at ever later instants, is such a changing state |
| Composition.AssembledIsPublishable | main.go:309-400 | A list assembled by a working writer from the store's own answers satisfies what the protocol asks of a list about to be published: all its bundles are held, whatever happened since they were inspected, and it keeps the old one |
| Composition.AssembleList | main.go:309-400 | Assembly run against the store's answers returns a list the protocol publishes, and fails only if packing, upload or inspection does |
| Composition.AnswerIsHeld | bundle_resume.go:113-157 | What an inspection once answered about an object of this push the store still holds, at any later moment of the run |
| Composition.RecordedIsValidated | main.go:355-365 | A push records a range exactly when it comes next and cached validation accepts its object under the push's tip, and records what validation answered |
| Composition.PassReadsManifests | manifest.go:437-449 | What the adoption pass reads in the protocol is what reading the stored object gives, a legacy list under the placeholder branch and a modern one under its own |
| Composition.InspectionIsValidation | manifest.go:245-266 | Over corresponding objects the protocol's inspections, with or without a push tip, are the answers of cached validation |
| Composition.DiscoveryListsStore | bundle_resume.go:17-43 | Listing the push's prefix finds exactly the objects the store holds under it, as descriptors of their own ranges |
| Composition.NextAttemptGrew | main.go:342-394 | Whatever happens between two attempts at one push, the second lists everything the first listed or uploaded |
| Composition.FetchPublished | main.go:472-596 | Fetching what was published, each bundle at a later moment of its own, adds exactly the history of its tip and downloads exactly what was missing |
| Reading.ReadLegacyList | main.go:57-69 | A legacy list is accepted exactly when it has a nonempty line and every nonempty line is a range; empty lines are skipped |
| Reading.NamesOfConcat | main.go:57-69 | Which lines count does not depend on the lines around them |
| Reading.GetManifest | manifest.go:171-222 | An empty pointer is no manifest; otherwise the result is a manifest exactly when the pointer is inside the repository, the object is there within the size limit and decodes, the chain is complete, its branch is a literal branch name and the recorded branch agrees; a legacy list gives one bundle for each nonempty line, in order, stored beside the list under that line, with nothing else recorded; absence is reported as such and nothing else is |
| Reading.LegacyIsCompleteIffChained | manifest.go:191-200 | A legacy list becomes a complete manifest if and only if its ranges chain from zero to the last end without repetition or mixed lengths |
| Reading.LegacyKeyIsValid | manifest.go:191-200 | The place of a legacy bundle is one its repository accepts, default or named |
| Reading.LegacyPlacesAreApart | manifest.go:191-200 | Legacy lists of two repositories, in one namespace or two, never name the same object |
| Migration.MigratedRepoItem | migration.go:84-151 | Accepts exactly the records that can be migrated without loss and returns their migration; a record with an owner or a heartbeat is refused |
| Migration.AcceptedLegacyRecords | migration.go:84-151 | The accepted legacy records are exactly those made of a nonempty id, a branch and a list, each text or absent, and one of the spellings of nobody holding the lock |
| Migration.MigrationIsLossless | migration.go:84-151 | Of every such record the migration keeps id, branch and list, present or absent as they were, and nothing else |
| Migration.OnlyTheLockIsLost | migration.go:84-151 | Two accepted legacy records with one migration differ at most in how they say that nobody holds them |
| Migration.MigratedIsSettled | migration.go:84-151 | Migration is idempotent: its result is accepted and left as it is |
| Migration.MigrationUpdate | migration.go:218-242 | Builds the request whose clauses fence six attributes, with every alias and placeholder bound to its own attribute and value |
| Migration.BuiltIsAccepted | migration.go:218-242 | For every legacy record the request defines and uses all its names and values |
| Migration.ConditionIsExact | migration.go:218-242 | The condition holds of an item exactly when it exists, has no payload yet and agrees with the snapshot on every fenced attribute |
| Migration.OnlyFreeRecordsPass | migration.go:218-242 | The write meets only a record with the snapshot's branch and list, without migrated data, held by nobody under the old lock or the new lease |
| Migration.UpdateIsExact | migration.go:218-242 | The update removes the legacy fields, sets the payload if there is one and leaves all other attributes |
| Migration.UpdateMigrates | migration.go:218-242 | On the record it was made for, the request passes and gives exactly the pure migration |
| MigrationRun.Plan | migration.go:334-349 | Fails exactly when some record cannot be migrated; otherwise lists exactly the legacy records, sorted, with their migrations |
| MigrationRun.Table.Write | migration.go:369-392 | One conditional write, decided after any error by a strong read |
| MigrationRun.Table.WriteAll | migration.go:369-392 | Wherever it stops, each record is untouched or was migrated over a state the snapshot still described; undisturbed, it succeeds |
| MigrationRun.Table.Run | migration.go:287-402 | Success means the bucket's records are exactly the migrated snapshot; a refused plan writes nothing; lost replies alone never make it fail; a record outside the bucket is never touched |
| MigrationRun.BucketsAreApart | migration.go:194-196 | The records selected for two buckets never overlap |
| MigrationRun.RerunAimsTheSame | migration.go:369-399 | A run stopped anywhere leaves records that can be migrated, and running again aims at the very same table |
| MigrationRun.CompetingChangeSurvives | migration.go:218-242 | A record changed on a fenced attribute since the snapshot keeps that change through any later attempts |
| Upload.MultipartBundlePartSize | bundle_upload.go:67-78 | For every 64-bit size, the least part size from 64 MiB with at most ten thousand parts; refused exactly above 10,000 parts of 5 GiB; no overflow |
| Upload.LeastIsFound | bundle_upload.go:67-78 | Two divisions and one rounding step find that least size |
| Upload.Bucket.UploadParts | bundle_upload.go:114-134 | The loop cuts the file into consecutive nonempty parts numbered from one whose concatenation is the file, and succeeds exactly if none of the needed parts is interrupted or refused |
| Upload.Bucket.UploadResult | bundle_upload.go:150-168 | A conflict counts as success only when the existing object carries this push's tip and is not empty |
| Upload.Bucket.MultipartUpload | bundle_upload.go:80-148 | Never overwrites; what it creates is the whole file, even when the reply is lost; it succeeds exactly if every request up to completion is answered and the object was absent and its creation tagged, or was left there by this very push and the upload is aborted; every unconfirmed way out aborts |
| Upload.Bucket.UploadBundle | bundle_upload.go:52-65 | The single put succeeds exactly if it is answered and the object was absent or a nonempty one left by this very push; above the part size, exactly as the multipart upload does; it never overwrites |

## Left out

- Recipients.CompleteWhenUnshared: completeness of greedy matching needs that no recipient is in two chains; with a shared key it fails, as GreedyMissesSharedKeys shows. Which shared cases still succeed depends on the order of the chains and has no simpler description than the loop.
- Adoption.AdoptBundles: optimality is stated for sources whose chains follow ancestry. An unreadable or crafted source is only required to be handled soundly.
- Splitter.PushBundleBuilder.CreateRange: sizes and estimates are arbitrary answers of an oracle indexed by range name, so two estimates of one range agree.
- Protocol steps abstract one push's local work after adoption: planning, splitting and inspection appear as adding one checked range at a time; Composition proves that what they assemble is of that kind.
- Retries inside the AWS client, request signing, bucket setup, versioning checks and table setup.
- Git itself: rev-list, merge-base, bundle creation and import are functions on the commit graph; temporary refs that pin a bundle's tip are not modelled.
- Encryption, key files, fingerprint hashing and the working-tree recipient checks.
- JSON text of manifests and cache entries; a readable manifest is a value, and the limit on the size a push writes is not modelled. What `git check-ref-format` answers is a parameter where a manifest is read; elsewhere a branch is a nonempty string.
- ProtocolProgress.LandsIffAdmitted: local work is taken to succeed: there is a splitting whose ranges are free in the store or were left by this push and still inspect. A foreign or damaged object at one of the push's own keys makes every upload of that range fail; which splittings avoid it is not characterized.
- ProtocolAdmission.BlockedIffOwnDiverged: speaks of manifests that pushes wrote. One that was there before the run may also be unreadable or broken, which Adoption.AdoptBundles covers.
- Real time: heartbeats and deadlines appear only as a lease that may be lost at any moment, and cancellation only as a step that may happen at any moment.
- The alias check between a default repository and a literal `/1` record.
- Slices updated in place are sequences here; sorting is an insertion sort with the same result.
- Text of DynamoDB expressions: clauses, assignments and removals are values, with the service's rules about undefined and unused names.
- A payload map that is nil rather than empty, which the AWS decoder never produces, and the final unmarshalling check of a migrated record, taken to accept string payloads.
- The pre-migration backup file, account and table checks, and scan paging.
- Concurrent inspections share the persistent cache; each load and store is one atomic step, as the source replaces cache files by renaming.
- Progress messages and error texts.
