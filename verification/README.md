# Repository search, verified

A Dafny model of the code-search engine under `scripts/repo-search`, and of two small algorithms of the same
repository, with proofs of what they promise. `dafny verify dfyconfig.toml` checks everything.

## What is modelled

**The state owner** (`StateModel`, `StateInvariant`, `StateStore`, `Protocol`, `ProtocolInvariant`, `ProtocolSafety`,
`Claims`, `Publication`, `PruneConvergence`, `Leaks`). SQLite rows and generation directories. `StateModel` has one
function per immediate transaction; the class `StateStore.State` has the same operations as methods over mutable rows
and directories, each proved against those functions. `Protocol` is the transition system in which any number of calls
interleave: every transaction, and every look at, making, writing, renaming or removal of a directory by
`beginGeneration`, the builders, `publish` and `prune`, is a step of its own, and any call may stop for ever after
any step.

**The builders** (`Lifecycle`, `LifecycleInvariant`, `LifecycleSafety`, `LifecycleProgress`, `BuildSucceeds`,
`LifecycleRuns`, `BuildRuns`). Any number of full and overlay builds as clients of the protocol, with sessions, recovery,
forgets and prunes between any two of their steps. The capstones are `LifecycleSafety.CurrentIndexIsColdBuild`, which says
that whatever is current is right, and `BuildRuns.WhatIsDueIsBuilt`, which says that what is asked for gets built.

**The index** (`Chunking`, `IndexRows`, `FileRows`, `Manifest`, `IndexBuild`, `IndexUpdate`, `OverlayBuild`,
`OverlayValidation`). Line-window chunks, the manifest diff, incremental and overlay builds, and the validators. The
simple thing they all have to agree with is `IndexRows.ColdStore`, the build of a snapshot from nothing; `FileRows` says
what that holds for a single file.

**The search** (`Fusion`, `Retrieval`, `Search`, `SearchProperties`, `SearchRanks`, `SearchOverlayOrder`). Reciprocal
rank fusion, the refill loop with its read cache and budgets, and what a finished search promises, up to
`SearchProperties.FullSearchAnswersTheColdBuild` and `SearchProperties.OverlaySearchAnswersTheColdBuild`, which join
search and building, and the scores and the order of the hits it shows.

**Capture and cache** (`Enumeration`, `Capture`, `EmbeddingCache`). The streaming enumeration of tracked paths, the
snapshot, and the bounded cache of embeddings.

**Two small algorithms** (`HomePaths`, `HomePathOrder`, `HomePathTies`, `HomePathTildes`, `Board`). The look-around
substitution of `generalize-home-paths` and the planning board that keeps all lanes in one array. A `~` of a home is
*exposed* when the run of `~` it belongs to may be one that a pass has inserted: the character before the run, if
any, may stand before a path, and what follows the run is the end, a boundary or a separator. A home is *whole* when
no other home may begin inside it or right behind it: each of its components ends in a letter, a digit or one of
`_./\~:-`, and so does what precedes a backslash from which the home goes on like an escaped path.

`Contracts`, `Wrappers`, `Sorting` and `Sets` hold shared types and list and set facts.

## Assumptions

- SHA-256 is injective: a hash is a free term over its preimage.
- Fresh UUIDs never repeat; canonical UUIDs and keys are ordered as the numbers they spell.
- The identity of a directory (its device and inode) is never reused for another one.
- A transaction is atomic; so are `rename`, `rm` of one directory, and one write of a builder, which makes the
  directory if it is missing. The rows that `publish` reads first are read at once.
- The builder of a generation publishes it itself, after its last write.
- `recover` may interrupt and `finishOperation` may end any operation at any moment. That includes every outcome of
  the process probe and every caller.
- Failing growth checks, aborts and deadlines are calls that stop, or an explicit number of checks still granted.
- The syntax-tree chunker numbers its chunks 0 to n-1 in order. The code relies on it where it copies `raw.index`.
- No other process writes to the embedding cache between two transactions of one `putMany` or `pruneUnused`.
- Embedding, tokenizing, decoding and chunking are deterministic functions, and the embedding cache answers, if at
  all, with the vector the model computes.
- A search engine asked for n hits returns the first n of a fixed ranking. For the end-to-end statement it ranks
  exactly the rows that match, and matching is a property of the row alone.
- Fusion scores are exact real numbers.
- Strings are sequences of code points. JavaScript orders UTF-16 units, which differs only for characters outside
  the basic plane.

## Findings

- `prune` deletes the row of a generation after it has erased the directories it saw, but a directory may appear
  afterwards and stay without a row. A build whose operation has ended may still be about to make or fill its staging
  directory, and its writers make a missing one again; or a publication may rename the staging directory between the
  looks of the prune and its erasures. `Leaks.LeaksExactlyWhen` gives the exact condition, and `Leaks.ABuildLeaks` and
  `Leaks.APublicationLeaks` are runs from the empty state. No reference ever leads to such a directory; only its space
  is lost.
- `pruneUnused` commits after every 100 deletions, so a cache opened with an overflow of more than 100 rows is visible
  above its capacity until the last portion, and only then. The comment in `putMany` promises otherwise
  (`EmbeddingCache.Cache.PutMany`).
- With the default reader the 20 MiB budget of a search cannot be exceeded, because 40 files of 512 KiB are exactly
  20 MiB (`SearchProperties.OnlyTheFileBudgetBinds`).
- `generalize` is idempotent for all texts when no home has an exposed `~`; a `~` inside a name, as in "/home/u~1", does
  no harm. For every accepted home with an exposed one, be it "/a ~" or "/a(~)/b", there are a second home and a text
  that a second run changes again (`HomePathTildes.ExposedTildesDecide`).
- Among homes of equal length the iteration order of a set decides. That is of no consequence when they are whole
  (`HomePathTies.TiesDoNotDecide`, `HomePathTies.WholeHomesDecide`). For any other accepted home without an exposed `~`,
  be it "/a /b", "/a(/b" or "/ab)", there are a home of its length and a text where it matters
  (`HomePathTies.TiesMayDecide`).
- Matches that only touch count as overlapping in `HomePathOrder.LongestHomeWins`: in "/u)/v" the homes "/u)" and "/v"
  both match, and replacing one leaves a `~` beside which the other no longer does.
- Shifting a card down and up again restores every lane, but the flat array only when no card of another lane stands
  between the card and the next one of its lane (`Board.FlatOrderRestored`). An empty card id counts as no before-id, so
  a card shifted next to such a card goes to the end of its lane (`Board.ShiftRankSwaps`, `Board.ShiftDownAndUp`).

## Model

| member | source | states |
|---|---|---|
| ProtocolSafety.ReferencesAreOnDisk | scripts/repo-search/state.ts:351-375 | in every state that any interleaving and any stops of begin, acquire, publish, finish, recover, prune and forget can reach, every current pointer, every pin and every base names a ready generation whose final directory exists; current rows are of their own checkout and unmoved, pins belong to active operations |
| ProtocolInvariant.StepKeeps | scripts/repo-search/state.ts:399-420 | each single transaction and each single filesystem action keeps the whole invariant: rows, ids issued once, bases issued earlier, directories, and what every call in progress relies on |
| ProtocolInvariant.RunKeeps | scripts/repo-search/state.ts:399-420 | hence every run from a state that satisfies the invariant ends in one |
| ProtocolSafety.OneStep | scripts/repo-search/state.ts:399-420 | how one event may change the world: ids are issued once, ready directories are untouched, only a checkout with a writer gains a pointer, a generation that no builder is at work on gains neither a builder nor a directory |
| ProtocolSafety.PinLasts | scripts/repo-search/state.ts:636-671 | a pinned generation keeps its pin, its row and its directory under everything others do, until the pinning operation stops being active |
| ProtocolSafety.AcquiredGenerationsLast | scripts/repo-search/state.ts:636-671 | what acquire handed out stays row for row and directory for directory, base included, after any events, while the operation is active |
| ProtocolSafety.StaysInactive | scripts/repo-search/state.ts:828-842 | an operation that left active never changes again and holds no pin, writer, native or enrollment claim |
| ProtocolSafety.DoomedForever | scripts/repo-search/state.ts:942-1048 | a generation marked by prune, or already deleted, never becomes publishable or current again |
| ProtocolSafety.LateCommitChangesNothing | scripts/repo-search/state.ts:756-826 | when recovery or prune ran anywhere before the commit of a publication, that commit changes no row at all |
| ProtocolSafety.SuccessfulCommitWasNeverFenced | scripts/repo-search/state.ts:673-826 | a commit that succeeds leaves its generation ready and on disk in the directory that was validated, and makes it current if and only if the source had not moved; and at every earlier state since the generation was inserted its operation was active, its row staging, and no prune listed it |
| ProtocolSafety.StagingSince | scripts/repo-search/state.ts:673-826 | a row that is staging at the end of a run was staging, with the same active owner, at its start |
| ProtocolSafety.ClaimsExclude | scripts/repo-search/state.ts:480-514 | writer, native and enrollment claims always belong to active operations, and a checkout being forgotten has no writer |
| Claims.NativeSlotLasts | scripts/repo-search/state.ts:845-860 | over every run: once an operation has the native slot, nobody else gets it before that operation has ended |
| Claims.WriterClaimLasts | scripts/repo-search/state.ts:480-487 | the same for the writer claim of a checkout |
| Claims.EnrollmentClaimLasts | scripts/repo-search/state.ts:1063-1083 | the same for the enrollment claim, until its operation gives it back |
| Claims.NoWriterWhileClaimed | scripts/repo-search/state.ts:484-486 | while one operation keeps the enrollment claim of a checkout, no writer begins there |
| ProtocolSafety.ForgottenStaysForgotten | scripts/repo-search/state.ts:1063-1093 | while a forget holds its claim no publication re-creates the pointer it deleted |
| Leaks.DirectoryComesBack | scripts/repo-search/core/build.ts:315-324 | some run leads to a directory of a generation if and only if one is there now or a builder of it is still at work: its writers make the staging directory whenever it is missing, so an erased one comes back, and nothing else brings one back |
| Leaks.LeaksExactlyWhen | scripts/repo-search/state.ts:1004-1048 | a directory of a generation that prune marked can come to outlive its row if and only if a builder of it is at work, or that has already happened, or a publication of it has not renamed yet while its staging directory is there, or a prune in progress has passed over a directory that is there |
| Leaks.ABuildLeaks | scripts/repo-search/state.ts:612-632 | a run from the empty state that leaves a directory without a row: the row goes while its build is still about to make the directory |
| Leaks.APublicationLeaks | scripts/repo-search/state.ts:758-760 | another one: a publication renames between the looks of a prune and its erasures |
| Publication.UndisturbedPublicationSucceeds | scripts/repo-search/state.ts:673-826 | the steps of a publication, uninterrupted, end with the generation ready, its staging directory moved unchanged, and the pointer moved unless the source had |
| PruneConvergence.UndisturbedPruneIsARound | scripts/repo-search/state.ts:942-1048 | mark, look at both paths, erase and delete with nothing in between remove exactly the marked rows and their directories |
| PruneConvergence.RoundKeepsReachable | scripts/repo-search/state.ts:959-990 | a round removes nothing reachable along base links from a root (current, pinned, or staging of an active operation) and leaves reachability as it was |
| PruneConvergence.SettledRowsAreReachable | scripts/repo-search/state.ts:959-990 | when nothing is a candidate, every row is reachable: base links lead to earlier ids only |
| PruneConvergence.PruneConverges | scripts/repo-search/state.ts:942-1048 | whatever each round selects, every round that finds a candidate deletes a row, so there are at most as many rounds as rows, and at the fixpoint the rows are exactly those reachable from the roots |
| StateStore.State.BeginOperation | scripts/repo-search/state.ts:444-517 | starts an operation with the claims asked for, or fails with the code of the first check that fails and changes nothing |
| StateStore.State.FinishOperation | scripts/repo-search/state.ts:828-842 | ends an active operation, and drops pins and claims whether it was active or not |
| StateStore.State.AcquireNative | scripts/repo-search/state.ts:845-860 | succeeds exactly for an active caller when the slot is free or already its own, and then the slot is the caller's; a held slot answers busy |
| StateStore.State.Recover | scripts/repo-search/state.ts:865-940 | succeeds exactly if the operation is still the very active row that was probed dead, and then ends it and frees its pins and claims |
| StateStore.State.BeginGeneration | scripts/repo-search/state.ts:519-634 | inserts a staging row under the checks on writer and base and makes its directory, refusing a stale one |
| StateStore.State.AcquireCurrent | scripts/repo-search/state.ts:636-671 | reads and pins in one transaction |
| StateStore.State.Publish | scripts/repo-search/state.ts:673-826 | with no interruption: the rename happens exactly when validation accepted and the final path was free, the row change exactly when the writer claim is still held |
| StateStore.State.ClaimEnrollment | scripts/repo-search/state.ts:1063-1076 | succeeds exactly for an active operation when nobody holds the claim and, for a forget, nobody writes |
| StateStore.State.ForgetCheckout | scripts/repo-search/state.ts:1085-1120 | deletes the pointer exactly when neither a writer nor an enrollment editor holds the checkout, and leaves nothing else behind but its own finished row |
| StateStore.State.PruneMark | scripts/repo-search/state.ts:959-1002 | selects the least candidates up to the limit and marks exactly those |
| StateStore.State.CandidateList | scripts/repo-search/state.ts:959-990 | the loop over rows lists exactly the candidates, each once |
| StateStore.State.Prune | scripts/repo-search/state.ts:942-1048 | without a deadline: the rows and both directories of exactly the selected generations are gone, and nothing is removed only when there is no candidate |
| LifecycleSafety.CurrentIndexIsColdBuild | scripts/repo-search/lifecycle.ts:851-995 | in every state that any number of builders, with sessions, recovery, forgets and prunes between any two of their steps, can reach: the current generation of a checkout has an unmoved source, its store, merged over its base when it is an overlay, is the cold build of the one snapshot whose digest its row records, and a current overlay's base is on disk, ready, full, of the same repository and compatibility |
| LifecycleSafety.LifeStepKeeps | scripts/repo-search/lifecycle.ts:499-693 | each step of a builder, and each foreign event, keeps that knowledge |
| LifecycleSafety.OutcomeMatches | scripts/repo-search/lifecycle.ts:851-995 | what an active builder writes, read from the directories as they are by then, is what its row will say |
| BuildRuns.WhatIsDueIsBuilt | scripts/repo-search/lifecycle.ts:851-1175 | from the first step: with claims and native slot free, and a snapshot that has valid rows and fits the ceilings, one undisturbed builder publishes the cold build of the snapshot: full from nothing for a first build or a reindex, full from the current full and compatible generation for an update, an overlay over the ready, full, compatible current generation of the primary for a worktree (full when the primary has none, or an incompatible one), an overlay over the same base for the update of an overlay. The generation is current unless the last capture differs; nothing else changes |
| BuildRuns.OnlyWhatIsDueIsBuilt | scripts/repo-search/lifecycle.ts:1043-1175 | those are the only cases: an undisturbed builder goes on past its decision exactly when one of them holds, towards that target, and otherwise leaves with no row, pointer or directory touched |
| BuildRuns.UnmovedPrimaryIsNotRebuilt | scripts/repo-search/lifecycle.ts:586-623 | an update of a primary checkout that captures what its current generation records leaves it alone |
| BuildRuns.PlannedExactlyWhenSmall | scripts/repo-search/core/build.ts:127-169 | towards a pinned store the plan of a builder exists exactly when the bytes of changed files stay under the ceiling; a build from nothing has none |
| BuildSucceeds.OverlayOutcomeIs | scripts/repo-search/core/build.ts:632-694 | over a cold base: an overlay build fails for too many changed chunks, an invalid row, too many chunks of the worktree, or metadata that no reader would accept, in this order, and succeeds otherwise |
| LifecycleSafety.DecideKeeps | scripts/repo-search/lifecycle.ts:1094-1175 | the target a builder decides on is pinned by its operation, full when it is to be a base, and compatible, although inserting the row does not check the kind |
| LifecycleProgress.BuiltGenerationIsPublished | scripts/repo-search/lifecycle.ts:851-995 | a builder that has built, still holds the checkout and is accepted by the validator makes its generation ready when nobody comes between, current if and only if the capture after the build equals the one before it, and marked as moved otherwise |
| LifecycleProgress.WrongStoreIsRefused | scripts/repo-search/lifecycle.ts:899-908 | a staging directory that does not cover the snapshot, or is no overlay of it over the base, ends the publication before any row or directory changes |
| IndexUpdate.IncrementalRefinesCold | scripts/repo-search/core/build.ts:299-433 | cloning a store built from one snapshot, removing old rows, inserting replacements and rewriting the manifest has the very outcome, store or error, of building the new snapshot from nothing |
| IndexUpdate.BuildCodeIndex | scripts/repo-search/core/build.ts:299-433 | the imperative builder computes that outcome: rows, manifest, or the first error in the order ceiling, row, validation |
| IndexUpdate.ColdBuild | scripts/repo-search/core/build.ts:299-433 | a cold build succeeds exactly when the chunk ceiling holds and every row is valid, and then stores exactly the cold index and manifest |
| IndexUpdate.IncrementalBuild | scripts/repo-search/core/build.ts:299-433 | the same for an incremental build over a store built by the same tools |
| IndexUpdate.ColdIndexUnion | scripts/repo-search/core/build.ts:299-433 | cold indexes of disjoint file sets share no id, and their union is the cold index of the union |
| IndexUpdate.ValidateCodeIndexBuild | scripts/repo-search/core/build.ts:439-461 | accepts exactly the stores whose manifest has the identity, the paths and the hashes of the snapshot and counts the rows present |
| IndexUpdate.ValidateCodeIndexStore | scripts/repo-search/core/build.ts:463-494 | accepts exactly the stores of the right identity whose row count is the sum of the manifest's chunk counts |
| IndexUpdate.OnlyForItsOwnSnapshot | scripts/repo-search/core/build.ts:439-494 | the validator accepts a cold build for the model and snapshot it was built for and for no other, and no longer once a row is missing or added, a part is missing, or the manifest has another version |
| IndexUpdate.Upsert | scripts/repo-search/core/codeIndexRuntime.ts:213-220 | all rows are normalized before any is stored: a batch with a blank text, id or path, or a vector of other than 768 numbers is refused whole, otherwise the index is updated id by id |
| IndexBuild.PlanCodeIndexBuild | scripts/repo-search/core/build.ts:127-169 | the plan carries the exact diff; it fails exactly when the previous manifest is missing or the changed bytes exceed the ceiling of an incremental build |
| IndexBuild.BytesAddUp | scripts/repo-search/core/build.ts:150-160 | the changed bytes that the ceiling speaks of are the lengths of the listed files, added up |
| IndexBuild.EmbedReplacementChunks | scripts/repo-search/core/build.ts:209-294 | one vector per distinct text, from the cache or from the model, each text counted on exactly one side |
| IndexBuild.ChunkBatches | scripts/repo-search/core/build.ts:200-207 | batches concatenate to the items, all full but the last |
| IndexRows.ChunkIdIsInjective | scripts/repo-search/core/codeIndexRuntime.ts:321-323 | path#index determines path and index, even for paths that contain # and digits |
| IndexRows.ColdIndexIds | scripts/repo-search/core/build.ts:299-433 | the ids of a cold index are exactly path#0 to path#(chunkCount-1), as many as the manifest counts |
| Manifest.DiffManifest | scripts/repo-search/core/fileManifest.ts:36-78 | changed, deleted and unchanged paths, each sorted and without repeats, are exactly those of the two sides; they share no path and together name every path of either side |
| Manifest.UniqueSorted | scripts/repo-search/core/overlayManifest.ts:33-47 | the sorted list of the distinct values |
| Manifest.PathLeByFirstDifference | scripts/repo-search/source.ts:768 | one path comes before another if it is a prefix, or has the lesser character where they first differ |
| Manifest.EnumerationIsUnique | scripts/repo-search/core/overlayManifest.ts:33-47 | a set of paths has exactly one canonical list, so comparing canonical lists compares sets |
| OverlayBuild.MergedViewIsColdBuild | scripts/repo-search/core/build.ts:632-694 | for every base and worktree snapshot: base rows outside the tombstones, united with the overlay's rows, are the rows of a cold full build of the worktree; the two parts share no path and no id; the complete manifest is the cold one |
| OverlayBuild.PlanOverlayBuild | scripts/repo-search/core/build.ts:585-625 | tombstones are exactly the deleted and the changed base paths; fails exactly for an invalid base store or too many changed bytes |
| OverlayBuild.BuildOverlayIndex | scripts/repo-search/core/build.ts:632-694 | stores the cold build of the changed files and the complete manifest, or the first error |
| OverlayBuild.CheckShape | scripts/repo-search/core/overlayManifest.ts:62-125 | accepts exactly sorted tombstones without repeats that name no file |
| OverlayBuild.OutsideIsCold | scripts/repo-search/core/build.ts:585-625 | filtering a cold index by path is building fewer files |
| OverlayValidation.ValidateOverlayBuild | scripts/repo-search/core/build.ts:780-905 | its loops accept exactly the overlays that the planner and builder define for the snapshot, which are exactly those that the independently written store validator accepts and whose paths, hashes and tombstones are the snapshot's |
| OverlayValidation.ValidateOverlayStore | scripts/repo-search/core/build.ts:697-777 | its loops accept exactly the overlays whose complete manifest is the base outside the tombstones, disjointly united with the changed files |
| OverlayValidation.BuiltOverlayIsAccepted | scripts/repo-search/core/build.ts:632-694 | whatever the builder produces over a validated base, the build validator accepts |
| OverlayValidation.AcceptedCountsAddUp | scripts/repo-search/core/build.ts:697-777 | total chunks are the base's rows, less those of tombstoned paths, plus the overlay's rows |
| Chunking.LineWindowChunks | scripts/repo-search/core/chunk.ts:29-61 | the loop emits the non-blank windows of 60 lines, 50 apart, numbered in order |
| Chunking.WindowsAreNumbered | scripts/repo-search/core/chunk.ts:29-61 | chunk i has index i, holds exactly the lines it names, and its text for the model is the path comment and those lines |
| Chunking.NonBlankLineIsCovered | scripts/repo-search/core/chunk.ts:29-61 | every line that is not blank lies in at least one and at most two chunks |
| Chunking.ChunkFileIsNumbered | scripts/repo-search/core/chunk.ts:125-156 | whichever chunker is taken, chunks of a file are numbered 0 to n-1 under its own path |
| FileRows.TreeChunksAreRows | scripts/repo-search/core/chunk.ts:125-156 | seen from a cold index: a file of a known language for which the syntax-tree chunker answers has exactly the chunks of that answer as rows, path#i holding chunk i |
| FileRows.WindowsAreRows | scripts/repo-search/core/chunk.ts:125-156 | any other file that is not blank is cut into line windows: each row is the window of at most 60 lines it names, and each non-blank line lies in one or two rows |
| FileRows.BlankFileHasNoRows | scripts/repo-search/core/chunk.ts:134-138 | a blank file has no rows |
| FileRows.RowTexts | scripts/repo-search/core/codeIndexRuntime.ts:301-318 | the text embedded is the contextualized one, and the text searched is that one with the tokens of it, the symbol and the path |
| FileRows.WindowRowsAreValid | scripts/repo-search/core/codeIndexRuntime.ts:347-366 | rows cut from windows are valid exactly when the path is not blank and the vectors have 768 numbers |
| Chunking.ExcerptRestoresChunk | scripts/repo-search/search.ts:162-168 | on unchanged bytes the excerpt of a line-window chunk is exactly its content |
| Chunking.JoinInvertsSplit | scripts/repo-search/search.ts:162-168 | joining split lines gives the text back, and no line holds a line feed |
| Chunking.NormalizeIsIdempotent | scripts/repo-search/core/chunkContract.ts:15-17 | normalizing twice is normalizing once, and text without carriage returns stays |
| Chunking.EveryEndingIsALineFeed | scripts/repo-search/core/chunkContract.ts:15-17 | each line ending, CR LF, CR or LF, is one line feed afterwards, and the lines are as they were |
| Contracts.DigestIdentifiesSnapshot | scripts/repo-search/source.ts:705-712 | two snapshots have the same digest exactly when they have the same files |
| Fusion.ReciprocalRankFuse | scripts/repo-search/core/codeIndexRuntime.ts:130-154 | the accumulation loops, the stable sort and the normalization compute the fused list |
| Fusion.FusedScoresAreTotals | scripts/repo-search/core/codeIndexRuntime.ts:130-154 | the score of a fused hit is the sum of 1/(60+position) over all its places in all lists, relative to the best such sum |
| Fusion.FusedKeepsTheBest | scripts/repo-search/core/codeIndexRuntime.ts:150-152 | nothing left out by the limit has a higher total than anything kept |
| Fusion.FusedIsRanked | scripts/repo-search/core/codeIndexRuntime.ts:130-178 | distinct identities, scores falling from exactly 1 and never 0, and all identities when the limit covers them |
| Fusion.DisjointListsInterleave | scripts/repo-search/core/codeIndexRuntime.ts:130-154 | lists that share no identity fuse to the round robin of their ranks, earlier list first |
| Fusion.SingleListKeepsItsOrder | scripts/repo-search/core/codeIndexRuntime.ts:130-178 | one list keeps its order, rank r scoring 61/(61+r) |
| Fusion.IdentityIsInjective | scripts/repo-search/core/codeIndexRuntime.ts:126-128 | two hits have the same identity exactly when they name the same lines of the same path |
| Search.Search | scripts/repo-search/search.ts:318-463 | the refill loop computes the specified outcome, and succeeds exactly for a limit from 1 to 20 |
| Search.GatherCandidates | scripts/repo-search/search.ts:434-456 | drops tombstoned base hits and repeated identities per source, fuses the rest, and notices a source that filled its window |
| Search.Query.ValidateRound | scripts/repo-search/search.ts:360-423 | the candidate loop with its read cache, budgets and counters, in order |
| Retrieval.WindowsIncrease | scripts/repo-search/search.ts:129-137 | the windows are two, four and eight times the limit and 160, none above 160: at most four rounds, each strictly larger, the last 160 |
| Retrieval.CandidatesOffer | scripts/repo-search/search.ts:432-456 | the candidates of a window are exactly what the sources offer in it, each once, best first, and everything that matches when no source filled its window |
| Retrieval.CandidatesGrow | scripts/repo-search/search.ts:429-456 | a wider window keeps every candidate |
| Retrieval.VisitAllReads | scripts/repo-search/search.ts:360-423 | over any rounds the cache holds only unchanged contents of at most 40 attempted files and 20 MiB, and the exhausted flag is set exactly when a budget, not a file, kept some path out |
| Retrieval.VisitAllCounts | scripts/repo-search/search.ts:360-423 | over any rounds each omitted identity is counted once, and each stale one is an omitted one |
| SearchProperties.SearchStops | scripts/repo-search/search.ts:429-463 | a search ends after the first window that filled the limit or that no source could fill, or else after 160; the flag is set exactly when a budget kept a file out or the hits stayed short although a source could fill that last window |
| SearchProperties.SearchAccounting | scripts/repo-search/search.ts:351-459 | after all rounds eligible plus omitted candidates are the fused candidates of the last round; stale ones are at most the omitted ones, one for each unknown identity and each attempted file that changed; at most 40 files and 20 MiB |
| SearchProperties.HitsAreCurrent | scripts/repo-search/search.ts:412-420 | every hit carries the manifest's hash, shows the file's present lines, and comes from a source outside tombstoned base paths |
| SearchProperties.HitsAreRanked | scripts/repo-search/search.ts:457-458 | at most the limit, best score first, no lines twice |
| SearchRanks.HitScoresAreShares | scripts/repo-search/search.ts:432-458 | the score of every hit returned is the sum over the sources of 1/(60 + the number of distinct undropped hits of the last window up to it), relative to the best such sum of any identity offered |
| SearchRanks.HitIsFirstOffered | scripts/repo-search/search.ts:412-420 | and its symbol is that of the first source and place that offered its lines |
| SearchOverlayOrder.OverlayHitsTakeTurns | scripts/repo-search/search.ts:344-463 | an overlay search returns, in order, the readable members of the round robin of base and overlay hits, base first, when the two share no lines |
| SearchProperties.SearchIsComplete | scripts/repo-search/search.ts:425-463 | fewer hits than asked for without the flag: a matching hit of the merged index is returned if and only if its file still has the manifest's hash |
| SearchProperties.OnlyTheFileBudgetBinds | scripts/repo-search/search.ts:138-139 | under the reader's ceiling of 512 KiB the byte budget never stops a read: the budget is exhausted exactly when the candidates lie in more than 40 indexed files |
| SearchProperties.FullSearchAnswersTheColdBuild | scripts/repo-search/search.ts:318-463 | end to end for the ordinary search: a complete search over a full generation finds a matching row of the cold build exactly when its file still has the captured bytes, and finds nothing else |
| SearchProperties.OverlaySearchAnswersTheColdBuild | scripts/repo-search/search.ts:344-463 | end to end: a complete search over a built overlay and its base finds a matching row of the cold full build of the worktree exactly when its file still has the captured bytes, and finds nothing else |
| Enumeration.EnumerateTrackedPaths | scripts/repo-search/source.ts:290-455 | however the output is cut into chunks, the outcome is a function of the bytes before the first interrupt: budget error, interrupt, failed or unterminated output, or the tally of all records |
| Enumeration.EnumerationOutcome | scripts/repo-search/source.ts:345-455 | it succeeds exactly for at most 16 MiB of whole records, few enough admitted paths, no interrupt and exit code zero, and then lists the admitted paths; otherwise sizes are reported before interrupts, and interrupts before exit codes |
| Enumeration.NothingAfterAnInterrupt | scripts/repo-search/source.ts:411-430 | chunks count in their order up to the first interrupt, and nothing after it |
| Enumeration.RecordsResume | scripts/repo-search/source.ts:398-409 | splitting may be resumed from the unfinished record alone |
| Enumeration.RecordsRestoreStream | scripts/repo-search/source.ts:398-409 | the records, each with its NUL, and the rest give the stream back; none holds a NUL |
| Enumeration.TallyIsExact | scripts/repo-search/source.ts:345-373 | every distinct decoded path is eligible or counted under its reason exactly once, every undecodable record is counted, nothing else is |
| Enumeration.Enumerator.OnData | scripts/repo-search/source.ts:386-410 | one chunk takes the state for the bytes so far to the state for the bytes with the chunk |
| Capture.CaptureSnapshot | scripts/repo-search/source.ts:754-803 | reads the eligible paths in path order and stops at the first failure or when the byte budget is exceeded |
| Capture.CaptureIsExact | scripts/repo-search/source.ts:770-792 | succeeds exactly when no read fails and the usable contents fit the budget, and then holds exactly those contents, with every exclusion counted under its reason |
| Capture.CaptureFailsAtTheLeast | scripts/repo-search/source.ts:768-803 | a capture that fails reports the least path, in path order, whose read fails or whose bytes no longer fit; all before it could be read and fitted |
| Capture.EveryPathIsAccountedFor | scripts/repo-search/source.ts:763-803 | captured files plus all exclusion counts are the distinct decoded paths plus the undecodable records |
| EmbeddingCache.Cache.Prune | scripts/repo-search/core/codeEmbeddingCache.ts:282-290 | deletes the least rows, as many as overflow the limit, at most the given number: no row deleted was used later than one kept, nor created later when used at the same time, nor comes after it by namespace and hash then |
| EmbeddingCache.Cache.PruneUnused | scripts/repo-search/core/codeEmbeddingCache.ts:348-359 | ends for every contents; its portions, of at most 100 least rows each, together are one eviction, and without a deadline exactly the overflow goes |
| EmbeddingCache.Cache.PutMany | scripts/repo-search/core/codeEmbeddingCache.ts:329-346 | all states committed by the call, those of the leading prune and those of the batches, are within the capacity if and only if at most 100 rows overflowed it before the call; each batch state is the previous one with the next 16 rows stored and the least rows evicted |
| EmbeddingCache.Cache.GetMany | scripts/repo-search/core/codeEmbeddingCache.ts:294-327 | returns exactly the usable rows asked for; each of them is marked as used now and once more and otherwise as before, unusable ones are deleted, rows not asked for are untouched |
| EmbeddingCache.FoundOutlastsOthers | scripts/repo-search/core/codeEmbeddingCache.ts:294-346 | when every row was used before, no eviction after a look-up removes a row just found while one is left that was not asked for |
| EmbeddingCache.EvictionIsUnique | scripts/repo-search/core/codeEmbeddingCache.ts:282-290 | the number evicted and the order decide the survivors |
| EmbeddingCache.EvictionComposes | scripts/repo-search/core/codeEmbeddingCache.ts:348-359 | evicting in portions is evicting at once |
| EmbeddingCache.UpsertedRow | scripts/repo-search/core/codeEmbeddingCache.ts:268-277 | the last vector put for a text is stored and marked used now, while creation time and hit count of an existing row stay; rows of other texts stay |
| EmbeddingCache.PutThenFound | scripts/repo-search/core/codeEmbeddingCache.ts:294-346 | a text just put and not evicted is found again with its last vector |
| EmbeddingCache.PutManyThenFound | scripts/repo-search/core/codeEmbeddingCache.ts:294-346 | when every row was used before and no more texts are put than the cache holds, every text put by the call is found after it, with its last vector: no eviction of the call removes one |
| EmbeddingCache.PortionsWithin | scripts/repo-search/core/codeEmbeddingCache.ts:348-359 | no state that a pruning commits is above the limit if and only if at most 100 rows overflowed it |
| HomePaths.Generalize | scripts/generalize-home-paths/cli.py:19-26 | the loop makes the plain and the escaped pass of each distinct home, none before a longer one |
| HomePaths.GeneralizedIsSettled | scripts/generalize-home-paths/cli.py:19-26 | for all texts and homes without an exposed ~, after all passes no pattern of any home matches anywhere |
| HomePaths.GeneralizeIsIdempotent | scripts/generalize-home-paths/cli.py:19-26 | for all texts and homes without an exposed ~, running again changes nothing, even in another order of the homes |
| HomePathTildes.TildeInAHomeBreaksIdempotence | scripts/generalize-home-paths/cli.py:19-26 | for every home with an exposed ~ that the command line accepts there are a shorter home without ~ and a text that a second run changes again |
| HomePathTildes.ExposedTildesDecide | scripts/generalize-home-paths/cli.py:19-26 | so an accepted home keeps every text idempotent beside every home without exposed ~ if and only if it has none itself |
| HomePaths.SettledStays | scripts/generalize-home-paths/cli.py:19-26 | a text that no pattern matches stays as it is |
| HomePaths.LongerNamesStay | scripts/generalize-home-paths/cli.py:20-25 | a home without an exposed ~ that only begins longer names in a text is never rewritten, whatever the other homes do to the text: the result is that of the others alone, and it still does not match |
| HomePaths.UnmatchedHomeIsInert | scripts/generalize-home-paths/cli.py:20-25 | the same for a home without an exposed ~ that for any reason matches nowhere |
| HomePathOrder.LongestHomeWins | scripts/generalize-home-paths/cli.py:19-26 | for homes without an exposed ~ and a text with any number of matches, where matches of different patterns neither overlap nor touch, all passes together are one substitution from left to right that replaces the longest matching home at each position, in either spelling |
| HomePathOrder.SubsAreAtOnce | scripts/generalize-home-paths/cli.py:22-25 | for any list of patterns without an exposed ~ whose matches keep apart, substituting one after the other is substituting all at once, the first pattern winning |
| HomePaths.MatchWasThere | scripts/generalize-home-paths/cli.py:22-25 | a match of a pattern without an exposed ~ after a substitution was a match before it that the substitution did not touch |
| HomePathTies.TiesDoNotDecide | scripts/generalize-home-paths/cli.py:21 | where homes have no exposed ~ and those of equal length are accepted and whole, every order in which a set may yield them gives the same result, for every text |
| HomePathTies.TiesMayDecide | scripts/generalize-home-paths/cli.py:21 | for every accepted home without an exposed ~ that is not whole there are another one of its length and a text that comes out differently in the two orders |
| HomePathTies.WholeHomesDecide | scripts/generalize-home-paths/cli.py:21 | joined for homes without backslashes: such a home is whole if and only if beside every whole home of its length, and in every text, the order of the two is of no consequence |
| Board.MoveCard | design-system/helpers/plan-board.js:28-34 | the splicing and the search for the last card of the lane compute the moved array |
| Board.MoveRefinesLanes | design-system/helpers/plan-board.js:28-34 | seen lane by lane, a move takes the card out of its lane and puts it before the named card of the target lane, or at its end |
| Board.OtherLanesStay | design-system/helpers/plan-board.js:28-34 | whatever the before-id names, no other lane changes |
| Board.ShiftColumnLands | design-system/helpers/plan-board.js:38 | a shift by columns puts the card last in the lane that many columns on, leaves every other lane, and does nothing beyond the ends |
| Board.DragIsMove | design-system/helpers/plan-board.js:40-42 | a drag dropped on a lane or card is that move |
| Board.DragCancelled | design-system/helpers/plan-board.js:40-43 | a drag given up changes no card |
| Board.CardsAreConserved | design-system/helpers/plan-board.js:35-47 | over every sequence of actions ids stay unique and no card is lost, duplicated or altered apart from its column |
| Board.ShiftRankInLane | design-system/helpers/plan-board.js:39 | where a rank shift of any distance puts the card: one short beyond distance 1, last for distance 0 or before a card with an empty id; no other lane changes |
| Board.ShiftRankSwaps | design-system/helpers/plan-board.js:39 | a shift by one rank is the swap with the neighbour if and only if the card it is put before has no empty id |
| Board.ShiftDownAndUp | design-system/helpers/plan-board.js:39 | a shift down and back up restores every lane if and only if neither of the next two cards of the lane has an empty id |
| Board.FlatOrderRestored | design-system/helpers/plan-board.js:28-39 | down and back up restores the flat array if and only if it restores the lanes and the next card of the lane is also the next one of the array |
| Board.FlatOrderIsNotRestored | design-system/helpers/plan-board.js:28-39 | an array where it does not: a card of another lane in between |

## Left out

- File modes, owners, symbolic links, inode checks of parent directories, and the opening of SQLite: operating-system
  facts. A directory exists or not, and has an identity.
- A partly finished `rm` of a directory tree, and the separate files of one write: each is one step.
- Library code: the ranking inside the search engine, msgpack, JSON text, ONNX, the syntax-tree chunker.
- Disk-space and byte-budget measurement: a growth check that fails stops the call.
- Deadlines in `PruneConverges`: a round that a deadline cuts short is covered by the safety lemmas, not by the count
  of rounds.
- PruneConvergence.PruneConverges: speaks of rounds with no other activity between them; `UndisturbedPruneIsARound`
  ties a round to the interleaved steps.
- LifecycleSafety.CurrentIndexIsColdBuild: a builder is a sequence of steps rather than one method, because every
  `await` is a point where others may act; its cleanup is the freedom to stop, or to finish the operation, anywhere.
- IndexUpdate.Upsert: takes and returns the index as a map, where the engine updates its database in place.
- BuildRuns.WhatIsDueIsBuilt: the update of an overlay validates the current overlay store before it plans
  (`lifecycle.ts` lines 1107 to 1120), and a `build` of a built checkout validates its store; neither is a step of the
  builder here. An overlay needs a model name and a base without an empty path.
- StateStore.State.Publish: is the uninterrupted call; interleavings are the subject of `Protocol`.
- ProtocolSafety.ForgottenStaysForgotten: covers the time for which the claim is held; afterwards a new writer may
  publish again.
- EmbeddingCache.Cache.GetMany: takes the text hashes instead of the texts, and a stored blob as the vector it decodes
  to; rounding to 32-bit floats is not modelled.
- Enumeration.EnumerateTrackedPaths: the path policy (excluded directories, secrets, tests, extensions) is a parameter.
- HomePathTildes.ExposedTildesDecide: is exact for one home beside all others, and says nothing about a given set of
  homes.
- HomePathTies.WholeHomesDecide: is joined for homes without backslashes; for others the two halves are
  `HomePathTies.TiesDoNotDecide` and `HomePathTies.TiesMayDecide`.
- HomePaths.GeneralizeIsIdempotent: the class of word characters is a parameter, and the empty home, which the command
  line refuses, is not modelled.
- Root-level paths named like inherited object members, for example `constructor`: manifests are finite maps here,
  while the validators look entries up through the prototype (`core/build.ts` lines 744 and 757).
- Enrollment records, receipts, status text, request validation and exit codes: single-branch checks.
- The query vector, embedding runtime and native slot of a search session, and its opening and disposal.
- The vector and full-text fusion inside one store is `ReciprocalRankFuse` on two lists; its ranking inputs are left out.
- The file walk, backup and atomic write of `generalize-home-paths`, and the demo data and column labels of the board.
