# Verification of the hardware inventory

This project models the snapshot store of `crates/hw-inventory` and four cores beside it, and
proves what they promise. The heart is a transition system: any number of
`observe_inventory` calls, direct publishers, retention calls and store openings on one state
directory, interleaved at every SQL transaction, single statement and file operation, with
failing calls, dropped futures and process crashes between any two steps. All claims about it
are about every run.

| file | what it holds |
|---|---|
| `Store.dfy` | tables and report directory as one value, one function for each transaction, statement or file operation |
| `InventoryStore.dfy` | the store as a class over its tables; each method is proved against the function in `Store.dfy` that the runs use |
| `Observe.dfy`, `Retention.dfy`, `Opening.dfy` | `observe_inventory_with_scanner` and the direct publisher, `apply_retention_sync`, `initialize`, step by step |
| `System.dfy` | all of them interleaved; `Behaviour` is a run |
| `Effects.dfy`, `Invariants.dfy`, `Preservation.dfy`, `Safety.dfy` | what one actor may do to the others, and the invariant that every step of every run keeps |
| `Theorems.dfy`, `Acceptance.dfy`, `Closing.dfy`, `Origins.dfy`, `Reuse.dfy`, `Renewal.dfy`, `LeaseWait.dfy`, `LeaseRules.dfy` | what is never wrong in any run: publishing, closing, reusing, renewing, waiting |
| `SteadyState.dfy`, `Progress.dfy` | what a call does when nothing goes wrong |
| `Artifacts.dfy`, `SweepWindow.dfy`, `OpenedDirectory.dfy`, `Residue.dfy`, `Recovery.dfy` | when report files are conserved, and when not; what is left over, and what opening a store cleans up |
| `RetentionChoice.dfy`, `RetentionTheorems.dfy`, `RetentionAlone.dfy` | what retention deletes |
| `SourceCache.dfy`, `SourceCacheTheorems.dfy`, `SourceCacheAnswers.dfy`, `SourceCacheHits.dfy` | the single-flight cache with its command semaphore |
| `Strings.dfy`, `Records.dfy`, `Key.dfy`, `Canonical.dfy`, `Spelling.dfy` | the two identity encodings, and what they keep of the values |
| `Collector.dfy`, `Merge.dfy`, `PciIds.dfy` | parallel and serial probing, deduplication, PCI folding |
| `Flatten.dfy`, `Diff.dfy`, `CpuList.dfy`, `Decimal.dfy`, `DeviceTree.dfy` | tree, map and list algorithms |

How the model stands for the program:

- Foreign keys, primary keys, cascades and the single-row tables follow
  `crates/hw-inventory/migrations/0001_initial.sql`. A statement that a key rejects fails.
- UUIDv7 ids and row ids are fresh when drawn. Rows of `probe_history` are never deleted, so
  the next row id of SQLite is new.
- SQL compares timestamps as text. A stored creation time therefore has a place in the text
  order and, independently, an instant that parsing gives. The clocks that a step reads are
  arbitrary inputs: nothing is assumed to be monotone or to agree.
- The answer of an unordered query (queued paths, a directory listing) is any listing of the
  rows that are there; an ordered one is the listing in that order.
- Digests and report parsing are functions that nothing is known about, except that a report
  that was just serialized parses back with its own schema version.
- `history` in a `Db`, and the fields `mark`, `checkedAt`, `report`, `quickFinishes`,
  `fullFinishes` and `failed` of a caller, are history variables that no step reads to decide.
- `failed` of a caller records that a statement failed which would have finished one of its
  probe rows or released its lease, or one in the wait loop, whose error ends the call at once
  with its quick row still open. No other failure sets it.

Findings:

- The cache key of a command is its timeout in whole milliseconds, but a timeout of zero is
  answered without running. A zero and a sub-millisecond timeout share a key, so the cache can
  answer one with the other's answer. `SourceCacheAnswers.AgreementExactly` gives the exact
  condition for agreement with an uncached runner, and the run that breaks it otherwise.
- A joined list field (`joined`) does not escape the comma that it joins with: a list of two
  values and the one value that contains them with a comma give the same record text
  (`Canonical.CommaCollides`). Lists of values without commas are told apart
  (`Canonical.JoinedExactly`).
- The age bound is cast from `u64` to `i64`: a bound of 2^63 seconds or more admits only
  snapshots whose creation time lies in the future (`Observe.WithinAge`).
- Orphan recovery does not look at the lease, so it can remove a report that is written but not
  yet committed. It runs when any process opens the store, and in the public
  `recover_orphan_artifacts` of a store that is in use. Reports are conserved in every run that
  has no state in which a publisher that owns the lease stands before its commit and a sweep is
  on its way to its file (`Artifacts.ArtifactsConserved`). Each such state has a continuation
  that loses the report (`SweepWindow.DangerLosesReport`), and such states are reached
  (`SweepWindow.RecoveryDuringPublication`).

## Model

| member | source | states |
|---|---|---|
| Theorems.FencedHistory | crates/hw-inventory/src/store.rs:330-342 | A publication commits only while its owner holds the single lease row, which has been its own without a break since that caller acquired it; nothing else was published since, and the `previous` id read under the lease is the snapshot current just before the commit. For every interleaving and any clocks. |
| Acceptance.CommitWasAcceptable | crates/hw-inventory/src/service.rs:337-445 | Whatever an observing call commits had come from an own scan at an earlier step: that scan had not failed, its report is core-complete and not a partial one that the call refuses, and the committed row has exactly the digest, size, schema, creation time, identity and completeness of that report; the state row takes its identity from the quick probe if that saw the whole core, else from the report. The same for direct publishers and the report they were given. |
| Acceptance.BadScanPublishesNothing | crates/hw-inventory/src/service.rs:337-430 | A call whose scan failed, was refused as partial or is core-incomplete, and a direct publisher with a failed or incomplete report, publishes nothing at any step and ends in exactly the matching error, or, if it observes, in the error of a store call that failed on the way out. |
| Acceptance.RefusedCommitPublishesNothing | crates/hw-inventory/src/store.rs:330-342 | A commit that comes when the lease is lost or expired publishes nothing, nor does the call afterwards, and it ends in the stale-lease error or the error of a store call. |
| Acceptance.ErrorHasCause | crates/hw-inventory/src/service.rs:106-292 | Conversely every error has its cause: a call is on its way to `FullScanFailed`, `PartialRejected`, `CoreIdentityIncomplete`, `StaleLease`, `LeaseTimeout`, `SnapshotNotFound`, a rejected artifact, an invalid report, or a database or file error only because an own earlier step met just what that error stands for (for a database error: a failing call or a rejected key). |
| Theorems.OwnerIdentifiesActor | crates/hw-inventory/src/service.rs:169 | An owner id belongs to one caller for the whole run, so holding the lease under it means being that caller. |
| Theorems.OnlyOwnersCommit | crates/hw-inventory/src/store.rs:316-414 | The publication history changes only by the commit of a caller that owns the lease, and then by exactly its publication. |
| Theorems.OnlyOwnersAcquire | crates/hw-inventory/src/store.rs:565-588 | A lease row with some owner appears only by an acquisition step of that owner. |
| Closing.EveryPathCloses | crates/hw-inventory/src/service.rs:106-292 | When a call is over and none of the statements failed that close a row or release the lease, it holds no lease, has finished each of its rows exactly once, and the rows fit its result: the quick row succeeded and names the answer (or failed with the quick probe), the full row names it with the completeness of its report, or there is none for a reused one; after an error both failed and name nothing, unless only the final load failed. Nobody changes that later, but for the names of deleted snapshots. |
| Origins.RowsNameTheirOrigin | crates/hw-inventory/src/store.rs:531-543 | At every time the quick row of a call names the snapshot that was current at its first read, and its full row the one read under the lease, unless these have been deleted since. |
| Theorems.CommitFinishesItsRow | crates/hw-inventory/src/store.rs:401-411 | A commit always finds its own full-scan row still running and leaves it finished and naming the new snapshot; stale recovery never got in between. |
| Theorems.ForcedObservationIsFresh | crates/hw-inventory/src/service.rs:180-208 | With a forced full scan, and for every answer from a new scan, the snapshot answered with was not in the history at the call's first state read and is not the one current then. |
| Reuse.ReuseIsSound | crates/hw-inventory/src/service.rs:521-543 | A reused answer names the snapshot that was current when the call read the state row at step r, which then recorded exactly the bind id, fingerprint and version of the call's quick probe; by the clock of step m of the call (r itself, or the end of the quick probe after the first read) it was created no more than the bound ago, in seconds, for bounds below 2^63, and lay in the future for larger ones; the bytes of every answer have the digest, size and schema version recorded at its commit. |
| Observe.IsFresh | crates/hw-inventory/src/service.rs:570-582 | A snapshot is fresh exactly if there is no bound, or its creation time parses and lies at most that many seconds back (in the future, for bounds of 2^63 and more). |
| Renewal.LeaseKept | crates/hw-inventory/src/store.rs:598-617 | A lease that its owner does not release, and whose expiry no clock reaches that is compared with it, stays with its owner over any stretch of a run. |
| Renewal.TimelyScanKeepsLease | crates/hw-inventory/src/service.rs:469-495 | As long as the clocks that anybody compares with the lease do not go back, a scan whose own renewals and commit each come before the expiry that it wrote last holds the lease row with that expiry each time, goes on after every renewal, and is not turned away as stale; other callers and stale recovery may run at any time. |
| Theorems.FailedRenewalPublishesNothing | crates/hw-inventory/src/service.rs:484-490 | After one failed renewal the call publishes nothing, and it can only end in the stale-lease error or the error of a failing store call. |
| Theorems.HistoryGrows | crates/hw-inventory/src/store.rs:279-314 | Over any stretch of any run the history of publications is only extended. |
| Safety.AlwaysInv | crates/hw-inventory/migrations/0001_initial.sql:25-35 | In every reachable state: the state row mirrors the last publication and names an existing snapshot, no foreign key dangles, snapshot rows are as published, and every caller's lease, row and answer invariants hold. |
| Safety.DoKeepsSys | crates/hw-inventory/src/store.rs:251-268 | Every step of every kind of actor, a cancellation and a crash keep that invariant. |
| Effects.StepHasEffect | crates/hw-inventory/src/service.rs:106-292 | What one step of a call may do to the shared state: only its own rows, files and lease, and at most one publication, which needs the lease. |
| Effects.RetentionHasEffect | crates/hw-inventory/src/maintenance.rs:96-199 | No step of retention grants a lease, touches the state row or the history, or sets a probe row running. |
| Effects.OpeningHasEffect | crates/hw-inventory/src/store.rs:632-658 | No step of opening fails a running probe row while a lease row survives it. |
| Preservation.StepKeepsInvariants | crates/hw-inventory/src/service.rs:315-452 | A caller's own step keeps the database invariant and its own lease, row and answer invariants. |
| Invariants.StableUnderRely | crates/hw-inventory/src/store.rs:632-658 | A caller's invariants survive what the others may do meanwhile. |
| LeaseWait.TimeoutOnlyAfterStall | crates/hw-inventory/src/service.rs:171-234 | The wait gives up at exactly the poll at which the same owner and expiry were seen by every poll since a step at least the timeout ago by the caller's clock; otherwise it tries again. |
| LeaseWait.WaitEnds | crates/hw-inventory/src/service.rs:171-234 | In every run, a call whose polls are at least an interval apart stays in the wait loop for at most five own steps for each interval in the timeout, anew after each change of the lease that it sees; it waits for ever only if that lease changes for ever. |
| LeaseWait.WaitForLease | crates/hw-inventory/src/service.rs:171-234 | The loop by itself: it ends if the lease settles, and at the first turn that acquires, finds a reusable snapshot or completes an unchanged timeout. |
| SteadyState.SteadyStateReuses | crates/hw-inventory/src/service.rs:120-144 | An unforced call whose quick probe sees the recorded identity, with the snapshot created no longer ago than the bound and nothing published meanwhile, answers with the current snapshot after exactly eight steps of its own and never starts a full scan, whatever the others do, openings and recoveries included, in every run that conserves reports by `Artifacts.ArtifactsConserved`. |
| SteadyState.SteadyStateAfterPublish | crates/hw-inventory/src/service.rs:521-543 | From end to end, in the same runs: after a publication made with a core-complete quick probe and with nothing published since, every unforced call whose quick probe sees the same identity within the age bound answers with that very snapshot by the reuse path. |
| SteadyState.PublishRecordsQuickProbe | crates/hw-inventory/src/service.rs:431-443 | A publication made with a core-complete quick probe leaves exactly that probe's identity in the state row. |
| Progress.NeededScanIsStarted | crates/hw-inventory/src/service.rs:111-208 | If the quick probe fails or finds nothing to reuse (no snapshot, forced, other hardware or too old), nobody publishes, nothing fails and the lease is free, the call scans after exactly eight steps of its own, with a probe row of its own. |
| Progress.GoodScanIsAnswered | crates/hw-inventory/src/service.rs:431-445 | From the end of a scan with an acceptable report, if nothing fails, nobody else publishes and the commit is in time, the call has answered after exactly eight steps of its own with the new snapshot, which is the current one. |
| Progress.DirectReportIsPublished | crates/hw-inventory/src/store.rs:54-79 | A direct publication of an acceptable report, with the lease free, nothing failing and the commit in time, is done after exactly six steps of its own with the new snapshot as the current one. |
| Progress.PeersSnapshotIsReused | crates/hw-inventory/src/service.rs:171-216 | A call that is kept from the lease, or gets it only after somebody else has published, answers with that snapshot, forced or not, if it records what the call's own quick probe saw, after seven or eight own steps and without a scan. |
| Artifacts.ArtifactsConserved | crates/hw-inventory/src/artifact.rs:44-84 | With any number of openings and recoveries beside publishers and retention: in every state of every run in which no sweep is on its way to a report that its publisher is about to commit under its lease, every committed snapshot row has its report on disk as recorded, and the delete queue holds no path of a live row. |
| OpenedDirectory.OpenedDirectoryIsExact | crates/hw-inventory/src/artifact.rs:156-177 | In runs in which stores open alone, right after a successful `initialize`, whatever crashed before, the JSON files are exactly the live rows' reports and no temporary file is left. |
| SweepWindow.DangerLosesReport | crates/hw-inventory/src/artifact.rs:156-177 | The condition of conservation is exact: every state of every run that it excludes has a continuation that ends with a committed row without its report. |
| SweepWindow.RecoveryDuringPublication | crates/hw-inventory/src/store.rs:148-151 | Such states are reached: the run in which orphan recovery, called on the publisher's own store or by another one, lists the known paths before the commit. |
| Residue.NothingForgotten | crates/hw-inventory/src/maintenance.rs:171-229 | In every state of every run a report file whose snapshot was committed and has been deleted waits in the delete queue. |
| Residue.FailedPublicationIsCleanedUp | crates/hw-inventory/src/store.rs:308-310 | Once the removal of the report of a failed commit, or of the temporary file of a failed write, has succeeded, the file never comes back. |
| Recovery.RecoveryCleansUp | crates/hw-inventory/src/store.rs:632-658 | When a store opens and no lease is in force by its clock, the expired lease is gone, exactly the running rows older than the cutoff have failed, and they never run again in the rest of the run; while a lease is in force nothing is touched. |
| Artifacts.DeleteKeepsLive | crates/hw-inventory/src/maintenance.rs:174-193 | The delete transaction queues only paths of rows it deletes, and every remaining row keeps its verified report. |
| Retention.Classify | crates/hw-inventory/src/maintenance.rs:138-170 | The loop's counters count their verdicts, the four protected ones and `eligible` sum to `examined`, and the eligible list is the specified one. |
| RetentionChoice.EligibleExactly | crates/hw-inventory/src/maintenance.rs:138-170 | A snapshot is eligible if and only if it is not current, not pinned, uploaded, old enough, and at least `keep` snapshots of its machine are newer: created later by the stored text, or at the same time with a greater id. |
| RetentionChoice.RankCountsNewer | crates/hw-inventory/src/maintenance.rs:121-147 | The running rank of a candidate is one more than the number of newer snapshots of its machine. |
| RetentionChoice.OlderMayGoToo | crates/hw-inventory/src/maintenance.rs:138-170 | If a snapshot may go, so may every older one of its machine that is not current, unpinned, uploaded and past the cutoff. |
| RetentionChoice.NewestAreKeep | crates/hw-inventory/src/maintenance.rs:138-170 | Of each machine exactly `keep` snapshots, or all if there are fewer, have less than `keep` newer ones: the newest are the protected ones. |
| RetentionTheorems.RetentionDeletesOnlyTheJudged | crates/hw-inventory/src/maintenance.rs:171-193 | With publishers interleaved anywhere, the snapshot current at the delete survives it, everything deleted was free to go in the store that the call had read, and if the delete commits, everything that was free to go is gone. |
| RetentionTheorems.RetentionNeverAborts | crates/hw-inventory/src/maintenance.rs:113-117 | Unless an upload is recorded between the read of the current id and the delete, the foreign key of the current snapshot never aborts the transaction, whatever is published meanwhile. |
| RetentionTheorems.DryRunChangesNothing | crates/hw-inventory/src/maintenance.rs:110-112 | No step of a dry run changes the store. |
| InventoryStore.InventoryStore.TryAcquireLease | crates/hw-inventory/src/store.rs:565-588 | Takes the lease exactly when there is none or the one there has expired, and changes nothing else. |
| LeaseRules.OneHolder | crates/hw-inventory/src/store.rs:565-617 | While a lease is in force by some clock, nobody takes it by that clock, its owner and nobody else can renew it, and nobody else can release it. |
| LeaseRules.ExpiredNeverRevives | crates/hw-inventory/src/store.rs:598-617 | An expired lease is never revived: no renewal succeeds, not even its owner's, and anybody can take it. |
| LeaseRules.GrantHolds | crates/hw-inventory/src/store.rs:565-630 | After a successful acquisition or renewal the lease is the caller's at exactly the clocks before the new expiry; a renewal never changes the owner. |
| LeaseRules.ReleaseFrees | crates/hw-inventory/src/store.rs:590-596 | A release frees the caller's lease at every clock and is not noticed by any other; after it the caller cannot renew, and releasing again changes nothing. |
| LeaseRules.RecoveryIsSafe | crates/hw-inventory/src/store.rs:632-658 | Stale recovery takes away no lease in force by its clock or later, fails exactly the old running rows, and only if there is no such lease, and doing it again changes nothing. |
| InventoryStore.InventoryStore.StartProbeRow | crates/hw-inventory/src/store.rs:531-543 | A new running row under a fresh id, or a foreign-key failure that changes nothing. |
| InventoryStore.InventoryStore.FinishProbeRow | crates/hw-inventory/src/store.rs:545-563 | Sets status and snapshot of one row, or fails on the foreign key and changes nothing. |
| InventoryStore.InventoryStore.PublishRows | crates/hw-inventory/src/store.rs:316-414 | The fence first; then all rows or none: the three snapshot tables, the state row and the probe row of a committed publication, or an unchanged store. |
| InventoryStore.InventoryStore.WriteReport | crates/hw-inventory/src/artifact.rs:44-84 | Succeeds exactly if no operation fails and the temporary file did not exist; then the only change is the report in place. After a failure at most the two files of this publication differ, and none if the clean-up works and the rename had not happened. |
| InventoryStore.InventoryStore.Publish | crates/hw-inventory/src/store.rs:279-314 | Succeeds exactly if the report is publishable, no file operation fails and the fenced transaction commits; a failed publication leaves every table as it was, and the files too if the clean-up works. |
| InventoryStore.InventoryStore.SetPinnedFlag | crates/hw-inventory/src/maintenance.rs:62-71 | Sets the flag of one snapshot, or reports that there is none. |
| InventoryStore.InventoryStore.SetUploaded | crates/hw-inventory/src/maintenance.rs:73-94 | Marks one snapshot as uploaded, or reports a time that does not parse or a snapshot that is not there, changing nothing. |
| InventoryStore.InventoryStore.RecoverOrphans | crates/hw-inventory/src/artifact.rs:156-177 | Exactly the temporary files and the JSON files without a row are removed, each counted. |
| InventoryStore.InventoryStore.ProcessDeleteQueue | crates/hw-inventory/src/maintenance.rs:201-229 | Each queued path is tried once: removed and dequeued, or kept with one more attempt; no other file changes; the two counters are the numbers of queued paths that could be removed and that are left. |
| InventoryStore.DrainedIs | crates/hw-inventory/src/maintenance.rs:201-229 | The outcome of a drain does not depend on the order in which the query lists the paths. |
| InventoryStore.InventoryStore.DeleteEligible | crates/hw-inventory/src/maintenance.rs:174-193 | The candidate-by-candidate transaction equals deleting all of them at once with cascade, cleared references and queued paths. |
| InventoryStore.InventoryStore.ApplyRetention | crates/hw-inventory/src/maintenance.rs:96-199 | Run on its own: exactly the snapshots that may go are deleted with their references cleared, the oldest of each machine first and never one of its `keep` newest; of the queued and newly deleted paths exactly those whose removal fails stay queued while the other files are gone; a dry run changes nothing. |
| RetentionAlone.AloneIsMethod | crates/hw-inventory/src/maintenance.rs:96-229 | The call as the runs take it, statement by statement and file by file, with nobody beside it: whatever it is answered, if it ends well it has done exactly what the method promises. |
| SourceCacheTheorems.CommandLimit | crates/hw-source/src/cached.rs:128-158 | In every interleaving with futures dropped anywhere, active commands never exceed the permits held, the peak never exceeds the limit, and at rest every permit is back and nothing is active. |
| SourceCacheTheorems.ExecutionsAndHits | crates/hw-source/src/cached.rs:95-106 | In every run executions and flagged hits together never exceed the requests. |
| SourceCacheHits.EachSourceOnce | crates/hw-source/src/cached.rs:256-273 | With the cache enabled and nothing dropped, two requests that both executed and want the same source, a read or a command on the list of cacheable ones with the same whole milliseconds, are one and the same. |
| SourceCacheHits.ServedIsHit | crates/hw-source/src/cached.rs:256-273 | With the cache enabled, a read or a cacheable command that is looked up after a request for the same source has returned never executes, is observed as a hit and has the very same answer. |
| SourceCacheHits.UnservedExecute | crates/hw-source/src/cached.rs:271-273 | A command that is not on the list, and every request with the cache disabled, is never flagged as a hit; without a deadline it has executed itself when it returns, unless it is a command without time. |
| SourceCacheHits.ExpiredNeverStarts | crates/hw-source/src/cached.rs:128-136 | A command that begins when the deadline has passed, or without time, never starts, holds no permit, and can only answer with the timeout. |
| SourceCacheHits.LateReadExpires | crates/hw-source/src/cached.rs:160-170 | A read that begins when the deadline has passed answers with the timeout. |
| SourceCacheHits.PeakIsGreatest | crates/hw-source/src/cached.rs:146-152 | The reported peak is the greatest number of active commands that any command saw when it started, itself included. |
| SourceCacheTheorems.PermitStep | crates/hw-source/src/cached.rs:59-67 | Every step keeps: free and held permits make the limit, and the active count is the number of counted requests, which hold permits. |
| SourceCacheTheorems.FlightStep | crates/hw-source/src/cached.rs:249-282 | Every step keeps: a cached execution leads the only flight of its key, set cells stay set, and a request flagged as a hit never executes. |
| SourceCacheAnswers.CacheAgrees | crates/hw-source/src/cached.rs:249-393 | With compatible requests and no deadline every answer is the one of an uncached runner, in every interleaving and with cancellation. |
| SourceCacheAnswers.AgreementExactly | crates/hw-source/src/cached.rs:252-255 | On a set of requests the cache agrees with no cache in every run without a deadline if and only if no cacheable command is asked for both with no time and with less than a millisecond while the two answers differ. |
| SourceCacheAnswers.MixedTimeoutsDisagree | crates/hw-source/src/cached.rs:129-136 | The run of two requests in which the cache gives the second one the expired answer of the first. |
| Records.UnescapeEscape | crates/hw-bindid/src/key.rs:72-77 | The three replaces in a row have a left inverse on every text. |
| Records.EscapeIsPlain | crates/hw-inventory/src/canonical.rs:374-379 | Escaped text contains neither of the two structure characters. |
| Records.EscapeCodes | crates/hw-bindid/src/key.rs:72-77 | Exactly the three structure characters become codes, with capitals in the bind id and with small letters in the snapshot records; every other character stays. |
| Records.RecordInjective | crates/hw-bindid/src/key.rs:58-65 | A record text determines its kind and its list of fields. |
| Records.FieldsAreMap | crates/hw-bindid/src/key.rs:48-57 | The sorted normalized fields are equal exactly when the two field maps are, whatever the order given. |
| Key.NormalizeIdempotent | crates/hw-bindid/src/key.rs:14-28 | Normalizing a normalized value changes nothing. |
| Key.NormalizeMacIdempotent | crates/hw-bindid/src/key.rs:30-45 | The same for MAC addresses. |
| Spelling.BindValue | crates/hw-bindid/src/key.rs:14-28 | The bind id's normalization gives nothing for the same values, else the words as they are spelled, case included, single-spaced. |
| Spelling.BindExactly | crates/hw-bindid/src/key.rs:14-28 | Two values that give something give the same if and only if their words are the same. |
| Spelling.MacExactly | crates/hw-bindid/src/key.rs:30-45 | A MAC address is accepted exactly if it is one word of six pairs of hexadecimal digits between colons that are not all zero; its capitals are folded. |
| Key.KeyExactly | crates/hw-bindid/src/key.rs:47-66 | Two component keys are equal if and only if their kinds and their normalized field maps are. |
| Key.KeysStayApart | crates/hw-bindid/src/key.rs:86-93 | No component key contains the separator, alone or together with a separator that follows it. |
| Key.PayloadExactly | crates/hw-bindid/src/key.rs:86-93 | Two bind id payloads are equal if and only if the two multisets of component keys are: uniquely decodable and independent of the input order. |
| Canonical.NormalizeIdempotent | crates/hw-inventory/src/canonical.rs:324-345 | Normalizing is idempotent and gives lower-case text. |
| Spelling.CanonicalValue | crates/hw-inventory/src/canonical.rs:324-345 | Normalizing gives nothing exactly for a value without words and for the spellings of a placeholder, else the words of the value, single-spaced, with `A` to `Z` folded and every other character as it is. |
| Spelling.CanonicalExactly | crates/hw-inventory/src/canonical.rs:324-345 | Two values that give something give the same if and only if their words are the same up to ASCII case, position by position: different values stay different. |
| Canonical.JoinedIgnoresOrder | crates/hw-inventory/src/canonical.rs:364-372 | A joined list field depends only on the set of its values. |
| Canonical.JoinedExactly | crates/hw-inventory/src/canonical.rs:364-372 | Lists whose values have no commas give the same joined text if and only if they have the same normalized values. |
| Canonical.CommaCollides | crates/hw-inventory/src/canonical.rs:364-372 | With commas they do not: every list of two values collides with the one value that joins them, unless that is a placeholder. |
| Canonical.TextExactly | crates/hw-inventory/src/canonical.rs:300-322 | Two record texts are equal if and only if the kinds and the normalized field maps are. |
| Canonical.PushesExactly | crates/hw-inventory/src/canonical.rs:300-315 | A record is pushed exactly if some field has a value that normalization keeps. |
| Canonical.CollectRecords | crates/hw-inventory/src/canonical.rs:16-21 | The loop over the devices pushes exactly the records that keep a field after normalization, in order. |
| Canonical.CanonicalizeDevices | crates/hw-inventory/src/canonical.rs:10-66 | The report is the specified one, and nothing is missing exactly when the core identity is complete. |
| Canonical.ReportIgnoresOrder | crates/hw-inventory/src/canonical.rs:19-26 | Permuting or repeating devices changes nothing in the report, so neither payload. |
| Canonical.IdentityExactly | crates/hw-inventory/src/canonical.rs:22-26 | Two identity lists are equal if and only if the scans have the same records and trust the same groups to be absent. |
| Canonical.ConfigurationExactly | crates/hw-inventory/src/canonical.rs:26 | Two configuration lists are equal if and only if the scans have the same configuration records. |
| Canonical.PayloadExactly | crates/hw-inventory/src/canonical.rs:37-48 | Two fingerprint payloads are equal if and only if the scans have the same identity records, trust the same groups and have the same configuration records. |
| Canonical.CoveredExactly | crates/hw-inventory/src/canonical.rs:390-406 | A group is covered exactly when some device has an identity record of its kind with a field left; absence records cover nothing. |
| Canonical.MissingExactly | crates/hw-model/src/snapshot.rs:73-79 | Each required group is missing, or covered or trusted absent, and not both; nothing is missing exactly when `core_complete` holds. |
| Strings.SortedSetExactly | crates/hw-inventory/src/canonical.rs:381-384 | Sorted and deduplicated lists are equal if and only if the sets of their elements are. |
| Strings.JoinInjective | crates/hw-bindid/src/key.rs:86-89 | Parts that the separator stays out of can be read back from the joined text. |
| Spelling.TrimExactly | crates/hw-probe/src/existing.rs:1052 | Trimming takes off exactly the whitespace at both ends. |
| Spelling.SpaceSeparates | crates/hw-inventory/src/canonical.rs:335 | Whitespace separates words wherever it stands: the words of a text are those before it and those after it. |
| Spelling.LeqExactly | crates/hw-inventory/src/canonical.rs:381-384 | The order of record texts: a prefix comes first, else the smaller character at the first difference decides. |
| Collector.RunParallel | crates/hw-collect/src/collector.rs:149-211 | For every order of completion and every cut by the deadline: each finished result at its index, one metric for each probe as finished or timed out, and the deadline branch taken exactly if some probe did not finish. |
| Collector.RunSerial | crates/hw-collect/src/collector.rs:213-249 | The same outcome relation, with the probes before the cut as the finished ones. |
| Collector.ParallelRefinesSerial | crates/hw-collect/src/collector.rs:76-123 | With no deadline parallel execution gives, for every order of completion, the indexed results and the report of serial execution. |
| Collector.OrderNeverMatters | crates/hw-collect/src/collector.rs:170-201 | Under a deadline the indexed results depend only on which probes finished. |
| Collector.MergeResults | crates/hw-collect/src/collector.rs:76-142 | The merge computes the specified report from results and metrics. |
| Collector.StatusExactly | crates/hw-collect/src/status.rs:3-11 | The status is failed exactly without devices, complete exactly with devices, all probes finished and no warning, and partial otherwise. |
| Collector.WarningsExactly | crates/hw-collect/src/collector.rs:76-97 | The report warns of exactly what the finished probes reported and, by name, of each probe that did not finish; of nothing if no warnings are wanted. |
| Collector.TimedOutExactly | crates/hw-collect/src/collector.rs:202-211 | The deadline counts as exceeded exactly if some metric is timed out. |
| Merge.DedupDevices | crates/hw-collect/src/merge.rs:4-21 | The loop over the map gives the specified deduplication. |
| Merge.DeduplicationConserves | crates/hw-collect/src/merge.rs:4-21 | Ids strictly increase and are those of the input; each device is the first of its id with everybody's sources and warnings in input order and the union of the capabilities. |
| Merge.DeduplicationIdempotent | crates/hw-collect/src/merge.rs:4-21 | Deduplicating again changes nothing. |
| Merge.FoldPciDevices | crates/hw-collect/src/collector.rs:100-121 | The filter loop, with backing PCI devices among the consumed ones. |
| Merge.FoldingConserves | crates/hw-collect/src/collector.rs:100-121 | What comes out is, with repetition, every device of another kind unchanged and one `OtherPci` for each PCI device neither consumed nor backing another; the fallback keeps name, bus, driver, capabilities, identifiers, sources and warnings and loses vendor, model, serial, parent, children and all properties but the class name; no `Pci` device is left. |
| PciIds.FallbackId | crates/hw-probe/src/other.rs:3-24 | The fallback of the device `pci:a` is `other-pci:a`. |
| PciIds.FallbackIdsDistinct | crates/hw-probe/src/other.rs:3-24 | Two PCI devices get the same fallback id if and only if they had the same id: the replacement can be undone on every text. |
| Flatten.FlattenProperties | crates/hw-inventory/src/store.rs:805-835 | The recursion appends exactly the specified entries to its output vector. |
| Flatten.FlatteningExact | crates/hw-inventory/src/store.rs:805-835 | For every tree in which no object has a key that is another one followed by a dot and more: one entry for each non-null scalar leaf with its value, and no two entries share key and ordinal. |
| Flatten.AddressInjective | crates/hw-inventory/src/store.rs:805-835 | On such a tree key and ordinal identify the leaf. |
| Flatten.KeysExactly | crates/hw-inventory/src/store.rs:808-811 | That condition is exact: the entries of every tree with these keys at the top, and such keys below, are told apart by key and ordinal if and only if no key is another one followed by a dot and more. The code passes property structs, whose field names have no dots, which meets it. |
| Decimal.ReadWritten | crates/hw-inventory/src/store.rs:817-820 | The ordinal in a key is decimal: reading it gives it back. |
| Diff.DiffSnapshots | crates/hw-inventory/src/diff.rs:30-61 | The loop that takes ids out of both maps computes the specified diff. |
| Diff.DiffIsPatch | crates/hw-inventory/src/diff.rs:30-61 | The diff turns the one id-to-device map into the other, its inverse is the diff with the arguments swapped, and it is empty exactly when the maps are equal. |
| Diff.DiffIsOrdered | crates/hw-inventory/src/diff.rs:62-63 | Added and removed devices come out strictly ordered by id before they are sorted. |
| CpuList.ParseCpuListCount | crates/hw-probe/src/existing.rs:1050-1067 | The sum of the widths of the ranges, or nothing if a part is unreadable or reversed, there is no range, or the sum overflows. |
| CpuList.ParseSharedCpuCount | crates/hw-parser/src/cpu.rs:986-1003 | The same specification, so both agree on every input. |
| CpuList.TrimmedPartsAgree | crates/hw-probe/src/existing.rs:1052 | Trimming the whole value first changes no part. |
| Decimal.NumberExactly | crates/hw-probe/src/existing.rs:1055-1060 | A number is read as n exactly from the decimal digits of n after any zeros and an optional plus sign, for n below 2^32. |
| Decimal.PartExactly | crates/hw-probe/src/existing.rs:1052-1062 | A part stands for the range from a to b exactly if it is one such number or two in order around its first dash, with blanks around them. |
| CpuList.ParseCpuListIndices | crates/hw-probe/src/existing.rs:1069-1094 | The union of the ranges without repetition, or nothing if a part is unreadable or reversed or there is no range. |
| CpuList.CountAgainstIndices | crates/hw-probe/src/existing.rs:1050-1094 | When the count succeeds so do the indices, there are at most as many as the count says, and equally many exactly when the ranges are disjoint. |
| DeviceTree.ParseCellValue | crates/hw-probe/src/existing.rs:3507-3516 | The big-endian value of the cells, or nothing with more than two cells or too few bytes. |
| DeviceTree.ParseMemoryRegSize | crates/hw-probe/src/existing.rs:3487-3505 | The exact sum of the sizes in the tuples, or nothing on misalignment, overflow or more than two size cells. |
| DeviceTree.TupleIs | crates/hw-probe/src/existing.rs:3487-3505 | The size that counts of a tuple is the one after its address cells, behind as many bytes as the tuples before it have. |

## Left out

- Probe I/O and enrichment, text parsers, vendor tables, CLI, output and exit codes: wide but shallow.
- SQLite, WAL, file permissions, `fsync` and tokio scheduling: replaced by atomic steps and an abstract directory.
- Device, identifier, property, relation, source and warning tables: they cascade with their snapshot and nothing reads them back in the modelled functions; a constraint failure there is a failing commit.
- `safe_artifact_path`, non-regular files in `reports` and path rendering: file names are values that say whether they are temporary, JSON or other.
- Pin and upload changes inside retention: allowed in the runs, but what may be deleted is judged by the flags that the call had read.
- Timestamps of rows other than `created_at`, durations, error codes and messages of probe rows: written and never read by the modelled logic.
- `OffsetDateTime` formatting: the text order of lease and probe timestamps is the order of reals that the clock inputs give; creation times keep text order and instant apart.
- The source cache is modelled on values, as a state machine over its atomic operations, because its subject is the interleaving of requests; wall-clock durations of observations are not kept.
- Fairness of the semaphore and of the once-cells: any waiting request may go next, which allows more runs than the program has.
- `collect_device_records`: which fields of a device go into which record is an input of the canonical encoding; kinds and names are required to be the identifiers that the code uses.
- The digests and the JSON encoding of the payloads: results are stated on the lists and texts that are hashed.
- `hardware_changed`: a flag of the answer, computed from the first state read, that decides nothing.
- `populate_system_metadata`, `selected_probes` and the names in timeout metrics beyond one for each probe: only easy members.
- `ArtifactMetadata` export, metrics, health checks, WAL checkpoints and listing pages: read-only or thin.
