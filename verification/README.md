# Models of the English-learning backend

A Dafny project that models the protocols of the backend - publishing and its change
feed, the content list, the per-address rate limiter, the Apple revocation queue, user
data and its event log, the crawler's rate limit - and a few of its smaller algorithms,
and proves what clients and operators rely on. `dafny verify dfyconfig.toml` checks
everything.

## The parts

| modules | what they model |
|---|---|
| SequenceLog | an append-only table with generated sequence numbers, and paging over it; shared by both change feeds |
| Catalogue, Publishing, PublishingInvariant, CatalogueTheorems, CatalogueWrites, CatalogueRuns | CMS publications, ingests, admin publish/hide and polling clients as one concurrent state machine, step by step; what each writer stores; and the runs that reach the states the theorems warn about |
| RowLocks | the rows a publication or an ingest locks one after the other, and when transactions wait for each other |
| ContentPages, Cursors, Timestamps, Text | the keyset-paged content list and the opaque cursors, down to base64url, RFC 3339 times and uuids |
| CatalogueStore | the queries, transactions and handlers of the catalogue as the statements that run them |
| RateLimit | the bounded map of token buckets |
| Revocation | the durable queue of Apple credentials, with several replicas and crashes |
| LastWriter, UserData, UserTheorems, UserEntries, UserSaves, UserStore | bookmarks, progress and vocabulary, the per-user event log, login migration, `/me/sync`; what is accepted and what is stored |
| EventRace | one bookmark or vocabulary entry written by overlapping transactions, statement by statement |
| Crawl | slot reservation between concurrent fetches |
| Order, Recommendations | the personalized home page |
| Strings, EnvFile, EnvSettings, WordNet, Slug | string algorithms: the environment file rewrite, the WordNet line parser, slugs |

## How the catalogue is modelled

Every database transaction commits in one step, but a publication is split where other
writers can get in between: look up the key, store the audio, reserve the key, write the
content, append the event, commit or abort. A step that would wait for a row, a unique
index entry or a key held by another transaction is not enabled until that one ends. An
event takes its sequence number when it is inserted and becomes readable when its
transaction commits; a slot of the log is empty until then, and for good when the
transaction aborts. The locks of this machine are keys and content rows; categories, series,
dictionary entries and assets are locked after them, in document order, and RowLocks models
that order. A poll is enabled only when no transaction in flight holds a number
at or below the cursor the poll would end at. That hypothesis is the deployment's to
meet, nothing in the code enforces it; `GapIsWhatLosesContent` shows what is lost
without it. Commits whose acknowledgement is lost are included.

User transactions run one after the other in UserData and UserTheorems, that is, no two
transactions of a user overlap on one row. EventRace drops that for a single row and gives
the exact condition under which overlapping requests leave a log that misses the row.

Times, new ids and parsed values are inputs. The bucket arithmetic is exact, over `real`.

## Where the code and its documentation differ

The models follow the code.

- docs/api-v1.md:24 and docs/architecture.md:87 promise tombstones for hidden contents.
  `ListPublishEventsAfter` (db/queries/public.sql:97-103) withholds every event of a
  content that is not visible, the delete event of a hide included. So a client keeps what
  is hidden (`CatalogueRuns.AClientKeepsAHiddenContent` reaches such a client from the empty
  catalogue); it holds exactly the visible contents after a short page iff it held nothing
  else before (`CatalogueTheorems.HoldsTheVisibleIff`); and a delete event only arrives once
  the content is visible again, when the upsert that outdates it already follows it in the
  log (`CatalogueTheorems.DeletesComeTooLate`).
- Publications and ingests can deadlock: they lock category, dictionary and asset rows in
  document order (internal/publishing/service.go:307-368,
  internal/ingestion/pipeline.go:113-125). Any number of them can iff some of their row lists
  have beginnings that share no row and whose next rows each lie in another of these
  beginnings (`RowLocks.AnyDeadlockIff`). For two of them that is: iff the first row they
  share is not the same for both (`RowLocks.DeadlockIff`), as with two documents whose topics
  come in opposite orders (`RowLocks.OppositeTopicsDeadlock`). Sorted documents and pages
  never deadlock (`RowLocks.SortedTransactionsNeverDeadlock`).
- docs/api-v1.md:7 promises a `limit` parameter; the handlers fix 20 and 100 rows
  (internal/httpapi/public.go:90, internal/httpapi/public.go:324).
- A second run of the environment rewrite is not always identical: a stored key that
  starts or ends with a carriage return inside its quotes loses it the next time.
  `EnvFile.RerunIsIdentical` gives the exact condition, `EnvFile.QuotedReturnIsRewritten`
  a file that meets it.
- A review whose client time lies before 1970 is accepted and never stored; an entry that
  only received such reviews still counts as never reviewed (`UserTheorems.ReviewIsLatest`,
  and `UserTheorems.EarlyReviewIsLost` for one).
- Overlapping requests can leave a bookmark that the user's event log says is gone
  (`EventRace.RaceLeavesARow`): exactly when a removal that found no row is numbered above the
  save that was the last commit to have locked the row (`EventRace.LogMissesTheRowIff`).
  Without such removals the events always tell the row (`EventRace.EffectiveEventsTellTheRow`).
- `/me/sync` has the gap of the catalogue's feed: a client that reads to the end while one of
  the user's numbers is uncommitted gets that event later iff it had read no larger one
  (`UserTheorems.SyncGapIff`, `UserTheorems.SyncLosesABookmark`).
- A data line with a negative word count makes the WordNet parser panic
  (`WordNet.NegativeCountPanics`); `WordNet.LineOutcomes` says which lines do.
- Eviction can be observed once a burst exceeds ten minutes' worth of requests. None of
  the three configured limiters does that.

## Model

| member | source | states |
|---|---|---|
| PublishingInvariant.ReachableIsInv | internal/publishing/service.go:115-213 | every interleaving of publications, ingests, admin commands, polls and aborts keeps: unique source and key indexes, published rows released, only CMS audio playable, log and table in agreement, in-flight writers exclusive, clients up to date |
| CatalogueTheorems.LogAgreesWithTable | db/queries/contents.sql:51-73 | in every reachable state revisions strictly increase along a content's events, and its last event is an upsert at the current revision iff it is published, a delete at it iff hidden, an older revision iff in review |
| CatalogueTheorems.PublishedHasAnEvent | internal/ingestion/pipeline.go:126-130 | a published content, whichever writer published it, has a last event, and it is the upsert of its current revision |
| CatalogueTheorems.PublishedRowsAreReleased | db/queries/contents.sql:1-27 | published implies released_at is not null, across all writers |
| CatalogueTheorems.NoVisibleContentIsMissed | internal/httpapi/public.go:310-336 | after a page of fewer than 100 rows the client holds every currently visible content at its current revision, for any history of writes and polls |
| CatalogueTheorems.DrainIsExact | db/queries/public.sql:94-104 | reading page by page from cursor 0 over a frozen database yields exactly the visible contents at their revisions |
| CatalogueTheorems.GapIsWhatLosesContent | db/migrations/000001_initial.up.sql:90-91 | a client that polls while a writer of a content that will be visible holds a smaller uncommitted number catches up on it with its next page iff its cursor has not passed that number |
| CatalogueRuns.AClientLosesAContent | internal/httpapi/public.go:310-336 | a run from the empty catalogue, with two publications and a poll between their commits, after which a visible content is neither held nor on the client's next, empty page |
| CatalogueTheorems.HidingIsNotSeen | db/queries/public.sql:97-103 | a poll changes nothing a client holds about a content that is not visible: hides are not announced |
| CatalogueTheorems.HoldsTheVisibleIff | db/queries/public.sql:94-104 | after a short page a client holds exactly the visible contents at their revisions iff it held nothing that is not visible |
| CatalogueTheorems.DeletesComeTooLate | db/queries/public.sql:97-103 | a delete event is only on a page when its content is visible again, and an upsert at a higher revision follows it in the log |
| CatalogueRuns.HiddenContentIsKept | cmd/admin/main.go:85-109 | any content a client holds can be hidden and, nobody else writing, is still held after the client's next poll |
| CatalogueRuns.AClientKeepsAHiddenContent | cmd/admin/main.go:85-109 | publish, poll, hide, poll from the empty catalogue: the content is hidden and held |
| CatalogueTheorems.AnswersAgree | internal/publishing/service.go:145-158 | all successful calls for a key answer the same content and revision, at most one as non-duplicate |
| CatalogueTheorems.KeyCommitsAtMostOnce | internal/publishing/service.go:145-158 | over any run, exactly one transaction commits for a key that is stored, none for one that is not |
| CatalogueTheorems.RevisionCountsCommits | internal/publishing/service.go:175 | a content's revision is the number of transactions committed on it: no bump is lost or doubled |
| CatalogueTheorems.OneEventPerKey | internal/publishing/service.go:203-208 | a stored key has exactly one event, the upsert of its content at its revision |
| CatalogueTheorems.StoredResultIsFinal | internal/publishing/service.go:215-226 | what `existing` once answers for a key it answers after any further run |
| CatalogueTheorems.ReservationIsNeverLost | internal/publishing/service.go:153-155 | "publication reservation lost" is never answered |
| CatalogueTheorems.AbortedRivalLetsReserve | internal/publishing/service.go:146-158 | the reserving insert waits for an in-flight rival and goes through once it aborts |
| CatalogueTheorems.CommittedRivalIsAnswered | internal/publishing/service.go:146-158 | when the rival commits, the insert returns no row and the call answers the rival's result as a duplicate |
| CatalogueTheorems.PublicationIsVisibleAtOnce | internal/publishing/service.go:192-213 | a committed publication is visible at the revision it answered, with its own audio as its only one |
| CatalogueTheorems.VisibleIff | db/queries/public.sql:34-39 | in every reachable state readers see a content iff it is published and some CMS-filed audio is linked to it |
| CatalogueWrites.PublicationIsReleasedAnew | internal/publishing/service.go:175-178 | over every run a committed publication is published with the clock reading of its own write as release time, also when the content had been released before; it keeps the rights of the content it replaces, a new one needs review; no other row changes |
| CatalogueWrites.PublicationStandsFirstIff | db/queries/public.sql:30-43 | at its commit a publication is the first of the public list iff every other visible content was released earlier, or at the same time with a smaller id |
| CatalogueWrites.IngestPublishesIff | db/queries/contents.sql:1-27 | over every run a committed ingest stores the ingested rights, publishes iff they are verified as public domain and leaves the row in review otherwise, and appends an upsert event in the first case only |
| CatalogueWrites.AdminSetsTheStatus | cmd/admin/main.go:85-109 | over every run a committed publish or hide sets that status, keeps source and rights, raises the revision by one and appends its event |
| CatalogueWrites.ReleaseTimeMovesIff | db/queries/contents.sql:18-24 | a release time changes in no step but the commit of a publication, or of an ingest or admin command that makes a row published that was not; it becomes the time of that write |
| CatalogueTheorems.KeysAndRowsFormNoCycle | internal/publishing/service.go:145-178 | keys and content rows alone form no cycle: in a machine with no other locks some unfinished call can take a step |
| RowLocks.DeadlockIff | internal/publishing/service.go:307-368 | two transactions that lock rows one after the other and hold them to the end can come to wait for each other iff the first row they share is not the same seen from both |
| RowLocks.OppositeTopicsDeadlock | internal/publishing/service.go:313-317 | two publications of different contents under different keys deadlock when their topics come in opposite orders |
| RowLocks.AnyDeadlockIff | internal/publishing/service.go:307-368 | transactions with given row lists can deadlock, in any number, iff some of the lists have disjoint beginnings whose next rows each lie in another of the beginnings: no schedules are part of the condition |
| RowLocks.ThreeInACircle | internal/ingestion/pipeline.go:113-125 | three ingests of which no two can deadlock and which together do |
| RowLocks.CommonOrderPreventsDeadlock | internal/publishing/service.go:145-205 | any number of transactions that take new rows upwards in one strict order never deadlock |
| RowLocks.SortedTransactionsNeverDeadlock | internal/ingestion/pipeline.go:95-125 | publications and ingests with alphabetical categories, dictionary entries and assets take their rows in such an order |
| Catalogue.PlayableMeansCms | db/queries/public.sql:34-39 | under the invariant a content has playable audio iff it is linked to CMS-filed audio |
| Catalogue.IngestAssetsFrame | internal/ingestion/pipeline.go:113-125 | an ingest changes no row, no publication and no content's playable audio |
| Catalogue.IngestedAssets | db/queries/contents.sql:29-49 | every address that parses is filed and linked, streamed iff the rights are verified as public domain and otherwise shown on its source page; known assets keep their availability; nothing else changes |
| Catalogue.IngestedKind | db/queries/contents.sql:37-38 | an asset is of the kind the page gave last for its address |
| Catalogue.PublishAudioFrame | internal/publishing/service.go:192-202 | a publication makes its audio playable and the content's only one, keeps its pictures and documents, and changes no other asset, nobody else's links and nobody else's playable audio |
| CatalogueStore.Store.UpsertContent | db/queries/contents.sql:1-27 | the ingestion upsert: published iff the rights are verified as public domain, else in review; the rights as ingested, revision by one, release time stamped only on entering publication |
| CatalogueStore.Store.SetContentStatus | db/queries/contents.sql:62-73 | supports the model: the status asked for, with the same rule for the release time; no row and no change for an unknown id |
| CatalogueStore.Store.CreatePublishEvent | db/queries/contents.sql:51-54 | supports the model: appends one event and returns its sequence number |
| CatalogueStore.Store.Normalize | internal/ingestion/pipeline.go:83-132 | the whole transaction: row, assets, links, and the upsert event iff the rights are verified as public domain |
| CatalogueStore.Store.AdminSetStatus | cmd/admin/main.go:85-109 | supports the model: row and event together, or nothing for an unknown id |
| CatalogueStore.Store.PublishContent | internal/publishing/service.go:175-178 | the content upsert of a publication: published, released now whether or not it had been before, rights kept, or review required for a new content |
| CatalogueStore.Store.PublishAsset | internal/publishing/service.go:192-202 | supports the model: the audio row, its link, and the removal of the content's other audio |
| CatalogueStore.Store.Publish | internal/publishing/service.go:115-213 | every outcome with nobody else at work: an invalid document, a known key, a failed upload and a wrong digest leave the catalogue unchanged; otherwise the row is published and released now under the answered id and revision, with one event |
| CatalogueStore.Store.Contents | internal/httpapi/public.go:89-132 | a 400 iff the cursor does not decode; else the one page below it, and a cursor that decodes to its last key, empty at the end |
| CatalogueStore.Store.Sync | internal/httpapi/public.go:310-336 | a 400 iff the cursor does not decode; else the next page, and a cursor that decodes to its last sequence |
| SequenceLog.AfterSkipsNothing | db/queries/public.sql:94-104 | each wanted row after the cursor is on the page or after the page's next cursor, and none is left behind by a short page |
| SequenceLog.PagesConcatenate | internal/httpapi/public.go:324-336 | a full page followed by the page from its cursor is one larger page |
| SequenceLog.ReadAllIsTheSuffix | internal/httpapi/public.go:324-336 | chained pages concatenate to the whole suffix of the log, whatever the page size |
| ContentPages.ListPublished | db/queries/public.sql:30-43 | computes a page the query specifies |
| ContentPages.PageIsUnique | db/queries/public.sql:30-43 | the query has exactly one answer |
| ContentPages.ChainedCursorIsTheKey | internal/httpapi/public.go:125-131 | a handed-out cursor is not empty and decodes to the key of the page's last row |
| ContentPages.AppearsExactlyOnce | internal/httpapi/public.go:89-132 | a row that stays visible with one release time is on exactly one page of a full traversal, once, while other rows come and go between the pages |
| ContentPages.FrozenTraversalIsExact | db/queries/public.sql:30-43 | over a frozen catalogue the traversal lists exactly the visible contents |
| ContentPages.UnreleasedRowIsLost | db/queries/public.sql:40-42 | a row without release time would be on no page of a longer traversal, so the invariant is needed |
| Cursors.KeyRoundTrip | internal/httpapi/public.go:92-113 | decoding undoes encoding of (release time, id), for every instant of years 0 to 9999 and every uuid |
| Cursors.SequenceRoundTrip | internal/httpapi/public.go:312-323 | decoding undoes encoding of every 64-bit sequence |
| Cursors.UuidRoundTrip | internal/httpapi/public.go:107-111 | parsing undoes printing of every uuid; the parser takes the other three forms too |
| Timestamps.InstantRoundTrip | internal/httpapi/public.go:102-106 | parsing undoes printing of RFC 3339 times with nanoseconds; the parser takes offsets, commas, long fractions and one-digit hours too |
| Text.Base64RoundTrip | internal/httpapi/public.go:92-93 | decoding undoes encoding of every byte string in unpadded base64url, section 5 of RFC 4648 |
| RateLimit.IpRateLimiter.Handle | internal/httpapi/ratelimit.go:35-51 | the critical section with its delete loop: the decision and the whole new map |
| RateLimit.IpRateLimiter.constructor | internal/httpapi/ratelimit.go:25-27 | an empty map, and a sixtieth of the requests per minute as rate |
| RateLimit.EvictionIsUnobservable | internal/httpapi/ratelimit.go:43-50 | for every trace with a clock that never runs back, deleting idle visitors changes no decision, with any delay inside the critical section the buckets allow for |
| RateLimit.EvictionIsUnobservableIff | internal/httpapi/ratelimit.go:43-50 | with one clock reading per request this holds for every trace iff burst <= 10 * requests per minute |
| RateLimit.ConfiguredLimitersQualify | internal/httpapi/router.go:34-39 | these two limiters and the feedback form's (internal/httpapi/information.go:46) qualify, with up to nine minutes between clock readings |
| RateLimit.MapStaysBounded | internal/httpapi/ratelimit.go:43-50 | after each request the map holds at most 10000 entries, or only entries seen in the last ten minutes |
| RateLimit.AdmitDrawsOneToken | internal/httpapi/ratelimit.go:36-42 | an admitted request lowers its own host's level by one token, a refused one by none, other hosts' by none |
| RateLimit.WindowedAdmissions | internal/httpapi/ratelimit.go:35-51 | in any window of length d one host gets at most burst + rate * d requests admitted, evictions and re-creations included |
| Revocation.RevocationIsNeverLost | internal/identity/apple_credentials.go:82-115 | over every run of logins, deletions, replicas and crashes a detached credential stays with its own token until a Revoke of it succeeded |
| Revocation.DeletionDetaches | db/migrations/000015_apple_credentials.up.sql:3-10 | deleting a user puts its credential in the queue with its own token |
| Revocation.OnlySuccessRemoves | internal/identity/apple_credentials.go:99-105 | a queued row leaves the table only in the step that finishes its own, revoked token |
| Revocation.FailuresAreSpaced | internal/identity/apple_credentials.go:105-110 | from the first to the n-th recorded failure at least the first n - 1 delays have passed, and the next attempt waits for one more |
| Revocation.BackoffSum | internal/identity/apple_credentials.go:108 | the total wait in closed form, doubling up to 1024 minutes |
| Revocation.DelayIsPositive | internal/identity/apple_credentials.go:108 | every delay lies between one and 1024 minutes |
| Revocation.DueAfterTheBackoff | internal/identity/apple_credentials.go:106-109 | in every reachable state a credential with n > 0 failures is due exactly 1, 2, 4, ... 512, 1024, 1024, ... minutes after the last of them, and so at most 1024 minutes after it |
| Revocation.NoStarvation | internal/identity/apple_credentials.go:90-114 | while a due credential waits, all processing commits number at most those ahead of it, plus those detached meanwhile, plus the claims in flight on credentials not ahead of it, of which no new ones are taken |
| Revocation.ServedWithinItsPlace | internal/identity/apple_credentials.go:90-114 | the same without the last term when every claim in flight is on a credential ahead, in particular when no replica is at work |
| Revocation.StrayCommitsCount | internal/identity/apple_credentials.go:90-114 | a run in which the last term is needed: a credential is claimed, an older one detached, and the claim's commit comes with nobody ahead and nobody detached meanwhile |
| Revocation.RevocationQueue.ProcessOne | internal/identity/apple_credentials.go:82-115 | takes an earliest due credential, deletes it iff its token opened and was revoked, else makes it due the 1, 2, 4, ... 1024 minutes of its attempts after the end; nothing changes without one |
| Revocation.OneFailurePerBatch | cmd/api/main.go:83-98 | with any other replicas at work, at most one failure of a credential is recorded between a batch's start and its 45-second deadline |
| Revocation.RevocationQueue.ProcessBatch | internal/identity/apple_credentials.go:69-80 | one replica's batch alone: a credential that failed, at most once within the deadline, is due exactly its delay after the end of that attempt, and only revoked credentials are gone |
| Crawl.Fetcher.WaitForRateLimit | internal/ingestion/voa/fetcher.go:130-152 | the wait is what is left to the promised slot, or none, and the next slot an interval after this one, with two clock readings in the section |
| Crawl.SlotIsTheLater | internal/ingestion/voa/fetcher.go:134-140 | a slot is the later of the one promised and now, and later than that by at most what passed between the two clock readings; the next is promised exactly one interval after it |
| Crawl.SlotsAreSpaced | internal/ingestion/voa/fetcher.go:130-152 | for any number of calls, slots are at least an interval apart and no call is released before its own |
| Crawl.CrawlRateIsBounded | internal/ingestion/voa/fetcher.go:130-152 | at most 1 + floor((t - first slot) / interval) calls are released by t |
| LastWriter.MergeKeepsLatest | db/queries/identity.sql:38-40 | a fold of merges stores one of the writes, whole, and none is later |
| LastWriter.LastArrivedWins | db/queries/identity.sql:36-40 | among the writes with the greatest time the one that arrived last is stored; the first value stays iff all writes are older |
| LastWriter.MergeConverges | db/queries/identity.sql:38-40 | with distinct times the fold depends on the set of writes only, not on order or repetition |
| UserTheorems.TuplesAreNeverMixed | db/queries/identity.sql:38-40 | the per-column conditions merge whole tuples, for progress and for reviews |
| UserTheorems.RunIsItsCommits | internal/identity/service.go:82-140 | a run of transactions equals the statements of those that committed, in order |
| UserTheorems.RunKeepsInv | db/migrations/000008_vocabulary_book.up.sql:1-13 | in every run rows belong to existing users and contents, a word is in a user's book once, and lapses never exceed reviews |
| UserTheorems.EntriesKeepTheirIds | db/queries/identity.sql:58-67 | no write but deletion changes an entry's id, owner or word, blanks its texts, or moves its review back in client time |
| UserTheorems.UpsertReusesTheRow | internal/identity/vocabulary.go:107-147 | saving a known word writes its old row whatever id is sent; only a new word takes the id |
| UserEntries.SavedEntrySays | db/queries/identity.sql:46-67 | after a save each text is the sent one if not empty and else the earlier one, the spelling the sent one, the creation time the earlier of the two, the review the newer one; a new word starts from the defaults |
| UserEntries.EntrySaysWhatWasSent | db/queries/identity.sql:46-67 | after any run each text of an entry is the last non-empty one sent since the entry was created, its spelling that of the last save, its creation time the least one sent |
| UserSaves.SaveIsAcceptedIff | internal/identity/vocabulary.go:107-145 | the exact condition on a save: word, id, texts, user, content, the bounds of its review, and an id that is free unless the user has the word |
| UserSaves.ReviewIsAcceptedIff | internal/identity/vocabulary.go:166-173 | a review is accepted iff the user has the entry and it meets the bounds, stages 0 to 6 included |
| UserSaves.SavedReviewSays | db/queries/identity.sql:74-98 | each column of a review is stored as sent unless the stored review is newer, and nothing else changes |
| UserSaves.SavedProgressSays | db/queries/identity.sql:33-41 | progress is stored as sent unless the stored one is newer, and no other progress changes |
| UserSaves.LoginKeepsEverything | internal/identity/service.go:82-142 | a login that succeeds leaves the account, every bookmark, a progress no older than each one sent, and every word of the device |
| UserTheorems.LogDeterminesTables | internal/identity/service.go:151-172 | with one user transaction after the other, replaying a user's events in sequence order gives exactly the bookmark and vocabulary rows the user has |
| EventRace.LogMissesTheRowIff | internal/identity/service.go:151-172 | with overlapping transactions on one row, after any run, the events miss the row iff a removal that found none is numbered above the save that is the last commit to have locked it; they never say it is there when it is not |
| EventRace.EffectiveEventsTellTheRow | internal/identity/service.go:151-172 | leaving out the removals that found no row, the events tell whether it is there, whatever overlaps |
| EventRace.SerialLogTellsTheRow | internal/identity/service.go:151-172 | when no two transactions overlap on the row, the events tell it at every moment |
| EventRace.RaceLeavesARow | db/queries/identity.sql:20-25 | a save and an overlapping removal after which the row is there and the events say it is gone |
| UserTheorems.ClientsCatchUp | internal/httpapi/identity.go:140-164 | with one user transaction after the other, and so no smaller number uncommitted when it reads, a client that drains `/me/sync`, stays away for any run and drains on from its cursor holds exactly the rows then present, unless the account was deleted |
| UserTheorems.SyncGapIff | internal/httpapi/identity.go:140-164 | a client that drains `/me/sync` while one of the user's numbers is uncommitted, and drains on once it is committed, gets that event iff it had read no larger number |
| UserTheorems.SyncLosesABookmark | internal/httpapi/identity.go:140-164 | two saves and a read between their commits after which the client never gets the first |
| UserTheorems.DeletionIsComplete | internal/identity/service.go:238-240 | deletion leaves no row and no event of the user and takes none from anybody else |
| UserTheorems.ProgressIsLatest | internal/identity/service.go:186-193 | after any run, online or by migration, the stored progress is the latest write since the account was last deleted, whole |
| UserTheorems.ProgressConverges | db/queries/identity.sql:33-41 | runs that sent the same writes with distinct times, in any order and number, store the same progress |
| UserTheorems.ReviewIsLatest | db/queries/identity.sql:74-98 | the stored review is the latest one sent iff some was at or after the 1970 default, and is the default otherwise |
| UserTheorems.ReviewsConverge | internal/identity/vocabulary.go:149-164 | the convergence of progress, for reviews |
| UserTheorems.EarlyReviewIsLost | internal/identity/vocabulary.go:107-147 | a word saved with a review of before 1970: committed and logged, and the entry counts as never reviewed |
| UserStore.Store.SetBookmark | internal/identity/service.go:151-172 | supports the model: row and event together, or nothing on an error |
| UserStore.Store.UpsertBookmark | db/queries/identity.sql:20-22 | supports the model: fails iff the user or the content is missing, else the row is there |
| UserStore.Store.CreateUserEvent | db/queries/identity.sql:125-127 | supports the model: appends one event and returns its sequence number |
| UserStore.Store.SetProgress | internal/identity/service.go:174-184 | supports the model: the merge committed with its event, or nothing |
| UserStore.Store.UpsertProgress | internal/identity/service.go:186-193 | supports the model: the merge and its event, or an error that changes nothing |
| UserStore.Store.UpdateReview | db/queries/identity.sql:74-98 | supports the model: the merge on the user's own entry; no row otherwise |
| UserStore.Store.UpsertVocabulary | internal/identity/vocabulary.go:107-147 | succeeds exactly when the specification does, with its tables; the row under the word follows the sent texts where they are not empty |
| UserStore.Store.SetVocabulary | internal/identity/vocabulary.go:52-66 | the same upsert committed, or rolled back as a whole |
| UserStore.Store.SetVocabularyReview | internal/identity/vocabulary.go:68-89 | accepted iff within the bounds and the entry is the user's; merged and logged, or nothing |
| UserStore.Store.DeleteVocabulary | internal/identity/vocabulary.go:91-105 | supports the model: removes the user's own row if there is one, and logs in any case |
| UserStore.Store.MigrateBookmarks | internal/identity/service.go:106-111 | supports the model: the loop stores and logs every bookmark, or stops at the first that fails |
| UserStore.Store.MigrateProgress | internal/identity/service.go:112-116 | supports the model: the same for progress |
| UserStore.Store.MigrateVocabulary | internal/identity/service.go:117-121 | supports the model: the same for vocabulary |
| UserStore.Store.CreateLogin | internal/identity/service.go:82-142 | the three migration loops: everything the device kept, or nothing |
| UserStore.Store.DeleteUser | db/queries/identity.sql:186-187 | supports the model: the cascade over all tables |
| UserStore.Store.Sync | internal/httpapi/identity.go:140-164 | a 400 iff the cursor does not decode; else the user's next page and a cursor that decodes to its last sequence |
| Order.UuidTextOrder | internal/httpapi/recommendations.go:130 | the ranking's order of uuid texts is the database's order of uuids |
| Recommendations.BeforeIsAStrictOrder | internal/httpapi/recommendations.go:120-131 | the comparator is a strict weak order, total on rows with different ids |
| Recommendations.BeforeIff | internal/httpapi/recommendations.go:120-131 | the higher score first; on equal scores dated before undated, then the newer, then the smaller id |
| Recommendations.ScoreParts | internal/httpapi/recommendations.go:99-119 | what level, vocabulary goal, grammar goal, place and quality each add to a score, from zero, and which reason is given |
| Recommendations.NeedsGrammarIff | internal/httpapi/recommendations.go:91-96 | grammar practice is needed iff questions were asked and the share of correct answers is below 0.8 |
| Recommendations.CompletedIff | internal/httpapi/recommendations.go:69-70 | a lesson is completed iff its last progress row says so |
| Recommendations.ContinuedAre | internal/httpapi/recommendations.go:71-83 | the lessons to continue are those of the first five progress rows under way, in order |
| Recommendations.SectionsAre | internal/httpapi/recommendations.go:132-158 | exactly which sections a page has: none is empty, ten suggestions at most, the first eight rows as the latest |
| Recommendations.PreferredLevel | internal/httpapi/recommendations.go:85-90 | for every iteration order: the most frequent level, alphabetically first among equals |
| Recommendations.PreferredIsUnique | internal/httpapi/recommendations.go:85-90 | there is one such level |
| Recommendations.Sort | internal/httpapi/recommendations.go:120-131 | a permutation without inversions |
| Recommendations.RankingIsUnique | internal/httpapi/recommendations.go:120-131 | with distinct ids every sort gives the same ranking |
| Recommendations.ReadProgress | internal/httpapi/recommendations.go:65-83 | one pass yields completion by last row, the first five to continue, and the level counts |
| Recommendations.Rank | internal/httpapi/recommendations.go:98-131 | a ranking of exactly the rows neither completed nor continued, with the scores and reasons of the design |
| Recommendations.PersonalizedHome | internal/httpapi/recommendations.go:59-159 | the three sections: continued, the first ten of the ranking, the first eight rows |
| Recommendations.HomeIsDetermined | internal/httpapi/recommendations.go:59-159 | the page is a function of its inputs, for every map iteration order and sort |
| Recommendations.SuggestionsAreTheBest | internal/httpapi/recommendations.go:98-138 | no suggestion is completed or continued, they are in order, and every eligible row left out ranks after all ten |
| EnvFile.ReadLines | cmd/configure-apple/main.go:105-124 | the pass over the lines: unmanaged ones kept in order, the first key taken, a second or an invalid one an error |
| EnvFile.Configure | cmd/configure-apple/main.go:83-136 | the rewritten file - the kept lines, then the five settings by name and value - or the first error, in the code's order of checks |
| EnvFile.RewriteKeepsTheRest | cmd/configure-apple/main.go:105-135 | unrelated lines survive in order and each managed name is assigned exactly once; which value under which name is SettingsAreWritten |
| EnvSettings.SettingsAreWritten | cmd/configure-apple/main.go:100-135 | after an accepted run each of the five names is set by exactly one line, with the client id, team id, key id, private key and encryption key that belong to it; the encryption key is the one the file gave, unquoted, or the generated one if it gave none |
| EnvSettings.KeptIff | cmd/configure-apple/main.go:105-124 | a line is kept iff it sets none of the five names |
| EnvFile.ExistingKeyIsKept | cmd/configure-apple/main.go:110-119 | a single existing key is accepted iff valid, and then kept up to surrounding space and quotes |
| EnvFile.RerunIsIdentical | cmd/configure-apple/main.go:83-136 | a second run with the same settings succeeds, and returns identical bytes iff the kept key has no carriage return at an end |
| EnvFile.ThirdRunIsIdentical | cmd/configure-apple/main.go:83-136 | from the second run on nothing changes |
| EnvFile.QuotedReturnIsRewritten | cmd/configure-apple/main.go:114-119 | a file for which the second run differs |
| WordNet.MissingGlossIff | internal/dictionary/wordnet.go:263-269 | a line that is not ignored lacks a gloss iff the separator occurs nowhere in it; otherwise it is a header, the first separator and a gloss |
| WordNet.LineOutcomes | internal/dictionary/wordnet.go:270-283 | by header and gloss: too few fields, a count that is no number or too large, no definition, a negative count that panics, and otherwise parsed, each iff |
| WordNet.ParsedEntries | internal/dictionary/wordnet.go:282-294 | what parses has exactly the counted number of entries, each with the word at its place, the one non-empty definition, the examples, the part of speech and the reference n:, v:, a:, r: or x: with the offset |
| WordNet.NegativeCountPanics | internal/dictionary/wordnet.go:274-282 | a line that panics |
| WordNet.ParseGloss | internal/dictionary/wordnet.go:297-310 | unquoted clauses joined as the definition, quoted ones as examples, in order |
| WordNet.StripAdjectiveMarker | internal/dictionary/wordnet.go:312-317 | the three suffixes, in the code's order |
| WordNet.ParseUndoesPrint | internal/dictionary/wordnet.go:262-317 | the line of any well-formed synset parses to its words, its definitions and its examples in order, examples between definitions and marked words included, with part of speech and reference |
| Slug.Slugify | internal/publishing/service.go:382-396 | the loop computes the runs of letters and digits, lower-cased and joined by single dashes |
| Slug.SlugSpellsTheText | internal/publishing/service.go:382-396 | a slug without its dashes is the text's letters and digits in lower case, in order |
| Slug.SluggedIsCanonical | internal/publishing/service.go:382-396 | no dash at an end, none doubled, every letter in lower case |
| Slug.SlugsAreTheFixedPoints | internal/publishing/service.go:382-396 | slugify leaves a text alone iff it is canonical, so it is idempotent |
| Slug.SlugOfTwo | internal/publishing/service.go:370 | the slug of a + "-" + b in terms of the slugs of a and b, for all inputs |
| Slug.ContentSlugMatchesThePath | internal/publishing/service.go:127 | the content slug spells the two path segments of the audio iff neither fell back to the default |

## Left out

- HTTP routing, request decoding, templates, logging, metrics and media proxying: plumbing.
- Full-text search, and what categories, series and dictionary entries say: they move no status, revision, event or playable audio. Their locks are in RowLocks.
- CatalogueTheorems.KeysAndRowsFormNoCycle: says nothing about the rows locked after keys and contents; with those the code can deadlock, and RowLocks says when.
- RowLocks.DeadlockIff: rows of one transaction's own content, share locks of foreign keys and unique entries a transaction only fails on are not among the rows.
- Contents are never deleted by the modelled code, so no step deletes one; ON DELETE clauses towards contents are not modelled.
- Slug uniqueness and other database errors appear as a transaction that aborts at any step.
- Object storage: the audio is stored or not, and its digest matches or not; what the bytes under a key are later is not modelled, since a failed check can leave other bytes there.
- Roles and positions of linked assets: one link per content and asset.
- Cryptography: a sealed token opens under its own row id and no other; PEM, PKCS8 and curve checks are one answer.
- The token bucket library: exact arithmetic and a clock that does not run back are assumed; rounding of its floating-point tokens is not modelled.
- Revocation: one clock for the replicas and the database; the attempts counter is unbounded.
- UserTheorems.LogDeterminesTables: user transactions do not overlap on a row; EventRace has the exact condition when they do.
- UserTheorems.ClientsCatchUp: the same, and no client reads while a smaller number of the user's is uncommitted; `SyncGapIff` says when such a client still catches up on it.
- Revocation.RevocationQueue.ProcessBatch: one replica at work; `OneFailurePerBatch` is its promise for several.
- Retell attempts and their media, grammar attempts, sessions and identity token replay: the retell review merge has the shape of the vocabulary review merge, and the others are plain upserts.
- Client times are compared as the database stores them, in one unit; NormalizeVocabularyWord and the length limits of texts are inputs of the vocabulary upsert.
- Recommendations.PersonalizedHome: metadata is decoded already, and the sums of grammar counts do not wrap at 32 bits.
- Recommendations.Sort: an insertion sort stands for the library's stable sort; ids are distinct, so no stable order of equals is left to state.
- Slug.Slugify: lower case and the letter/digit test are parameters of which only idempotence and the treatment of dashes and white space are assumed; invalid UTF-8 is not modelled.
- EnvFile.Configure: the generated key is an input; backup, temporary file and rename are not modelled.
- The rest of the WordNet import: archive reading, batching and the index and exception files.
