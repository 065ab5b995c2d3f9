# The contact-sync engine of go-contactd, in Dafny

This project models the part of go-contactd that keeps clients' address books in step with the
server, and proves what it promises:

- the **card store** (`internal/db/store.go`): addressbooks with a revision, cards with unique hrefs
  and UIDs, and a change journal that two kinds of prune shorten behind everybody's back;
- the **sync-collection service** (`internal/carddavx/sync.go`): the server side of RFC 6578
  (sections 3.4 to 3.7), which pages changes out through a bounded, expiring cache of cursors;
- the **writers** around them: conditional PUT and DELETE (`internal/carddav/backend.go`,
  `internal/server/handler.go`), import and its dry run (`internal/ctl/ctl.go`), PROPPATCH parsing and
  its metadata update, canonical vCards and the envelope checks.

## How it is laid out

| file | content |
|---|---|
| `Basics`, `History` | options, string order; what replaying changes means, what it means for a replica to agree with the server |
| `SyncItems`, `PageSafety` | collapsing and cutting pages; what one page does to one replica |
| `SyncTokens`, `VCardText` | token text; canonical line endings and envelopes |
| `CardStore`, `StoreInvariant`, `StoreReads` | transactions as functions; what every one of them keeps; what the two sync reads return |
| `CursorCache`, `SyncCollection` | the cursor cache and the steps of one request, as functions |
| `SyncProtocol`, `TokenBounds`, `DeltaCursors`, `SyncInvariant`, `SyncConvergence` | clients, writers and cache as a state machine; what it keeps without any hypothesis, with whole change reads, and for one client; the convergence theorem |
| `SyncProgress`, `FirstSyncs`, `LostContinuations` | following tokens ends, and where; a paged first sync completes; a first sync whose cursor is lost |
| `SyncHypotheses`, `HypothesisRuns` | what each hypothesis is for: exact conditions, and a run that fails without it |
| `Stores`, `SyncServices` | the classes `Store` and `SyncService`, changed in place, each method proved equal to its function |
| `Proppatch`, `MetadataUpdates`, `Backend`, `Import` | the parser, the metadata update, optimistic concurrency, import |

Code that changes state is a class or a loop, and its methods are proved equal to specification
functions; the theorems are about those functions. The state machine uses the same functions, one event
per access to the store or to the cache, so a request of one client interleaves with everything else.
`SyncProgress.RoundIsSync` shows that its small steps, run without interruption, are the request that
`SyncServices.SyncService.SyncCollection` computes. `Book.hist`, `State.tags`, `State.nextStamp` and the
stamps and bounds of a client's phase are history variables: nothing that answers a request reads them.

## The convergence theorem and its hypotheses

`SyncConvergence.RunsConverge`: take any set of clients that start with the empty token and follow every
token they are given, and any interleaving of puts, deletes, batches, prunes, dropped and re-created
addressbooks, cursor expiries and evictions, lost responses, daemon restarts and requests of other
clients. Then a client with token k holds the server's state at revision k on every href that has not
changed in (k, B], where B is the revision at which its last first sync listed the cards; once k >= B it
holds that state exactly. B is the revision at the second read of that request, not at the first one:
writes may commit between reading the head and listing the cards.

Three hypotheses are needed, because the code does not enforce them. `SyncProtocol.Disciplined` states
them per event, and only for the client and the addressbook that the theorem speaks of: what happens on
other addressbooks, and what cursors other clients are handed, does not matter. For each hypothesis
`HypothesisRuns` gives a run that keeps the other two and leaves a client at the head without the
server's cards:

1. Clock readings do not decrease in revision order (a delete reads the clock before it holds the lock).
   Otherwise an age prune can take a row from the middle of the journal, and the gap check, which looks
   at the first change only, does not notice.
2. No prune passes over the token of a request whose token equals the head it read: there the gap check
   is skipped. Every other prune between the two reads is harmless, and the theorem allows it.
3. The client is handed a cursor cut from a first listing only if its own last response stored it. Such a
   cursor holds no deletions and its key is only (addressbook, revision), so two devices that page through
   a first sync at the same time can be handed each other's rest; `SyncHypotheses.ForeignPageAgreesIff`
   says exactly when that does no harm. Cursors cut from changes may be shared freely
   (`DeltaCursors.DeltaCursorsMayBeShared`).

What needs no hypothesis at all is in `TokenBounds` and `SyncProgress`: in every run whatsoever tokens
never lead the revision and never go back, the cache holds its caps, a token of a dropped addressbook is
refused, and following tokens against a store that nobody writes to ends at the head or with a refusal;
past token 0 it ends even with everybody else's requests in between. A paged first sync against such a
store is never refused and ends with exactly the server's cards, if the client comes back before its
cursor expires and the cards that a page leaves fit the item cap (`FirstSyncs.PagedFirstSyncCompletes`).

For the single operations the lemmas named `...Decides` say for every input which answer is given, each under
its own condition and both ways, and those named `...Leaves` say what is stored afterwards, without the functions
that the operations are made of.

Two further places where the code gives less than its surroundings suggest are proved as they are: an
If-None-Match with a listed ETag is not checked again at commit (`Backend.IfNoneMatchHoldsIff` says exactly
which requests are safe), and an import dry run does not see earlier cards of its own batch
(`Import.RepeatedUidFoolsDryRun`).

## Model

| member | source | states |
|---|---|---|
| SyncConvergence.RunsConverge | internal/carddavx/sync.go:134-296 | after any run from empty that keeps the hypotheses for one client and one addressbook, whatever other clients are handed, that client agrees with the server at its token on all hrefs unchanged up to its bound, exactly so past the bound or at the head, its token is at most the revision, and both cache caps hold |
| SyncInvariant.NextKeeps | internal/carddavx/sync.go:134-296 | every event of any client keeps what one client may rely on for one addressbook: its replica, its loaded items, its own cursors, the slices of the history in flight |
| DeltaCursors.ReadIsSound | internal/carddavx/sync.go:139-191 | what the second read returns, with any writes since the head was read, is a whole first listing or an unbroken slice of the history from the token on |
| DeltaCursors.NextKeepsSlices | internal/carddavx/sync.go:134-296 | every event keeps every loaded change list and every delta cursor of an addressbook a slice of its history, with ordered clocks and no prune over a read at the head; who is served what plays no role |
| TokenBounds.StartSpeaksForClient | internal/carddavx/sync.go:134-166 | a client's own token resolves to its own book and revision or the request is refused |
| DeltaCursors.DeltaCursorsMayBeShared | internal/carddavx/sync.go:204-296 | in every run with whole change reads of the addressbook, foreign first listings or not, a delta cursor under k is exactly the history slice (k, m], pruned or not, and takes any client at k to the server's state at the page's token, with a strictly later token |
| SyncConvergence.LateChangeReadIsExact | internal/carddavx/sync.go:180-202 | a delta page read after further writes takes the state at k to exactly the state at the page's token |
| SyncConvergence.LateListingAgrees | internal/carddavx/sync.go:139-158 | a first listing read after further writes differs from the state at its token only on hrefs changed between the token and the listing |
| SyncConvergence.WholeFirstSyncIsExact | internal/carddavx/sync.go:139-158 | an untruncated first sync returns the head as token and exactly the server's cards, whatever was pruned |
| LostContinuations.LostContinuationIsSafe | internal/carddavx/sync.go:139-191 | after any pages of a first listing, continuations included, that left something unserved, then any run of writers and prunes, the token without its cursor is refused if it is 0, else refused exactly when it lies behind the retained journal; an accepted read covers every unserved card and gives exactly the server's cards |
| SyncConvergence.StalenessIsExact | internal/carddavx/sync.go:172-191 | on a cursor miss a token below the head is refused if and only if the next revision's row is gone, an accepted one gets every later change, the head is never refused, a later token always |
| StoreReads.StaleIffNextRowGone | internal/carddavx/sync.go:184-191 | the gap check rejects exactly when row token + 1 is missing, without any assumption on clocks |
| StoreReads.StaleIffBehindFloor | internal/carddavx/sync.go:180-191 | with ordered clocks it rejects exactly the tokens below the head that lie behind the retained rows, and a change read is complete exactly when its token does not lie behind them or is the last revision |
| TokenBounds.TokensNeverGoBack | internal/carddavx/sync.go:313-327 | at every event of every run, without any hypothesis, a synced client's token does not decrease |
| TokenBounds.TokensNeverLead | internal/carddavx/sync.go:172-174 | in every run, without any hypothesis, no client's token leads its addressbook's revision, and both cache caps hold |
| TokenBounds.NextKeepsBounds | internal/carddavx/sync.go:134-296 | every event keeps the bounds behind this: cached and loaded items lie in revision order between their token and the revision |
| SyncConvergence.DroppedBookTokenRefused | internal/carddavx/sync.go:164-166 | in every run, without any hypothesis, a token of a dropped addressbook is refused after any further operations, also when its slug was taken again |
| HypothesisRuns.ClocksMustBeOrdered | internal/db/store.go:790-849 | a run, disciplined but for a delete that read its clock before it held the lock, after which an age prune leaves a hole, the poll is accepted and the client keeps a deleted card at the head |
| SyncHypotheses.ChangeReadCompleteIff | internal/carddavx/sync.go:180-191 | an accepted change read is complete if and only if not (token = head and a prune has passed over it) |
| HypothesisRuns.ReadsMustNotBePruned | internal/carddavx/sync.go:135-191 | a run, disciplined but for a prune between the two reads of a poll at the head, after which the client lacks a card at the head |
| SyncHypotheses.ForeignContinuationExactIff | internal/carddavx/sync.go:249-258 | another client's first-listing rest, served whole under any limit and head, gives an exact client the listed cards if and only if the cut lies past the pruned cards and none of its cards was deleted since |
| SyncHypotheses.ForeignPageAgreesIff | internal/carddavx/sync.go:249-258 | any page of such a rest, under any limit, with any writes since the listing, leaves the convergence guarantee at the page's token if and only if every card held at the cut and deleted since has changed after the token, and for a cut among cards without rows so has every card before it |
| HypothesisRuns.FirstListingsMustBeOwned | internal/carddavx/sync.go:249-258 | a run, disciplined but for a first listing's cursor that reaches another client, after which that client keeps a deleted card at the head |
| SyncProgress.FollowingEnds | internal/carddavx/sync.go:134-327 | against a store that nobody writes to, some number of requests in a row reaches the head with no continuation left, or a refusal, for all limits >= 1, clocks, prunes between the requests and cached cursors of other clients; a refusal means that the row after a token on the way is gone |
| SyncProgress.FollowingEndsAmongOthers | internal/carddavx/sync.go:134-327 | in any run, with writers, prunes and other clients' requests in between, a client past token 0 that stays synced is served from behind the head at most as often as its token grows, and its token never leads the revision |
| SyncProgress.ServedMovesOn | internal/carddavx/sync.go:233-327 | past token 0 every response to a request that read a later head strictly advances the token, from a cursor of whatever client or from the journal |
| SyncProgress.EndIsExact | internal/carddavx/sync.go:134-327 | with the addressbook's clocks ordered and no foreign first listing on the client's own way, those requests end with exactly the server's cards, or refused and then the client started behind the retained journal |
| SyncProgress.RoundProgresses | internal/carddavx/sync.go:134-327 | each request behind the head strictly advances the token, shortens the cached rest under the same token, or is refused because the row of the next revision is gone; no hypothesis on clocks or cursors |
| SyncProgress.SyncOfFollower | internal/carddavx/sync.go:160-171 | a client's own token on its own addressbook is never turned away before the journal is looked at |
| SyncProgress.RoundIsSync | internal/carddavx/sync.go:134-202 | the small steps of one uninterrupted request leave the cache, the token and the replica that the whole request computes |
| SyncProgress.FirstRoundSyncs | internal/carddavx/sync.go:139-158 | the first request of a fresh client on an existing addressbook is always served |
| FirstSyncs.PagedFirstSyncCompletes | internal/carddavx/sync.go:134-350 | a first sync at any page limits, with prunes between its requests and any cursors of others cached before it, is never refused and after at most one request for each card (at least one) has exactly the server's cards under the head's token with no continuation left; it asks for requests within two minutes of each other, for room for one rest under the item cap, and that no cached cursor expires later than the first one it stores |
| SyncCollection.StartDecides | internal/carddavx/sync.go:134-166 | which errors a request meets before the journal is looked at: not found exactly without the addressbook, an invalid token exactly for one that does not parse or names another addressbook; else the head and the token's revision |
| SyncCollection.SyncDecides | internal/carddavx/sync.go:134-202 | for an uninterrupted request, each error if and only if its condition: not found, or a token that does not parse, names another addressbook, or that neither an unexpired cursor nor the journal can go on from; no assumption on clocks |
| SyncCollection.SyncServes | internal/carddavx/sync.go:134-202 | what an accepted request is served: the cut of the waiting cursor if it pages, else the cut of the listing or of the later changes at the head |
| SyncCollection.ReportLimit | internal/server/handler.go:551-559 | a REPORT always pages: with the requested limit up to 500, with 500 when none or more is requested |
| SyncCollection.ResponseListsPage | internal/carddavx/sync.go:213-231 | every href of the page stands exactly once in the response, under its full path, in the list that its last item says, with that item's ETag in quotes; and nothing else does |
| SyncCollection.ResponseSaysWhereToGoOn | internal/carddavx/sync.go:213-220 | the response's token parses to the addressbook and the page's revision, a request with it starts there, and the response says truncated exactly when the page was |
| SyncCollection.ClientReadsPage | internal/carddavx/sync.go:213-231 | stripping path and quotes from the response and applying its two lists in either order gives the page |
| PageSafety.CutSplits | internal/carddavx/sync.go:204-212 | a page serves at most the limit, truncates exactly when there is more, and loses nothing |
| PageSafety.PageTokenIs | internal/carddavx/sync.go:313-327 | the token in numbers: of a truncated page the revision of its last item; of a last page the head, or its last item's revision if that is later |
| PageSafety.DeltaToken | internal/carddavx/sync.go:313-327 | the token of a page of (k, m] is the end of what it serves; a truncated page strictly passes k and leaves exactly the rest |
| PageSafety.DeltaPage | internal/carddavx/sync.go:204-247 | a delta page carries the convergence guarantee from k to its token |
| PageSafety.InitialToken | internal/carddavx/sync.go:313-327 | a first-listing page's token is never before the client's, never past the listing, and not before the head when it is the last page |
| PageSafety.InitialPageAgrees | internal/carddavx/sync.go:204-247 | after any page of a first listing the replica agrees with the token up to the listing's revision |
| PageSafety.InitialPageRest | internal/carddavx/sync.go:233-240 | what a truncated first-listing page caches is again the rest of that listing |
| StoreReads.ListingStartsFirstSync | internal/db/store.go:608-642 | the state listing holds every live card once, in order, with a revision at which it changed or 0 |
| CardStore.ListingIsOrdered | internal/db/store.go:608-642 | the listing is ordered by revision, then by href |
| StoreReads.ChangesSinceIsSlice | internal/db/store.go:574-606 | the change read is the history from max(token, floor) on |
| SyncItems.CollapseSyncPageItems | internal/carddavx/sync.go:298-311 | the two loops compute the last item of every href, in order |
| SyncItems.CollapsePreservesReplay | internal/carddavx/sync.go:298-311 | for every replica, the collapsed page does what the whole page does |
| SyncItems.CollapseIsDistinct | internal/carddavx/sync.go:298-311 | each href appears at most once after collapsing |
| SyncItems.CollapseKeepsHrefs | internal/carddavx/sync.go:298-311 | no href is lost by collapsing |
| SyncItems.CollapseByPages | internal/carddavx/sync.go:204-231 | collapsing page by page, for any split into any number of pages, equals applying the uncut list |
| SyncItems.ResponseOrderIrrelevant | internal/carddavx/sync.go:213-231 | updates and deletions may be applied in either order |
| CursorCache.EvictKeepsLargestYoungEnd | internal/carddavx/sync.go:352-397 | eviction keeps the largest end of the (expiry, key) order that fits both caps: the evicted cursors are its shortest sufficient prefix |
| CursorCache.YoungestSurvives | internal/carddavx/sync.go:352-397 | the greatest (expiry, key) cursor survives if it fits the item cap alone |
| CursorCache.PutCursorFits | internal/carddavx/sync.go:337-350 | both caps hold after every insert, whatever was cached before; a refused insert keeps them |
| CursorCache.PutCursorCaches | internal/carddavx/sync.go:337-350 | a cursor within the item cap that expires after every other unexpired one is cached under its token, whatever the caps and the cache |
| CursorCache.PutCursorKeepsAll | internal/carddavx/sync.go:337-350 | while both caps allow it an insert adds the cursor and keeps every unexpired one |
| CursorCache.OversizedIsNotCached | internal/carddavx/sync.go:337-350 | a cursor over the item cap is not cached and only the expired ones go |
| CursorCache.EvictedExpireFirst | internal/carddavx/sync.go:352-397 | whatever is evicted expires before all that is kept, and at one time the smaller key goes first |
| CursorCache.EvictsNoMoreThanNeeded | internal/carddavx/sync.go:352-397 | any set of cursors closed under later expiry and greater key that holds both caps is kept whole |
| CursorCache.CapsHoldAfterPut | internal/carddavx/sync.go:337-373 | after an insert the number of cursors and the total of their items are within the caps that are switched on |
| CursorCache.TakeCursorFits | internal/carddavx/sync.go:249-296 | hit, miss and continuation keep both caps |
| CursorCache.PutCursorOrigin | internal/carddavx/sync.go:337-350 | a cursor found after an insert is the inserted one under its token or an old one unchanged |
| CursorCache.TakeHitsIff | internal/carddavx/sync.go:249-258 | a request hits exactly when an unexpired cursor of its book lies under its token, and gets its cut |
| CursorCache.TakeKeepsOthers | internal/carddavx/sync.go:249-296 | under the caps a miss drops what has expired and nothing else, and a hit keeps every other unexpired cursor but one that its rest replaces |
| CursorCache.CachedRestIsServed | internal/carddavx/sync.go:233-240 | what a truncated page of the store leaves is cached and served whole for two minutes and not afterwards, if it is within the item cap and expires last |
| CursorCache.ContinuationIsServed | internal/carddavx/sync.go:285-293 | the same of what a cursor's own page leaves: within the item cap and expiring last, it is served for two minutes and not afterwards |
| CursorCache.OldestIsUnique | internal/carddavx/sync.go:383-397 | the eviction victim does not depend on map iteration order |
| SyncServices.SyncService.PruneExpiredCursors | internal/carddavx/sync.go:329-335 | the sweep removes exactly the expired cursors |
| SyncServices.SyncService.CountCursorItems | internal/carddavx/sync.go:375-381 | the loop returns the total of cached items |
| SyncServices.SyncService.CursorCacheOverCap | internal/carddavx/sync.go:365-373 | true exactly when a switched-on cap is exceeded |
| SyncServices.SyncService.OldestCursorKey | internal/carddavx/sync.go:383-397 | the loop finds the least key in (expiry, key) order, whatever order it visits |
| SyncServices.SyncService.EvictCursorsToCap | internal/carddavx/sync.go:352-363 | the loop ends and leaves what eviction specifies |
| SyncServices.SyncService.StoreCursor | internal/carddavx/sync.go:337-350 | the live cache after an insert is the specified one (CursorCache.PutCursorCaches and its neighbours say what that is) |
| SyncServices.SyncService.TakeCursorPage | internal/carddavx/sync.go:249-296 | a hit consumes the cursor, serves its page, may store the rest, says truncated exactly when more was cached than the limit, and its token parses to the page's revision; a miss only sweeps |
| SyncServices.SyncService.BuildPagedSyncResult | internal/carddavx/sync.go:204-247 | the live response and cache after a fresh page: truncated exactly when there are more items than a positive limit, a token that parses to the addressbook and the page's revision, both lists as specified |
| SyncServices.SyncService.SyncCollection | internal/carddavx/sync.go:134-202 | the request on the live store and cache is the specified request: same lists, same errors, same cache; its token parses to the served page's revision and truncated is the page's |
| SyncTokens.ParseOfFormat | internal/carddavx/sync.go:51-76 | parsing a formatted token gives its pair back for all int64 values; larger ones are refused |
| SyncTokens.FormatIsInjective | internal/carddavx/sync.go:51-53 | cursor keys never collide across books or revisions |
| SyncTokens.AcceptedSpellings | internal/carddavx/sync.go:55-76 | the accepted spellings, exactly |
| SyncTokens.TrimSpaceStrips | internal/carddavx/sync.go:138-140 | trimming takes the blanks off both ends of a token and nothing else |
| SyncCollection.SpellingsShareOneKey | internal/carddavx/sync.go:160-170 | a request with any accepted spelling is the request with the canonical token, and is served from the cursor that lies under the canonical key |
| StoreInvariant.ApplyKeeps | internal/db/store.go:652-872 | every transaction, committed or not, and both prunes keep the store invariant, only extend histories, bring no pruned row back, rename no addressbook and never reuse an id |
| StoreInvariant.RunsKeep | internal/db/store.go:652-872 | the same over every sequence of operations |
| StoreInvariant.PutInBookCommits | internal/db/store.go:695-780 | a successful put stores the canonical bytes under the given UID, adds exactly one row at revision + 1 with their hash, changes no other card, and reports what it did |
| StoreInvariant.PutDecides | internal/db/store.go:673-780 | a put commits if and only if its fields are given, its preconditions hold of the card, the addressbook exists, no other href has its UID, the revision is below the int64 limit and the journal takes the row; each refusal under its own condition |
| StoreInvariant.PutLeaves | internal/db/store.go:695-780 | a refused put changes nothing; a committed one leaves the whole store as it was but for the card with its canonical bytes, one revision and one row |
| StoreInvariant.UidRefusalIff | internal/db/store.go:929-930 | a put is refused for its UID exactly when storing it would give two cards one UID |
| StoreInvariant.DeleteInBookCommits | internal/db/store.go:790-837 | a successful delete adds exactly one deletion row with the card's last ETag, and changes no other card |
| StoreInvariant.DeleteDecides | internal/db/store.go:790-837 | a delete commits if and only if the card is there with the expected ETag, if one is expected, and the revision is below the int64 limit; each refusal under its own condition |
| StoreInvariant.DeleteLeaves | internal/db/store.go:790-837 | a refused delete changes nothing; a committed one leaves the whole store as it was but for the card, one revision and one deletion row with its last ETag |
| StoreInvariant.BatchIsAtomic | internal/db/store.go:652-671 | a batch, whatever addressbooks it names, leaves everything untouched or adds to each addressbook one row per input that names it, consecutive and in order |
| StoreInvariant.BatchIsPutsInTurn | internal/db/store.go:652-671 | a batch is its unconditional puts in order, each on what the earlier ones left, and the first failure restores the store |
| StoreInvariant.NewestRowOfLiveCard | internal/db/store.go:695-872 | a live card's newest retained row is a put with its stored ETag |
| StoreInvariant.AgePruneLeavesSuffixIffTimeOrdered | internal/db/store.go:839-849 | age prunes leave an unbroken journal for every cutoff if and only if clock readings are in revision order |
| StoreInvariant.KeepLeavesSuffixIff | internal/db/store.go:839-849 | a given filter leaves an unbroken journal if and only if every row behind a kept one is kept |
| StoreReads.MaxRevisionsPruneKeepsLast | internal/db/store.go:851-872 | a prune by revisions keeps exactly the rows of the last revisions it finds, a suffix whatever the clocks did; of an unbroken journal exactly the given number |
| StoreReads.AgePruneKeepsYoungRows | internal/db/store.go:839-849 | a prune by age keeps exactly the rows not older than the cutoff |
| StoreInvariant.AgePruneDecides | internal/db/store.go:839-849 | a prune by age changes journals only and keeps of each, in order, exactly the rows not older than the cutoff |
| StoreInvariant.RevisionPruneDecides | internal/db/store.go:851-872 | a prune by revisions changes journals only and keeps exactly the rows past revision minus the number given; with zero or fewer it changes nothing |
| Stores.Store.PutCardConn | internal/db/store.go:695-780 | the statements of a put, with the half-written state a failing one leaves |
| Stores.Store.PutCard | internal/db/store.go:673-693 | a put commits whole or restores, and is what a run's put does to the store |
| Stores.Store.PutCardsAtomic | internal/db/store.go:652-671 | the batch commits whole or restores, and is what a run's batch does |
| Stores.Store.DeleteCard | internal/db/store.go:790-837 | a delete commits whole or restores, and is what a run's delete does |
| Stores.Store.ListCardChangesSince | internal/db/store.go:574-606 | the retained changes after a revision, in order, cut by a positive limit |
| Stores.Store.ListCurrentCardSyncStates | internal/db/store.go:608-642 | every live card once with its newest retained revision or 0, ordered by revision and href |
| StoreInvariant.CreateKeeps | internal/db/store.go:908-919 | names stay unique, and a new addressbook gets an id never handed out before |
| StoreInvariant.CreateAndDropDecide | internal/db/store.go:304-318 | an addressbook is created exactly when its name is free, empty and under the next id; dropping one takes that one away and leaves every other name and addressbook |
| Stores.Store.UpdateAddressbookMetadata | internal/db/store.go:395-431 | one update of the given fields; a missing book is an error |
| Proppatch.ParseProppatchRequest | internal/server/handler.go:436-525 | on the tokens of any well-nested document the parser returns exactly the tree's meaning |
| Proppatch.ParserMeansTree | internal/server/handler.go:436-525 | success exactly for one propertyupdate root of DAV set and remove blocks of DAV prop elements, at least one property, no text outside; operations in document order |
| Proppatch.UpdateSpelledOut | internal/server/handler.go:436-525 | a set block means its text under the property's name, a remove block a removal without text |
| Proppatch.ValidateSingleXMLDocument | internal/server/handler.go:661-699 | the loop is the single-document check on any token stream |
| Proppatch.ValidatesSingle | internal/server/handler.go:661-699 | the check accepts exactly the forests with at most one root and only blanks outside |
| MetadataUpdates.CollectOps | internal/server/handler.go:885-924 | the collected last values, applied once, equal every operation applied in turn, for all metadata |
| MetadataUpdates.LastOperationWins | internal/server/handler.go:885-924 | each property ends with the value of the last operation that names it, empty for a removal, or with its old one; a color that is switched off with its old one |
| MetadataUpdates.AnswerNames | internal/server/handler.go:892-924 | the answer lists every named property, on the accepted side exactly those the server knows, each as often as it was named |
| MetadataUpdates.HandleProppatch | internal/server/handler.go:873-956 | 400 if and only if the last value of a known property is too long, not found if and only if something known is to be stored and the addressbook is missing, success otherwise; on success the book's metadata is what the operations give one by one and nothing else changes; on failure, or with a backend that cannot change metadata, nothing changes, and such a backend forbids every property |
| Backend.PutAddressObject | internal/carddav/backend.go:211-272 | the PUT is a lookup of the addressbook, a check on a read, a conditional transaction and a card read again |
| Backend.PutAnswersItsCard | internal/carddav/backend.go:263-271 | with nothing in between, a committed PUT is answered with the card it stored, its hash as ETag, and created exactly when the card was absent |
| Backend.PutAloneDecides | internal/carddav/backend.go:211-272 | a PUT with nothing in between commits if and only if the addressbook is found, If-None-Match meets an absent card or lists none of its ETag, If-Match names the ETag of a present one, href and UID are given, the UID is free and the database takes the row; else 404, 400, 412 or the UID conflict, each under its own condition, and nothing changes |
| Backend.NoHeadersIsUnset | internal/carddav/backend.go:352-398 | a PUT without conditional options is the PUT whose headers are both unset |
| Backend.PutOnBookDecides | internal/carddav/backend.go:211-398 | the same with anything between the read and the commit: which headers are decided on the read, and which once more at commit |
| Backend.PutOnBookLeaves | internal/carddav/backend.go:211-272 | what such a PUT leaves: the store as it was, or with the card's canonical bytes, one revision and one row more; and it reports a new card exactly when none was there at commit |
| Backend.DeleteAddressObject | internal/server/handler.go:1618-1661 | the DELETE is a lookup and a check on a read, a second lookup and a conditional transaction |
| Backend.DeleteAloneDecides | internal/server/handler.go:1618-1661 | a DELETE with nothing in between, with If-Match or without, succeeds if and only if the card is there, If-Match names its ETag, and the revision is below the int64 limit; else 404, 400 or 412, each under its own condition |
| Backend.DeleteRequestDecides | internal/server/handler.go:1618-1661 | the same with anything between the two lookups, the read and the commit |
| Backend.DeleteRequestLeaves | internal/carddav/backend.go:278-301 | a DELETE that fails changes nothing; one that succeeds takes the card, and adds one revision and one deletion row with its last ETag |
| Backend.PutCommitsOnlyWhatItSaw | internal/carddav/backend.go:211-272 | with anything between lookup, read and commit, If-Match commits only on the matched ETag, If-None-Match: * only when absent |
| Backend.DeleteCommitsOnlyWhatItSaw | internal/carddav/backend.go:278-301 | with anything between its two lookups, its read and its commit, an If-Match DELETE commits only on a card with the matched ETag, in the addressbook of the second lookup |
| Backend.OtherBookOnlyAfterDrop | internal/carddav/backend.go:278-301 | the second lookup finds another addressbook only if the first one was dropped in between |
| Backend.ListedIfNoneMatchIsNotRechecked | internal/carddav/backend.go:352-398 | an If-None-Match with listed ETags that passes on the read, card absent or not, goes on as an unconditional PUT; else it is refused |
| Backend.IfNoneMatchHoldsIff | internal/carddav/backend.go:352-398 | in every run every committed PUT meets its If-None-Match where it commits, if and only if the header is absent, is the wildcard, comes with If-Match, or lists no ETag that a card can have |
| Backend.ListedIfNoneMatchCanOverwrite | internal/carddav/backend.go:382-398 | for every other request a run in which it overwrites a card whose ETag it lists |
| Backend.NoLostUpdate | internal/carddav/backend.go:211-301 | two PUT or DELETE requests with If-Match whose reads saw one ETag, which the first changes, both commit only if some commit in between put exactly that ETag back |
| Import.ApplyImportedBatch | internal/ctl/ctl.go:1020-1048 | dry and real run as loops; a dry run changes nothing |
| Import.ClassifyImportedCard | internal/ctl/ctl.go:979-1011 | the scan reports a conflict exactly when the UID belongs to another href |
| Import.DryRunDecides | internal/ctl/ctl.go:1020-1035 | a dry run fails exactly when some card's UID is stored under another href, else it counts as created the cards that are not stored and all others as updated |
| Import.RealRunDecides | internal/ctl/ctl.go:1036-1047 | a real run fails exactly as its batch does, else it counts the batch's created cards and all others as updated |
| Import.DryRunPredictsBatch | internal/ctl/ctl.go:979-1048 | for distinct cards that keep stored UIDs, dry and real run agree on conflict or on both counts |
| Import.DryRunPredictsOneCard | internal/ctl/ctl.go:979-1048 | for one card they agree without that restriction |
| Import.RepeatedUidFoolsDryRun | internal/ctl/ctl.go:1020-1035 | two cards with new hrefs and one new UID pass the dry run and fail the real one, whatever is stored already |
| VCardText.CanonicalIsIdempotent | internal/db/store.go:1000-1008 | canonicalizing twice is canonicalizing once |
| VCardText.CanonicalHasOnlyCRLF | internal/db/store.go:1000-1008 | in stored bytes every CR is followed by LF and every LF preceded by CR |
| VCardText.SameCanonicalIffSameLines | internal/db/store.go:1000-1008 | two texts are stored alike if and only if they have the same lines under CR, LF or CRLF |
| VCardText.SameVerdictOnCanonical | internal/ctl/ctl.go:1068-1102 | both envelope checks judge stored and received bytes alike, for any trimming and case folding |
| VCardText.ValidateEnvelopeOnServer | internal/server/handler.go:1746-1784 | accepts exactly one envelope with only blank lines outside, folded lines never opening or closing it |
| VCardText.FoldedLinesAreInert | internal/server/handler.go:1746-1784 | the lines that open and close an accepted envelope are its marks and begin with no blank or tab |
| VCardText.ValidateEnvelopeOnImport | internal/ctl/ctl.go:1068-1102 | the same with leading blanks ignored |

## Left out

- SQLite itself: SQL text, WAL, busy timeouts, pragmas, timestamp encoding. A table is a map or a sequence and a transaction one atomic step. A revision or an id past int64 is taken to make its transaction fail.
- Foreign-key cascades: rows of a dropped addressbook are not modelled afterwards; a request in flight on one reads no rows, and no property depends on it.
- Users, passwords, authentication and the tenant checks on paths: an addressbook is found by its (user, slug) name.
- SHA-256: the ETag is any function of the canonical bytes; no lemma needs it to be injective.
- go-vcard and go-webdav encoding and decoding, `MatchETag`, XML tokenization: given functions, conditions or token streams. Decoding an element into a string is taken to collect its direct character data.
- HTTP routing, paths, logging, PROPFIND tables, multiget, the response-size estimate and XML marshalling of responses: plumbing.
- Stores.Store.PruneCardChangesByAge: the number of deleted rows, which is only logged, is not returned; nor by the prune by revisions.
- The card's modification time and the addressbook's timestamps: nothing modelled reads them.
- Backend.PutAddressObject: rejecting a card without a usable UID or one that cannot be encoded is the library's; the card read again is the stored one, not its WebDAV form.
- MetadataUpdates.HandleProppatch: length limits count characters, which are bytes here.
- Import.DryRunPredictsBatch: says nothing about batches that rename stored UIDs, where the dry run looks at the stored cards only.
- Reading, snapshotting and verifying import files, CLI flags, configuration, start-up, shutdown and the prune ticker: I/O.
- SyncConvergence.RunsConverge: the clock is a parameter of every event and need not advance; real time plays no role beyond the order of clock readings.
- SyncProgress.FollowingEnds: other clients stand still between the requests of the one that follows, because at token 0 they could refill the cursor it pages through for ever; past token 0 SyncProgress.FollowingEndsAmongOthers lets them run.
