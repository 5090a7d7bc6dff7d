# isupipe web application: reservation, icon-hash cache and rankings

A Dafny model of three pieces of sequential logic in the Go web application of
the isupipe livestreaming service (isucon13):

- **Livestream reservation** (`reserveLivestreamHandler`). `Reservation.ReservationDb` owns:
  - the reservation slot table (id, remaining count, start, end);
  - the livestream catalog (livestream rows and livestream–tag rows);
  - the two auto-increment counters.

  `Reserve` does the following, in order:
  1. checks the session;
  2. checks the booking term (2023-11-25 01:00 UTC to 2024-11-25 01:00 UTC);
  3. selects the slots wholly inside the requested range;
  4. checks each through `GetSlotCount`;
  5. decrements the same slots in place;
  6. appends the livestream row and one tag row per requested tag.

  The transaction becomes "a rejected request changes nothing".
- **The livestream response join** (`fillLivestreamsResponse`). Owners and tag rows are given, standing for the rows the queries return. The join:
  - builds the owner map and the tag map;
  - fills one response per livestream in order;
  - fails on the first livestream whose owner is missing.
- **The icon-hash cache** (`IconHashCache`, `getIconHashCache`) and the expiry check of `verifyUserSession`:
  - the cache is a class holding a map from user id to (hash, expiration);
  - the clock is an explicit parameter, in nanoseconds for the cache and in Unix seconds for the session;
  - `Cleanup` reads the clock once per entry it visits, so it takes one reading per key.
- **Statistics rankings** (`getUserStatisticsHandler`, `getLivestreamStatisticsHandler`):
  - the two `Less` comparators;
  - the score of each entry (reactions plus tips, a missing map key counting as 0);
  - the sort and the backward rank loop;
  - the per-user comment, tip and viewer totals.

  The rank is proved to be one plus the number of entries strictly greater than the target. That count is taken over the unsorted ranking, so the result does not depend on the sorting algorithm.

Modules:

| module | file | contents |
|---|---|---|
| `Optional` | optional.dfy | the `Option` datatype |
| `UserHandler` | user_handler.dfy | session check, cache, read-through hash |
| `Reservation` | reservation.dfy | term, slot selection, `GetSlotCount`, decrement, the `ReservationDb` class |
| `LivestreamResponse` | livestream_response.dfy | the response join |
| `Ranking` | ranking.dfy | generic sort, last-index rank loop, counting of greater entries |
| `StatsHandler` | stats_handler.dfy | comparators, ranking construction, ranks, totals |

Three behaviours of the Go reservation code shape the model:

- **Selection by containment.** The slots are selected by containment (`start_at >= start AND end_at <= end`). A slot is not selected merely because it overlaps the request. A slot that only partly overlaps the request is neither checked nor decremented.
- **No ordering.** The selected rows are not ordered by start time. The model keeps table order.
- **No second check.** The count is not checked again when it is decremented. The only check is the earlier `GetSlotCount` loop. That loop reads the first row with the same interval, so with two rows sharing an interval a row can go below zero (`Reservation.DuplicateIntervalOverbooks`).

## Model

| member | source | states |
|---|---|---|
| Reservation.TermMatchesCalendar | webapp/go/livestream_handler.go:106-109 | the term bounds are 2023-11-25 01:00 UTC and 2024-11-25 01:00 UTC as Unix seconds (1700874000, 1732496400), with the epoch at 0 |
| Reservation.EpochDay | webapp/go/livestream_handler.go:110-111 | the civil-calendar day count puts 1970-01-01, the origin of `time.Unix`, at day 0 |
| Reservation.TermStartDay | webapp/go/livestream_handler.go:108 | 2023-11-25 is day 19686 after the epoch |
| Reservation.TermEndDay | webapp/go/livestream_handler.go:109 | 2024-11-25 is day 20052 after the epoch, 366 days after the term start since 2024 is a leap year |
| Reservation.TermBoundaries | webapp/go/livestream_handler.go:110-115 | a start at the term end, or an end at the term start, is refused whatever the other bound is; the request one second inside each edge passes; a request passes exactly when start < term end and term start < end |
| Reservation.Contained | webapp/go/livestream_handler.go:120 | the row filter of the slot query, also the WHERE of the UPDATE at :144: the slot starts at or after the requested start and ends at or before the requested end, so a slot that only overlaps the request is not contained |
| Reservation.SelectSlots | webapp/go/livestream_handler.go:117-123 | a row is selected iff it is in the table and lies wholly inside the requested range (containment, not overlap); each selected row occurs exactly as often as in the table, and rows outside the range not at all; never more rows than the table |
| Reservation.OutOfTerm | webapp/go/livestream_handler.go:113 | the refusal test: a start at or after the term end, or an end at or before the term start (its consequences are `TermBoundaries`) |
| Reservation.SameInterval | webapp/go/livestream_handler.go:67 | the match test of `GetSlotCount`: both the start and the end equal the argument's; the remaining count and the id play no part |
| Reservation.FirstSameInterval | webapp/go/livestream_handler.go:65-72 | the index of the first row whose start and end both equal the argument's, or the length when there is none |
| Reservation.SlotCount | webapp/go/livestream_handler.go:65-72 | the count `GetSlotCount` returns, defined through `FirstSameInterval`; its meaning is stated by `SlotCountReadsFirstMatch` |
| Reservation.SlotCountReadsFirstMatch | webapp/go/livestream_handler.go:65-72 | the count read is that of the first row whose interval equals the argument's, whatever later rows with that interval hold; 0 when no row has that interval |
| Reservation.GetSlotCount | webapp/go/livestream_handler.go:65-72 | the loop returns the count of the first row with the same interval, and 0 when no row has it |
| Reservation.HasCapacity | webapp/go/livestream_handler.go:124-130 | the condition the check loop accepts: every selected row reads, through `SlotCount` over the selected rows, a count of at least 1 (the loop is `CheckCapacity`) |
| Reservation.CheckCapacity | webapp/go/livestream_handler.go:124-130 | passes iff every selected row, read through `GetSlotCount` on the selected rows, has a count of at least 1 |
| Reservation.Decremented | webapp/go/livestream_handler.go:144 | same length and order; every contained row loses exactly 1 and changes in nothing else; every other row is unchanged |
| Reservation.DecrementConsumesOnePerSelectedSlot | webapp/go/livestream_handler.go:144 | the update lowers the table's total count by exactly the number of selected rows |
| Reservation.NoOverbookingWithDistinctIntervals | webapp/go/livestream_handler.go:119-146 | when no two selected rows share an interval, a request that passes the check leaves every selected row at 0 or above |
| Reservation.DuplicateIntervalOverbooks | webapp/go/livestream_handler.go:65-72 | two rows with the same interval, the first with count 1 and the second with 0: the check passes and the second row goes to -1 |
| Reservation.NoWholeSlotChangesNoCount | webapp/go/livestream_handler.go:119-146 | a request containing no whole slot selects nothing, passes the check vacuously and changes no count |
| Reservation.ReversedRequestSelectsNothing | webapp/go/livestream_handler.go:119-146 | a request with start after end selects no well-formed slot and changes no count |
| Reservation.ReservationDb.DecrementSlots | webapp/go/livestream_handler.go:144 | the in-place loop leaves the slot table equal to `Decremented` of the old table; the catalog and counters are unchanged |
| Reservation.ReservationDb.InsertTags | webapp/go/livestream_handler.go:159-167 | appends one tag row per requested tag id, in request order and with duplicates kept, with consecutive fresh row ids; nothing else changes |
| Reservation.ReservationDb.Reserve | webapp/go/livestream_handler.go:81-179 | session errors, a range outside the term and missing capacity give their own outcomes, in that order; it succeeds iff all three checks pass; a rejected request changes nothing; a success decrements exactly the contained slots and appends one livestream (session user, the request's fields, a fresh id above every earlier id) and its tag rows |
| LivestreamResponse.LastOwnerIndex | webapp/go/livestream_handler.go:572-575 | the position of the last fetched owner with the id, or -1 |
| LivestreamResponse.OwnersMap | webapp/go/livestream_handler.go:572-575 | an id is mapped iff some fetched owner has it, and it maps to the last such owner |
| LivestreamResponse.OwnerFoundIffFetched | webapp/go/livestream_handler.go:572-575 | an owner is found for an id exactly when a fetched owner carries that id, and the found owner has that id |
| LivestreamResponse.TagMap | webapp/go/livestream_handler.go:594-600 | the map has a key exactly for each livestream id carried by some join row, and no key maps to an empty list |
| LivestreamResponse.TagMapAgreesWithTagsOf | webapp/go/livestream_handler.go:593-600 | reading the tag map with the empty default gives exactly the join rows of that livestream, in row order |
| LivestreamResponse.ToLivestream | webapp/go/livestream_handler.go:608-618 | the response struct: id, title, description, playlist URL, thumbnail URL, start and end copied from the livestream row, with the owner and tag list given |
| LivestreamResponse.TagsIn | webapp/go/livestream_handler.go:612 | a read of the tag map with Go's nil default: the stored list when the id is a key, the empty list otherwise, so the `[]` normalisation at :619-621 gives the same value |
| LivestreamResponse.BuildOwnersMap | webapp/go/livestream_handler.go:572-575 | the loop builds `OwnersMap` of the fetched owners |
| LivestreamResponse.BuildTagMap | webapp/go/livestream_handler.go:593-600 | the loop builds a map whose entry for each id (empty when absent) is that livestream's tags in row order |
| LivestreamResponse.FillFromMaps | webapp/go/livestream_handler.go:602-622 | the fill loop stops at the first livestream whose owner is not in the map and names it, and fails iff some owner is missing; otherwise one response per livestream, in order, with its owner from the map and its tags read with the empty default |
| LivestreamResponse.FillLivestreamsResponse | webapp/go/livestream_handler.go:552-624 | empty input gives an empty result; the fill fails iff some livestream's owner is missing, and then names the first such livestream; otherwise one response per livestream, in input order, carrying its fields, its owner and its tags in row order (empty when it has none) |
| UserHandler.VerifyUserSession | webapp/go/user_handler.go:377-399 | a missing expiry is reported first, then a missing user id; with both present the session is expired iff now > expiry, so the expiry second itself is accepted |
| UserHandler.SessionValidBeforeExpiry | webapp/go/user_handler.go:393-396 | a session accepted at some second is accepted at every earlier second |
| UserHandler.Lookup | webapp/go/user_handler.go:471-484 | `Get` reports a value iff the key is present and not strictly past its expiration, and the value is the stored one |
| UserHandler.AfterGet | webapp/go/user_handler.go:478-482 | `Get` removes the key it read iff that entry has expired, and changes nothing otherwise |
| UserHandler.Expired | webapp/go/user_handler.go:478 | an entry has expired when the clock is strictly after its expiration, so it is still served at the expiration instant (used by `Lookup`, `AfterGet`, `SweptAt`) |
| UserHandler.SweptAt | webapp/go/user_handler.go:490-498 | after a sweep a key remains iff its entry has not expired at the clock reading taken when the sweep visited that key, and it keeps its entry |
| UserHandler.IconHashCache.constructor | webapp/go/user_handler.go:453 | the cache starts empty |
| UserHandler.IconHashCache.Set | webapp/go/user_handler.go:464-469 | stores the hash under the key with expiration now + ttl, replacing any earlier entry for the key |
| UserHandler.IconHashCache.Get | webapp/go/user_handler.go:471-484 | returns the stored value and true on a hit; on a miss it returns the empty value and false, and the new map is `AfterGet` of the old one |
| UserHandler.IconHashCache.Delete | webapp/go/user_handler.go:486-488 | removes the key and nothing else |
| UserHandler.IconHashCache.Cleanup | webapp/go/user_handler.go:490-498 | the loop reads the clock at each entry it visits and leaves exactly the entries not expired at their own reading, with their values |
| UserHandler.IconHashCache.CleanupAll | webapp/go/user_handler.go:500-505 | the loop leaves the cache empty |
| UserHandler.SetThenGet | webapp/go/user_handler.go:464-484 | after `Set` at time t, `Get` finds the hash at every time up to t + ttl and changes nothing; after that it misses and evicts only that key |
| UserHandler.SetReplacesOnlyItsKey | webapp/go/user_handler.go:464-469 | `Set` gives the key its new value and expiration, and every other key reads as before |
| UserHandler.GetMisses | webapp/go/user_handler.go:471-484 | `Get` of an absent key misses and changes nothing; `Get` of an expired key misses and removes that key only |
| UserHandler.CleanupInvisibleToGet | webapp/go/user_handler.go:471-498 | a sweep changes no `Get` of a key at any time at or after the reading the sweep took at that key |
| UserHandler.CleanupIdempotent | webapp/go/user_handler.go:490-498 | a second sweep with the same clock readings removes nothing |
| UserHandler.CleanupReadsClockPerEntry | webapp/go/user_handler.go:491-495 | with entries expiring at t0 and t0 + 1 visited at t0 and t0 + 2, the sweep keeps the first and deletes the second, which no single clock reading for the whole sweep would do |
| UserHandler.GetIconHash | webapp/go/user_handler.go:507-526 | a hit returns the cached hash and leaves the cache as it is; a failed icon query returns the error; otherwise it returns the digest of the icon (the fallback image when the user has none) and stores it with a two-second TTL from the second clock reading |
| Ranking.SortBy | webapp/go/stats_handler.go:137 | the sorted ranking is a permutation of the ranking |
| Ranking.InsertSorted | webapp/go/stats_handler.go:137 | inserting into a sorted ranking keeps it sorted under a strict total order |
| Ranking.SortByIsSorted | webapp/go/stats_handler.go:137 | the sorted ranking is in ascending order under a strict total order |
| Ranking.LastIndex | webapp/go/stats_handler.go:139-146 | the last position holding the target, or -1; no later entry is the target |
| Ranking.ComputeRank | webapp/go/stats_handler.go:139-146 | the backward loop counts the entries after the last target plus one: n minus its position, so n + 1 when absent |
| Ranking.CountGreaterPermutation | webapp/go/stats_handler.go:137-146 | the number of entries greater than an entry is the same in any permutation of the ranking |
| Ranking.CountGreaterInSorted | webapp/go/stats_handler.go:139-146 | in an ascending list, the entries greater than the entry at p, when it is not repeated after p, are exactly those after p |
| Ranking.RankCountsGreater | webapp/go/stats_handler.go:139-146 | in a sorted ranking, the rank from the loop is one plus the number of entries strictly greater than the target |
| Ranking.RankAfterSort | webapp/go/stats_handler.go:137-146 | the rank the backward loop computes on the sorted ranking, n minus the last target position (proved about it: `PresentTargetRank`, `AbsentTargetRank`, `SortedRank`) |
| Ranking.CountGreaterOfMember | webapp/go/stats_handler.go:139-146 | an entry of the ranking has fewer greater entries than the ranking's length, so its rank is at most n |
| Ranking.GreaterRanksBetter | webapp/go/stats_handler.go:139-146 | a greater entry has no more entries above it than a smaller one, and strictly fewer when it is itself ranked |
| Ranking.SortByLength | webapp/go/stats_handler.go:137 | the sort keeps the number of entries |
| Ranking.TargetSurvivesSort | webapp/go/stats_handler.go:137-146 | a target present before the sort is found by the rank loop after it |
| Ranking.AbsentTargetRank | webapp/go/stats_handler.go:137-146 | a target absent before the sort is not found after it, so the loop runs to the front and gives n + 1 |
| Ranking.PresentTargetRank | webapp/go/stats_handler.go:137-146 | a target present in the ranking gets a rank between 1 and n from the sort and the backward loop |
| Ranking.SortedRank | webapp/go/stats_handler.go:137-146 | when every target entry equals x, the rank read off the sorted ranking is one plus the number of entries of the unsorted ranking strictly greater than x |
| StatsHandler.LivestreamLess | webapp/go/stats_handler.go:30-36 | the livestream comparator: lower score first, equal scores by lower livestream id (its order properties are `LivestreamLessIsStrictTotalOrder`) |
| StatsHandler.LivestreamLessIsStrictTotalOrder | webapp/go/stats_handler.go:30-36 | ordering by score and then by livestream id is irreflexive, transitive and total on distinct entries |
| StatsHandler.StringLess | webapp/go/stats_handler.go:57 | Go's `<` on strings: the first differing character decides, and a proper prefix sorts first (its order properties are the three lemmas below) |
| StatsHandler.StringLessIrreflexive | webapp/go/stats_handler.go:57 | no username sorts before itself |
| StatsHandler.StringLessTransitive | webapp/go/stats_handler.go:57 | the username order is transitive |
| StatsHandler.StringLessTotal | webapp/go/stats_handler.go:57 | of two different usernames, one sorts before the other |
| StatsHandler.UserLess | webapp/go/stats_handler.go:55-61 | the user comparator: lower score first, equal scores by `StringLess` on usernames (its order properties are `UserLessIsStrictTotalOrder`) |
| StatsHandler.UserLessIsStrictTotalOrder | webapp/go/stats_handler.go:55-61 | ordering by score and then by username is irreflexive, transitive and total on distinct entries |
| StatsHandler.BuildLivestreamRanking | webapp/go/stats_handler.go:273-281 | one entry per livestream id, in input order, scored reactions plus tips with a missing key counting as 0 |
| StatsHandler.BuildUserRanking | webapp/go/stats_handler.go:129-136 | one entry per user, in input order, named after the user and scored reactions plus tips with a missing key counting as 0 |
| StatsHandler.ValueOrZero | webapp/go/stats_handler.go:131 | a Go map read: the stored value when the key is present and 0 when it is missing, as `userCountMap[user.ID] + userTipMap[user.ID]` reads them here and at :276 |
| StatsHandler.LivestreamRank | webapp/go/stats_handler.go:273-291 | for a listed livestream the rank is one plus the number of livestreams with a strictly greater entry, between 1 and n; for an unlisted one it is n + 1 |
| StatsHandler.LivestreamRankPresent | webapp/go/stats_handler.go:273-291 | a listed livestream is the only entry carrying its id, so the rank read off the sorted ranking is one plus the entries greater than its own, and lies in 1..n |
| StatsHandler.UserRank | webapp/go/stats_handler.go:129-146 | for a listed user the rank is between 1 and n, and with unique names it is one plus the number of users with a strictly greater entry; for an unknown name it is n + 1 |
| StatsHandler.UniqueNameRank | webapp/go/stats_handler.go:129-146 | with unique usernames, only the user at position k carries the name, and the rank read off the sorted ranking is one plus the entries greater than that user's |
| StatsHandler.UserRankPresent | webapp/go/stats_handler.go:129-146 | a listed user's rank read off the sorted ranking lies in 1..n; with unique usernames it is one plus the entries greater than that user's entry |
| StatsHandler.LivestreamTieGoesToLargerId | webapp/go/stats_handler.go:30-36 | of two livestreams with equal scores, the one with the larger id has strictly fewer entries above it |
| StatsHandler.UserTieGoesToLaterName | webapp/go/stats_handler.go:55-61 | of two users with equal scores, the one whose name sorts later has strictly fewer entries above it |
| StatsHandler.ViewerCounts | webapp/go/stats_handler.go:179-187 | one viewer count per livestream, in order |
| StatsHandler.AddCommentTips | webapp/go/stats_handler.go:173-176 | the loop over one livestream's comments adds their number to the comment total and their tip sum to the tip total |
| StatsHandler.AllCommentTipsStep | webapp/go/stats_handler.go:167-177 | the comments seen after one more livestream are those seen before followed by that livestream's comments |
| StatsHandler.CommentTotals | webapp/go/stats_handler.go:167-177 | the loop over the user's livestreams gives the number of their comments and the sum of their tips |
| StatsHandler.ViewerCountsStep | webapp/go/stats_handler.go:181-187 | the viewer sum after one more livestream is the sum before plus that livestream's viewer count |
| StatsHandler.ViewerTotal | webapp/go/stats_handler.go:181-187 | the loop over the user's livestreams gives the sum of their viewer counts |
| StatsHandler.UserTotals | webapp/go/stats_handler.go:159-187 | the comment total is the number of comments over all the user's livestreams, the tip total their tip sum, the viewer total the sum of the livestream viewer counts |
| StatsHandler.TotalsAreAdditive | webapp/go/stats_handler.go:167-187 | the three totals of two groups of livestreams together are the sums of the groups' totals |

## Left out

- HTTP and session plumbing: routing, JSON decoding, status codes, message strings and the failure of `session.Get` itself. Outcomes are datatypes.
- SQL as such:
  - queries are filters and updates over in-memory sequences;
  - query building with `sqlx.In` is not modelled;
  - query errors other than the icon query's are not modelled;
  - commit failures and `LastInsertId` failures are not modelled.
- Concurrency: `FOR UPDATE` row locking, transaction isolation and concurrent requests. Each call is a single sequential step. Atomicity is stated as "a rejected request changes nothing".
- Reservation.ReservationDb.Reserve: the singular `fillLivestreamResponse` called after the inserts (webapp/go/livestream_handler.go:169) and its error path are not modelled. The result carries the inserted livestream row rather than the filled response.
- LivestreamResponse.FillLivestreamsResponse: owners are given as already-filled users, so `fillUsersResponse` and its queries are outside the model. Go distinguishes a nil tag slice from an empty one; sequences do not, so the normalisation to `[]` has nothing to state.
- LivestreamResponse.FillLivestreamsResponse models `fillLivestreamsResponseWithoutTx` (webapp/go/livestream_handler.go:626-698) as well, since its join is identical.
- UserHandler.GetIconHash: SHA-256 and hex printing are a function parameter `digest`. Reading the fallback image from disk is a parameter `noImage`.
- UserHandler.IconHashCache: `sync.Map` is a plain map. No concurrent access is modelled.
- The clock (`time.Now`) is a parameter of each operation that reads it. `Cleanup` gets one reading per key (`visitedAt`), since Go reads the clock at each visited entry.
- Fixed-width integers: int64 scores, totals and counts are unbounded integers, so overflow is not modelled.
- Ranking.SortBy: `sort.Sort`'s algorithm is replaced by an insertion sort that also yields a sorted permutation. The rank is stated through the unsorted ranking, so the choice does not matter.
- StatsHandler.UserRank: the "one plus the number of greater entries" statement is given only when usernames are unique. With repeated names the loop stops at the last entry carrying the name; `Ranking.ComputeRank` still states that.
- Statistics computed wholly in SQL are not modelled: reaction and report counts, the maximum tip, the viewer count of one livestream and the favourite emoji.
- `searchLivestreamsHandler` is not modelled. Its behaviour is SQL ordering and limits.
- Thin handlers are not modelled: registration (including its reserved-name check), login, icon upload, and viewer enter and exit. They are single inserts or deletes.
- bcrypt, uuid and the benchmark client test are not modelled.
- Seeding of the slot table is a constructor parameter.
