# Eloquent vocabulary backend — a Dafny model

This project models the callable handlers of the Eloquent vocabulary app. There are three current handlers and the three legacy handlers they replaced. Each handler is a pure function that takes:

- the caller's uid (`None` for an unauthenticated call);
- the request fields;
- the clock reading `now`;
- the document store, as maps from document ids to records.

Each handler returns either a `Failure` or the response together with the store after its writes.

- `ProgressUpdater` (`updateWordProgress`) applies one review to a tracked word:
  - it validates the id and checks that the increment is ±1;
  - it checks that the record exists and belongs to the caller;
  - it moves the score up or down by one inside [1, 5] (the cap is applied only in the direction of the move);
  - it stamps `lastSeenAt`;
  - it sets the one-way flags `alreadyKnown` and `learned`.
- `LearningSelector` (`getLearningWords`) builds a learning set of 5 words:
  - it takes up to 5 due records: the caller's, at the user's level, not learned, and last seen more than 15 minutes ago;
  - if fewer than 5 are due, it tops up with catalog words whose `index` is in [cursor, cursor + shortfall) at the user's level;
  - it creates a tracking record for each of those words;
  - it advances the level's entry of the `nextWords` cursor by the shortfall.
- `UserWordPager` (`getUserWords`) serves one page of the caller's words whose `alreadyKnown` is `false`:
  - the page is ordered by `lastSeenAt`, with never-seen records first;
  - it starts strictly after an optional timestamp cursor;
  - never-seen entries are stamped as seen;
  - the next-page token is returned.
- `Legacy` covers the three handlers of `functions/index.js`:
  - a learning set of 15 words, mixing stale records (seen more than an hour ago, most recent first) with "intermediate" catalog words;
  - the full list of the caller's records;
  - an update that clamps symmetrically into [1, 5] and creates a missing record from the catalog word with the same id.
- `QueryOrder` gives the order in which the document store returns a query: by field value, `null` first, with ties broken by document id. A descending query reverses both. `FirstN` is a `.limit(n)` over that order.
- `Lifecycle` states how the current handlers interact over one store.

Modelling choices:

- Errors raised inside a handler's `try` are rethrown as "internal". The model writes them `Internal(cause)`.
- A query or write the store refuses is `StoreRejected`. Examples are an `undefined` filter value, an unusable limit, and an empty document path.
- Dereferencing `undefined` is `TypeError`.
- Auto-generated document ids are a parameter `newIds`. The store promises they are distinct and unused.
- The validity check `new Date(x)` is a parameter `parseDate`.
- A top-up is split into its query result (`picked`, the fresh-word query) and its batch of records (`created`). The handler passes the real query and batch. The lemmas about a top-up hold for any query result and batch that meet their stated contracts.

Behaviours of the code worth noting:

- Records created by `getLearningWords` are written with the server timestamp, so the store holds `lastSeenAt = now`. The answer shows the placeholder itself, not a time (`LearningSelector.ShownStamp`). The records carry no `alreadyKnown` field at all, so they are never `false`.
- The cursor moves by the whole shortfall, however few catalog words were found.
- Each page entry, and therefore the next-page token, carries the `lastSeenAt` read before stamping. For a never-seen last entry that is `null`.
- `startAfter(timestamp)` skips every record tied at that timestamp (`UserWordPager.TiedRecordIsSkipped`). This assumes stamps in whole milliseconds, as the model's `Time` is. The store keeps finer digits, and the token loses them when it is turned into an ISO string (`getUserWords.js` line 69) and parsed back (lines 25-27). So in the store a cursor usually falls just before the last entry's own stamp, and that entry is served again rather than a tied one being skipped.
- `getUserWords` looks the user up before validating the cursor, so a missing user wins over a bad cursor.
- A client call without an argument sends `data: null`. `updateWordProgress`, `getUserWords` and the legacy update read their fields from it outside any `try`, so such a call fails with an unwrapped TypeError (`ProgressUpdater.UpdateWordProgressCall`, `UserWordPager.GetUserWordsCall`, `Legacy.LegacyUpdateWordProgressCall`). A payload without a field carries `undefined` there.
- `updateWordProgress` and `getUserWords` throw plain `Error("kind", message)`, where `getLearningWords` and the legacy handlers throw `HttpsError`. The model records the intended kind either way.

Together these make the pager and the selector disjoint. No handler ever writes `alreadyKnown == false`, so starting from a store without such records every page is empty (`Lifecycle.NoUnknownMarksGivesEmptyPages`).

## Model

| member | source | states |
|---|---|---|
| `Records.FetchUser` | functions/src/utils/userUtils.js:3-13 | The lookup succeeds exactly when a user with the uid exists, and then yields that user. An unknown uid gives a TypeError (dereferencing the missing first result), not a clean not-found. |
| `QueryOrder.FirstN` | functions/src/getUserWords.js:37-47 | A limited ordered query returns min(limit, matches) distinct matching documents. They come in (field value, document id) order, `null` first. No document left out comes before one returned. A result shorter than the limit holds every match. |
| `QueryOrder.FirstNBeforeLater` | functions/index.js:30-35 | Each result comes before every document not already returned ahead of it, whether that document is returned later or left out. |
| `QueryOrder.DescendingValues` | functions/index.js:34 | A descending query returns non-increasing field values. |
| `ProgressUpdater.StepProgress` | functions/src/updateWordProgress.js:44-47 | From a score in [1, 5] the result stays in [1, 5] and equals the clamp of p ± 1 into [1, 5]. +1 never decreases the score and never exceeds 5. -1 never increases it and never drops below 1. |
| `ProgressUpdater.Review` | functions/src/updateWordProgress.js:49-61 | The score is stepped and `lastSeenAt` becomes now. `alreadyKnown` becomes true exactly when the record was never seen and the step is +1; otherwise it is kept, and it is never set to false. `learned` is true exactly when it already was or the new score is 5. Owner, word and level are kept. |
| `ProgressUpdater.UpdateWordProgress` | functions/src/updateWordProgress.js:11-73 | Unauthenticated comes first. A missing or non-string id, or an increment other than ±1, gives invalid-argument before any read. A missing record gives internal(not-found) and a record of another user gives internal(permission-denied), each if and only if. The call succeeds exactly when the request is valid and the record exists and belongs to the caller. On success only the target record changes: it becomes its review. The response is `{success: true, newProgress}` with the stored score. |
| `ProgressUpdater.UpdateWordProgressCall` | functions/src/updateWordProgress.js:10-16 | Unauthenticated if and only if there is no caller. An authenticated call without a payload fails with an unwrapped TypeError, if and only if, and never succeeds. With a payload it is the handler on the payload's fields. |
| `ProgressUpdater.UpdatePreservesWellFormed` | functions/src/updateWordProgress.js:44-63 | Every record keeps its score in [1, 5], with a score of 5 only on a learned record, across any update. Every user stays filed under its own uid. |
| `ProgressUpdater.IncrementAtTopIsIdempotent` | functions/src/updateWordProgress.js:44-61 | +1 at score 5 answers 5 and leaves the word learned. Repeating it at the same time changes nothing. |
| `ProgressUpdater.FirstIncrementFromFour` | functions/src/updateWordProgress.js:55-61 | +1 on a never-seen record at 4 gives 5 and sets both `learned` and `alreadyKnown`, with `lastSeenAt` stamped. |
| `ProgressUpdater.DecrementKeepsFlags` | functions/src/updateWordProgress.js:54-61 | A decrement never clears `learned` and never touches `alreadyKnown`. |
| `LearningSelector.SkillToIdx` | functions/src/getLearningWords.js:58-63 | The four level names map to 0..3 and back. Any other level has no index. |
| `LearningSelector.DueWords` | functions/src/getLearningWords.js:16-35 | At most 5 distinct records, each the caller's, at the level, not learned, and seen before now − 15 min. They are in `lastSeenAt` order, and no due record left out was seen after one returned, so they are the oldest. Fewer than 5 means every due record is included. |
| `LearningSelector.FreshWords` | functions/src/getLearningWords.js:65-75 | At most `remaining` distinct catalog words at the level, with `index` in [c, c + remaining), in index order. No such word left out has a lower index than one returned. Fewer than asked means every such word is included. |
| `LearningSelector.NewUserWord` | functions/src/getLearningWords.js:87-94 | A created record has score 1, is not learned, and is owned by the caller at the user's level. It is stamped now and has no `alreadyKnown` field. |
| `LearningSelector.Created` | functions/src/getLearningWords.js:82-98 | The batch writes one new record per fresh word, under the matching new id, and nothing else. |
| `LearningSelector.Advance` | functions/src/getLearningWords.js:102-106 | `nextWords[k]` grows by the step. Every other entry and the length are kept. |
| `LearningSelector.DueItems` | functions/src/getLearningWords.js:37-50 | Each due entry carries its id and stored record, joined with the catalog word the record references (none when that word is missing), and shows the stored `lastSeenAt`. |
| `LearningSelector.NewItems` | functions/src/getLearningWords.js:109-117 | Each new entry carries its new id, the created record and the catalog word it was made from. It shows the server-timestamp placeholder as `lastSeenAt`, not a time. |
| `LearningSelector.NothingDueWithoutRecords` | functions/src/getLearningWords.js:22-35 | A user with no tracked records has no due records. |
| `LearningSelector.PickedWords` | functions/src/getLearningWords.js:65-75 | The fresh-word query of a top-up returns at most 5 − due distinct catalog words. Each is at the user's level with `index` in [c, c + 5 − due) for the level's cursor c. They come by ascending index, none left out has a lower index than one picked, and fewer than 5 − due means every such word is picked. |
| `LearningSelector.TopUpAnswer` | functions/src/getLearningWords.js:56-119 | The set is the due records in order, as stored and joined with their words, then one entry per picked word, in the order picked. The total is exactly due + words found, and at most 5. New entry i is the created record of picked word i, under new id i, joined with that word, and shows the placeholder stamp. |
| `LearningSelector.TopUpStore` | functions/src/getLearningWords.js:96-107 | The store after a top-up holds the old records plus the batch. A batch record wins under its id, and every other old record is kept. The user's `nextWords` entry of the level moves by 5 − due, with uid and level kept. No other user and no catalog word changes. |
| `LearningSelector.TopUpCreatesRecords` | functions/src/getLearningWords.js:82-100 | A top-up adds exactly the records of its new entries, under ids unused before. No existing record or catalog word changes. |
| `LearningSelector.TopUpKeepsOrAddsNew` | functions/src/getLearningWords.js:87-100 | After a top-up every record is either an old record left as it was or a new record of the caller at the user's level, at score 1, unlearned, stamped now. |
| `LearningSelector.TopUpKeepsWellFormed` | functions/src/getLearningWords.js:87-107 | A top-up keeps every record's score in [1, 5], with 5 only on learned records. Every user stays filed under its own uid. |
| `LearningSelector.TopUpAdvancesCursor` | functions/src/getLearningWords.js:102-106 | The cursor of the user's level moves by exactly 5 − due, however few words were found. Other levels, the skill level and other users are unchanged. |
| `LearningSelector.TopUpFacts` | functions/src/getLearningWords.js:37-119 | A top-up answers the due records as stored and joined with their words, then new score-1 records under the new ids for distinct in-range words. The new words come by ascending `index`, no in-range word below one of them is left out, and all in-range words come back when fewer than 5 − due do. It adds exactly those records to the store, changes no existing record or word, and moves the cursor by 5 − due. The other cursor entries, the level and every other user are kept. |
| `LearningSelector.GetLearningWords` | functions/src/getLearningWords.js:9-126 | Unauthenticated comes first, if and only if there is no caller. A missing user gives an unwrapped TypeError, if and only if. A set never exceeds 5 entries. |
| `LearningSelector.LearningFailures` | functions/src/getLearningWords.js:58-75 | An existing user's call fails only when fewer than 5 are due and the level has no usable cursor entry, so the fresh-word query is refused. The failure is then internal. |
| `LearningSelector.FullDueBatchIsReadOnly` | functions/src/getLearningWords.js:37-54 | With 5 due records the answer is the due query's 5 ids, in its order, each with its stored record, joined with its word and showing its stored `lastSeenAt`. No record is created and the cursor is untouched. |
| `LearningSelector.ShortDueBatchTopsUp` | functions/src/getLearningWords.js:56-119 | With fewer than 5 due records and a usable cursor, the call succeeds. The answer is the due records as stored and joined with their words, then new score-1 records for distinct words at the level with `index` in [c, c + 5 − due). These come by ascending `index`, none below them is skipped, and all of them come back when fewer than 5 − due exist. Exactly those new records are written, under unused ids. The cursor moves by 5 − due. The other cursor entries, the level and every other user are kept. |
| `LearningSelector.LearningPreservesWellFormed` | functions/src/getLearningWords.js:87-107 | A selection keeps every record's score in [1, 5], with 5 only on learned records. Every user stays filed under its own uid. |
| `LearningSelector.FirstBeginnerTopUp` | functions/src/getLearningWords.js:65-119 | With no due records and five beginner words indexed 0..4, the top-up answers five new records at score 1, unlearned, each showing the placeholder stamp. Each is stored with `lastSeenAt = now`, and the beginner cursor goes from 0 to 5. |
| `LearningSelector.FirstBeginnerBatch` | functions/src/getLearningWords.js:19-119 | A new beginner's call succeeds with that first set. Five score-1 records are shown with the placeholder stamp and stored stamped now, and the beginner cursor moves from 0 to 5. |
| `UserWordPager.PageSize` | functions/src/getUserWords.js:19 | A falsy limit gives 10. A truthy limit is used as given when it is a positive integer, and is refused by the store otherwise. |
| `UserWordPager.ParseCursor` | functions/src/getUserWords.js:22-34 | A falsy cursor gives no cursor. A truthy one gives invalid-argument if and only if it is not a valid date, and otherwise gives that date. |
| `UserWordPager.PageIds` | functions/src/getUserWords.js:37-47 | At most `limit` distinct records, each the caller's, at the level, with `alreadyKnown == false`, and strictly after the cursor. They are ascending by `lastSeenAt`, and none left out precedes one returned. A short page holds every match. |
| `UserWordPager.PageIdsBeforeLater` | functions/src/getUserWords.js:42-43 | Each page entry comes no later than every match not already ahead of it on the page. |
| `UserWordPager.PageIdsSound` | functions/src/getUserWords.js:37-47 | The ids the query returns are matches in ascending `lastSeenAt`. No match left out was seen before one returned. A short page holds every match. |
| `UserWordPager.PageItems` | functions/src/getUserWords.js:53-72 | Each entry carries its id, the joined word, the progress and the `lastSeenAt` read before stamping. |
| `UserWordPager.NextPageToken` | functions/src/getUserWords.js:87 | The token is the last entry's `lastSeenAt`, or `null` for an empty page. |
| `UserWordPager.Stamp` | functions/src/getUserWords.js:60-84 | A record changes exactly when it is on the page and was never seen, and then only its `lastSeenAt` becomes now. |
| `UserWordPager.PageOf` | functions/src/getUserWords.js:37-89 | A page holds at most `limit` distinct matching entries in ascending `lastSeenAt`. Each entry carries the progress and `lastSeenAt` read before stamping, joined with the catalog word its record references (none when that word is missing). The token is the last entry's `lastSeenAt`. |
| `UserWordPager.PageHoldsIds` | functions/src/getUserWords.js:53-72 | The page has one entry per page id, in order, carrying the id and the `lastSeenAt` read before stamping. An id is on the page exactly when it is a page id. |
| `UserWordPager.PageIsPrefix` | functions/src/getUserWords.js:37-47 | No match left off the page was seen before an entry on it. A short page holds every match. The page is as long as the limit and the matches allow. |
| `UserWordPager.StampedStore` | functions/src/getUserWords.js:75-84 | The stamps write nothing but `lastSeenAt = now` of the never-seen page ids. They add no record and touch no user or word. |
| `UserWordPager.GetUserWords` | functions/src/getUserWords.js:11-93 | Unauthenticated if and only if there is no caller. A missing user gives TypeError, before the cursor check. An invalid cursor gives invalid-argument if and only if it is truthy and not a date. A page never exceeds the page size. Users and words are never written. |
| `UserWordPager.ValidRequestServesPage` | functions/src/getUserWords.js:18-89 | A valid request for an existing user succeeds. The page has at most `size` distinct matching entries in ascending `lastSeenAt`. Each carries the progress and `lastSeenAt` read before stamping, joined with its record's catalog word, and no match left off was seen before one on it. A short page holds every match, and the token is the last entry's value. Exactly the never-seen entries are stamped now. |
| `UserWordPager.GetUserWordsCall` | functions/src/getUserWords.js:11-19 | Unauthenticated if and only if there is no caller. For a caller, the result is an unwrapped TypeError exactly when the user is missing or the call has no payload. A success needs both. With a payload it is the handler on the payload's fields. |
| `UserWordPager.PageFacts` | functions/src/getUserWords.js:37-89 | The page of a level over the stamped store has all of those properties. |
| `UserWordPager.PageStampsNeverSeen` | functions/src/getUserWords.js:60-84 | Exactly the never-seen records on the page get `lastSeenAt = now`, and nothing else is written. A page without never-seen entries leaves the store as it was. |
| `UserWordPager.TiedRecordIsSkipped` | functions/src/getUserWords.js:45-47 | With two matches tied at t and a page size of 1, the token is t. The page it leads to is empty, so one record is never served. |
| `UserWordPager.TiedFirstPage` | functions/src/getUserWords.js:37-89 | With two matches both seen at t and a page size of 1, the first page holds one of them, its token is t, and nothing is written. |
| `UserWordPager.NothingAfterTie` | functions/src/getUserWords.js:45-47 | When every match was seen at t, the page that starts after t is empty. |
| `UserWordPager.NeverSeenIds` | functions/src/getUserWords.js:37-47 | With two never-seen matches and one seen match, the query with limit 2 returns exactly the two never-seen ones. |
| `UserWordPager.NeverSeenFirst` | functions/src/getUserWords.js:42-89 | Two never-seen matches come before a seen one. The page of two holds them, reported as never seen, with a `null` token. |
| `UserWordPager.NeverSeenStamped` | functions/src/getUserWords.js:60-84 | In that case both never-seen records are stamped with now and the seen one is untouched. |
| `Legacy.OldWords` | functions/index.js:27-40 | At most 15 distinct records of the caller, last seen before now − 1 hour, most recent first. None left out was seen more recently than one returned. Fewer than 15 means every stale record is included. |
| `Legacy.OldWordsSound` | functions/index.js:27-40 | The ids the stale-record query returns are stale records of the caller, most recently seen first. No stale record left out was seen after one returned. |
| `Legacy.NewWords` | functions/index.js:42-56 | At most `count` distinct intermediate catalog words in id order. No intermediate word left out has a smaller id than one returned, so they are the first `count` by id. Fewer than asked means every such word is included. |
| `Legacy.OldItems` | functions/index.js:37-40 | Each old entry is its id with the stored record. |
| `Legacy.NewItems` | functions/index.js:52-55 | Each new entry is its id with the catalog word. |
| `Legacy.Take` | functions/index.js:59 | `slice(0, n)` keeps the first min(n, length) elements unchanged. |
| `Legacy.NewWordsNeeded` | functions/index.js:43-44 | New words are asked for exactly when fewer than 15 old ones were found, and then as many as fill the set to 15. |
| `Legacy.LegacyGetLearningWords` | functions/index.js:14-76 | Unauthenticated if and only if there is no caller. Otherwise the call succeeds with at most 15 entries. |
| `Legacy.LegacyBatchIsOldThenNew` | functions/index.js:43-59 | New words are requested only when fewer than 15 old ones were found, and then exactly 15 − old. The result is the old entries, then the new ones. Truncation drops nothing. The set has min(15, stale + intermediate) entries. |
| `Legacy.LegacyBatchUntruncated` | functions/index.js:59 | The slice to 15 returns the whole concatenation. |
| `Legacy.LegacyItemsQualify` | functions/index.js:26-67 | Every entry is either a stale record of the caller as stored or an intermediate catalog word as stored. |
| `Legacy.OwnIds` | functions/index.js:91-94 | The query returns each record of the caller once, and no others, in ascending id order. |
| `Legacy.Listing` | functions/index.js:96-112 | The listing is the stored data of the returned documents, in order, without ids. |
| `Legacy.LegacyGetUserWords` | functions/index.js:79-122 | Unauthenticated if and only if there is no caller. Otherwise every entry belongs to the caller. |
| `Legacy.LegacyListsAllOwnRecords` | functions/index.js:91-114 | Every record of the caller appears, one entry per record. |
| `Legacy.LegacyListsOnlyOwnRecords` | functions/index.js:91-114 | Every entry is a stored record of the caller. |
| `Legacy.LegacyProgress` | functions/index.js:147-148 | A missing score counts as 0. Whatever the increment, the result is the clamp of score + increment into [1, 5]. |
| `Legacy.CreatedRecord` | functions/index.js:165-170 | The created record embeds the catalog word and is owned by the caller. Its score is the increment floored at 1, with no upper bound. |
| `Legacy.LegacyUpdateWordProgressCall` | functions/index.js:124-135 | Unauthenticated if and only if there is no caller. An authenticated call without a payload fails with an unwrapped TypeError, if and only if, and never succeeds. With a payload it is the legacy update on the payload's fields. |
| `Legacy.LegacyUpdateWordProgress` | functions/index.js:124-183 | Unauthenticated comes first. A non-string or empty id is refused inside the `try` (internal). When neither the record nor the catalog word exists, the result is internal(not-found), if and only if. The call succeeds exactly when there is a caller, the id is a non-empty string, and a record or a catalog word has that id. An existing record, of any owner, has only its score rewritten, to the clamp. A missing one is created from the catalog word with the same id. No other record and no word changes. |
| `Legacy.LegacyAgreesWithStep` | functions/index.js:147-148 | On scores in [1, 5] with a step of ±1, the symmetric clamp agrees with the current direction-dependent step. |
| `Legacy.LegacyDiffersAboveMax` | functions/index.js:148 | Above the bounds the two disagree: 7 − 1 gives 5 under the clamp and 6 under the step. |
| `Legacy.LegacyUpdateIgnoresOwner` | functions/index.js:139-150 | Another user's record is updated all the same, and keeps its owner. |
| `Legacy.LegacyCreateCanExceedMax` | functions/index.js:166-172 | A record created with increment 7 is stored with score 7, above the maximum. |
| `Legacy.LegacyMissingProgressIsZero` | functions/index.js:147-148 | A missing score plus or minus one lands on 1. |
| `Lifecycle.ReviewNeverMarksUnknown` | functions/src/updateWordProgress.js:54-57 | A review never writes `alreadyKnown == false`. |
| `Lifecycle.UpdateKeepsNoUnknownMarks` | functions/src/updateWordProgress.js:49-63 | An update keeps a store without `alreadyKnown == false` records that way. |
| `Lifecycle.TopUpKeepsNoUnknownMarks` | functions/src/getLearningWords.js:87-98 | A top-up keeps a store without `alreadyKnown == false` records that way. |
| `Lifecycle.LearningKeepsNoUnknownMarks` | functions/src/getLearningWords.js:87-98 | A selection keeps a store without `alreadyKnown == false` records that way, since created records lack the field. |
| `Lifecycle.StampChangesOnlySeen` | functions/src/getUserWords.js:75-84 | A page request changes no field of any record except `lastSeenAt`, and adds or removes no record. |
| `Lifecycle.StampedChangesOnlySeen` | functions/src/getUserWords.js:75-84 | The stamped store has the same records, and each differs from before at most in `lastSeenAt`. |
| `Lifecycle.PagerKeepsNoUnknownMarks` | functions/src/getUserWords.js:75-84 | A page request keeps a store without `alreadyKnown == false` records that way. |
| `Lifecycle.PagerPreservesWellFormed` | functions/src/getUserWords.js:75-84 | A page request keeps every record's score in [1, 5], with 5 only on learned records. Every user stays filed under its own uid. |
| `Lifecycle.NoUnknownMarksGivesEmptyPages` | functions/src/getUserWords.js:37-47 | From such a store every page is empty with a `null` token, and nothing is written. |

## Left out

- Firestore client setup, credentials, region and CORS options (`functions/src/firebaseAdmin.js`, `functions/src/utils/config.js`), and lint configuration. These are plumbing and tooling.
- The Firestore handle as bound: `firebaseAdmin.js` exports `{ db, admin, environment }` (line 32). `getUserWords.js` and `updateWordProgress.js` (line 2 of each) destructure `{ db }` from it. `getLearningWords.js` (line 3) and `userUtils.js` (line 1) bind the whole export as `db`, so there `db.collection` is not a function and every query fails before it starts. That includes `fetchUser`, and with it `getLearningWords` and `getUserWords`. The model assumes every handler reaches the Firestore handle.
- Transactions, batch atomicity and concurrent requests: each handler is one atomic step. The re-read of the user before the cursor update sees the same user.
- Server timestamps and `Date.now()` are the parameter `now`. Conversion between `Timestamp`, `Date` and ISO strings is not modelled: page entries and tokens carry the time value itself.
- LearningSelector.LearningFailures: assumes that the `users` document of a uid has that uid as its id, and so does `LearningSelector.ShortDueBatchTopsUp`. `fetchUser` finds the user by its `uid` field (`functions/src/utils/userUtils.js` lines 4-7), but the cursor update writes `doc(userID)` (`functions/src/getLearningWords.js` line 106). With any other id that update fails after the batch has committed. The model does not produce that failure.
- Date parsing is the parameter `parseDate`, which only decides valid or invalid.
- Auto-generated document ids are the parameter `newIds`.
- NaN scrubbing in the legacy handlers (`functions/index.js` lines 59-67 and 99-109) is left out as a floating-point concern. Numbers are integers throughout.
- Error message texts, logging, and the callable runtime's mapping of plain `Error`s to responses.
- Document-path validation beyond "a non-empty string": an id containing `/` is treated as a plain id.
- A store query failing for reasons of its own (network, quota) is not modelled. Neither is a dangling word reference beyond the join yielding no word.
- `UserWordPager.PageSize`: a truthy limit that is not a positive integer is modelled as refused by the store (`Internal(StoreRejected)`). Firestore's exact behaviour for such limits is outside the model.
- `Legacy.LegacyUpdateWordProgress`: the increment is an integer. The legacy handler does not validate it, and a non-number would produce NaN or string concatenation, which is not modelled.
- `Legacy.LegacyGetLearningWords`: its own contract states only the bound and the auth case. The composition of the set is stated by `Legacy.LegacyBatchIsOldThenNew` and `Legacy.LegacyItemsQualify`.
- `Legacy.LegacyGetUserWords`: its own contract states only ownership of the entries. Completeness and exactness are stated by `Legacy.LegacyListsAllOwnRecords` and `Legacy.LegacyListsOnlyOwnRecords`.
- `LearningSelector.GetLearningWords`: its own contract states the error cases and the bound. The answer and the writes are stated by `LearningSelector.FullDueBatchIsReadOnly`, `LearningSelector.ShortDueBatchTopsUp` and the `TopUp` lemmas.
- `UserWordPager.GetUserWords`: its own contract states the error cases and the bound. The page and the writes are stated by `UserWordPager.ValidRequestServesPage` with `UserWordPager.PageOf`, `UserWordPager.PageIsPrefix` and `UserWordPager.PageStampsNeverSeen`.
