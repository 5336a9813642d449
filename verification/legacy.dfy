/**
 * The legacy handlers of `functions/index.js`: an earlier variant of all
 * three operations over the `UserWord` and `Word` collections. The learning
 * set mixes up to 15 stale and "intermediate" words, the listing returns every
 * record of the caller, and the update clamps symmetrically into [1, 5] and
 * creates a missing record from the catalog word with the same id.
 */
module Legacy {
  import opened Wrappers
  import opened Values
  import opened Records
  import opened QueryOrder
  import ProgressUpdater

  /** Length of a legacy learning set. */
  const LegacyBatchSize: nat := 15

  /** A tracked word is stale, and shown again, once last seen more than an hour ago. */
  const StaleAfterMs: int := 60 * 60 * 1000

  /** The level every fresh legacy word is drawn from. */
  const NewWordLevel: string := "intermediate"

  /** A `Word` document: its level and its display content. */
  datatype LegacyWord = LegacyWord(difficulty: string, content: string)

  /**
   * A `UserWord` document. `word` is the embedded catalog word of a record
   * the update created; `progress` and `lastSeenAt` are `None` when the field
   * is absent or `null`.
   */
  datatype LegacyUserWord = LegacyUserWord(
    userId: string,
    word: Option<LegacyWord>,
    progress: Option<int>,
    lastSeenAt: Option<Time>)

  /** The two legacy collections. */
  datatype LegacyStore = LegacyStore(userWords: map<Id, LegacyUserWord>, words: map<Id, LegacyWord>)

  /** A successful legacy call: its response and the store after its writes. */
  datatype LegacyReply<R> = LegacyReply(value: R, store: LegacyStore)

  /** An entry of a legacy learning set: a stale tracked word or a fresh catalog word, with its id. */
  datatype LegacyItem = OldWord(id: Id, record: LegacyUserWord) | NewWord(id: Id, word: LegacyWord)

  // ---------------------------------------------------------------- getLearningWords

  /** The filter of the old-word query: the caller's, last seen before `now` minus one hour. */
  predicate IsStale(w: LegacyUserWord, uid: string, now: Time) {
    w.userId == uid && w.lastSeenAt.Some? && w.lastSeenAt.value < now - StaleAfterMs
  }

  function StaleKeys(uws: map<Id, LegacyUserWord>, uid: string, now: Time): map<Id, Option<Time>> {
    map id | id in uws && IsStale(uws[id], uid, now) :: uws[id].lastSeenAt
  }

  /**
   * The old words: at most 15 stale records, most recently seen first, and
   * none left out was seen more recently than one returned.
   */
  function OldWords(uws: map<Id, LegacyUserWord>, uid: string, now: Time): (r: seq<Id>)
    ensures |r| == if LegacyBatchSize < |StaleKeys(uws, uid, now)| then LegacyBatchSize else |StaleKeys(uws, uid, now)|
    ensures forall i :: 0 <= i < |r| ==> r[i] in uws && IsStale(uws[r[i]], uid, now)
    ensures forall i, j :: 0 <= i < j < |r| ==> r[i] != r[j]
    ensures forall i, j :: 0 <= i < j < |r| ==> FieldLe(uws[r[j]].lastSeenAt, uws[r[i]].lastSeenAt)
    ensures forall i, id :: 0 <= i < |r| && id in uws && IsStale(uws[id], uid, now) && id !in r ==>
      FieldLe(uws[id].lastSeenAt, uws[r[i]].lastSeenAt)
    ensures |r| < LegacyBatchSize ==> forall id :: id in uws && IsStale(uws[id], uid, now) ==> id in r
  {
    var m := StaleKeys(uws, uid, now);
    var r := FirstN(m, LegacyBatchSize, true);
    OldWordsSound(uws, uid, now, m, r);
    r
  }

  lemma OldWordsSound(uws: map<Id, LegacyUserWord>, uid: string, now: Time, m: map<Id, Option<Time>>, r: seq<Id>)
    requires m == StaleKeys(uws, uid, now)
    requires forall i :: 0 <= i < |r| ==> r[i] in m
    requires forall i, j :: 0 <= i < j < |r| ==> Precedes(m, r[i], r[j], true)
    requires forall i, y :: 0 <= i < |r| && y in m && y !in r ==> Precedes(m, r[i], y, true)
    requires |r| < LegacyBatchSize ==> forall y :: y in m ==> y in r
    ensures forall i :: 0 <= i < |r| ==> r[i] in uws && IsStale(uws[r[i]], uid, now)
    ensures forall i, j :: 0 <= i < j < |r| ==> FieldLe(uws[r[j]].lastSeenAt, uws[r[i]].lastSeenAt)
    ensures forall i, id :: 0 <= i < |r| && id in uws && IsStale(uws[id], uid, now) && id !in r ==>
      FieldLe(uws[id].lastSeenAt, uws[r[i]].lastSeenAt)
    ensures |r| < LegacyBatchSize ==> forall id :: id in uws && IsStale(uws[id], uid, now) ==> id in r
  {
    forall i | 0 <= i < |r|
      ensures r[i] in uws && IsStale(uws[r[i]], uid, now) && m[r[i]] == uws[r[i]].lastSeenAt
    {
      assert r[i] in m;
    }
    DescendingValues(m, r);
    forall i, id | 0 <= i < |r| && id in uws && IsStale(uws[id], uid, now) && id !in r
      ensures FieldLe(uws[id].lastSeenAt, uws[r[i]].lastSeenAt)
    {
      assert id in m;
      assert Precedes(m, r[i], id, true);
    }
    if |r| < LegacyBatchSize {
      forall id | id in uws && IsStale(uws[id], uid, now)
        ensures id in r
      {
        assert id in m;
      }
    }
  }

  /** The new-word query has no ordering, so it returns catalog words in id order. */
  function IntermediateKeys(words: map<Id, LegacyWord>): map<Id, Option<int>> {
    map id | id in words && words[id].difficulty == NewWordLevel :: None
  }

  /** The new words: the first `count` intermediate catalog words by id. */
  function NewWords(words: map<Id, LegacyWord>, count: nat): (r: seq<Id>)
    ensures |r| == if count < |IntermediateKeys(words)| then count else |IntermediateKeys(words)|
    ensures forall i :: 0 <= i < |r| ==> r[i] in words && words[r[i]].difficulty == NewWordLevel
    ensures forall i, j :: 0 <= i < j < |r| ==> r[i] != r[j] && IdLe(r[i], r[j])
    ensures forall i, id :: 0 <= i < |r| && id in words && words[id].difficulty == NewWordLevel && id !in r ==>
      IdLe(r[i], id)
    ensures |r| < count ==> forall id :: id in words && words[id].difficulty == NewWordLevel ==> id in r
  {
    var m := IntermediateKeys(words);
    var r := FirstN(m, count, false);
    NewWordsSound(words, count, m, r);
    r
  }

  lemma NewWordsSound(words: map<Id, LegacyWord>, count: nat, m: map<Id, Option<int>>, r: seq<Id>)
    requires m == IntermediateKeys(words)
    requires forall i :: 0 <= i < |r| ==> r[i] in m
    requires forall i, j :: 0 <= i < j < |r| ==> Precedes(m, r[i], r[j], false)
    requires forall i, y :: 0 <= i < |r| && y in m && y !in r ==> Precedes(m, r[i], y, false)
    requires |r| < count ==> forall y :: y in m ==> y in r
    ensures forall i :: 0 <= i < |r| ==> r[i] in words && words[r[i]].difficulty == NewWordLevel
    ensures forall i, j :: 0 <= i < j < |r| ==> IdLe(r[i], r[j])
    ensures forall i, id :: 0 <= i < |r| && id in words && words[id].difficulty == NewWordLevel && id !in r ==>
      IdLe(r[i], id)
    ensures |r| < count ==> forall id :: id in words && words[id].difficulty == NewWordLevel ==> id in r
  {
    forall i | 0 <= i < |r|
      ensures r[i] in words && words[r[i]].difficulty == NewWordLevel
    {
      assert r[i] in m;
    }
    forall i, j | 0 <= i < j < |r|
      ensures IdLe(r[i], r[j])
    {
      assert Precedes(m, r[i], r[j], false);
    }
    forall i, id | 0 <= i < |r| && id in words && words[id].difficulty == NewWordLevel && id !in r
      ensures IdLe(r[i], id)
    {
      assert id in m;
      assert Precedes(m, r[i], id, false);
    }
    if |r| < count {
      forall id | id in words && words[id].difficulty == NewWordLevel
        ensures id in r
      {
        assert id in m;
      }
    }
  }

  /** `{id, ...doc.data()}` of every old word. */
  function OldItems(ids: seq<Id>, uws: map<Id, LegacyUserWord>): (items: seq<LegacyItem>)
    requires forall i :: 0 <= i < |ids| ==> ids[i] in uws
    ensures |items| == |ids|
    ensures forall i :: 0 <= i < |ids| ==> items[i] == OldWord(ids[i], uws[ids[i]])
  {
    seq(|ids|, i requires 0 <= i < |ids| => OldWord(ids[i], uws[ids[i]]))
  }

  /** `{id, ...doc.data()}` of every new word. */
  function NewItems(ids: seq<Id>, words: map<Id, LegacyWord>): (items: seq<LegacyItem>)
    requires forall i :: 0 <= i < |ids| ==> ids[i] in words
    ensures |items| == |ids|
    ensures forall i :: 0 <= i < |ids| ==> items[i] == NewWord(ids[i], words[ids[i]])
  {
    seq(|ids|, i requires 0 <= i < |ids| => NewWord(ids[i], words[ids[i]]))
  }

  /** `xs.slice(0, n)`. */
  function Take<T>(xs: seq<T>, n: nat): (r: seq<T>)
    ensures |r| == if n < |xs| then n else |xs|
    ensures forall i :: 0 <= i < |r| ==> r[i] == xs[i]
  {
    if n < |xs| then xs[..n] else xs
  }

  /**
   * How many new words the handler asks for, given the old words it found:
   * the shortfall to 15, and none (the query is skipped) when there is none.
   */
  function NewWordsNeeded(oldCount: nat): (r: nat)
    ensures r > 0 <==> oldCount < LegacyBatchSize
    ensures oldCount <= LegacyBatchSize ==> oldCount + r == LegacyBatchSize
    ensures LegacyBatchSize < oldCount ==> r == 0
  {
    if oldCount < LegacyBatchSize then LegacyBatchSize - oldCount else 0
  }

  /**
   * The legacy learning set. It reads only, so the response is returned
   * alone. `now` is the clock reading of `Date.now()`.
   */
  function LegacyGetLearningWords(caller: Option<string>, now: Time, s: LegacyStore): (r: Result<seq<LegacyItem>, Failure>)
    ensures caller.None? <==> r == Err(Unauthenticated)
    ensures caller.Some? ==> r.Ok?
    ensures r.Ok? ==> |r.value| <= LegacyBatchSize
  {
    if caller.None? then Err(Unauthenticated)
    else
      var oldIds := OldWords(s.userWords, caller.value, now);
      var newIds := NewWords(s.words, NewWordsNeeded(|oldIds|));
      Ok(Take(OldItems(oldIds, s.userWords) + NewItems(newIds, s.words), LegacyBatchSize))
  }

  /**
   * The legacy set is the old words in query order followed by the new
   * words, new words are requested only when fewer than 15 old ones were
   * found and then exactly 15 minus that many, the truncation to 15 never
   * drops anything, and the set holds 15 entries unless the stale and
   * intermediate words together are fewer.
   */
  lemma LegacyBatchIsOldThenNew(uid: string, now: Time, s: LegacyStore)
    ensures var oldIds := OldWords(s.userWords, uid, now);
      var r := LegacyGetLearningWords(Some(uid), now, s);
      var nStale := |StaleKeys(s.userWords, uid, now)|;
      var nFresh := |IntermediateKeys(s.words)|;
      && r.Ok?
      && (|oldIds| < LegacyBatchSize <==> NewWordsNeeded(|oldIds|) > 0)
      && NewWordsNeeded(|oldIds|) == LegacyBatchSize - |oldIds|
      && r.value == OldItems(oldIds, s.userWords) + NewItems(NewWords(s.words, NewWordsNeeded(|oldIds|)), s.words)
      && |r.value| == (if nStale + nFresh < LegacyBatchSize then nStale + nFresh else LegacyBatchSize)
  {
    LegacyBatchUntruncated(uid, now, s);
  }

  /** The slice to 15 leaves the concatenation whole. */
  lemma LegacyBatchUntruncated(uid: string, now: Time, s: LegacyStore)
    ensures var oldIds := OldWords(s.userWords, uid, now);
      LegacyGetLearningWords(Some(uid), now, s)
        == Ok(OldItems(oldIds, s.userWords) + NewItems(NewWords(s.words, NewWordsNeeded(|oldIds|)), s.words))
  {
    var oldIds := OldWords(s.userWords, uid, now);
    var items := OldItems(oldIds, s.userWords) + NewItems(NewWords(s.words, NewWordsNeeded(|oldIds|)), s.words);
    assert Take(items, LegacyBatchSize) == items;
  }

  /** An entry of a legacy set for `uid`: a stale record of the caller or an intermediate catalog word, as stored. */
  predicate Qualifies(item: LegacyItem, uid: string, now: Time, s: LegacyStore) {
    match item
    case OldWord(id, w) => id in s.userWords && s.userWords[id] == w && IsStale(w, uid, now)
    case NewWord(id, w) => id in s.words && s.words[id] == w && w.difficulty == NewWordLevel
  }

  /** Every entry of the legacy set qualifies. */
  lemma LegacyItemsQualify(uid: string, now: Time, s: LegacyStore)
    ensures var r := LegacyGetLearningWords(Some(uid), now, s);
      r.Ok? && forall i :: 0 <= i < |r.value| ==> Qualifies(r.value[i], uid, now, s)
  {
    var oldIds := OldWords(s.userWords, uid, now);
    var newIds := NewWords(s.words, NewWordsNeeded(|oldIds|));
    var items := OldItems(oldIds, s.userWords) + NewItems(newIds, s.words);
    LegacyBatchUntruncated(uid, now, s);
    forall i | 0 <= i < |items|
      ensures Qualifies(items[i], uid, now, s)
    {
      if i < |oldIds| {
        assert items[i] == OldWord(oldIds[i], s.userWords[oldIds[i]]);
      } else {
        assert items[i] == NewWord(newIds[i - |oldIds|], s.words[newIds[i - |oldIds|]]);
      }
    }
  }

  // ---------------------------------------------------------------- getUserWords

  function OwnKeys(uws: map<Id, LegacyUserWord>, uid: string): map<Id, Option<int>> {
    map id | id in uws && uws[id].userId == uid :: None
  }

  /** The ids the listing query returns: every record of the caller, once each, in id order (no limit). */
  function OwnIds(uws: map<Id, LegacyUserWord>, uid: string): (r: seq<Id>)
    ensures |r| == |OwnKeys(uws, uid)|
    ensures forall i :: 0 <= i < |r| ==> r[i] in uws && uws[r[i]].userId == uid
    ensures forall i, j :: 0 <= i < j < |r| ==> r[i] != r[j] && IdLe(r[i], r[j])
    ensures forall id :: id in uws && uws[id].userId == uid ==> id in r
  {
    var m := OwnKeys(uws, uid);
    var r := FirstN(m, |m| + 1, false);
    OwnIdsSound(uws, uid, m, r);
    r
  }

  lemma OwnIdsSound(uws: map<Id, LegacyUserWord>, uid: string, m: map<Id, Option<int>>, r: seq<Id>)
    requires m == OwnKeys(uws, uid)
    requires forall i :: 0 <= i < |r| ==> r[i] in m
    requires forall i, j :: 0 <= i < j < |r| ==> Precedes(m, r[i], r[j], false)
    requires forall y :: y in m ==> y in r
    ensures forall i :: 0 <= i < |r| ==> r[i] in uws && uws[r[i]].userId == uid
    ensures forall i, j :: 0 <= i < j < |r| ==> IdLe(r[i], r[j])
    ensures forall id :: id in uws && uws[id].userId == uid ==> id in r
  {
    forall i, j | 0 <= i < j < |r|
      ensures IdLe(r[i], r[j])
    {
      assert Precedes(m, r[i], r[j], false);
    }
    forall i | 0 <= i < |r|
      ensures r[i] in uws && uws[r[i]].userId == uid
    {
      assert r[i] in m;
    }
    forall id | id in uws && uws[id].userId == uid
      ensures id in r
    {
      assert id in m;
    }
  }

  /** The data of the listed documents, in order. */
  function Listing(ids: seq<Id>, uws: map<Id, LegacyUserWord>): (r: seq<LegacyUserWord>)
    requires forall i :: 0 <= i < |ids| ==> ids[i] in uws
    ensures |r| == |ids|
    ensures forall i :: 0 <= i < |ids| ==> r[i] == uws[ids[i]]
  {
    seq(|ids|, i requires 0 <= i < |ids| => uws[ids[i]])
  }

  /** The legacy listing: the data of every record of the caller, without ids, in id order. */
  function LegacyGetUserWords(caller: Option<string>, s: LegacyStore): (r: Result<seq<LegacyUserWord>, Failure>)
    ensures caller.None? <==> r == Err(Unauthenticated)
    ensures caller.Some? ==> r.Ok?
    ensures r.Ok? ==> forall i :: 0 <= i < |r.value| ==> r.value[i].userId == caller.value
  {
    if caller.None? then Err(Unauthenticated)
    else
      Ok(Listing(OwnIds(s.userWords, caller.value), s.userWords))
  }

  /** Every record of the caller is listed, one entry per record. */
  lemma LegacyListsAllOwnRecords(uid: string, s: LegacyStore)
    ensures var r := LegacyGetUserWords(Some(uid), s);
      && r.Ok?
      && |r.value| == |OwnKeys(s.userWords, uid)|
      && (forall id :: id in s.userWords && s.userWords[id].userId == uid ==>
            exists i :: 0 <= i < |r.value| && r.value[i] == s.userWords[id])
  {
    var ids := OwnIds(s.userWords, uid);
    var r := LegacyGetUserWords(Some(uid), s);
    assert r == Ok(Listing(ids, s.userWords));
    forall id | id in s.userWords && s.userWords[id].userId == uid
      ensures exists i :: 0 <= i < |r.value| && r.value[i] == s.userWords[id]
    {
      var i :| 0 <= i < |ids| && ids[i] == id;
      assert r.value[i] == s.userWords[id];
    }
  }

  /** Only stored records of the caller are listed. */
  lemma LegacyListsOnlyOwnRecords(uid: string, s: LegacyStore)
    ensures var r := LegacyGetUserWords(Some(uid), s);
      && r.Ok?
      && (forall i :: 0 <= i < |r.value| ==>
            exists id :: id in s.userWords && s.userWords[id].userId == uid && s.userWords[id] == r.value[i])
  {
    var ids := OwnIds(s.userWords, uid);
    var r := LegacyGetUserWords(Some(uid), s);
    assert r == Ok(Listing(ids, s.userWords));
    forall i | 0 <= i < |r.value|
      ensures exists id :: id in s.userWords && s.userWords[id].userId == uid && s.userWords[id] == r.value[i]
    {
      assert s.userWords[ids[i]] == r.value[i];
    }
  }

  // ---------------------------------------------------------------- updateWordProgress

  /**
   * `Math.max(1, Math.min((progress || 0) + increment, 5))`: the same bound
   * at both ends whatever the direction.
   */
  function LegacyProgress(progress: Option<int>, increment: int): (r: int)
    ensures MinProgress <= r <= MaxProgress
    ensures r == ProgressUpdater.Clamp(progress.GetOr(0) + increment, MinProgress, MaxProgress)
  {
    var p := progress.GetOr(0);
    var capped := if p + increment < MaxProgress then p + increment else MaxProgress;
    if MinProgress < capped then capped else MinProgress
  }

  /** The response: `success` is always true; `created` tells which message is sent. */
  datatype LegacyUpdateReply = LegacyUpdateReply(success: bool, created: bool)

  /** The record the create branch writes: the catalog word embedded, `Math.max(1, increment)` as progress. */
  function CreatedRecord(uid: string, w: LegacyWord, increment: int): (u: LegacyUserWord)
    ensures u.userId == uid && u.word == Some(w) && u.lastSeenAt.None?
    ensures u.progress.Some? && MinProgress <= u.progress.value
    ensures u.progress.value == if increment < MinProgress then MinProgress else increment
  {
    LegacyUserWord(uid, Some(w), Some(if MinProgress < increment then increment else MinProgress), None)
  }

  /**
   * The legacy update. `doc(userWordId)` refuses anything but a non-empty
   * string inside the `try`, and the not-found of a missing catalog word is
   * raised there too, so both come back wrapped as `Internal`. There is no
   * ownership check.
   */
  function LegacyUpdateWordProgress(caller: Option<string>, userWordId: Value, increment: int, s: LegacyStore)
    : (r: Result<LegacyReply<LegacyUpdateReply>, Failure>)
    ensures caller.None? <==> r == Err(Unauthenticated)
    ensures r.Ok? <==>
      caller.Some? && userWordId.Str? && userWordId.s != "" && (userWordId.s in s.userWords || userWordId.s in s.words)
    ensures caller.Some? ==> (r == Err(Internal(StoreRejected)) <==> !userWordId.Str? || userWordId.s == "")
    ensures caller.Some? && userWordId.Str? && userWordId.s != "" ==>
      (r == Err(Internal(NotFound)) <==> userWordId.s !in s.userWords && userWordId.s !in s.words)
    ensures r.Ok? ==>
      && userWordId.Str?
      && r.value.value.success
      && r.value.store.words == s.words
      && r.value.store.userWords.Keys == s.userWords.Keys + {userWordId.s}
      && (forall id :: id in s.userWords && id != userWordId.s ==> r.value.store.userWords[id] == s.userWords[id])
    ensures r.Ok? && userWordId.s in s.userWords ==>
      && !r.value.value.created
      && r.value.store.userWords[userWordId.s]
         == s.userWords[userWordId.s].(progress := Some(LegacyProgress(s.userWords[userWordId.s].progress, increment)))
    ensures r.Ok? && userWordId.s !in s.userWords ==>
      && r.value.value.created
      && userWordId.s in s.words
      && r.value.store.userWords[userWordId.s] == CreatedRecord(caller.value, s.words[userWordId.s], increment)
  {
    if caller.None? then Err(Unauthenticated)
    else if !userWordId.Str? || userWordId.s == "" then Err(Internal(StoreRejected))
    else
      var id := userWordId.s;
      if id in s.userWords then
        var w := s.userWords[id];
        var w' := w.(progress := Some(LegacyProgress(w.progress, increment)));
        Ok(LegacyReply(LegacyUpdateReply(true, false), s.(userWords := s.userWords[id := w'])))
      else if id !in s.words then Err(Internal(NotFound))
      else
        var w' := CreatedRecord(caller.value, s.words[id], increment);
        Ok(LegacyReply(LegacyUpdateReply(true, true), s.(userWords := s.userWords[id := w'])))
  }

  /** The fields of a legacy request; a call without an argument passes `data` as null. */
  datatype LegacyUpdatePayload = LegacyUpdatePayload(userWordId: Value, increment: int)

  /**
   * The legacy callable as deployed: after the authentication check and a
   * log line the payload is destructured before the `try`, so a call without
   * one fails with an unwrapped `TypeError`.
   */
  function LegacyUpdateWordProgressCall(caller: Option<string>, data: Option<LegacyUpdatePayload>, s: LegacyStore)
    : (r: Result<LegacyReply<LegacyUpdateReply>, Failure>)
    ensures caller.None? <==> r == Err(Unauthenticated)
    ensures caller.Some? ==> (data.None? <==> r == Err(TypeError))
    ensures r.Ok? ==> data.Some?
    ensures data.Some? ==> r == LegacyUpdateWordProgress(caller, data.value.userWordId, data.value.increment, s)
  {
    if caller.None? then Err(Unauthenticated)
    else if data.None? then Err(TypeError)
    else LegacyUpdateWordProgress(caller, data.value.userWordId, data.value.increment, s)
  }

  /**
   * On a score within bounds and a step of one, the symmetric clamp agrees
   * with the direction-dependent step of the current handler.
   */
  lemma LegacyAgreesWithStep(p: int, increment: int)
    requires MinProgress <= p <= MaxProgress && (increment == 1 || increment == -1)
    ensures LegacyProgress(Some(p), increment) == ProgressUpdater.StepProgress(p, increment)
  {
  }

  /**
   * Outside the bounds the two disagree: a decrement of a score of 7 lands
   * on 5 under the symmetric clamp, on 6 under the current step.
   */
  lemma LegacyDiffersAboveMax()
    ensures LegacyProgress(Some(7), -1) == 5
    ensures ProgressUpdater.StepProgress(7, -1) == 6
  {
  }

  /** A record of another user is updated all the same: nothing ties the record to the caller. */
  lemma LegacyUpdateIgnoresOwner(caller: string, id: Id, increment: int, s: LegacyStore)
    requires id != "" && id in s.userWords && s.userWords[id].userId != caller
    ensures var r := LegacyUpdateWordProgress(Some(caller), Str(id), increment, s);
      && r.Ok?
      && r.value.store.userWords[id].userId == s.userWords[id].userId
      && r.value.store.userWords[id].progress.Some?
  {
  }

  /** A created record takes the increment itself as its score, which can lie above 5. */
  lemma LegacyCreateCanExceedMax(caller: string, id: Id, s: LegacyStore)
    requires id != "" && id !in s.userWords && id in s.words
    ensures var r := LegacyUpdateWordProgress(Some(caller), Str(id), 7, s);
      && r.Ok?
      && r.value.store.userWords[id].progress == Some(7)
      && r.value.store.userWords[id].progress.value > MaxProgress
  {
  }

  /** A missing score counts as 0: a first decrement lands on 1, a first increment too. */
  lemma LegacyMissingProgressIsZero(increment: int)
    requires increment == 1 || increment == -1
    ensures LegacyProgress(None, increment) == MinProgress
  {
  }
}
