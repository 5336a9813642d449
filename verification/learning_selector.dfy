/**
 * `getLearningWords`: the next learning set of a user. Up to five tracked
 * words due for review come first; when they do not fill the set, fresh
 * catalog words read from the user's per-level cursor top it up, each gets a
 * new tracking record, and the cursor moves on.
 */
module LearningSelector {
  import opened Wrappers
  import opened Records
  import opened QueryOrder

  /** The levels, in the order of the entries of `nextWords`. */
  function LevelName(i: nat): string
    requires i < 4
  {
    if i == 0 then "beginner"
    else if i == 1 then "intermediate"
    else if i == 2 then "advanced"
    else "expert"
  }

  /** `skillToIdx[level]`: which entry of `nextWords` is the cursor of `level`; `None` is `undefined`. */
  function SkillToIdx(level: string): (r: Option<nat>)
    ensures r.Some? ==> r.value < 4 && LevelName(r.value) == level
    ensures r.None? ==> forall i :: 0 <= i < 4 ==> LevelName(i) != level
  {
    match level
    case "beginner" => Some(0)
    case "intermediate" => Some(1)
    case "advanced" => Some(2)
    case "expert" => Some(3)
    case _ => None
  }

  /** The filter of the due-word query: the caller's, at the user's level, not learned, last seen over 15 minutes ago. */
  predicate IsDue(w: UserWord, uid: string, level: string, now: Time) {
    && w.userId == uid
    && w.difficulty == level
    && !w.learned
    && w.lastSeenAt.Some?
    && w.lastSeenAt.value < now - DueAfterMs
  }

  /** The due records, keyed by `lastSeenAt`, the field the range filter implicitly orders by. */
  function DueKeys(uws: map<Id, UserWord>, uid: string, level: string, now: Time): map<Id, Option<Time>> {
    map id | id in uws && IsDue(uws[id], uid, level, now) :: uws[id].lastSeenAt
  }

  /**
   * The due-word query with `.limit(5)`: at most five due records, oldest
   * first, and fewer than five only when no other record is due.
   */
  function DueWords(uws: map<Id, UserWord>, uid: string, level: string, now: Time): (r: seq<Id>)
    ensures |r| == if BatchSize < |DueKeys(uws, uid, level, now)| then BatchSize else |DueKeys(uws, uid, level, now)|
    ensures forall i :: 0 <= i < |r| ==> r[i] in uws && IsDue(uws[r[i]], uid, level, now)
    ensures forall i, j :: 0 <= i < j < |r| ==> r[i] != r[j]
    ensures forall i, j :: 0 <= i < j < |r| ==> FieldLe(uws[r[i]].lastSeenAt, uws[r[j]].lastSeenAt)
    ensures forall i, id :: 0 <= i < |r| && id in uws && IsDue(uws[id], uid, level, now) && id !in r ==>
      FieldLe(uws[r[i]].lastSeenAt, uws[id].lastSeenAt)
    ensures |r| < BatchSize ==> forall id :: id in uws && IsDue(uws[id], uid, level, now) ==> id in r
  {
    var m := DueKeys(uws, uid, level, now);
    var r := FirstN(m, BatchSize, false);
    DueWordsSound(uws, uid, level, now, m, r);
    r
  }

  lemma DueWordsSound(uws: map<Id, UserWord>, uid: string, level: string, now: Time, m: map<Id, Option<Time>>, r: seq<Id>)
    requires m == DueKeys(uws, uid, level, now)
    requires forall i :: 0 <= i < |r| ==> r[i] in m
    requires forall i, j :: 0 <= i < j < |r| ==> Precedes(m, r[i], r[j], false)
    requires forall i, y :: 0 <= i < |r| && y in m && y !in r ==> Precedes(m, r[i], y, false)
    requires |r| < BatchSize ==> forall y :: y in m ==> y in r
    ensures forall i :: 0 <= i < |r| ==> r[i] in uws && IsDue(uws[r[i]], uid, level, now)
    ensures forall i, j :: 0 <= i < j < |r| ==> FieldLe(uws[r[i]].lastSeenAt, uws[r[j]].lastSeenAt)
    ensures forall i, id :: 0 <= i < |r| && id in uws && IsDue(uws[id], uid, level, now) && id !in r ==>
      FieldLe(uws[r[i]].lastSeenAt, uws[id].lastSeenAt)
    ensures |r| < BatchSize ==> forall id :: id in uws && IsDue(uws[id], uid, level, now) ==> id in r
  {
    forall i | 0 <= i < |r|
      ensures r[i] in uws && IsDue(uws[r[i]], uid, level, now) && m[r[i]] == uws[r[i]].lastSeenAt
    {
      assert r[i] in m;
    }
    AscendingValues(m, r);
    forall i, id | 0 <= i < |r| && id in uws && IsDue(uws[id], uid, level, now) && id !in r
      ensures FieldLe(uws[r[i]].lastSeenAt, uws[id].lastSeenAt)
    {
      assert id in m;
      assert Precedes(m, r[i], id, false);
    }
    if |r| < BatchSize {
      forall id | id in uws && IsDue(uws[id], uid, level, now)
        ensures id in r
      {
        assert id in m;
      }
    }
  }

  /** The filter of the fresh-word query: at `level`, with `index` in [from, from + count). */
  predicate InRange(w: Word, level: string, from: int, count: nat) {
    w.difficulty == level && from <= w.index < from + count
  }

  /** The catalog words the fresh-word query matches, keyed by `index`. */
  function InRangeKeys(words: map<Id, Word>, level: string, from: int, count: nat): map<Id, Option<int>> {
    map id | id in words && InRange(words[id], level, from, count) :: Some(words[id].index)
  }

  /**
   * The fresh-word query with `.limit(count)`: at most `count` catalog words
   * at the level with index in [from, from + count), by ascending index, and
   * fewer than `count` only when that is all of them.
   */
  function FreshWords(words: map<Id, Word>, level: string, from: int, count: nat): (r: seq<Id>)
    ensures |r| == if count < |InRangeKeys(words, level, from, count)| then count else |InRangeKeys(words, level, from, count)|
    ensures forall i :: 0 <= i < |r| ==> r[i] in words && InRange(words[r[i]], level, from, count)
    ensures forall i, j :: 0 <= i < j < |r| ==> r[i] != r[j]
    ensures forall i, j :: 0 <= i < j < |r| ==> words[r[i]].index <= words[r[j]].index
    ensures forall i, id :: 0 <= i < |r| && id in words && InRange(words[id], level, from, count) && id !in r ==>
      words[r[i]].index <= words[id].index
    ensures |r| < count ==> forall id :: id in words && InRange(words[id], level, from, count) ==> id in r
  {
    var m := InRangeKeys(words, level, from, count);
    var r := FirstN(m, count, false);
    FreshWordsSound(words, level, from, count, m, r);
    r
  }

  lemma FreshWordsSound(words: map<Id, Word>, level: string, from: int, count: nat, m: map<Id, Option<int>>, r: seq<Id>)
    requires m == InRangeKeys(words, level, from, count)
    requires forall i :: 0 <= i < |r| ==> r[i] in m
    requires forall i, j :: 0 <= i < j < |r| ==> Precedes(m, r[i], r[j], false)
    requires forall i, y :: 0 <= i < |r| && y in m && y !in r ==> Precedes(m, r[i], y, false)
    ensures forall i :: 0 <= i < |r| ==> r[i] in words && InRange(words[r[i]], level, from, count)
    ensures forall i, j :: 0 <= i < j < |r| ==> words[r[i]].index <= words[r[j]].index
    ensures forall i, id :: 0 <= i < |r| && id in words && InRange(words[id], level, from, count) && id !in r ==>
      words[r[i]].index <= words[id].index
  {
    forall i | 0 <= i < |r|
      ensures r[i] in words && InRange(words[r[i]], level, from, count) && m[r[i]] == Some(words[r[i]].index)
    {
      assert r[i] in m;
    }
    AscendingValues(m, r);
    forall i, id | 0 <= i < |r| && id in words && InRange(words[id], level, from, count) && id !in r
      ensures words[r[i]].index <= words[id].index
    {
      assert id in m;
      assert Precedes(m, r[i], id, false);
    }
  }

  /** The record created for a fresh word: score 1, not learned, owned by the caller, stamped now, with no `alreadyKnown` field. */
  function NewUserWord(uid: string, wordId: Id, level: string, now: Time): (w: UserWord)
    ensures WellFormedRecord(w) && !w.learned
    ensures w.userId == uid && w.word == wordId && w.difficulty == level && w.lastSeenAt == Some(now)
    ensures w.alreadyKnown.None?
  {
    UserWord(userId := uid, word := wordId, difficulty := level, progress := 1,
             lastSeenAt := Some(now), learned := false, alreadyKnown := None)
  }

  /** No id occurs twice in `ids`. */
  predicate Unique(ids: seq<Id>)
    decreases |ids|
  {
    |ids| == 0 || (ids[0] !in ids[1..] && Unique(ids[1..]))
  }

  /** Any two positions of a duplicate-free sequence hold different ids. */
  lemma {:induction false} UniqueApart(ids: seq<Id>, i: nat, j: nat)
    requires Unique(ids) && i < j < |ids|
    ensures ids[i] != ids[j]
    decreases i
  {
    if i == 0 {
      assert ids[j] == ids[1..][j - 1];
    } else {
      UniqueApart(ids[1..], i - 1, j - 1);
    }
  }

  lemma UniqueBefore(ids: seq<Id>, n: nat)
    requires Unique(ids) && n < |ids|
    ensures forall i :: 0 <= i < n ==> ids[i] != ids[n]
  {
    forall i | 0 <= i < n
      ensures ids[i] != ids[n]
    {
      UniqueApart(ids, i, n);
    }
  }

  /** The ids the store hands out for new `userWords` documents: distinct and unused. */
  predicate FreshIds(ids: seq<Id>, uws: map<Id, UserWord>) {
    && |ids| >= BatchSize
    && Unique(ids)
    && (forall i :: 0 <= i < |ids| ==> ids[i] !in uws)
  }

  /**
   * `c` holds exactly the records of a batch: the new record of `picked[i]`
   * under `newIds[i]`, and nothing under any other id.
   */
  predicate CreatedFor(c: map<Id, UserWord>, newIds: seq<Id>, picked: seq<Id>, uid: string, level: string, now: Time)
    requires |picked| <= |newIds|
  {
    && (forall i :: 0 <= i < |picked| ==> newIds[i] in c && c[newIds[i]] == NewUserWord(uid, picked[i], level, now))
    && (forall id :: id in c ==> exists i :: 0 <= i < |picked| && newIds[i] == id)
  }

  /** The records the batch writes: one per fresh word, under the matching new id. */
  function Created(newIds: seq<Id>, picked: seq<Id>, uid: string, level: string, now: Time): (c: map<Id, UserWord>)
    requires |picked| <= |newIds| && Unique(newIds)
    ensures CreatedFor(c, newIds, picked, uid, level, now)
    decreases |picked|, 1
  {
    if |picked| == 0 then map[] else CreatedWithLast(newIds, picked, uid, level, now)
  }

  /** A non-empty batch: the records of all but the last word, plus the last one. */
  function CreatedWithLast(newIds: seq<Id>, picked: seq<Id>, uid: string, level: string, now: Time): (c: map<Id, UserWord>)
    requires 0 < |picked| <= |newIds| && Unique(newIds)
    ensures CreatedFor(c, newIds, picked, uid, level, now)
    decreases |picked|, 0
  {
    var n := |picked| - 1;
    UniqueBefore(newIds, n);
    Created(newIds, picked[..n], uid, level, now)[newIds[n] := NewUserWord(uid, picked[n], level, now)]
  }

  /** The cursor array after `nextWords[k] += by`. */
  function Advance(nextWords: seq<int>, k: nat, step: int): (r: seq<int>)
    requires k < |nextWords|
    ensures |r| == |nextWords| && r[k] == nextWords[k] + step
    ensures forall j :: 0 <= j < |r| && j != k ==> r[j] == nextWords[j]
  {
    nextWords[k := nextWords[k] + step]
  }

  /**
   * The `lastSeenAt` an entry of the answer shows: the stored time of a due
   * record, or, for a record the call created, the server-timestamp
   * placeholder it was written with (only the stored copy is resolved to the
   * commit time).
   */
  datatype ShownStamp = Stored(at: Option<Time>) | Placeholder

  /**
   * One entry of the returned set: the record's id, the record as stored,
   * its catalog word, and the `lastSeenAt` the entry shows in place of the
   * stored one.
   */
  datatype LearningItem = LearningItem(id: Id, record: UserWord, word: Option<Word>, shown: ShownStamp)

  /** The due records, joined with their words (a missing word joins as `undefined`). */
  function DueItems(ids: seq<Id>, s: Store): (items: seq<LearningItem>)
    requires forall i :: 0 <= i < |ids| ==> ids[i] in s.userWords
    ensures |items| == |ids|
    ensures forall i :: 0 <= i < |ids| ==>
      && items[i].id == ids[i] && items[i].record == s.userWords[ids[i]]
      && items[i].word == LookupWord(s.words, s.userWords[ids[i]].word)
      && items[i].shown == Stored(s.userWords[ids[i]].lastSeenAt)
  {
    seq(|ids|, i requires 0 <= i < |ids| =>
      var w := s.userWords[ids[i]];
      LearningItem(ids[i], w, LookupWord(s.words, w.word), Stored(w.lastSeenAt)))
  }

  /** The created records, joined with their words; each shows the placeholder stamp it was written with. */
  function NewItems(newIds: seq<Id>, picked: seq<Id>, uid: string, level: string, now: Time, words: map<Id, Word>)
    : (items: seq<LearningItem>)
    requires |picked| <= |newIds|
    requires forall i :: 0 <= i < |picked| ==> picked[i] in words
    ensures |items| == |picked|
    ensures forall i :: 0 <= i < |picked| ==>
      && items[i].id == newIds[i] && items[i].record == NewUserWord(uid, picked[i], level, now)
      && items[i].word == Some(words[picked[i]]) && items[i].shown == Placeholder
  {
    seq(|picked|, i requires 0 <= i < |picked| =>
      LearningItem(newIds[i], NewUserWord(uid, picked[i], level, now), Some(words[picked[i]]), Placeholder))
  }

  /**
   * The fresh words of a top-up: at most the shortfall 5 - due distinct
   * catalog words, each at the user's level with index in [c, c + 5 - due)
   * for the level's cursor c, by ascending index, none left out before one
   * picked, and every such word when fewer than the shortfall are picked.
   */
  predicate Pickable(picked: seq<Id>, uid: string, k: nat, due: seq<Id>, s: Store)
    requires uid in s.users && k < |s.users[uid].nextWords| && |due| < BatchSize
  {
    var level := s.users[uid].skillLevel;
    var c := s.users[uid].nextWords[k];
    var count := BatchSize - |due|;
    && |picked| <= count
    && (forall i :: 0 <= i < |picked| ==> picked[i] in s.words && InRange(s.words[picked[i]], level, c, count))
    && (forall i, j :: 0 <= i < j < |picked| ==> picked[i] != picked[j])
    && (forall i, j :: 0 <= i < j < |picked| ==> s.words[picked[i]].index <= s.words[picked[j]].index)
    && (forall i, id :: 0 <= i < |picked| && id in s.words && InRange(s.words[id], level, c, count) && id !in picked ==>
          s.words[picked[i]].index <= s.words[id].index)
    && (|picked| < count ==> forall id :: id in s.words && InRange(s.words[id], level, c, count) ==> id in picked)
  }

  /** The fresh-word query of a top-up. */
  function PickedWords(uid: string, k: nat, due: seq<Id>, s: Store): (picked: seq<Id>)
    requires uid in s.users && k < |s.users[uid].nextWords| && |due| < BatchSize
    ensures Pickable(picked, uid, k, due, s)
  {
    FreshWords(s.words, s.users[uid].skillLevel, s.users[uid].nextWords[k], BatchSize - |due|)
  }

  /**
   * The part of the handler after a short due query: the due records, then
   * one new record per picked word, each at the user's level with index in
   * [c, c + remaining) for the level's cursor c and the shortfall
   * remaining = 5 - due.
   */
  function TopUpAnswer(uid: string, k: nat, due: seq<Id>, picked: seq<Id>, now: Time, newIds: seq<Id>, s: Store)
    : (items: seq<LearningItem>)
    requires uid in s.users && k < |s.users[uid].nextWords|
    requires |due| < BatchSize && forall i :: 0 <= i < |due| ==> due[i] in s.userWords
    requires Pickable(picked, uid, k, due, s)
    requires FreshIds(newIds, s.userWords)
    ensures |items| == |due| + |picked| <= BatchSize
    ensures forall i :: 0 <= i < |due| ==>
      && items[i].id == due[i] && items[i].record == s.userWords[due[i]]
      && items[i].word == LookupWord(s.words, s.userWords[due[i]].word)
      && items[i].shown == Stored(s.userWords[due[i]].lastSeenAt)
    ensures forall i :: |due| <= i < |items| ==>
      && items[i].id == newIds[i - |due|]
      && items[i].record.word == picked[i - |due|]
      && items[i].record == NewUserWord(uid, items[i].record.word, s.users[uid].skillLevel, now)
      && items[i].record.word in s.words
      && items[i].word == Some(s.words[items[i].record.word])
      && items[i].shown == Placeholder
  {
    var user := s.users[uid];
    var items := DueItems(due, s) + NewItems(newIds, picked, uid, user.skillLevel, now, s.words);
    TopUpItems(uid, user.skillLevel, due, picked, now, newIds, s, items);
    items
  }

  /**
   * The store after a top-up: the batch `created` of new records is added
   * over the existing ones, then `nextWords[k]` of the user moves by the
   * shortfall 5 - due; no catalog word and no other user changes.
   */
  function TopUpStore(uid: string, k: nat, due: seq<Id>, created: map<Id, UserWord>, s: Store): (s': Store)
    requires uid in s.users && k < |s.users[uid].nextWords| && |due| < BatchSize
    ensures s'.words == s.words
    ensures s'.userWords.Keys == s.userWords.Keys + created.Keys
    ensures forall id :: id in created ==> s'.userWords[id] == created[id]
    ensures forall id :: id in s.userWords && id !in created ==> s'.userWords[id] == s.userWords[id]
    ensures s'.users.Keys == s.users.Keys
    ensures forall u :: u in s.users && u != uid ==> s'.users[u] == s.users[u]
    ensures s'.users[uid].uid == s.users[uid].uid && s'.users[uid].skillLevel == s.users[uid].skillLevel
    ensures s'.users[uid].nextWords == Advance(s.users[uid].nextWords, k, BatchSize - |due|)
  {
    var user := s.users[uid];
    var remaining: nat := BatchSize - |due|;
    var nextWords := if remaining > 0 then Advance(user.nextWords, k, remaining) else user.nextWords;
    s.(userWords := s.userWords + created, users := s.users[uid := user.(nextWords := nextWords)])
  }

  /** A top-up writes exactly the new records of its answer and changes no existing record or word. */
  lemma TopUpCreatesRecords(uid: string, k: nat, due: seq<Id>, picked: seq<Id>, created: map<Id, UserWord>, now: Time,
                            newIds: seq<Id>, s: Store)
    requires uid in s.users && k < |s.users[uid].nextWords|
    requires |due| < BatchSize && forall i :: 0 <= i < |due| ==> due[i] in s.userWords
    requires Pickable(picked, uid, k, due, s)
    requires FreshIds(newIds, s.userWords)
    requires CreatedFor(created, newIds, picked, uid, s.users[uid].skillLevel, now)
    ensures var s' := TopUpStore(uid, k, due, created, s);
      && s'.words == s.words
      && WritesExactly(s.userWords, s'.userWords, TopUpAnswer(uid, k, due, picked, now, newIds, s), |due|)
  {
    var level := s.users[uid].skillLevel;
    var news := NewItems(newIds, picked, uid, level, now, s.words);
    var items := TopUpAnswer(uid, k, due, picked, now, newIds, s);
    var s' := TopUpStore(uid, k, due, created, s);
    TopUpWrites(DueItems(due, s), items, news, newIds, picked, s.userWords, created, s'.userWords, uid, level, now, s.words);
  }

  /** Every record after a top-up is either an untouched old one or a new one at the user's level. */
  lemma TopUpKeepsOrAddsNew(uid: string, k: nat, due: seq<Id>, picked: seq<Id>, created: map<Id, UserWord>, now: Time,
                            newIds: seq<Id>, s: Store)
    requires uid in s.users && k < |s.users[uid].nextWords| && |due| < BatchSize
    requires |picked| <= |newIds| && CreatedFor(created, newIds, picked, uid, s.users[uid].skillLevel, now)
    ensures var s' := TopUpStore(uid, k, due, created, s);
      forall id :: id in s'.userWords ==>
        || (id in s.userWords && s'.userWords[id] == s.userWords[id])
        || s'.userWords[id] == NewUserWord(uid, s'.userWords[id].word, s.users[uid].skillLevel, now)
  {
    var s' := TopUpStore(uid, k, due, created, s);
    forall id | id in s'.userWords && id in created
      ensures s'.userWords[id] == NewUserWord(uid, s'.userWords[id].word, s.users[uid].skillLevel, now)
    {
      var i :| 0 <= i < |picked| && newIds[i] == id;
    }
  }

  lemma TopUpKeepsWellFormed(uid: string, k: nat, due: seq<Id>, picked: seq<Id>, created: map<Id, UserWord>, now: Time,
                             newIds: seq<Id>, s: Store)
    requires uid in s.users && k < |s.users[uid].nextWords| && |due| < BatchSize && WellFormed(s)
    requires |picked| <= |newIds| && CreatedFor(created, newIds, picked, uid, s.users[uid].skillLevel, now)
    ensures WellFormed(TopUpStore(uid, k, due, created, s))
  {
    TopUpKeepsOrAddsNew(uid, k, due, picked, created, now, newIds, s);
    var s' := TopUpStore(uid, k, due, created, s);
    forall id | id in s'.userWords
      ensures WellFormedRecord(s'.userWords[id])
    {
    }
  }

  lemma ConcatTail(a: seq<LearningItem>, b: seq<LearningItem>, c: seq<LearningItem>)
    requires c == a + b
    ensures |c| == |a| + |b| && forall i :: |a| <= i < |c| ==> c[i] == b[i - |a|]
  {
  }

  /**
   * After a top-up the cursor of the user's level has moved by the whole
   * shortfall 5 - due, however few fresh words were found; every other
   * entry, and every other user, stays as it was.
   */
  lemma TopUpAdvancesCursor(uid: string, k: nat, due: seq<Id>, created: map<Id, UserWord>, s: Store)
    requires uid in s.users && k < |s.users[uid].nextWords| && |due| < BatchSize
    ensures var s' := TopUpStore(uid, k, due, created, s);
      && s'.users.Keys == s.users.Keys
      && (forall u :: u in s.users && u != uid ==> s'.users[u] == s.users[u])
      && s'.users[uid].skillLevel == s.users[uid].skillLevel
      && |s'.users[uid].nextWords| == |s.users[uid].nextWords|
      && s'.users[uid].nextWords[k] == s.users[uid].nextWords[k] + (BatchSize - |due|)
      && (forall j :: 0 <= j < |s.users[uid].nextWords| && j != k ==>
            s'.users[uid].nextWords[j] == s.users[uid].nextWords[j])
  {
  }

  lemma TopUpItems(uid: string, level: string, due: seq<Id>, picked: seq<Id>, now: Time, newIds: seq<Id>, s: Store,
                   items: seq<LearningItem>)
    requires |due| < BatchSize && forall i :: 0 <= i < |due| ==> due[i] in s.userWords
    requires FreshIds(newIds, s.userWords)
    requires |picked| <= BatchSize - |due|
    requires forall i :: 0 <= i < |picked| ==> picked[i] in s.words
    requires items == DueItems(due, s) + NewItems(newIds, picked, uid, level, now, s.words)
    ensures |due| <= |items| <= BatchSize
    ensures forall i :: 0 <= i < |due| ==>
      && items[i].id == due[i] && items[i].record == s.userWords[due[i]]
      && items[i].word == LookupWord(s.words, s.userWords[due[i]].word)
      && items[i].shown == Stored(s.userWords[due[i]].lastSeenAt)
    ensures forall i :: |due| <= i < |items| ==>
      && items[i].id == newIds[i - |due|]
      && items[i].record.word == picked[i - |due|]
      && items[i].record == NewUserWord(uid, items[i].record.word, level, now)
      && items[i].record.word in s.words
      && items[i].word == Some(s.words[items[i].record.word])
      && items[i].shown == Placeholder
  {
    var news := NewItems(newIds, picked, uid, level, now, s.words);
    forall i | |due| <= i < |items|
      ensures items[i] == news[i - |due|]
    {
    }
  }

  /**
   * Going from `uws` to `written` keeps every existing record, adds the
   * records of `items` from position `from` on under ids that were unused,
   * and adds nothing else.
   */
  predicate WritesExactly(uws: map<Id, UserWord>, written: map<Id, UserWord>, items: seq<LearningItem>, from: nat) {
    && (forall id :: id in uws ==> id in written && written[id] == uws[id])
    && (forall i :: from <= i < |items| ==>
          items[i].id !in uws && items[i].id in written && written[items[i].id] == items[i].record)
    && (forall id :: id in written && id !in uws ==> exists i :: from <= i < |items| && items[i].id == id)
  }

  lemma TopUpWrites(pre: seq<LearningItem>, items: seq<LearningItem>, news: seq<LearningItem>, newIds: seq<Id>, picked: seq<Id>,
                    uws: map<Id, UserWord>, created: map<Id, UserWord>, written: map<Id, UserWord>,
                    uid: string, level: string, now: Time, words: map<Id, Word>)
    requires FreshIds(newIds, uws) && |picked| <= |newIds|
    requires forall i :: 0 <= i < |picked| ==> picked[i] in words
    requires news == NewItems(newIds, picked, uid, level, now, words)
    requires items == pre + news
    requires CreatedFor(created, newIds, picked, uid, level, now)
    requires written == uws + created
    ensures WritesExactly(uws, written, items, |pre|)
  {
    ItemsCreated(pre, items, news, newIds, picked, created, uid, level, now, words);
    WritesBatch(|pre|, items, newIds, picked, uws, created, written, uid, level, now);
  }

  lemma WritesBatch(offset: nat, items: seq<LearningItem>, newIds: seq<Id>, picked: seq<Id>,
                    uws: map<Id, UserWord>, created: map<Id, UserWord>, written: map<Id, UserWord>,
                    uid: string, level: string, now: Time)
    requires FreshIds(newIds, uws) && |picked| <= |newIds|
    requires |items| == offset + |picked|
    requires forall i :: offset <= i < |items| ==>
      items[i].id == newIds[i - offset] && items[i].id in created && created[items[i].id] == items[i].record
    requires CreatedFor(created, newIds, picked, uid, level, now)
    requires written == uws + created
    ensures WritesExactly(uws, written, items, offset)
  {
    CreatedIsFresh(newIds, picked, uid, level, now, created, uws);
    forall i | offset <= i < |items|
      ensures items[i].id !in uws && items[i].id in written && written[items[i].id] == items[i].record
    {
      assert items[i].id in created;
    }
    forall id | id in uws
      ensures id in written && written[id] == uws[id]
    {
      assert id !in created;
    }
    CreatedAreListed(offset, items, newIds, picked, created);
    forall id | id in written && id !in uws
      ensures exists i :: offset <= i < |items| && items[i].id == id
    {
      assert id in created;
    }
  }

  lemma ItemsCreated(pre: seq<LearningItem>, items: seq<LearningItem>, news: seq<LearningItem>, newIds: seq<Id>,
                     picked: seq<Id>, created: map<Id, UserWord>, uid: string, level: string, now: Time, words: map<Id, Word>)
    requires |picked| <= |newIds| && forall i :: 0 <= i < |picked| ==> picked[i] in words
    requires news == NewItems(newIds, picked, uid, level, now, words)
    requires items == pre + news
    requires CreatedFor(created, newIds, picked, uid, level, now)
    ensures |items| == |pre| + |picked|
    ensures forall i :: |pre| <= i < |items| ==>
      items[i].id == newIds[i - |pre|] && items[i].id in created && created[items[i].id] == items[i].record
  {
    ConcatTail(pre, news, items);
    forall i | |pre| <= i < |items|
      ensures items[i].id == newIds[i - |pre|] && items[i].id in created && created[items[i].id] == items[i].record
    {
      assert items[i] == news[i - |pre|];
    }
  }

  lemma CreatedIsFresh(newIds: seq<Id>, picked: seq<Id>, uid: string, level: string, now: Time,
                       created: map<Id, UserWord>, uws: map<Id, UserWord>)
    requires |picked| <= |newIds| && FreshIds(newIds, uws)
    requires CreatedFor(created, newIds, picked, uid, level, now)
    ensures forall id :: id in created ==> id !in uws
  {
  }

  lemma CreatedAreListed(offset: nat, items: seq<LearningItem>, newIds: seq<Id>, picked: seq<Id>, created: map<Id, UserWord>)
    requires |picked| <= |newIds| && |items| == offset + |picked|
    requires forall i :: offset <= i < |items| ==> items[i].id == newIds[i - offset]
    requires forall id :: id in created ==> exists j :: 0 <= j < |picked| && newIds[j] == id
    ensures forall id :: id in created ==> exists i :: offset <= i < |items| && items[i].id == id
  {
    forall id | id in created
      ensures exists i :: offset <= i < |items| && items[i].id == id
    {
      var j :| 0 <= j < |picked| && newIds[j] == id;
      assert items[offset + j].id == id;
    }
  }

  /**
   * The handler. `caller` is the authenticated uid, if any; `newIds` are the
   * ids the store generates for new documents. The user lookup happens
   * outside the handler's `try`, so a missing user is an unwrapped TypeError;
   * a level without a cursor entry makes the picked-word query filter on
   * `undefined`, which the store refuses inside the `try`.
   */
  function GetLearningWords(caller: Option<string>, now: Time, newIds: seq<Id>, s: Store)
    : (r: Result<Reply<seq<LearningItem>>, Failure>)
    requires FreshIds(newIds, s.userWords)
    ensures caller.None? <==> r == Err(Unauthenticated)
    ensures caller.Some? ==> (caller.value !in s.users <==> r == Err(TypeError))
    ensures r.Ok? ==> |r.value.value| <= BatchSize
  {
    if caller.None? then Err(Unauthenticated)
    else
      var uid := caller.value;
      match FetchUser(s.users, uid)
      case Err(e) => Err(e)
      case Ok(user) =>
        var due := DueWords(s.userWords, uid, user.skillLevel, now);
        if |due| == BatchSize then Ok(Reply(DueItems(due, s), s))
        else
          match SkillToIdx(user.skillLevel)
          case None => Err(Internal(StoreRejected))
          case Some(k) =>
            if k >= |user.nextWords| then Err(Internal(StoreRejected))
            else
              var picked := PickedWords(uid, k, due, s);
              var created := Created(newIds, picked, uid, user.skillLevel, now);
              Ok(Reply(TopUpAnswer(uid, k, due, picked, now, newIds, s), TopUpStore(uid, k, due, created, s)))
  }

  /** Only a level without a usable cursor entry makes an authenticated call for an existing user fail. */
  lemma LearningFailures(caller: Option<string>, now: Time, newIds: seq<Id>, s: Store)
    requires FreshIds(newIds, s.userWords)
    ensures var r := GetLearningWords(caller, now, newIds, s);
      r.Err? && caller.Some? && caller.value in s.users ==>
        var user := s.users[caller.value];
        && r.error == Internal(StoreRejected)
        && |DueWords(s.userWords, caller.value, user.skillLevel, now)| < BatchSize
        && (SkillToIdx(user.skillLevel).None? || SkillToIdx(user.skillLevel).value >= |user.nextWords|)
  {
  }

  /**
   * When five records are due they are the whole answer, in query order, and
   * nothing is written: no record created, no cursor moved.
   */
  lemma FullDueBatchIsReadOnly(uid: string, now: Time, newIds: seq<Id>, s: Store)
    requires FreshIds(newIds, s.userWords) && uid in s.users
    requires |DueWords(s.userWords, uid, s.users[uid].skillLevel, now)| == BatchSize
    ensures var r := GetLearningWords(Some(uid), now, newIds, s);
      && r.Ok?
      && r.value.store == s
      && |r.value.value| == BatchSize
      && (forall i :: 0 <= i < BatchSize ==>
            && r.value.value[i].id == DueWords(s.userWords, uid, s.users[uid].skillLevel, now)[i]
            && r.value.value[i].id in s.userWords
            && r.value.value[i].record == s.userWords[r.value.value[i].id]
            && r.value.value[i].word == LookupWord(s.words, r.value.value[i].record.word)
            && r.value.value[i].shown == Stored(r.value.value[i].record.lastSeenAt)
            && IsDue(r.value.value[i].record, uid, s.users[uid].skillLevel, now))
  {
  }

  /** The cursor entry of `user`'s level, when it has one. */
  predicate HasCursor(user: User) {
    SkillToIdx(user.skillLevel).Some? && SkillToIdx(user.skillLevel).value < |user.nextWords|
  }

  /** With fewer than five due records and a cursor entry for the level, the call is the top-up. */
  lemma ShortDueBatchIsTopUp(uid: string, now: Time, newIds: seq<Id>, s: Store)
    requires FreshIds(newIds, s.userWords) && uid in s.users && HasCursor(s.users[uid])
    requires |DueWords(s.userWords, uid, s.users[uid].skillLevel, now)| < BatchSize
    ensures GetLearningWords(Some(uid), now, newIds, s)
      == var k := SkillToIdx(s.users[uid].skillLevel).value;
         var due := DueWords(s.userWords, uid, s.users[uid].skillLevel, now);
         var picked := PickedWords(uid, k, due, s);
         var created := Created(newIds, picked, uid, s.users[uid].skillLevel, now);
         Ok(Reply(TopUpAnswer(uid, k, due, picked, now, newIds, s), TopUpStore(uid, k, due, created, s)))
  {
  }

  /**
   * What a top-up answers and writes: the records `due` as stored, joined
   * with their words; then new records at score 1 for distinct catalog words
   * at the user's level with index in [c, c + 5 - due) for the level's
   * cursor c, under the first new ids, by ascending index, with no such word
   * left out below one taken, and every such word when the set is short;
   * exactly those new records are added to the store, no existing record or
   * catalog word changes, and the level's cursor moves by 5 - due with
   * the other cursor entries, the level and every other user kept.
   */
  predicate TopUpOutcome(items: seq<LearningItem>, s': Store, uid: string, k: nat, due: seq<Id>, now: Time, newIds: seq<Id>, s: Store)
    requires uid in s.users && k < |s.users[uid].nextWords| && |due| < BatchSize && |newIds| >= BatchSize
  {
    var level := s.users[uid].skillLevel;
    var c := s.users[uid].nextWords[k];
    && |due| <= |items| <= BatchSize
    && (forall i :: 0 <= i < |due| ==>
          && items[i].id == due[i] && due[i] in s.userWords && items[i].record == s.userWords[due[i]]
          && items[i].word == LookupWord(s.words, s.userWords[due[i]].word)
          && items[i].shown == Stored(s.userWords[due[i]].lastSeenAt))
    && (forall i :: |due| <= i < |items| ==>
          && items[i].id == newIds[i - |due|]
          && items[i].record == NewUserWord(uid, items[i].record.word, level, now)
          && items[i].record.word in s.words
          && items[i].word == Some(s.words[items[i].record.word])
          && items[i].shown == Placeholder)
    && FreshOrder(items, |due|, s.words, level, c, BatchSize - |due|)
    && WritesExactly(s.userWords, s'.userWords, items, |due|)
    && s'.words == s.words
    && uid in s'.users && |s'.users[uid].nextWords| == |s.users[uid].nextWords|
    && s'.users[uid].nextWords[k] == c + (BatchSize - |due|)
    && (forall j :: 0 <= j < |s.users[uid].nextWords| && j != k ==> s'.users[uid].nextWords[j] == s.users[uid].nextWords[j])
    && s'.users[uid].skillLevel == level
    && (forall u :: u in s.users && u != uid ==> u in s'.users && s'.users[u] == s.users[u])
  }

  /** A top-up over the fresh-word query and its batch has the outcome stated by `TopUpOutcome`. */
  lemma TopUpFacts(uid: string, k: nat, due: seq<Id>, picked: seq<Id>, created: map<Id, UserWord>, now: Time,
                   newIds: seq<Id>, s: Store)
    requires uid in s.users && k < |s.users[uid].nextWords|
    requires |due| < BatchSize && forall i :: 0 <= i < |due| ==> due[i] in s.userWords
    requires Pickable(picked, uid, k, due, s)
    requires FreshIds(newIds, s.userWords)
    requires CreatedFor(created, newIds, picked, uid, s.users[uid].skillLevel, now)
    ensures TopUpOutcome(TopUpAnswer(uid, k, due, picked, now, newIds, s), TopUpStore(uid, k, due, created, s),
                         uid, k, due, now, newIds, s)
  {
    var items := TopUpAnswer(uid, k, due, picked, now, newIds, s);
    TopUpCreatesRecords(uid, k, due, picked, created, now, newIds, s);
    TopUpWordsArePicked(uid, k, due, picked, s, items);
  }

  /**
   * The words of the entries of `items` from position `from` on answer the
   * fresh-word query: in range, distinct, by ascending index, with no word
   * in range left out below one taken, and all of them when fewer than
   * `count` come back.
   */
  predicate FreshOrder(items: seq<LearningItem>, from: nat, words: map<Id, Word>, level: string, c: int, count: nat) {
    && (forall i :: from <= i < |items| ==>
          items[i].record.word in words && InRange(words[items[i].record.word], level, c, count))
    && (forall i, j :: from <= i < j < |items| ==>
          && items[i].record.word != items[j].record.word
          && words[items[i].record.word].index <= words[items[j].record.word].index)
    && (forall i, id :: from <= i < |items| && id in words && InRange(words[id], level, c, count)
                        && (forall j :: from <= j < |items| ==> items[j].record.word != id) ==>
          words[items[i].record.word].index <= words[id].index)
    && (|items| < from + count ==> forall id :: id in words && InRange(words[id], level, c, count) ==>
          exists j :: from <= j < |items| && items[j].record.word == id)
  }

  /** The words of the new entries are the picked words, so they keep every property of the fresh-word query. */
  lemma TopUpWordsArePicked(uid: string, k: nat, due: seq<Id>, picked: seq<Id>, s: Store, items: seq<LearningItem>)
    requires uid in s.users && k < |s.users[uid].nextWords| && |due| < BatchSize
    requires Pickable(picked, uid, k, due, s)
    requires |items| == |due| + |picked|
    requires forall i :: |due| <= i < |items| ==> items[i].record.word == picked[i - |due|]
    ensures FreshOrder(items, |due|, s.words, s.users[uid].skillLevel, s.users[uid].nextWords[k], BatchSize - |due|)
  {
    var level := s.users[uid].skillLevel;
    var c := s.users[uid].nextWords[k];
    forall i | |due| <= i < |items|
      ensures items[i].record.word in s.words && InRange(s.words[items[i].record.word], level, c, BatchSize - |due|)
    {
      assert items[i].record.word == picked[i - |due|];
    }
    forall i, j | |due| <= i < j < |items|
      ensures items[i].record.word != items[j].record.word
      ensures s.words[items[i].record.word].index <= s.words[items[j].record.word].index
    {
      assert items[i].record.word == picked[i - |due|] && items[j].record.word == picked[j - |due|];
    }
    forall i, id | |due| <= i < |items| && id in s.words && InRange(s.words[id], level, c, BatchSize - |due|)
                   && (forall j :: |due| <= j < |items| ==> items[j].record.word != id)
      ensures s.words[items[i].record.word].index <= s.words[id].index
    {
      forall m | 0 <= m < |picked|
        ensures picked[m] != id
      {
        assert items[|due| + m].record.word == picked[m];
      }
      assert items[i].record.word == picked[i - |due|];
    }
    if |items| < BatchSize {
      forall id | id in s.words && InRange(s.words[id], level, c, BatchSize - |due|)
        ensures exists j :: |due| <= j < |items| && items[j].record.word == id
      {
        assert id in picked;
        var m :| 0 <= m < |picked| && picked[m] == id;
        assert items[|due| + m].record.word == id;
      }
    }
  }

  /**
   * With fewer than five due records and a cursor entry for the level, the
   * call succeeds with the top-up's answer and writes.
   */
  lemma ShortDueBatchTopsUp(uid: string, now: Time, newIds: seq<Id>, s: Store)
    requires FreshIds(newIds, s.userWords) && uid in s.users && HasCursor(s.users[uid])
    requires |DueWords(s.userWords, uid, s.users[uid].skillLevel, now)| < BatchSize
    ensures var r := GetLearningWords(Some(uid), now, newIds, s);
      && r.Ok?
      && TopUpOutcome(r.value.value, r.value.store, uid, SkillToIdx(s.users[uid].skillLevel).value,
                      DueWords(s.userWords, uid, s.users[uid].skillLevel, now), now, newIds, s)
  {
    var user := s.users[uid];
    var k := SkillToIdx(user.skillLevel).value;
    var due := DueWords(s.userWords, uid, user.skillLevel, now);
    var picked := PickedWords(uid, k, due, s);
    var created := Created(newIds, picked, uid, user.skillLevel, now);
    ShortDueBatchIsTopUp(uid, now, newIds, s);
    TopUpFacts(uid, k, due, picked, created, now, newIds, s);
  }

  /** A selection keeps every tracked word within bounds. */
  lemma LearningPreservesWellFormed(caller: Option<string>, now: Time, newIds: seq<Id>, s: Store)
    requires FreshIds(newIds, s.userWords) && WellFormed(s)
    ensures var r := GetLearningWords(caller, now, newIds, s);
      r.Ok? ==> WellFormed(r.value.store)
  {
    var r := GetLearningWords(caller, now, newIds, s);
    if r.Ok? {
      var uid := caller.value;
      var user := s.users[uid];
      var due := DueWords(s.userWords, uid, user.skillLevel, now);
      if |due| < BatchSize {
        assert HasCursor(user);
        var k := SkillToIdx(user.skillLevel).value;
        ShortDueBatchIsTopUp(uid, now, newIds, s);
        var picked := PickedWords(uid, k, due, s);
        var created := Created(newIds, picked, uid, user.skillLevel, now);
        TopUpKeepsWellFormed(uid, k, due, picked, created, now, newIds, s);
      }
    }
  }

  /**
   * The first learning set of a beginner: five entries, each a new record at
   * score 1, unlearned, showing the placeholder stamp and stored with
   * `lastSeenAt = now`; the beginner cursor ends at 5 and the cursor array
   * keeps its four entries.
   */
  predicate FirstBatchShape(items: seq<LearningItem>, s': Store, uid: string, now: Time) {
    && |items| == 5
    && (forall i :: 0 <= i < 5 ==>
          && items[i].record.progress == 1
          && !items[i].record.learned
          && items[i].shown == Placeholder
          && items[i].id in s'.userWords
          && s'.userWords[items[i].id].lastSeenAt == Some(now))
    && uid in s'.users
    && |s'.users[uid].nextWords| == 4
    && s'.users[uid].nextWords[0] == 5
  }

  /** With no due records and five in-range beginner words, the top-up has the shape of a first set. */
  lemma FirstBeginnerTopUp(uid: string, now: Time, newIds: seq<Id>, s: Store)
    requires FreshIds(newIds, s.userWords)
    requires uid in s.users && s.users[uid].skillLevel == "beginner"
    requires |s.users[uid].nextWords| == 4 && s.users[uid].nextWords[0] == 0
    requires |s.words| == 5
    requires forall id :: id in s.words ==> s.words[id].difficulty == "beginner" && 0 <= s.words[id].index < 5
    ensures var picked := PickedWords(uid, 0, [], s);
      FirstBatchShape(TopUpAnswer(uid, 0, [], picked, now, newIds, s),
                      TopUpStore(uid, 0, [], Created(newIds, picked, uid, "beginner", now), s), uid, now)
  {
    FiveBeginnerWords(s.words);
    var picked := PickedWords(uid, 0, [], s);
    var created := Created(newIds, picked, uid, "beginner", now);
    var items := TopUpAnswer(uid, 0, [], picked, now, newIds, s);
    var s' := TopUpStore(uid, 0, [], created, s);
    TopUpCreatesRecords(uid, 0, [], picked, created, now, newIds, s);
    forall i | 0 <= i < 5
      ensures items[i].record.progress == 1 && s'.userWords[items[i].id].lastSeenAt == Some(now)
    {
      assert items[i].record == NewUserWord(uid, items[i].record.word, "beginner", now);
    }
  }

  lemma FiveBeginnerWords(words: map<Id, Word>)
    requires |words| == 5
    requires forall id :: id in words ==> words[id].difficulty == "beginner" && 0 <= words[id].index < 5
    ensures |FreshWords(words, "beginner", 0, BatchSize)| == 5
  {
    var m := InRangeKeys(words, "beginner", 0, BatchSize);
    assert m.Keys == words.Keys;
    assert |m| == |m.Keys| == 5;
  }

  /**
   * A beginner with cursor 0, no tracked words, and a catalog of exactly five
   * beginner words at indices 0 to 4 gets a first set of five new records
   * and cursor 5.
   */
  lemma FirstBeginnerBatch(uid: string, now: Time, newIds: seq<Id>, s: Store)
    requires FreshIds(newIds, s.userWords)
    requires uid in s.users && s.users[uid].skillLevel == "beginner"
    requires |s.users[uid].nextWords| == 4 && s.users[uid].nextWords[0] == 0
    requires forall id :: id in s.userWords ==> s.userWords[id].userId != uid
    requires |s.words| == 5
    requires forall id :: id in s.words ==> s.words[id].difficulty == "beginner" && 0 <= s.words[id].index < 5
    ensures var r := GetLearningWords(Some(uid), now, newIds, s);
      r.Ok? && FirstBatchShape(r.value.value, r.value.store, uid, now)
  {
    NothingDueWithoutRecords(s.userWords, uid, "beginner", now);
    ShortDueBatchIsTopUp(uid, now, newIds, s);
    FirstBeginnerTopUp(uid, now, newIds, s);
  }

  lemma NothingDueWithoutRecords(uws: map<Id, UserWord>, uid: string, level: string, now: Time)
    requires forall id :: id in uws ==> uws[id].userId != uid
    ensures DueWords(uws, uid, level, now) == []
  {
    assert DueKeys(uws, uid, level, now).Keys == {};
  }
}
