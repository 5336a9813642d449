/**
 * How the three current handlers interact over one store. The selector
 * creates records without an `alreadyKnown` field, a review only ever sets
 * it to true, and the pager stamps only `lastSeenAt`, while the pager serves
 * only records whose `alreadyKnown` is exactly `false`. A store in which no
 * record carries `alreadyKnown == false` therefore keeps that shape under
 * every handler, and every page served from it is empty.
 */
module Lifecycle {
  import opened Wrappers
  import opened Values
  import opened Records
  import opened ProgressUpdater
  import opened LearningSelector
  import opened UserWordPager

  /** No tracked word is marked as not known: none can match the pager's filter. */
  predicate NoUnknownMarks(s: Store) {
    forall id :: id in s.userWords ==> s.userWords[id].alreadyKnown != Some(false)
  }

  /** A review never writes `alreadyKnown == false`. */
  lemma ReviewNeverMarksUnknown(w: UserWord, inc: int, now: Time)
    requires inc == 1 || inc == -1
    requires w.alreadyKnown != Some(false)
    ensures Review(w, inc, now).alreadyKnown != Some(false)
  {
  }

  lemma UpdateKeepsNoUnknownMarks(caller: Option<string>, userWordId: Value, increment: Value, now: Time, s: Store)
    requires NoUnknownMarks(s)
    ensures var r := UpdateWordProgress(caller, userWordId, increment, now, s);
      r.Ok? ==> NoUnknownMarks(r.value.store)
  {
    var r := UpdateWordProgress(caller, userWordId, increment, now, s);
    if r.Ok? {
      var s' := r.value.store;
      forall id | id in s'.userWords
        ensures s'.userWords[id].alreadyKnown != Some(false)
      {
        if id == userWordId.s {
          ReviewNeverMarksUnknown(s.userWords[id], increment.n, now);
        } else {
          assert s'.userWords[id] == s.userWords[id];
        }
      }
    }
  }

  lemma TopUpKeepsNoUnknownMarks(uid: string, k: nat, due: seq<Id>, picked: seq<Id>, created: map<Id, UserWord>,
                                 now: Time, newIds: seq<Id>, s: Store)
    requires uid in s.users && k < |s.users[uid].nextWords| && |due| < BatchSize && NoUnknownMarks(s)
    requires |picked| <= |newIds| && CreatedFor(created, newIds, picked, uid, s.users[uid].skillLevel, now)
    ensures NoUnknownMarks(TopUpStore(uid, k, due, created, s))
  {
    TopUpKeepsOrAddsNew(uid, k, due, picked, created, now, newIds, s);
    var s' := TopUpStore(uid, k, due, created, s);
    forall id | id in s'.userWords
      ensures s'.userWords[id].alreadyKnown != Some(false)
    {
    }
  }

  lemma LearningKeepsNoUnknownMarks(caller: Option<string>, now: Time, newIds: seq<Id>, s: Store)
    requires FreshIds(newIds, s.userWords) && NoUnknownMarks(s)
    ensures var r := GetLearningWords(caller, now, newIds, s);
      r.Ok? ==> NoUnknownMarks(r.value.store)
  {
    var r := GetLearningWords(caller, now, newIds, s);
    if r.Ok? {
      var uid := caller.value;
      var user := s.users[uid];
      var due := DueWords(s.userWords, uid, user.skillLevel, now);
      if |due| < BatchSize {
        assert HasCursor(user);
        var k := SkillToIdx(user.skillLevel).value;
        ShortDueBatchIsTopUp(uid, now, newIds, s);
        var picked := PickedWords(uid, k, due, s);
        var created := Created(newIds, picked, uid, user.skillLevel, now);
        TopUpKeepsNoUnknownMarks(uid, k, due, picked, created, now, newIds, s);
      }
    }
  }

  /** The stamps of a page request change `lastSeenAt` only. */
  lemma StampChangesOnlySeen(caller: Option<string>, limit: Value, lastSeenAt: Value, parseDate: Value -> Option<Time>,
                             now: Time, s: Store)
    ensures var r := GetUserWords(caller, limit, lastSeenAt, parseDate, now, s);
      r.Ok? ==>
        && r.value.store.userWords.Keys == s.userWords.Keys
        && forall id :: id in s.userWords ==>
             r.value.store.userWords[id] == s.userWords[id].(lastSeenAt := r.value.store.userWords[id].lastSeenAt)
  {
    var r := GetUserWords(caller, limit, lastSeenAt, parseDate, now, s);
    if r.Ok? {
      var uid := caller.value;
      ValidRequestIsPage(uid, limit, lastSeenAt, parseDate, now, s);
      var level := s.users[uid].skillLevel;
      var cursor := ParseCursor(lastSeenAt, parseDate).value;
      var size := PageSize(limit).value;
      StampedChangesOnlySeen(uid, level, cursor, size, now, s);
    }
  }

  lemma StampedChangesOnlySeen(uid: string, level: string, cursor: Option<Time>, size: nat, now: Time, s: Store)
    ensures var s' := StampedStore(uid, level, cursor, size, now, s);
      && s'.userWords.Keys == s.userWords.Keys
      && forall id :: id in s.userWords ==> s'.userWords[id] == s.userWords[id].(lastSeenAt := s'.userWords[id].lastSeenAt)
  {
    PageStampsNeverSeen(uid, level, cursor, size, now, s);
  }

  lemma PagerKeepsNoUnknownMarks(caller: Option<string>, limit: Value, lastSeenAt: Value, parseDate: Value -> Option<Time>,
                                 now: Time, s: Store)
    requires NoUnknownMarks(s)
    ensures var r := GetUserWords(caller, limit, lastSeenAt, parseDate, now, s);
      r.Ok? ==> NoUnknownMarks(r.value.store)
  {
    StampChangesOnlySeen(caller, limit, lastSeenAt, parseDate, now, s);
  }

  /** A page request keeps every tracked word within bounds. */
  lemma PagerPreservesWellFormed(caller: Option<string>, limit: Value, lastSeenAt: Value, parseDate: Value -> Option<Time>,
                                 now: Time, s: Store)
    requires WellFormed(s)
    ensures var r := GetUserWords(caller, limit, lastSeenAt, parseDate, now, s);
      r.Ok? ==> WellFormed(r.value.store)
  {
    StampChangesOnlySeen(caller, limit, lastSeenAt, parseDate, now, s);
  }

  /**
   * From a store without unknown marks every page is empty, with a `null`
   * token, and nothing is written.
   */
  lemma NoUnknownMarksGivesEmptyPages(caller: Option<string>, limit: Value, lastSeenAt: Value,
                                      parseDate: Value -> Option<Time>, now: Time, s: Store)
    requires NoUnknownMarks(s)
    ensures var r := GetUserWords(caller, limit, lastSeenAt, parseDate, now, s);
      r.Ok? ==> |r.value.value.userWords| == 0 && r.value.value.nextPageToken.None? && r.value.store == s
  {
    var r := GetUserWords(caller, limit, lastSeenAt, parseDate, now, s);
    if r.Ok? {
      var uid := caller.value;
      ValidRequestIsPage(uid, limit, lastSeenAt, parseDate, now, s);
      var level := s.users[uid].skillLevel;
      var cursor := ParseCursor(lastSeenAt, parseDate).value;
      var size := PageSize(limit).value;
      assert PageKeys(s.userWords, uid, level, cursor) == map[];
      PageIsPrefix(uid, level, cursor, size, s);
      PageStampsNeverSeen(uid, level, cursor, size, now, s);
    }
  }
}
