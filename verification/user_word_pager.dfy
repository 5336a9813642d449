/**
 * `getUserWords`: one page of the caller's tracked words at their level that
 * are not already known, ordered by `lastSeenAt` (never-seen records, stored
 * as `null`, first). Never-seen records on the page are stamped as seen now;
 * the page still reports them as never seen.
 */
module UserWordPager {
  import opened Wrappers
  import opened Values
  import opened Records
  import opened QueryOrder

  /**
   * `data.limit || 10`. A truthy limit that is not a positive integer is
   * passed on to the query, which the store refuses.
   */
  function PageSize(limit: Value): (r: Result<nat, Failure>)
    ensures !Truthy(limit) ==> r == Ok(DefaultPageSize)
    ensures Truthy(limit) ==> (r.Ok? <==> limit.Num? && limit.n > 0)
    ensures Truthy(limit) && r.Ok? ==> r.value == limit.n
    ensures r.Err? ==> r.error == Internal(StoreRejected)
  {
    if !Truthy(limit) then Ok(DefaultPageSize)
    else if limit.Num? && limit.n > 0 then Ok(limit.n)
    else Err(Internal(StoreRejected))
  }

  /**
   * The pagination cursor: none when `data.lastSeenAt` is falsy; otherwise
   * what `parseDate` (the `new Date(...)` validity check) makes of it, and
   * InvalidArgument when that is not a valid date.
   */
  function ParseCursor(arg: Value, parseDate: Value -> Option<Time>): (r: Result<Option<Time>, Failure>)
    ensures !Truthy(arg) ==> r == Ok(None)
    ensures Truthy(arg) ==> (r == Err(InvalidArgument) <==> parseDate(arg).None?)
    ensures Truthy(arg) && r.Ok? ==> r.value.Some? && r.value == parseDate(arg)
    ensures r.Err? ==> r.error == InvalidArgument
  {
    if !Truthy(arg) then Ok(None)
    else match parseDate(arg)
      case None => Err(InvalidArgument)
      case Some(t) => Ok(Some(t))
  }

  /** The filter of the page query: the caller's, at the user's level, with `alreadyKnown == false`. */
  predicate Pageable(w: UserWord, uid: string, level: string) {
    w.userId == uid && w.difficulty == level && w.alreadyKnown == Some(false)
  }

  /** `startAfter(cursor)` on a query ordered by `lastSeenAt`: strictly later than the cursor, so never `null`. */
  predicate AfterCursor(t: Option<Time>, cursor: Option<Time>) {
    cursor.None? || FieldLt(cursor, t)
  }

  predicate InQuery(w: UserWord, uid: string, level: string, cursor: Option<Time>) {
    Pageable(w, uid, level) && AfterCursor(w.lastSeenAt, cursor)
  }

  /** The records the page query matches, keyed by `lastSeenAt`. */
  function PageKeys(uws: map<Id, UserWord>, uid: string, level: string, cursor: Option<Time>): map<Id, Option<Time>> {
    map id | id in uws && InQuery(uws[id], uid, level, cursor) :: uws[id].lastSeenAt
  }

  /**
   * The ids of the page: at most `size` matching records, ascending by
   * `lastSeenAt`, and no matching record left out comes before one returned.
   */
  function PageIds(uws: map<Id, UserWord>, uid: string, level: string, cursor: Option<Time>, size: nat): (r: seq<Id>)
    ensures |r| == if size < |PageKeys(uws, uid, level, cursor)| then size else |PageKeys(uws, uid, level, cursor)|
    ensures forall i :: 0 <= i < |r| ==> r[i] in uws && InQuery(uws[r[i]], uid, level, cursor)
    ensures forall i, j :: 0 <= i < j < |r| ==> r[i] != r[j]
    ensures forall i, j :: 0 <= i < j < |r| ==> FieldLe(uws[r[i]].lastSeenAt, uws[r[j]].lastSeenAt)
    ensures forall i, id :: 0 <= i < |r| && id in uws && InQuery(uws[id], uid, level, cursor) && id !in r ==>
      FieldLe(uws[r[i]].lastSeenAt, uws[id].lastSeenAt)
    ensures |r| < size ==> forall id :: id in uws && InQuery(uws[id], uid, level, cursor) ==> id in r
  {
    var m := PageKeys(uws, uid, level, cursor);
    var r := FirstN(m, size, false);
    PageIdsSound(uws, uid, level, cursor, size, m, r);
    r
  }

  lemma PageIdsSound(uws: map<Id, UserWord>, uid: string, level: string, cursor: Option<Time>, size: nat,
                     m: map<Id, Option<Time>>, r: seq<Id>)
    requires m == PageKeys(uws, uid, level, cursor)
    requires forall i :: 0 <= i < |r| ==> r[i] in m
    requires forall i, j :: 0 <= i < j < |r| ==> Precedes(m, r[i], r[j], false)
    requires forall i, y :: 0 <= i < |r| && y in m && y !in r ==> Precedes(m, r[i], y, false)
    requires |r| < size ==> forall y :: y in m ==> y in r
    ensures forall i :: 0 <= i < |r| ==> r[i] in uws && InQuery(uws[r[i]], uid, level, cursor)
    ensures forall i, j :: 0 <= i < j < |r| ==> FieldLe(uws[r[i]].lastSeenAt, uws[r[j]].lastSeenAt)
    ensures forall i, id :: 0 <= i < |r| && id in uws && InQuery(uws[id], uid, level, cursor) && id !in r ==>
      FieldLe(uws[r[i]].lastSeenAt, uws[id].lastSeenAt)
    ensures |r| < size ==> forall id :: id in uws && InQuery(uws[id], uid, level, cursor) ==> id in r
  {
    forall i | 0 <= i < |r|
      ensures r[i] in uws && InQuery(uws[r[i]], uid, level, cursor) && m[r[i]] == uws[r[i]].lastSeenAt
    {
      assert r[i] in m;
    }
    AscendingValues(m, r);
    forall i, id | 0 <= i < |r| && id in uws && InQuery(uws[id], uid, level, cursor) && id !in r
      ensures FieldLe(uws[r[i]].lastSeenAt, uws[id].lastSeenAt)
    {
      assert id in m;
      assert Precedes(m, r[i], id, false);
    }
    if |r| < size {
      forall id | id in uws && InQuery(uws[id], uid, level, cursor)
        ensures id in r
      {
        assert id in m;
      }
    }
  }

  /** Each id of a page comes no later than every matching record not already ahead of it on the page. */
  lemma PageIdsBeforeLater(uws: map<Id, UserWord>, uid: string, level: string, cursor: Option<Time>, size: nat)
    ensures var r := PageIds(uws, uid, level, cursor, size);
      forall i, id :: 0 <= i < |r| && id in uws && InQuery(uws[id], uid, level, cursor) && id !in r[..i] ==>
        FieldLe(uws[r[i]].lastSeenAt, uws[id].lastSeenAt)
  {
    var m := PageKeys(uws, uid, level, cursor);
    var r := PageIds(uws, uid, level, cursor, size);
    assert r == FirstN(m, size, false);
    FirstNBeforeLater(m, size, false);
    forall i, id | 0 <= i < |r| && id in uws && InQuery(uws[id], uid, level, cursor) && id !in r[..i]
      ensures FieldLe(uws[r[i]].lastSeenAt, uws[id].lastSeenAt)
    {
      assert id in m && r[i] in m;
      assert Precedes(m, r[i], id, false);
    }
  }

  /** One returned entry: id, catalog word, progress and the `lastSeenAt` the record had when read. */
  datatype PageItem = PageItem(id: Id, word: Option<Word>, progress: int, lastSeenAt: Option<Time>)

  /** The response: the entries and the token of the next page. */
  datatype Page = Page(userWords: seq<PageItem>, nextPageToken: Option<Time>)

  /** The page's entries, read before any stamp is written. */
  function PageItems(ids: seq<Id>, s: Store): (items: seq<PageItem>)
    requires forall i :: 0 <= i < |ids| ==> ids[i] in s.userWords
    ensures |items| == |ids|
    ensures forall i :: 0 <= i < |ids| ==>
      && items[i].id == ids[i]
      && items[i].progress == s.userWords[ids[i]].progress
      && items[i].lastSeenAt == s.userWords[ids[i]].lastSeenAt
      && items[i].word == LookupWord(s.words, s.userWords[ids[i]].word)
  {
    seq(|ids|, i requires 0 <= i < |ids| =>
      var w := s.userWords[ids[i]];
      PageItem(ids[i], LookupWord(s.words, w.word), w.progress, w.lastSeenAt))
  }

  /** The token of the next page: the last entry's `lastSeenAt` as read, or `null` for an empty page. */
  function NextPageToken(items: seq<PageItem>): (t: Option<Time>)
    ensures |items| == 0 ==> t.None?
    ensures |items| > 0 ==> t == items[|items| - 1].lastSeenAt
  {
    if |items| > 0 then items[|items| - 1].lastSeenAt else None
  }

  /** The batch of stamps: every never-seen record on the page is marked as seen at `now`; nothing else changes. */
  function Stamp(uws: map<Id, UserWord>, ids: seq<Id>, now: Time): (r: map<Id, UserWord>)
    ensures r.Keys == uws.Keys
    ensures forall id :: id in uws ==> (r[id] != uws[id] <==> id in ids && uws[id].lastSeenAt.None?)
    ensures forall id :: id in uws && r[id] != uws[id] ==> r[id] == uws[id].(lastSeenAt := Some(now))
  {
    map id | id in uws :: if id in ids && uws[id].lastSeenAt.None? then uws[id].(lastSeenAt := Some(now)) else uws[id]
  }

  /** Whether any record on the page was never seen (`userWordsToUpdate.length > 0`). */
  predicate AnyNeverSeen(uws: map<Id, UserWord>, ids: seq<Id>)
    requires forall i :: 0 <= i < |ids| ==> ids[i] in uws
  {
    exists i :: 0 <= i < |ids| && uws[ids[i]].lastSeenAt.None?
  }

  /** The response to a valid request for user `uid` at `level`. */
  function PageOf(uid: string, level: string, cursor: Option<Time>, size: nat, s: Store): (p: Page)
    ensures |p.userWords| <= size
    ensures forall i :: 0 <= i < |p.userWords| ==>
      && p.userWords[i].id in s.userWords
      && InQuery(s.userWords[p.userWords[i].id], uid, level, cursor)
      && p.userWords[i].lastSeenAt == s.userWords[p.userWords[i].id].lastSeenAt
      && p.userWords[i].progress == s.userWords[p.userWords[i].id].progress
      && p.userWords[i].word == LookupWord(s.words, s.userWords[p.userWords[i].id].word)
    ensures forall i, j :: 0 <= i < j < |p.userWords| ==>
      p.userWords[i].id != p.userWords[j].id && FieldLe(p.userWords[i].lastSeenAt, p.userWords[j].lastSeenAt)
    ensures p.nextPageToken == (if |p.userWords| > 0 then p.userWords[|p.userWords| - 1].lastSeenAt else None)
  {
    var ids := PageIds(s.userWords, uid, level, cursor, size);
    var items := PageItems(ids, s);
    Page(items, NextPageToken(items))
  }

  /**
   * A page is a prefix of the query: no matching record left off the page
   * was seen before any entry on it, a short page holds every matching
   * record, and the page is as long as the limit and the matches allow.
   */
  lemma PageIsPrefix(uid: string, level: string, cursor: Option<Time>, size: nat, s: Store)
    ensures var p := PageOf(uid, level, cursor, size, s);
      && (forall i, id :: 0 <= i < |p.userWords| && id in s.userWords && InQuery(s.userWords[id], uid, level, cursor)
                          && (forall j :: 0 <= j < |p.userWords| ==> p.userWords[j].id != id) ==>
            FieldLe(p.userWords[i].lastSeenAt, s.userWords[id].lastSeenAt))
      && (|p.userWords| < size ==> forall id :: id in s.userWords && InQuery(s.userWords[id], uid, level, cursor) ==>
            exists i :: 0 <= i < |p.userWords| && p.userWords[i].id == id)
      && |p.userWords| == if size < |PageKeys(s.userWords, uid, level, cursor)| then size else |PageKeys(s.userWords, uid, level, cursor)|
  {
    var ids := PageIds(s.userWords, uid, level, cursor, size);
    var p := PageOf(uid, level, cursor, size, s);
    assert forall j :: 0 <= j < |ids| ==> p.userWords[j].id == ids[j];
    if |ids| < size {
      forall id | id in s.userWords && InQuery(s.userWords[id], uid, level, cursor)
        ensures exists i :: 0 <= i < |p.userWords| && p.userWords[i].id == id
      {
        var j :| 0 <= j < |ids| && ids[j] == id;
        assert p.userWords[j].id == id;
      }
    }
  }

  /**
   * The store after a valid request: the never-seen records among the page
   * ids get `lastSeenAt = now` (the batch is committed only when there is
   * one), and nothing else is written.
   */
  function StampedStore(uid: string, level: string, cursor: Option<Time>, size: nat, now: Time, s: Store): (s': Store)
    ensures s'.users == s.users && s'.words == s.words
    ensures s'.userWords.Keys == s.userWords.Keys
    ensures forall id :: id in s.userWords ==>
      (s'.userWords[id] != s.userWords[id] <==>
         id in PageIds(s.userWords, uid, level, cursor, size) && s.userWords[id].lastSeenAt.None?)
    ensures forall id :: id in s.userWords && s'.userWords[id] != s.userWords[id] ==>
      s'.userWords[id] == s.userWords[id].(lastSeenAt := Some(now))
  {
    var ids := PageIds(s.userWords, uid, level, cursor, size);
    if AnyNeverSeen(s.userWords, ids) then s.(userWords := Stamp(s.userWords, ids, now)) else s
  }

  /**
   * The handler. The user lookup and the cursor check happen outside the
   * handler's `try` (unwrapped errors); the limit is only used by the query,
   * inside it.
   */
  function GetUserWords(caller: Option<string>, limit: Value, lastSeenAt: Value, parseDate: Value -> Option<Time>,
                        now: Time, s: Store): (r: Result<Reply<Page>, Failure>)
    ensures caller.None? <==> r == Err(Unauthenticated)
    ensures caller.Some? ==> (caller.value !in s.users <==> r == Err(TypeError))
    ensures caller.Some? && caller.value in s.users ==>
      (r == Err(InvalidArgument) <==> Truthy(lastSeenAt) && parseDate(lastSeenAt).None?)
    ensures r.Ok? ==> PageSize(limit).Ok? && |r.value.value.userWords| <= PageSize(limit).value
    ensures r.Ok? ==> r.value.store.users == s.users && r.value.store.words == s.words
  {
    if caller.None? then Err(Unauthenticated)
    else
      var uid := caller.value;
      match FetchUser(s.users, uid)
      case Err(e) => Err(e)
      case Ok(user) =>
        match ParseCursor(lastSeenAt, parseDate)
        case Err(e) => Err(e)
        case Ok(cursor) =>
          match PageSize(limit)
          case Err(e) => Err(e)
          case Ok(size) =>
            Ok(Reply(PageOf(uid, user.skillLevel, cursor, size, s), StampedStore(uid, user.skillLevel, cursor, size, now, s)))
  }

  /** The fields of a request; a call without an argument carries no payload at all (`data` is null). */
  datatype PagePayload = PagePayload(limit: Value, lastSeenAt: Value)

  /**
   * The callable as deployed: the user is fetched first, then `data.limit`
   * is read outside any `try`, so a call without a payload fails with an
   * unwrapped `TypeError` whether or not the user exists.
   */
  function GetUserWordsCall(caller: Option<string>, data: Option<PagePayload>, parseDate: Value -> Option<Time>,
                            now: Time, s: Store): (r: Result<Reply<Page>, Failure>)
    ensures caller.None? <==> r == Err(Unauthenticated)
    ensures caller.Some? ==> (caller.value !in s.users || data.None? <==> r == Err(TypeError))
    ensures r.Ok? ==> data.Some? && caller.value in s.users
    ensures data.Some? ==> r == GetUserWords(caller, data.value.limit, data.value.lastSeenAt, parseDate, now, s)
  {
    if caller.None? then Err(Unauthenticated)
    else
      match FetchUser(s.users, caller.value)
      case Err(e) => Err(e)
      case Ok(_) =>
        if data.None? then Err(TypeError)
        else GetUserWords(caller, data.value.limit, data.value.lastSeenAt, parseDate, now, s)
  }

  /** A valid request for an existing user is answered by the page of its level over the stamped store. */
  lemma ValidRequestIsPage(uid: string, limit: Value, lastSeenAt: Value, parseDate: Value -> Option<Time>,
                           now: Time, s: Store)
    requires uid in s.users && PageSize(limit).Ok? && ParseCursor(lastSeenAt, parseDate).Ok?
    ensures var level := s.users[uid].skillLevel;
      var cursor := ParseCursor(lastSeenAt, parseDate).value;
      var size := PageSize(limit).value;
      GetUserWords(Some(uid), limit, lastSeenAt, parseDate, now, s)
        == Ok(Reply(PageOf(uid, level, cursor, size, s), StampedStore(uid, level, cursor, size, now, s)))
  {
  }

  /**
   * What a valid request answers and writes: at most `size` distinct matching
   * entries in ascending `lastSeenAt`, carrying the values read before
   * stamping, with no match left off the page seen before one on it and
   * every match on a short page; the token is the last entry's value; and
   * exactly the never-seen records on the page are stamped now.
   */
  predicate ServedPage(p: Page, s': Store, uid: string, level: string, cursor: Option<Time>, size: nat, now: Time, s: Store) {
    PageAnswers(p, uid, level, cursor, size, s) && PageStamps(p, s', now, s)
  }

  /** The answer half of `ServedPage`: the first `size` matching records by last-seen time, and the cursor of the last. */
  predicate PageAnswers(p: Page, uid: string, level: string, cursor: Option<Time>, size: nat, s: Store) {
    && |p.userWords| <= size
    && (forall i :: 0 <= i < |p.userWords| ==>
          && p.userWords[i].id in s.userWords
          && InQuery(s.userWords[p.userWords[i].id], uid, level, cursor)
          && p.userWords[i].lastSeenAt == s.userWords[p.userWords[i].id].lastSeenAt
          && p.userWords[i].progress == s.userWords[p.userWords[i].id].progress
          && p.userWords[i].word == LookupWord(s.words, s.userWords[p.userWords[i].id].word))
    && (forall i, j :: 0 <= i < j < |p.userWords| ==>
          p.userWords[i].id != p.userWords[j].id && FieldLe(p.userWords[i].lastSeenAt, p.userWords[j].lastSeenAt))
    && (forall i, id :: 0 <= i < |p.userWords| && id in s.userWords && InQuery(s.userWords[id], uid, level, cursor)
                        && (forall j :: 0 <= j < |p.userWords| ==> p.userWords[j].id != id) ==>
          FieldLe(p.userWords[i].lastSeenAt, s.userWords[id].lastSeenAt))
    && (|p.userWords| < size ==> forall id :: id in s.userWords && InQuery(s.userWords[id], uid, level, cursor) ==>
          exists i :: 0 <= i < |p.userWords| && p.userWords[i].id == id)
    && p.nextPageToken == (if |p.userWords| > 0 then p.userWords[|p.userWords| - 1].lastSeenAt else None)
  }

  /** The write half of `ServedPage`: only the never-seen records of the page are stamped, and nothing else changes. */
  predicate PageStamps(p: Page, s': Store, now: Time, s: Store) {
    && s'.users == s.users && s'.words == s.words
    && s'.userWords.Keys == s.userWords.Keys
    && (forall id :: id in s.userWords ==>
          (s'.userWords[id] != s.userWords[id] <==>
             (exists i :: 0 <= i < |p.userWords| && p.userWords[i].id == id) && s.userWords[id].lastSeenAt.None?))
    && (forall id :: id in s.userWords && s'.userWords[id] != s.userWords[id] ==>
          s'.userWords[id] == s.userWords[id].(lastSeenAt := Some(now)))
  }

  /** The page of a level over the stamped store is served as `ServedPage` states. */
  lemma PageFacts(uid: string, level: string, cursor: Option<Time>, size: nat, now: Time, s: Store)
    ensures ServedPage(PageOf(uid, level, cursor, size, s), StampedStore(uid, level, cursor, size, now, s),
                       uid, level, cursor, size, now, s)
  {
    PageIsPrefix(uid, level, cursor, size, s);
    PageStampsNeverSeen(uid, level, cursor, size, now, s);
  }

  /** A valid request for an existing user succeeds with the page of its level and the stamps it needs. */
  lemma ValidRequestServesPage(uid: string, limit: Value, lastSeenAt: Value, parseDate: Value -> Option<Time>,
                               now: Time, s: Store)
    requires uid in s.users && PageSize(limit).Ok? && ParseCursor(lastSeenAt, parseDate).Ok?
    ensures var r := GetUserWords(Some(uid), limit, lastSeenAt, parseDate, now, s);
      && r.Ok?
      && ServedPage(r.value.value, r.value.store, uid, s.users[uid].skillLevel, ParseCursor(lastSeenAt, parseDate).value,
                    PageSize(limit).value, now, s)
  {
    PageFacts(uid, s.users[uid].skillLevel, ParseCursor(lastSeenAt, parseDate).value, PageSize(limit).value, now, s);
  }

  /**
   * The writes of a page request: exactly the never-seen records on the page
   * get `lastSeenAt = now`, every other record is untouched, and when there
   * is no such record the store is left exactly as it was.
   */
  lemma PageStampsNeverSeen(uid: string, level: string, cursor: Option<Time>, size: nat, now: Time, s: Store)
    ensures var p := PageOf(uid, level, cursor, size, s);
      var s' := StampedStore(uid, level, cursor, size, now, s);
      && s'.users == s.users && s'.words == s.words
      && s'.userWords.Keys == s.userWords.Keys
      && (forall id :: id in s.userWords ==>
            (s'.userWords[id] != s.userWords[id] <==>
               (exists i :: 0 <= i < |p.userWords| && p.userWords[i].id == id) && s.userWords[id].lastSeenAt.None?))
      && (forall id :: id in s.userWords && s'.userWords[id] != s.userWords[id] ==>
            s'.userWords[id] == s.userWords[id].(lastSeenAt := Some(now)))
      && ((forall i :: 0 <= i < |p.userWords| ==> p.userWords[i].lastSeenAt.Some?) ==> s' == s)
  {
    var ids := PageIds(s.userWords, uid, level, cursor, size);
    PageHoldsIds(uid, level, cursor, size, s);
    if AnyNeverSeen(s.userWords, ids) {
      StampsWritten(uid, level, cursor, size, now, s);
    } else {
      assert StampedStore(uid, level, cursor, size, now, s) == s;
    }
  }

  /** The entries of a page are the page ids, read before stamping. */
  lemma PageHoldsIds(uid: string, level: string, cursor: Option<Time>, size: nat, s: Store)
    ensures var ids := PageIds(s.userWords, uid, level, cursor, size);
      var p := PageOf(uid, level, cursor, size, s);
      && |p.userWords| == |ids|
      && (forall i :: 0 <= i < |ids| ==>
            p.userWords[i].id == ids[i] && p.userWords[i].lastSeenAt == s.userWords[ids[i]].lastSeenAt)
      && (forall id :: (id in ids) == (exists i :: 0 <= i < |p.userWords| && p.userWords[i].id == id))
  {
    var ids := PageIds(s.userWords, uid, level, cursor, size);
    var p := PageOf(uid, level, cursor, size, s);
    assert forall i :: 0 <= i < |ids| ==> p.userWords[i].id == ids[i];
    forall id
      ensures (id in ids) == (exists i :: 0 <= i < |p.userWords| && p.userWords[i].id == id)
    {
      if id in ids {
        var i :| 0 <= i < |ids| && ids[i] == id;
        assert p.userWords[i].id == id;
      }
    }
  }

  /**
   * The next-page token carries only a timestamp, and `startAfter` skips
   * every record stamped at exactly that time. Two matching records sharing
   * one `lastSeenAt` (as a batch of stamps written with a single server time
   * produces) and a page size of 1: the first page shows one of them, and
   * the page its token leads to shows neither, so the other is never served.
   * This holds for stamps in whole milliseconds, as `Time` is here. The
   * store keeps finer digits, which the token loses on its way through an
   * ISO string and back, so there a cursor usually lies just before the last
   * entry's own stamp and that entry is served again instead.
   */
  lemma TiedRecordIsSkipped(uid: string, level: string, t: Time, a: Id, b: Id, size: nat, now: Time, s: Store)
    requires a != b && a in s.userWords && b in s.userWords
    requires InQuery(s.userWords[a], uid, level, None) && InQuery(s.userWords[b], uid, level, None)
    requires s.userWords[a].lastSeenAt == Some(t) && s.userWords[b].lastSeenAt == Some(t)
    requires forall id :: id in s.userWords && InQuery(s.userWords[id], uid, level, None) ==> id == a || id == b
    ensures var p1 := PageOf(uid, level, None, 1, s);
      var s1 := StampedStore(uid, level, None, 1, now, s);
      var p2 := PageOf(uid, level, p1.nextPageToken, size, s1);
      && |p1.userWords| == 1
      && (p1.userWords[0].id == a || p1.userWords[0].id == b)
      && p1.nextPageToken == Some(t)
      && s1 == s
      && |p2.userWords| == 0
  {
    TiedFirstPage(uid, level, t, a, b, now, s);
    var p1 := PageOf(uid, level, None, 1, s);
    var s1 := StampedStore(uid, level, None, 1, now, s);
    assert PageOf(uid, level, p1.nextPageToken, size, s1) == PageOf(uid, level, Some(t), size, s);
    NothingAfterTie(uid, level, t, a, b, size, s);
  }

  /** The first page of one: one of the tied records, token t, nothing written. */
  lemma TiedFirstPage(uid: string, level: string, t: Time, a: Id, b: Id, now: Time, s: Store)
    requires a != b && a in s.userWords && b in s.userWords
    requires InQuery(s.userWords[a], uid, level, None) && InQuery(s.userWords[b], uid, level, None)
    requires s.userWords[a].lastSeenAt == Some(t) && s.userWords[b].lastSeenAt == Some(t)
    requires forall id :: id in s.userWords && InQuery(s.userWords[id], uid, level, None) ==> id == a || id == b
    ensures var p1 := PageOf(uid, level, None, 1, s);
      && |p1.userWords| == 1
      && (p1.userWords[0].id == a || p1.userWords[0].id == b)
      && p1.nextPageToken == Some(t)
      && StampedStore(uid, level, None, 1, now, s) == s
  {
    var ids := PageIds(s.userWords, uid, level, None, 1);
    assert |ids| == 1 by {
      var m := PageKeys(s.userWords, uid, level, None);
      assert a in m && b in m;
      TwoKeys(m, a, b);
    }
    assert ids[0] == a || ids[0] == b;
    PageHoldsIds(uid, level, None, 1, s);
    assert !AnyNeverSeen(s.userWords, ids);
  }

  /** Nothing matches strictly after t when every match was seen at t. */
  lemma NothingAfterTie(uid: string, level: string, t: Time, a: Id, b: Id, size: nat, s: Store)
    requires a in s.userWords && b in s.userWords
    requires s.userWords[a].lastSeenAt == Some(t) && s.userWords[b].lastSeenAt == Some(t)
    requires forall id :: id in s.userWords && InQuery(s.userWords[id], uid, level, None) ==> id == a || id == b
    ensures |PageOf(uid, level, Some(t), size, s).userWords| == 0
  {
    var m2 := PageKeys(s.userWords, uid, level, Some(t));
    forall id | id in s.userWords
      ensures !InQuery(s.userWords[id], uid, level, Some(t))
    {
    }
    assert m2.Keys == {};
    PageHoldsIds(uid, level, Some(t), size, s);
  }

  /** Two never-seen matching records `a`, `b` and one, `c`, seen at some time; nothing else matches. */
  predicate TwoNeverSeenOneSeen(uid: string, level: string, a: Id, b: Id, c: Id, s: Store) {
    && a != b && b != c && a != c && a in s.userWords && b in s.userWords && c in s.userWords
    && InQuery(s.userWords[a], uid, level, None) && InQuery(s.userWords[b], uid, level, None)
    && InQuery(s.userWords[c], uid, level, None)
    && s.userWords[a].lastSeenAt.None? && s.userWords[b].lastSeenAt.None? && s.userWords[c].lastSeenAt.Some?
    && (forall id :: id in s.userWords && InQuery(s.userWords[id], uid, level, None) ==> id == a || id == b || id == c)
  }

  /**
   * Never-seen records come first: with two never-seen matching records and
   * one already seen, a page of two holds the two never-seen ones, and its
   * token is `null` because entries report the value read before stamping.
   */
  lemma NeverSeenFirst(uid: string, level: string, a: Id, b: Id, c: Id, s: Store)
    requires TwoNeverSeenOneSeen(uid, level, a, b, c, s)
    ensures var p := PageOf(uid, level, None, 2, s);
      && |p.userWords| == 2
      && (forall i :: 0 <= i < 2 ==> p.userWords[i].id != c && p.userWords[i].lastSeenAt.None?)
      && p.nextPageToken.None?
  {
    var ids := PageIds(s.userWords, uid, level, None, 2);
    var p := PageOf(uid, level, None, 2, s);
    NeverSeenIds(uid, level, a, b, c, s);
    PageHoldsIds(uid, level, None, 2, s);
    forall i | 0 <= i < 2
      ensures p.userWords[i].id != c && p.userWords[i].lastSeenAt.None?
    {
      assert ids[i] == a || ids[i] == b;
    }
  }

  /** In the same situation, both never-seen records are stamped with `now` and the seen one is untouched. */
  lemma NeverSeenStamped(uid: string, level: string, a: Id, b: Id, c: Id, now: Time, s: Store)
    requires TwoNeverSeenOneSeen(uid, level, a, b, c, s)
    ensures var s' := StampedStore(uid, level, None, 2, now, s);
      && s'.userWords.Keys == s.userWords.Keys
      && s'.userWords[a] == s.userWords[a].(lastSeenAt := Some(now))
      && s'.userWords[b] == s.userWords[b].(lastSeenAt := Some(now))
      && s'.userWords[c] == s.userWords[c]
  {
    var ids := PageIds(s.userWords, uid, level, None, 2);
    NeverSeenIds(uid, level, a, b, c, s);
    assert a in ids && b in ids && c !in ids;
    assert AnyNeverSeen(s.userWords, ids) by {
      assert s.userWords[ids[0]].lastSeenAt.None?;
    }
    StampsWritten(uid, level, None, 2, now, s);
  }

  /** The query part of `NeverSeenFirst`: the page of two holds exactly the two never-seen records. */
  lemma NeverSeenIds(uid: string, level: string, a: Id, b: Id, c: Id, s: Store)
    requires TwoNeverSeenOneSeen(uid, level, a, b, c, s)
    ensures var ids := PageIds(s.userWords, uid, level, None, 2);
      |ids| == 2 && (ids == [a, b] || ids == [b, a])
  {
    var ids := PageIds(s.userWords, uid, level, None, 2);
    assert |ids| == 2 by {
      var m := PageKeys(s.userWords, uid, level, None);
      assert a in m && b in m;
      TwoKeys(m, a, b);
    }
    assert forall i :: 0 <= i < 2 ==> s.userWords[ids[i]].lastSeenAt.None? by {
      PageIdsBeforeLater(s.userWords, uid, level, None, 2);
      // each entry comes no later than a never-seen record not ahead of it
      forall i | 0 <= i < 2
        ensures s.userWords[ids[i]].lastSeenAt.None?
      {
        var y := if a in ids[..i] then b else a;
        assert y !in ids[..i];
        assert FieldLe(s.userWords[ids[i]].lastSeenAt, s.userWords[y].lastSeenAt);
      }
    }
    assert (ids[0] == a || ids[0] == b) && (ids[1] == a || ids[1] == b);
    if ids[0] == a {
      assert ids == [a, b];
    } else {
      assert ids == [b, a];
    }
  }

  lemma TwoKeys(m: map<Id, Option<Time>>, a: Id, b: Id)
    requires a != b && a in m && b in m
    ensures |m| >= 2
  {
    RemoveOne(m, a);
    assert b in m - {a};
  }

  lemma StampsWritten(uid: string, level: string, cursor: Option<Time>, size: nat, now: Time, s: Store)
    requires AnyNeverSeen(s.userWords, PageIds(s.userWords, uid, level, cursor, size))
    ensures StampedStore(uid, level, cursor, size, now, s).userWords
      == Stamp(s.userWords, PageIds(s.userWords, uid, level, cursor, size), now)
  {
  }
}
