/**
 * `updateWordProgress`: one review of a tracked word. The score moves one
 * step up or down within [1, 5], the word is stamped as seen now, and the
 * one-way `alreadyKnown` and `learned` flags are derived.
 */
module ProgressUpdater {
  import opened Wrappers
  import opened Values
  import opened Records

  /** Independent reference: `x` forced into [lo, hi]. */
  function Clamp(x: int, lo: int, hi: int): int
    requires lo <= hi
  {
    if x < lo then lo else if x > hi then hi else x
  }

  /**
   * The score after one review: an increment is capped at the top only and a
   * decrement floored at the bottom only.
   */
  function StepProgress(p: int, inc: int): (r: int)
    requires inc == 1 || inc == -1
    ensures MinProgress <= p <= MaxProgress ==> MinProgress <= r <= MaxProgress
    ensures inc == 1 && p <= MaxProgress ==> p <= r
    ensures inc == -1 && MinProgress <= p ==> r <= p
    ensures inc == 1 ==> r <= MaxProgress
    ensures inc == -1 ==> MinProgress <= r
    ensures MinProgress <= p <= MaxProgress ==> r == Clamp(p + inc, MinProgress, MaxProgress)
  {
    if inc == 1 then
      (if p + 1 < MaxProgress then p + 1 else MaxProgress)
    else
      (if p - 1 > MinProgress then p - 1 else MinProgress)
  }

  /** A review applied to a record: the fields `updates` writes, every other field kept. */
  function Review(w: UserWord, inc: int, now: Time): (w': UserWord)
    requires inc == 1 || inc == -1
    ensures w'.progress == StepProgress(w.progress, inc)
    ensures w'.lastSeenAt == Some(now)
    ensures w'.alreadyKnown != w.alreadyKnown ==> w'.alreadyKnown == Some(true)
    ensures w'.alreadyKnown == Some(true) <==> w.alreadyKnown == Some(true) || (w.lastSeenAt.None? && inc == 1)
    ensures w'.learned <==> w.learned || w'.progress == MaxProgress
    ensures w'.userId == w.userId && w'.word == w.word && w'.difficulty == w.difficulty
  {
    var p := StepProgress(w.progress, inc);
    var known := if w.lastSeenAt.None? && inc == 1 then Some(true) else w.alreadyKnown;
    var learned := if p == MaxProgress then true else w.learned;
    w.(progress := p, lastSeenAt := Some(now), alreadyKnown := known, learned := learned)
  }

  /** The response of a successful update. */
  datatype UpdateReply = UpdateReply(success: bool, newProgress: int)

  /** The request fields are what the handler accepts before it touches the store. */
  predicate ValidRequest(userWordId: Value, increment: Value) {
    Truthy(userWordId) && userWordId.Str? && (increment == Num(1) || increment == Num(-1))
  }

  /**
   * The handler. `caller` is the authenticated uid, if any. Errors raised
   * inside the transaction come back wrapped as `Internal`.
   */
  function UpdateWordProgress(caller: Option<string>, userWordId: Value, increment: Value, now: Time, s: Store)
    : (r: Result<Reply<UpdateReply>, Failure>)
    ensures caller.None? ==> r == Err(Unauthenticated)
    ensures caller.Some? && !ValidRequest(userWordId, increment) ==> r == Err(InvalidArgument)
    ensures caller.Some? && ValidRequest(userWordId, increment) ==>
      (userWordId.s !in s.userWords <==> r == Err(Internal(NotFound)))
    ensures caller.Some? && ValidRequest(userWordId, increment) && userWordId.s in s.userWords ==>
      (s.userWords[userWordId.s].userId != caller.value <==> r == Err(Internal(PermissionDenied)))
    ensures r.Ok? <==>
      && caller.Some? && ValidRequest(userWordId, increment)
      && userWordId.s in s.userWords
      && s.userWords[userWordId.s].userId == caller.value
    ensures r.Ok? ==>
      && r.value.store.users == s.users
      && r.value.store.words == s.words
      && r.value.store.userWords.Keys == s.userWords.Keys
      && (forall id :: id in s.userWords && id != userWordId.s ==> r.value.store.userWords[id] == s.userWords[id])
      && r.value.store.userWords[userWordId.s] == Review(s.userWords[userWordId.s], increment.n, now)
      && r.value.value == UpdateReply(true, r.value.store.userWords[userWordId.s].progress)
  {
    if caller.None? then Err(Unauthenticated)
    else if !Truthy(userWordId) || !userWordId.Str? then Err(InvalidArgument)
    else if increment != Num(1) && increment != Num(-1) then Err(InvalidArgument)
    else
      var id := userWordId.s;
      if id !in s.userWords then Err(Internal(NotFound))
      else
        var w := s.userWords[id];
        if w.userId != caller.value then Err(Internal(PermissionDenied))
        else
          var w' := Review(w, increment.n, now);
          Ok(Reply(UpdateReply(true, w'.progress), s.(userWords := s.userWords[id := w'])))
  }

  /** The fields of a request; a call without an argument carries no payload at all (`data` is null). */
  datatype UpdatePayload = UpdatePayload(userWordId: Value, increment: Value)

  /**
   * The callable as deployed: after the authentication check the payload is
   * destructured outside the `try`, so a call without one fails with an
   * unwrapped `TypeError` before any field is validated; a payload missing a
   * field carries `Undefined` there.
   */
  function UpdateWordProgressCall(caller: Option<string>, data: Option<UpdatePayload>, now: Time, s: Store)
    : (r: Result<Reply<UpdateReply>, Failure>)
    ensures caller.None? <==> r == Err(Unauthenticated)
    ensures caller.Some? ==> (data.None? <==> r == Err(TypeError))
    ensures r.Ok? ==> data.Some?
    ensures data.Some? ==> r == UpdateWordProgress(caller, data.value.userWordId, data.value.increment, now, s)
  {
    if caller.None? then Err(Unauthenticated)
    else if data.None? then Err(TypeError)
    else UpdateWordProgress(caller, data.value.userWordId, data.value.increment, now, s)
  }

  /** Every tracked word keeps its score in [1, 5], and one at 5 is learned, across any update. */
  lemma UpdatePreservesWellFormed(caller: Option<string>, userWordId: Value, increment: Value, now: Time, s: Store)
    requires WellFormed(s)
    ensures var r := UpdateWordProgress(caller, userWordId, increment, now, s);
      r.Ok? ==> WellFormed(r.value.store)
  {
    var r := UpdateWordProgress(caller, userWordId, increment, now, s);
    if r.Ok? {
      var s' := r.value.store;
      forall id | id in s'.userWords
        ensures WellFormedRecord(s'.userWords[id])
      {
        if id == userWordId.s {
          assert WellFormedRecord(s.userWords[id]);
        } else {
          assert s'.userWords[id] == s.userWords[id];
        }
      }
    }
  }

  /**
   * At the top of the scale an increment changes nothing but the stamp: the
   * score stays 5, the word is learned, and repeating the call at the same
   * time gives the same store as calling it once.
   */
  lemma IncrementAtTopIsIdempotent(uid: string, id: string, now: Time, s: Store)
    requires id != "" && id in s.userWords
    requires s.userWords[id].userId == uid && s.userWords[id].progress == MaxProgress
    ensures var r := UpdateWordProgress(Some(uid), Str(id), Num(1), now, s);
      && r.Ok?
      && r.value.value == UpdateReply(true, MaxProgress)
      && r.value.store.userWords[id].learned
      && UpdateWordProgress(Some(uid), Str(id), Num(1), now, r.value.store) == Ok(Reply(UpdateReply(true, MaxProgress), r.value.store))
  {
    var r := UpdateWordProgress(Some(uid), Str(id), Num(1), now, s);
    var s1 := r.value.store;
    var w1 := s1.userWords[id];
    assert w1.lastSeenAt == Some(now);
    var r2 := UpdateWordProgress(Some(uid), Str(id), Num(1), now, s1);
    assert Review(w1, 1, now) == w1;
    assert s1.userWords[id := w1] == s1.userWords;
  }

  /**
   * A word never shown before that gets an increment from 4 is promoted to
   * learned and flagged as already known.
   */
  lemma FirstIncrementFromFour(uid: string, id: string, now: Time, s: Store)
    requires id != "" && id in s.userWords
    requires s.userWords[id].userId == uid && s.userWords[id].progress == 4 && s.userWords[id].lastSeenAt.None?
    ensures var r := UpdateWordProgress(Some(uid), Str(id), Num(1), now, s);
      && r.Ok?
      && r.value.value.newProgress == 5
      && r.value.store.userWords[id].learned
      && r.value.store.userWords[id].alreadyKnown == Some(true)
      && r.value.store.userWords[id].lastSeenAt == Some(now)
  {
  }

  /** On a score within bounds a decrement leaves both flags as they were: `learned` is never cleared. */
  lemma DecrementKeepsFlags(w: UserWord, now: Time)
    requires w.progress <= MaxProgress
    ensures Review(w, -1, now).learned == w.learned
    ensures Review(w, -1, now).alreadyKnown == w.alreadyKnown
  {
  }
}
