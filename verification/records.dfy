/**
 * The record families of the current handlers (`users`, `words`, `userWords`),
 * the store holding them, the error kinds the handlers raise, and the user lookup.
 */
module Records {
  import opened Wrappers

  /** A store timestamp, in milliseconds since the epoch. */
  type Time = int

  /** A document id. */
  type Id = string

  /** Number of words a learning set holds (`wordLimit`). */
  const BatchSize: nat := 5

  /** A tracked word is due again once it was last seen more than this long ago. */
  const DueAfterMs: int := 15 * 60 * 1000

  /** Page size of the user-word pager when the request names none. */
  const DefaultPageSize: nat := 10

  /** Bounds of the progress score. */
  const MinProgress: int := 1
  const MaxProgress: int := 5

  /** A catalog word: its level, its position within the level, and its display content. */
  datatype Word = Word(difficulty: string, index: int, content: string)

  /**
   * A tracked word: the learning state of one user for one catalog word.
   * `word` is the id of the `words` document it references.
   * `lastSeenAt == None` is a stored `null`; `alreadyKnown == None` is a
   * document that has no `alreadyKnown` field at all.
   */
  datatype UserWord = UserWord(
    userId: string,
    word: Id,
    difficulty: string,
    progress: int,
    lastSeenAt: Option<Time>,
    learned: bool,
    alreadyKnown: Option<bool>)

  /** A user: its proficiency level and the per-level reading cursor `nextWords`. */
  datatype User = User(uid: string, skillLevel: string, nextWords: seq<int>)

  /** The three collections; `users` is keyed by the user's uid, which is also its document id. */
  datatype Store = Store(users: map<string, User>, words: map<Id, Word>, userWords: map<Id, UserWord>)

  /**
   * What a handler raises. `Internal(cause)` is an error caught by a handler's
   * `catch` and rethrown as "internal"; `StoreRejected` is a query or write the
   * store refuses (an `undefined` filter value, an unusable limit);
   * `TypeError` is a dereference of `undefined`.
   */
  datatype Failure =
    | Unauthenticated
    | InvalidArgument
    | NotFound
    | PermissionDenied
    | StoreRejected
    | TypeError
    | Internal(cause: Failure)

  /** A successful handler call: its response and the store after its writes. */
  datatype Reply<R> = Reply(value: R, store: Store)

  /**
   * `fetchUser`: the user whose `uid` matches. On no match the code reads
   * `docs[0].exists` of an empty result, which raises a TypeError rather than
   * a clean not-found.
   */
  function FetchUser(users: map<string, User>, uid: string): (r: Result<User, Failure>)
    ensures r.Ok? <==> uid in users
    ensures r.Ok? ==> r.value == users[uid]
    ensures r.Err? ==> r.error == TypeError
  {
    if uid in users then Ok(users[uid]) else Err(TypeError)
  }

  /** The catalog word a record references; a dangling reference joins as `undefined` (`None`). */
  function LookupWord(words: map<Id, Word>, id: Id): Option<Word> {
    if id in words then Some(words[id]) else None
  }

  /** The invariant every tracked word keeps: progress within bounds, and at the top only once learned. */
  predicate WellFormedRecord(w: UserWord) {
    MinProgress <= w.progress <= MaxProgress && (w.progress == MaxProgress ==> w.learned)
  }

  /** Every tracked word keeps `WellFormedRecord`, and every user is filed under its own uid. */
  predicate WellFormed(s: Store) {
    && (forall id :: id in s.userWords ==> WellFormedRecord(s.userWords[id]))
    && (forall u :: u in s.users ==> s.users[u].uid == u)
  }
}
