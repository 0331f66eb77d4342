/** A user's bookmarks, progress and vocabulary, and the event log that mirrors them.
    A transaction is a list of statement groups that all succeed or leave no trace. */
module UserData {
  import opened Common
  import opened SequenceLog
  import opened LastWriter

  type UserId = nat
  type ContentId = nat
  type EntryId = nat

  /** The column default '1970-01-01T00:00:00Z', as the zero of client time. */
  const EPOCH: Time := 0

  const NIL: EntryId := 0

  datatype Playback = Playback(seconds: int, completed: bool)

  datatype ReviewState = ReviewState(stage: int, reviewCount: int, lapseCount: int, dueAt: Time,
      lastReviewedAt: Option<Time>)

  datatype Entry = Entry(
    user: UserId, word: string, normalized: string, definition: Option<string>, context: Option<string>,
    content: Option<ContentId>, title: Option<string>, createdAt: Time, review: Stamped<ReviewState>)

  datatype EntityType = Bookmark | ProgressOf | Vocabulary

  datatype Operation = Upsert | Delete

  datatype Event = Event(entity: EntityType, id: nat, operation: Operation)

  datatype Tables = Tables(
    users: set<UserId>,
    contents: set<ContentId>,
    bookmarks: set<(UserId, ContentId)>,
    progress: map<(UserId, ContentId), Stamped<Playback>>,
    vocabulary: map<EntryId, Entry>,
    words: map<(UserId, string), EntryId>, // the UNIQUE (user_id, normalized_word) index
    events: seq<Slot<UserId, Event>>)

  const EMPTY := Tables({}, {}, {}, map[], map[], map[], [])

  datatype ProgressInput = ProgressInput(content: ContentId, position: Playback, at: Time)

  /** None is a zero time. */
  datatype ReviewInput = ReviewInput(
    stage: int, reviewCount: int, lapseCount: int, dueAt: Option<Time>, lastReviewedAt: Option<Time>, at: Option<Time>)

  /** Texts are trimmed; `normalized` is what NormalizeVocabularyWord answers and `fits`
      the outcome of the length checks. */
  datatype VocabularyInput = VocabularyInput(
    id: EntryId, word: string, normalized: Option<string>, fits: bool, definition: string, context: string,
    content: Option<ContentId>, title: string, createdAt: Option<Time>, review: Option<ReviewInput>)

  /** The units transactions are made of; each appends its own event. */
  datatype Statement =
    | CreateUser(user: UserId)
    | PutBookmark(user: UserId, content: ContentId, enabled: bool)
    | PutProgress(user: UserId, progress: ProgressInput)
    | PutVocabulary(user: UserId, entry: VocabularyInput, now: Time)
    | PutReview(user: UserId, id: EntryId, review: ReviewInput)
    | DropVocabulary(user: UserId, id: EntryId)
    | DropUser(user: UserId)
    | AddContent(content: ContentId)

  // ---------- rows ----------

  function Logged(t: Tables, user: UserId, entity: EntityType, id: nat, operation: Operation): Tables {
    t.(events := t.events + [Row(user, Event(entity, id, operation))])
  }

  /** The CASE per column of UpsertProgress. */
  function MergedProgress(stored: Stamped<Playback>, seconds: int, completed: bool, at: Time): Stamped<Playback> {
    Stamped(Playback(if stored.at <= at then seconds else stored.value.seconds,
                     if stored.at <= at then completed else stored.value.completed),
            Max(stored.at, at))
  }

  /** validateVocabularyReview. */
  predicate ValidReview(input: ReviewInput) {
    && 0 <= input.stage <= 6 && 0 <= input.lapseCount <= input.reviewCount
    && input.dueAt.Some? && input.at.Some?
    && (input.reviewCount > 0 ==> input.lastReviewedAt.Some?)
  }

  /** The CASE per column of UpdateVocabularyReview. */
  function MergedReview(stored: Stamped<ReviewState>, input: ReviewInput): Stamped<ReviewState>
    requires ValidReview(input)
  {
    var newer := stored.at <= input.at.value;
    Stamped(ReviewState(if newer then input.stage else stored.value.stage,
                        if newer then input.reviewCount else stored.value.reviewCount,
                        if newer then input.lapseCount else stored.value.lapseCount,
                        if newer then input.dueAt.value else stored.value.dueAt,
                        if newer then input.lastReviewedAt else stored.value.lastReviewedAt),
            Max(stored.at, input.at.value))
  }

  /** NULLIF(text, ''). */
  function NonEmpty(s: string): Option<string> { if s == "" then None else Some(s) }

  function Coalesce<T>(a: Option<T>, b: Option<T>): Option<T> { if a.Some? then a else b }

  /** The column defaults of an entry nobody has reviewed. */
  function Unreviewed(now: Time): Stamped<ReviewState> { Stamped(ReviewState(0, 0, 0, now, None), EPOCH) }

  function NewEntry(user: UserId, input: VocabularyInput, normalized: string, now: Time): Entry {
    Entry(user, input.word, normalized, NonEmpty(input.definition), NonEmpty(input.context), input.content,
          NonEmpty(input.title), if input.createdAt.Some? then input.createdAt.value else now, Unreviewed(now))
  }

  /** The DO UPDATE of UpsertVocabularyEntry. */
  function MergedEntry(stored: Entry, incoming: Entry): Entry {
    stored.(word := incoming.word,
            definition := Coalesce(incoming.definition, stored.definition),
            context := Coalesce(incoming.context, stored.context),
            content := Coalesce(incoming.content, stored.content),
            title := Coalesce(incoming.title, stored.title),
            createdAt := Min(stored.createdAt, incoming.createdAt))
  }

  predicate AcceptsEntry(t: Tables, user: UserId, input: VocabularyInput) {
    && user in t.users && input.normalized.Some? && input.id != NIL && input.fits
    && (input.content.Some? ==> input.content.value in t.contents)
    && (input.review.Some? ==> ValidReview(input.review.value))
    && ((user, input.normalized.value) in t.words || input.id !in t.vocabulary)
  }

  /** The id the upsert returns: the row of the word, or the new one. */
  function EntryRow(t: Tables, user: UserId, input: VocabularyInput): EntryId
    requires input.normalized.Some?
  {
    var word := (user, input.normalized.value);
    if word in t.words then t.words[word] else input.id
  }

  /** The row upsertVocabulary leaves. */
  function StoredEntry(t: Tables, user: UserId, input: VocabularyInput, now: Time): Entry
    requires AcceptsEntry(t, user, input)
  {
    var id := EntryRow(t, user, input);
    var incoming := NewEntry(user, input, input.normalized.value, now);
    var entry := if id in t.vocabulary then MergedEntry(t.vocabulary[id], incoming) else incoming;
    match input.review
    case None => entry
    case Some(review) => entry.(review := MergedReview(entry.review, review))
  }

  // ---------- statements ----------

  /** DELETE FROM users cascades to every row of the user's, events included. */
  function WithoutUser(t: Tables, user: UserId): Tables {
    t.(users := t.users - {user},
       bookmarks := (set b | b in t.bookmarks && b.0 != user),
       progress := (map k | k in t.progress && k.0 != user :: t.progress[k]),
       vocabulary := (map e | e in t.vocabulary && t.vocabulary[e].user != user :: t.vocabulary[e]),
       words := (map k | k in t.words && k.0 != user :: t.words[k]),
       events := Erased(t.events, user))
  }

  function Erased(events: seq<Slot<UserId, Event>>, user: UserId): (r: seq<Slot<UserId, Event>>)
    ensures |r| == |events|
    ensures forall i :: 0 <= i < |r| ==>
              r[i] == if events[i].Row? && events[i].owner == user then Empty else events[i]
  {
    seq(|events|, i requires 0 <= i < |events| =>
      if events[i].Row? && events[i].owner == user then Empty else events[i])
  }

  function PutBookmarkIn(t: Tables, user: UserId, content: ContentId, enabled: bool): Option<Tables> {
    if user !in t.users || (enabled && content !in t.contents) then None
    else if enabled then
      Some(Logged(t.(bookmarks := t.bookmarks + {(user, content)}), user, Bookmark, content, Upsert))
    else
      Some(Logged(t.(bookmarks := t.bookmarks - {(user, content)}), user, Bookmark, content, Delete))
  }

  function PutProgressIn(t: Tables, user: UserId, input: ProgressInput): Option<Tables> {
    if user !in t.users || input.content !in t.contents || input.position.seconds < 0 then None
    else
      var key := (user, input.content);
      var row := if key in t.progress
                 then MergedProgress(t.progress[key], input.position.seconds, input.position.completed, input.at)
                 else Stamped(input.position, input.at);
      Some(Logged(t.(progress := t.progress[key := row]), user, ProgressOf, input.content, Upsert))
  }

  /** upsertVocabulary. */
  function PutVocabularyIn(t: Tables, user: UserId, input: VocabularyInput, now: Time): Option<Tables> {
    if !AcceptsEntry(t, user, input) then None
    else
      var id := EntryRow(t, user, input);
      Some(Logged(t.(vocabulary := t.vocabulary[id := StoredEntry(t, user, input, now)],
                     words := t.words[(user, input.normalized.value) := id]), user, Vocabulary, id, Upsert))
  }

  /** SetVocabularyReview. */
  function PutReviewIn(t: Tables, user: UserId, id: EntryId, input: ReviewInput): Option<Tables> {
    if !ValidReview(input) || id !in t.vocabulary || t.vocabulary[id].user != user then None
    else
      var row := t.vocabulary[id].(review := MergedReview(t.vocabulary[id].review, input));
      Some(Logged(t.(vocabulary := t.vocabulary[id := row]), user, Vocabulary, id, Upsert))
  }

  /** DeleteVocabulary writes its event whether or not the user has the row. */
  function DropVocabularyIn(t: Tables, user: UserId, id: EntryId): Option<Tables> {
    if user !in t.users then None
    else if id in t.vocabulary && t.vocabulary[id].user == user then
      Some(Logged(t.(vocabulary := t.vocabulary - {id}, words := t.words - {(user, t.vocabulary[id].normalized)}),
                  user, Vocabulary, id, Delete))
    else Some(Logged(t, user, Vocabulary, id, Delete))
  }

  /** None is an error: a row that references a missing user or content, a rejected value,
      an id already taken, an entry not found. */
  function Exec(t: Tables, s: Statement): Option<Tables> {
    match s
    case CreateUser(user) => Some(t.(users := t.users + {user}))
    case AddContent(content) => Some(t.(contents := t.contents + {content}))
    case PutBookmark(user, content, enabled) => PutBookmarkIn(t, user, content, enabled)
    case PutProgress(user, input) => PutProgressIn(t, user, input)
    case PutVocabulary(user, input, now) => PutVocabularyIn(t, user, input, now)
    case PutReview(user, id, input) => PutReviewIn(t, user, id, input)
    case DropVocabulary(user, id) => DropVocabularyIn(t, user, id)
    case DropUser(user) => Some(WithoutUser(t, user))
  }

  // ---------- transactions and runs ----------

  function ExecAll(t: Tables, script: seq<Statement>): Option<Tables> {
    if script == [] then Some(t)
    else match ExecAll(t, script[..|script| - 1])
      case None => None
      case Some(u) => Exec(u, script[|script| - 1])
  }

  /** A failing statement rolls its transaction back. */
  function Commit(t: Tables, script: seq<Statement>): Tables {
    match ExecAll(t, script)
    case None => t
    case Some(u) => u
  }

  function Run(transactions: seq<seq<Statement>>): Tables {
    if transactions == [] then EMPTY
    else Commit(Run(transactions[..|transactions| - 1]), transactions[|transactions| - 1])
  }

  /** The statements that took effect. */
  function Committed(transactions: seq<seq<Statement>>): seq<Statement> {
    if transactions == [] then []
    else
      var n := |transactions| - 1;
      Committed(transactions[..n])
      + if ExecAll(Run(transactions[..n]), transactions[n]).Some? then transactions[n] else []
  }

  datatype Migration = Migration(bookmarks: seq<ContentId>, progress: seq<ProgressInput>,
      vocabulary: seq<VocabularyInput>)

  function BookmarkScript(user: UserId, contents: seq<ContentId>): seq<Statement> {
    seq(|contents|, i requires 0 <= i < |contents| => PutBookmark(user, contents[i], true))
  }

  function ProgressScript(user: UserId, inputs: seq<ProgressInput>): seq<Statement> {
    seq(|inputs|, i requires 0 <= i < |inputs| => PutProgress(user, inputs[i]))
  }

  function VocabularyScript(user: UserId, entries: seq<VocabularyInput>, now: Time): seq<Statement> {
    seq(|entries|, i requires 0 <= i < |entries| => PutVocabulary(user, entries[i], now))
  }

  /** createLogin. */
  function LoginScript(user: UserId, m: Migration, now: Time): seq<Statement> {
    [CreateUser(user)] + BookmarkScript(user, m.bookmarks) + ProgressScript(user, m.progress)
    + VocabularyScript(user, m.vocabulary, now)
  }
}
