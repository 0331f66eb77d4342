/** What every run of user transactions keeps: the event log determines the bookmarks and
    the vocabulary, progress and reviews are the latest writes, entries keep their ids. */
module UserTheorems {
  import opened Common
  import opened SequenceLog
  import opened LastWriter
  import opened UserData

  // ---------- runs are their committed statements ----------

  lemma {:induction false} ScriptsCompose(t: Tables, a: seq<Statement>, b: seq<Statement>)
    ensures ExecAll(t, a + b) == match ExecAll(t, a) case None => None case Some(u) => ExecAll(u, b)
    decreases |b|
  {
    if b == [] {
      assert a + b == a;
    } else {
      assert (a + b)[..|a + b| - 1] == a + b[..|b| - 1];
      ScriptsCompose(t, a, b[..|b| - 1]);
    }
  }

  lemma Single(t: Tables, s: Statement)
    ensures ExecAll(t, [s]) == Exec(t, s)
  {
    assert [s][..0] == [];
  }

  lemma OneMore(run: seq<seq<Statement>>, transaction: seq<Statement>)
    ensures Run(run + [transaction]) == Commit(Run(run), transaction)
    ensures Committed(run + [transaction]) == Committed(run)
        + if ExecAll(Run(run), transaction).Some? then transaction else []
  {
    assert (run + [transaction])[..|run|] == run;
  }

  /** Rolled-back transactions leave no trace: a run is its committed statements in order. */
  lemma {:induction false} RunIsItsCommits(transactions: seq<seq<Statement>>)
    ensures ExecAll(EMPTY, Committed(transactions)) == Some(Run(transactions))
  {
    if transactions != [] {
      var n := |transactions| - 1;
      RunIsItsCommits(transactions[..n]);
      ScriptsCompose(EMPTY, Committed(transactions[..n]), transactions[n]);
      assert Committed(transactions[..n]) + [] == Committed(transactions[..n]);
    }
  }

  /** The tables a history of statements leads to. */
  ghost predicate Leads(history: seq<Statement>, t: Tables) {
    ExecAll(EMPTY, history) == Some(t)
  }

  lemma Before(history: seq<Statement>, t: Tables) returns (s: Tables)
    requires history != [] && Leads(history, t)
    ensures Leads(history[..|history| - 1], s) && Exec(s, history[|history| - 1]) == Some(t)
  {
    s := ExecAll(EMPTY, history[..|history| - 1]).value;
  }

  // ---------- rows ----------

  ghost predicate WellReviewed(r: ReviewState) {
    0 <= r.stage <= 6 && 0 <= r.lapseCount <= r.reviewCount && (r.reviewCount > 0 ==> r.lastReviewedAt.Some?)
  }

  ghost predicate OwnedInv(t: Tables) {
    && (forall b :: b in t.bookmarks ==> b.0 in t.users && b.1 in t.contents)
    && (forall k :: k in t.progress ==> k.0 in t.users && k.1 in t.contents && t.progress[k].value.seconds >= 0)
    && (forall id :: id in t.vocabulary ==> id != NIL && t.vocabulary[id].user in t.users)
  }

  ghost predicate ReviewInv(t: Tables) {
    forall id :: id in t.vocabulary ==>
      WellReviewed(t.vocabulary[id].review.value) && t.vocabulary[id].review.at >= EPOCH
  }

  /** The index holds one id for each word of each user, and nothing else. */
  ghost predicate WordsInv(t: Tables) {
    && (forall id :: id in t.vocabulary ==>
          var word := (t.vocabulary[id].user, t.vocabulary[id].normalized);
          word in t.words && t.words[word] == id)
    && (forall w :: w in t.words ==>
          var id := t.words[w];
          id in t.vocabulary && t.vocabulary[id].user == w.0 && t.vocabulary[id].normalized == w.1)
  }

  ghost predicate Inv(t: Tables) { OwnedInv(t) && ReviewInv(t) && WordsInv(t) }

  /** The upsert stores the entry of the word it was asked for. */
  lemma StoredUnderItsWord(t: Tables, user: UserId, input: VocabularyInput, now: Time)
    requires Inv(t) && AcceptsEntry(t, user, input)
    ensures var e := StoredEntry(t, user, input, now);
      && e.user == user && e.normalized == input.normalized.value && EntryRow(t, user, input) != NIL
      && WellReviewed(e.review.value) && e.review.at >= EPOCH
  {
  }

  lemma VocabularyKeepsInv(t: Tables, user: UserId, input: VocabularyInput, now: Time, u: Tables)
    requires Inv(t) && PutVocabularyIn(t, user, input, now) == Some(u)
    ensures Inv(u)
  {
    StoredUnderItsWord(t, user, input, now);
    var (id, word, e) := (EntryRow(t, user, input), (user, input.normalized.value), StoredEntry(t, user, input, now));
    assert u.vocabulary == t.vocabulary[id := e] && u.words == t.words[word := id] && user in t.users;
    assert u.users == t.users && u.contents == t.contents && u.bookmarks == t.bookmarks && u.progress == t.progress;
    assert id in t.vocabulary ==> (t.vocabulary[id].user, t.vocabulary[id].normalized) == word;
    assert word in t.words ==> t.words[word] == id;
    assert OwnedInv(t) && ReviewInv(t) && WordsInv(t);
    hide *;
    PutKeepsOwned(t, id, e, u);
    PutKeepsReviews(t, id, e, u);
    PutKeepsWords(t, id, word, e, u);
    assert Inv(u) by { InvIsItsParts(u); }
  }

  lemma InvIsItsParts(t: Tables)
    requires OwnedInv(t) && ReviewInv(t) && WordsInv(t)
    ensures Inv(t)
  {
  }

  lemma PutKeepsOwned(t: Tables, id: EntryId, e: Entry, u: Tables)
    requires OwnedInv(t) && id != NIL && e.user in t.users && u.vocabulary == t.vocabulary[id := e]
    requires u.users == t.users && u.contents == t.contents && u.bookmarks == t.bookmarks && u.progress == t.progress
    ensures OwnedInv(u)
  {
  }

  lemma PutKeepsReviews(t: Tables, id: EntryId, e: Entry, u: Tables)
    requires ReviewInv(t) && u.vocabulary == t.vocabulary[id := e]
    requires WellReviewed(e.review.value) && e.review.at >= EPOCH
    ensures ReviewInv(u)
  {
    hide WellReviewed;
  }

  lemma PutKeepsWords(t: Tables, id: EntryId, word: (UserId, string), e: Entry, u: Tables)
    requires WordsInv(t) && (e.user, e.normalized) == word
    requires u.vocabulary == t.vocabulary[id := e] && u.words == t.words[word := id]
    requires id in t.vocabulary ==> (t.vocabulary[id].user, t.vocabulary[id].normalized) == word
    requires word in t.words ==> t.words[word] == id
    ensures WordsInv(u)
  {
  }

  lemma DropVocabularyKeepsInv(t: Tables, user: UserId, id: EntryId, u: Tables)
    requires Inv(t) && DropVocabularyIn(t, user, id) == Some(u)
    ensures Inv(u)
  {
  }

  lemma ReviewKeepsInv(t: Tables, user: UserId, id: EntryId, input: ReviewInput, u: Tables)
    requires Inv(t) && PutReviewIn(t, user, id, input) == Some(u)
    ensures Inv(u)
  {
  }

  lemma DeletionKeepsInv(t: Tables, user: UserId)
    requires Inv(t)
    ensures Inv(WithoutUser(t, user))
  {
  }

  lemma StatementKeepsInv(t: Tables, s: Statement, u: Tables)
    requires Inv(t) && Exec(t, s) == Some(u)
    ensures Inv(u)
  {
    hide PutVocabularyIn, PutReviewIn, DropVocabularyIn, WithoutUser;
    match s
    case PutVocabulary(user, input, now) => VocabularyKeepsInv(t, user, input, now, u);
    case PutReview(user, id, input) => ReviewKeepsInv(t, user, id, input, u);
    case DropVocabulary(user, id) => DropVocabularyKeepsInv(t, user, id, u);
    case DropUser(user) => DeletionKeepsInv(t, user);
    case PutBookmark(_, _, _) => assert u.vocabulary == t.vocabulary;
    case PutProgress(_, _) => assert u.vocabulary == t.vocabulary;
    case CreateUser(_) =>
    case AddContent(_) =>
  }

  lemma {:induction false} HistoryKeepsInv(history: seq<Statement>, t: Tables)
    requires Leads(history, t)
    ensures Inv(t)
    decreases |history|
  {
    if history != [] {
      var s := Before(history, t);
      HistoryKeepsInv(history[..|history| - 1], s);
      StatementKeepsInv(s, history[|history| - 1], t);
    }
  }

  /** In every reachable state: rows belong to users and contents that exist, a word is in a
      user's book once, and no review has more lapses than reviews. */
  lemma RunKeepsInv(transactions: seq<seq<Statement>>)
    ensures Inv(Run(transactions))
    ensures var book := Run(transactions).vocabulary;
      forall a, b :: a in book && b in book && a != b ==>
        book[a].user != book[b].user || book[a].normalized != book[b].normalized
  {
    RunIsItsCommits(transactions);
    HistoryKeepsInv(Committed(transactions), Run(transactions));
  }

  ghost predicate Forgets(s: Statement, id: EntryId, user: UserId) {
    s == DropVocabulary(user, id) || s == DropUser(user)
  }

  /** Whatever else is written, an entry keeps its id, owner and word; what it says about
      the word is not blanked, and its review never goes back in client time. */
  lemma EntriesKeepTheirIds(t: Tables, s: Statement, u: Tables, id: EntryId)
    requires Inv(t) && Exec(t, s) == Some(u) && id in t.vocabulary && !Forgets(s, id, t.vocabulary[id].user)
    ensures id in u.vocabulary
    ensures var (before, now) := (t.vocabulary[id], u.vocabulary[id]);
      && now.user == before.user && now.normalized == before.normalized
      && (before.definition.Some? ==> now.definition.Some?) && (before.context.Some? ==> now.context.Some?)
      && (before.content.Some? ==> now.content.Some?) && (before.title.Some? ==> now.title.Some?)
      && now.createdAt <= before.createdAt && before.review.at <= now.review.at
  {
    hide ReviewInv, OwnedInv;
    if s.PutVocabulary? {
      var (row, written) := (EntryRow(t, s.user, s.entry), StoredEntry(t, s.user, s.entry, s.now));
      assert u.vocabulary == t.vocabulary[row := written];
      if row == id { KnownWordIsMerged(t, s.user, s.entry, s.now); }
      hide Exec, PutVocabularyIn, StoredEntry, WordsInv;
    } else {
      hide WordsInv, PutVocabularyIn;
    }
  }

  lemma KnownWordIsMerged(t: Tables, user: UserId, input: VocabularyInput, now: Time)
    requires WordsInv(t) && AcceptsEntry(t, user, input) && EntryRow(t, user, input) in t.vocabulary
    ensures var (before, after) := (t.vocabulary[EntryRow(t, user, input)], StoredEntry(t, user, input, now));
      && after.user == before.user && after.normalized == before.normalized
      && (before.definition.Some? ==> after.definition.Some?) && (before.context.Some? ==> after.context.Some?)
      && (before.content.Some? ==> after.content.Some?) && (before.title.Some? ==> after.title.Some?)
      && after.createdAt <= before.createdAt && before.review.at <= after.review.at
  {
    hide WordsInv;
  }

  /** Saving a known word again writes its old row, under whatever id it is sent; only a new
      word takes the id, and no other row changes. */
  lemma UpsertReusesTheRow(t: Tables, user: UserId, input: VocabularyInput, now: Time, u: Tables)
    requires Inv(t) && Exec(t, PutVocabulary(user, input, now)) == Some(u)
    ensures var id := EntryRow(t, user, input);
      && u.vocabulary.Keys == t.vocabulary.Keys + {id}
      && (forall other :: other in t.vocabulary && other != id ==> u.vocabulary[other] == t.vocabulary[other])
      && (id in t.vocabulary <==>
          exists e :: e in t.vocabulary &&
            (t.vocabulary[e].user, t.vocabulary[e].normalized) == (user, input.normalized.value))
      && (id !in t.vocabulary ==> id == input.id)
      && u.vocabulary[id].user == user && u.vocabulary[id].normalized == input.normalized.value
  {
  }

  // ---------- the event log ----------

  /** What a client believes a user has saved. */
  datatype Mirror = Mirror(bookmarks: set<ContentId>, vocabulary: set<EntryId>)

  function Absorb(m: Mirror, e: Event): Mirror {
    match (e.entity, e.operation)
    case (Bookmark, Upsert) => m.(bookmarks := m.bookmarks + {e.id})
    case (Bookmark, Delete) => m.(bookmarks := m.bookmarks - {e.id})
    case (Vocabulary, Upsert) => m.(vocabulary := m.vocabulary + {e.id})
    case (Vocabulary, Delete) => m.(vocabulary := m.vocabulary - {e.id})
    case (ProgressOf, _) => m
  }

  function Replay(rows: seq<Numbered<UserId, Event>>): Mirror {
    if rows == [] then Mirror({}, {})
    else Absorb(Replay(rows[..|rows| - 1]), rows[|rows| - 1].body)
  }

  /** What the user has saved. */
  function Saved(t: Tables, user: UserId): Mirror {
    Mirror(set b | b in t.bookmarks && b.0 == user :: b.1, set id | id in t.vocabulary && t.vocabulary[id].user == user)
  }

  function Feed(t: Tables, user: UserId): seq<Numbered<UserId, Event>> {
    After(t.events, {user}, 0, |t.events|)
  }

  /** The event a statement appends. */
  function EventOf(t: Tables, s: Statement): Option<Event>
    requires Exec(t, s).Some?
  {
    match s
    case PutBookmark(_, content, enabled) => Some(Event(Bookmark, content, if enabled then Upsert else Delete))
    case PutProgress(_, input) => Some(Event(ProgressOf, input.content, Upsert))
    case PutVocabulary(user, input, _) => Some(Event(Vocabulary, EntryRow(t, user, input), Upsert))
    case PutReview(_, id, _) => Some(Event(Vocabulary, id, Upsert))
    case DropVocabulary(_, id) => Some(Event(Vocabulary, id, Delete))
    case _ => None
  }

  /** The step of the mirror: a statement's event says exactly how the saved rows change. */
  lemma StatementIsMirrored(t: Tables, s: Statement, u: Tables, user: UserId)
    requires Inv(t) && Exec(t, s) == Some(u) && s != DropUser(user)
    ensures Saved(u, user) == if EventOf(t, s).Some? && s.user == user then Absorb(Saved(t, user), EventOf(t, s).value)
                              else Saved(t, user)
  {
    hide PutVocabularyIn, PutBookmarkIn;
    if s.PutVocabulary? {
      VocabularyIsMirrored(t, s.user, s.entry, s.now, u, user);
    } else if s.PutBookmark? {
      BookmarkIsMirrored(t, s.user, s.content, s.enabled, u, user);
    } else {
      hide Inv;
    }
  }

  lemma VocabularyIsMirrored(t: Tables, owner: UserId, input: VocabularyInput, now: Time, u: Tables, user: UserId)
    requires Inv(t) && PutVocabularyIn(t, owner, input, now) == Some(u)
    ensures Saved(u, user).bookmarks == Saved(t, user).bookmarks
    ensures Saved(u, user).vocabulary == Saved(t, user).vocabulary + if owner == user then {EntryRow(t, owner, input)}
        else {}
  {
    StoredUnderItsWord(t, owner, input, now);
    var id := EntryRow(t, owner, input);
    assert id in t.vocabulary ==> t.vocabulary[id].user == owner;
    hide StoredEntry, Inv, EntryRow;
  }

  lemma BookmarkIsMirrored(t: Tables, owner: UserId, content: ContentId, enabled: bool, u: Tables, user: UserId)
    requires PutBookmarkIn(t, owner, content, enabled) == Some(u)
    ensures Saved(u, user).vocabulary == Saved(t, user).vocabulary
    ensures Saved(u, user).bookmarks ==
            if owner != user then Saved(t, user).bookmarks
            else if enabled then Saved(t, user).bookmarks + {content}
            else Saved(t, user).bookmarks - {content}
  {
    assert forall b: (UserId, ContentId) :: b != (owner, content) ==> (b in u.bookmarks <==> b in t.bookmarks);
  }

  lemma EventIsAppended(t: Tables, s: Statement, u: Tables)
    requires Exec(t, s) == Some(u) && !s.DropUser?
    ensures u.events == t.events + if EventOf(t, s).Some? then [Row(s.user, EventOf(t, s).value)] else []
  {
  }

  lemma FeedGrows(t: Tables, s: Statement, u: Tables, user: UserId)
    requires Exec(t, s) == Some(u) && s != DropUser(user)
    ensures Replay(Feed(u, user)) ==
            if EventOf(t, s).Some? && s.user == user then Absorb(Replay(Feed(t, user)), EventOf(t, s).value)
            else Replay(Feed(t, user))
  {
    if s.DropUser? {
      AfterIgnores(t.events, u.events, {user}, 0, |t.events|);
    } else {
      EventIsAppended(t, s, u);
      hide Exec;
      if EventOf(t, s).Some? {
        var (feed, e) := (Feed(t, user), EventOf(t, s).value);
        AfterGrows(t.events, Row(s.user, e), {user}, 0, |t.events| + 1);
        var row := Numbered(|t.events| + 1, s.user, e);
        assert s.user != user ==> Feed(u, user) == feed;
        assert s.user == user ==> Feed(u, user) == feed + [row] && (feed + [row])[..|feed|] == feed;
      }
    }
  }

  /** Deletion leaves nothing of a user and takes nothing from anybody else. */
  lemma DeletionIsComplete(t: Tables, user: UserId, other: UserId)
    requires Inv(t) && user != other
    ensures var u := WithoutUser(t, user);
      && Saved(u, user) == Mirror({}, {}) && Feed(u, user) == [] && (forall k :: k in u.progress ==> k.0 != user)
      && Saved(u, other) == Saved(t, other) && Feed(u, other) == Feed(t, other)
      && (forall k: (UserId, ContentId) :: k.0 == other ==>
          (k in u.progress <==> k in t.progress) && (k in t.progress ==> u.progress[k] == t.progress[k]))
  {
    var u := WithoutUser(t, user);
    AfterNobody(u.events, {user}, 0, |u.events|);
    AfterIgnores(t.events, u.events, {other}, 0, |t.events|);
    StatementIsMirrored(t, DropUser(user), u, other);
  }

  lemma {:induction false} HistoryIsMirrored(history: seq<Statement>, t: Tables, user: UserId)
    requires Leads(history, t)
    ensures Replay(Feed(t, user)) == Saved(t, user)
    decreases |history|
  {
    if history != [] {
      var s := Before(history, t);
      var last := history[|history| - 1];
      HistoryIsMirrored(history[..|history| - 1], s, user);
      HistoryKeepsInv(history[..|history| - 1], s);
      if last == DropUser(user) {
        DeletionIsComplete(s, user, user + 1);
      } else {
        FeedGrows(s, last, t, user);
        StatementIsMirrored(s, last, t, user);
      }
    }
  }

  /** The log determines the tables: replaying a user's events in sequence order gives the
      bookmarks and vocabulary rows the user has, after any run of transactions. */
  lemma LogDeterminesTables(transactions: seq<seq<Statement>>, user: UserId)
    ensures Replay(Feed(Run(transactions), user)) == Saved(Run(transactions), user)
  {
    RunIsItsCommits(transactions);
    HistoryIsMirrored(Committed(transactions), Run(transactions), user);
  }

  // ---------- clients of /me/sync ----------

  /** The user's part of a log only grows. */
  ghost predicate Extends(log: seq<Slot<UserId, Event>>, later: seq<Slot<UserId, Event>>, user: UserId) {
    |log| <= |later|
    && forall i :: 0 <= i < |log| && log[i] != later[i] ==>
         (log[i].Row? ==> log[i].owner != user) && (later[i].Row? ==> later[i].owner != user)
  }

  lemma {:induction false} LogExtends(t: Tables, script: seq<Statement>, user: UserId)
    requires ExecAll(t, script).Some? && DropUser(user) !in script
    ensures Extends(t.events, ExecAll(t, script).value.events, user)
    decreases |script|
  {
    if script != [] {
      var n := |script| - 1;
      LogExtends(t, script[..n], user);
      var u := ExecAll(t, script[..n]).value;
      assert script[n] in script;
      EventsExtend(u, script[n], Exec(u, script[n]).value, user);
    }
  }

  lemma EventsExtend(t: Tables, s: Statement, u: Tables, user: UserId)
    requires Exec(t, s) == Some(u) && s != DropUser(user)
    ensures Extends(t.events, u.events, user)
  {
    if s.DropUser? {
      assert forall i :: 0 <= i < |t.events| ==> u.events[i] == Erased(t.events, s.user)[i];
    } else {
      assert |t.events| <= |u.events| && t.events == u.events[..|t.events|];
    }
  }

  lemma {:induction false} CommittedGrows(a: seq<seq<Statement>>, b: seq<seq<Statement>>)
    ensures exists more ::
      && Committed(a + b) == Committed(a) + more
      && forall s :: s in more ==> exists i :: 0 <= i < |b| && s in b[i]
    decreases |b|
  {
    hide ExecAll, Run;
    if b == [] {
      assert a + b == a && Committed(a + b) == Committed(a) + [];
    } else {
      var n := |b| - 1;
      CommittedGrows(a, b[..n]);
      assert (a + b)[..|a + b| - 1] == a + b[..n];
      var more :| Committed(a + b[..n]) == Committed(a) + more && forall s :: s in more ==>
          exists i :: 0 <= i < |b[..n]| && s in b[..n][i];
      var last := if ExecAll(Run(a + b[..n]), b[n]).Some? then b[n] else [];
      assert Committed(a + b) == Committed(a) + (more + last);
    }
  }

  /** A client that reads to the end, stays away for any run of transactions, and reads on
      from its cursor, holds exactly the rows then present, unless the account was deleted. */
  lemma ClientsCatchUp(before: seq<seq<Statement>>, after: seq<seq<Statement>>, user: UserId, limit: nat)
    requires limit > 0 && forall i :: 0 <= i < |after| ==> DropUser(user) !in after[i]
    ensures var seen := ReadAll(Run(before).events, {user}, 0, limit);
      var now := Run(before + after);
      Replay(seen + ReadAll(now.events, {user}, NextCursor(0, seen), limit)) == Saved(now, user)
  {
    var log, now := Run(before).events, Run(before + after);
    RunIsItsCommits(before);
    RunIsItsCommits(before + after);
    CommittedGrows(before, after);
    var more :| Committed(before + after) == Committed(before) + more && forall s :: s in more ==>
        exists i :: 0 <= i < |after| && s in after[i];
    ScriptsCompose(EMPTY, Committed(before), more);
    LogExtends(Run(before), more, user);
    ReadingOnIsReadingAll(log, now.events, user, limit);
    LogDeterminesTables(before + after, user);
  }

  lemma ReadingOnIsReadingAll(log: seq<Slot<UserId, Event>>, later: seq<Slot<UserId, Event>>, user: UserId, limit: nat)
    requires limit > 0 && Extends(log, later, user)
    ensures var seen := ReadAll(log, {user}, 0, limit);
      seen + ReadAll(later, {user}, NextCursor(0, seen), limit) == After(later, {user}, 0, |later|)
  {
    hide *;
    ReadAllIsTheSuffix(log, {user}, 0, limit, |log|);
    var seen := After(log, {user}, 0, |log|);
    ReadAllIsTheSuffix(later, {user}, NextCursor(0, seen), limit, |later|);
    WhatWasReadStays(log, later, user);
    PagesConcatenate(later, {user}, 0, |seen|, |later|);
    ShortPageIsComplete(later, {user}, 0, |seen| + |later|, |later|);
  }

  lemma WhatWasReadStays(log: seq<Slot<UserId, Event>>, later: seq<Slot<UserId, Event>>, user: UserId)
    requires Extends(log, later, user)
    ensures var seen := After(log, {user}, 0, |log|); After(later, {user}, 0, |seen|) == seen
  {
    var kept := later[..|log|];
    AfterIgnores(log, kept, {user}, 0, |log|);
    assert later == kept + later[|log|..];
    AfterKeepsItsPrefix(kept, later[|log|..], {user}, 0, |log|);
  }

  /** Transactions of one user on different rows overlap too, and each holds its number until
      it commits. A client that reads its feed to the end while number `i + 1` is uncommitted,
      and reads on from its cursor once it is committed, gets that event if and only if it had
      read no larger number of the user's. */
  lemma SyncGapIff(log: seq<Slot<UserId, Event>>, later: seq<Slot<UserId, Event>>, i: nat, user: UserId, event: Event,
      limit: nat)
    requires limit > 0 && i < |log| <= |later| && log[i].Empty? && later[i] == Row(user, event)
    ensures var seen := ReadAll(log, {user}, 0, limit);
      Numbered(i + 1, user, event) in seen + ReadAll(later, {user}, NextCursor(0, seen), limit)
      <==> forall k :: i < k < |log| && log[k].Row? ==> log[k].owner != user
  {
    ReadAllIsTheSuffix(log, {user}, 0, limit, |log|);
    var seen := After(log, {user}, 0, |log|);
    var cursor := NextCursor(0, seen);
    ReadAllIsTheSuffix(later, {user}, cursor, limit, |later| + 1);
    SequencesLeaveRoom(later, {user}, cursor, |later| + 1);
    AfterIsSoundAndSorted(log, {user}, 0, |log|);
    AfterIsSoundAndSorted(later, {user}, cursor, |later| + 1);
    var row := Numbered(i + 1, user, event);
    assert row !in seen;
    CursorIsPastIff(log, user, i);
    if cursor <= i {
      AfterSkipsNothing(later, {user}, cursor, |later| + 1, i);
    }
  }

  /** The end of a user's feed lies past a slot that is not the user's exactly when a later
      one is. */
  lemma CursorIsPastIff(log: seq<Slot<UserId, Event>>, user: UserId, i: nat)
    requires i < |log| && log[i].Empty?
    ensures NextCursor(0, After(log, {user}, 0, |log|)) <= i
            <==> forall k :: i < k < |log| && log[k].Row? ==> log[k].owner != user
  {
    var rows := After(log, {user}, 0, |log|);
    AfterIsSoundAndSorted(log, {user}, 0, |log|);
    if rows != [] && rows[|rows| - 1].sequence > i {
      assert log[rows[|rows| - 1].sequence - 1].owner == user;
    }
    if k :| i < k < |log| && log[k].Row? && log[k].owner == user {
      ShortPageIsComplete(log, {user}, 0, |log|, |log| + 1);
      SequencesLeaveRoom(log, {user}, 0, |log| + 1);
      AfterSkipsNothing(log, {user}, 0, |log| + 1, k);
    }
  }

  /** A bookmark whose event a client never reads: its number is taken first and committed
      after the client has read the next one. */
  lemma SyncLosesABookmark(user: UserId, first: ContentId, second: ContentId)
    requires first != second
    ensures var (one, two) := (Event(Bookmark, first, Upsert), Event(Bookmark, second, Upsert));
      var seen := ReadAll([Empty, Row(user, two)], {user}, 0, 100);
      var more := ReadAll([Row(user, one), Row(user, two)], {user}, NextCursor(0, seen), 100);
      more == [] && Replay(seen) == Mirror({second}, {})
  {
    var (one, two) := (Event(Bookmark, first, Upsert), Event(Bookmark, second, Upsert));
    var log: seq<Slot<UserId, Event>> := [Empty, Row(user, two)];
    var row := Numbered(2, user, two);
    assert After(log, {user}, 2, 99) == [] && After(log, {user}, 1, 100) == [row];
    assert After(log, {user}, 0, 100) == [row] && [row][..0] == [];
    assert ReadAll(log, {user}, 0, 100) == [row];
    assert Replay([row]) == Absorb(Replay([]), two);
  }

  // ---------- the last writer wins ----------

  /** No column of the stored tuple comes from another write than the others. */
  lemma TuplesAreNeverMixed(stored: Stamped<Playback>, input: ProgressInput, review: Stamped<ReviewState>,
      r: ReviewInput)
    requires ValidReview(r)
    ensures MergedProgress(stored, input.position.seconds, input.position.completed, input.at)
            == Merge(stored, Stamped(input.position, input.at))
    ensures MergedReview(review, r) == Merge(review, ReviewWrite(r))
  {
  }

  function ReviewWrite(r: ReviewInput): Stamped<ReviewState>
    requires ValidReview(r)
  {
    Stamped(ReviewState(r.stage, r.reviewCount, r.lapseCount, r.dueAt.value, r.lastReviewedAt), r.at.value)
  }

  /** The progress of a content that a history sent since the account was last deleted. */
  function ProgressWrites(history: seq<Statement>, user: UserId, content: ContentId): seq<Stamped<Playback>> {
    if history == [] then []
    else
      var earlier := ProgressWrites(history[..|history| - 1], user, content);
      match history[|history| - 1]
      case PutProgress(u, input) =>
        if u == user && input.content == content then earlier + [Stamped(input.position, input.at)] else earlier
      case DropUser(u) => if u == user then [] else earlier
      case _ => earlier
  }

  lemma MergeNext<T>(writes: seq<Stamped<T>>, w: Stamped<T>)
    ensures MergeNew(writes + [w]) == if writes == [] then w else Merge(MergeNew(writes), w)
  {
    if writes != [] {
      assert (writes + [w])[1..] == writes[1..] + [w];
      assert (writes[1..] + [w])[..|writes| - 1] == writes[1..];
    }
  }

  lemma {:induction false} HistoryMergesProgress(history: seq<Statement>, t: Tables, user: UserId, content: ContentId)
    requires Leads(history, t)
    ensures var writes := ProgressWrites(history, user, content);
      && ((user, content) in t.progress <==> writes != [])
      && (writes != [] ==> t.progress[(user, content)] == MergeNew(writes))
    decreases |history|
  {
    if history != [] {
      var s := Before(history, t);
      HistoryMergesProgress(history[..|history| - 1], s, user, content);
      var last := history[|history| - 1];
      if last.PutProgress? {
        MergeNext(ProgressWrites(history[..|history| - 1], user, content),
            Stamped(last.progress.position, last.progress.at));
      }
    }
  }

  /** The reviews of an entry with those of one more statement; creation starts anew. */
  function ReviewsAfter(t: Tables, s: Statement, id: EntryId,
      earlier: seq<Stamped<ReviewState>>): seq<Stamped<ReviewState>> {
    match s
    case PutVocabulary(user, input, _) =>
      if AcceptsEntry(t, user, input) && EntryRow(t, user, input) == id then
        (if id in t.vocabulary then earlier else []) + (if input.review.Some? then [ReviewWrite(input.review.value)]
            else [])
      else earlier
    case PutReview(_, entry, review) => if entry == id && ValidReview(review) then earlier + [ReviewWrite(review)]
        else earlier
    case _ => earlier
  }

  /** The reviews an entry received since it was created. */
  function ReviewWrites(history: seq<Statement>, id: EntryId): seq<Stamped<ReviewState>> {
    if history == [] then []
    else match ExecAll(EMPTY, history[..|history| - 1])
      case None => []
      case Some(t) => ReviewsAfter(t, history[|history| - 1], id, ReviewWrites(history[..|history| - 1], id))
  }

  lemma MergeAllNext<T>(stored: Stamped<T>, writes: seq<Stamped<T>>, w: Stamped<T>)
    ensures MergeAll(stored, writes + [w]) == Merge(MergeAll(stored, writes), w)
  {
    assert (writes + [w])[..|writes|] == writes;
  }

  /** A review is the fold of the reviews received onto the defaults it was created with. */
  ghost predicate ReviewIsFold(t: Tables, id: EntryId, created: Time, writes: seq<Stamped<ReviewState>>) {
    id in t.vocabulary && t.vocabulary[id].review == MergeAll(Unreviewed(created), writes)
  }

  lemma VocabularyReviewStep(t: Tables, user: UserId, input: VocabularyInput, now: Time, id: EntryId, created: Time,
      earlier: seq<Stamped<ReviewState>>)
    requires AcceptsEntry(t, user, input) && EntryRow(t, user, input) == id
    requires ReviewIsFold(t, id, created, earlier) || (id !in t.vocabulary && created == now && earlier == [])
    ensures StoredEntry(t, user, input, now).review ==
            MergeAll(Unreviewed(created), if input.review.Some? then earlier + [ReviewWrite(input.review.value)]
                else earlier)
  {
    if input.review.Some? {
      MergeAllNext(Unreviewed(created), earlier, ReviewWrite(input.review.value));
    }
  }

  lemma ReviewStep(t: Tables, s: Statement, u: Tables, id: EntryId, created: Time, earlier: seq<Stamped<ReviewState>>)
    requires Exec(t, s) == Some(u) && id in u.vocabulary
    requires ReviewIsFold(t, id, created, earlier) || (id !in t.vocabulary && s.PutVocabulary? && created == s.now)
    ensures ReviewIsFold(u, id, created, ReviewsAfter(t, s, id, earlier))
  {
    hide MergeAll;
    if s.PutVocabulary? {
      if EntryRow(t, s.user, s.entry) == id {
        var base := if id in t.vocabulary then earlier else [];
        assert base + [] == base;
        VocabularyReviewStep(t, s.user, s.entry, s.now, id, created, base);
      }
      hide StoredEntry, AcceptsEntry;
    } else {
      hide PutVocabularyIn;
      if s.PutReview? {
        MergeAllNext(Unreviewed(created), earlier, ReviewWrite(s.review));
      }
    }
  }

  lemma {:induction false} HistoryMergesReviews(history: seq<Statement>, t: Tables, id: EntryId)
    requires Leads(history, t) && id in t.vocabulary
    ensures exists created :: ReviewIsFold(t, id, created, ReviewWrites(history, id))
    decreases |history|
  {
    if history != [] {
      var (init, last) := (history[..|history| - 1], history[|history| - 1]);
      var s := Before(history, t);
      HistoryKeepsInv(init, s);
      var created: Time;
      if id in s.vocabulary {
        HistoryMergesReviews(init, s, id);
        created :| ReviewIsFold(s, id, created, ReviewWrites(init, id));
      } else {
        assert last.PutVocabulary?;
        created := last.now;
      }
      ReviewStep(s, last, t, id, created, ReviewWrites(init, id));
      assert ReviewWrites(history, id) == ReviewsAfter(s, last, id, ReviewWrites(init, id));
    }
  }

  ghost predicate SomeSinceEpoch(writes: seq<Stamped<ReviewState>>) {
    exists w :: w in writes && w.at >= EPOCH
  }

  /** One review at or after the column default hides the defaults; without one they stay. */
  lemma {:induction false} DefaultsYield(created: Time, writes: seq<Stamped<ReviewState>>)
    ensures var stored := MergeAll(Unreviewed(created), writes);
      if SomeSinceEpoch(writes) then stored in writes && stored.at >= EPOCH else stored == Unreviewed(created)
  {
    if writes != [] {
      var (init, last) := (writes[..|writes| - 1], writes[|writes| - 1]);
      DefaultsYield(created, init);
      assert forall w :: w in writes <==> w in init || w == last;
    }
  }

  /** After any run, online or by migration, the stored progress is one of the writes sent,
      whole, and none is later. */
  lemma ProgressIsLatest(run: seq<seq<Statement>>, user: UserId, content: ContentId)
    ensures var (writes, key) := (ProgressWrites(Committed(run), user, content), (user, content));
      && (key in Run(run).progress <==> writes != [])
      && (writes != [] ==> Run(run).progress[key] == MergeNew(writes) && IsLatest(MergeNew(writes), Delivered(writes)))
  {
    RunIsItsCommits(run);
    HistoryMergesProgress(Committed(run), Run(run), user, content);
    var writes := ProgressWrites(Committed(run), user, content);
    if writes != [] {
      MergeNewKeepsLatest(writes);
    }
  }

  /** Runs that sent the same writes with distinct times, in any order and any number of
      times, store the same progress. */
  lemma ProgressConverges(run: seq<seq<Statement>>, run': seq<seq<Statement>>, user: UserId, content: ContentId)
    requires var (writes, writes') := (ProgressWrites(Committed(run), user, content),
        ProgressWrites(Committed(run'), user, content));
      Delivered(writes) == Delivered(writes') && DistinctTimes(Delivered(writes))
    ensures var key := (user, content);
      && (key in Run(run).progress <==> key in Run(run').progress)
      && (key in Run(run).progress ==> Run(run).progress[key] == Run(run').progress[key])
  {
    var (writes, writes') := (ProgressWrites(Committed(run), user, content),
        ProgressWrites(Committed(run'), user, content));
    ProgressIsLatest(run, user, content);
    ProgressIsLatest(run', user, content);
    if writes != [] {
      assert writes[0] in Delivered(writes');
      MergeConverges(writes, writes');
    } else {
      assert forall w :: w in writes' ==> w in Delivered(writes);
    }
  }

  /** The stored review is the latest one sent if and only if some was at or after the
      column default; otherwise the entry still counts as never reviewed. */
  lemma ReviewIsLatest(run: seq<seq<Statement>>, id: EntryId)
    requires id in Run(run).vocabulary
    ensures var (writes, stored) := (ReviewWrites(Committed(run), id), Run(run).vocabulary[id].review);
      && (IsLatest(stored, Delivered(writes)) <==> SomeSinceEpoch(writes))
      && (!SomeSinceEpoch(writes) ==> exists created :: stored == Unreviewed(created))
  {
    RunIsItsCommits(run);
    var (writes, stored) := (ReviewWrites(Committed(run), id), Run(run).vocabulary[id].review);
    HistoryMergesReviews(Committed(run), Run(run), id);
    var created :| ReviewIsFold(Run(run), id, created, writes);
    DefaultsYield(created, writes);
    MergeKeepsLatest(Unreviewed(created), writes);
    assert !SomeSinceEpoch(writes) ==> stored.at == EPOCH;
  }

  /** Two devices' runs that sent the same reviews, in any order and any number of times,
      store the same. */
  lemma ReviewsConverge(run: seq<seq<Statement>>, id: EntryId, run': seq<seq<Statement>>, id': EntryId)
    requires id in Run(run).vocabulary && id' in Run(run').vocabulary
    requires var (writes, writes') := (ReviewWrites(Committed(run), id), ReviewWrites(Committed(run'), id'));
      && Delivered(writes) == Delivered(writes') && DistinctTimes(Delivered(writes)) && SomeSinceEpoch(writes)
    ensures Run(run).vocabulary[id].review == Run(run').vocabulary[id'].review
  {
    var (writes, writes') := (ReviewWrites(Committed(run), id), ReviewWrites(Committed(run'), id'));
    var w :| w in writes && w.at >= EPOCH;
    assert w in Delivered(writes');
    hide Run, Committed, ReviewWrites;
    ReviewIsLatest(run, id);
    ReviewIsLatest(run', id');
  }

  function EarlyReview(): VocabularyInput {
    VocabularyInput(1, "word", Some("word"), true, "", "", None, "", None,
                    Some(ReviewInput(1, 1, 0, Some(EPOCH), Some(EPOCH - 1), Some(EPOCH - 1))))
  }

  /** A word saved with a review of before 1970: accepted, logged, and the review not stored. */
  lemma EarlyReviewIsLost(now: Time)
    ensures var run := [] + [[CreateUser(1)]] + [[PutVocabulary(1, EarlyReview(), now)]];
      && |Committed(run)| == 2 && |Run(run).events| == 1 && 1 in Run(run).vocabulary
      && |ReviewWrites(Committed(run), 1)| == 1 && Run(run).vocabulary[1].review == Unreviewed(now)
  {
    var (second, t) := (PutVocabulary(1, EarlyReview(), now), EMPTY.(users := {1}));
    EarlyReviewStep(t, now);
    EarlyReviewIsOne(now);
    hide Exec, ReviewsAfter, EarlyReview, ReviewWrites;
    UserIsCreated();
    Single(t, second);
    OneMore([] + [[CreateUser(1)]], [second]);
    hide ExecAll, Run, Committed;
    assert [CreateUser(1)] + [second] == [CreateUser(1), second];
  }

  lemma UserIsCreated()
    ensures var run := [] + [[CreateUser(1)]];
      Run(run) == EMPTY.(users := {1}) && Committed(run) == [CreateUser(1)]
  {
    Single(EMPTY, CreateUser(1));
    OneMore([], [CreateUser(1)]);
  }

  lemma EarlyReviewIsOne(now: Time)
    ensures |ReviewWrites([CreateUser(1), PutVocabulary(1, EarlyReview(), now)], 1)| == 1
  {
    var (first, second, t) := (CreateUser(1), PutVocabulary(1, EarlyReview(), now), EMPTY.(users := {1}));
    EarlyReviewStep(t, now);
    Single(EMPTY, first);
    assert [first, second][..1] == [first] && [first][..0] == [];
    assert ReviewWrites([first], 1) == [];
    hide EarlyReview, ExecAll;
    assert ReviewWrites([first, second], 1) == ReviewsAfter(t, second, 1, []);
  }

  lemma EarlyReviewStep(t: Tables, now: Time)
    requires t == EMPTY.(users := {1})
    ensures var s := PutVocabulary(1, EarlyReview(), now);
      && Exec(t, s).Some? && |ReviewsAfter(t, s, 1, [])| == 1
      && var u := Exec(t, s).value;
         |u.events| == 1 && 1 in u.vocabulary && u.vocabulary[1].review == Unreviewed(now)
  {
    assert AcceptsEntry(t, 1, EarlyReview()) && EntryRow(t, 1, EarlyReview()) == 1;
    assert StoredEntry(t, 1, EarlyReview(), now).review == Unreviewed(now);
    hide AcceptsEntry, StoredEntry, EntryRow;
  }
}
