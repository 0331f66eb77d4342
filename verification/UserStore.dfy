/** The user transactions and the /me/sync handler as the statements that run them. */
module UserStore {
  import opened Common
  import opened SequenceLog
  import opened LastWriter
  import opened UserData
  import opened UserEntries
  import opened UserTheorems
  import Cursors
  import Text

  const PAGE_LIMIT := 100

  /** The JSON body of /me/sync, or a 400. */
  datatype SyncResponse =
    | BadCursor
    | Changes(changes: seq<Numbered<UserId, Event>>, nextCursor: string, hasMore: bool)

  class Store {
    var users: set<UserId>
    var contents: set<ContentId>
    var bookmarks: set<(UserId, ContentId)>
    var progress: map<(UserId, ContentId), Stamped<Playback>>
    var vocabulary: map<EntryId, Entry>
    var words: map<(UserId, string), EntryId>
    var events: seq<Slot<UserId, Event>>

    function View(): Tables
      reads this
    {
      Tables(users, contents, bookmarks, progress, vocabulary, words, events)
    }

    constructor ()
      ensures View() == EMPTY
    {
      users, contents, bookmarks, progress, vocabulary, words, events := {}, {}, {}, map[], map[], map[], [];
    }

    method Rollback(begun: Tables)
      modifies this
      ensures View() == begun
    {
      users, contents, bookmarks, progress := begun.users, begun.contents, begun.bookmarks, begun.progress;
      vocabulary, words, events := begun.vocabulary, begun.words, begun.events;
    }

    // ---------- queries ----------

    method UpsertBookmark(user: UserId, content: ContentId) returns (ok: bool)
      modifies this`bookmarks
      ensures ok <==> user in users && content in contents
      ensures bookmarks == if ok then old(bookmarks) + {(user, content)} else old(bookmarks)
    {
      ok := user in users && content in contents;
      if ok {
        bookmarks := bookmarks + {(user, content)};
      }
    }

    method CreateUserEvent(user: UserId, entity: EntityType, id: nat, operation: Operation) returns (sequence: nat)
      modifies this`events
      ensures View() == Logged(old(View()), user, entity, id, operation) && sequence == |events|
    {
      events := events + [Row(user, Event(entity, id, operation))];
      sequence := |events|;
    }

    /** upsertProgress. */
    method UpsertProgress(user: UserId, input: ProgressInput) returns (ok: bool)
      modifies this`progress, this`events
      ensures ok <==> PutProgressIn(old(View()), user, input).Some?
      ensures ok ==> PutProgressIn(old(View()), user, input) == Some(View())
      ensures !ok ==> View() == old(View())
    {
      if user !in users || input.content !in contents || input.position.seconds < 0 {
        return false;
      }
      var key := (user, input.content);
      if key in progress {
        var (stored, at) := (progress[key].value, progress[key].at);
        if at <= input.at {
          stored, at := input.position, input.at;
        }
        progress := progress[key := Stamped(stored, at)];
      } else {
        progress := progress[key := Stamped(input.position, input.at)];
      }
      var _ := CreateUserEvent(user, ProgressOf, input.content, Upsert);
      ok := true;
    }

    /** UpdateVocabularyReview. */
    method UpdateReview(user: UserId, id: EntryId, input: ReviewInput) returns (found: bool)
      requires ValidReview(input)
      modifies this`vocabulary
      ensures found <==> id in old(vocabulary) && old(vocabulary)[id].user == user
      ensures !found ==> vocabulary == old(vocabulary)
      ensures found ==>
                var stored := old(vocabulary)[id];
                vocabulary == old(vocabulary)[id := stored.(review := MergedReview(stored.review, input))]
    {
      found := id in vocabulary && vocabulary[id].user == user;
      if found && vocabulary[id].review.at <= input.at.value {
        var state := ReviewState(input.stage, input.reviewCount, input.lapseCount, input.dueAt.value,
            input.lastReviewedAt);
        vocabulary := vocabulary[id := vocabulary[id].(review := Stamped(state, input.at.value))];
      }
    }

    /** upsertVocabulary; the validation of a review comes after the upsert. */
    method UpsertVocabulary(user: UserId, input: VocabularyInput, now: Time) returns (ok: bool)
      requires WordsResolve(View())
      modifies this`vocabulary, this`words, this`events
      ensures ok <==> PutVocabularyIn(old(View()), user, input, now).Some?
      ensures ok ==> PutVocabularyIn(old(View()), user, input, now) == Some(View())
      ensures ok ==> SavedAs(old(vocabulary), vocabulary, words, user, input, now)
    {
      if input.normalized.None? || input.id == NIL || !input.fits {
        return false;
      }
      if user !in users || (input.content.Some? && input.content.value !in contents) {
        return false;
      }
      var word := (user, input.normalized.value);
      var incoming := NewEntry(user, input, input.normalized.value, now);
      var id := input.id;
      if word in words {
        id := words[word];
        var stored := vocabulary[id];
        vocabulary := vocabulary[id := stored.(
          word := incoming.word,
          definition := Coalesce(incoming.definition, stored.definition),
          context := Coalesce(incoming.context, stored.context),
          content := Coalesce(incoming.content, stored.content),
          title := Coalesce(incoming.title, stored.title),
          createdAt := Min(stored.createdAt, incoming.createdAt))];
      } else if id in vocabulary {
        return false;
      } else {
        vocabulary := vocabulary[id := incoming];
      }
      words := words[word := id];
      if input.review.Some? {
        if !ValidReview(input.review.value) {
          return false;
        }
        var _ := UpdateReview(user, id, input.review.value);
      }
      assert vocabulary == old(vocabulary)[id := StoredEntry(old(View()), user, input, now)];
      assert SavedAs(old(vocabulary), vocabulary, words, user, input, now);
      var _ := CreateUserEvent(user, Vocabulary, id, Upsert);
      ok := true;
    }

    // ---------- transactions ----------

    method SetBookmark(user: UserId, content: ContentId, enabled: bool) returns (ok: bool)
      modifies this
      ensures ok <==> PutBookmarkIn(old(View()), user, content, enabled).Some?
      ensures View() == Commit(old(View()), [PutBookmark(user, content, enabled)])
    {
      Single(View(), PutBookmark(user, content, enabled));
      var begun := View();
      var operation := Upsert;
      if enabled {
        ok := UpsertBookmark(user, content);
      } else {
        operation := Delete;
        ok := user in users;
        bookmarks := bookmarks - {(user, content)};
      }
      if !ok {
        Rollback(begun);
        return false;
      }
      var _ := CreateUserEvent(user, Bookmark, content, operation);
    }

    method SetProgress(user: UserId, input: ProgressInput) returns (ok: bool)
      modifies this
      ensures ok <==> PutProgressIn(old(View()), user, input).Some?
      ensures View() == Commit(old(View()), [PutProgress(user, input)])
    {
      Single(View(), PutProgress(user, input));
      ok := UpsertProgress(user, input);
    }

    method SetVocabulary(user: UserId, input: VocabularyInput, now: Time) returns (ok: bool)
      requires WordsResolve(View())
      modifies this
      ensures ok <==> PutVocabularyIn(old(View()), user, input, now).Some?
      ensures View() == Commit(old(View()), [PutVocabulary(user, input, now)])
      ensures ok ==> SavedAs(old(vocabulary), vocabulary, words, user, input, now)
    {
      Single(View(), PutVocabulary(user, input, now));
      var begun := View();
      ok := UpsertVocabulary(user, input, now);
      if !ok {
        Rollback(begun);
      }
    }

    method SetVocabularyReview(user: UserId, id: EntryId, input: ReviewInput) returns (ok: bool)
      modifies this
      ensures ok <==> PutReviewIn(old(View()), user, id, input).Some?
      ensures View() == Commit(old(View()), [PutReview(user, id, input)])
      ensures ok <==>
                && id in old(vocabulary) && old(vocabulary)[id].user == user
                && 0 <= input.stage <= 6 && 0 <= input.lapseCount <= input.reviewCount
                && input.dueAt.Some? && input.at.Some? && (input.reviewCount > 0 ==> input.lastReviewedAt.Some?)
    {
      Single(View(), PutReview(user, id, input));
      if !ValidReview(input) {
        return false;
      }
      ok := UpdateReview(user, id, input);
      if ok {
        var _ := CreateUserEvent(user, Vocabulary, id, Upsert);
      }
    }

    method DeleteVocabulary(user: UserId, id: EntryId) returns (ok: bool)
      modifies this
      ensures ok <==> user in old(users)
      ensures View() == Commit(old(View()), [DropVocabulary(user, id)])
    {
      Single(View(), DropVocabulary(user, id));
      if user !in users {
        return false;
      }
      if id in vocabulary && vocabulary[id].user == user {
        words := words - {(user, vocabulary[id].normalized)};
        vocabulary := vocabulary - {id};
      }
      var _ := CreateUserEvent(user, Vocabulary, id, Delete);
      ok := true;
    }

    // the three loops of createLogin

    method MigrateBookmarks(user: UserId, saved: seq<ContentId>) returns (ok: bool)
      modifies this`bookmarks, this`events
      ensures ok <==> ExecAll(old(View()), BookmarkScript(user, saved)).Some?
      ensures ok ==> ExecAll(old(View()), BookmarkScript(user, saved)) == Some(View())
    {
      ghost var script := BookmarkScript(user, saved);
      for i := 0 to |saved|
        invariant ExecAll(old(View()), script[..i]) == Some(View())
      {
        Extend(old(View()), script, i);
        var stored := UpsertBookmark(user, saved[i]);
        if !stored {
          Stuck(old(View()), script, i);
          return false;
        }
        var _ := CreateUserEvent(user, Bookmark, saved[i], Upsert);
      }
      assert script[..|saved|] == script;
      ok := true;
    }

    method MigrateProgress(user: UserId, inputs: seq<ProgressInput>) returns (ok: bool)
      modifies this`progress, this`events
      ensures ok <==> ExecAll(old(View()), ProgressScript(user, inputs)).Some?
      ensures ok ==> ExecAll(old(View()), ProgressScript(user, inputs)) == Some(View())
    {
      ghost var script := ProgressScript(user, inputs);
      for i := 0 to |inputs|
        invariant ExecAll(old(View()), script[..i]) == Some(View())
      {
        Extend(old(View()), script, i);
        var stored := UpsertProgress(user, inputs[i]);
        if !stored {
          Stuck(old(View()), script, i);
          return false;
        }
      }
      assert script[..|inputs|] == script;
      ok := true;
    }

    method MigrateVocabulary(user: UserId, entries: seq<VocabularyInput>, now: Time) returns (ok: bool)
      requires WordsResolve(View())
      modifies this`vocabulary, this`words, this`events
      ensures ok <==> ExecAll(old(View()), VocabularyScript(user, entries, now)).Some?
      ensures ok ==> ExecAll(old(View()), VocabularyScript(user, entries, now)) == Some(View())
    {
      ghost var script := VocabularyScript(user, entries, now);
      for i := 0 to |entries|
        invariant ExecAll(old(View()), script[..i]) == Some(View())
        invariant WordsResolve(View())
      {
        Extend(old(View()), script, i);
        var stored := UpsertVocabulary(user, entries[i], now);
        if !stored {
          Stuck(old(View()), script, i);
          return false;
        }
      }
      assert script[..|entries|] == script;
      ok := true;
    }

    /** createLogin: the account and everything the device kept so far, or nothing. */
    method CreateLogin(user: UserId, migration: Migration, now: Time) returns (ok: bool)
      requires WordsResolve(View())
      modifies this
      ensures ok <==> ExecAll(old(View()), LoginScript(user, migration, now)).Some?
      ensures View() == Commit(old(View()), LoginScript(user, migration, now))
    {
      var begun := View();
      LoginInParts(begun, user, migration, now);
      users := users + {user};
      ok := MigrateBookmarks(user, migration.bookmarks);
      if ok {
        ok := MigrateProgress(user, migration.progress);
      }
      if ok {
        ok := MigrateVocabulary(user, migration.vocabulary, now);
      }
      if !ok {
        Rollback(begun);
      }
    }

    method DeleteUser(user: UserId)
      modifies this
      ensures View() == Commit(old(View()), [DropUser(user)])
    {
      Single(View(), DropUser(user));
      hide ExecAll, Erased;
      users := users - {user};
      bookmarks := set b | b in bookmarks && b.0 != user;
      progress := map k | k in progress && k.0 != user :: progress[k];
      vocabulary := map e | e in vocabulary && vocabulary[e].user != user :: vocabulary[e];
      words := map k | k in words && k.0 != user :: words[k];
      events := Erased(events, user);
      assert View() == WithoutUser(old(View()), user);
    }

    // ---------- the change feed ----------

    /** GET /me/sync. */
    method Sync(user: UserId, raw: string) returns (response: SyncResponse)
      requires |events| < Text.INT64_LIMIT
      ensures response.BadCursor? <==> Cursors.DecodeSequence(raw).None?
      ensures response.Changes? ==>
                var sequence := Cursors.DecodeSequence(raw).value;
                var cursor := Max(0, sequence);
                && response.changes == After(events, {user}, cursor, PAGE_LIMIT)
                && response.hasMore == (|response.changes| == PAGE_LIMIT)
                && Cursors.DecodeSequence(response.nextCursor)
                   == Some(if response.changes == [] then sequence else NextCursor(cursor, response.changes))
    {
      var decoded := Cursors.DecodeSequence(raw);
      if decoded.None? {
        return BadCursor;
      }
      var sequence := decoded.value;
      var rows := After(events, {user}, Max(0, sequence), PAGE_LIMIT);
      var next := sequence;
      if |rows| > 0 {
        next := rows[|rows| - 1].sequence;
      }
      AfterIsSoundAndSorted(events, {user}, Max(0, sequence), PAGE_LIMIT);
      Cursors.DecodedIsInt64(raw);
      Cursors.SequenceRoundTrip(next);
      response := Changes(rows, Cursors.EncodeSequence(next), |rows| == PAGE_LIMIT);
    }
  }

  /** The row under the word now says what the save sent, and otherwise what it said before. */
  ghost predicate SavedAs(before: map<EntryId, Entry>, after: map<EntryId, Entry>,
      words: map<(UserId, string), EntryId>, user: UserId, input: VocabularyInput, now: Time) {
    && input.normalized.Some? && (user, input.normalized.value) in words
    && var id := words[(user, input.normalized.value)];
    && id in after && after == before[id := after[id]] && after[id].user == user
    && Follows(if id in before then Some(before[id]) else None, Save(input, now), after[id])
  }

  /** Part of the invariant every run keeps. */
  ghost predicate WordsResolve(t: Tables) {
    forall w :: w in t.words ==> t.words[w] in t.vocabulary && t.vocabulary[t.words[w]].user == w.0
  }

  lemma Extend(t: Tables, script: seq<Statement>, n: nat)
    requires n < |script|
    ensures ExecAll(t, script[..n + 1]) == match ExecAll(t, script[..n]) case None => None case Some(u) => Exec(u,
        script[n])
  {
    assert script[..n + 1][..n] == script[..n];
  }

  /** A script cannot recover from a statement that failed. */
  lemma {:induction false} Stuck(t: Tables, script: seq<Statement>, n: nat)
    requires n < |script| && ExecAll(t, script[..n + 1]).None?
    ensures ExecAll(t, script).None?
    decreases |script|
  {
    if n + 1 < |script| {
      assert script[..|script| - 1][..n + 1] == script[..n + 1];
      Stuck(t, script[..|script| - 1], n);
    } else {
      assert script[..n + 1] == script;
    }
  }

  function Then(t: Option<Tables>, script: seq<Statement>): Option<Tables> {
    match t case None => None case Some(u) => ExecAll(u, script)
  }

  lemma LoginInParts(t: Tables, user: UserId, m: Migration, now: Time)
    ensures ExecAll(t, LoginScript(user, m, now)) ==
            Then(Then(ExecAll(t.(users := t.users + {user}), BookmarkScript(user, m.bookmarks)),
                      ProgressScript(user, m.progress)),
                 VocabularyScript(user, m.vocabulary, now))
  {
    var start := [CreateUser(user)];
    var (b, p, v) := (BookmarkScript(user, m.bookmarks), ProgressScript(user, m.progress),
        VocabularyScript(user, m.vocabulary, now));
    Single(t, CreateUser(user));
    ScriptsCompose(t, start, b);
    ScriptsCompose(t, start + b, p);
    ScriptsCompose(t, start + b + p, v);
  }
}
