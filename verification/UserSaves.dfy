/** When a user's statements are accepted, what they leave, and that a login keeps all the
    device had. */
module UserSaves {
  import opened Common
  import opened LastWriter
  import opened UserData
  import opened UserTheorems

  // ---------- what is accepted ----------

  /** A bookmark needs its user and, to be set, its content; a removal needs the user only. */
  lemma BookmarkIsAcceptedIff(t: Tables, user: UserId, content: ContentId, enabled: bool)
    ensures Exec(t, PutBookmark(user, content, enabled)).Some? <==>
            user in t.users && (content in t.contents || !enabled)
  {
  }

  lemma ProgressIsAcceptedIff(t: Tables, user: UserId, input: ProgressInput)
    ensures Exec(t, PutProgress(user, input)).Some? <==>
            user in t.users && input.content in t.contents && input.position.seconds >= 0
  {
  }

  /** A review is taken if and only if the user has the entry and the review is within its
      bounds: seven stages, no more lapses than reviews, its times given, and the time of the
      last review too unless there was none. */
  lemma ReviewIsAcceptedIff(t: Tables, user: UserId, id: EntryId, review: ReviewInput)
    ensures Exec(t, PutReview(user, id, review)).Some? <==>
            && id in t.vocabulary && t.vocabulary[id].user == user
            && 0 <= review.stage && review.stage <= 6
            && 0 <= review.reviewCount && 0 <= review.lapseCount && review.lapseCount <= review.reviewCount
            && review.dueAt != None && review.at != None && (review.reviewCount == 0 || review.lastReviewedAt != None)
  {
  }

  /** A word is saved if and only if it normalizes, its id is not the nil one, its texts fit,
      its user and its content exist, and a review that comes with it is within the bounds;
      a word new to the user also needs an id nobody has. */
  lemma SaveIsAcceptedIff(t: Tables, user: UserId, input: VocabularyInput, now: Time)
    requires Inv(t)
    ensures Exec(t, PutVocabulary(user, input, now)).Some? <==>
            && input.normalized != None && input.id != 0 && input.fits && user in t.users
            && (input.content == None || input.content.value in t.contents)
            && (match input.review
                case None => true
                case Some(review) =>
                  && 0 <= review.stage && review.stage <= 6
                  && 0 <= review.reviewCount && 0 <= review.lapseCount && review.lapseCount <= review.reviewCount
                  && review.dueAt != None && review.at != None
                  && (review.reviewCount == 0 || review.lastReviewedAt != None))
            && (input.id in t.vocabulary ==>
                  exists e :: e in t.vocabulary
                    && t.vocabulary[e].user == user && t.vocabulary[e].normalized == input.normalized.value)
  {
    if input.normalized.Some? {
      var word := (user, input.normalized.value);
      assert word in t.words ==> t.words[word] in t.vocabulary;
      if e :| e in t.vocabulary && t.vocabulary[e].user == user && t.vocabulary[e].normalized == word.1 {
        assert word in t.words;
      }
    }
    hide StoredEntry, EntryRow, ReviewInv, OwnedInv;
  }

  // ---------- what is stored ----------

  /** Progress is stored as sent, unless the stored one is newer: then nothing changes. */
  lemma SavedProgressSays(t: Tables, user: UserId, input: ProgressInput, u: Tables)
    requires Exec(t, PutProgress(user, input)) == Some(u)
    ensures var key := (user, input.content);
      && key in u.progress && u.progress == t.progress[key := u.progress[key]]
      && u.progress[key] == if key in t.progress && input.at < t.progress[key].at then t.progress[key]
                            else Stamped(input.position, input.at)
  {
  }

  /** A review is stored as sent, unless the stored one is newer; no other column and no other
      entry changes. */
  lemma SavedReviewSays(t: Tables, user: UserId, id: EntryId, r: ReviewInput, u: Tables)
    requires Exec(t, PutReview(user, id, r)) == Some(u)
    ensures id in t.vocabulary && r.dueAt.Some? && r.at.Some?
    ensures var before := t.vocabulary[id].review;
      var review := if r.at.value < before.at then before
                    else Stamped(ReviewState(r.stage, r.reviewCount, r.lapseCount, r.dueAt.value, r.lastReviewedAt),
                                 r.at.value);
      u.vocabulary == t.vocabulary[id := t.vocabulary[id].(review := review)]
  {
  }

  // ---------- login ----------

  /** Statements that take nothing away. */
  predicate Adds(s: Statement) {
    s.CreateUser? || (s.PutBookmark? && s.enabled) || s.PutProgress? || s.PutVocabulary?
  }

  ghost predicate Kept(t: Tables, s: Statement) {
    match s
    case CreateUser(user) => user in t.users
    case PutBookmark(user, content, enabled) => enabled ==> (user, content) in t.bookmarks
    case PutProgress(user, input) =>
      (user, input.content) in t.progress && t.progress[(user, input.content)].at >= input.at
    case PutVocabulary(user, input, _) => input.normalized.Some? && (user, input.normalized.value) in t.words
    case _ => true
  }

  lemma DoneIsKept(t: Tables, s: Statement, u: Tables)
    requires Exec(t, s) == Some(u) && Adds(s)
    ensures Kept(u, s)
  {
    hide StoredEntry, EntryRow;
  }

  lemma KeptStays(t: Tables, s: Statement, u: Tables, earlier: Statement)
    requires Exec(t, s) == Some(u) && Adds(s) && Kept(t, earlier)
    ensures Kept(u, earlier)
  {
    hide StoredEntry, EntryRow, AcceptsEntry;
  }

  lemma {:induction false} ScriptIsKept(t: Tables, script: seq<Statement>, u: Tables, i: nat)
    requires ExecAll(t, script) == Some(u) && i < |script| && forall s :: s in script ==> Adds(s)
    ensures Kept(u, script[i])
    decreases |script|
  {
    var (init, last) := (script[..|script| - 1], script[|script| - 1]);
    var v := ExecAll(t, init).value;
    hide Exec, Kept, Adds;
    assert last in script;
    if i == |init| {
      DoneIsKept(v, last, u);
    } else {
      assert forall s :: s in init ==> s in script;
      ScriptIsKept(t, init, v, i);
      assert init[i] == script[i];
      KeptStays(v, last, u, script[i]);
    }
  }

  /** A login that succeeds leaves everything the device had kept: the account, every
      bookmark, a progress no older than each one sent, and every word. */
  lemma LoginKeepsEverything(t: Tables, user: UserId, m: Migration, now: Time, u: Tables)
    requires ExecAll(t, LoginScript(user, m, now)) == Some(u)
    ensures user in u.users
    ensures forall c :: c in m.bookmarks ==> (user, c) in u.bookmarks
    ensures forall p :: p in m.progress ==>
              (user, p.content) in u.progress && u.progress[(user, p.content)].at >= p.at
    ensures forall v :: v in m.vocabulary ==> v.normalized.Some? && (user, v.normalized.value) in u.words
  {
    var script := LoginScript(user, m, now);
    forall s | s in script ensures Kept(u, s) {
      var i :| 0 <= i < |script| && script[i] == s;
      ScriptIsKept(t, script, u, i);
    }
    hide ExecAll;
    LoginScriptHas(user, m, now);
  }

  lemma LoginScriptHas(user: UserId, m: Migration, now: Time)
    ensures var script := LoginScript(user, m, now);
      && CreateUser(user) in script
      && (forall c :: c in m.bookmarks ==> PutBookmark(user, c, true) in script)
      && (forall p :: p in m.progress ==> PutProgress(user, p) in script)
      && (forall v :: v in m.vocabulary ==> PutVocabulary(user, v, now) in script)
  {
    forall c | c in m.bookmarks ensures PutBookmark(user, c, true) in BookmarkScript(user, m.bookmarks) {
      var i :| 0 <= i < |m.bookmarks| && m.bookmarks[i] == c;
      assert BookmarkScript(user, m.bookmarks)[i] == PutBookmark(user, c, true);
    }
    forall p | p in m.progress ensures PutProgress(user, p) in ProgressScript(user, m.progress) {
      var i :| 0 <= i < |m.progress| && m.progress[i] == p;
      assert ProgressScript(user, m.progress)[i] == PutProgress(user, p);
    }
    forall v | v in m.vocabulary ensures PutVocabulary(user, v, now) in VocabularyScript(user, m.vocabulary, now) {
      var i :| 0 <= i < |m.vocabulary| && m.vocabulary[i] == v;
      assert VocabularyScript(user, m.vocabulary, now)[i] == PutVocabulary(user, v, now);
    }
  }
}
