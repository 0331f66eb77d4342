/** What the entries of a user's word book say: after one save, and after any run. */
module UserEntries {
  import opened Common
  import opened LastWriter
  import opened UserData
  import opened UserTheorems

  /** A save as the server received it, with the server's clock. */
  datatype Save = Save(entry: VocabularyInput, now: Time)

  /** When the entry was made: the device's time, or else the server's. */
  function MadeAt(save: Save): Time {
    match save.entry.createdAt
    case Some(at) => at
    case None => save.now
  }

  // ---------- one save ----------

  /** The texts of a save win where they are not empty and the stored ones stay where they
      are; the spelling is the one sent, and the creation time the earlier of the two. A new
      word starts from nothing, with the review columns at their defaults. */
  lemma SavedEntrySays(t: Tables, user: UserId, input: VocabularyInput, now: Time, u: Tables)
    requires WordsInv(t) && Exec(t, PutVocabulary(user, input, now)) == Some(u)
    ensures input.normalized.Some? && (user, input.normalized.value) in u.words
    ensures var id := u.words[(user, input.normalized.value)];
      && id in u.vocabulary && u.vocabulary == t.vocabulary[id := u.vocabulary[id]]
      && var (e, known, sentAt) := (u.vocabulary[id], id in t.vocabulary, MadeAt(Save(input, now)));
      && e.user == user && e.normalized == input.normalized.value && e.word == input.word
      && e.definition == (if input.definition != "" then Some(input.definition)
                          else if known then t.vocabulary[id].definition else None)
      && e.context == (if input.context != "" then Some(input.context)
                       else if known then t.vocabulary[id].context else None)
      && e.title == (if input.title != "" then Some(input.title) else if known then t.vocabulary[id].title else None)
      && e.content == (if input.content.Some? then input.content
                       else if known then t.vocabulary[id].content else None)
      && e.createdAt == (if known && t.vocabulary[id].createdAt < sentAt then t.vocabulary[id].createdAt else sentAt)
      && var before := if known then t.vocabulary[id].review else Stamped(ReviewState(0, 0, 0, now, None), 0);
      (match input.review
       case None => e.review == before
       case Some(r) =>
         && r.dueAt.Some? && r.at.Some?
         && e.review == if r.at.value < before.at then before
                        else Stamped(ReviewState(r.stage, r.reviewCount, r.lapseCount, r.dueAt.value, r.lastReviewedAt),
                                     r.at.value))
  {
  }

  // ---------- any run ----------

  /** The last text sent that is not empty. */
  ghost predicate IsLastText(sent: seq<string>, stored: Option<string>) {
    if forall i :: 0 <= i < |sent| ==> sent[i] == "" then stored == None
    else exists i :: 0 <= i < |sent| && sent[i] != "" && stored == Some(sent[i])
           && forall j :: i < j < |sent| ==> sent[j] == ""
  }

  ghost predicate IsLastContent(sent: seq<Option<ContentId>>, stored: Option<ContentId>) {
    if forall i :: 0 <= i < |sent| ==> sent[i] == None then stored == None
    else exists i :: 0 <= i < |sent| && sent[i].Some? && stored == sent[i]
           && forall j :: i < j < |sent| ==> sent[j] == None
  }

  ghost predicate IsEarliest(sent: seq<Time>, stored: Time) {
    stored in sent && forall i :: 0 <= i < |sent| ==> stored <= sent[i]
  }

  function Definitions(saves: seq<Save>): seq<string> {
    seq(|saves|, i requires 0 <= i < |saves| => saves[i].entry.definition)
  }

  function Contexts(saves: seq<Save>): seq<string> {
    seq(|saves|, i requires 0 <= i < |saves| => saves[i].entry.context)
  }

  function Titles(saves: seq<Save>): seq<string> {
    seq(|saves|, i requires 0 <= i < |saves| => saves[i].entry.title)
  }

  function Sources(saves: seq<Save>): seq<Option<ContentId>> {
    seq(|saves|, i requires 0 <= i < |saves| => saves[i].entry.content)
  }

  function Times(saves: seq<Save>): seq<Time> {
    seq(|saves|, i requires 0 <= i < |saves| => MadeAt(saves[i]))
  }

  /** The saves of an entry with one more statement; creation starts anew. */
  function SavesAfter(t: Tables, s: Statement, id: EntryId, earlier: seq<Save>): seq<Save> {
    if s.PutVocabulary? && AcceptsEntry(t, s.user, s.entry) && EntryRow(t, s.user, s.entry) == id then
      (if id in t.vocabulary then earlier else []) + [Save(s.entry, s.now)]
    else earlier
  }

  /** The saves an entry received since it was created. */
  function Saves(history: seq<Statement>, id: EntryId): seq<Save> {
    if history == [] then []
    else match ExecAll(EMPTY, history[..|history| - 1])
      case None => []
      case Some(t) => SavesAfter(t, history[|history| - 1], id, Saves(history[..|history| - 1], id))
  }

  ghost predicate Says(e: Entry, saves: seq<Save>) {
    && saves != [] && e.word == saves[|saves| - 1].entry.word
    && IsLastText(Definitions(saves), e.definition) && IsLastText(Contexts(saves), e.context)
    && IsLastText(Titles(saves), e.title) && IsLastContent(Sources(saves), e.content)
    && IsEarliest(Times(saves), e.createdAt)
  }

  lemma LastTextNext(sent: seq<string>, stored: Option<string>, text: string)
    requires IsLastText(sent, stored)
    ensures IsLastText(sent + [text], if text != "" then Some(text) else stored)
  {
    var more := sent + [text];
    assert more[|sent|] == text;
    if text == "" && !(forall i :: 0 <= i < |sent| ==> sent[i] == "") {
      var i :|
        && 0 <= i < |sent| && sent[i] != "" && stored == Some(sent[i])
        && forall j :: i < j < |sent| ==> sent[j] == "";
      assert more[i] == sent[i];
    }
  }

  lemma LastContentNext(sent: seq<Option<ContentId>>, stored: Option<ContentId>, content: Option<ContentId>)
    requires IsLastContent(sent, stored)
    ensures IsLastContent(sent + [content], if content.Some? then content else stored)
  {
    var more := sent + [content];
    assert more[|sent|] == content;
    if content.None? && !(forall i :: 0 <= i < |sent| ==> sent[i] == None) {
      var i :| 0 <= i < |sent| && sent[i].Some? && stored == sent[i] && forall j :: i < j < |sent| ==> sent[j] == None;
      assert more[i] == sent[i];
    }
  }

  lemma EarliestNext(sent: seq<Time>, stored: Time, at: Time)
    requires IsEarliest(sent, stored)
    ensures IsEarliest(sent + [at], if stored < at then stored else at)
  {
    assert (sent + [at])[|sent|] == at;
  }

  lemma OneSaveMore(saves: seq<Save>, save: Save)
    ensures Definitions(saves + [save]) == Definitions(saves) + [save.entry.definition]
    ensures Contexts(saves + [save]) == Contexts(saves) + [save.entry.context]
    ensures Titles(saves + [save]) == Titles(saves) + [save.entry.title]
    ensures Sources(saves + [save]) == Sources(saves) + [save.entry.content]
    ensures Times(saves + [save]) == Times(saves) + [MadeAt(save)]
  {
  }

  /** The entry of an accepted save, in terms of the entry before it. */
  ghost predicate Follows(before: Option<Entry>, save: Save, e: Entry) {
    var (input, at) := (save.entry, MadeAt(save));
    && e.word == input.word
    && e.definition == (if input.definition != "" then Some(input.definition)
                        else if before.Some? then before.value.definition else None)
    && e.context == (if input.context != "" then Some(input.context)
                     else if before.Some? then before.value.context else None)
    && e.title == (if input.title != "" then Some(input.title) else if before.Some? then before.value.title else None)
    && e.content == (if input.content.Some? then input.content
                     else if before.Some? then before.value.content else None)
    && e.createdAt == (if before.Some? && before.value.createdAt < at then before.value.createdAt else at)
  }

  lemma FollowingSays(before: Option<Entry>, saves: seq<Save>, save: Save, e: Entry)
    requires Follows(before, save, e)
    requires if before.Some? then Says(before.value, saves) else saves == []
    ensures Says(e, saves + [save])
  {
    OneSaveMore(saves, save);
    var input := save.entry;
    if before.Some? {
      var b := before.value;
      assert b.definition == e.definition || input.definition != "";
      hide Definitions, Contexts, Titles, Sources, Times, MadeAt, IsLastText, IsLastContent, IsEarliest;
      LastTextNext(Definitions(saves), b.definition, input.definition);
      LastTextNext(Contexts(saves), b.context, input.context);
      LastTextNext(Titles(saves), b.title, input.title);
      LastContentNext(Sources(saves), b.content, input.content);
      EarliestNext(Times(saves), b.createdAt, MadeAt(save));
    } else {
      LastTextNext([], None, input.definition);
      LastTextNext([], None, input.context);
      LastTextNext([], None, input.title);
      LastContentNext([], None, input.content);
      assert Times(saves + [save]) == [MadeAt(save)];
      hide Definitions, Contexts, Titles, Sources, Times, MadeAt, IsLastText, IsLastContent;
    }
  }

  lemma SaveFollows(t: Tables, user: UserId, input: VocabularyInput, now: Time, u: Tables, id: EntryId)
    requires WordsInv(t) && Exec(t, PutVocabulary(user, input, now)) == Some(u) && id in u.vocabulary
    ensures input.normalized.Some? && AcceptsEntry(t, user, input)
    ensures if EntryRow(t, user, input) == id
            then Follows(if id in t.vocabulary then Some(t.vocabulary[id]) else None, Save(input, now),
                         u.vocabulary[id])
            else id in t.vocabulary && u.vocabulary[id] == t.vocabulary[id]
  {
    SavedEntrySays(t, user, input, now, u);
    assert u.words[(user, input.normalized.value)] == EntryRow(t, user, input);
    hide WordsInv, EntryRow, StoredEntry;
  }

  lemma StatementSays(t: Tables, s: Statement, u: Tables, id: EntryId, earlier: seq<Save>)
    requires WordsInv(t) && Exec(t, s) == Some(u) && id in u.vocabulary
    requires id in t.vocabulary ==> Says(t.vocabulary[id], earlier)
    ensures Says(u.vocabulary[id], SavesAfter(t, s, id, earlier))
  {
    hide Exec, WordsInv, Says, EntryRow, Follows, AcceptsEntry;
    if s.PutVocabulary? {
      SaveFollows(t, s.user, s.entry, s.now, u, id);
      if EntryRow(t, s.user, s.entry) == id {
        var before := if id in t.vocabulary then Some(t.vocabulary[id]) else None;
        FollowingSays(before, if id in t.vocabulary then earlier else [], Save(s.entry, s.now), u.vocabulary[id]);
      }
    } else {
      OtherStatementSays(t, s, u, id, earlier);
    }
  }

  lemma OtherStatementSays(t: Tables, s: Statement, u: Tables, id: EntryId, earlier: seq<Save>)
    requires !s.PutVocabulary? && Exec(t, s) == Some(u) && id in u.vocabulary
    requires id in t.vocabulary ==> Says(t.vocabulary[id], earlier)
    ensures Says(u.vocabulary[id], earlier)
  {
    OtherStatementKeepsTexts(t, s, u, id);
    hide Exec;
  }

  lemma OtherStatementKeepsTexts(t: Tables, s: Statement, u: Tables, id: EntryId)
    requires !s.PutVocabulary? && Exec(t, s) == Some(u) && id in u.vocabulary
    ensures id in t.vocabulary && u.vocabulary[id] == t.vocabulary[id].(review := u.vocabulary[id].review)
  {
  }

  lemma {:induction false} HistorySays(history: seq<Statement>, t: Tables, id: EntryId)
    requires Leads(history, t) && id in t.vocabulary
    ensures Says(t.vocabulary[id], Saves(history, id))
    decreases |history|
  {
    if history != [] {
      var (init, last) := (history[..|history| - 1], history[|history| - 1]);
      var s := Before(history, t);
      HistoryKeepsInv(init, s);
      if id in s.vocabulary { HistorySays(init, s, id); }
      assert Saves(history, id) == SavesAfter(s, last, id, Saves(init, id));
      hide Says, SavesAfter, Saves;
      StatementSays(s, last, t, id, Saves(init, id));
    }
  }

  /** After any run an entry carries the spelling of its last save; each of its texts is the
      last one sent that was not empty, from whichever save that came; and it counts as made
      at the earliest time any save gave. */
  lemma EntrySaysWhatWasSent(run: seq<seq<Statement>>, id: EntryId)
    requires id in Run(run).vocabulary
    ensures var (e, saves) := (Run(run).vocabulary[id], Saves(Committed(run), id));
      && saves != [] && e.word == saves[|saves| - 1].entry.word
      && IsLastText(Definitions(saves), e.definition) && IsLastText(Contexts(saves), e.context)
      && IsLastText(Titles(saves), e.title) && IsLastContent(Sources(saves), e.content)
      && IsEarliest(Times(saves), e.createdAt)
  {
    hide *;
    RunLeads(run);
    HistorySays(Committed(run), Run(run), id);
    WhatItSays(Run(run).vocabulary[id], Saves(Committed(run), id));
  }

  lemma RunLeads(run: seq<seq<Statement>>)
    ensures Leads(Committed(run), Run(run))
  {
    RunIsItsCommits(run);
  }

  lemma WhatItSays(e: Entry, saves: seq<Save>)
    requires Says(e, saves)
    ensures saves != [] && e.word == saves[|saves| - 1].entry.word
    ensures IsLastText(Definitions(saves), e.definition) && IsLastText(Contexts(saves), e.context)
    ensures IsLastText(Titles(saves), e.title) && IsLastContent(Sources(saves), e.content)
    ensures IsEarliest(Times(saves), e.createdAt)
  {
  }
}
