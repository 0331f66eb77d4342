/** What the catalogue promises its publishers and its clients, over every run. */
module CatalogueTheorems {
  import opened Common
  import opened SequenceLog
  import opened Catalogue
  import opened Publishing
  import opened PublishingInvariant

  // ---------- the log agrees with the table ----------

  /** In every reachable state, per content: event revisions increase with sequence, and
      the newest event tells the status - an upsert at the current revision exactly when
      published, a delete at it exactly when hidden, an older one otherwise. */
  lemma LogAgreesWithTable(s: State, id: ContentId, k: nat)
    requires Reachable(s) && id in s.t.contents && LastRowAt(s.log, k, id)
    ensures RevisionsIncrease(s.log)
    ensures var row := s.t.contents[id];
      && (row.status == Published <==> s.log[k].body == Change(Upsert, row.revision))
      && (row.status == Hidden <==> s.log[k].body == Change(Delete, row.revision))
      && (row.status == Review <==> s.log[k].body.revision < row.revision)
  {
    ReachableIsInv(s);
    var row := s.t.contents[id];
    if !row.status.Review? {
      var change := Change(if row.status.Published? then Upsert else Delete, row.revision);
      assert Announced(s.log, id, change);
      var i :| 0 <= i < |s.log| && s.log[i] == Row(id, change);
      assert RowAt(s.log, i, id);
    }
  }

  /** A published content always has a newest event to find. */
  lemma PublishedHasAnEvent(s: State, id: ContentId)
    requires Reachable(s) && id in s.t.contents && s.t.contents[id].status.Published?
    ensures exists k: nat :: LastRowAt(s.log, k, id) && s.log[k] == Row(id, Change(Upsert, s.t.contents[id].revision))
  {
    ReachableIsInv(s);
    CurrentEventIsLast(s.t, s.log, id);
  }

  lemma CurrentEventIsLast(t: Tables, log: ChangeLog, id: ContentId)
    requires LogOk(t, log) && id in t.contents && t.contents[id].status.Published?
    ensures exists k: nat :: LastRowAt(log, k, id) && log[k] == Row(id, Change(Upsert, t.contents[id].revision))
  {
    assert Announced(log, id, Change(Upsert, t.contents[id].revision));
    var k: nat :| 0 <= k < |log| && log[k] == Row(id, Change(Upsert, t.contents[id].revision));
    assert LastRowAt(log, k, id);
  }

  /** Released time is never missing on a published row, whichever writer published it. */
  lemma PublishedRowsAreReleased(s: State, id: ContentId)
    requires Reachable(s) && id in s.t.contents && s.t.contents[id].status.Published?
    ensures s.t.contents[id].releasedAt.Some?
  {
    ReachableIsInv(s);
  }

  /** Readers see a content exactly when it is published and some audio filed by the CMS is
      linked to it. */
  lemma VisibleIff(s: State, id: ContentId)
    requires Reachable(s)
    ensures id in Visible(s.t) <==>
            && id in s.t.contents && s.t.contents[id].status == Published
            && exists url: AssetUrl :: url.CmsUrl? && (id, url) in s.t.links
  {
    ReachableIsInv(s);
    PlayableMeansCms(s.t, id);
    if HasCmsAudio(s.t, id) {
      var l :| l in s.t.links && l.0 == id && l.1.CmsUrl?;
      assert (id, l.1) in s.t.links;
    }
    if url: AssetUrl :| url.CmsUrl? && (id, url) in s.t.links {
      assert (id, url).0 == id;
    }
    hide HasPlayableAudio;
  }

  // ---------- no visible content is missed ----------

  /** After a page below its limit, taken while no smaller sequence was uncommitted, the
      client holds every visible content at its current revision. */
  lemma NoVisibleContentIsMissed(s: State, k: ClientId, id: ContentId)
    requires Reachable(s) && Enabled(s, Poll(k))
    requires |Page(s, ClientOf(s, k).cursor)| < PAGE_LIMIT
    requires id in Visible(s.t)
    ensures var client := Apply(s, Poll(k)).clients[k];
      id in client.held && client.held[id] == s.t.contents[id].revision
  {
    ReachableIsInv(s);
    PollKeepsInv(s, k);
    var client := ClientOf(s, k);
    var s' := Apply(s, Poll(k));
    assert ClientOk(s'.t, s'.log, s'.clients[k]);
    CurrentEventIsLast(s.t, s.log, id);
    var i: nat :| LastRowAt(s.log, i, id);
    assert RowAt(s.log, i, id);
    AfterIsSoundAndSorted(s.log, Visible(s.t), client.cursor, PAGE_LIMIT);
    if i >= client.cursor {
      AfterSkipsNothing(s.log, Visible(s.t), client.cursor, PAGE_LIMIT, i);
    } else if Page(s, client.cursor) != [] {
      assert i < NextCursor(client.cursor, Page(s, client.cursor));
    }
  }

  lemma {:induction false} ReceiveOnlyOwners(log: ChangeLog, owners: set<ContentId>, cursor: nat, limit: nat,
                                             held: map<ContentId, nat>)
    ensures forall id :: id in Receive(held, After(log, owners, cursor, limit)) ==> id in held || id in owners
    decreases |log| - cursor
  {
    var page := After(log, owners, cursor, limit);
    if cursor < |log| && limit > 0 {
      if log[cursor].Row? && log[cursor].owner in owners {
        var head := Numbered(cursor + 1, log[cursor].owner, log[cursor].body);
        assert page[0] == head && page[1..] == After(log, owners, cursor + 1, limit - 1);
        ReceiveOnlyOwners(log, owners, cursor + 1, limit - 1, ReceiveOne(held, head));
      } else {
        ReceiveOnlyOwners(log, owners, cursor + 1, limit, held);
      }
    }
  }

  /** Page by page from cursor 0 over a frozen database, a new client ends up with exactly
      the visible contents, each at its current revision. */
  lemma DrainIsExact(s: State)
    requires Reachable(s)
    ensures Receive(map[], ReadAll(s.log, Visible(s.t), 0, PAGE_LIMIT))
            == map id | id in Visible(s.t) :: s.t.contents[id].revision
  {
    ReachableIsInv(s);
    var owners := Visible(s.t);
    var whole := |s.log| + 1;
    ReadAllIsTheSuffix(s.log, owners, 0, PAGE_LIMIT, whole);
    var page := After(s.log, owners, 0, whole);
    SequencesLeaveRoom(s.log, owners, 0, whole);
    var held := Receive(map[], page);
    ReceiveOnlyOwners(s.log, owners, 0, whole, map[]);
    forall id | id in owners ensures id in held && held[id] == s.t.contents[id].revision {
      CurrentEventIsLast(s.t, s.log, id);
      var k: nat :| LastRowAt(s.log, k, id) && s.log[k] == Row(id, Change(Upsert, s.t.contents[id].revision));
      assert RowAt(s.log, k, id);
      AfterSkipsNothing(s.log, owners, 0, whole, k);
      ReceiveReachesLast(s.log, owners, 0, whole, map[], id, k);
    }
  }

  /** The hypothesis on uncommitted sequences is exactly what is needed. Say a writer holds a
      sequence number, a client polls anyway, and then the writer commits and its content is
      visible. The client's next page (below its limit) brings it up to date on that content
      if and only if its cursor had not run past the number. */
  lemma GapIsWhatLosesContent(s: State, c: CallId, k: ClientId, acknowledged: bool)
    requires Reachable(s) && c in s.calls && s.calls[c].phase.Logged?
    requires s.calls[c].phase.id in Visible(Apply(s, Commit(c, acknowledged)).t)
    requires var polled := AfterPoll(s, ClientOf(s, k));
      |Page(Apply(s, Commit(c, acknowledged)), polled.cursor)| < PAGE_LIMIT
    ensures var polled := AfterPoll(s, ClientOf(s, k));
      var s' := Apply(s, Commit(c, acknowledged));
      var id := s.calls[c].phase.id;
      var held := AfterPoll(s', polled).held;
      polled.cursor <= s.calls[c].phase.slot <==> id in held && held[id] == s'.t.contents[id].revision
  {
    ReachableIsInv(s);
    FilledSlotIsLast(s, c, acknowledged);
    var Logged(id, row, slot) := s.calls[c].phase;
    PollKeepsClient(s.t, s.log, ClientOf(s, k), PAGE_LIMIT);
    var polled := AfterPoll(s, ClientOf(s, k));
    var s' := Apply(s, Commit(c, acknowledged));
    hide Inv, Visible, AfterCommit;
    ReceiveReachesLast(s'.log, Visible(s'.t), polled.cursor, PAGE_LIMIT, polled.held, id, slot);
    if polled.cursor <= slot {
      AfterSkipsNothing(s'.log, Visible(s'.t), polled.cursor, PAGE_LIMIT, slot);
    } else if id in polled.held {
      assert polled.held[id] <= s.t.contents[id].revision < row.revision;
    }
  }

  /** A commit's event is the newest of its content, and outdates the stored row. */
  lemma FilledSlotIsLast(s: State, c: CallId, acknowledged: bool)
    requires Inv(s) && c in s.calls && s.calls[c].phase.Logged?
    ensures var (s', Logged(id, row, slot)) := (Apply(s, Commit(c, acknowledged)), s.calls[c].phase);
      && LastRowAt(s'.log, slot, id) && |s'.log| == |s.log|
      && s'.log[slot] == Row(id, JobChange(s.calls[c].job, row))
      && s'.t.contents == s.t.contents[id := row]
      && (id in s.t.contents ==> s.t.contents[id].revision < row.revision)
  {
    assert CallOk(s.t, s.log, s.calls[c]);
    var (s', Logged(id, row, slot)) := (Apply(s, Commit(c, acknowledged)), s.calls[c].phase);
    CommitTables(s.t, s.calls[c].job, id, row);
    hide JobCommit, LogOk, TablesOk, LocksOk, ClientsOk;
    forall j: nat | RowAt(s'.log, j, id) ensures j <= slot {
      assert j != slot ==> RowAt(s.log, j, id);
    }
  }

  lemma {:induction false} ReceiveSpares(held: map<ContentId, nat>, page: seq<Numbered<ContentId, Change>>,
      id: ContentId)
    requires forall r :: 0 <= r < |page| ==> page[r].owner != id
    ensures var after := Receive(held, page);
      (id in after <==> id in held) && (id in held ==> after[id] == held[id])
    decreases |page|
  {
    if page != [] {
      ReceiveSpares(ReceiveOne(held, page[0]), page[1..], id);
    }
  }

  /** The feed withholds the events of what is not visible, its deletion included: a client
      that holds a content still holds it, at the same revision, after any page read while
      the content is hidden. */
  lemma HidingIsNotSeen(s: State, k: ClientId, id: ContentId)
    requires Reachable(s) && Enabled(s, Poll(k)) && id !in Visible(s.t)
    ensures var (before, after) := (ClientOf(s, k).held, Apply(s, Poll(k)).clients[k].held);
      (id in after <==> id in before) && (id in before ==> after[id] == before[id])
  {
    var client := ClientOf(s, k);
    AfterIsSoundAndSorted(s.log, Visible(s.t), client.cursor, PAGE_LIMIT);
    ReceiveSpares(client.held, Page(s, client.cursor), id);
  }

  /** After a page below its limit a client holds exactly the visible contents, each at its
      current revision, if and only if it held nothing that is not visible. */
  lemma HoldsTheVisibleIff(s: State, k: ClientId)
    requires Reachable(s) && Enabled(s, Poll(k)) && |Page(s, ClientOf(s, k).cursor)| < PAGE_LIMIT
    ensures Apply(s, Poll(k)).clients[k].held == (map id | id in Visible(s.t) :: s.t.contents[id].revision)
            <==> ClientOf(s, k).held.Keys <= Visible(s.t)
  {
    var (before, after) := (ClientOf(s, k).held, Apply(s, Poll(k)).clients[k].held);
    forall id | id in Visible(s.t) ensures id in after && after[id] == s.t.contents[id].revision {
      NoVisibleContentIsMissed(s, k, id);
    }
    forall id | id !in Visible(s.t) ensures id in after <==> id in before {
      HidingIsNotSeen(s, k, id);
    }
  }

  /** A delete event reaches a client only when its content is visible again, and the upsert
      that supersedes it is already in the log. */
  lemma DeletesComeTooLate(s: State, cursor: nat, r: nat)
    requires Reachable(s) && r < |Page(s, cursor)| && Page(s, cursor)[r].body.operation.Delete?
    ensures var row := Page(s, cursor)[r];
      && row.owner in Visible(s.t) && row.body.revision < s.t.contents[row.owner].revision
      && exists k :: row.sequence <= k < |s.log| && s.log[k] ==
          Row(row.owner, Change(Upsert, s.t.contents[row.owner].revision))
  {
    ReachableIsInv(s);
    AfterIsSoundAndSorted(s.log, Visible(s.t), cursor, PAGE_LIMIT);
    var row := Page(s, cursor)[r];
    assert LogOk(s.t, s.log) && row.owner in s.t.contents && s.t.contents[row.owner].status.Published?;
    hide *;
    LaterUpsert(s.t, s.log, row.owner, row.sequence - 1);
  }

  /** A delete event of a published content is outdated by a later upsert. */
  lemma LaterUpsert(t: Tables, log: ChangeLog, id: ContentId, i: nat)
    requires LogOk(t, log) && id in t.contents && t.contents[id].status.Published?
    requires i < |log| && log[i].Row? && log[i].owner == id && log[i].body.operation.Delete?
    ensures log[i].body.revision < t.contents[id].revision
    ensures exists k :: i < k < |log| && log[k] == Row(id, Change(Upsert, t.contents[id].revision))
  {
    CurrentEventIsLast(t, log, id);
    var change := Change(Upsert, t.contents[id].revision);
    var k: nat :| LastRowAt(log, k, id) && log[k] == Row(id, change);
    assert RowAt(log, i, id);
    hide StatusIsLogged, PublicationsAreAnnounced, RevisionsAreStored;
  }

  // ---------- publication is exactly-once per key ----------

  /** All successful answers for a key name the same content and revision, and at most one
      of them is not a duplicate. */
  lemma AnswersAgree(s: State, c: CallId, d: CallId)
    requires Reachable(s) && c in s.calls && d in s.calls && c != d
    requires s.calls[c].job.Cms? && s.calls[d].job.Cms? && s.calls[c].job.key == s.calls[d].job.key
    requires s.calls[c].phase.Finished? && s.calls[c].phase.answer.Ok?
    requires s.calls[d].phase.Finished? && s.calls[d].phase.answer.Ok?
    ensures s.calls[c].phase.answer.content == s.calls[d].phase.answer.content
    ensures s.calls[c].phase.answer.revision == s.calls[d].phase.answer.revision
    ensures s.calls[c].phase.answer.duplicate || s.calls[d].phase.answer.duplicate
  {
    ReachableIsInv(s);
    assert CallOk(s.t, s.log, s.calls[c]) && CallOk(s.t, s.log, s.calls[d]);
    assert Exclusive(s.calls[c], s.calls[d]);
  }

  /** The stored result of a key never changes: what `existing` once answers it answers after
      any further run. */
  lemma {:induction false} StoredResultIsFinal(s: State, steps: seq<Step>, key: Key)
    requires Inv(s) && Runs(s, steps) && Existing(s, key).Some?
    ensures Existing(Outcome(s, steps), key) == Existing(s, key)
    decreases |steps|
  {
    if steps != [] {
      StepKeepsInv(s, steps[0]);
      StepKeepsResult(s, steps[0], key);
      StoredResultIsFinal(Apply(s, steps[0]), steps[1..], key);
    }
  }

  lemma StepKeepsResult(s: State, e: Step, key: Key)
    requires Inv(s) && Enabled(s, e) && Existing(s, key).Some?
    ensures Existing(Apply(s, e), key) == Existing(s, key)
  {
    if e.Commit? {
      var Call(job, phase) := s.calls[e.call];
      assert CallOk(s.t, s.log, s.calls[e.call]);
      CommitTables(s.t, job, phase.id, phase.row);
    } else {
      assert Apply(s, e).t == s.t;
    }
  }

  /** "publication reservation lost" is never answered. */
  lemma ReservationIsNeverLost(s: State, c: CallId)
    requires Reachable(s) && c in s.calls && s.calls[c].phase.Finished?
    ensures s.calls[c].phase.answer != ReservationLost
  {
    ReachableIsInv(s);
    assert CallOk(s.t, s.log, s.calls[c]);
  }

  /** A committed key has exactly one event: the upsert of its content at its revision. */
  lemma OneEventPerKey(s: State, key: Key)
    requires Reachable(s) && key in s.t.publications
    ensures var p := s.t.publications[key];
      exists i :: 0 <= i < |s.log| && s.log[i] == Row(p.content, Change(Upsert, p.revision))
        && forall j :: 0 <= j < |s.log| && j != i && s.log[j].Row? ==>
             s.log[j].owner != p.content || s.log[j].body.revision != p.revision
  {
    ReachableIsInv(s);
    var p := s.t.publications[key];
    assert Announced(s.log, p.content, Change(Upsert, p.revision));
    var i :| 0 <= i < |s.log| && s.log[i] == Row(p.content, Change(Upsert, p.revision));
  }

  predicate CommitsKey(s: State, e: Step, key: Key) {
    e.Commit? && e.call in s.calls && s.calls[e.call].job.Cms? && s.calls[e.call].job.key == key
  }

  predicate CommitsContent(s: State, e: Step, id: ContentId) {
    e.Commit? && e.call in s.calls && HoldsRow(s.calls[e.call]) && s.calls[e.call].phase.id == id
  }

  ghost function KeyCommits(s: State, steps: seq<Step>, key: Key): nat
    requires Runs(s, steps)
    decreases |steps|
  {
    if steps == [] then 0
    else (if CommitsKey(s, steps[0], key) then 1 else 0) + KeyCommits(Apply(s, steps[0]), steps[1..], key)
  }

  ghost function ContentCommits(s: State, steps: seq<Step>, id: ContentId): nat
    requires Runs(s, steps)
    decreases |steps|
  {
    if steps == [] then 0
    else (if CommitsContent(s, steps[0], id) then 1 else 0) + ContentCommits(Apply(s, steps[0]), steps[1..], id)
  }

  function KeyCount(t: Tables, key: Key): nat { if key in t.publications then 1 else 0 }

  function RevisionOf(t: Tables, id: ContentId): nat { if id in t.contents then t.contents[id].revision else 0 }

  lemma StepCounts(s: State, e: Step, key: Key, id: ContentId)
    requires Inv(s) && Enabled(s, e)
    ensures KeyCount(Apply(s, e).t, key) == KeyCount(s.t, key) + if CommitsKey(s, e, key) then 1 else 0
    ensures RevisionOf(Apply(s, e).t, id) == RevisionOf(s.t, id) + if CommitsContent(s, e, id) then 1 else 0
  {
    if e.Commit? {
      var Call(job, phase) := s.calls[e.call];
      assert CallOk(s.t, s.log, s.calls[e.call]);
      CommitTables(s.t, job, phase.id, phase.row);
    } else {
      assert Apply(s, e).t == s.t;
    }
  }

  lemma {:induction false} RunCounts(s: State, steps: seq<Step>, key: Key, id: ContentId)
    requires Inv(s) && Runs(s, steps)
    ensures KeyCount(Outcome(s, steps).t, key) == KeyCount(s.t, key) + KeyCommits(s, steps, key)
    ensures RevisionOf(Outcome(s, steps).t, id) == RevisionOf(s.t, id) + ContentCommits(s, steps, id)
    decreases |steps|
  {
    if steps != [] {
      StepKeepsInv(s, steps[0]);
      StepCounts(s, steps[0], key, id);
      RunCounts(Apply(s, steps[0]), steps[1..], key, id);
    }
  }

  /** However many calls carry a key and however they interleave, abort or lose their
      acknowledgement, one transaction commits for it - or none, if none has yet. */
  lemma KeyCommitsAtMostOnce(steps: seq<Step>, key: Key)
    requires Runs(INITIAL, steps)
    ensures KeyCommits(INITIAL, steps, key) == if key in Outcome(INITIAL, steps).t.publications then 1 else 0
  {
    RunCounts(INITIAL, steps, key, 0);
  }

  /** A content's revision is the number of transactions committed on it. */
  lemma RevisionCountsCommits(steps: seq<Step>, id: ContentId)
    requires Runs(INITIAL, steps)
    ensures ContentCommits(INITIAL, steps, id) == RevisionOf(Outcome(INITIAL, steps).t, id)
  {
    RunCounts(INITIAL, steps, "", id);
  }

  /** The reserving insert waits for an in-flight rival, and goes through if it aborts. */
  lemma AbortedRivalLetsReserve(s: State, c: CallId, rival: CallId)
    requires Reachable(s) && c in s.calls && rival in s.calls && HoldsKey(s.calls[rival])
    requires s.calls[c].job.Cms? && s.calls[c].phase.Stored? && s.calls[c].job.key == s.calls[rival].job.key
    ensures !Enabled(s, Reserve(c))
    ensures Enabled(s, Abort(rival)) && Enabled(Apply(s, Abort(rival)), Reserve(c))
    ensures Apply(Apply(s, Abort(rival)), Reserve(c)).calls[c].phase == Reserved
  {
    ReachableIsInv(s);
    assert CallOk(s.t, s.log, s.calls[rival]);
    OnlyHolder(s, rival);
  }

  lemma OnlyHolder(s: State, rival: CallId)
    requires LocksOk(s.calls) && rival in s.calls && HoldsKey(s.calls[rival])
    ensures forall d :: d in s.calls && d != rival && HoldsKey(s.calls[d]) ==>
        s.calls[d].job.key != s.calls[rival].job.key
  {
    forall d | d in s.calls && d != rival && HoldsKey(s.calls[d]) ensures s.calls[d].job.key != s.calls[rival].job.key {
      assert Exclusive(s.calls[d], s.calls[rival]);
    }
  }

  /** If the rival commits, the insert returns no row and the call answers the rival's
      result as a duplicate. */
  lemma CommittedRivalIsAnswered(s: State, c: CallId, rival: CallId)
    requires Reachable(s) && c in s.calls && rival in s.calls && HoldsKey(s.calls[rival])
    requires s.calls[c].job.Cms? && s.calls[c].phase.Stored? && s.calls[c].job.key == s.calls[rival].job.key
    requires Enabled(s, Commit(rival, true))
    ensures var s1 := Apply(s, Commit(rival, true));
      && Enabled(s1, Reserve(c))
      && var s2 := Apply(s1, Reserve(c));
      && Enabled(s2, Relookup(c))
      && var first := s1.calls[rival].phase.answer;
      && first.Ok? && !first.duplicate
      && Apply(s2, Relookup(c)).calls[c].phase == Finished(first.(duplicate := true))
  {
    ReachableIsInv(s);
    CommitAnswers(s, rival);
    OnlyHolder(s, rival);
    hide Inv, AfterCommit;
    var s1 := Apply(s, Commit(rival, true));
    assert s1.calls[c] == s.calls[c] && KeyFree(s1, s.calls[c].job.key);
    var s2 := Apply(s1, Reserve(c));
    assert s2.calls[c].phase == Conflicted && s2.t == s1.t;
  }

  lemma CommitAnswers(s: State, c: CallId)
    requires Inv(s) && Enabled(s, Commit(c, true)) && s.calls[c].job.Cms?
    ensures var (s', Call(job, phase)) := (Apply(s, Commit(c, true)), s.calls[c]);
      && s'.calls == s.calls[c := Call(job, Finished(Ok(phase.id, phase.row.revision, false)))]
      && s'.t.publications == s.t.publications[job.key := Publication(phase.id, phase.row.revision)]
  {
    assert CallOk(s.t, s.log, s.calls[c]);
    CommitTables(s.t, s.calls[c].job, s.calls[c].phase.id, s.calls[c].phase.row);
    hide JobCommit;
  }

  /** A committed publication is visible, at the revision it answers, with its own audio as
      its only one. */
  lemma PublicationIsVisibleAtOnce(s: State, c: CallId, url: AssetUrl)
    requires Reachable(s) && Enabled(s, Commit(c, true)) && s.calls[c].job.Cms?
    ensures var s' := Apply(s, Commit(c, true));
      var answer := s'.calls[c].phase.answer;
      && answer.Ok?
      && answer.content in Visible(s'.t)
      && s'.t.contents[answer.content].revision == answer.revision
      && ((answer.content, url) in s'.t.links && url in s'.t.assets && s'.t.assets[url].kind.Audio?
          ==> url == s.calls[c].job.document.audio)
  {
    ReachableIsInv(s);
    var Call(job, phase) := s.calls[c];
    assert CallOk(s.t, s.log, s.calls[c]);
    CommitTables(s.t, job, phase.id, phase.row);
    PutRowKeeps(s.t, job, phase.id, phase.row);
    PublishAudioFrame(PutRow(s.t, phase.id, phase.row), phase.id, job.document.audio);
  }

  // ---------- keys and content rows ----------

  /** Keys are taken before content rows, so these two alone form no cycle: in this model,
      which has no other locks, some unfinished call can always take a step of its own. What
      the rows locked later do to that is the subject of RowLocks. */
  lemma KeysAndRowsFormNoCycle(s: State, c: CallId)
    requires Reachable(s) && c in s.calls && !s.calls[c].phase.Finished?
    ensures exists e :: Enabled(s, e) && !e.Begin? && !e.Abort? && !e.Poll?
  {
    if d :| d in s.calls && HoldsRow(s.calls[d]) {
      var row := s.calls[d].phase.row;
      assert Enabled(s, if s.calls[d].phase.Wrote? && Announces(s.calls[d].job, row) then Append(d)
          else Commit(d, true));
    } else if d :| d in s.calls && HoldsKey(s.calls[d]) {
      WriteIsFree(s, d);
    } else {
      ReachableIsInv(s);
      assert CallOk(s.t, s.log, s.calls[c]) && !HoldsRow(s.calls[c]) && !HoldsKey(s.calls[c]);
      var Call(job, phase) := s.calls[c];
      if phase.Started? && !job.Cms? {
        WriteIsFree(s, c);
      } else {
        assert Enabled(s, if phase.Started? then Lookup(c) else if phase.LookedUp? then Upload(c, Stores)
                          else if phase.Stored? then Reserve(c) else Relookup(c));
      }
    }
  }

  lemma WriteIsFree(s: State, c: CallId)
    requires c in s.calls && if s.calls[c].job.Cms? then s.calls[c].phase.Reserved? else s.calls[c].phase.Started?
    requires forall d :: d in s.calls ==> !HoldsRow(s.calls[d])
    ensures exists newId :: Enabled(s, Write(c, newId, 0))
  {
    var newId := NewId(s.t.contents.Keys);
    assert IdFree(s, newId) && Enabled(s, Write(c, newId, 0));
  }

  lemma {:induction false} NewId(ids: set<ContentId>) returns (id: ContentId)
    ensures id !in ids && forall x :: x in ids ==> x < id
    decreases |ids|
  {
    id := 0;
    if ids != {} {
      var x :| x in ids;
      var rest := NewId(ids - {x});
      id := if rest <= x then x + 1 else rest;
      assert forall y :: y in ids ==> y == x || y in ids - {x};
    }
  }
}
