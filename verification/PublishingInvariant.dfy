/** What every step of the catalogue state machine keeps. */
module PublishingInvariant {
  import opened Common
  import opened SequenceLog
  import opened Catalogue
  import opened Publishing

  // ---------- the invariant ----------

  ghost predicate TablesOk(t: Tables) {
    KeysAgree(t) && PublishedIsReleased(t) && OnlyCmsAudioIsPlayable(t)
  }

  ghost predicate Announced(log: ChangeLog, id: ContentId, change: Change) {
    exists i :: 0 <= i < |log| && log[i] == Row(id, change)
  }

  /** Per content, event revisions strictly increase with the sequence number. */
  ghost predicate RevisionsIncrease(log: ChangeLog) {
    forall i, j :: 0 <= i < j < |log| && log[i].Row? && log[j].Row? && log[i].owner == log[j].owner ==>
      log[i].body.revision < log[j].body.revision
  }

  ghost predicate RevisionsAreStored(t: Tables, log: ChangeLog) {
    forall i :: 0 <= i < |log| && log[i].Row? ==>
      log[i].owner in t.contents && 1 <= log[i].body.revision <= t.contents[log[i].owner].revision
  }

  /** A row's status can be told from the log: published and hidden rows were announced at
      their revision, a row back in review was not. */
  ghost predicate StatusIsLogged(t: Tables, log: ChangeLog) {
    forall id :: id in t.contents ==>
      match t.contents[id].status
      case Published => Announced(log, id, Change(Upsert, t.contents[id].revision))
      case Hidden => Announced(log, id, Change(Delete, t.contents[id].revision))
      case Review => forall i :: 0 <= i < |log| && log[i].Row? && log[i].owner == id ==>
                       log[i].body.revision < t.contents[id].revision
      case _ => false
  }

  ghost predicate PublicationsAreAnnounced(t: Tables, log: ChangeLog) {
    forall k :: k in t.publications ==>
      Announced(log, t.publications[k].content, Change(Upsert, t.publications[k].revision))
  }

  ghost predicate LogOk(t: Tables, log: ChangeLog) {
    && RevisionsIncrease(log)
    && RevisionsAreStored(t, log)
    && StatusIsLogged(t, log)
    && PublicationsAreAnnounced(t, log)
  }

  /** The row a writer holds still follows the stored one. */
  ghost predicate PendingRow(t: Tables, job: Job, id: ContentId, row: Content) {
    && (if row.source in t.bySource
        then id == t.bySource[row.source] && id in t.contents && row.revision == t.contents[id].revision + 1
        else id !in t.contents && row.revision == 1)
    && (row.status.Published? ==> row.releasedAt.Some?)
    && (job.Cms? ==> row.status.Published? && row.source == job.document.source)
    && (job.Ingest? ==>
          row.source == job.source && row.status == if job.rights == PublicDomainVerified then Published else Review)
    && (job.Admin? ==> id == job.id && row.status == if job.toHidden then Hidden else Published)
  }

  ghost predicate PendingSlot(log: ChangeLog, id: ContentId, slot: nat) {
    && slot < |log| && log[slot].Empty?
    && forall j: nat :: RowAt(log, j, id) ==> j < slot
  }

  ghost predicate CallOk(t: Tables, log: ChangeLog, c: Call) {
    && JobIsPosted(c.job)
    && (c.phase.LookedUp? || c.phase.Stored? || c.phase.Reserved? ==> c.job.Cms?)
    && (HoldsKey(c) ==> c.job.key !in t.publications)
    && (HoldsRow(c) ==> PendingRow(t, c.job, c.phase.id, c.phase.row))
    && (match c.phase
        case Logged(id, row, slot) => PendingSlot(log, id, slot) && Announces(c.job, row)
        case Conflicted => c.job.Cms? && c.job.key in t.publications
        case Finished(answer) =>
          && answer != ReservationLost
          && (c.job.Cms? && answer.Ok? ==>
                && c.job.key in t.publications
                && t.publications[c.job.key] == Publication(answer.content, answer.revision))
        case _ => true)
  }

  /** A CMS call answered as the first to publish its key. */
  predicate AnswersFirst(c: Call) {
    c.job.Cms? && c.phase.Finished? && c.phase.answer.Ok? && !c.phase.answer.duplicate
  }

  ghost predicate Exclusive(c: Call, d: Call) {
    && (HoldsRow(c) && HoldsRow(d) ==> c.phase.row.source != d.phase.row.source && c.phase.id != d.phase.id)
    && (HoldsKey(c) && HoldsKey(d) ==> c.job.key != d.job.key)
    && (c.phase.Logged? && d.phase.Logged? ==> c.phase.slot != d.phase.slot)
    && (AnswersFirst(c) && AnswersFirst(d) ==> c.job.key != d.job.key)
  }

  ghost predicate LocksOk(calls: map<CallId, Call>) {
    forall c, d :: c in calls && d in calls && c != d ==> Exclusive(calls[c], calls[d])
  }

  /** A visible content whose newest event the cursor has passed is held as it is now. */
  ghost predicate ClientOk(t: Tables, log: ChangeLog, client: Client) {
    && client.cursor <= |log|
    && (forall id :: id in client.held ==> id in t.contents && client.held[id] <= t.contents[id].revision)
    && forall id, k: nat :: id in Visible(t) && k < client.cursor && LastRowAt(log, k, id) ==>
         id in client.held && client.held[id] == t.contents[id].revision
  }

  ghost predicate ClientsOk(s: State) {
    forall k :: k in s.clients ==> ClientOk(s.t, s.log, s.clients[k]) && NoGapBelow(s, s.clients[k].cursor)
  }

  ghost predicate CallsOk(s: State) {
    forall c :: c in s.calls ==> CallOk(s.t, s.log, s.calls[c])
  }

  ghost predicate Inv(s: State) {
    TablesOk(s.t) && LogOk(s.t, s.log) && CallsOk(s) && LocksOk(s.calls) && ClientsOk(s)
  }

  // ---------- steps that only move one call ----------

  /** A phase that takes no lock and no sequence number. */
  predicate Plain(phase: Phase) { !phase.Reserved? && !phase.Wrote? && !phase.Logged? }

  lemma PlainPhaseKeepsInv(s: State, c: CallId, job: Job, phase: Phase)
    requires Inv(s) && Plain(phase)
    requires CallOk(s.t, s.log, Call(job, phase)) && !AnswersFirst(Call(job, phase))
    ensures Inv(s.(calls := s.calls[c := Call(job, phase)]))
  {
    var s' := s.(calls := s.calls[c := Call(job, phase)]);
    forall k | k in s'.clients ensures NoGapBelow(s', s'.clients[k].cursor) {
      assert NoGapBelow(s, s.clients[k].cursor);
    }
    forall d, e | d in s'.calls && e in s'.calls && d != e ensures Exclusive(s'.calls[d], s'.calls[e]) {
      if d != c && e != c { assert Exclusive(s.calls[d], s.calls[e]); }
    }
  }

  lemma ReserveKeepsInv(s: State, c: CallId)
    requires Inv(s) && Enabled(s, Reserve(c))
    ensures Inv(Apply(s, Reserve(c)))
  {
    var job := s.calls[c].job;
    if job.key in s.t.publications {
      PlainPhaseKeepsInv(s, c, job, Conflicted);
    } else {
      var s' := Apply(s, Reserve(c));
      forall k | k in s'.clients ensures NoGapBelow(s', s'.clients[k].cursor) {
        assert NoGapBelow(s, s.clients[k].cursor);
      }
      forall d, e | d in s'.calls && e in s'.calls && d != e ensures Exclusive(s'.calls[d], s'.calls[e]) {
        if d != c && e != c { assert Exclusive(s.calls[d], s.calls[e]); }
      }
    }
  }

  /** What a writer is about to store follows the stored row. */
  lemma JobRowFollows(t: Tables, job: Job, newId: ContentId, now: Time)
    requires TablesOk(t) && JobSource(t, job).Some? && newId !in t.contents
    ensures var (id, row) := JobRow(t, job, newId, now);
      && row.source == JobSource(t, job).value
      && (row.source !in t.bySource ==> id == newId)
      && PendingRow(t, job, id, row)
  {
  }

  /** Two pending rows of different sources have different ids, new ids included. */
  lemma PendingIdsDiffer(s: State, c: CallId, id: ContentId, row: Content, newId: ContentId)
    requires KeysAgree(s.t) && c in s.calls && HoldsRow(s.calls[c]) && IdFree(s, newId)
    requires PendingRow(s.t, s.calls[c].job, s.calls[c].phase.id, s.calls[c].phase.row)
    requires row.source in s.t.bySource ==> id == s.t.bySource[row.source]
    requires row.source !in s.t.bySource ==> id == newId
    requires s.calls[c].phase.row.source != row.source
    ensures s.calls[c].phase.id != id
  {
  }

  lemma WriteKeepsInv(s: State, c: CallId, newId: ContentId, now: Time)
    requires Inv(s) && Enabled(s, Write(c, newId, now))
    ensures Inv(Apply(s, Write(c, newId, now)))
  {
    var job := s.calls[c].job;
    assert CallOk(s.t, s.log, s.calls[c]);
    if JobSource(s.t, job).None? {
      PlainPhaseKeepsInv(s, c, job, Finished(NotFound));
    } else {
      JobRowFollows(s.t, job, newId, now);
      var (id, row) := JobRow(s.t, job, newId, now);
      forall d | d in s.calls && d != c && HoldsRow(s.calls[d])
        ensures s.calls[d].phase.row.source != row.source && s.calls[d].phase.id != id
      {
        assert CallOk(s.t, s.log, s.calls[d]);
        PendingIdsDiffer(s, d, id, row, newId);
      }
      TakingARowKeepsInv(s, c, id, row);
    }
  }

  lemma TakingARowKeepsInv(s: State, c: CallId, id: ContentId, row: Content)
    requires Inv(s) && c in s.calls && PendingRow(s.t, s.calls[c].job, id, row)
    requires if s.calls[c].job.Cms? then s.calls[c].phase.Reserved? else s.calls[c].phase.Started?
    requires forall d :: d in s.calls && d != c && HoldsRow(s.calls[d]) ==>
      s.calls[d].phase.row.source != row.source && s.calls[d].phase.id != id
    ensures Inv(SetPhase(s, c, Wrote(id, row)))
  {
    var s' := SetPhase(s, c, Wrote(id, row));
    assert CallOk(s.t, s.log, s.calls[c]);
    forall d, e | d in s'.calls && e in s'.calls && d != e ensures Exclusive(s'.calls[d], s'.calls[e]) {
      assert Exclusive(s.calls[d], s.calls[e]);
    }
    forall k | k in s'.clients ensures NoGapBelow(s', s'.clients[k].cursor) {
      assert NoGapBelow(s, s.clients[k].cursor);
    }
  }

  lemma AppendKeepsLog(t: Tables, log: ChangeLog)
    requires LogOk(t, log)
    ensures LogOk(t, log + [Empty])
    ensures forall j: nat, id :: RowAt(log + [Empty], j, id) <==> RowAt(log, j, id)
    ensures forall j: nat, id :: LastRowAt(log + [Empty], j, id) <==> LastRowAt(log, j, id)
  {
    var log' := log + [Empty];
    assert forall j: nat, id :: RowAt(log', j, id) <==> RowAt(log, j, id);
    forall id: ContentId, change | Announced(log, id, change) ensures Announced(log', id, change) {
      var i :| 0 <= i < |log| && log[i] == Row(id, change);
      assert log'[i] == Row(id, change);
    }
  }

  lemma AppendKeepsInv(s: State, c: CallId)
    requires Inv(s) && Enabled(s, Append(c))
    ensures Inv(Apply(s, Append(c)))
  {
    var s' := Apply(s, Append(c));
    assert CallOk(s.t, s.log, s.calls[c]);
    AppendKeepsLog(s.t, s.log);
    AppendKeepsCalls(s, c);
    forall k | k in s'.clients ensures ClientOk(s'.t, s'.log, s'.clients[k]) && NoGapBelow(s', s'.clients[k].cursor) {
      assert ClientOk(s.t, s.log, s.clients[k]) && NoGapBelow(s, s.clients[k].cursor);
    }
  }

  lemma AppendKeepsCalls(s: State, c: CallId)
    requires Inv(s) && Enabled(s, Append(c))
    ensures CallsOk(Apply(s, Append(c))) && LocksOk(Apply(s, Append(c)).calls)
  {
    var s' := Apply(s, Append(c));
    forall d | d in s'.calls ensures CallOk(s'.t, s'.log, s'.calls[d]) {
      assert CallOk(s.t, s.log, s.calls[d]);
      if d != c { AppendKeepsCall(s.t, s.log, s.calls[d]); }
    }
    forall d, e | d in s'.calls && e in s'.calls && d != e ensures Exclusive(s'.calls[d], s'.calls[e]) {
      assert Exclusive(s.calls[d], s.calls[e]);
      assert CallOk(s.t, s.log, s.calls[d]) && CallOk(s.t, s.log, s.calls[e]);
    }
  }

  lemma AppendKeepsCall(t: Tables, log: ChangeLog, d: Call)
    requires CallOk(t, log, d)
    ensures CallOk(t, log + [Empty], d)
  {
    assert forall j: nat, id :: RowAt(log + [Empty], j, id) <==> RowAt(log, j, id);
  }

  // ---------- commit ----------

  lemma PutRowKeeps(t: Tables, job: Job, id: ContentId, row: Content)
    requires TablesOk(t) && PendingRow(t, job, id, row)
    ensures TablesOk(PutRow(t, id, row))
    ensures forall d :: HasCmsAudio(PutRow(t, id, row), d) <==> HasCmsAudio(t, d)
  {
    var p := PutRow(t, id, row);
    assert p.links == t.links;
    forall d ensures HasCmsAudio(p, d) <==> HasCmsAudio(t, d) {}
  }

  /** Commit writes one content row and the caller's publication. */
  lemma CommitRows(t: Tables, job: Job, id: ContentId, row: Content)
    requires TablesOk(t) && JobIsPosted(job) && PendingRow(t, job, id, row)
    ensures var t' := JobCommit(t, job, id, row);
      && TablesOk(t')
      && t'.contents == t.contents[id := row]
      && t'.bySource == t.bySource[row.source := id]
      && t'.publications == (if job.Cms? then t.publications[job.key := Publication(id, row.revision)]
          else t.publications)
      && (forall d :: d != id ==> (HasCmsAudio(t', d) <==> HasCmsAudio(t, d)))
      && (job.Cms? ==> HasCmsAudio(t', id))
  {
    var p := PutRow(t, id, row);
    PutRowKeeps(t, job, id, row);
    match job {
      case Cms(key, document) =>
        var q := PublishAudio(p, id, document.audio);
        PublishAudioFrame(p, id, document.audio);
        var t' := JobCommit(t, job, id, row);
        assert t' == q.(publications := t'.publications);
        forall d ensures HasCmsAudio(t', d) <==> HasCmsAudio(q, d) {}
      case Ingest(_, rights, parsed) => IngestAssetsFrame(p, id, rights, parsed);
      case Admin(_, _) =>
    }
  }

  /** Commit changes nobody else's visibility, and a publication is visible at once. */
  lemma CommitTables(t: Tables, job: Job, id: ContentId, row: Content)
    requires TablesOk(t) && JobIsPosted(job) && PendingRow(t, job, id, row)
    ensures var t' := JobCommit(t, job, id, row);
      && TablesOk(t')
      && t'.contents == t.contents[id := row]
      && t'.bySource == t.bySource[row.source := id]
      && t'.publications == (if job.Cms? then t.publications[job.key := Publication(id, row.revision)]
          else t.publications)
      && (forall d :: d != id ==> (d in Visible(t') <==> d in Visible(t)))
      && (job.Cms? ==> id in Visible(t'))
  {
    var t' := JobCommit(t, job, id, row);
    CommitRows(t, job, id, row);
    forall d ensures HasPlayableAudio(t, d) <==> HasCmsAudio(t, d) { PlayableMeansCms(t, d); }
    forall d ensures HasPlayableAudio(t', d) <==> HasCmsAudio(t', d) { PlayableMeansCms(t', d); }
  }

  function FillSlot(log: ChangeLog, job: Job, id: ContentId, row: Content, slot: Option<nat>): ChangeLog
    requires slot.Some? ==> slot.value < |log|
  {
    if slot.Some? then log[slot.value := Row(id, JobChange(job, row))] else log
  }

  lemma FillKeepsEvents(log: ChangeLog, job: Job, id: ContentId, row: Content, slot: Option<nat>)
    requires slot.Some? ==> PendingSlot(log, id, slot.value)
    ensures var log' := FillSlot(log, job, id, row, slot);
      && (forall d: ContentId, change :: Announced(log, d, change) ==> Announced(log', d, change))
      && (slot.Some? ==> Announced(log', id, JobChange(job, row)))
  {
    var log' := FillSlot(log, job, id, row, slot);
    forall d: ContentId, change | Announced(log, d, change) ensures Announced(log', d, change) {
      var i :| 0 <= i < |log| && log[i] == Row(d, change);
      assert log'[i] == Row(d, change);
    }
    if slot.Some? { assert log'[slot.value] == Row(id, JobChange(job, row)); }
  }

  lemma FillKeepsRevisions(t: Tables, log: ChangeLog, t': Tables, job: Job, id: ContentId, row: Content,
      slot: Option<nat>)
    requires LogOk(t, log) && PendingRow(t, job, id, row)
    requires slot.Some? ==> PendingSlot(log, id, slot.value)
    requires t'.contents == t.contents[id := row]
    ensures var log' := FillSlot(log, job, id, row, slot); RevisionsIncrease(log') && RevisionsAreStored(t', log')
  {
    forall i: nat | slot.Some? && i < |log| && log[i].Row? && log[i].owner == id ensures i < slot.value {
      assert RowAt(log, i, id);
    }
  }

  lemma FillKeepsStatus(t: Tables, log: ChangeLog, t': Tables, job: Job, id: ContentId, row: Content, slot: Option<nat>)
    requires LogOk(t, log) && PendingRow(t, job, id, row)
    requires slot.Some? <==> Announces(job, row)
    requires slot.Some? ==> PendingSlot(log, id, slot.value)
    requires t'.contents == t.contents[id := row]
    ensures StatusIsLogged(t', FillSlot(log, job, id, row, slot))
  {
    var log' := FillSlot(log, job, id, row, slot);
    FillKeepsEvents(log, job, id, row, slot);
    forall d | d in t'.contents && d != id && t'.contents[d].status.Review?
      ensures forall i :: 0 <= i < |log'| && log'[i].Row? && log'[i].owner == d ==>
                log'[i].body.revision < t'.contents[d].revision
    {
      assert forall i :: 0 <= i < |log'| && log'[i].Row? && log'[i].owner == d ==> log'[i] == log[i];
    }
  }

  lemma CommitLog(t: Tables, log: ChangeLog, job: Job, id: ContentId, row: Content, slot: Option<nat>)
    requires TablesOk(t) && LogOk(t, log) && JobIsPosted(job) && PendingRow(t, job, id, row)
    requires slot.Some? <==> Announces(job, row)
    requires slot.Some? ==> PendingSlot(log, id, slot.value)
    ensures LogOk(JobCommit(t, job, id, row), FillSlot(log, job, id, row, slot))
  {
    var t' := JobCommit(t, job, id, row);
    CommitTables(t, job, id, row);
    hide JobCommit, TablesOk;
    FillKeepsEvents(log, job, id, row, slot);
    FillKeepsRevisions(t, log, t', job, id, row, slot);
    FillKeepsStatus(t, log, t', job, id, row, slot);
    hide StatusIsLogged, RevisionsAreStored, RevisionsIncrease, FillSlot, Announced;
  }

  /** Another call's obligations survive a commit: it holds another row and another key. */
  lemma CommitKeepsCall(t: Tables, log: ChangeLog, t': Tables, log': ChangeLog, c: Call, d: Call)
    requires CallOk(t, log, c) && CallOk(t, log, d) && Exclusive(c, d) && HoldsRow(c)
    requires t'.contents == t.contents[c.phase.id := c.phase.row]
    requires t'.bySource == t.bySource[c.phase.row.source := c.phase.id]
    requires t'.publications == if c.job.Cms? then t.publications[c.job.key := Publication(c.phase.id,
        c.phase.row.revision)] else t.publications
    requires log' == if c.phase.Logged? then log[c.phase.slot := Row(c.phase.id, JobChange(c.job, c.phase.row))]
        else log
    ensures CallOk(t', log', d)
  {
    if d.phase.Logged? {
      assert forall j: nat :: RowAt(log', j, d.phase.id) ==> RowAt(log, j, d.phase.id);
    }
  }

  lemma AnswerIsStored(t: Tables, log: ChangeLog, job: Job, id: ContentId, row: Content, acknowledged: bool)
    requires JobIsPosted(job)
    requires job.Cms? ==> job.key in t.publications && t.publications[job.key] == Publication(id, row.revision)
    ensures CallOk(t, log, Call(job, Finished(JobAnswer(id, row, acknowledged))))
  {
  }

  lemma CommitFinishes(s: State, c: CallId, acknowledged: bool)
    requires Inv(s) && Enabled(s, Commit(c, acknowledged))
    ensures var (s', phase) := (Apply(s, Commit(c, acknowledged)), s.calls[c].phase);
      && CallOk(s.t, s.log, s.calls[c]) && CallOk(s'.t, s'.log, s'.calls[c])
      && s'.calls == s.calls[c := Call(s.calls[c].job, Finished(JobAnswer(phase.id, phase.row, acknowledged)))]
  {
    assert CallOk(s.t, s.log, s.calls[c]);
    var (s', Call(job, phase)) := (Apply(s, Commit(c, acknowledged)), s.calls[c]);
    CommitTables(s.t, job, phase.id, phase.row);
    AnswerIsStored(s'.t, s'.log, job, phase.id, phase.row, acknowledged);
    hide JobCommit, TablesOk, LogOk, PendingRow, LocksOk, ClientsOk, Visible, CallOk, JobAnswer;
  }

  lemma CommitCalls(s: State, c: CallId, acknowledged: bool)
    requires Inv(s) && Enabled(s, Commit(c, acknowledged))
    ensures CallsOk(Apply(s, Commit(c, acknowledged)))
  {
    var s' := Apply(s, Commit(c, acknowledged));
    CommitFinishes(s, c, acknowledged);
    CommitTables(s.t, s.calls[c].job, s.calls[c].phase.id, s.calls[c].phase.row);
    forall d | d in s'.calls && d != c ensures CallOk(s'.t, s'.log, s'.calls[d]) {
      assert CallOk(s.t, s.log, s.calls[d]) && Exclusive(s.calls[c], s.calls[d]);
      hide JobCommit, TablesOk, LogOk, ClientsOk, Visible, CallOk, Exclusive;
      CommitKeepsCall(s.t, s.log, s'.t, s'.log, s.calls[c], s.calls[d]);
    }
  }

  lemma CommitLocks(s: State, c: CallId, done: Call)
    requires CallsOk(s) && LocksOk(s.calls) && c in s.calls && HoldsRow(s.calls[c])
    requires done.job == s.calls[c].job && done.phase.Finished?
    ensures LocksOk(s.calls[c := done])
  {
    var calls' := s.calls[c := done];
    forall d, e | d in calls' && e in calls' && d != e ensures Exclusive(calls'[d], calls'[e]) {
      assert Exclusive(s.calls[d], s.calls[e]);
      assert CallOk(s.t, s.log, s.calls[d]) && CallOk(s.t, s.log, s.calls[e]);
    }
  }

  /** The newest event of the committed content sits in the slot just filled, which no cursor
      has passed. */
  lemma CommitKeepsClient(t: Tables, log: ChangeLog, t': Tables, log': ChangeLog, c: Call, client: Client)
    requires CallOk(t, log, c) && (c.phase.Logged? || (c.phase.Wrote? && !Announces(c.job, c.phase.row)))
    requires ClientOk(t, log, client) && (c.phase.Logged? ==> client.cursor <= c.phase.slot)
    requires t'.contents == t.contents[c.phase.id := c.phase.row]
    requires forall d :: d != c.phase.id ==> (d in Visible(t') <==> d in Visible(t))
    requires log' == if c.phase.Logged? then log[c.phase.slot := Row(c.phase.id, JobChange(c.job, c.phase.row))]
        else log
    ensures ClientOk(t', log', client)
  {
    var mine := c.phase.id;
    assert c.phase.Logged? ==> RowAt(log', c.phase.slot, mine);
    assert mine in Visible(t') ==> c.phase.Logged?;
    hide Visible;
    forall id, i: nat | id in Visible(t') && i < client.cursor && LastRowAt(log', i, id)
      ensures id in client.held && client.held[id] == t'.contents[id].revision
    {
      assert id != mine;
      assert forall j: nat :: RowAt(log', j, id) <==> RowAt(log, j, id);
      assert LastRowAt(log, i, id);
    }
  }

  lemma CommitClients(s: State, c: CallId, acknowledged: bool)
    requires Inv(s) && Enabled(s, Commit(c, acknowledged))
    ensures ClientsOk(Apply(s, Commit(c, acknowledged)))
  {
    var s' := Apply(s, Commit(c, acknowledged));
    var Call(job, phase) := s.calls[c];
    assert CallOk(s.t, s.log, s.calls[c]);
    CommitTables(s.t, job, phase.id, phase.row);
    hide JobCommit, TablesOk, LogOk, LocksOk, Visible, RowFree;
    forall k | k in s'.clients ensures ClientOk(s'.t, s'.log, s'.clients[k]) && NoGapBelow(s', s'.clients[k].cursor) {
      CommitKeepsClient(s.t, s.log, s'.t, s'.log, s.calls[c], s.clients[k]);
      hide ClientOk, CallOk;
    }
  }

  lemma CommitKeepsInv(s: State, c: CallId, acknowledged: bool)
    requires Inv(s) && Enabled(s, Commit(c, acknowledged))
    ensures Inv(Apply(s, Commit(c, acknowledged)))
  {
    var Call(job, phase) := s.calls[c];
    assert CallOk(s.t, s.log, s.calls[c]);
    CommitTables(s.t, job, phase.id, phase.row);
    CommitLog(s.t, s.log, job, phase.id, phase.row, if phase.Logged? then Some(phase.slot) else None);
    CommitCalls(s, c, acknowledged);
    CommitFinishes(s, c, acknowledged);
    CommitLocks(s, c, Apply(s, Commit(c, acknowledged)).calls[c]);
    CommitClients(s, c, acknowledged);
  }

  // ---------- poll ----------

  /** Handling a page leaves a content at its newest event when the page reaches it, and
      untouched when the cursor was already past it. */
  lemma {:induction false} ReceiveReachesLast(log: ChangeLog, owners: set<ContentId>, cursor: nat, limit: nat,
                                              held: map<ContentId, nat>, id: ContentId, k: nat)
    requires LastRowAt(log, k, id) && id in owners
    ensures var page := After(log, owners, cursor, limit);
      var held' := Receive(held, page);
      && (k < cursor ==> (id in held' <==> id in held) && (id in held ==> held'[id] == held[id]))
      && (cursor <= k < NextCursor(cursor, page) ==>
            if log[k].body.operation.Upsert? then id in held' && held'[id] == log[k].body.revision else id !in held')
    decreases |log| - cursor
  {
    var page := After(log, owners, cursor, limit);
    if cursor < |log| && limit > 0 {
      if log[cursor].Row? && log[cursor].owner in owners {
        var head := Numbered(cursor + 1, log[cursor].owner, log[cursor].body);
        var rest := After(log, owners, cursor + 1, limit - 1);
        assert page[0] == head && page[1..] == rest;
        ReceiveReachesLast(log, owners, cursor + 1, limit - 1, ReceiveOne(held, head), id, k);
        if k < cursor { assert !RowAt(log, cursor, id); }
      } else {
        ReceiveReachesLast(log, owners, cursor + 1, limit, held, id, k);
        assert RowAt(log, k, id);
        AfterIsSoundAndSorted(log, owners, cursor + 1, limit);
      }
    }
  }

  /** The newest event of a visible content carries its current revision, as an upsert. */
  lemma LastEventIsCurrent(t: Tables, log: ChangeLog, id: ContentId, k: nat)
    requires LogOk(t, log) && id in t.contents && t.contents[id].status.Published? && LastRowAt(log, k, id)
    ensures log[k] == Row(id, Change(Upsert, t.contents[id].revision))
  {
    assert Announced(log, id, Change(Upsert, t.contents[id].revision));
    var i :| 0 <= i < |log| && log[i] == Row(id, Change(Upsert, t.contents[id].revision));
    assert RowAt(log, i, id);
  }

  /** A client never holds a revision the catalogue has not reached. */
  lemma {:induction false} ReceiveStaysStored(t: Tables, log: ChangeLog, owners: set<ContentId>, cursor: nat,
      limit: nat,
                                              held: map<ContentId, nat>)
    requires RevisionsAreStored(t, log)
    requires forall id :: id in held ==> id in t.contents && held[id] <= t.contents[id].revision
    ensures var held' := Receive(held, After(log, owners, cursor, limit));
      forall id :: id in held' ==> id in t.contents && held'[id] <= t.contents[id].revision
    decreases |log| - cursor
  {
    var page := After(log, owners, cursor, limit);
    if cursor < |log| && limit > 0 {
      if log[cursor].Row? && log[cursor].owner in owners {
        var head := Numbered(cursor + 1, log[cursor].owner, log[cursor].body);
        assert page[0] == head && page[1..] == After(log, owners, cursor + 1, limit - 1);
        ReceiveStaysStored(t, log, owners, cursor + 1, limit - 1, ReceiveOne(held, head));
      } else {
        ReceiveStaysStored(t, log, owners, cursor + 1, limit, held);
      }
    }
  }

  lemma PollKeepsClient(t: Tables, log: ChangeLog, client: Client, limit: nat)
    requires LogOk(t, log) && ClientOk(t, log, client)
    ensures var page := After(log, Visible(t), client.cursor, limit);
      ClientOk(t, log, Client(NextCursor(client.cursor, page), Receive(client.held, page)))
  {
    var page := After(log, Visible(t), client.cursor, limit);
    AfterIsSoundAndSorted(log, Visible(t), client.cursor, limit);
    ReceiveStaysStored(t, log, Visible(t), client.cursor, limit, client.held);
    forall id, k: nat | id in Visible(t) && k < NextCursor(client.cursor, page) && LastRowAt(log, k, id)
      ensures var held := Receive(client.held, page); id in held && held[id] == t.contents[id].revision
    {
      LastEventIsCurrent(t, log, id, k);
      ReceiveReachesLast(log, Visible(t), client.cursor, limit, client.held, id, k);
    }
  }

  lemma PollKeepsInv(s: State, k: ClientId)
    requires Inv(s) && Enabled(s, Poll(k))
    ensures Inv(Apply(s, Poll(k)))
  {
    var s' := Apply(s, Poll(k));
    var client := ClientOf(s, k);
    assert ClientOk(s.t, s.log, client);
    PollKeepsClient(s.t, s.log, client, PAGE_LIMIT);
    forall j | j in s'.clients ensures ClientOk(s'.t, s'.log, s'.clients[j]) && NoGapBelow(s', s'.clients[j].cursor) {
      if j != k { assert ClientOk(s.t, s.log, s.clients[j]) && NoGapBelow(s, s.clients[j].cursor); }
    }
  }

  // ---------- every step, every run ----------

  lemma LookupKeepsInv(s: State, c: CallId)
    requires Inv(s) && Enabled(s, Lookup(c))
    ensures Inv(Apply(s, Lookup(c)))
  {
    var phase := Apply(s, Lookup(c)).calls[c].phase;
    assert CallOk(s.t, s.log, s.calls[c]);
    hide TablesOk, LogOk, LocksOk, ClientsOk;
    PlainPhaseKeepsInv(s, c, s.calls[c].job, phase);
  }

  lemma RelookupKeepsInv(s: State, c: CallId)
    requires Inv(s) && Enabled(s, Relookup(c))
    ensures Inv(Apply(s, Relookup(c)))
  {
    var phase := Apply(s, Relookup(c)).calls[c].phase;
    assert CallOk(s.t, s.log, s.calls[c]);
    hide TablesOk, LogOk, LocksOk, ClientsOk;
    PlainPhaseKeepsInv(s, c, s.calls[c].job, phase);
  }

  lemma StepKeepsInv(s: State, e: Step)
    requires Inv(s) && Enabled(s, e)
    ensures Inv(Apply(s, e))
  {
    hide TablesOk, LogOk, LocksOk, ClientsOk;
    match e {
      case Begin(c, job) => PlainPhaseKeepsInv(s, c, job, Started);
      case Lookup(c) => LookupKeepsInv(s, c);
      case Upload(c, _) =>
        assert CallOk(s.t, s.log, s.calls[c]);
        PlainPhaseKeepsInv(s, c, s.calls[c].job, Apply(s, e).calls[c].phase);
      case Reserve(c) => ReserveKeepsInv(s, c);
      case Relookup(c) => RelookupKeepsInv(s, c);
      case Write(c, newId, now) => WriteKeepsInv(s, c, newId, now);
      case Append(c) => AppendKeepsInv(s, c);
      case Commit(c, acknowledged) => CommitKeepsInv(s, c, acknowledged);
      case Abort(c) =>
        assert CallOk(s.t, s.log, s.calls[c]);
        PlainPhaseKeepsInv(s, c, s.calls[c].job, Finished(Failed));
      case Poll(k) => PollKeepsInv(s, k);
    }
  }

  lemma {:induction false} RunKeepsInv(s: State, steps: seq<Step>)
    requires Inv(s) && Runs(s, steps)
    ensures Inv(Outcome(s, steps))
    decreases |steps|
  {
    if steps != [] {
      StepKeepsInv(s, steps[0]);
      RunKeepsInv(Apply(s, steps[0]), steps[1..]);
    }
  }

  /** Every state any interleaving reaches satisfies the invariant. */
  lemma ReachableIsInv(s: State)
    requires Reachable(s)
    ensures Inv(s)
  {
    var steps :| Runs(INITIAL, steps) && Outcome(INITIAL, steps) == s;
    RunKeepsInv(INITIAL, steps);
  }
}
