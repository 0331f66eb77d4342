/** What each writer of the catalogue leaves in its row, over every run: the state, the
    rights, the revision and the release time, in terms of the row it replaces and of the
    clock its first statement read. */
module CatalogueWrites {
  import opened Common
  import opened SequenceLog
  import opened Catalogue
  import opened Publishing
  import opened PublishingInvariant
  import opened CatalogueTheorems
  import opened ContentPages

  /** The clock reading of a call's last content write. */
  function WriteTime(steps: seq<Step>, c: CallId): Option<Time> {
    if steps == [] then None
    else
      var last := steps[|steps| - 1];
      if last.Write? && last.call == c then Some(last.now) else WriteTime(steps[..|steps| - 1], c)
  }

  /** The row under a source item. */
  function StoredRow(t: Tables, source: SourceId): Option<Content> {
    if source in t.bySource && t.bySource[source] in t.contents then Some(t.contents[t.bySource[source]]) else None
  }

  /** The release time moves when a row becomes published, and only then. */
  predicate ReleaseMoves(before: Option<Content>, row: Content, now: Time) {
    if row.status == Published && (before.None? || before.value.status != Published) then row.releasedAt == Some(now)
    else if before.Some? then row.releasedAt == before.value.releasedAt
    else row.releasedAt.None?
  }

  /** What a writer that read the clock at `now` puts in place of `before`. */
  predicate Replaces(before: Option<Content>, job: Job, row: Content, now: Time) {
    && row.revision == (if before.Some? then before.value.revision + 1 else 1)
    && (before.Some? ==> row.source == before.value.source)
    && match job
       case Cms(_, document) =>
         && row.source == document.source && row.status == Published && row.releasedAt == Some(now)
         && row.rights == (if before.Some? then before.value.rights else ReviewRequired)
       case Ingest(source, rights, _) =>
         && row.source == source && row.rights == rights
         && (row.status == Published <==> rights == PublicDomainVerified)
         && (row.status == Review <==> rights != PublicDomainVerified)
         && ReleaseMoves(before, row, now)
       case Admin(id, toHidden) =>
         && before.Some? && row.rights == before.value.rights
         && row.status == (if toHidden then Hidden else Published)
         && ReleaseMoves(before, row, now)
  }

  /** Every call between its write and its commit holds what it wrote, and the row it read
      is still the stored one. */
  ghost predicate WritesKept(s: State, past: seq<Step>) {
    forall c :: c in s.calls && HoldsRow(s.calls[c]) ==> WriteKept(s.t, s.calls[c], WriteTime(past, c))
  }

  ghost predicate WriteKept(t: Tables, call: Call, at: Option<Time>)
    requires HoldsRow(call)
  {
    at.Some? && Replaces(StoredRow(t, call.phase.row.source), call.job, call.phase.row, at.value)
  }

  lemma WrittenRow(t: Tables, job: Job, newId: ContentId, now: Time)
    requires KeysAgree(t) && JobSource(t, job).Some?
    ensures var row := JobRow(t, job, newId, now).1; Replaces(StoredRow(t, row.source), job, row, now)
  {
  }

  lemma WriteTimeNext(past: seq<Step>, e: Step, c: CallId)
    ensures WriteTime(past + [e], c) == if e.Write? && e.call == c then Some(e.now) else WriteTime(past, c)
  {
    assert (past + [e])[..|past|] == past;
  }

  /** A commit leaves the rows other calls are about to replace as they are. */
  lemma CommitSparesRow(s: State, c: CallId, d: CallId, acknowledged: bool)
    requires Inv(s) && Enabled(s, Commit(c, acknowledged)) && d in s.calls && d != c && HoldsRow(s.calls[d])
    ensures var source := s.calls[d].phase.row.source;
      StoredRow(Apply(s, Commit(c, acknowledged)).t, source) == StoredRow(s.t, source)
  {
    assert CallOk(s.t, s.log, s.calls[c]) && CallOk(s.t, s.log, s.calls[d]) && Exclusive(s.calls[c], s.calls[d]);
    var Call(job, phase) := s.calls[c];
    CommitTables(s.t, job, phase.id, phase.row);
    assert KeysAgree(s.t);
    hide JobCommit, LogOk, CallOk, PublishedIsReleased, OnlyCmsAudioIsPlayable, LocksOk, ClientsOk, Visible;
  }

  lemma StepKeepsWrites(s: State, e: Step, past: seq<Step>)
    requires Inv(s) && Enabled(s, e) && WritesKept(s, past)
    ensures WritesKept(Apply(s, e), past + [e])
  {
    var s' := Apply(s, e);
    forall d | d in s'.calls && HoldsRow(s'.calls[d]) ensures WriteKept(s'.t, s'.calls[d], WriteTime(past + [e], d)) {
      WriteTimeNext(past, e, d);
      if e.Write? && e.call == d {
        WrittenRow(s.t, s.calls[d].job, e.newId, e.now);
      } else {
        HeldBefore(s, e, d);
        if e.Commit? { CommitSparesRow(s, e.call, d, e.acknowledged); }
      }
    }
  }

  /** Who holds a row after a step and did not just write it held it before. */
  lemma HeldBefore(s: State, e: Step, d: CallId)
    requires Enabled(s, e) && d in Apply(s, e).calls && HoldsRow(Apply(s, e).calls[d])
    requires !(e.Write? && e.call == d)
    ensures d in s.calls && HoldsRow(s.calls[d]) && s.calls[d].job == Apply(s, e).calls[d].job
    ensures s.calls[d].phase.row == Apply(s, e).calls[d].phase.row
    ensures s.calls[d].phase.id == Apply(s, e).calls[d].phase.id
    ensures e.Commit? ==> e.call != d
    ensures !e.Commit? ==> Apply(s, e).t == s.t
  {
    hide JobCommit, AfterPoll, JobRow;
  }

  lemma {:induction false} RunKeepsWrites(s: State, past: seq<Step>, steps: seq<Step>)
    requires Inv(s) && WritesKept(s, past) && Runs(s, steps)
    ensures WritesKept(Outcome(s, steps), past + steps)
    decreases |steps|
  {
    if steps == [] {
      assert past + steps == past;
    } else {
      StepKeepsInv(s, steps[0]);
      StepKeepsWrites(s, steps[0], past);
      RunKeepsWrites(Apply(s, steps[0]), past + [steps[0]], steps[1..]);
      assert past + [steps[0]] + steps[1..] == past + steps;
    }
  }

  /** The event lands in the slot its insert took; a page left in review has none. */
  lemma CommitAnnounces(s: State, c: CallId, acknowledged: bool)
    requires Inv(s) && Enabled(s, Commit(c, acknowledged))
    ensures var (s', job, phase) := (Apply(s, Commit(c, acknowledged)), s.calls[c].job, s.calls[c].phase);
      if job.Ingest? && phase.row.status != Published then s'.log == s.log
      else exists slot: nat ::
        && slot < |s.log| && s.log[slot].Empty?
        && s'.log == s.log[slot := Row(phase.id, JobChange(job, phase.row))]
  {
    assert CallOk(s.t, s.log, s.calls[c]);
    hide JobCommit, LogOk, LocksOk, ClientsOk, TablesOk, CallsOk, PendingRow;
    if s.calls[c].phase.Logged? { assert PendingSlot(s.log, s.calls[c].phase.id, s.calls[c].phase.slot); }
  }

  lemma CommitPuts(s: State, c: CallId, acknowledged: bool)
    requires Inv(s) && Enabled(s, Commit(c, acknowledged))
    ensures var (s', job, phase) := (Apply(s, Commit(c, acknowledged)), s.calls[c].job, s.calls[c].phase);
      var (id, row) := (phase.id, phase.row);
      && TablesOk(s.t) && s'.t.contents == s.t.contents[id := row] && s'.t.bySource == s.t.bySource[row.source := id]
      && (if row.source in s.t.bySource then id == s.t.bySource[row.source] else id !in s.t.contents)
      && (job.Admin? ==> id == job.id)
      && (job.Cms? ==> id in Visible(s'.t))
  {
    var (job, phase) := (s.calls[c].job, s.calls[c].phase);
    assert CallOk(s.t, s.log, s.calls[c]);
    CommitTables(s.t, job, phase.id, phase.row);
    hide JobCommit, Visible, LogOk, LocksOk, ClientsOk, TablesOk, CallsOk;
  }

  lemma RunTellsWrites(steps: seq<Step>, c: CallId)
    requires Runs(INITIAL, steps)
    ensures var s := Outcome(INITIAL, steps);
      && Inv(s)
      && (c in s.calls && HoldsRow(s.calls[c]) ==>
            && WriteTime(steps, c).Some?
            && Replaces(StoredRow(s.t, s.calls[c].phase.row.source), s.calls[c].job, s.calls[c].phase.row,
                        WriteTime(steps, c).value))
  {
    RunKeepsInv(INITIAL, steps);
    RunKeepsWrites(INITIAL, [], steps);
    assert [] + steps == steps;
    hide Replaces, StoredRow, Runs, Outcome, Inv, WriteTime;
  }

  /** What a commit at the end of a run stores, and what it does to the log. */
  lemma CommitStores(steps: seq<Step>, c: CallId, acknowledged: bool)
    requires Runs(INITIAL, steps) && Enabled(Outcome(INITIAL, steps), Commit(c, acknowledged))
    ensures var (s, s') := (Outcome(INITIAL, steps), Apply(Outcome(INITIAL, steps), Commit(c, acknowledged)));
      var (job, id, row) := (s.calls[c].job, s.calls[c].phase.id, s.calls[c].phase.row);
      && TablesOk(s.t) && s'.t.contents == s.t.contents[id := row] && s'.t.bySource == s.t.bySource[row.source := id]
      && (if row.source in s.t.bySource then id == s.t.bySource[row.source] else id !in s.t.contents)
      && (job.Admin? ==> id == job.id)
      && WriteTime(steps, c).Some? && Replaces(StoredRow(s.t, row.source), job, row, WriteTime(steps, c).value)
      && (job.Cms? ==> id in Visible(s'.t))
      && (if job.Ingest? && row.status != Published then s'.log == s.log
          else exists slot: nat ::
            && slot < |s.log| && s.log[slot].Empty?
            && s'.log == s.log[slot := Row(id, JobChange(job, row))])
  {
    RunTellsWrites(steps, c);
    hide Replaces, TablesOk, StoredRow, Runs, Outcome, Inv, Apply, Visible, WriteTime, Announces, JobChange;
    CommitPuts(Outcome(INITIAL, steps), c, acknowledged);
    CommitAnnounces(Outcome(INITIAL, steps), c, acknowledged);
  }

  /** A committed publication is published, released at the time its call wrote it - also
      when the content had been released before - and keeps the rights of the content it
      replaces; a new content still needs its rights reviewed. */
  lemma PublicationIsReleasedAnew(steps: seq<Step>, c: CallId, acknowledged: bool)
    requires Runs(INITIAL, steps) && Enabled(Outcome(INITIAL, steps), Commit(c, acknowledged))
    requires Outcome(INITIAL, steps).calls[c].job.Cms?
    ensures var (s, s') := (Outcome(INITIAL, steps), Apply(Outcome(INITIAL, steps), Commit(c, acknowledged)));
      var source := s.calls[c].job.document.source;
      && source in s'.t.bySource && s'.t.bySource[source] in s'.t.contents
      && var id := s'.t.bySource[source];
      var row := s'.t.contents[id];
      && row.status == Published && WriteTime(steps, c).Some? && row.releasedAt == WriteTime(steps, c)
      && (source in s.t.bySource ==>
            id == s.t.bySource[source] && id in s.t.contents
            && row.rights == s.t.contents[id].rights && row.revision == s.t.contents[id].revision + 1)
      && (source !in s.t.bySource ==> id !in s.t.contents && row.rights == ReviewRequired && row.revision == 1)
      && (forall other :: other in s.t.contents && other != id ==>
            other in s'.t.contents && s'.t.contents[other] == s.t.contents[other])
  {
    CommitStores(steps, c, acknowledged);
    hide AfterCommit, Visible, Runs, Outcome, Apply, Enabled, WriteTime, Announces;
  }

  /** A committed ingest publishes its page if and only if the rights are verified as public
      domain, and leaves it in review otherwise; it is announced in the first case and in no
      other. */
  lemma IngestPublishesIff(steps: seq<Step>, c: CallId, acknowledged: bool)
    requires Runs(INITIAL, steps) && Enabled(Outcome(INITIAL, steps), Commit(c, acknowledged))
    requires Outcome(INITIAL, steps).calls[c].job.Ingest?
    ensures var (s, s') := (Outcome(INITIAL, steps), Apply(Outcome(INITIAL, steps), Commit(c, acknowledged)));
      var Ingest(source, rights, _) := s.calls[c].job;
      && source in s'.t.bySource && s'.t.bySource[source] in s'.t.contents
      && var id := s'.t.bySource[source];
      var row := s'.t.contents[id];
      && row.rights == rights
      && (row.status == Published <==> rights == PublicDomainVerified)
      && (row.status == Review <==> rights != PublicDomainVerified)
      && row.revision == (if source in s.t.bySource && id in s.t.contents then s.t.contents[id].revision + 1 else 1)
      && (rights != PublicDomainVerified ==> s'.log == s.log)
      && (rights == PublicDomainVerified ==>
            exists slot: nat ::
              && slot < |s.log| && s.log[slot].Empty?
              && s'.log == s.log[slot := Row(id, Change(Upsert, row.revision))])
      && (forall other :: other in s.t.contents && other != id ==>
            other in s'.t.contents && s'.t.contents[other] == s.t.contents[other])
  {
    CommitStores(steps, c, acknowledged);
    hide AfterCommit, Visible, Runs, Outcome, Apply, Enabled, WriteTime, Announces;
  }

  /** The admin's publish and hide change the state and nothing else of what is licensed, and
      announce it. */
  lemma AdminSetsTheStatus(steps: seq<Step>, c: CallId, acknowledged: bool)
    requires Runs(INITIAL, steps) && Enabled(Outcome(INITIAL, steps), Commit(c, acknowledged))
    requires Outcome(INITIAL, steps).calls[c].job.Admin?
    ensures var (s, s') := (Outcome(INITIAL, steps), Apply(Outcome(INITIAL, steps), Commit(c, acknowledged)));
      var Admin(id, toHidden) := s.calls[c].job;
      && id in s.t.contents && id in s'.t.contents
      && var (before, row) := (s.t.contents[id], s'.t.contents[id]);
      && row.status == (if toHidden then Hidden else Published)
      && row.source == before.source && row.rights == before.rights && row.revision == before.revision + 1
      && (exists slot: nat ::
            && slot < |s.log| && s.log[slot].Empty?
            && s'.log == s.log[slot := Row(id, Change(if toHidden then Delete else Upsert, row.revision))])
      && (forall other :: other in s.t.contents && other != id ==>
            other in s'.t.contents && s'.t.contents[other] == s.t.contents[other])
  {
    CommitStores(steps, c, acknowledged);
    hide AfterCommit, Visible, Runs, Outcome, Apply, Enabled, WriteTime, Announces;
  }

  /** A content's release time changes in the commit of a publication, and in the commit of
      an ingest or an admin that takes it from any other state into the published one; it
      becomes the time that call wrote the row. No other step changes it. */
  lemma ReleaseTimeMovesIff(steps: seq<Step>, e: Step, id: ContentId)
    requires Runs(INITIAL, steps) && Enabled(Outcome(INITIAL, steps), e)
    requires id in Apply(Outcome(INITIAL, steps), e).t.contents
    ensures var (s, s') := (Outcome(INITIAL, steps), Apply(Outcome(INITIAL, steps), e));
      var row := s'.t.contents[id];
      var wasPublished := id in s.t.contents && s.t.contents[id].status == Published;
      if CommitsContent(s, e, id) && (s.calls[e.call].job.Cms? || (row.status == Published && !wasPublished))
      then WriteTime(steps, e.call).Some? && row.releasedAt == WriteTime(steps, e.call)
      else row.releasedAt == if id in s.t.contents then s.t.contents[id].releasedAt else None
  {
    var s := Outcome(INITIAL, steps);
    if e.Commit? {
      CommitStores(steps, e.call, e.acknowledged);
      hide AfterCommit, Visible, Runs, Outcome, Apply, WriteTime, Announces;
    } else {
      assert Apply(s, e).t == s.t;
    }
  }

  /** At its commit a publication stands first in the public list if and only if every other
      visible content was released earlier - or at the same time with a smaller id. */
  lemma PublicationStandsFirstIff(steps: seq<Step>, c: CallId, acknowledged: bool, limit: nat, page: seq<ContentId>)
    requires Runs(INITIAL, steps) && Enabled(Outcome(INITIAL, steps), Commit(c, acknowledged))
    requires Outcome(INITIAL, steps).calls[c].job.Cms? && limit > 0
    requires IsPage(Apply(Outcome(INITIAL, steps), Commit(c, acknowledged)).t, None, limit, page)
    ensures var (s, s') := (Outcome(INITIAL, steps), Apply(Outcome(INITIAL, steps), Commit(c, acknowledged)));
      var id := s.calls[c].phase.id;
      && page != [] && WriteTime(steps, c).Some?
      && (page[0] == id <==>
          forall other :: other in Visible(s'.t) && other != id ==>
            var at := s'.t.contents[other].releasedAt;
            at.Some? && (at.value < WriteTime(steps, c).value || (at.value == WriteTime(steps, c).value && other < id)))
  {
    CommitStores(steps, c, acknowledged);
    var (s, s') := (Outcome(INITIAL, steps), Apply(Outcome(INITIAL, steps), Commit(c, acknowledged)));
    RunKeepsInv(INITIAL, steps);
    CommitKeepsInv(s, c, acknowledged);
    assert TablesOk(s'.t) && s'.t.contents[s.calls[c].phase.id].releasedAt == WriteTime(steps, c);
    var now := WriteTime(steps, c).value;
    hide AfterCommit, Runs, Outcome, Apply, Enabled, WriteTime, Announces, Replaces, Inv, KeysAgree;
    FirstIff(s'.t, s.calls[c].phase.id, now, limit, page);
  }

  lemma FirstIff(t: Tables, id: ContentId, now: Time, limit: nat, page: seq<ContentId>)
    requires PublishedIsReleased(t) && id in Visible(t) && t.contents[id].releasedAt == Some(now)
    requires limit > 0 && IsPage(t, None, limit, page)
    ensures page != []
    ensures page[0] == id <==>
            forall other :: other in Visible(t) && other != id ==>
              var at := t.contents[other].releasedAt;
              at.Some? && (at.value < now || (at.value == now && other < id))
  {
    assert Eligible(t, id, None) && Eligible(t, page[0], None);
    assert page[0] in Visible(t);
    if page[0] == id {
      forall other | other in Visible(t) && other != id ensures Precedes(t, id, other) {
        assert Eligible(t, other, None);
        if other in page {
          var i :| 0 <= i < |page| && page[i] == other;
          assert Precedes(t, page[0], page[i]);
        }
      }
    } else {
      assert Precedes(t, page[0], id) by {
        if id in page {
          var i :| 0 <= i < |page| && page[i] == id;
          assert Precedes(t, page[0], page[i]);
        }
      }
    }
  }
}
