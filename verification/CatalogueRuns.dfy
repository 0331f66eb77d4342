/** Runs of the catalogue that reach the states its theorems warn about: a client that keeps
    a hidden content, and one that loses a content to a gap in the sequence. */
module CatalogueRuns {
  import opened Common
  import opened SequenceLog
  import opened Catalogue
  import opened Publishing
  import opened PublishingInvariant
  import opened CatalogueTheorems

  lemma {:induction false} RunExtends(s: State, steps: seq<Step>, e: Step)
    requires Runs(s, steps) && Enabled(Outcome(s, steps), e)
    ensures Runs(s, steps + [e]) && Outcome(s, steps + [e]) == Apply(Outcome(s, steps), e)
    decreases |steps|
  {
    if steps == [] {
      assert steps + [e] == [e] && [e][1..] == [];
    } else {
      assert (steps + [e])[1..] == steps[1..] + [e];
      RunExtends(Apply(s, steps[0]), steps[1..], e);
    }
  }

  lemma Reaches(s: State, e: Step)
    requires Reachable(s) && Enabled(s, e)
    ensures Reachable(Apply(s, e))
  {
    var steps :| Runs(INITIAL, steps) && Outcome(INITIAL, steps) == s;
    RunExtends(INITIAL, steps, e);
  }

  lemma InitialIsReachable()
    ensures Reachable(INITIAL)
  {
    assert Runs(INITIAL, []) && Outcome(INITIAL, []) == INITIAL;
  }

  // ---------- one writer up to its commit ----------

  /** Nobody in the way of a first publication. */
  ghost predicate CanPublish(s: State, c: CallId, job: Job, newId: ContentId) {
    && c !in s.calls && job.Cms? && JobIsPosted(job) && job.document.valid
    && job.key !in s.t.publications && KeyFree(s, job.key)
    && RowFree(s, job.document.source) && IdFree(s, newId)
  }

  /** The call up to its event, alone. */
  ghost function LoggedBy(s: State, c: CallId, job: Job, newId: ContentId, now: Time): State
    requires JobSource(s.t, job).Some?
  {
    var (id, row) := JobRow(s.t, job, newId, now);
    s.(calls := s.calls[c := Call(job, Logged(id, row, |s.log|))], log := s.log + [Empty])
  }

  lemma PublicationReserves(s: State, c: CallId, job: Job, newId: ContentId)
    requires Reachable(s) && CanPublish(s, c, job, newId)
    ensures Reachable(s.(calls := s.calls[c := Call(job, Reserved)]))
  {
    hide Reachable;
    var (s1, s2) := (s.(calls := s.calls[c := Call(job, Started)]), s.(calls := s.calls[c := Call(job, LookedUp)]));
    var (s3, s4) := (s.(calls := s.calls[c := Call(job, Stored)]), s.(calls := s.calls[c := Call(job, Reserved)]));
    Reaches(s, Begin(c, job));
    assert Apply(s, Begin(c, job)) == s1;
    Reaches(s1, Lookup(c));
    assert Apply(s1, Lookup(c)).calls == s2.calls;
    Reaches(s2, Upload(c, Stores));
    assert Apply(s2, Upload(c, Stores)).calls == s3.calls;
    Reaches(s3, Reserve(c));
    assert Apply(s3, Reserve(c)).calls == s4.calls;
  }

  lemma PublicationLogs(s: State, c: CallId, job: Job, newId: ContentId, now: Time)
    requires Reachable(s) && CanPublish(s, c, job, newId)
    ensures Reachable(LoggedBy(s, c, job, newId, now))
    ensures Enabled(LoggedBy(s, c, job, newId, now), Commit(c, true))
  {
    PublicationReserves(s, c, job, newId);
    WriterLogs(s, c, job, Reserved, newId, now);
  }

  /** From its first row on, any writer that announces its row. */
  lemma WriterLogs(s: State, c: CallId, job: Job, phase: Phase, newId: ContentId, now: Time)
    requires Reachable(s.(calls := s.calls[c := Call(job, phase)])) && c !in s.calls
    requires phase == if job.Cms? then Reserved else Started
    requires IdFree(s, newId) && JobSource(s.t, job).Some? && RowFree(s, JobSource(s.t, job).value)
    requires Announces(job, JobRow(s.t, job, newId, now).1)
    ensures Reachable(LoggedBy(s, c, job, newId, now))
    ensures Enabled(LoggedBy(s, c, job, newId, now), Commit(c, true))
  {
    hide Reachable, JobRow, Announces;
    var (id, row) := JobRow(s.t, job, newId, now);
    var s0 := s.(calls := s.calls[c := Call(job, phase)]);
    var s1 := s.(calls := s.calls[c := Call(job, Wrote(id, row))]);
    Reaches(s0, Write(c, newId, now));
    assert Apply(s0, Write(c, newId, now)).calls == s1.calls;
    Reaches(s1, Append(c));
    assert Apply(s1, Append(c)).calls == LoggedBy(s, c, job, newId, now).calls;
  }

  // ---------- a hide that clients do not see ----------

  /** Any content a client holds can be hidden, and if nobody else is writing, the client
      polls once more and still holds it. */
  lemma HiddenContentIsKept(s: State, c: CallId, k: ClientId, id: ContentId) returns (s': State)
    requires Reachable(s) && k in s.clients && id in s.clients[k].held && c !in s.calls
    requires forall d :: d in s.calls ==> s.calls[d].phase.Finished?
    ensures Reachable(s') && id in s'.t.contents && s'.t.contents[id].status == Hidden && id !in Visible(s'.t)
    ensures k in s'.clients && id in s'.clients[k].held
  {
    var s2 := HideLogs(s, c, id);
    hide Reachable;
    HidingIsNotSeen(s2, k, id);
    Reaches(s2, Poll(k));
    s' := Apply(s2, Poll(k));
  }

  lemma HideLogs(s: State, c: CallId, id: ContentId) returns (s': State)
    requires Reachable(s) && c !in s.calls && (exists k :: k in s.clients && id in s.clients[k].held)
    requires forall d :: d in s.calls ==> s.calls[d].phase.Finished?
    ensures Reachable(s') && id in s'.t.contents && s'.t.contents[id].status == Hidden && s'.clients == s.clients
    ensures forall d :: d in s'.calls ==> s'.calls[d].phase.Finished?
  {
    HeldIsStored(s, id);
    var job := Admin(id, true);
    var newId := NewId(s.t.contents.Keys);
    Reaches(s, Begin(c, job));
    WriterLogs(s, c, job, Started, newId, 0);
    hide Reachable;
    var s1 := LoggedBy(s, c, job, newId, 0);
    Reaches(s1, Commit(c, true));
    s' := Apply(s1, Commit(c, true));
    assert s'.t == PutRow(s.t, id, StatusRow(s.t.contents[id], Hidden, 0));
  }

  lemma HeldIsStored(s: State, id: ContentId)
    requires Reachable(s) && exists k :: k in s.clients && id in s.clients[k].held
    ensures id in s.t.contents
  {
    ReachableIsInv(s);
    var k :| k in s.clients && id in s.clients[k].held;
    assert ClientOk(s.t, s.log, s.clients[k]);
  }

  // ---------- from the empty catalogue ----------

  const FIRST := Cms("first", Document(true, "a", CmsUrl("a", "1")))
  const SECOND := Cms("second", Document(true, "b", CmsUrl("b", "1")))

  const FIRST_ROW := Content("a", Published, ReviewRequired, 1, Some(0))
  const SECOND_ROW := Content("b", Published, ReviewRequired, 1, Some(0))

  /** One publication in flight, with its number. */
  lemma OneInFlight() returns (s: State)
    ensures Reachable(s)
    ensures s == State(EMPTY_TABLES, [Empty], map[0 := Call(FIRST, Logged(1, FIRST_ROW, 0))], map[])
  {
    InitialIsReachable();
    hide Reachable;
    assert CanPublish(INITIAL, 0, FIRST, 1);
    PublicationLogs(INITIAL, 0, FIRST, 1, 0);
    s := LoggedBy(INITIAL, 0, FIRST, 1, 0);
  }

  lemma OnePublished() returns (s: State)
    ensures Reachable(s) && 1 in Visible(s.t) && |s.log| == 1 && s.clients == map[]
    ensures s.calls.Keys == {0} && s.calls[0].phase.Finished?
  {
    var s1 := OneInFlight();
    hide Reachable;
    Reaches(s1, Commit(0, true));
    PublicationIsVisibleAtOnce(s1, 0, CmsUrl("a", "1"));
    hide Visible;
    s := Apply(s1, Commit(0, true));
  }

  /** Publish, poll, hide, poll: the content is gone from the catalogue and not from the
      client. */
  lemma AClientKeepsAHiddenContent() returns (s: State)
    ensures Reachable(s) && 1 in s.t.contents && s.t.contents[1].status == Hidden && 1 !in Visible(s.t)
    ensures 0 in s.clients && 1 in s.clients[0].held
  {
    var s1 := OnePublished();
    hide Reachable, Visible;
    SequencesLeaveRoom(s1.log, Visible(s1.t), 0, PAGE_LIMIT);
    assert Enabled(s1, Poll(0));
    NoVisibleContentIsMissed(s1, 0, 1);
    Reaches(s1, Poll(0));
    var s2 := Apply(s1, Poll(0));
    assert s2.calls == s1.calls && 0 in s2.clients;
    s := HiddenContentIsKept(s2, 1, 0, 1);
  }

  /** Two publications in flight, each with its number. */
  lemma TwoInFlight() returns (s: State)
    ensures Reachable(s) && s.t == EMPTY_TABLES && s.log == [Empty, Empty] && s.clients == map[]
    ensures s.calls == map[0 := Call(FIRST, Logged(1, FIRST_ROW, 0)), 1 := Call(SECOND, Logged(2, SECOND_ROW, 1))]
  {
    var s1 := OneInFlight();
    hide Reachable;
    assert CanPublish(s1, 1, SECOND, 2);
    PublicationLogs(s1, 1, SECOND, 2, 0);
    s := LoggedBy(s1, 1, SECOND, 2, 0);
  }

  /** The later number commits first. */
  lemma SecondCommitsFirst() returns (s: State)
    ensures Reachable(s) && s.clients == map[] && |s.log| == 2 && RowAt(s.log, 1, 2)
    ensures 2 in Visible(s.t) && s.t.contents.Keys == {2}
    ensures s.calls.Keys == {0, 1} && s.calls[0] == Call(FIRST, Logged(1, FIRST_ROW, 0))
  {
    var s1 := TwoInFlight();
    hide Reachable;
    Reaches(s1, Commit(1, true));
    PublicationIsVisibleAtOnce(s1, 1, CmsUrl("b", "1"));
    s := Apply(s1, Commit(1, true));
    hide Visible;
  }

  /** Two publications, the later number committed first, and a client that polls between:
      once the first one commits its content is visible, and the client's next page - empty,
      so it reads no further - does not bring it. */
  lemma AClientLosesAContent() returns (s: State)
    ensures Reachable(s) && Enabled(s, Commit(0, true))
    ensures var (s', polled) := (Apply(s, Commit(0, true)), AfterPoll(s, ClientOf(s, 0)));
      Reachable(s') && 1 in Visible(s'.t) && Page(s', polled.cursor) == [] && 1 !in AfterPoll(s', polled).held
  {
    s := SecondCommitsFirst();
    var polled := PollsPast(s);
    hide Reachable;
    Reaches(s, Commit(0, true));
    PublicationIsVisibleAtOnce(s, 0, CmsUrl("a", "1"));
    hide Visible;
    var s' := Apply(s, Commit(0, true));
    assert |s'.log| == 2;
    SequencesLeaveRoom(s'.log, Visible(s'.t), 2, PAGE_LIMIT);
  }

  /** The poll runs past the first number without its content. */
  lemma PollsPast(s: State) returns (polled: Client)
    requires s.clients == map[] && |s.log| == 2 && RowAt(s.log, 1, 2)
    requires 2 in Visible(s.t) && s.t.contents.Keys == {2}
    ensures polled == AfterPoll(s, ClientOf(s, 0)) && polled.cursor == 2 && 1 !in polled.held
  {
    polled := AfterPoll(s, ClientOf(s, 0));
    var owners := Visible(s.t);
    assert 1 !in owners;
    hide Visible;
    AfterIsSoundAndSorted(s.log, owners, 0, PAGE_LIMIT);
    SequencesLeaveRoom(s.log, owners, 0, PAGE_LIMIT);
    AfterSkipsNothing(s.log, owners, 0, PAGE_LIMIT, 1);
    ReceiveOnlyOwners(s.log, owners, 0, PAGE_LIMIT, map[]);
  }
}
