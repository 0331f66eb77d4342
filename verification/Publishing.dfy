/** The catalogue as a concurrent state machine: CMS publications, ingests, admin
    publish/hide and polling clients, interleaved step by step.

    A writer holds its content's row (or its unique-index entry) from the statement that
    writes it until the transaction ends, and a publication holds its idempotency key from
    the reserving insert on; a writer whose row or key is held by another one has no
    enabled step until that one ends. A change event takes its sequence number when it is
    inserted and becomes readable at commit. */
module Publishing {
  import opened Common
  import opened SequenceLog
  import opened Catalogue

  type CallId = nat
  type ClientId = nat

  const PAGE_LIMIT: nat := 100

  datatype Job =
    | Cms(key: Key, document: Document)
    | Ingest(source: SourceId, rights: Rights, parsed: seq<ParsedAsset>)
    | Admin(id: ContentId, toHidden: bool)

  datatype Answer =
    | Ok(content: ContentId, revision: nat, duplicate: bool)
    | Invalid
    | AudioIntegrity
    | ReservationLost
    | NotFound
    | Failed

  datatype Phase =
    | Started
    | LookedUp
    | Stored
    | Reserved
    | Conflicted
    | Wrote(id: ContentId, row: Content)
    | Logged(id: ContentId, row: Content, slot: nat)
    | Finished(answer: Answer)

  datatype Call = Call(job: Job, phase: Phase)

  /** A client remembers its cursor and, per content, the revision it last fetched. */
  datatype Client = Client(cursor: nat, held: map<ContentId, nat>)

  type ChangeLog = seq<Slot<ContentId, Change>>

  datatype State = State(t: Tables, log: ChangeLog, calls: map<CallId, Call>, clients: map<ClientId, Client>)

  datatype Upload = Stores | PutFails | DigestDiffers

  datatype Step =
    | Begin(call: CallId, job: Job)
    | Lookup(call: CallId)
    | Upload(call: CallId, outcome: Upload)
    | Reserve(call: CallId)
    | Relookup(call: CallId)
    | Write(call: CallId, newId: ContentId, now: Time)
    | Append(call: CallId)
    | Commit(call: CallId, acknowledged: bool)
    | Abort(call: CallId)
    | Poll(client: ClientId)

  const INITIAL := State(EMPTY_TABLES, [], map[], map[])

  // ---------- locks ----------

  predicate HoldsRow(c: Call) { c.phase.Wrote? || c.phase.Logged? }

  predicate HoldsKey(c: Call) { c.job.Cms? && (c.phase.Reserved? || HoldsRow(c)) }

  predicate RowFree(s: State, source: SourceId) {
    forall c :: c in s.calls && HoldsRow(s.calls[c]) ==> s.calls[c].phase.row.source != source
  }

  predicate IdFree(s: State, id: ContentId) {
    && id !in s.t.contents
    && forall c :: c in s.calls && HoldsRow(s.calls[c]) ==> s.calls[c].phase.id != id
  }

  predicate KeyFree(s: State, key: Key) {
    forall c :: c in s.calls && HoldsKey(s.calls[c]) ==> s.calls[c].job.key != key
  }

  /** No transaction still in flight holds a sequence number at or below the cursor. */
  predicate NoGapBelow(s: State, cursor: nat) {
    forall c :: c in s.calls && s.calls[c].phase.Logged? ==> cursor <= s.calls[c].phase.slot
  }

  // ---------- one step ----------

  function SetPhase(s: State, c: CallId, phase: Phase): State
    requires c in s.calls
  {
    s.(calls := s.calls[c := s.calls[c].(phase := phase)])
  }

  /** `existing`: the committed publication under a key, answered as a duplicate. */
  function Existing(s: State, key: Key): Option<Answer> {
    if key in s.t.publications then
      Some(Ok(s.t.publications[key].content, s.t.publications[key].revision, true))
    else None
  }

  function JobSource(t: Tables, job: Job): Option<SourceId> {
    match job
    case Cms(_, document) => Some(document.source)
    case Ingest(source, _, _) => Some(source)
    case Admin(id, _) => if id in t.contents then Some(t.contents[id].source) else None
  }

  /** The content row a job writes, and its id; for Admin the row exists. */
  function JobRow(t: Tables, job: Job, newId: ContentId, now: Time): (ContentId, Content)
    requires JobSource(t, job).Some?
  {
    match job
    case Cms(_, document) => (RowId(t, document.source, newId), CmsRow(t, document.source, now))
    case Ingest(source, rights, _) => (RowId(t, source, newId), IngestedRow(t, source, rights, now))
    case Admin(id, toHidden) => (id, StatusRow(t.contents[id], if toHidden then Hidden else Published, now))
  }

  /** An ingest that leaves the row in review announces nothing. */
  predicate Announces(job: Job, row: Content) { job.Ingest? ==> row.status.Published? }

  function JobChange(job: Job, row: Content): Change {
    Change(if job.Admin? && job.toHidden then Delete else Upsert, row.revision)
  }

  function JobCommit(t: Tables, job: Job, id: ContentId, row: Content): Tables {
    match job
    case Cms(key, document) => CmsCommit(t, key, id, row, document.audio)
    case Ingest(_, rights, parsed) => IngestCommit(t, id, row, rights, parsed)
    case Admin(_, _) => PutRow(t, id, row)
  }

  function JobAnswer(id: ContentId, row: Content, acknowledged: bool): Answer {
    if acknowledged then Ok(id, row.revision, false) else Failed
  }

  function ReceiveOne(held: map<ContentId, nat>, change: Numbered<ContentId, Change>): map<ContentId, nat> {
    if change.body.operation.Upsert? then held[change.owner := change.body.revision] else held - {change.owner}
  }

  /** A client handles the changes of a page in order. */
  function Receive(held: map<ContentId, nat>, changes: seq<Numbered<ContentId, Change>>): map<ContentId, nat>
    decreases |changes|
  {
    if changes == [] then held else Receive(ReceiveOne(held, changes[0]), changes[1..])
  }

  function Page(s: State, cursor: nat): seq<Numbered<ContentId, Change>> {
    After(s.log, Visible(s.t), cursor, PAGE_LIMIT)
  }

  function ClientOf(s: State, k: ClientId): Client {
    if k in s.clients then s.clients[k] else Client(0, map[])
  }

  function AfterPoll(s: State, client: Client): Client {
    var page := Page(s, client.cursor);
    Client(NextCursor(client.cursor, page), Receive(client.held, page))
  }

  /** CMS addresses name published audio; a document's audio is filed under one. */
  predicate JobIsPosted(job: Job) { job.Cms? ==> job.document.audio.CmsUrl? }

  ghost predicate Enabled(s: State, e: Step) {
    match e
    case Begin(c, job) => c !in s.calls && JobIsPosted(job)
    case Lookup(c) => c in s.calls && s.calls[c].job.Cms? && s.calls[c].phase.Started?
    case Upload(c, _) => c in s.calls && s.calls[c].phase.LookedUp?
    case Reserve(c) =>
      && c in s.calls && s.calls[c].job.Cms? && s.calls[c].phase.Stored?
      && KeyFree(s, s.calls[c].job.key)
    case Relookup(c) => c in s.calls && s.calls[c].job.Cms? && s.calls[c].phase.Conflicted?
    case Write(c, newId, _) =>
      && c in s.calls
      && (if s.calls[c].job.Cms? then s.calls[c].phase.Reserved? else s.calls[c].phase.Started?)
      && IdFree(s, newId)
      && var source := JobSource(s.t, s.calls[c].job);
         source.Some? ==> RowFree(s, source.value)
    case Append(c) => c in s.calls && s.calls[c].phase.Wrote? && Announces(s.calls[c].job, s.calls[c].phase.row)
    case Commit(c, _) =>
      && c in s.calls
      && (s.calls[c].phase.Logged? || (s.calls[c].phase.Wrote? && !Announces(s.calls[c].job, s.calls[c].phase.row)))
    case Abort(c) => c in s.calls && !s.calls[c].phase.Finished?
    case Poll(k) => NoGapBelow(s, AfterPoll(s, ClientOf(s, k)).cursor)
  }

  function AfterLookup(s: State, c: CallId): State
    requires c in s.calls && s.calls[c].job.Cms?
  {
    if !s.calls[c].job.document.valid then SetPhase(s, c, Finished(Invalid))
    else match Existing(s, s.calls[c].job.key)
      case Some(answer) => SetPhase(s, c, Finished(answer))
      case None => SetPhase(s, c, LookedUp)
  }

  /** The event becomes readable in the slot its insert took. */
  function AfterCommit(s: State, c: CallId, acknowledged: bool): State
    requires c in s.calls && HoldsRow(s.calls[c])
  {
    var Call(job, phase) := s.calls[c];
    var log := if phase.Logged? && phase.slot < |s.log| then s.log[phase.slot := Row(phase.id,
        JobChange(job, phase.row))] else s.log;
    SetPhase(s, c, Finished(JobAnswer(phase.id, phase.row, acknowledged)))
      .(t := JobCommit(s.t, job, phase.id, phase.row), log := log)
  }

  ghost function Apply(s: State, e: Step): State
    requires Enabled(s, e)
  {
    match e
    case Begin(c, job) => s.(calls := s.calls[c := Call(job, Started)])
    case Lookup(c) => AfterLookup(s, c)
    case Upload(c, outcome) =>
      SetPhase(s, c, match outcome
                     case Stores => Stored
                     case PutFails => Finished(Failed)
                     case DigestDiffers => Finished(AudioIntegrity))
    case Reserve(c) => SetPhase(s, c, if s.calls[c].job.key in s.t.publications then Conflicted else Reserved)
    case Relookup(c) =>
      (match Existing(s, s.calls[c].job.key)
       case Some(answer) => SetPhase(s, c, Finished(answer))
       case None => SetPhase(s, c, Finished(ReservationLost)))
    case Write(c, newId, now) =>
      if JobSource(s.t, s.calls[c].job).None? then SetPhase(s, c, Finished(NotFound))
      else
        var (id, row) := JobRow(s.t, s.calls[c].job, newId, now);
        SetPhase(s, c, Wrote(id, row))
    case Append(c) =>
      var phase := s.calls[c].phase;
      SetPhase(s, c, Logged(phase.id, phase.row, |s.log|)).(log := s.log + [Empty])
    case Commit(c, acknowledged) => AfterCommit(s, c, acknowledged)
    case Abort(c) => SetPhase(s, c, Finished(Failed))
    case Poll(k) => s.(clients := s.clients[k := AfterPoll(s, ClientOf(s, k))])
  }

  // ---------- runs ----------

  ghost predicate Runs(s: State, steps: seq<Step>)
    decreases |steps|
  {
    steps == [] || (Enabled(s, steps[0]) && Runs(Apply(s, steps[0]), steps[1..]))
  }

  ghost function Outcome(s: State, steps: seq<Step>): State
    requires Runs(s, steps)
    decreases |steps|
  {
    if steps == [] then s else Outcome(Apply(s, steps[0]), steps[1..])
  }

  /** A state some run of the system reaches. */
  ghost predicate Reachable(s: State) {
    exists steps :: Runs(INITIAL, steps) && Outcome(INITIAL, steps) == s
  }
}
