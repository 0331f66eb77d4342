/** The catalogue's queries, transactions and feed handler as the statements that run
    them, each tied to the function the state machine uses for it. */
module CatalogueStore {
  import opened Common
  import opened SequenceLog
  import opened Catalogue
  import opened Publishing
  import opened Cursors
  import opened ContentPages
  import Text
  import Timestamps

  /** The JSON body of /sync, or a 400. */
  datatype SyncResponse =
    | BadCursor
    | Changes(changes: seq<Numbered<ContentId, Change>>, nextCursor: string, hasMore: bool)

  /** The JSON body of /contents, or a 400. */
  datatype ListResponse =
    | BadKey
    | Listed(items: seq<ContentId>, nextCursor: string)

  class Store {
    var contents: map<ContentId, Content>
    var bySource: map<SourceId, ContentId>
    var assets: map<AssetUrl, Asset>
    var links: set<(ContentId, AssetUrl)>
    var publications: map<Key, Publication>
    var log: ChangeLog

    function View(): Tables
      reads this
    {
      Tables(contents, bySource, assets, links, publications)
    }

    constructor ()
      ensures View() == EMPTY_TABLES && log == []
    {
      contents, bySource, assets, links, publications, log := map[], map[], map[], {}, map[], [];
    }

    // ---------- queries ----------

    /** UpsertContent. */
    method UpsertContent(source: SourceId, rights: Rights, newId: ContentId, now: Time)
      returns (id: ContentId, row: Content)
      requires KeysAgree(View())
      modifies this`contents, this`bySource
      ensures id == RowId(old(View()), source, newId)
      ensures row == IngestedRow(old(View()), source, rights, now)
      ensures row.source == source && row.rights == rights
      ensures row.status == if rights == PublicDomainVerified then Published else Review
      ensures source !in old(bySource) ==>
                row.revision == 1 && row.releasedAt == if rights == PublicDomainVerified then Some(now) else None
      ensures source in old(bySource) ==>
                var before := old(contents[bySource[source]]);
                && row.revision == before.revision + 1
                && row.releasedAt == if rights == PublicDomainVerified && before.status != Published then Some(now)
                                     else before.releasedAt
      ensures View() == PutRow(old(View()), id, row)
    {
      var status := if rights.PublicDomainVerified? then Published else Review;
      if source in bySource {
        id := bySource[source];
        row := contents[id];
        if row.status != Published && status == Published {
          row := row.(releasedAt := Some(now));
        }
        row := row.(status := status, rights := rights, revision := row.revision + 1);
      } else {
        id := newId;
        row := Content(source, status, rights, 1, if status == Published then Some(now) else None);
      }
      contents := contents[id := row];
      bySource := bySource[row.source := id];
    }

    /** SetContentStatus; no row when the id is unknown. */
    method SetContentStatus(id: ContentId, status: Status, now: Time) returns (row: Option<Content>)
      requires KeysAgree(View())
      modifies this`contents
      ensures row.Some? <==> id in old(contents)
      ensures row.None? ==> View() == old(View())
      ensures row.Some? ==>
                row.value == StatusRow(old(contents)[id], status, now) && View() == PutRow(old(View()), id, row.value)
      ensures row.Some? ==>
                var before := old(contents)[id];
                && row.value.source == before.source && row.value.rights == before.rights
                && row.value.status == status && row.value.revision == before.revision + 1
                && row.value.releasedAt == if status == Published && before.status != Published then Some(now)
                                           else before.releasedAt
    {
      if id !in contents {
        return None;
      }
      var r := contents[id];
      if r.status != Published && status == Published {
        r := r.(releasedAt := Some(now));
      }
      r := r.(status := status, revision := r.revision + 1);
      contents := contents[id := r];
      row := Some(r);
    }

    /** CreatePublishEvent. */
    method CreatePublishEvent(id: ContentId, change: Change) returns (sequence: nat)
      modifies this`log
      ensures log == old(log) + [Row(id, change)] && sequence == |log|
    {
      log := log + [Row(id, change)];
      sequence := |log|;
    }

    // ---------- transactions ----------

    /** The ingestion transaction. */
    method Normalize(source: SourceId, rights: Rights, parsed: seq<ParsedAsset>, newId: ContentId, now: Time)
      requires KeysAgree(View())
      modifies this
      ensures var job := Ingest(source, rights, parsed);
        var (id, row) := JobRow(old(View()), job, newId, now);
        && View() == JobCommit(old(View()), job, id, row)
        && log == old(log) + if Announces(job, row) then [Row(id, JobChange(job, row))] else []
      ensures source in bySource && bySource[source] in contents
      ensures var (id, row) := (bySource[source], contents[bySource[source]]);
        && row.rights == rights && row.status == (if rights == PublicDomainVerified then Published else Review)
        && log == old(log) + if rights == PublicDomainVerified then [Row(id, Change(Upsert, row.revision))] else []
    {
      var id, row := UpsertContent(source, rights, newId, now);
      ghost var start := View();
      for i := 0 to |parsed|
        invariant View() == IngestAssets(start, id, rights, parsed[..i])
        invariant contents == start.contents && bySource == start.bySource && log == old(log)
      {
        assert parsed[..i + 1][..i] == parsed[..i];
        if !parsed[i].parses {
          continue;
        }
        var url := WebUrl(parsed[i].address);
        var policy := if rights.PublicDomainVerified? then StreamProxy else SourcePageOnly;
        if url in assets {
          assets := assets[url := assets[url].(kind := parsed[i].kind, policy := policy)];
        } else {
          assets := assets[url := Asset(parsed[i].kind, policy, true)];
        }
        links := links + {(id, url)};
      }
      assert parsed[..|parsed|] == parsed;
      if row.status == Published {
        var _ := CreatePublishEvent(id, Change(Upsert, row.revision));
      }
    }

    /** The admin publish/hide transaction. */
    method AdminSetStatus(id: ContentId, toHidden: bool, now: Time) returns (ok: bool)
      requires KeysAgree(View())
      modifies this
      ensures ok <==> id in old(contents)
      ensures !ok ==> View() == old(View()) && log == old(log)
      ensures ok ==>
                var job := Admin(id, toHidden);
                var row := JobRow(old(View()), job, id, now).1;
                && View() == JobCommit(old(View()), job, id, row)
                && log == old(log) + [Row(id, JobChange(job, row))]
      ensures ok ==>
                && id in contents && contents[id].status == (if toHidden then Hidden else Published)
                && log == old(log) + [Row(id, Change(if toHidden then Delete else Upsert, contents[id].revision))]
    {
      var status := if toHidden then Hidden else Published;
      var row := SetContentStatus(id, status, now);
      if row.None? {
        return false;
      }
      var op := Upsert;
      if status == Hidden {
        op := Delete;
      }
      var _ := CreatePublishEvent(id, Change(op, row.value.revision));
      ok := true;
    }

    /** `existing`: a stored key is answered with what is stored under it, as a duplicate. */
    method Existing(key: Key) returns (answer: Option<Answer>)
      ensures answer.Some? <==> key in publications
      ensures answer.Some? ==>
                && answer.value.Ok? && answer.value.duplicate
                && publications[key] == Publication(answer.value.content, answer.value.revision)
    {
      if key in publications {
        var p := publications[key];
        answer := Some(Ok(p.content, p.revision, true));
      } else {
        answer := None;
      }
    }

    /** The content upsert of a publication. */
    method PublishContent(source: SourceId, newId: ContentId, now: Time) returns (id: ContentId, row: Content)
      requires KeysAgree(View())
      modifies this`contents, this`bySource
      ensures id == RowId(old(View()), source, newId) && row == CmsRow(old(View()), source, now)
      ensures row.source == source && row.status == Published && row.releasedAt == Some(now)
      ensures source !in old(bySource) ==> row.revision == 1 && row.rights == ReviewRequired
      ensures source in old(bySource) ==>
                var before := old(contents[bySource[source]]);
                row.revision == before.revision + 1 && row.rights == before.rights
      ensures View() == PutRow(old(View()), id, row)
    {
      if source in bySource {
        id := bySource[source];
        row := contents[id].(status := Published, revision := contents[id].revision + 1, releasedAt := Some(now));
      } else {
        id := newId;
        row := Content(source, Published, ReviewRequired, 1, Some(now));
      }
      contents := contents[id := row];
      bySource := bySource[row.source := id];
    }

    /** The audio asset, and the removal of the content's other audio. */
    method PublishAsset(id: ContentId, url: AssetUrl)
      modifies this`assets, this`links
      ensures View() == PublishAudio(old(View()), id, url)
    {
      if url in assets {
        assets := assets[url := assets[url].(policy := ManagedCache, available := true)];
      } else {
        assets := assets[url := Asset(Audio, ManagedCache, true)];
      }
      links := set l | l in links && !(l.0 == id && l.1 in assets && assets[l.1].kind.Audio? && l.1 != url);
      links := links + {(id, url)};
    }

    /** Publish with nobody else at work: an invalid document, a known key, a failed upload
        and a wrong digest all leave the catalogue as it was; otherwise the whole
        publication is stored under its key, with one event. */
    method Publish(key: Key, document: Document, upload: Upload, newId: ContentId, now: Time) returns (answer: Answer)
      requires KeysAgree(View())
      modifies this
      ensures !document.valid ==> answer == Invalid
      ensures document.valid && key in old(publications) ==>
                answer == Ok(old(publications)[key].content, old(publications)[key].revision, true)
      ensures document.valid && key !in old(publications) && upload.PutFails? ==> answer == Failed
      ensures document.valid && key !in old(publications) && upload.DigestDiffers? ==> answer == AudioIntegrity
      ensures !(document.valid && key !in old(publications) && upload.Stores?) ==>
          View() == old(View()) && log == old(log)
      ensures document.valid && key !in old(publications) && upload.Stores? ==>
                var job := Cms(key, document);
                var (id, row) := JobRow(old(View()), job, newId, now);
                && answer == JobAnswer(id, row, true)
                && View() == JobCommit(old(View()), job, id, row)
                && log == old(log) + [Row(id, JobChange(job, row))]
                && publications[key] == Publication(answer.content, answer.revision)
      ensures document.valid && key !in old(publications) && upload.Stores? ==>
                && answer.Ok? && !answer.duplicate && answer.content in contents
                && var row := contents[answer.content];
                && row.source == document.source && row.status == Published && row.releasedAt == Some(now)
                && row.revision == answer.revision
                && log == old(log) + [Row(answer.content, Change(Upsert, answer.revision))]
                && (if document.source in old(bySource)
                    then answer.content == old(bySource)[document.source]
                         && row.rights == old(contents)[answer.content].rights
                    else answer.content == newId && row.rights == ReviewRequired)
    {
      if !document.valid {
        return Invalid;
      }
      var existing := Existing(key);
      if existing.Some? {
        return existing.value;
      }
      if upload.PutFails? {
        return Failed;
      }
      if upload.DigestDiffers? {
        return AudioIntegrity;
      }
      var id, row := PublishContent(document.source, newId, now);
      PublishAsset(id, document.audio);
      var _ := CreatePublishEvent(id, Change(Upsert, row.revision));
      publications := publications[key := Publication(id, row.revision)];
      answer := Ok(id, row.revision, false);
    }

    // ---------- the content list ----------

    /** GET /contents: the page a cursor asks for, and the cursor of its last row. */
    method Contents(raw: string) returns (response: ListResponse)
      requires forall id :: id in contents ==>
                 IsUuid(id) && (contents[id].releasedAt.Some? ==> Timestamps.Writable(contents[id].releasedAt.value))
      ensures response.BadKey? <==> raw != "" && DecodeKey(raw).None?
      ensures response.Listed? ==>
                var next := NextKey(View(), response.items);
                && IsPage(View(), if raw == "" then None else DecodeKey(raw), LIST_LIMIT, response.items)
                && (next.None? <==> response.nextCursor == "")
                && (next.Some? ==> DecodeKey(response.nextCursor) == next)
    {
      hide IsPage, KeyText, EncodeKey, DecodeKey, IsUuid, Timestamps.Writable, Text.IsBytes;
      var cursor := None;
      if raw != "" {
        cursor := DecodeKey(raw);
        if cursor.None? {
          return BadKey;
        }
      }
      var rows := ListPublished(View(), cursor, LIST_LIMIT);
      var items := [];
      for i := 0 to |rows|
        invariant items == rows[..i]
      {
        items := items + [rows[i]];
      }
      assert items == rows;
      var next := NextKey(View(), rows);
      var nextCursor := "";
      if next.Some? {
        ChainedCursorIsTheKey(next.value);
        nextCursor := NextText(next);
      }
      response := Listed(items, nextCursor);
    }

    // ---------- the change feed ----------

    /** GET /sync. */
    method Sync(raw: string) returns (response: SyncResponse)
      requires |log| < Text.INT64_LIMIT
      ensures response.BadCursor? <==> DecodeSequence(raw).None?
      ensures response.Changes? ==>
                var sequence := DecodeSequence(raw).value;
                var cursor := Max(0, sequence);
                && response.changes == After(log, Visible(View()), cursor, PAGE_LIMIT)
                && response.hasMore == (|response.changes| == PAGE_LIMIT)
                && DecodeSequence(response.nextCursor)
                   == Some(if response.changes == [] then sequence else NextCursor(cursor, response.changes))
    {
      var decoded := DecodeSequence(raw);
      if decoded.None? {
        return BadCursor;
      }
      var sequence := decoded.value;
      var cursor := Max(0, sequence);
      var rows := After(log, Visible(View()), cursor, PAGE_LIMIT);
      var next := sequence;
      var changes := [];
      for i := 0 to |rows|
        invariant changes == rows[..i]
        invariant next == if i == 0 then sequence else rows[i - 1].sequence
      {
        next := rows[i].sequence;
        changes := changes + [rows[i]];
      }
      AfterIsSoundAndSorted(log, Visible(View()), cursor, PAGE_LIMIT);
      DecodedIsInt64(raw);
      SequenceRoundTrip(next);
      response := Changes(changes, EncodeSequence(next), |rows| == PAGE_LIMIT);
    }
  }
}
