/** The catalogue tables and the row transitions of their queries.

    A content row is unique per source item, an asset row per source URL, a
    publication row per idempotency key. A row's id, the database clock (`now`) and
    every parsed or posted value are inputs. */
module Catalogue {
  import opened Common

  type ContentId = nat
  type SourceId = string
  type Key = string
  type Time = int

  datatype Status = Draft | Review | Published | Hidden | Removed

  datatype Rights = UnknownRights | ReviewRequired | PublicDomainVerified | ThirdPartyRestricted

  /** `releasedAt` is NULL until the row is first published. */
  datatype Content = Content(source: SourceId, status: Status, rights: Rights, revision: nat, releasedAt: Option<Time>)

  datatype Kind = Audio | Video | Image | DocumentFile

  datatype Policy = StreamProxy | Redirect | ManagedCache | SourcePageOnly

  datatype Asset = Asset(kind: Kind, policy: Policy, available: bool)

  /** Published audio is filed under cms://source/content/audio; parsed pages only yield
      http and https addresses. */
  datatype AssetUrl = CmsUrl(source: string, content: string) | WebUrl(address: string)

  /** content_id and content_revision are written by the transaction that inserts the row. */
  datatype Publication = Publication(content: ContentId, revision: nat)

  datatype Operation = Upsert | Delete

  datatype Change = Change(operation: Operation, revision: nat)

  datatype Tables = Tables(
    contents: map<ContentId, Content>,
    bySource: map<SourceId, ContentId>,
    assets: map<AssetUrl, Asset>,
    links: set<(ContentId, AssetUrl)>,
    publications: map<Key, Publication>)

  const EMPTY_TABLES := Tables(map[], map[], map[], {}, map[])

  datatype Document = Document(valid: bool, source: SourceId, audio: AssetUrl)

  /** `parses` is false for an address url.Parse rejects; normalize skips those. */
  datatype ParsedAsset = ParsedAsset(address: string, kind: Kind, parses: bool)

  // ---------- contents ----------

  /** released_at is restamped only when a row enters the published state. */
  function Released(before: Content, status: Status, now: Time): Option<Time> {
    if !before.status.Published? && status.Published? then Some(now) else before.releasedAt
  }

  function IngestStatus(rights: Rights): Status {
    if rights.PublicDomainVerified? then Published else Review
  }

  /** The row a UNIQUE(source_item_id) conflict points to. */
  function ConflictingRow(t: Tables, source: SourceId): Option<ContentId> {
    if source in t.bySource && t.bySource[source] in t.contents then Some(t.bySource[source]) else None
  }

  /** UpsertContent: the row after an ingest of `source`. */
  function IngestedRow(t: Tables, source: SourceId, rights: Rights, now: Time): Content {
    var status := IngestStatus(rights);
    match ConflictingRow(t, source)
    case Some(id) =>
      var before := t.contents[id];
      before.(status := status, rights := rights, revision := before.revision + 1,
              releasedAt := Released(before, status, now))
    case None => Content(source, status, rights, 1, if status.Published? then Some(now) else None)
  }

  /** The content upsert of a CMS publication: published at once, always restamped;
      the rights of an existing row are left alone. */
  function CmsRow(t: Tables, source: SourceId, now: Time): Content {
    match ConflictingRow(t, source)
    case Some(id) =>
      var before := t.contents[id];
      before.(status := Published, revision := before.revision + 1, releasedAt := Some(now))
    case None => Content(source, Published, ReviewRequired, 1, Some(now))
  }

  /** SetContentStatus. */
  function StatusRow(before: Content, status: Status, now: Time): Content {
    before.(status := status, releasedAt := Released(before, status, now), revision := before.revision + 1)
  }

  /** The row an upsert by source item writes to: the conflicting one, or a new one. */
  function RowId(t: Tables, source: SourceId, newId: ContentId): ContentId {
    match ConflictingRow(t, source)
    case Some(id) => id
    case None => newId
  }

  function PutRow(t: Tables, id: ContentId, row: Content): Tables {
    t.(contents := t.contents[id := row], bySource := t.bySource[row.source := id])
  }

  // ---------- assets ----------

  /** UpsertAsset then LinkContentAsset for one parsed asset. */
  function IngestAsset(t: Tables, id: ContentId, rights: Rights, parsed: ParsedAsset): Tables {
    if !parsed.parses then t
    else
      var url := WebUrl(parsed.address);
      var policy := if rights.PublicDomainVerified? then StreamProxy else SourcePageOnly;
      var available := if url in t.assets then t.assets[url].available else true;
      t.(assets := t.assets[url := Asset(parsed.kind, policy, available)], links := t.links + {(id, url)})
  }

  function IngestAssets(t: Tables, id: ContentId, rights: Rights, parsed: seq<ParsedAsset>): Tables {
    if parsed == [] then t
    else IngestAsset(IngestAssets(t, id, rights, parsed[..|parsed| - 1]), id, rights, parsed[|parsed| - 1])
  }

  /** The published audio becomes playable, and the content's only audio. */
  function PublishAudio(t: Tables, id: ContentId, url: AssetUrl): Tables {
    var kind := if url in t.assets then t.assets[url].kind else Audio;
    var assets := t.assets[url := Asset(kind, ManagedCache, true)];
    var kept := set l | l in t.links && !(l.0 == id && l.1 in assets && assets[l.1].kind.Audio? && l.1 != url);
    t.(assets := assets, links := kept + {(id, url)})
  }

  // ---------- what readers see ----------

  predicate Playable(a: Asset) { a.kind.Audio? && a.policy.ManagedCache? && a.available }

  /** The EXISTS clause of every public query. */
  predicate HasPlayableAudio(t: Tables, id: ContentId) {
    exists l :: l in t.links && l.0 == id && l.1 in t.assets && Playable(t.assets[l.1])
  }

  predicate IsVisible(t: Tables, id: ContentId) {
    id in t.contents && t.contents[id].status.Published? && HasPlayableAudio(t, id)
  }

  function Visible(t: Tables): set<ContentId> {
    set id | id in t.contents && IsVisible(t, id)
  }

  // ---------- invariants of the tables ----------

  ghost predicate KeysAgree(t: Tables) {
    && (forall s :: s in t.bySource ==> t.bySource[s] in t.contents && t.contents[t.bySource[s]].source == s)
    && (forall id :: id in t.contents ==>
          t.contents[id].source in t.bySource && t.bySource[t.contents[id].source] == id)
  }

  /** Every writer keeps this; the keyset cursor of the public list depends on it. */
  ghost predicate PublishedIsReleased(t: Tables) {
    forall id :: id in t.contents ==>
      && t.contents[id].revision >= 1
      && (t.contents[id].status.Published? ==> t.contents[id].releasedAt.Some?)
  }

  /** CMS audio is always playable and nothing else ever is. */
  ghost predicate OnlyCmsAudioIsPlayable(t: Tables) {
    && (forall u :: u in t.assets ==>
          if u.CmsUrl? then t.assets[u] == Asset(Audio, ManagedCache, true) else !t.assets[u].policy.ManagedCache?)
    && (forall l :: l in t.links ==> l.1 in t.assets)
  }

  ghost predicate HasCmsAudio(t: Tables, id: ContentId) {
    exists l :: l in t.links && l.0 == id && l.1.CmsUrl?
  }

  lemma PlayableMeansCms(t: Tables, id: ContentId)
    requires OnlyCmsAudioIsPlayable(t)
    ensures HasPlayableAudio(t, id) <==> HasCmsAudio(t, id)
  {
    if HasPlayableAudio(t, id) {
      var l :| l in t.links && l.0 == id && l.1 in t.assets && Playable(t.assets[l.1]);
      assert l.1.CmsUrl?;
    }
    if HasCmsAudio(t, id) {
      var l :| l in t.links && l.0 == id && l.1.CmsUrl?;
      assert l.1 in t.assets && Playable(t.assets[l.1]);
    }
  }

  // ---------- whole transactions ----------

  /** What a committed `normalize` leaves behind, the change event aside. */
  function IngestCommit(t: Tables, id: ContentId, row: Content, rights: Rights, parsed: seq<ParsedAsset>): Tables {
    IngestAssets(PutRow(t, id, row), id, rights, parsed)
  }

  /** What a committed `Publish` leaves behind, the change event aside. */
  function CmsCommit(t: Tables, key: Key, id: ContentId, row: Content, audio: AssetUrl): Tables {
    PublishAudio(PutRow(t, id, row), id, audio)
      .(publications := t.publications[key := Publication(id, row.revision)])
  }

  /** An ingest touches no other row, no publication, and no playable audio. */
  lemma {:induction false} IngestAssetsFrame(t: Tables, id: ContentId, rights: Rights, parsed: seq<ParsedAsset>)
    requires OnlyCmsAudioIsPlayable(t)
    ensures var t' := IngestAssets(t, id, rights, parsed);
      && OnlyCmsAudioIsPlayable(t')
      && t'.contents == t.contents && t'.bySource == t.bySource && t'.publications == t.publications
      && (forall d :: HasCmsAudio(t', d) <==> HasCmsAudio(t, d))
  {
    if parsed != [] {
      var rest := parsed[..|parsed| - 1];
      IngestAssetsFrame(t, id, rights, rest);
      var u := IngestAssets(t, id, rights, rest);
      var t' := IngestAsset(u, id, rights, parsed[|parsed| - 1]);
      forall d ensures HasCmsAudio(t', d) <==> HasCmsAudio(u, d) {
        if HasCmsAudio(u, d) {
          var l :| l in u.links && l.0 == d && l.1.CmsUrl?;
          assert l in t'.links;
        }
        if HasCmsAudio(t', d) {
          var l :| l in t'.links && l.0 == d && l.1.CmsUrl?;
          assert l in u.links;
        }
      }
    }
  }

  predicate Names(parsed: seq<ParsedAsset>, url: AssetUrl) {
    exists i :: 0 <= i < |parsed| && parsed[i].parses && url == WebUrl(parsed[i].address)
  }

  /** Every address of the page that parses is filed under its content: streamed when the
      rights are verified as public domain, shown on its source page only otherwise. An
      address known before keeps its availability, a new one is available; no other asset
      and no other link changes. */
  lemma {:induction false} IngestedAssets(t: Tables, id: ContentId, rights: Rights, parsed: seq<ParsedAsset>)
    ensures var t' := IngestAssets(t, id, rights, parsed);
      && (forall u :: Names(parsed, u) ==>
            && u in t'.assets
            && t'.assets[u].policy == (if rights == PublicDomainVerified then StreamProxy else SourcePageOnly)
            && t'.assets[u].available == (u in t.assets ==> t.assets[u].available))
      && (forall u :: !Names(parsed, u) ==>
            (u in t'.assets <==> u in t.assets) && (u in t.assets ==> t'.assets[u] == t.assets[u]))
      && (forall l :: l in t'.links <==> l in t.links || (l.0 == id && Names(parsed, l.1)))
    decreases |parsed|
  {
    if parsed != [] {
      var (rest, last) := (parsed[..|parsed| - 1], parsed[|parsed| - 1]);
      IngestedAssets(t, id, rights, rest);
      NamesNext(parsed);
      assert IngestAssets(t, id, rights, parsed) == IngestAsset(IngestAssets(t, id, rights, rest), id, rights, last);
    }
  }

  /** An asset is of the kind the page gave last for its address. */
  lemma {:induction false} IngestedKind(t: Tables, id: ContentId, rights: Rights, parsed: seq<ParsedAsset>, i: nat)
    requires i < |parsed| && parsed[i].parses
    requires forall j :: i < j < |parsed| && parsed[j].parses ==> parsed[j].address != parsed[i].address
    ensures var (t', u) := (IngestAssets(t, id, rights, parsed), WebUrl(parsed[i].address));
      u in t'.assets && t'.assets[u].kind == parsed[i].kind
    decreases |parsed|
  {
    if i < |parsed| - 1 {
      IngestedKind(t, id, rights, parsed[..|parsed| - 1], i);
    }
  }

  lemma NamesNext(parsed: seq<ParsedAsset>)
    requires parsed != []
    ensures var last := parsed[|parsed| - 1];
      forall u :: Names(parsed, u) <==> Names(parsed[..|parsed| - 1], u) || (last.parses && u == WebUrl(last.address))
  {
    var (n, rest) := (|parsed| - 1, parsed[..|parsed| - 1]);
    forall u ensures Names(parsed, u) <==> Names(rest, u) || (parsed[n].parses && u == WebUrl(parsed[n].address)) {
      if Names(rest, u) {
        var i :| 0 <= i < |rest| && rest[i].parses && u == WebUrl(rest[i].address);
        assert parsed[i] == rest[i];
      }
      if Names(parsed, u) {
        var i :| 0 <= i < |parsed| && parsed[i].parses && u == WebUrl(parsed[i].address);
        assert i < n ==> rest[i] == parsed[i];
      }
    }
  }

  /** A publication makes its audio playable and the content's only one. It changes nobody
      else's links, no other asset, and keeps the content's pictures and documents. */
  lemma PublishAudioFrame(t: Tables, id: ContentId, url: AssetUrl)
    requires OnlyCmsAudioIsPlayable(t) && url.CmsUrl?
    ensures var t' := PublishAudio(t, id, url);
      && OnlyCmsAudioIsPlayable(t')
      && t'.contents == t.contents && t'.bySource == t.bySource && t'.publications == t.publications
      && HasCmsAudio(t', id)
      && (forall u :: (id, u) in t'.links && t'.assets[u].kind.Audio? ==> u == url)
      && (forall l :: l in t.links && (l.0 != id || !t.assets[l.1].kind.Audio?) ==> l in t'.links)
      && (forall l :: l in t'.links && l != (id, url) ==> l in t.links)
      && (forall u :: u != url ==>
            (u in t'.assets <==> u in t.assets) && (u in t.assets ==> t'.assets[u] == t.assets[u]))
      && (forall d :: d != id ==> (HasCmsAudio(t', d) <==> HasCmsAudio(t, d)))
  {
    var t' := PublishAudio(t, id, url);
    assert (id, url) in t'.links;
    forall d | d != id ensures HasCmsAudio(t', d) <==> HasCmsAudio(t, d) {
      if HasCmsAudio(t, d) {
        var l :| l in t.links && l.0 == d && l.1.CmsUrl?;
        assert l in t'.links;
      }
      if HasCmsAudio(t', d) {
        var l :| l in t'.links && l.0 == d && l.1.CmsUrl?;
        assert l in t.links;
      }
    }
  }
}
