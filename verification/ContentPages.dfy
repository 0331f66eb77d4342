/** The public content list: pages of published contents, newest release first, chained by
    a cursor that names the last row of the page before. */
module ContentPages {
  import opened Common
  import opened Catalogue
  import opened Cursors
  import Publishing
  import PublishingInvariant
  import Text
  import Timestamps

  const LIST_LIMIT: nat := 20

  /** (released_at, id) < (cursor): a NULL released_at compares as NULL, which filters the
      row out. */
  predicate Below(row: Content, id: ContentId, cursor: Position) {
    row.releasedAt.Some? &&
    (row.releasedAt.value < cursor.releasedAt || (row.releasedAt.value == cursor.releasedAt && id < cursor.id))
  }

  predicate Eligible(t: Tables, id: ContentId, cursor: Option<Position>) {
    IsVisible(t, id) && (cursor.Some? ==> Below(t.contents[id], id, cursor.value))
  }

  /** ORDER BY released_at DESC NULLS LAST, id DESC. */
  predicate Precedes(t: Tables, a: ContentId, b: ContentId)
    requires a in t.contents && b in t.contents
  {
    match (t.contents[a].releasedAt, t.contents[b].releasedAt)
    case (Some(x), Some(y)) => x > y || (x == y && a > b)
    case (Some(_), None) => true
    case (None, Some(_)) => false
    case (None, None) => a > b
  }

  /** ListPublishedContents: the first `limit` eligible rows in order. */
  ghost predicate IsPage(t: Tables, cursor: Option<Position>, limit: nat, page: seq<ContentId>) {
    && |page| <= limit
    && (forall i :: 0 <= i < |page| ==> Eligible(t, page[i], cursor))
    && (forall i, j :: 0 <= i < j < |page| ==> Precedes(t, page[i], page[j]))
    && (forall id :: Eligible(t, id, cursor) && id !in page ==>
          |page| == limit && forall i :: 0 <= i < |page| ==> Precedes(t, page[i], id))
  }

  lemma NoRepeats(t: Tables, cursor: Option<Position>, limit: nat, page: seq<ContentId>)
    requires IsPage(t, cursor, limit, page)
    ensures forall i, j :: 0 <= i < j < |page| ==> page[i] != page[j]
  {
    forall i, j | 0 <= i < j < |page| ensures page[i] != page[j] {
      assert Precedes(t, page[i], page[j]);
    }
  }

  /** Two answers that agree on their first `k` rows: the second has no room for another
      row before the first one's next. */
  lemma NextRowIsNoLater(t: Tables, cursor: Option<Position>, limit: nat, page: seq<ContentId>, other: seq<ContentId>,
      k: nat)
    requires IsPage(t, cursor, limit, page) && IsPage(t, cursor, limit, other)
    requires k < |page| && k <= |other| && page[..k] == other[..k]
    ensures k < |other| && (page[k] == other[k] || Precedes(t, other[k], page[k]))
  {
    NoRepeats(t, cursor, limit, page);
    assert Eligible(t, page[k], cursor);
    forall j | 0 <= j < k ensures other[j] == page[j] {
      assert page[..k][j] == other[..k][j];
    }
    if page[k] in other {
      var j :| 0 <= j < |other| && other[j] == page[k];
      assert j == k || Precedes(t, other[k], other[j]);
    }
  }

  /** The query has one answer. */
  lemma PageIsUnique(t: Tables, cursor: Option<Position>, limit: nat, page: seq<ContentId>, other: seq<ContentId>)
    requires IsPage(t, cursor, limit, page) && IsPage(t, cursor, limit, other)
    ensures page == other
  {
    if page != other {
      var k := FirstDifference(page, other);
      if k < |page| { NextRowIsNoLater(t, cursor, limit, page, other, k); }
      if k < |other| { NextRowIsNoLater(t, cursor, limit, other, page, k); }
    }
  }

  lemma FirstDifference<T>(a: seq<T>, b: seq<T>) returns (k: nat)
    requires a != b
    ensures k <= |a| && k <= |b| && a[..k] == b[..k]
    ensures (k < |a| && k < |b| && a[k] != b[k]) || k == |a| < |b| || k == |b| < |a|
  {
    k := 0;
    while k < |a| && k < |b| && a[k] == b[k]
      invariant k <= |a| && k <= |b| && a[..k] == b[..k]
    {
      k := k + 1;
    }
  }

  /** The query as a scan: the earliest row left, until the page is full. */
  method ListPublished(t: Tables, cursor: Option<Position>, limit: nat) returns (page: seq<ContentId>)
    ensures IsPage(t, cursor, limit, page)
  {
    var rest := set id | id in t.contents && Eligible(t, id, cursor);
    page := [];
    while rest != {} && |page| < limit
      invariant |page| <= limit && rest <= t.contents.Keys
      invariant forall i :: 0 <= i < |page| ==> page[i] in t.contents
      invariant forall id :: Eligible(t, id, cursor) <==> id in rest || id in page
      invariant forall i, j :: 0 <= i < j < |page| ==> Precedes(t, page[i], page[j])
      invariant forall i, id :: 0 <= i < |page| && id in rest ==> Precedes(t, page[i], id)
      decreases rest
    {
      var first := Earliest(t, rest);
      page := page + [first];
      rest := rest - {first};
    }
  }

  method Earliest(t: Tables, rows: set<ContentId>) returns (first: ContentId)
    requires rows != {} && rows <= t.contents.Keys
    ensures first in rows && forall id :: id in rows && id != first ==> Precedes(t, first, id)
  {
    first :| first in rows;
    var others := rows - {first};
    while others != {}
      invariant others <= rows && first in rows && first !in others
      invariant forall id :: id in rows && id !in others && id != first ==> Precedes(t, first, id)
      decreases others
    {
      var id :| id in others;
      others := others - {id};
      if Precedes(t, id, first) {
        first := id;
      }
    }
  }

  /** nextCursor: only after a full page, and only from a row with a release time. */
  function NextKey(t: Tables, page: seq<ContentId>): Option<Position> {
    if |page| != LIST_LIMIT then None
    else
      var last := page[|page| - 1];
      if last in t.contents && t.contents[last].releasedAt.Some? then
        Some(Position(t.contents[last].releasedAt.value, last))
      else None
  }

  /** The text of the next cursor, empty on the last page. */
  function NextText(next: Option<Position>): string
    requires next.Some? ==> 0 <= next.value.releasedAt && Text.IsBytes(KeyText(next.value))
  {
    match next
    case None => ""
    case Some(key) => EncodeKey(key)
  }

  /** The request chained from a page asks for exactly the rows below its last one. */
  lemma ChainedCursorIsTheKey(next: Position)
    requires Timestamps.Writable(next.releasedAt) && IsUuid(next.id)
    ensures 0 <= next.releasedAt && Text.IsBytes(KeyText(next))
    ensures NextText(Some(next)) != "" && DecodeKey(NextText(Some(next))) == Some(next)
  {
    KeyRoundTrip(next);
    EncodeIsNotEmpty(Text.ToBytes(KeyText(next)));
  }

  /** One request: the tables as its query saw them, its cursor and its page. */
  datatype Visit = Visit(t: Tables, cursor: Option<Position>, page: seq<ContentId>)

  /** Requests chained from no cursor until no cursor is handed back. */
  ghost predicate Traversal(vs: seq<Visit>) {
    && vs != [] && vs[0].cursor.None?
    && (forall v :: 0 <= v < |vs| ==> IsPage(vs[v].t, vs[v].cursor, LIST_LIMIT, vs[v].page))
    && (forall v :: 0 <= v < |vs| - 1 ==>
          var next := NextKey(vs[v].t, vs[v].page); next.Some? && vs[v + 1].cursor == next)
    && NextKey(vs[|vs| - 1].t, vs[|vs| - 1].page).None?
  }

  /** The content is visible whenever a page is read, with one release time throughout. */
  ghost predicate Stays(vs: seq<Visit>, id: ContentId, releasedAt: Time) {
    forall v :: 0 <= v < |vs| ==>
      IsVisible(vs[v].t, id) && vs[v].t.contents[id].releasedAt == Some(releasedAt)
  }

  /** The cursor has not reached the content yet. */
  predicate Awaits(cursor: Option<Position>, id: ContentId, releasedAt: Time) {
    cursor.Some? ==>
      releasedAt < cursor.value.releasedAt || (releasedAt == cursor.value.releasedAt && id < cursor.value.id)
  }

  /** One page: the content is on it, or the next cursor still waits for it - never both. */
  lemma PageOrLater(v: Visit, id: ContentId, releasedAt: Time)
    requires IsPage(v.t, v.cursor, LIST_LIMIT, v.page) && PublishedIsReleased(v.t)
    requires IsVisible(v.t, id) && v.t.contents[id].releasedAt == Some(releasedAt)
    ensures id in v.page ==> Awaits(v.cursor, id, releasedAt)
    ensures Awaits(v.cursor, id, releasedAt) ==>
              var next := NextKey(v.t, v.page);
              if id in v.page then next.Some? ==> !Awaits(next, id, releasedAt)
                  else next.Some? && Awaits(next, id, releasedAt)
    ensures !Awaits(v.cursor, id, releasedAt) ==>
              var next := NextKey(v.t, v.page); next.Some? ==> !Awaits(next, id, releasedAt)
  {
    var n := |v.page|;
    if n == LIST_LIMIT {
      var last := v.page[n - 1];
      assert Eligible(v.t, last, v.cursor);
      assert v.t.contents[last].releasedAt.Some?;
      if id in v.page {
        var i :| 0 <= i < n && v.page[i] == id;
        assert i == n - 1 || Precedes(v.t, id, last);
      } else if Awaits(v.cursor, id, releasedAt) {
        assert Eligible(v.t, id, v.cursor);
        assert Precedes(v.t, last, id);
      }
    }
  }

  /** From a visit whose cursor awaits the content, exactly one page shows it, at one place. */
  lemma {:induction false} ShownOnceFrom(vs: seq<Visit>, from: nat, id: ContentId, releasedAt: Time)
    returns (v: nat, i: nat)
    requires Traversal(vs) && Stays(vs, id, releasedAt) && from < |vs|
    requires forall w :: 0 <= w < |vs| ==> PublishedIsReleased(vs[w].t)
    requires Awaits(vs[from].cursor, id, releasedAt)
    ensures from <= v < |vs| && i < |vs[v].page| && vs[v].page[i] == id
    ensures forall w, j :: from <= w < |vs| && 0 <= j < |vs[w].page| && vs[w].page[j] == id ==> w == v && j == i
    decreases |vs| - from
  {
    PageOrLater(vs[from], id, releasedAt);
    if id in vs[from].page {
      v := from;
      i :| 0 <= i < |vs[v].page| && vs[v].page[i] == id;
      NotShownAfter(vs, from, id, releasedAt);
      NoRepeats(vs[v].t, vs[v].cursor, LIST_LIMIT, vs[v].page);
    } else {
      v, i := ShownOnceFrom(vs, from + 1, id, releasedAt);
    }
  }

  /** Once a page has shown the content, no later one does. */
  lemma {:induction false} NotShownAfter(vs: seq<Visit>, from: nat, id: ContentId, releasedAt: Time)
    requires Traversal(vs) && Stays(vs, id, releasedAt) && from < |vs|
    requires forall w :: 0 <= w < |vs| ==> PublishedIsReleased(vs[w].t)
    requires id in vs[from].page || !Awaits(vs[from].cursor, id, releasedAt)
    ensures forall w :: from < w < |vs| ==> id !in vs[w].page
    decreases |vs| - from
  {
    PageOrLater(vs[from], id, releasedAt);
    if from + 1 < |vs| {
      PageOrLater(vs[from + 1], id, releasedAt);
      NotShownAfter(vs, from + 1, id, releasedAt);
    }
  }

  /** Other contents may be published, hidden or released between the pages: a content that
      stays visible with its release time appears exactly once in a full traversal. The
      tables are those of states the catalogue can reach. */
  lemma AppearsExactlyOnce(states: seq<Publishing.State>, vs: seq<Visit>, id: ContentId, releasedAt: Time)
    returns (v: nat, i: nat)
    requires |states| == |vs| && Traversal(vs) && Stays(vs, id, releasedAt)
    requires forall w :: 0 <= w < |vs| ==> Publishing.Reachable(states[w]) && vs[w].t == states[w].t
    ensures v < |vs| && i < |vs[v].page| && vs[v].page[i] == id
    ensures forall w, j :: 0 <= w < |vs| && 0 <= j < |vs[w].page| && vs[w].page[j] == id ==> w == v && j == i
  {
    forall w | 0 <= w < |vs| ensures PublishedIsReleased(vs[w].t) {
      PublishingInvariant.ReachableIsInv(states[w]);
    }
    v, i := ShownOnceFrom(vs, 0, id, releasedAt);
  }

  /** Over a frozen catalogue the pages list exactly the visible contents. */
  lemma FrozenTraversalIsExact(s: Publishing.State, vs: seq<Visit>, id: ContentId)
    requires Publishing.Reachable(s) && Traversal(vs) && forall v :: 0 <= v < |vs| ==> vs[v].t == s.t
    ensures id in Visible(s.t) <==> exists v :: 0 <= v < |vs| && id in vs[v].page
  {
    PublishingInvariant.ReachableIsInv(s);
    if id in Visible(s.t) {
      var v, i := AppearsExactlyOnce(seq(|vs|, _ => s), vs, id, s.t.contents[id].releasedAt.value);
      assert id in vs[v].page;
    }
    if v :| 0 <= v < |vs| && id in vs[v].page {
      var i :| 0 <= i < |vs[v].page| && vs[v].page[i] == id;
      assert Eligible(s.t, vs[v].page[i], vs[v].cursor);
    }
  }

  /** Without the invariant the traversal would lose rows: in a traversal of several pages
      a published row without a release time is on none of them. */
  lemma UnreleasedRowIsLost(vs: seq<Visit>, id: ContentId)
    requires Traversal(vs) && |vs| > 1
    requires forall v :: 0 <= v < |vs| && id in vs[v].t.contents ==> vs[v].t.contents[id].releasedAt.None?
    ensures forall v :: 0 <= v < |vs| ==> id !in vs[v].page
  {
    forall v, i | 0 <= v < |vs| && 0 <= i < |vs[v].page| ensures vs[v].page[i] != id {
      assert Eligible(vs[v].t, vs[v].page[i], vs[v].cursor);
      if v == 0 {
        var last := |vs[0].page| - 1;
        assert vs[v + 1].cursor == NextKey(vs[v].t, vs[v].page);
        assert i == last || Precedes(vs[0].t, vs[0].page[i], vs[0].page[last]);
      } else {
        assert vs[v].cursor == NextKey(vs[v - 1].t, vs[v - 1].page);
      }
    }
  }
}
