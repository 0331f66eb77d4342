/** An append-only table with a generated sequence number, and the "rows after a
    cursor, oldest first, at most `limit`" query over it.

    The sequence number of slot `i` is `i + 1`. A number is handed out when a row is
    inserted and the row becomes readable when its transaction commits, so a slot is
    `Empty` while the transaction is in flight and stays so when it aborts. */
module SequenceLog {
  datatype Slot<K(==), E> = Empty | Row(owner: K, body: E)

  datatype Numbered<K(==), E> = Numbered(sequence: nat, owner: K, body: E)

  /** Slot `i` holds a committed row of `k`. */
  ghost predicate RowAt<K, E>(log: seq<Slot<K, E>>, i: nat, k: K) {
    i < |log| && log[i].Row? && log[i].owner == k
  }

  /** Slot `i` holds the newest committed row of `k`. */
  ghost predicate LastRowAt<K, E>(log: seq<Slot<K, E>>, i: nat, k: K) {
    RowAt(log, i, k) && forall j: nat :: i < j && RowAt(log, j, k) ==> false
  }

  /** SELECT ... WHERE sequence > cursor AND owner IN owners ORDER BY sequence LIMIT limit. */
  function After<K(==), E>(log: seq<Slot<K, E>>, owners: set<K>, cursor: nat, limit: nat): seq<Numbered<K, E>>
    decreases |log| - cursor
  {
    if cursor >= |log| || limit == 0 then []
    else if log[cursor].Row? && log[cursor].owner in owners then
      [Numbered(cursor + 1, log[cursor].owner, log[cursor].body)] + After(log, owners, cursor + 1, limit - 1)
    else After(log, owners, cursor + 1, limit)
  }

  /** The cursor a page hands back: the sequence of its last row, or the one it was given. */
  function NextCursor<K, E>(cursor: nat, rows: seq<Numbered<K, E>>): nat {
    if rows == [] then cursor else rows[|rows| - 1].sequence
  }

  /** Stored rows of wanted owners after the cursor, numbers strictly increasing. */
  ghost predicate SoundAndSorted<K, E>(log: seq<Slot<K, E>>, owners: set<K>, cursor: nat, rows: seq<Numbered<K, E>>) {
    && (forall r :: 0 <= r < |rows| ==>
          && cursor < rows[r].sequence <= |log|
          && rows[r].owner in owners
          && log[rows[r].sequence - 1] == Row(rows[r].owner, rows[r].body))
    && (forall q, r :: 0 <= q < r < |rows| ==> rows[q].sequence < rows[r].sequence)
  }

  lemma FirstRow<K, E>(log: seq<Slot<K, E>>, owners: set<K>, cursor: nat, rest: seq<Numbered<K, E>>)
    requires cursor < |log| && log[cursor].Row? && log[cursor].owner in owners
    requires SoundAndSorted(log, owners, cursor + 1, rest)
    ensures SoundAndSorted(log, owners, cursor, [Numbered(cursor + 1, log[cursor].owner, log[cursor].body)] + rest)
  {
  }

  lemma {:induction false} PageIsSound<K, E>(log: seq<Slot<K, E>>, owners: set<K>, cursor: nat, limit: nat)
    ensures var rows := After(log, owners, cursor, limit); |rows| <= limit && SoundAndSorted(log, owners, cursor, rows)
    decreases |log| - cursor
  {
    if cursor >= |log| || limit == 0 {
    } else if log[cursor].Row? && log[cursor].owner in owners {
      PageIsSound(log, owners, cursor + 1, limit - 1);
      FirstRow(log, owners, cursor, After(log, owners, cursor + 1, limit - 1));
    } else {
      PageIsSound(log, owners, cursor + 1, limit);
    }
  }

  /** Every page row is a stored row of a wanted owner after the cursor, and numbers
      strictly increase. */
  lemma AfterIsSoundAndSorted<K, E>(log: seq<Slot<K, E>>, owners: set<K>, cursor: nat, limit: nat)
    ensures var rows := After(log, owners, cursor, limit);
      && |rows| <= limit
      && (forall r :: 0 <= r < |rows| ==>
            && cursor < rows[r].sequence <= |log|
            && rows[r].owner in owners
            && log[rows[r].sequence - 1] == Row(rows[r].owner, rows[r].body))
      && (forall q, r :: 0 <= q < r < |rows| ==> rows[q].sequence < rows[r].sequence)
  {
    PageIsSound(log, owners, cursor, limit);
    hide After;
  }

  /** No wanted row is skipped: each one after the cursor is on the page or comes after
      the page's own next cursor, and a page below its limit leaves none behind. */
  lemma {:induction false} AfterSkipsNothing<K, E>(log: seq<Slot<K, E>>, owners: set<K>, cursor: nat, limit: nat,
      i: nat)
    requires cursor <= i < |log| && log[i].Row? && log[i].owner in owners
    ensures var rows := After(log, owners, cursor, limit);
      && (i < NextCursor(cursor, rows) || |rows| < limit ==> Numbered(i + 1, log[i].owner, log[i].body) in rows)
      && (|rows| < limit ==> i < NextCursor(cursor, rows))
    decreases |log| - cursor
  {
    if limit == 0 {
    } else {
      var keep := log[cursor].Row? && log[cursor].owner in owners;
      var rest := After(log, owners, cursor + 1, if keep then limit - 1 else limit);
      if i > cursor {
        AfterSkipsNothing(log, owners, cursor + 1, if keep then limit - 1 else limit, i);
      }
      AfterIsSoundAndSorted(log, owners, cursor, limit);
      if keep {
        var first := Numbered(cursor + 1, log[cursor].owner, log[cursor].body);
        assert After(log, owners, cursor, limit) == [first] + rest;
        assert forall x :: x in rest ==> x in [first] + rest;
        if rest == [] { assert NextCursor(cursor, [first] + rest) == cursor + 1; }
      }
    }
  }

  /** Rows of a page, then the page from its next cursor, are one larger page: chained
      requests read the log as if it had been read at once. */
  lemma {:induction false} PagesConcatenate<K, E>(log: seq<Slot<K, E>>, owners: set<K>, cursor: nat, first: nat,
      second: nat)
    ensures var rows := After(log, owners, cursor, first);
      |rows| == first ==>
        rows + After(log, owners, NextCursor(cursor, rows), second) == After(log, owners, cursor, first + second)
    decreases |log| - cursor
  {
    var rows := After(log, owners, cursor, first);
    if first == 0 {
      assert rows == [];
      assert rows + After(log, owners, cursor, second) == After(log, owners, cursor, second);
    } else if cursor < |log| && |rows| == first {
      if log[cursor].Row? && log[cursor].owner in owners {
        var row := Numbered(cursor + 1, log[cursor].owner, log[cursor].body);
        var rest := After(log, owners, cursor + 1, first - 1);
        assert rows == [row] + rest;
        assert After(log, owners, cursor, first + second) == [row] + After(log, owners, cursor + 1, first - 1 + second);
        hide After;
        PagesConcatenate(log, owners, cursor + 1, first - 1, second);
        RowInFront(cursor, row, rest, After(log, owners, NextCursor(cursor + 1, rest), second));
      } else {
        assert rows == After(log, owners, cursor + 1, first) && rows != [];
        assert After(log, owners, cursor, first + second) == After(log, owners, cursor + 1, first + second);
        hide After;
        PagesConcatenate(log, owners, cursor + 1, first, second);
      }
    }
  }

  lemma RowInFront<K, E>(cursor: nat, row: Numbered<K, E>, rest: seq<Numbered<K, E>>, tail: seq<Numbered<K, E>>)
    requires row.sequence == cursor + 1
    ensures NextCursor(cursor, [row] + rest) == NextCursor(cursor + 1, rest)
    ensures ([row] + rest) + tail == [row] + (rest + tail)
  {
    if rest == [] { assert [row] + rest == [row]; }
  }

  /** Reading in pages of `limit` until a short page: what a client does with `hasMore`. */
  function ReadAll<K(==), E>(log: seq<Slot<K, E>>, owners: set<K>, cursor: nat, limit: nat): seq<Numbered<K, E>>
    requires limit > 0
    decreases |log| - cursor
  {
    var rows := After(log, owners, cursor, limit);
    if |rows| < limit then rows
    else
      AfterIsSoundAndSorted(log, owners, cursor, limit);
      rows + ReadAll(log, owners, NextCursor(cursor, rows), limit)
  }

  /** Chained pages concatenate to the whole suffix, whatever the page size. */
  lemma {:induction false} ReadAllIsTheSuffix<K, E>(log: seq<Slot<K, E>>, owners: set<K>, cursor: nat, limit: nat,
      whole: nat)
    requires limit > 0 && whole + cursor >= |log|
    ensures ReadAll(log, owners, cursor, limit) == After(log, owners, cursor, whole)
    decreases |log| - cursor
  {
    var rows := After(log, owners, cursor, limit);
    AfterIsSoundAndSorted(log, owners, cursor, limit);
    if |rows| < limit {
      ShortPageIsComplete(log, owners, cursor, limit, whole);
    } else {
      var next := NextCursor(cursor, rows);
      SequencesLeaveRoom(log, owners, cursor, limit);
      PagesConcatenate(log, owners, cursor, limit, |log|);
      ReadAllIsTheSuffix(log, owners, next, limit, |log|);
      ShortPageIsComplete(log, owners, cursor, limit + |log| + 1, whole);
      ShortPageIsComplete(log, owners, cursor, limit + |log| + 1, limit + |log|);
    }
  }

  lemma {:induction false} SequencesLeaveRoom<K, E>(log: seq<Slot<K, E>>, owners: set<K>, cursor: nat, limit: nat)
    ensures cursor <= |log| ==> |After(log, owners, cursor, limit)| <= |log| - cursor
    ensures cursor > |log| ==> After(log, owners, cursor, limit) == []
    decreases |log| - cursor
  {
    if cursor < |log| && limit > 0 {
      SequencesLeaveRoom(log, owners, cursor + 1, limit - 1);
      SequencesLeaveRoom(log, owners, cursor + 1, limit);
    }
  }

  /** A page that stayed below its limit is unchanged by any limit that the log cannot fill. */
  lemma {:induction false} ShortPageIsComplete<K, E>(log: seq<Slot<K, E>>, owners: set<K>, cursor: nat, limit: nat,
      whole: nat)
    requires |After(log, owners, cursor, limit)| < limit || limit + cursor >= |log|
    requires whole + cursor >= |log|
    ensures After(log, owners, cursor, limit) == After(log, owners, cursor, whole)
    decreases |log| - cursor
  {
    if cursor < |log| {
      if limit > 0 {
        var keep := log[cursor].Row? && log[cursor].owner in owners;
        SequencesLeaveRoom(log, owners, cursor, limit);
        if keep {
          ShortPageIsComplete(log, owners, cursor + 1, limit - 1, whole - 1);
        } else {
          SequencesLeaveRoom(log, owners, cursor + 1, limit);
          ShortPageIsComplete(log, owners, cursor + 1, limit, whole);
        }
      }
    }
  }

  /** Rows of other owners, and slots that are still empty, never show on a page. */
  lemma {:induction false} AfterIgnores<K, E>(log: seq<Slot<K, E>>, log': seq<Slot<K, E>>, owners: set<K>,
      cursor: nat, limit: nat)
    requires |log| == |log'|
    requires forall i :: cursor <= i < |log| && log[i] != log'[i] ==>
               && (log[i].Row? ==> log[i].owner !in owners)
               && (log'[i].Row? ==> log'[i].owner !in owners)
    ensures After(log, owners, cursor, limit) == After(log', owners, cursor, limit)
    decreases |log| - cursor
  {
    if cursor < |log| && limit > 0 {
      AfterIgnores(log, log', owners, cursor + 1, limit - 1);
      AfterIgnores(log, log', owners, cursor + 1, limit);
    }
  }

  lemma {:induction false} AfterNobody<K, E>(log: seq<Slot<K, E>>, owners: set<K>, cursor: nat, limit: nat)
    requires forall i :: 0 <= i < |log| && log[i].Row? ==> log[i].owner !in owners
    ensures After(log, owners, cursor, limit) == []
    decreases |log| - cursor
  {
    if cursor < |log| {
      AfterNobody(log, owners, cursor + 1, limit);
    }
  }

  /** A committed row shows at the end of the feed. */
  lemma {:induction false} AfterGrows<K, E>(log: seq<Slot<K, E>>, slot: Slot<K, E>, owners: set<K>, cursor: nat,
      limit: nat)
    requires cursor <= |log| < limit + cursor
    ensures After(log + [slot], owners, cursor, limit) ==
            After(log, owners, cursor, limit - 1)
            + if slot.Row? && slot.owner in owners then [Numbered(|log| + 1, slot.owner, slot.body)] else []
    decreases |log| - cursor
  {
    if cursor == |log| {
      assert After(log + [slot], owners, cursor + 1, limit - 1) == [];
      assert After(log + [slot], owners, cursor + 1, limit) == [];
    } else if log[cursor].Row? && log[cursor].owner in owners {
      AfterGrows(log, slot, owners, cursor + 1, limit - 1);
    } else {
      AfterGrows(log, slot, owners, cursor + 1, limit);
      ShortPageIsComplete(log, owners, cursor + 1, limit - 1, limit);
    }
  }

  /** What has been read stays at the front of the feed. */
  lemma {:induction false} AfterKeepsItsPrefix<K, E>(log: seq<Slot<K, E>>, more: seq<Slot<K, E>>, owners: set<K>,
      cursor: nat, whole: nat)
    requires cursor <= |log| <= whole + cursor
    ensures var rows := After(log, owners, cursor, whole);
      After(log + more, owners, cursor, |rows|) == rows
    decreases |log| - cursor
  {
    if cursor < |log| {
      if log[cursor].Row? && log[cursor].owner in owners {
        AfterKeepsItsPrefix(log, more, owners, cursor + 1, whole - 1);
      } else {
        AfterKeepsItsPrefix(log, more, owners, cursor + 1, whole);
      }
    }
  }
}
