/** Merging by client timestamp: a write takes effect unless a later one is already
    stored. */
module LastWriter {
  type Time = int

  datatype Stamped<T> = Stamped(value: T, at: Time)

  /** CASE WHEN stored.client_updated_at <= incoming.client_updated_at. */
  function Merge<T>(stored: Stamped<T>, incoming: Stamped<T>): Stamped<T> {
    if stored.at <= incoming.at then incoming else stored
  }

  function MergeAll<T>(stored: Stamped<T>, writes: seq<Stamped<T>>): Stamped<T> {
    if writes == [] then stored
    else Merge(MergeAll(stored, writes[..|writes| - 1]), writes[|writes| - 1])
  }

  /** The first write inserts, the others merge. */
  function MergeNew<T>(writes: seq<Stamped<T>>): Stamped<T>
    requires writes != []
  {
    MergeAll(writes[0], writes[1..])
  }

  ghost predicate IsLatest<T>(w: Stamped<T>, all: set<Stamped<T>>) {
    w in all && forall x :: x in all ==> x.at <= w.at
  }

  ghost predicate DistinctTimes<T(!new)>(all: set<Stamped<T>>) {
    forall x, y :: x in all && y in all && x.at == y.at ==> x == y
  }

  /** What was written, whatever the order and the number of deliveries. */
  function Delivered<T(==)>(writes: seq<Stamped<T>>): set<Stamped<T>> {
    set w | w in writes
  }

  /** Whatever the order, the stored tuple is one of the writes, whole, and none is later. */
  lemma {:induction false} MergeKeepsLatest<T>(stored: Stamped<T>, writes: seq<Stamped<T>>)
    ensures IsLatest(MergeAll(stored, writes), {stored} + Delivered(writes))
  {
    if writes != [] {
      var n := |writes| - 1;
      MergeKeepsLatest(stored, writes[..n]);
      assert writes == writes[..n] + [writes[n]];
    }
  }

  /** No earlier write is newer than the i-th, and every later one is older. */
  ghost predicate LastOfTheLatest<T>(writes: seq<Stamped<T>>, i: nat) {
    && i < |writes|
    && (forall j :: 0 <= j < i ==> writes[j].at <= writes[i].at)
    && (forall j :: i < j < |writes| ==> writes[j].at < writes[i].at)
  }

  lemma LastOfMore<T>(writes: seq<Stamped<T>>, i: nat, w: Stamped<T>)
    requires LastOfTheLatest(writes, i) && w.at < writes[i].at
    ensures LastOfTheLatest(writes + [w], i)
  {
  }

  lemma NewLast<T>(writes: seq<Stamped<T>>, w: Stamped<T>)
    requires forall j :: 0 <= j < |writes| ==> writes[j].at <= w.at
    ensures LastOfTheLatest(writes + [w], |writes|)
  {
  }

  /** The stored tuple, unless some write is at least as new; else the winner among them. */
  ghost predicate Wins<T>(stored: Stamped<T>, writes: seq<Stamped<T>>, winner: Stamped<T>) {
    if forall i :: 0 <= i < |writes| ==> writes[i].at < stored.at then winner == stored
    else exists i: nat :: LastOfTheLatest(writes, i) && winner == writes[i]
  }

  lemma OneMoreArrives<T>(stored: Stamped<T>, writes: seq<Stamped<T>>, winner: Stamped<T>, w: Stamped<T>)
    requires Wins(stored, writes, winner) && stored.at <= winner.at
    requires forall j :: 0 <= j < |writes| ==> writes[j].at <= winner.at
    ensures Wins(stored, writes + [w], Merge(winner, w))
  {
    var (n, more) := (|writes|, writes + [w]);
    assert more[n] == w && forall j :: 0 <= j < n ==> more[j] == writes[j];
    if winner.at <= w.at {
      NewLast(writes, w);
    } else if !(forall i :: 0 <= i < n ==> writes[i].at < stored.at) {
      var i: nat :| LastOfTheLatest(writes, i) && winner == writes[i];
      LastOfMore(writes, i, w);
      assert more[i] == winner;
    }
  }

  /** Of the writes with the greatest time the one that arrived last is stored; what was
      there before stays exactly if every write is older. */
  lemma {:induction false} LastArrivedWins<T>(stored: Stamped<T>, writes: seq<Stamped<T>>)
    ensures var merged := MergeAll(stored, writes);
      if forall i :: 0 <= i < |writes| ==> writes[i].at < stored.at then merged == stored
      else exists i: nat ::
        && i < |writes| && merged == writes[i]
        && (forall j :: 0 <= j < i ==> writes[j].at <= writes[i].at)
        && (forall j :: i < j < |writes| ==> writes[j].at < writes[i].at)
  {
    MergedWins(stored, writes);
    if !(forall i :: 0 <= i < |writes| ==> writes[i].at < stored.at) {
      var i: nat :| LastOfTheLatest(writes, i) && MergeAll(stored, writes) == writes[i];
    }
    hide MergeAll;
  }

  lemma {:induction false} NoneIsNewer<T>(stored: Stamped<T>, writes: seq<Stamped<T>>)
    ensures stored.at <= MergeAll(stored, writes).at
    ensures forall j :: 0 <= j < |writes| ==> writes[j].at <= MergeAll(stored, writes).at
  {
    if writes != [] {
      NoneIsNewer(stored, writes[..|writes| - 1]);
    }
  }

  lemma {:induction false} MergedWins<T>(stored: Stamped<T>, writes: seq<Stamped<T>>)
    ensures Wins(stored, writes, MergeAll(stored, writes))
  {
    if writes != [] {
      var (init, w) := (writes[..|writes| - 1], writes[|writes| - 1]);
      assert writes == init + [w] && MergeAll(stored, writes) == Merge(MergeAll(stored, init), w);
      hide *;
      MergedWins(stored, init);
      NoneIsNewer(stored, init);
      OneMoreArrives(stored, init, MergeAll(stored, init), w);
    }
  }

  lemma MergeNewKeepsLatest<T>(writes: seq<Stamped<T>>)
    requires writes != []
    ensures IsLatest(MergeNew(writes), Delivered(writes))
  {
    MergeKeepsLatest(writes[0], writes[1..]);
    assert writes == [writes[0]] + writes[1..];
  }

  /** With distinct times the result is a matter of the set of writes: any order, any number
      of repeated deliveries. */
  lemma MergeConverges<T(!new)>(writes: seq<Stamped<T>>, writes': seq<Stamped<T>>)
    requires writes != [] && writes' != [] && Delivered(writes) == Delivered(writes')
        && DistinctTimes(Delivered(writes))
    ensures MergeNew(writes) == MergeNew(writes')
  {
    MergeNewKeepsLatest(writes);
    MergeNewKeepsLatest(writes');
  }
}
