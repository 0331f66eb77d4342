/** One bookmark, or one vocabulary entry, written by transactions that overlap: a save locks
    the row to its transaction's end, and so does a removal that finds it. A removal that
    finds no committed row locks nothing; one that waited for a row which was removed
    meanwhile finds nothing either, even if there is a new one by then. Each then appends its
    event and commits. */
module EventRace {
  import opened Common

  type WriterId = nat

  /** What a transaction's statement did to the row. */
  datatype Effect = Saved | Removed | FoundNothing

  /** `slot` is where its event will be readable, once appended. */
  datatype Writer = Writer(effect: Effect, slot: Option<nat>)

  /** `present` is the committed row; a log slot is None until its transaction commits. A
      waiting removal maps to whether the row it waits for has been removed. */
  datatype State = State(
    present: bool,
    log: seq<Option<Effect>>,
    writers: map<WriterId, Writer>,
    waiting: map<WriterId, bool>)

  datatype Step =
    | Wait(writer: WriterId)
    | Write(writer: WriterId, save: bool)
    | Append(writer: WriterId)
    | Commit(writer: WriterId)
    | Abort(writer: WriterId)

  const INITIAL := State(false, [], map[], map[])

  predicate Locks(w: Writer) { !w.effect.FoundNothing? }

  ghost predicate Unlocked(s: State) { forall w :: w in s.writers ==> !Locks(s.writers[w]) }

  /** The row it waited for is gone. */
  predicate WaitedInVain(s: State, w: WriterId) { w in s.waiting && s.waiting[w] }

  ghost predicate Enabled(s: State, e: Step) {
    match e
    case Wait(w) => w !in s.writers && w !in s.waiting && s.present && !Unlocked(s)
    case Write(w, save) =>
      && w !in s.writers && (save ==> w !in s.waiting)
      && (save || (s.present && !WaitedInVain(s, w)) ==> Unlocked(s))
    case Append(w) => w in s.writers && s.writers[w].slot.None?
    case Commit(w) => w in s.writers && s.writers[w].slot.Some?
    case Abort(w) => w in s.writers || w in s.waiting
  }

  function EffectOf(s: State, w: WriterId, save: bool): Effect {
    if save then Saved else if s.present && !WaitedInVain(s, w) then Removed else FoundNothing
  }

  function AllInVain(waiting: map<WriterId, bool>): map<WriterId, bool> { map w | w in waiting :: true }

  function Apply(s: State, e: Step): State {
    match e
    case Wait(w) => s.(waiting := s.waiting[w := false])
    case Write(w, save) =>
      s.(writers := s.writers[w := Writer(EffectOf(s, w, save), None)], waiting := s.waiting - {w})
    case Append(w) =>
      if w in s.writers then
        s.(writers := s.writers[w := s.writers[w].(slot := Some(|s.log|))], log := s.log + [None])
      else s
    case Commit(w) =>
      if w in s.writers && s.writers[w].slot.Some? && s.writers[w].slot.value < |s.log| then
        var Writer(effect, slot) := s.writers[w];
        State(if effect.FoundNothing? then s.present else effect.Saved?,
              s.log[slot.value := Some(effect)],
              s.writers - {w},
              if effect.Removed? then AllInVain(s.waiting) else s.waiting)
      else s
    case Abort(w) => s.(writers := s.writers - {w}, waiting := s.waiting - {w})
  }

  ghost predicate Runs(s: State, steps: seq<Step>)
    decreases |steps|
  {
    steps == [] || (Enabled(s, steps[0]) && Runs(Apply(s, steps[0]), steps[1..]))
  }

  function Outcome(s: State, steps: seq<Step>): State
    decreases |steps|
  {
    if steps == [] then s else Outcome(Apply(s, steps[0]), steps[1..])
  }

  /** What replaying the committed events in sequence order says. */
  function Replayed(log: seq<Option<Effect>>): bool {
    if log == [] then false
    else if log[|log| - 1].Some? then log[|log| - 1].value.Saved?
    else Replayed(log[..|log| - 1])
  }

  // ---------- what every run keeps ----------

  /** Whether the last committed transaction that locked the row left one. */
  function LeftRow(log: seq<Option<Effect>>): bool {
    if log == [] then false
    else
      var last := log[|log| - 1];
      if last.Some? && !last.value.FoundNothing? then last.value.Saved? else LeftRow(log[..|log| - 1])
  }

  /** From slot `k` on no transaction that locked the row has committed. */
  ghost predicate Clear(log: seq<Option<Effect>>, k: nat) {
    forall j :: k <= j < |log| && log[j].Some? ==> log[j].value.FoundNothing?
  }

  ghost predicate WriterOk(log: seq<Option<Effect>>, w: Writer) {
    w.slot.Some? ==> w.slot.value < |log| && log[w.slot.value].None? && (Locks(w) ==> Clear(log, w.slot.value))
  }

  /** The row is what the last transaction that locked it left, and one in flight comes later
      than all before it. */
  ghost predicate Inv(s: State) {
    && s.present == LeftRow(s.log)
    && (forall w :: w in s.writers ==> WriterOk(s.log, s.writers[w]))
    && forall v, w :: v in s.writers && w in s.writers && v != w ==>
         && !(Locks(s.writers[v]) && Locks(s.writers[w]))
         && (s.writers[v].slot.Some? ==> s.writers[v].slot != s.writers[w].slot)
  }

  lemma {:induction false} FilledSlot(log: seq<Option<Effect>>, k: nat, effect: Effect)
    requires k < |log| && log[k].None? && (!effect.FoundNothing? ==> Clear(log, k))
    ensures LeftRow(log[k := Some(effect)]) == if effect.FoundNothing? then LeftRow(log) else effect.Saved?
    decreases |log|
  {
    var n := |log| - 1;
    var filled := log[k := Some(effect)];
    if k < n {
      assert filled[..n] == log[..n][k := Some(effect)] && filled[n] == log[n];
      FilledSlot(log[..n], k, effect);
    } else {
      assert filled[..n] == log[..n];
    }
  }

  lemma CommitKeepsInv(s: State, w: WriterId)
    requires Inv(s) && Enabled(s, Commit(w))
    ensures Inv(Apply(s, Commit(w)))
  {
    var (s', Writer(effect, Some(slot))) := (Apply(s, Commit(w)), s.writers[w]);
    assert WriterOk(s.log, s.writers[w]);
    FilledSlot(s.log, slot, effect);
    hide LeftRow;
    forall v | v in s'.writers ensures WriterOk(s'.log, s'.writers[v]) {
      assert WriterOk(s.log, s.writers[v]);
    }
  }

  lemma AppendKeepsInv(s: State, w: WriterId)
    requires Inv(s) && Enabled(s, Append(w))
    ensures Inv(Apply(s, Append(w)))
  {
    var s' := Apply(s, Append(w));
    EmptySlotLeavesRow(s.log);
    hide LeftRow;
    forall v | v in s'.writers ensures WriterOk(s'.log, s'.writers[v]) {
      assert WriterOk(s.log, s.writers[v]);
      if v != w { LongerLogIsOk(s.log, s.writers[v]); }
    }
    hide WriterOk, Clear;
    forall v | v in s.writers && v != w ensures s'.writers[v] == s.writers[v] {}
  }

  lemma EmptySlotLeavesRow(log: seq<Option<Effect>>)
    ensures LeftRow(log + [None]) == LeftRow(log)
  {
    assert (log + [None])[..|log|] == log;
  }

  lemma LongerLogIsOk(log: seq<Option<Effect>>, w: Writer)
    requires WriterOk(log, w)
    ensures WriterOk(log + [None], w)
  {
  }

  lemma StepKeepsInv(s: State, e: Step)
    requires Inv(s) && Enabled(s, e)
    ensures Inv(Apply(s, e))
  {
    match e {
      case Append(w) => AppendKeepsInv(s, w);
      case Commit(w) => CommitKeepsInv(s, w);
      case _ => assert Apply(s, e).log == s.log && Apply(s, e).present == s.present;
    }
  }

  lemma {:induction false} RunKeepsInv(s: State, steps: seq<Step>)
    requires Inv(s) && Runs(s, steps)
    ensures Inv(Outcome(s, steps))
    decreases |steps|
  {
    if steps != [] {
      StepKeepsInv(s, steps[0]);
      RunKeepsInv(Apply(s, steps[0]), steps[1..]);
    }
  }

  // ---------- when the log tells the row ----------

  /** The events without the removals that found no row. */
  function Effective(log: seq<Option<Effect>>): seq<Option<Effect>> {
    seq(|log|, i requires 0 <= i < |log| => if log[i] == Some(FoundNothing) then None else log[i])
  }

  lemma {:induction false} EffectiveLeavesTheRow(log: seq<Option<Effect>>)
    ensures Replayed(Effective(log)) == LeftRow(log)
  {
    if log != [] {
      var n := |log| - 1;
      assert Effective(log)[..n] == Effective(log[..n]);
      EffectiveLeavesTheRow(log[..n]);
    }
  }

  /** Leaving out the removals that found no row, the events tell whether the row is there,
      whatever overlaps. */
  lemma EffectiveEventsTellTheRow(steps: seq<Step>)
    requires Runs(INITIAL, steps)
    ensures Replayed(Effective(Outcome(INITIAL, steps).log)) == Outcome(INITIAL, steps).present
  {
    RunKeepsInv(INITIAL, steps);
    EffectiveLeavesTheRow(Outcome(INITIAL, steps).log);
  }

  /** The save numbered `i` is the last commit that locked the row, and the removal numbered
      `j`, above it, found none. */
  ghost predicate RemovalAbove(log: seq<Option<Effect>>, i: nat, j: nat) {
    i < j < |log| && log[i] == Some(Saved) && log[j] == Some(FoundNothing) && Clear(log, i + 1)
  }

  lemma {:induction false} ReplayMissesIff(log: seq<Option<Effect>>)
    ensures Replayed(log) != LeftRow(log) <==> exists i, j :: RemovalAbove(log, i, j)
  {
    if log != [] {
      var (n, init) := (|log| - 1, log[..|log| - 1]);
      ReplayMissesIff(init);
      if log[n].None? {
        forall i: nat, j: nat ensures RemovalAbove(log, i, j) <==> RemovalAbove(init, i, j) {}
      } else if log[n].value.FoundNothing? {
        LastEventIsBlind(log);
      } else {
        forall i: nat, j: nat ensures !RemovalAbove(log, i, j) {}
      }
    }
  }

  lemma LastEventIsBlind(log: seq<Option<Effect>>)
    requires log != [] && log[|log| - 1] == Some(FoundNothing)
    ensures Replayed(log) != LeftRow(log) <==> exists i, j :: RemovalAbove(log, i, j)
  {
    var n := |log| - 1;
    if LeftRow(log) {
      var i := LastSave(log);
      assert RemovalAbove(log, i, n);
    } else {
      forall i: nat, j: nat ensures !RemovalAbove(log, i, j) {
        if RemovalAbove(log, i, j) {
          SaveIsLeft(log, i);
          assert false;
        }
      }
    }
  }

  lemma {:induction false} LastSave(log: seq<Option<Effect>>) returns (i: nat)
    requires LeftRow(log)
    ensures i < |log| && log[i] == Some(Saved) && Clear(log, i + 1)
  {
    var n := |log| - 1;
    i := n;
    if log[n] != Some(Saved) {
      i := LastSave(log[..n]);
      assert forall j :: 0 <= j < n ==> log[..n][j] == log[j];
    }
  }

  lemma {:induction false} SaveIsLeft(log: seq<Option<Effect>>, i: nat)
    requires i < |log| && log[i] == Some(Saved) && Clear(log, i + 1)
    ensures LeftRow(log)
  {
    if i < |log| - 1 {
      SaveIsLeft(log[..|log| - 1], i);
    }
  }

  /** After any run the events miss the row if and only if a removal that found none is
      numbered above the save that locked the row last. They err in no other way. */
  lemma LogMissesTheRowIff(steps: seq<Step>)
    requires Runs(INITIAL, steps)
    ensures var s := Outcome(INITIAL, steps);
      && (Replayed(s.log) != s.present <==> exists i, j :: RemovalAbove(s.log, i, j))
      && (Replayed(s.log) ==> s.present)
  {
    RunKeepsInv(INITIAL, steps);
    ReplayMissesIff(Outcome(INITIAL, steps).log);
    ReplayIsLeft(Outcome(INITIAL, steps).log);
  }

  lemma {:induction false} ReplayIsLeft(log: seq<Option<Effect>>)
    ensures Replayed(log) ==> LeftRow(log)
  {
    if log != [] { ReplayIsLeft(log[..|log| - 1]); }
  }

  /** No two transactions on the row overlap. */
  ghost predicate Serial(s: State, steps: seq<Step>)
    decreases |steps|
  {
    steps == [] ||
    ((steps[0].Write? || steps[0].Wait? ==> s.writers == map[]) && Serial(Apply(s, steps[0]), steps[1..]))
  }

  /** A removal in flight that found nothing still finds nothing. */
  ghost predicate Alone(s: State) {
    && Replayed(s.log) == s.present && s.waiting == map[]
    && (forall w :: w in s.writers ==> s.writers == map[w := s.writers[w]])
    && forall w :: w in s.writers ==>
         && (s.writers[w].effect.FoundNothing? ==> !s.present)
         && (s.writers[w].slot.Some? ==> s.writers[w].slot.value == |s.log| - 1 && s.log[|s.log| - 1].None?)
  }

  lemma EmptySlotReplays(log: seq<Option<Effect>>)
    ensures Replayed(log + [None]) == Replayed(log)
  {
    assert (log + [None])[..|log|] == log;
  }

  lemma LastSlotReplays(log: seq<Option<Effect>>, effect: Effect)
    requires log != []
    ensures Replayed(log[|log| - 1 := Some(effect)]) == effect.Saved?
  {
  }

  lemma AloneAppends(s: State, w: WriterId)
    requires Alone(s) && Enabled(s, Append(w))
    ensures Alone(Apply(s, Append(w)))
  {
    hide Replayed;
    EmptySlotReplays(s.log);
    var s' := Apply(s, Append(w));
    assert s.writers == map[w := s.writers[w]];
    assert s'.writers == map[w := s.writers[w].(slot := Some(|s.log|))];
  }

  lemma AloneCommits(s: State, w: WriterId)
    requires Alone(s) && Enabled(s, Commit(w))
    ensures Alone(Apply(s, Commit(w)))
  {
    hide Replayed;
    LastSlotReplays(s.log, s.writers[w].effect);
    var s' := Apply(s, Commit(w));
    assert s.writers == map[w := s.writers[w]];
    assert s'.writers == map[] && s'.waiting == map[];
  }

  lemma AloneStep(s: State, e: Step)
    requires Alone(s) && Enabled(s, e) && (e.Write? || e.Wait? ==> s.writers == map[])
    ensures Alone(Apply(s, e))
  {
    hide Replayed;
    match e {
      case Append(w) => AloneAppends(s, w);
      case Commit(w) => AloneCommits(s, w);
      case Write(w, save) => assert Apply(s, e).writers == map[w := Writer(EffectOf(s, w, save), None)];
      case Abort(w) => assert s.writers == map[w := s.writers[w]] && Apply(s, e).writers == map[];
      case Wait(_) =>
    }
  }

  /** One after the other, as user transactions elsewhere in this project are, they never get
      there: the log tells the row at every moment. */
  lemma {:induction false} SerialLogTellsTheRow(s: State, steps: seq<Step>)
    requires Alone(s) && Runs(s, steps) && Serial(s, steps)
    ensures Replayed(Outcome(s, steps).log) == Outcome(s, steps).present
    decreases |steps|
  {
    if steps != [] {
      AloneStep(s, steps[0]);
      SerialLogTellsTheRow(Apply(s, steps[0]), steps[1..]);
    }
  }

  /** Two overlapping requests: a save, and a removal whose statement runs before the save
      commits and whose event is numbered after it. The row stays, the log says it is gone. */
  const RACE: seq<Step> := [Write(0, true), Write(1, false), Append(0), Append(1), Commit(0), Commit(1)]

  lemma RaceLeavesARow()
    ensures Runs(INITIAL, RACE)
    ensures var s := Outcome(INITIAL, RACE); s.writers == map[] && s.present && !Replayed(s.log)
  {
    var (put, nothing) := (Writer(Saved, Some(0)), Writer(FoundNothing, Some(1)));
    var s1 := State(false, [], map[0 := Writer(Saved, None)], map[]);
    var s2 := s1.(writers := map[0 := Writer(Saved, None), 1 := Writer(FoundNothing, None)]);
    var s3 := State(false, [None], map[0 := put, 1 := Writer(FoundNothing, None)], map[]);
    var s4 := State(false, [None, None], map[0 := put, 1 := nothing], map[]);
    OneStep(INITIAL, Write(0, true), s1, RACE[1..]);
    OneStep(s1, Write(1, false), s2, RACE[2..]);
    OneStep(s2, Append(0), s3, RACE[3..]);
    OneStep(s3, Append(1), s4, RACE[4..]);
    RaceCommits(s4);
    hide Runs, Outcome, Apply, Enabled, Replayed;
    assert RACE == [Write(0, true)] + RACE[1..] && RACE[1..] == [Write(1, false)] + RACE[2..];
    assert RACE[2..] == [Append(0)] + RACE[3..] && RACE[3..] == [Append(1)] + RACE[4..];
    assert RACE[4..] == [Commit(0), Commit(1)];
  }

  lemma RaceCommits(s: State)
    requires s.log == [None, None] && s.waiting == map[] && !s.present
    requires s.writers == map[0 := Writer(Saved, Some(0)), 1 := Writer(FoundNothing, Some(1))]
    ensures Runs(s, [Commit(0), Commit(1)])
    ensures var s' := Outcome(s, [Commit(0), Commit(1)]); s'.writers == map[] && s'.present && !Replayed(s'.log)
  {
    var s1 := State(true, [Some(Saved), None], map[1 := Writer(FoundNothing, Some(1))], map[]);
    var s2 := State(true, [Some(Saved), Some(FoundNothing)], map[], map[]);
    OneStep(s, Commit(0), s1, [Commit(1)]);
    OneStep(s1, Commit(1), s2, []);
    assert [Commit(0), Commit(1)] == [Commit(0)] + [Commit(1)] && [Commit(1)] == [Commit(1)] + [];
  }

  lemma OneStep(s: State, e: Step, s': State, rest: seq<Step>)
    requires Enabled(s, e) && Apply(s, e) == s'
    ensures Runs(s', rest) ==> Runs(s, [e] + rest)
    ensures Outcome(s, [e] + rest) == Outcome(s', rest)
  {
    assert ([e] + rest)[1..] == rest;
  }
}
