/** The rows a transaction locks one after the other and holds to its end: a publication its
    key, source and content, then the categories, series, dictionary entries and audio of
    its document, in document order; an ingest its content, its series and the assets of its
    page. Taking a row another transaction holds means waiting for it. */
module RowLocks {
  import opened Common
  import opened Order

  datatype Row =
    | KeyRow(key: string)
    | SourceRow(url: string)
    | ContentRow(source: string)
    | CategoryRow(slug: string)
    | SeriesRow(slug: string)
    | EntryRow(entry: string) // word, part of speech, definition and source as one text
    | AssetRow(url: string)

  /** What a transaction is about, in the order its statements come. `categories` are the
      slugs of level and topics, empty ones dropped. */
  datatype Transaction =
    | Publication(key: string, url: string, categories: seq<string>, series: Option<string>, entries: seq<string>,
        audio: string)
    | Ingest(source: string, series: Option<string>, assets: seq<string>)

  type Plan = seq<Row>

  function SeriesRows(series: Option<string>): Plan { if series.Some? then [SeriesRow(series.value)] else [] }

  function CategoryRows(slugs: seq<string>): Plan { seq(|slugs|, i requires 0 <= i < |slugs| => CategoryRow(slugs[i])) }

  function EntryRows(entries: seq<string>): Plan {
    seq(|entries|, i requires 0 <= i < |entries| => EntryRow(entries[i]))
  }

  function AssetRows(urls: seq<string>): Plan { seq(|urls|, i requires 0 <= i < |urls| => AssetRow(urls[i])) }

  function PlanOf(t: Transaction): Plan {
    match t
    case Publication(key, url, categories, series, entries, audio) =>
      [KeyRow(key), SourceRow(url), ContentRow(url)] + CategoryRows(categories) + SeriesRows(series)
      + EntryRows(entries) + [AssetRow(audio)]
    case Ingest(source, series, assets) => [ContentRow(source)] + SeriesRows(series) + AssetRows(assets)
  }

  type WriterId = nat

  /** A transaction that has taken the first `taken` rows of its plan. */
  datatype Writer = Writer(plan: Plan, taken: nat)

  type State = map<WriterId, Writer>

  function Held(w: Writer): set<Row> { set i | 0 <= i < w.taken && i < |w.plan| :: w.plan[i] }

  /** The next row is held by somebody else. */
  ghost predicate Blocked(s: State, w: WriterId, v: WriterId) {
    && w in s && v in s && w != v && s[w].taken < |s[w].plan|
    && s[w].plan[s[w].taken] in Held(s[v])
  }

  datatype Step =
    | Begin(writer: WriterId, plan: Plan)
    | Take(writer: WriterId)
    | End(writer: WriterId)

  /** A transaction commits when it has all its rows, and may abort before. */
  ghost predicate Enabled(s: State, e: Step) {
    match e
    case Begin(w, _) => w !in s
    case Take(w) => w in s && s[w].taken < |s[w].plan| && forall v :: v in s ==> !Blocked(s, w, v)
    case End(w) => w in s
  }

  function Apply(s: State, e: Step): State {
    match e
    case Begin(w, plan) => s[w := Writer(plan, 0)]
    case Take(w) => if w in s then s[w := s[w].(taken := s[w].taken + 1)] else s
    case End(w) => s - {w}
  }

  ghost predicate Runs(s: State, steps: seq<Step>)
    decreases |steps|
  {
    steps == [] || (Enabled(s, steps[0]) && Runs(Apply(s, steps[0]), steps[1..]))
  }

  function Outcome(s: State, steps: seq<Step>): State
    decreases |steps|
  {
    if steps == [] then s else Outcome(Apply(s, steps[0]), steps[1..])
  }

  /** Reached by transactions whose plans are all among `plans`. */
  ghost predicate Reachable(s: State, plans: set<Plan>) {
    exists steps :: Runs(map[], steps) && UsesOnly(steps, plans) && Outcome(map[], steps) == s
  }

  ghost predicate UsesOnly(steps: seq<Step>, plans: set<Plan>) {
    forall e :: e in steps && e.Begin? ==> e.plan in plans
  }

  /** Each of a set of transactions waits for another of the set: only an abort helps. */
  ghost predicate Deadlocked(s: State, d: set<WriterId>) {
    d != {} && forall w :: w in d ==> BlockedWithin(s, w, d)
  }

  ghost predicate BlockedWithin(s: State, w: WriterId, d: set<WriterId>) { exists v :: v in d && Blocked(s, w, v) }

  // ---------- what every run keeps ----------

  ghost predicate Inv(s: State, plans: set<Plan>) {
    && (forall w :: w in s ==> s[w].plan in plans && s[w].taken <= |s[w].plan|)
    && (forall v, w :: v in s && w in s && v != w ==> Held(s[v]) !! Held(s[w]))
  }

  lemma StepKeepsInv(s: State, e: Step, plans: set<Plan>)
    requires Inv(s, plans) && Enabled(s, e) && (e.Begin? ==> e.plan in plans)
    ensures Inv(Apply(s, e), plans)
  {
    if e.Take? {
      var (w, s') := (e.writer, Apply(s, e));
      var row := s[w].plan[s[w].taken];
      assert Held(s'[w]) == Held(s[w]) + {row};
      forall v | v in s && v != w ensures row !in Held(s[v]) { assert !Blocked(s, w, v); }
    }
  }

  lemma {:induction false} RunKeepsInv(s: State, steps: seq<Step>, plans: set<Plan>)
    requires Inv(s, plans) && Runs(s, steps) && UsesOnly(steps, plans)
    ensures Inv(Outcome(s, steps), plans)
    decreases |steps|
  {
    if steps != [] {
      assert steps[0] in steps;
      StepKeepsInv(s, steps[0], plans);
      RunKeepsInv(Apply(s, steps[0]), steps[1..], plans);
    }
  }

  lemma ReachableIsInv(s: State, plans: set<Plan>)
    requires Reachable(s, plans)
    ensures Inv(s, plans)
  {
    var steps :| Runs(map[], steps) && UsesOnly(steps, plans) && Outcome(map[], steps) == s;
    RunKeepsInv(map[], steps, plans);
  }

  lemma {:induction false} RunExtends(s: State, steps: seq<Step>, e: Step)
    requires Runs(s, steps) && Enabled(Outcome(s, steps), e)
    ensures Runs(s, steps + [e]) && Outcome(s, steps + [e]) == Apply(Outcome(s, steps), e)
    decreases |steps|
  {
    if steps == [] {
      assert steps + [e] == [e] && [e][1..] == [];
    } else {
      assert (steps + [e])[1..] == steps[1..] + [e];
      RunExtends(Apply(s, steps[0]), steps[1..], e);
    }
  }

  lemma Reaches(s: State, e: Step, plans: set<Plan>)
    requires Reachable(s, plans) && Enabled(s, e) && (e.Begin? ==> e.plan in plans)
    ensures Reachable(Apply(s, e), plans)
  {
    var steps :| Runs(map[], steps) && UsesOnly(steps, plans) && Outcome(map[], steps) == s;
    RunExtends(map[], steps, e);
    assert UsesOnly(steps + [e], plans);
  }

  // ---------- a common order ----------

  ghost predicate StrictOrder(above: (Row, Row) -> bool) {
    (forall x :: !above(x, x)) && forall x, y, z :: above(x, y) && above(y, z) ==> above(x, z)
  }

  /** Every row that is new to the plan comes above the rows taken before it. */
  ghost predicate Ordered(plan: Plan, above: (Row, Row) -> bool) {
    forall i, j :: 0 <= i < j < |plan| && plan[j] !in plan[..j] ==> above(plan[i], plan[j])
  }

  ghost function Next(s: State, w: WriterId): Row
    requires w in s && s[w].taken < |s[w].plan|
  {
    s[w].plan[s[w].taken]
  }

  lemma {:induction false} HighestWaiter(s: State, above: (Row, Row) -> bool, d: set<WriterId>) returns (w: WriterId)
    requires StrictOrder(above) && d != {} && forall v :: v in d ==> v in s && s[v].taken < |s[v].plan|
    ensures w in d && forall v :: v in d ==> !above(Next(s, w), Next(s, v))
    decreases |d|
  {
    w :| w in d;
    if d != {w} {
      var v := HighestWaiter(s, above, d - {w});
      if !above(Next(s, v), Next(s, w)) { w := v; }
    }
  }

  /** Who blocks a transaction waits for a row above the one it blocks. */
  lemma BlockerWaitsHigher(s: State, plans: set<Plan>, above: (Row, Row) -> bool, w: WriterId, v: WriterId, u: WriterId)
    requires Inv(s, plans) && (forall p :: p in plans ==> Ordered(p, above))
    requires Blocked(s, w, v) && Blocked(s, v, u)
    ensures above(Next(s, w), Next(s, v))
  {
    var (plan, n, row) := (s[v].plan, s[v].taken, s[w].plan[s[w].taken]);
    assert Ordered(plan, above);
    var i :| 0 <= i < n && plan[i] == row;
    assert plan[n] !in plan[..n] by {
      assert forall k :: 0 <= k < n ==> plan[k] in Held(s[v]);
      assert Held(s[v]) !! Held(s[u]);
    }
  }

  /** Transactions that take common rows in one order never deadlock, however many they are. */
  lemma CommonOrderPreventsDeadlock(s: State, plans: set<Plan>, above: (Row, Row) -> bool, d: set<WriterId>)
    requires StrictOrder(above) && Reachable(s, plans) && forall p :: p in plans ==> Ordered(p, above)
    ensures !Deadlocked(s, d)
  {
    ReachableIsInv(s, plans);
    if Deadlocked(s, d) {
      forall w | w in d ensures w in s && s[w].taken < |s[w].plan| {
        var v := Blocker(s, w, d);
      }
      hide BlockedWithin, Reachable, Inv, Ordered;
      var w := HighestWaiter(s, above, d);
      var v := Blocker(s, w, d);
      var u := Blocker(s, v, d);
      BlockerWaitsHigher(s, plans, above, w, v, u);
      assert false;
    }
  }

  lemma Blocker(s: State, w: WriterId, d: set<WriterId>) returns (v: WriterId)
    requires BlockedWithin(s, w, d)
    ensures v in d && Blocked(s, w, v)
  {
    v :| v in d && Blocked(s, w, v);
  }

  /** The order the statements come in, alphabetical within a table. */
  function Table(row: Row): nat {
    match row
    case KeyRow(_) => 0 case SourceRow(_) => 1 case ContentRow(_) => 2 case CategoryRow(_) => 3
    case SeriesRow(_) => 4 case EntryRow(_) => 5 case AssetRow(_) => 6
  }

  function Text(row: Row): string {
    match row
    case KeyRow(t) => t case SourceRow(t) => t case ContentRow(t) => t case CategoryRow(t) => t
    case SeriesRow(t) => t case EntryRow(t) => t case AssetRow(t) => t
  }

  predicate Above(x: Row, y: Row) { Table(x) < Table(y) || (Table(x) == Table(y) && Less(Text(x), Text(y))) }

  lemma AboveIsStrict()
    ensures StrictOrder(Above)
  {
    forall x ensures !Above(x, x) { LessIsTotal(Text(x), Text(x)); }
    forall x, y, z | Above(x, y) && Above(y, z) ensures Above(x, z) {
      if Table(x) == Table(y) == Table(z) { LessIsTransitive(Text(x), Text(y), Text(z)); }
    }
  }

  /** No row comes above a later one. */
  ghost predicate Ascending(plan: Plan) { forall i, j :: 0 <= i < j < |plan| ==> !Above(plan[j], plan[i]) }

  lemma AscendingIsOrdered(plan: Plan)
    requires Ascending(plan)
    ensures Ordered(plan, Above)
  {
    forall i, j | 0 <= i < j < |plan| && plan[j] !in plan[..j] ensures Above(plan[i], plan[j]) {
      assert plan[i] == plan[..j][i];
      LessIsTotal(Text(plan[i]), Text(plan[j]));
    }
  }

  lemma AscendingAppends(a: Plan, b: Plan, table: nat)
    requires Ascending(a) && Ascending(b)
    requires (forall i :: 0 <= i < |a| ==> Table(a[i]) < table) && forall j :: 0 <= j < |b| ==> Table(b[j]) >= table
    ensures Ascending(a + b)
  {
  }

  ghost predicate Alphabetical(texts: seq<string>) { forall i, j :: 0 <= i < j < |texts| ==> !Less(texts[j], texts[i]) }

  /** Categories, dictionary entries and assets come in alphabetical order. */
  ghost predicate Sorted(t: Transaction) {
    match t
    case Publication(_, _, categories, _, entries, _) => Alphabetical(categories) && Alphabetical(entries)
    case Ingest(_, _, assets) => Alphabetical(assets)
  }

  lemma SortedPlanAscends(t: Transaction)
    requires Sorted(t)
    ensures Ascending(PlanOf(t))
  {
    match t
    case Publication(key, url, categories, series, entries, audio) =>
      var head := [KeyRow(key), SourceRow(url), ContentRow(url)];
      AscendingAppends(head, CategoryRows(categories), 3);
      AscendingAppends(head + CategoryRows(categories), SeriesRows(series), 4);
      AscendingAppends(head + CategoryRows(categories) + SeriesRows(series), EntryRows(entries), 5);
      AscendingAppends(head + CategoryRows(categories) + SeriesRows(series) + EntryRows(entries), [AssetRow(audio)], 6);
    case Ingest(source, series, assets) =>
      AscendingAppends([ContentRow(source)], SeriesRows(series), 4);
      AscendingAppends([ContentRow(source)] + SeriesRows(series), AssetRows(assets), 6);
  }

  function PlansOf(ts: set<Transaction>): set<Plan> { set t | t in ts :: PlanOf(t) }

  /** So publications and ingests whose documents and pages list these in alphabetical order
      never deadlock, in any number. */
  lemma SortedTransactionsNeverDeadlock(s: State, ts: set<Transaction>, d: set<WriterId>)
    requires Reachable(s, PlansOf(ts)) && forall t :: t in ts ==> Sorted(t)
    ensures !Deadlocked(s, d)
  {
    AboveIsStrict();
    forall p | p in PlansOf(ts) ensures Ordered(p, Above) {
      var t :| t in ts && p == PlanOf(t);
      SortedPlanAscends(t);
      AscendingIsOrdered(p);
    }
    CommonOrderPreventsDeadlock(s, PlansOf(ts), Above, d);
  }

  // ---------- two transactions ----------

  function Rows(plan: Plan): set<Row> { set i | 0 <= i < |plan| :: plan[i] }

  /** The first index from `i` on whose row is in `rows`. */
  function Until(plan: Plan, i: nat, rows: set<Row>): (n: nat)
    requires i <= |plan|
    ensures i <= n <= |plan| && (n < |plan| ==> plan[n] in rows) && forall k :: i <= k < n ==> plan[k] !in rows
    decreases |plan| - i
  {
    if i == |plan| || plan[i] in rows then i else Until(plan, i + 1, rows)
  }

  /** The first row of `p` that `q` takes too. */
  function FirstShared(p: Plan, q: Plan): Option<Row> {
    var n := Until(p, 0, Rows(q));
    if n < |p| then Some(p[n]) else None
  }

  /** Two transactions that wait for each other. */
  ghost predicate WaitForEachOther(s: State, v: WriterId, w: WriterId) { Blocked(s, v, w) && Blocked(s, w, v) }

  /** A waiting transaction whose first shared row is the other's too has not taken it, or
      holds it. */
  lemma WaiterHoldsFirstShared(s: State, v: WriterId, w: WriterId)
    requires Blocked(s, v, w) && Blocked(s, w, v) && Held(s[v]) !! Held(s[w])
    ensures FirstShared(s[v].plan, s[w].plan).Some?
    ensures FirstShared(s[v].plan, s[w].plan).value in Held(s[v])
  {
    var (p, q) := (s[v].plan, s[w].plan);
    var n := Until(p, 0, Rows(q));
    assert forall r :: r in Held(s[w]) ==> r in Rows(q);
    assert p[s[v].taken] in Rows(q);
    assert q[s[w].taken] in Held(s[v]) && q[s[w].taken] in Rows(q);
    var i :| 0 <= i < s[v].taken && p[i] == q[s[w].taken];
    assert n <= i;
  }

  /** Two transactions with a common first shared row never wait for each other: whoever gets
      it first has the other wait for it there. */
  lemma SameFirstSharedPreventsDeadlock(s: State, plans: set<Plan>, v: WriterId, w: WriterId)
    requires Reachable(s, plans) && v in s && w in s && v != w
    requires FirstShared(s[v].plan, s[w].plan) == FirstShared(s[w].plan, s[v].plan)
    ensures !WaitForEachOther(s, v, w)
  {
    ReachableIsInv(s, plans);
    if WaitForEachOther(s, v, w) {
      WaiterHoldsFirstShared(s, v, w);
      WaiterHoldsFirstShared(s, w, v);
      assert false;
    }
  }

  /** A transaction goes on taking rows nobody else holds. */
  lemma {:induction false} TakesUpTo(s: State, plans: set<Plan>, w: WriterId, n: nat)
    requires Reachable(s, plans) && w in s && s[w].taken <= n <= |s[w].plan|
    requires forall v, i :: v in s && v != w && s[w].taken <= i < n ==> s[w].plan[i] !in Held(s[v])
    ensures Reachable(s[w := s[w].(taken := n)], plans)
    decreases n - s[w].taken
  {
    hide Reachable;
    if s[w].taken == n {
      assert s[w := s[w].(taken := n)] == s;
    } else {
      var s' := Apply(s, Take(w));
      Reaches(s, Take(w), plans);
      TakesUpTo(s', plans, w, n);
      assert s'[w := s'[w].(taken := n)] == s[w := s[w].(taken := n)];
    }
  }

  function Two(p: Plan, i: nat, q: Plan, j: nat): State { map[0 := Writer(p, i), 1 := Writer(q, j)] }

  lemma HeldRows(plan: Plan, n: nat)
    requires n <= |plan|
    ensures Held(Writer(plan, n)) == Rows(plan[..n])
  {
  }

  lemma FirstTakes(p: Plan, i: nat, q: Plan, j: nat, n: nat)
    requires i <= n <= |p| && j <= |q| && Reachable(Two(p, i, q, j), {p, q})
    requires forall k :: i <= k < n ==> p[k] !in Rows(q[..j])
    ensures Reachable(Two(p, n, q, j), {p, q})
  {
    hide Reachable;
    HeldRows(q, j);
    TakesUpTo(Two(p, i, q, j), {p, q}, 0, n);
    assert Two(p, i, q, j)[0 := Writer(p, n)] == Two(p, n, q, j);
  }

  lemma SecondTakes(p: Plan, i: nat, q: Plan, j: nat, n: nat)
    requires j <= n <= |q| && i <= |p| && Reachable(Two(p, i, q, j), {p, q})
    requires forall k :: j <= k < n ==> q[k] !in Rows(p[..i])
    ensures Reachable(Two(p, i, q, n), {p, q})
  {
    hide Reachable;
    HeldRows(p, i);
    TakesUpTo(Two(p, i, q, j), {p, q}, 1, n);
    assert Two(p, i, q, j)[1 := Writer(q, n)] == Two(p, i, q, n);
  }

  /** Otherwise the wait can happen: each takes its own first shared row and runs on. */
  lemma DifferentFirstSharedDeadlocks(p: Plan, q: Plan) returns (s: State)
    requires FirstShared(p, q) != FirstShared(q, p)
    ensures Reachable(s, {p, q}) && s.Keys == {0, 1} && s[0].plan == p && s[1].plan == q && WaitForEachOther(s, 0, 1)
  {
    var (i, j) := (Until(p, 0, Rows(q)), Until(q, 0, Rows(p)));
    SharedBothWays(p, q);
    NotYetTaken(p, i, q, j);
    NotYetTaken(q, j, p, i);
    BothStarted(p, q);
    assert q[..j + 1][j] == q[j] && p[..i + 1][i] == p[i];
    var m := RunsInto(p, i, Rows(q[..j + 1]), q[j]);
    assert p[..m][i] == p[i];
    var n := RunsInto(q, j, Rows(p[..m]), p[i]);
    hide Reachable, Rows, Until, FirstShared;
    FirstTakes(p, 0, q, 0, i + 1);
    SecondTakes(p, i + 1, q, 0, j + 1);
    FirstTakes(p, i + 1, q, j + 1, m);
    SecondTakes(p, m, q, j + 1, n);
    s := Two(p, m, q, n);
    HeldRows(p, m);
    HeldRows(q, n);
  }

  lemma BothStarted(p: Plan, q: Plan)
    ensures Reachable(Two(p, 0, q, 0), {p, q})
  {
    assert Runs(map[], []) && UsesOnly([], {p, q}) && Outcome(map[], []) == map[];
    assert Reachable(map[], {p, q});
    Reaches(map[], Begin(0, p), {p, q});
    var s1: State := map[0 := Writer(p, 0)];
    Reaches(s1, Begin(1, q), {p, q});
    assert Apply(s1, Begin(1, q)) == Two(p, 0, q, 0);
  }

  lemma SharedBothWays(p: Plan, q: Plan)
    ensures FirstShared(p, q).Some? <==> FirstShared(q, p).Some?
    ensures FirstShared(p, q).Some? ==>
              FirstShared(p, q).value in Rows(q) && FirstShared(q, p).value in Rows(p)
  {
    var (i, j) := (Until(p, 0, Rows(q)), Until(q, 0, Rows(p)));
    if i < |p| { assert p[i] in Rows(p); }
    if j < |q| { assert q[j] in Rows(q); }
  }

  /** Up to its first shared row a plan meets nothing the other takes up to its own. */
  lemma NotYetTaken(p: Plan, i: nat, q: Plan, j: nat)
    requires i < |p| && j < |q| && p[i] != q[j]
    requires (forall k :: 0 <= k < i ==> p[k] !in Rows(q)) && forall k :: 0 <= k < j ==> q[k] !in Rows(p)
    ensures forall k :: 0 <= k <= i ==> p[k] !in Rows(q[..j + 1])
    ensures q[j] !in Rows(p[..i + 1])
  {
    forall k | 0 <= k <= i ensures p[k] !in Rows(q[..j + 1]) {
      assert p[k] in Rows(p);
      assert forall l :: 0 <= l <= j ==> q[l] in Rows(q);
    }
    assert q[j] in Rows(q);
  }

  /** A plan that still needs a row somebody holds runs into a row that one holds. */
  lemma RunsInto(p: Plan, i: nat, held: set<Row>, row: Row) returns (m: nat)
    requires i < |p| && row in held && row in Rows(p) && row !in Rows(p[..i + 1])
    ensures i < m < |p| && p[m] in held && forall k :: i < k < m ==> p[k] !in held
  {
    m := Until(p, i + 1, held);
    var k :| 0 <= k < |p| && p[k] == row;
    assert forall l :: 0 <= l <= i ==> p[..i + 1][l] == p[l] && p[l] in Rows(p[..i + 1]);
  }

  ghost predicate DeadlockAt(s: State, v: WriterId, w: WriterId, p: Plan, q: Plan) {
    Reachable(s, {p, q}) && WaitForEachOther(s, v, w) && s[v].plan == p && s[w].plan == q
  }

  /** Transactions with these two plans can come to wait for each other. */
  ghost predicate CanDeadlock(p: Plan, q: Plan) {
    exists s: State, v: WriterId, w: WriterId :: DeadlockAt(s, v, w, p, q)
  }

  /** They can if and only if the first row they share is not the same seen from both. */
  lemma DeadlockIff(p: Plan, q: Plan)
    ensures CanDeadlock(p, q) <==> FirstShared(p, q) != FirstShared(q, p)
  {
    if FirstShared(p, q) != FirstShared(q, p) {
      var s := DifferentFirstSharedDeadlocks(p, q);
      assert DeadlockAt(s, 0, 1, p, q);
    } else if CanDeadlock(p, q) {
      var s: State, v: WriterId, w: WriterId :| DeadlockAt(s, v, w, p, q);
      SameFirstSharedPreventsDeadlock(s, {p, q}, v, w);
      assert false;
    }
  }

  /** The code takes them in document order, and can deadlock: two publications of different
      contents under different keys whose topics come in opposite orders. */
  lemma OppositeTopicsDeadlock(d: Transaction, e: Transaction, a: string, b: string)
    requires d.Publication? && e.Publication? && d.key != e.key && d.url != e.url && a != b
    requires d.categories == [a, b] && e.categories == [b, a]
    ensures CanDeadlock(PlanOf(d), PlanOf(e))
  {
    TopicIsFirstShared(d, e, a);
    TopicIsFirstShared(e, d, b);
    DeadlockIff(PlanOf(d), PlanOf(e));
  }

  /** Before the categories come the publication's own three rows. */
  lemma StartOfPlan(t: Transaction)
    requires t.Publication?
    ensures var p := PlanOf(t);
      && |p| > 3 + |t.categories| && p[0] == KeyRow(t.key) && p[1] == SourceRow(t.url) && p[2] == ContentRow(t.url)
      && (forall i :: 0 <= i < |t.categories| ==> p[3 + i] == CategoryRow(t.categories[i]))
      && forall row :: row in Rows(p) && Table(row) < 3 ==> row in {p[0], p[1], p[2]}
  {
    var (head, categories) := ([KeyRow(t.key), SourceRow(t.url), ContentRow(t.url)], CategoryRows(t.categories));
    var rest := SeriesRows(t.series) + EntryRows(t.entries) + [AssetRow(t.audio)];
    assert PlanOf(t) == head + (categories + rest);
    assert forall k :: 0 <= k < |categories| ==> categories[k] == CategoryRow(t.categories[k]);
    assert forall k :: 0 <= k < |rest| ==> Table(rest[k]) >= 3;
    hide PlanOf, SeriesRows, EntryRows, CategoryRows;
    assert forall k :: 0 <= k < |categories + rest| ==> Table((categories + rest)[k]) >= 3;
  }

  lemma TopicIsFirstShared(d: Transaction, e: Transaction, a: string)
    requires d.Publication? && e.Publication? && d.key != e.key && d.url != e.url
    requires d.categories != [] && d.categories[0] == a && a in e.categories
    ensures FirstShared(PlanOf(d), PlanOf(e)) == Some(CategoryRow(a))
  {
    var (p, q) := (PlanOf(d), PlanOf(e));
    StartOfPlan(d);
    OwnRowsAreNotShared(d, e, 0);
    OwnRowsAreNotShared(d, e, 1);
    OwnRowsAreNotShared(d, e, 2);
    TopicIsTaken(e, a);
    hide PlanOf, Rows;
    FirstSharedAt(p, q, 3);
  }

  lemma FirstSharedAt(p: Plan, q: Plan, n: nat)
    requires n < |p| && p[n] in Rows(q) && forall k :: 0 <= k < n ==> p[k] !in Rows(q)
    ensures FirstShared(p, q) == Some(p[n])
  {
  }

  lemma OwnRowsAreNotShared(d: Transaction, e: Transaction, i: nat)
    requires d.Publication? && e.Publication? && d.key != e.key && d.url != e.url && i < 3
    ensures |PlanOf(d)| > 3 && PlanOf(d)[i] !in Rows(PlanOf(e))
  {
    StartOfPlan(d);
    StartOfPlan(e);
    hide PlanOf, Rows;
  }

  lemma TopicIsTaken(t: Transaction, slug: string)
    requires t.Publication? && slug in t.categories
    ensures CategoryRow(slug) in Rows(PlanOf(t))
  {
    StartOfPlan(t);
    hide PlanOf;
    var i :| 0 <= i < |t.categories| && t.categories[i] == slug;
    assert PlanOf(t)[3 + i] == CategoryRow(slug);
  }

  // ---------- any number of transactions ----------

  /** Transactions with these plans, in any number, can come to a deadlock. */
  ghost predicate AnyDeadlock(plans: set<Plan>) {
    exists s: State, d: set<WriterId> :: Reachable(s, plans) && Deadlocked(s, d)
  }

  /** Some of the plans have disjoint beginnings whose next rows each lie in another of the
      beginnings. No schedule is part of this. */
  ghost predicate BeginningsInterlock(plans: set<Plan>) {
    exists c: State :: Inv(c, plans) && Deadlocked(c, c.Keys)
  }

  /** Whoever holds disjoint beginnings of plans may have got there. */
  lemma {:induction false} BeginningsAreReachable(c: State, plans: set<Plan>)
    requires Inv(c, plans)
    ensures Reachable(c, plans)
    decreases |c|
  {
    if c == map[] {
      assert Runs(map[], []) && UsesOnly([], plans) && Outcome(map[], []) == map[];
    } else {
      var w :| w in c;
      var Writer(plan, taken) := c[w];
      var rest := c - {w};
      var begun := rest[w := Writer(plan, 0)];
      BeginningsAreReachable(rest, plans);
      hide Reachable;
      Reaches(rest, Begin(w, plan), plans);
      forall v, i | v in begun && v != w && 0 <= i < taken ensures plan[i] !in Held(begun[v]) {
        assert begun[v] == c[v] && plan[i] in Held(c[w]);
      }
      TakesUpTo(begun, plans, w, taken);
      assert begun[w := Writer(plan, taken)] == c;
    }
  }

  /** Of a deadlock only those in it matter. */
  lemma DeadlockAlone(s: State, plans: set<Plan>, d: set<WriterId>)
    requires Inv(s, plans) && Deadlocked(s, d)
    ensures BeginningsInterlock(plans)
  {
    hide Inv, BlockedWithin;
    forall w | w in d ensures w in s {
      var v := Blocker(s, w, d);
    }
    var c: State := map w | w in s && w in d :: s[w];
    hide Blocked;
    forall w | w in d ensures BlockedWithin(c, w, d) {
      var v := Blocker(s, w, d);
      StaysBlocked(s, c, w, v, d);
    }
    InvOfSome(s, c, plans);
    assert c.Keys == d;
    assert Inv(c, plans) && Deadlocked(c, c.Keys);
  }

  lemma StaysBlocked(s: State, c: State, w: WriterId, v: WriterId, d: set<WriterId>)
    requires Blocked(s, w, v) && v in d && w in c && v in c && c[w] == s[w] && c[v] == s[v]
    ensures BlockedWithin(c, w, d)
  {
    assert Blocked(c, w, v);
  }

  lemma InvOfSome(s: State, c: State, plans: set<Plan>)
    requires Inv(s, plans) && forall w :: w in c ==> w in s && c[w] == s[w]
    ensures Inv(c, plans)
  {
    hide Held;
  }

  /** Transactions with these plans can deadlock, in any number, if and only if some of the
      plans have interlocking beginnings. */
  lemma AnyDeadlockIff(plans: set<Plan>)
    ensures AnyDeadlock(plans) <==> BeginningsInterlock(plans)
  {
    hide Reachable, Inv, Deadlocked;
    if AnyDeadlock(plans) {
      var s: State, d: set<WriterId> :| Reachable(s, plans) && Deadlocked(s, d);
      ReachableIsInv(s, plans);
      DeadlockAlone(s, plans, d);
    }
    if BeginningsInterlock(plans) {
      var c: State :| Inv(c, plans) && Deadlocked(c, c.Keys);
      BeginningsAreReachable(c, plans);
    }
  }

  // ---------- three transactions ----------

  const PAGE_AB := Ingest("1", None, ["a", "b"])
  const PAGE_BC := Ingest("2", None, ["b", "c"])
  const PAGE_CA := Ingest("3", None, ["c", "a"])

  /** Pairs do not tell the whole story: three ingests of which no two can deadlock, and which
      together do. */
  lemma ThreeInACircle() returns (s: State)
    ensures !CanDeadlock(PlanOf(PAGE_AB), PlanOf(PAGE_BC)) && !CanDeadlock(PlanOf(PAGE_BC), PlanOf(PAGE_CA))
    ensures !CanDeadlock(PlanOf(PAGE_CA), PlanOf(PAGE_AB))
    ensures Reachable(s, PlansOf({PAGE_AB, PAGE_BC, PAGE_CA})) && Deadlocked(s, {0, 1, 2})
  {
    PageRows();
    PairsShareOneAsset("1", "a", "b", "2", "c");
    PairsShareOneAsset("2", "b", "c", "3", "a");
    PairsShareOneAsset("3", "c", "a", "1", "b");
    var plans := PlansOf({PAGE_AB, PAGE_BC, PAGE_CA});
    assert PlanOf(PAGE_AB) in plans && PlanOf(PAGE_BC) in plans && PlanOf(PAGE_CA) in plans;
    s := AllThreeWait(plans, "1", "2", "3", "a", "b", "c");
  }

  function Page(source: string, x: string, y: string): Plan { [ContentRow(source), AssetRow(x), AssetRow(y)] }

  lemma PageRows()
    ensures PlanOf(PAGE_AB) == Page("1", "a", "b") && PlanOf(PAGE_BC) == Page("2", "b", "c")
        && PlanOf(PAGE_CA) == Page("3", "c", "a")
  {
  }

  lemma PairsShareOneAsset(s: string, x: string, y: string, t: string, z: string)
    requires s != t && x != y && y != z && x != z
    ensures !CanDeadlock(Page(s, x, y), Page(t, y, z))
  {
    var (p, q) := (Page(s, x, y), Page(t, y, z));
    assert Rows(p) == {p[0], p[1], p[2]} && Rows(q) == {q[0], q[1], q[2]};
    assert p[0] !in Rows(q) && p[1] !in Rows(q) && p[2] in Rows(q) && q[0] !in Rows(p) && q[1] in Rows(p);
    hide Rows;
    DeadlockIff(p, q);
  }

  lemma StartsWithTwo(s: State, plans: set<Plan>, w: WriterId, source: string, x: string, y: string)
    requires Reachable(s, plans) && Page(source, x, y) in plans && w !in s
    requires forall v :: v in s ==> ContentRow(source) !in Held(s[v]) && AssetRow(x) !in Held(s[v])
    ensures Reachable(s[w := Writer(Page(source, x, y), 2)], plans)
    ensures Held(Writer(Page(source, x, y), 2)) == {ContentRow(source), AssetRow(x)}
  {
    hide Reachable;
    HeldRows(Page(source, x, y), 2);
    var first := Page(source, x, y)[..2];
    assert first[0] == ContentRow(source) && first[1] == AssetRow(x);
    assert Rows(first) == {first[0], first[1]};
    var s' := s[w := Writer(Page(source, x, y), 0)];
    Reaches(s, Begin(w, Page(source, x, y)), plans);
    TakesUpTo(s', plans, w, 2);
    assert s'[w := Writer(Page(source, x, y), 2)] == s[w := Writer(Page(source, x, y), 2)];
  }

  lemma AllThreeWait(plans: set<Plan>, one: string, two: string, three: string, x: string, y: string, z: string)
    returns (s: State)
    requires one != two && two != three && one != three && x != y && y != z && x != z
    requires Page(one, x, y) in plans && Page(two, y, z) in plans && Page(three, z, x) in plans
    ensures Reachable(s, plans) && Deadlocked(s, {0, 1, 2})
  {
    assert Runs(map[], []) && UsesOnly([], plans) && Outcome(map[], []) == map[];
    assert Reachable(map[], plans);
    hide Reachable;
    StartsWithTwo(map[], plans, 0, one, x, y);
    hide Held;
    var s1: State := map[0 := Writer(Page(one, x, y), 2)];
    StartsWithTwo(s1, plans, 1, two, y, z);
    var s2 := s1[1 := Writer(Page(two, y, z), 2)];
    StartsWithTwo(s2, plans, 2, three, z, x);
    s := s2[2 := Writer(Page(three, z, x), 2)];
    assert Blocked(s, 0, 1) && Blocked(s, 1, 2) && Blocked(s, 2, 0);
  }
}
