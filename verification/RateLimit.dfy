/** The per-IP limiter: a map of token buckets from which visitors idle for ten minutes
    are deleted once it holds more than 10000.

    Time is in seconds and arithmetic exact. A request reads the clock three times inside
    the mutex: for `lastSeen`, in the bucket's own Allow, and for the eviction cutoff. */
module RateLimit {
  type Host = nat

  const CAPACITY: nat := 10000
  const IDLE: real := 600.0

  /** rate.Limiter: tokens at the time `last`; a refusal leaves it as it was. */
  datatype Bucket = Bucket(tokens: real, last: real)

  datatype Visitor = Visitor(limiter: Bucket, lastSeen: real)

  type Visitors = map<Host, Visitor>

  /** Tokens per second. */
  type Limit = r: real | 0.0 <= r

  datatype Config = Config(rate: Limit, burst: nat) {
    function Full(): real { burst as real }
  }

  /** newIPRateLimiter(requestsPerMinute, burst). */
  function PerMinute(requestsPerMinute: nat, burst: nat): Config {
    Config(requestsPerMinute as real / 60.0, burst)
  }

  datatype Request = Request(host: Host, seen: real, taken: real, swept: real)

  function MinReal(a: real, b: real): real { if a <= b then a else b }

  // ---------- the limiter as functions ----------

  /** What a bucket earns between two times; nothing when the clock has not moved on. */
  function Gain(g: Config, from: real, to: real): real {
    if to <= from then 0.0 else (to - from) * g.rate
  }

  function Tokens(g: Config, b: Bucket, t: real): real {
    MinReal(g.Full(), b.tokens + Gain(g, b.last, t))
  }

  function Take(g: Config, b: Bucket, t: real): (Bucket, bool) {
    if Tokens(g, b, t) >= 1.0 then (Bucket(Tokens(g, b, t) - 1.0, t), true) else (b, false)
  }

  /** The visitor's entry, made on demand with a full bucket; then Allow. */
  function Admit(g: Config, vs: Visitors, r: Request): (Visitors, bool) {
    var limiter := if r.host in vs then vs[r.host].limiter else Bucket(g.Full(), r.seen);
    var (after, allowed) := Take(g, limiter, r.taken);
    (vs[r.host := Visitor(after, r.seen)], allowed)
  }

  function Evict(vs: Visitors, cutoff: real): Visitors {
    map h | h in vs && !(vs[h].lastSeen < cutoff) :: vs[h]
  }

  function Sweep(vs: Visitors, now: real): Visitors {
    if |vs| > CAPACITY then Evict(vs, now - IDLE) else vs
  }

  /** One request through the limiter as written. */
  function Serve(g: Config, vs: Visitors, r: Request): (Visitors, bool) {
    var (admitted, allowed) := Admit(g, vs, r);
    (Sweep(admitted, r.swept), allowed)
  }

  /** The decisions of the limiter as written. */
  function Decisions(g: Config, vs: Visitors, rs: seq<Request>): seq<bool>
    decreases |rs|
  {
    if rs == [] then [] else [Serve(g, vs, rs[0]).1] + Decisions(g, Serve(g, vs, rs[0]).0, rs[1..])
  }

  /** The decisions of a limiter that never deletes anyone. */
  function UnboundedDecisions(g: Config, vs: Visitors, rs: seq<Request>): seq<bool>
    decreases |rs|
  {
    if rs == [] then [] else [Admit(g, vs, rs[0]).1] + UnboundedDecisions(g, Admit(g, vs, rs[0]).0, rs[1..])
  }

  // ---------- the limiter as written ----------

  class IpRateLimiter {
    var visitors: Visitors
    const config: Config

    constructor (requestsPerMinute: nat, burst: nat)
      ensures visitors == map[] && config == PerMinute(requestsPerMinute, burst)
    {
      visitors := map[];
      config := PerMinute(requestsPerMinute, burst);
    }

    /** The critical section of the middleware. */
    method Handle(r: Request) returns (allowed: bool)
      modifies this
      ensures (visitors, allowed) == Serve(config, old(visitors), r)
    {
      var limiter := if r.host in visitors then visitors[r.host].limiter else Bucket(config.Full(), r.seen);
      var taken := Take(config, limiter, r.taken);
      visitors := visitors[r.host := Visitor(taken.0, r.seen)];
      allowed := taken.1;
      ghost var admitted := visitors;
      if |visitors| > CAPACITY {
        var cutoff := r.swept - IDLE;
        var keys := visitors.Keys;
        while keys != {}
          invariant keys <= visitors.Keys <= admitted.Keys
          invariant forall h :: h in visitors ==> visitors[h] == admitted[h]
          invariant forall h :: h in admitted && h !in keys ==> (h in visitors <==> !(admitted[h].lastSeen < cutoff))
          decreases keys
        {
          var key :| key in keys;
          if visitors[key].lastSeen < cutoff {
            visitors := visitors - {key};
          }
          keys := keys - {key};
        }
        assert visitors == Evict(admitted, cutoff);
      }
    }
  }

  /** After each request the map is within capacity, or holds recent visitors only. */
  lemma MapStaysBounded(g: Config, vs: Visitors, r: Request)
    ensures var after := Serve(g, vs, r).0;
      |after| <= CAPACITY || forall h :: h in after ==> after[h].lastSeen >= r.swept - IDLE
  {
  }

  // ---------- levels: what a bucket map means ----------

  /** The tokens a host can draw on at time t. An absent host has a full bucket. */
  function Level(g: Config, vs: Visitors, h: Host, t: real): real {
    if h in vs then Tokens(g, vs[h].limiter, t) else g.Full()
  }

  lemma NonNegative(x: real, y: real)
    requires 0.0 <= x && 0.0 <= y
    ensures 0.0 <= x * y
  {
  }

  lemma GainAdds(g: Config, a: real, b: real, c: real)
    requires a <= b <= c
    ensures 0.0 <= Gain(g, a, b) <= Gain(g, a, c)
    ensures Gain(g, a, c) == Gain(g, a, b) + Gain(g, b, c)
  {
    NonNegative(b - a, g.rate);
    NonNegative(c - b, g.rate);
    assert (c - a) * g.rate == (b - a) * g.rate + (c - b) * g.rate;
  }

  lemma GainShifts(g: Config, a: real, b: real, x: real)
    ensures Gain(g, a + x, b + x) == Gain(g, a, b)
  {
    assert (b + x) - (a + x) == b - a;
  }

  /** Refilling up to `t`, then up to `u`, is refilling up to `u`. */
  lemma TokensAdvance(g: Config, b: Bucket, t: real, u: real)
    requires b.last <= t <= u
    ensures Tokens(g, b, u) == MinReal(g.Full(), Tokens(g, b, t) + Gain(g, t, u))
  {
    hide Gain;
    GainAdds(g, b.last, t, u);
    GainAdds(g, t, u, u);
  }

  /** Bucket times and token counts a run of the limiter keeps. */
  ghost predicate VisitorsOk(g: Config, vs: Visitors, now: real) {
    forall h :: h in vs ==>
      0.0 <= vs[h].limiter.tokens <= g.Full() && vs[h].limiter.last <= now && vs[h].lastSeen <= now
  }

  /** Requests in mutex order: the clock never runs backwards, and a request spends at most
      `delay` between its first read and its bucket's. */
  ghost predicate Clocked(rs: seq<Request>, now: real, delay: real)
    decreases |rs|
  {
    rs == [] ||
    (now <= rs[0].seen <= rs[0].taken <= rs[0].swept && rs[0].taken - rs[0].seen <= delay
        && Clocked(rs[1..], rs[0].swept, delay))
  }

  lemma NewBucketIsFull(g: Config, made: real, t: real)
    ensures Tokens(g, Bucket(g.Full(), made), t) == g.Full()
  {
    if made < t { NonNegative(t - made, g.rate); }
  }

  lemma TakeDrawsOneToken(g: Config, b: Bucket, t: real, u: real)
    requires 0.0 <= b.tokens <= g.Full() && b.last <= t <= u
    ensures 0.0 <= Tokens(g, b, t) <= g.Full()
    ensures var (after, allowed) := Take(g, b, t);
      && 0.0 <= after.tokens <= g.Full() && after.last <= t
      && Tokens(g, after, u) ==
           if allowed then MinReal(g.Full(), Tokens(g, b, t) - 1.0 + Gain(g, t, u)) else Tokens(g, b, u)
  {
    hide Gain;
    GainAdds(g, b.last, t, u);
  }

  /** The bucket a request draws on. */
  function Drawn(g: Config, vs: Visitors, r: Request): Bucket {
    if r.host in vs then vs[r.host].limiter else Bucket(g.Full(), r.seen)
  }

  lemma DrawnIsTheLevel(g: Config, vs: Visitors, r: Request, t: real)
    requires VisitorsOk(g, vs, r.seen)
    ensures Tokens(g, Drawn(g, vs, r), t) == Level(g, vs, r.host, t)
    ensures 0.0 <= Drawn(g, vs, r).tokens <= g.Full() && Drawn(g, vs, r).last <= r.seen
  {
    NewBucketIsFull(g, r.seen, t);
  }

  /** A request draws one token from its own host's level, and from no other's. */
  lemma AdmitDrawsOneToken(g: Config, vs: Visitors, r: Request, h: Host, t: real)
    requires VisitorsOk(g, vs, r.seen) && r.seen <= r.taken <= t
    ensures var (after, allowed) := Admit(g, vs, r);
      && allowed == (Level(g, vs, r.host, r.taken) >= 1.0)
      && VisitorsOk(g, after, t)
      && Level(g, after, h, t) ==
           if h == r.host && allowed then MinReal(g.Full(), Level(g, vs, h, r.taken) - 1.0 + Gain(g, r.taken, t))
           else Level(g, vs, h, t)
  {
    hide Tokens;
    var b := Drawn(g, vs, r);
    var after := Admit(g, vs, r).0;
    DrawnIsTheLevel(g, vs, r, r.taken);
    DrawnIsTheLevel(g, vs, r, t);
    TakeDrawsOneToken(g, b, r.taken, t);
    assert after == vs[r.host := Visitor(Take(g, b, r.taken).0, r.seen)];
    assert Level(g, after, r.host, t) == Tokens(g, Take(g, b, r.taken).0, t);
  }

  // ---------- eviction is unobservable ----------

  /** What is left of a bucket `IDLE` seconds after its last visit is full: between visits
      the clock can have run `delay` seconds past the one recorded. */
  ghost predicate SweepsOnlyFull(g: Config, delay: real) {
    && g.Full() + MinReal(1.0, Gain(g, 0.0, delay)) <= Gain(g, 0.0, IDLE)
    && 1.0 <= Gain(g, delay, IDLE)
  }

  /** The bucket of an entry last seen at s came from some level at s, minus at most the
      one token drawn within `delay` of s. */
  ghost predicate Recent(g: Config, v: Visitor, delay: real) {
    var b := v.limiter;
    b.last <= v.lastSeen ||
    (b.last <= v.lastSeen + delay && b.tokens >= MinReal(g.Full(), Gain(g, v.lastSeen, b.last)) - 1.0)
  }

  ghost predicate AllRecent(g: Config, vs: Visitors, delay: real) {
    forall h :: h in vs ==> Recent(g, vs[h], delay)
  }

  lemma TakeIsRecent(g: Config, b: Bucket, seen: real, taken: real, delay: real)
    requires 0.0 <= b.tokens <= g.Full() && b.last <= seen <= taken && taken - seen <= delay
    ensures Recent(g, Visitor(Take(g, b, taken).0, seen), delay)
  {
    hide Gain;
    GainAdds(g, b.last, seen, taken);
  }

  lemma AdmitKeepsRecent(g: Config, vs: Visitors, r: Request, delay: real)
    requires VisitorsOk(g, vs, r.seen) && AllRecent(g, vs, delay)
    requires r.seen <= r.taken && r.taken - r.seen <= delay
    ensures AllRecent(g, Admit(g, vs, r).0, delay)
  {
    TakeIsRecent(g, if r.host in vs then vs[r.host].limiter else Bucket(g.Full(), r.seen), r.seen, r.taken, delay);
  }

  lemma StaleIsFull(g: Config, v: Visitor, delay: real, t: real)
    requires SweepsOnlyFull(g, delay) && delay >= 0.0 && Recent(g, v, delay)
    requires 0.0 <= v.limiter.tokens <= g.Full()
    requires v.lastSeen < t - IDLE
    ensures Tokens(g, v.limiter, t) == g.Full()
  {
    var b, s := v.limiter, v.lastSeen;
    var worst := s + IDLE;
    assert delay < IDLE;
    hide Gain;
    GainAdds(g, 0.0, delay, IDLE);
    GainShifts(g, 0.0, IDLE, s);
    if b.last <= s {
      GainAdds(g, b.last, s, t);
      GainAdds(g, s, worst, t);
    } else {
      GainAdds(g, s, b.last, s + delay);
      GainAdds(g, s, s + delay, worst);
      GainAdds(g, s, b.last, worst);
      GainAdds(g, b.last, worst, t);
      GainShifts(g, 0.0, delay, s);
      GainShifts(g, delay, IDLE, s);
    }
  }

  /** Sweeping changes nobody's level from then on. */
  lemma SweepKeepsLevels(g: Config, vs: Visitors, delay: real, now: real, h: Host, t: real)
    requires SweepsOnlyFull(g, delay) && delay >= 0.0 && AllRecent(g, vs, delay) && VisitorsOk(g, vs, now) && now <= t
    ensures Level(g, Sweep(vs, now), h, t) == Level(g, vs, h, t)
  {
    if h in vs && h !in Sweep(vs, now) {
      StaleIsFull(g, vs[h], delay, t);
    }
  }

  ghost predicate SameLevels(g: Config, vs: Visitors, ws: Visitors, now: real) {
    forall h, t :: now <= t ==> Level(g, vs, h, t) == Level(g, ws, h, t)
  }

  lemma {:induction false} SameLevelsSameDecisions(g: Config, vs: Visitors, ws: Visitors, rs: seq<Request>, now: real,
      delay: real)
    requires SweepsOnlyFull(g, delay) && delay >= 0.0 && Clocked(rs, now, delay)
    requires VisitorsOk(g, vs, now) && VisitorsOk(g, ws, now) && AllRecent(g, vs, delay) && SameLevels(g, vs, ws, now)
    ensures Decisions(g, vs, rs) == UnboundedDecisions(g, ws, rs)
    decreases |rs|
  {
    if rs != [] {
      var r := rs[0];
      var (admitted, allowed) := Admit(g, vs, r);
      var (kept, allowed') := Admit(g, ws, r);
      AdmitDrawsOneToken(g, vs, r, r.host, r.swept);
      AdmitDrawsOneToken(g, ws, r, r.host, r.swept);
      AdmitKeepsRecent(g, vs, r, delay);
      var swept := Sweep(admitted, r.swept);
      forall h, t | r.swept <= t ensures Level(g, swept, h, t) == Level(g, kept, h, t) {
        AdmitDrawsOneToken(g, vs, r, h, t);
        AdmitDrawsOneToken(g, ws, r, h, t);
        SweepKeepsLevels(g, admitted, delay, r.swept, h, t);
      }
      SameLevelsSameDecisions(g, swept, kept, rs[1..], r.swept, delay);
    }
  }

  /** For every trace of requests, deleting idle visitors changes no decision. */
  lemma EvictionIsUnobservable(g: Config, rs: seq<Request>, start: real, delay: real)
    requires delay >= 0.0 && Clocked(rs, start, delay) && SweepsOnlyFull(g, delay)
    ensures Decisions(g, map[], rs) == UnboundedDecisions(g, map[], rs)
  {
    SameLevelsSameDecisions(g, map[], map[], rs, start, delay);
  }

  /** The public, account and feedback limiters, with up to nine minutes lost between the
      two clock reads. */
  lemma ConfiguredLimitersQualify(g: Config)
    requires g in {PerMinute(600, 120), PerMinute(120, 30), PerMinute(5, 3)}
    ensures SweepsOnlyFull(g, 540.0)
  {
  }

  /** With one clock reading per request the condition is burst <= 10 * requestsPerMinute. */
  lemma QualifiesIff(requestsPerMinute: nat, burst: nat)
    requires burst >= 1
    ensures SweepsOnlyFull(PerMinute(requestsPerMinute, burst), 0.0) <==> burst <= 10 * requestsPerMinute
  {
    var g := PerMinute(requestsPerMinute, burst);
    assert Gain(g, 0.0, IDLE) == 10.0 * requestsPerMinute as real;
  }

  // ---------- admissions in a window ----------

  /** Requests of `h` admitted with their bucket read in [a, b]. */
  function Admitted(rs: seq<Request>, decisions: seq<bool>, h: Host, a: real, b: real): nat
    requires |rs| == |decisions|
    decreases |rs|
  {
    if rs == [] then 0
    else (if rs[0].host == h && decisions[0] && a <= rs[0].taken <= b then 1 else 0)
         + Admitted(rs[1..], decisions[1..], h, a, b)
  }

  lemma {:induction false} DecisionsAlign(g: Config, vs: Visitors, rs: seq<Request>)
    ensures |UnboundedDecisions(g, vs, rs)| == |rs| == |Decisions(g, vs, rs)|
    decreases |rs|
  {
    if rs != [] {
      DecisionsAlign(g, Admit(g, vs, rs[0]).0, rs[1..]);
      DecisionsAlign(g, Serve(g, vs, rs[0]).0, rs[1..]);
    }
  }

  /** What a run can still admit by `b`: its level, and what it earns until then. */
  lemma {:induction false} LevelBoundsAdmissions(g: Config, vs: Visitors, rs: seq<Request>, now: real, delay: real,
                                                 h: Host, a: real, b: real)
    requires VisitorsOk(g, vs, now) && Clocked(rs, now, delay) && now <= b
    ensures |UnboundedDecisions(g, vs, rs)| == |rs|
    ensures Admitted(rs, UnboundedDecisions(g, vs, rs), h, a, b) as real <= Level(g, vs, h, now) + Gain(g, now, b)
    decreases |rs|
  {
    DecisionsAlign(g, vs, rs);
    LevelInRange(g, vs, h, now);
    GainAdds(g, now, b, b);
    if rs != [] {
      var r := rs[0];
      var (after, allowed) := Admit(g, vs, r);
      var decisions := UnboundedDecisions(g, vs, rs);
      var rest := UnboundedDecisions(g, after, rs[1..]);
      assert decisions[0] == allowed && decisions[1..] == rest;
      if r.taken <= b {
        AdmitDrawsOneToken(g, vs, r, h, r.taken);
        TakenAfterClock(rs, now, delay);
        ClockedFrom(rs[1..], r.taken, r.swept, delay);
        LevelBoundsAdmissions(g, after, rs[1..], r.taken, delay, h, a, b);
        LevelAdvances(g, vs, h, now, r.taken);
        hide Gain;
        GainAdds(g, now, r.taken, b);
        GainAdds(g, r.taken, r.taken, r.taken);
      } else {
        NothingAfter(rs, decisions, now, delay, h, a, b);
      }
    }
  }

  lemma LevelInRange(g: Config, vs: Visitors, h: Host, t: real)
    requires VisitorsOk(g, vs, t)
    ensures 0.0 <= Level(g, vs, h, t) <= g.Full()
  {
    if h in vs { TakeDrawsOneToken(g, vs[h].limiter, t, t); }
  }

  lemma LevelAdvances(g: Config, vs: Visitors, h: Host, t: real, u: real)
    requires VisitorsOk(g, vs, t) && t <= u
    ensures Level(g, vs, h, u) <= Level(g, vs, h, t) + Gain(g, t, u)
  {
    GainAdds(g, t, u, u);
    if h in vs { TokensAdvance(g, vs[h].limiter, t, u); }
  }

  lemma TakenAfterClock(rs: seq<Request>, now: real, delay: real)
    requires rs != [] && Clocked(rs, now, delay)
    ensures now <= rs[0].taken <= rs[0].swept
  {
  }

  lemma ClockedFrom(rs: seq<Request>, now: real, later: real, delay: real)
    requires now <= later && Clocked(rs, later, delay)
    ensures Clocked(rs, now, delay)
  {
  }

  lemma {:induction false} NothingAfter(rs: seq<Request>, decisions: seq<bool>, now: real, delay: real, h: Host,
      a: real, b: real)
    requires |decisions| == |rs| && Clocked(rs, now, delay) && (rs != [] ==> b < rs[0].taken)
    ensures Admitted(rs, decisions, h, a, b) == 0
    decreases |rs|
  {
    if rs != [] {
      NothingAfter(rs[1..], decisions[1..], rs[0].swept, delay, h, a, b);
    }
  }

  lemma {:induction false} WindowBoundsUnbounded(g: Config, vs: Visitors, rs: seq<Request>, now: real, delay: real,
                                                 h: Host, a: real, b: real)
    requires VisitorsOk(g, vs, now) && Clocked(rs, now, delay) && a <= b
    ensures |UnboundedDecisions(g, vs, rs)| == |rs|
    ensures Admitted(rs, UnboundedDecisions(g, vs, rs), h, a, b) as real <= g.Full() + Gain(g, a, b)
    decreases |rs|
  {
    DecisionsAlign(g, vs, rs);
    GainAdds(g, a, b, b);
    if rs != [] {
      var r := rs[0];
      var after := Admit(g, vs, r).0;
      var decisions := UnboundedDecisions(g, vs, rs);
      assert decisions[1..] == UnboundedDecisions(g, after, rs[1..]);
      if r.taken < a {
        AdmitDrawsOneToken(g, vs, r, h, r.swept);
        WindowBoundsUnbounded(g, after, rs[1..], r.swept, delay, h, a, b);
      } else if r.taken <= b {
        WindowOpens(g, vs, rs, now, delay, h, a, b);
      } else {
        NothingAfter(rs, decisions, now, delay, h, a, b);
      }
    }
  }

  /** The window's first request finds at most a full bucket. */
  lemma WindowOpens(g: Config, vs: Visitors, rs: seq<Request>, now: real, delay: real, h: Host, a: real, b: real)
    requires VisitorsOk(g, vs, now) && Clocked(rs, now, delay) && rs != [] && a <= rs[0].taken <= b
    ensures |UnboundedDecisions(g, vs, rs)| == |rs|
    ensures Admitted(rs, UnboundedDecisions(g, vs, rs), h, a, b) as real <= g.Full() + Gain(g, a, b)
  {
    var r := rs[0];
    var (after, allowed) := Admit(g, vs, r);
    DecisionsAlign(g, vs, rs);
    assert UnboundedDecisions(g, vs, rs)[1..] == UnboundedDecisions(g, after, rs[1..]);
    AdmitDrawsOneToken(g, vs, r, h, r.taken);
    ClockedFrom(rs[1..], r.taken, r.swept, delay);
    LevelBoundsAdmissions(g, after, rs[1..], r.taken, delay, h, a, b);
    assert VisitorsOk(g, vs, r.taken);
    LevelInRange(g, vs, h, r.taken);
    hide Gain;
    GainAdds(g, a, r.taken, b);
    GainAdds(g, r.taken, r.taken, r.taken);
  }

  /** In any window of time one host gets at most a burst plus what the rate earns in it
      admitted, evictions and re-creations of its entry included. */
  lemma WindowedAdmissions(g: Config, rs: seq<Request>, start: real, delay: real, h: Host, a: real, b: real)
    requires delay >= 0.0 && Clocked(rs, start, delay) && SweepsOnlyFull(g, delay) && a <= b
    ensures |Decisions(g, map[], rs)| == |rs|
    ensures Admitted(rs, Decisions(g, map[], rs), h, a, b) as real <= g.Full() + (b - a) * g.rate
  {
    EvictionIsUnobservable(g, rs, start, delay);
    WindowBoundsUnbounded(g, map[], rs, start, delay, h, a, b);
    GainIsProduct(g, a, b);
    hide Gain, SweepsOnlyFull;
  }

  lemma GainIsProduct(g: Config, a: real, b: real)
    requires a <= b
    ensures Gain(g, a, b) == (b - a) * g.rate
  {
    if a == b { assert b - a == 0.0; }
  }

  // ---------- the condition is needed ----------

  /** `n` requests of `h` at time t, all clock reads alike. */
  function Repeat(h: Host, n: nat, t: real): seq<Request> {
    if n == 0 then [] else [Request(h, t, t, t)] + Repeat(h, n - 1, t)
  }

  /** Hosts n, n-1, ..., 1, one request each. */
  function Crowd(n: nat, t: real): seq<Request> {
    if n == 0 then [] else [Request(n, t, t, t)] + Crowd(n - 1, t)
  }

  function Served(g: Config, vs: Visitors, rs: seq<Request>): Visitors
    decreases |rs|
  {
    if rs == [] then vs else Served(g, Serve(g, vs, rs[0]).0, rs[1..])
  }

  function Kept(g: Config, vs: Visitors, rs: seq<Request>): Visitors
    decreases |rs|
  {
    if rs == [] then vs else Kept(g, Admit(g, vs, rs[0]).0, rs[1..])
  }

  lemma {:induction false} DecisionsConcatenate(g: Config, vs: Visitors, rs: seq<Request>, more: seq<Request>)
    ensures Decisions(g, vs, rs + more) == Decisions(g, vs, rs) + Decisions(g, Served(g, vs, rs), more)
    ensures UnboundedDecisions(g, vs, rs + more) ==
        UnboundedDecisions(g, vs, rs) + UnboundedDecisions(g, Kept(g, vs, rs), more)
    decreases |rs|
  {
    hide Serve, Admit;
    if rs == [] {
      assert rs + more == more;
    } else {
      assert (rs + more)[0] == rs[0] && (rs + more)[1..] == rs[1..] + more;
      DecisionsConcatenate(g, Serve(g, vs, rs[0]).0, rs[1..], more);
      DecisionsConcatenate(g, Admit(g, vs, rs[0]).0, rs[1..], more);
    }
  }

  predicate AllAllowed(decisions: seq<bool>) {
    forall i :: 0 <= i < |decisions| ==> decisions[i]
  }

  lemma AllAllowedSplits(allowed: bool, rest: seq<bool>)
    ensures AllAllowed([allowed] + rest) <==> allowed && AllAllowed(rest)
  {
    var all := [allowed] + rest;
    if AllAllowed(all) {
      assert all[0] == allowed;
      assert forall i :: 0 <= i < |rest| ==> rest[i] == all[i + 1];
    }
  }

  /** Without eviction: a host cannot be admitted more often than its level allows, and
      `n` admissions at one instant leave `n` tokens less. */
  lemma {:induction false} RepeatDraws(g: Config, vs: Visitors, h: Host, n: nat, t: real, u: real)
    requires VisitorsOk(g, vs, t) && t <= u
    ensures VisitorsOk(g, Kept(g, vs, Repeat(h, n, t)), t)
    ensures AllAllowed(UnboundedDecisions(g, vs, Repeat(h, n, t))) <==> n as real <= Level(g, vs, h, t)
    ensures n > 0 && n as real <= Level(g, vs, h, t) ==>
              Level(g, Kept(g, vs, Repeat(h, n, t)), h, u) ==
                  MinReal(g.Full(), Level(g, vs, h, t) - n as real + Gain(g, t, u))
    decreases n
  {
    GainAdds(g, t, t, u);
    LevelInRange(g, vs, h, t);
    if n > 0 {
      var r := Request(h, t, t, t);
      var (after, allowed) := Admit(g, vs, r);
      AdmitDrawsOneToken(g, vs, r, h, t);
      AdmitDrawsOneToken(g, vs, r, h, u);
      RepeatDraws(g, after, h, n - 1, t, u);
      AllAllowedSplits(allowed, UnboundedDecisions(g, after, Repeat(h, n - 1, t)));
    }
  }

  /** Requests of other hosts leave a level alone. */
  lemma {:induction false} CrowdSpares(g: Config, vs: Visitors, n: nat, t: real, u: real)
    requires VisitorsOk(g, vs, t) && t <= u
    ensures VisitorsOk(g, Kept(g, vs, Crowd(n, t)), t)
    ensures Level(g, Kept(g, vs, Crowd(n, t)), 0, u) == Level(g, vs, 0, u)
    decreases n
  {
    if n > 0 {
      var r := Request(n, t, t, t);
      AdmitDrawsOneToken(g, vs, r, 0, u);
      AdmitDrawsOneToken(g, vs, r, 0, t);
      CrowdSpares(g, Admit(g, vs, r).0, n - 1, t, u);
    }
  }

  ghost predicate OnlySeenAt(vs: Visitors, t: real) {
    forall h :: h in vs ==> vs[h].lastSeen == t
  }

  /** The ten-thousandth newcomer makes the sweep, and it deletes the idle host 0. */
  lemma {:induction false} CrowdEvicts(g: Config, vs: Visitors, n: nat, t: real)
    requires 1 <= n <= CAPACITY && IDLE < t
    requires |vs| == 1 + CAPACITY - n && forall h :: h in vs ==> h == 0 || h > n
    requires forall h :: h in vs && h != 0 ==> vs[h].lastSeen == t
    requires 0 in vs && vs[0].lastSeen == 0.0
    ensures var after := Served(g, vs, Crowd(n, t)); 0 !in after && OnlySeenAt(after, t)
    decreases n
  {
    hide Gain, Tokens;
    var r := Request(n, t, t, t);
    var admitted := Admit(g, vs, r).0;
    assert n !in vs;
    assert admitted.Keys == vs.Keys + {n};
    assert |admitted| == |admitted.Keys| == |vs.Keys| + 1 == |vs| + 1;
    assert Crowd(n, t)[0] == r && Crowd(n, t)[1..] == Crowd(n - 1, t);
    if n > 1 {
      assert Sweep(admitted, t) == admitted;
      CrowdEvicts(g, admitted, n - 1, t);
    } else {
      assert Sweep(admitted, t) == Evict(admitted, t - IDLE);
      assert Crowd(0, t) == [];
    }
  }

  /** A host with enough tokens is admitted every time, sweeps or not. */
  lemma {:induction false} FullHostIsAdmitted(g: Config, vs: Visitors, h: Host, n: nat, t: real)
    requires VisitorsOk(g, vs, t) && OnlySeenAt(vs, t) && n as real <= Level(g, vs, h, t)
    ensures AllAllowed(Decisions(g, vs, Repeat(h, n, t)))
    decreases n
  {
    hide Gain, Tokens;
    if n > 0 {
      var r := Request(h, t, t, t);
      var (admitted, allowed) := Admit(g, vs, r);
      AdmitDrawsOneToken(g, vs, r, h, t);
      LevelInRange(g, vs, h, t);
      GainAdds(g, t, t, t);
      assert OnlySeenAt(admitted, t);
      assert Evict(admitted, t - IDLE) == admitted;
      FullHostIsAdmitted(g, admitted, h, n - 1, t);
      AllAllowedSplits(allowed, Decisions(g, admitted, Repeat(h, n - 1, t)));
    }
  }

  /** A first burst before the map holds anyone else is never swept away. */
  lemma {:induction false} FirstBurst(g: Config, vs: Visitors, n: nat)
    requires vs.Keys <= {0} && OnlySeenAt(vs, 0.0) && VisitorsOk(g, vs, 0.0)
    ensures Served(g, vs, Repeat(0, n, 0.0)) == Kept(g, vs, Repeat(0, n, 0.0))
    ensures var after := Kept(g, vs, Repeat(0, n, 0.0));
      after.Keys <= {0} && (n > 0 ==> 0 in after) && OnlySeenAt(after, 0.0) && VisitorsOk(g, after, 0.0)
    decreases n
  {
    hide Gain, Tokens;
    if n > 0 {
      var r := Request(0, 0.0, 0.0, 0.0);
      var admitted := Admit(g, vs, r).0;
      AdmitDrawsOneToken(g, vs, r, 0, 0.0);
      assert admitted.Keys == {0};
      assert |admitted| == |admitted.Keys|;
      FirstBurst(g, admitted, n - 1);
    }
  }

  lemma {:induction false} RepeatIsClocked(h: Host, n: nat, t: real, rest: seq<Request>)
    requires Clocked(rest, t, 0.0)
    ensures Clocked(Repeat(h, n, t) + rest, t, 0.0)
    decreases n
  {
    if n == 0 {
      assert Repeat(h, n, t) + rest == rest;
    } else {
      RepeatIsClocked(h, n - 1, t, rest);
      assert (Repeat(h, n, t) + rest)[0] == Request(h, t, t, t);
      assert (Repeat(h, n, t) + rest)[1..] == Repeat(h, n - 1, t) + rest;
    }
  }

  lemma {:induction false} CrowdIsClocked(n: nat, t: real, rest: seq<Request>)
    requires Clocked(rest, t, 0.0)
    ensures Clocked(Crowd(n, t) + rest, t, 0.0)
    decreases n
  {
    if n == 0 {
      assert Crowd(n, t) + rest == rest;
    } else {
      CrowdIsClocked(n - 1, t, rest);
      assert (Crowd(n, t) + rest)[0] == Request(n, t, t, t);
      assert (Crowd(n, t) + rest)[1..] == Crowd(n - 1, t) + rest;
    }
  }

  /** A burst at time 0, ten thousand strangers just after ten minutes, and a second burst. */
  function Probe(burst: nat, t: real): seq<Request> {
    Repeat(0, burst, 0.0) + (Crowd(CAPACITY, t) + Repeat(0, burst, t))
  }

  lemma ProbeIsClocked(burst: nat, t: real)
    requires IDLE < t
    ensures Clocked(Probe(burst, t), 0.0, 0.0)
  {
    var second := Repeat(0, burst, t);
    RepeatIsClocked(0, burst, t, []);
    assert second + [] == second;
    CrowdIsClocked(CAPACITY, t, second);
    ClockedFrom(Crowd(CAPACITY, t) + second, 0.0, t, 0.0);
    RepeatIsClocked(0, burst, 0.0, Crowd(CAPACITY, t) + second);
  }

  /** The limiter that sweeps admits the whole second burst. */
  lemma ProbeIsAdmittedAfterSweep(g: Config, t: real)
    requires IDLE < t && g.burst >= 1
    ensures AllAllowed(Decisions(g, Served(g, Served(g, map[], Repeat(0, g.burst, 0.0)), Crowd(CAPACITY, t)),
        Repeat(0, g.burst, t)))
  {
    FirstBurst(g, map[], g.burst);
    var one := Served(g, map[], Repeat(0, g.burst, 0.0));
    assert one.Keys == {0};
    assert |one| == |one.Keys| == 1;
    assert VisitorsOk(g, one, t);
    CrowdEvicts(g, one, CAPACITY, t);
    ServedOk(g, one, CAPACITY, t);
    FullHostIsAdmitted(g, Served(g, one, Crowd(CAPACITY, t)), 0, g.burst, t);
  }

  lemma {:induction false} ServedOk(g: Config, vs: Visitors, n: nat, t: real)
    requires VisitorsOk(g, vs, t)
    ensures VisitorsOk(g, Served(g, vs, Crowd(n, t)), t)
    decreases n
  {
    hide Gain, Tokens;
    if n > 0 {
      AdmitDrawsOneToken(g, vs, Request(n, t, t, t), 0, t);
      ServedOk(g, Serve(g, vs, Request(n, t, t, t)).0, n - 1, t);
    }
  }

  /** The limiter that never deletes has not refilled the bucket yet. */
  lemma ProbeIsRefusedWithoutSweep(g: Config, t: real)
    requires IDLE < t && g.burst >= 1 && Gain(g, 0.0, t) < g.Full()
    ensures !AllAllowed(UnboundedDecisions(g, Kept(g, Kept(g, map[], Repeat(0, g.burst, 0.0)), Crowd(CAPACITY, t)),
        Repeat(0, g.burst, t)))
  {
    var first := Repeat(0, g.burst, 0.0);
    RepeatDraws(g, map[], 0, g.burst, 0.0, t);
    var one := Kept(g, map[], first);
    assert VisitorsOk(g, one, t);
    assert Level(g, one, 0, t) < g.Full();
    CrowdSpares(g, one, CAPACITY, t, t);
    RepeatDraws(g, Kept(g, one, Crowd(CAPACITY, t)), 0, g.burst, t, t);
  }

  ghost predicate Unobservable(g: Config) {
    forall rs, start :: Clocked(rs, start, 0.0) ==> Decisions(g, map[], rs) == UnboundedDecisions(g, map[], rs)
  }

  /** Without a burst nothing is ever admitted. */
  lemma {:induction false} NoBurstAdmitsNothing(g: Config, vs: Visitors, ws: Visitors, rs: seq<Request>)
    requires g.burst == 0
    ensures Decisions(g, vs, rs) == UnboundedDecisions(g, ws, rs)
    decreases |rs|
  {
    if rs != [] {
      NoBurstAdmitsNothing(g, Serve(g, vs, rs[0]).0, Admit(g, ws, rs[0]).0, rs[1..]);
    }
  }

  /** With one clock reading per request, eviction is unobservable exactly when a burst is
      no more than ten minutes' worth of requests. */
  lemma EvictionIsUnobservableIff(requestsPerMinute: nat, burst: nat)
    ensures Unobservable(PerMinute(requestsPerMinute, burst)) <==> burst <= 10 * requestsPerMinute
  {
    if burst == 0 {
      forall rs, start | Clocked(rs, start, 0.0)
        ensures Decisions(PerMinute(requestsPerMinute, 0), map[], rs) ==
            UnboundedDecisions(PerMinute(requestsPerMinute, 0), map[], rs)
      {
        NoBurstAdmitsNothing(PerMinute(requestsPerMinute, 0), map[], map[], rs);
      }
    } else {
      BurstIsUnobservableIff(requestsPerMinute, burst);
    }
  }

  lemma BurstIsUnobservableIff(requestsPerMinute: nat, burst: nat)
    requires burst >= 1
    ensures Unobservable(PerMinute(requestsPerMinute, burst)) <==> burst <= 10 * requestsPerMinute
  {
    var g := PerMinute(requestsPerMinute, burst);
    QualifiesIff(requestsPerMinute, burst);
    if burst <= 10 * requestsPerMinute {
      forall rs, start | Clocked(rs, start, 0.0) ensures Decisions(g, map[], rs) == UnboundedDecisions(g, map[], rs) {
        EvictionIsUnobservable(g, rs, start, 0.0);
      }
    } else {
      // Just past ten minutes the emptied bucket is still short of a burst.
      var t := IDLE + 30.0 / (requestsPerMinute + 1) as real;
      JustPastIdle(requestsPerMinute, burst, t);
      var first, crowd, second := Repeat(0, burst, 0.0), Crowd(CAPACITY, t), Repeat(0, burst, t);
      ProbeIsClocked(burst, t);
      ProbeIsAdmittedAfterSweep(g, t);
      ProbeIsRefusedWithoutSweep(g, t);
      ProbeDecisionsDiffer(g, first, crowd, second);
      assert !Unobservable(g);
    }
  }

  lemma JustPastIdle(requestsPerMinute: nat, burst: nat, t: real)
    requires burst > 10 * requestsPerMinute && t == IDLE + 30.0 / (requestsPerMinute + 1) as real
    ensures IDLE < t && Gain(PerMinute(requestsPerMinute, burst), 0.0, t) < burst as real
  {
    var n := requestsPerMinute as real;
    var d := 30.0 / (n + 1.0);
    assert d * (n + 1.0) == 30.0;
    assert 0.0 < d by { if d <= 0.0 { NonNegative(0.0 - d, n + 1.0); } }
    assert d * n < 30.0;
    assert (IDLE + d) * (n / 60.0) == 10.0 * n + d * n / 60.0;
  }

  lemma SuffixesDiffer(a: seq<bool>, b: seq<bool>, x: seq<bool>, c: seq<bool>, d: seq<bool>, y: seq<bool>)
    requires |a| == |c| && |b| == |d| && |x| == |y| && AllAllowed(x) && !AllAllowed(y)
    ensures a + (b + x) != c + (d + y)
  {
    var i :| 0 <= i < |y| && !y[i];
    var at := |a| + |b| + i;
    assert (a + (b + x))[at] && !(c + (d + y))[at];
  }

  lemma ProbeDecisionsDiffer(g: Config, first: seq<Request>, crowd: seq<Request>, second: seq<Request>)
    requires AllAllowed(Decisions(g, Served(g, Served(g, map[], first), crowd), second))
    requires !AllAllowed(UnboundedDecisions(g, Kept(g, Kept(g, map[], first), crowd), second))
    ensures Decisions(g, map[], first + (crowd + second)) != UnboundedDecisions(g, map[], first + (crowd + second))
  {
    var served, kept := Served(g, map[], first), Kept(g, map[], first);
    DecisionsConcatenate(g, map[], first, crowd + second);
    DecisionsConcatenate(g, served, crowd, second);
    DecisionsConcatenate(g, kept, crowd, second);
    DecisionsAlign(g, map[], first);
    DecisionsAlign(g, served, crowd);
    DecisionsAlign(g, kept, crowd);
    DecisionsAlign(g, Served(g, served, crowd), second);
    DecisionsAlign(g, Kept(g, kept, crowd), second);
    SuffixesDiffer(Decisions(g, map[], first), Decisions(g, served, crowd),
        Decisions(g, Served(g, served, crowd), second),
                   UnboundedDecisions(g, map[], first), UnboundedDecisions(g, kept, crowd),
                   UnboundedDecisions(g, Kept(g, kept, crowd), second));
  }
}
