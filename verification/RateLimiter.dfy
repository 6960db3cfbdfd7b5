/**
 The per-key token bucket with pruning (internal/connect/ratelimit.go), over real time and tokens:
 its long-run rate, and the unobservability of pruning. Both are proved on a simpler limiter that
 keeps its credit in seconds, which the token bucket is shown to follow decision by decision.
 */
module RateLimiter {
  import opened AuthzModel

  datatype Bucket = Bucket(tokens: real, last: real)

  /** A limiter's state; no prune has happened while `lastPrune` is None. */
  datatype Limiter = Limiter(capacity: real, refill: real, buckets: map<string, Bucket>, lastPrune: Option<real>)

  function Min(a: real, b: real): real {
    if a <= b then a else b
  }

  /** A non-positive rate disables limiting. */
  function NewLimiter(perMinute: int): Option<Limiter> {
    if perMinute <= 0 then None else Some(Limiter(perMinute as real, perMinute as real / 60.0, map[], None))
  }

  predicate PruneDue(lastPrune: Option<real>, now: real) {
    lastPrune.None? || now - lastPrune.value >= 60.0
  }

  function Prune(l: Limiter, now: real): Limiter {
    if !PruneDue(l.lastPrune, now) then l
    else
      var kept := map k | k in l.buckets && now - l.buckets[k].last <= 120.0 :: l.buckets[k];
      l.(lastPrune := Some(now), buckets := kept)
  }

  function Refilled(l: Limiter, b: Bucket, now: real): Bucket {
    if now - b.last > 0.0 then Bucket(Min(l.capacity, b.tokens + (now - b.last) * l.refill), now) else b
  }

  function BucketAt(l: Limiter, key: string, now: real): Bucket {
    Refilled(l, if key in l.buckets then l.buckets[key] else Bucket(l.capacity, now), now)
  }

  /** Stores a key's refilled bucket, less one token if it has one. */
  function Draw(l: Limiter, key: string, b: Bucket): (Limiter, bool) {
    if b.tokens < 1.0 then (l.(buckets := l.buckets[key := b]), false)
    else (l.(buckets := l.buckets[key := b.(tokens := b.tokens - 1.0)]), true)
  }

  /** One request; `prunes` is false only for the reference that never forgets a bucket. */
  function Allow(l: Limiter, key: string, now: real, prunes: bool): (Limiter, bool) {
    var p := if prunes then Prune(l, now) else l;
    Draw(p, key, BucketAt(p, key, now))
  }

  // ---- runs ----

  datatype Request = Request(key: string, at: real)

  predicate Monotone(rs: seq<Request>) {
    forall i, j | 0 <= i <= j < |rs| :: rs[i].at <= rs[j].at
  }

  function Decisions(l: Limiter, rs: seq<Request>, prunes: bool): (ds: seq<bool>)
    ensures |ds| == |rs|
    decreases |rs|
  {
    if rs == [] then []
    else var (next, ok) := Allow(l, rs[0].key, rs[0].at, prunes); [ok] + Decisions(next, rs[1..], prunes)
  }

  /** What a configured service decides on a run of requests. */
  function Verdicts(perMinute: int, rs: seq<Request>): (ds: seq<bool>)
    ensures |ds| == |rs|
  {
    var l := NewLimiter(perMinute);
    if l.None? then seq(|rs|, _ => true) else Decisions(l.value, rs, true)
  }

  function Granted(key: string, rs: seq<Request>, ds: seq<bool>): nat
    requires |rs| == |ds|
  {
    if rs == [] then 0 else (if rs[0].key == key && ds[0] then 1 else 0) + Granted(key, rs[1..], ds[1..])
  }

  // ---- the same limiter with its credit in seconds: a minute when full, `cost` seconds a request ----

  datatype Credit = Credit(seconds: real, last: real)

  datatype Meter = Meter(cost: real, credits: map<string, Credit>, lastPrune: Option<real>)

  function PruneMeter(m: Meter, now: real): Meter {
    if !PruneDue(m.lastPrune, now) then m
    else
      var kept := map k | k in m.credits && now - m.credits[k].last <= 120.0 :: m.credits[k];
      m.(lastPrune := Some(now), credits := kept)
  }

  /** The credit of a key at `now`. */
  function Level(m: Meter, key: string, now: real): real {
    if key in m.credits then Min(60.0, m.credits[key].seconds + (now - m.credits[key].last)) else 60.0
  }

  function Spend(m: Meter, key: string, level: real, now: real): (Meter, bool) {
    if level < m.cost then (m.(credits := m.credits[key := Credit(level, now)]), false)
    else (m.(credits := m.credits[key := Credit(level - m.cost, now)]), true)
  }

  function Tick(m: Meter, key: string, now: real, prunes: bool): (Meter, bool) {
    var p := if prunes then PruneMeter(m, now) else m;
    Spend(p, key, Level(p, key, now), now)
  }

  function Ticks(m: Meter, rs: seq<Request>, prunes: bool): (ds: seq<bool>)
    ensures |ds| == |rs|
    decreases |rs|
  {
    if rs == [] then []
    else var (next, ok) := Tick(m, rs[0].key, rs[0].at, prunes); [ok] + Ticks(next, rs[1..], prunes)
  }

  // ---- the token bucket follows the meter ----

  predicate Reciprocal(cost: real, refill: real) {
    refill > 0.0 && cost * refill == 1.0
  }

  predicate Matches(refill: real, b: Bucket, c: Credit, now: real) {
    b.tokens == c.seconds * refill && b.last == c.last <= now && 0.0 <= c.seconds <= 60.0
  }

  predicate Follows(l: Limiter, m: Meter, now: real) {
    && Reciprocal(m.cost, l.refill) && l.capacity == 60.0 * l.refill && 0.0 < m.cost <= 60.0
    && l.buckets.Keys == m.credits.Keys && l.lastPrune == m.lastPrune
    && forall k | k in l.buckets :: Matches(l.refill, l.buckets[k], m.credits[k], now)
  }

  lemma ScaledMin(refill: real, capacity: real, tokens: real, seconds: real, dt: real)
    requires refill > 0.0 && capacity == 60.0 * refill && tokens == seconds * refill
    ensures Min(capacity, tokens + dt * refill) == Min(60.0, seconds + dt) * refill
  {
    assert tokens + dt * refill == (seconds + dt) * refill;
    if seconds + dt <= 60.0 {
      assert (seconds + dt) * refill <= 60.0 * refill;
    } else {
      assert (seconds + dt) * refill > 60.0 * refill;
    }
  }

  lemma ScaledLess(a: real, b: real, refill: real, ar: real, br: real)
    requires refill > 0.0 && ar == a * refill && br == b * refill
    ensures a < b <==> ar < br
    ensures ar - br == (a - b) * refill
  {
    assert br - ar == (b - a) * refill;
  }

  lemma RefilledMatches(l: Limiter, b: Bucket, c: Credit, now: real)
    requires l.refill > 0.0 && l.capacity == 60.0 * l.refill && Matches(l.refill, b, c, now)
    ensures Matches(l.refill, Refilled(l, b, now), Credit(Min(60.0, c.seconds + (now - c.last)), now), now)
  {
    if now > b.last { ScaledMin(l.refill, l.capacity, b.tokens, c.seconds, now - b.last); }
  }

  lemma BucketFollows(l: Limiter, m: Meter, key: string, now: real)
    requires Follows(l, m, now)
    ensures Matches(l.refill, BucketAt(l, key, now), Credit(Level(m, key, now), now), now)
  {
    var b := if key in l.buckets then l.buckets[key] else Bucket(l.capacity, now);
    var c := if key in m.credits then m.credits[key] else Credit(60.0, now);
    assert Matches(l.refill, b, c, now);
    RefilledMatches(l, b, c, now);
  }

  lemma DrawFollows(l: Limiter, m: Meter, key: string, b: Bucket, level: real, now: real)
    requires Follows(l, m, now) && Matches(l.refill, b, Credit(level, now), now)
    ensures Draw(l, key, b).1 == Spend(m, key, level, now).1
    ensures Follows(Draw(l, key, b).0, Spend(m, key, level, now).0, now)
  {
    ScaledLess(level, m.cost, l.refill, b.tokens, 1.0);
  }

  lemma AllowFollows(l: Limiter, m: Meter, key: string, now: real, prunes: bool)
    requires Follows(l, m, now)
    ensures Allow(l, key, now, prunes).1 == Tick(m, key, now, prunes).1
    ensures Follows(Allow(l, key, now, prunes).0, Tick(m, key, now, prunes).0, now)
  {
    var p, q := if prunes then Prune(l, now) else l, if prunes then PruneMeter(m, now) else m;
    assert Follows(p, q, now);
    BucketFollows(p, q, key, now);
    DrawFollows(p, q, key, BucketAt(p, key, now), Level(q, key, now), now);
  }

  lemma FollowsLater(l: Limiter, m: Meter, now: real, later: real)
    requires Follows(l, m, now) && now <= later
    ensures Follows(l, m, later)
  {
    forall k | k in l.buckets
      ensures Matches(l.refill, l.buckets[k], m.credits[k], later)
    {
      assert Matches(l.refill, l.buckets[k], m.credits[k], now);
    }
  }

  lemma {:induction false} RunFollows(l: Limiter, m: Meter, rs: seq<Request>, now: real, prunes: bool)
    requires Monotone(rs) && (rs != [] ==> now <= rs[0].at) && Follows(l, m, now)
    ensures Decisions(l, rs, prunes) == Ticks(m, rs, prunes)
    decreases |rs|
  {
    if rs != [] {
      FollowsLater(l, m, now, rs[0].at);
      AllowFollows(l, m, rs[0].key, rs[0].at, prunes);
      RunFollows(Allow(l, rs[0].key, rs[0].at, prunes).0, Tick(m, rs[0].key, rs[0].at, prunes).0, rs[1..], rs[0].at,
          prunes);
    }
  }

  lemma NewFollows(perMinute: int, now: real) returns (m: Meter)
    requires perMinute > 0
    ensures Follows(NewLimiter(perMinute).value, m, now) && m.credits == map[]
  {
    var n := perMinute as real;
    m := Meter(60.0 / n, map[], None);
    assert n >= 1.0 && n / 60.0 > 0.0;
    assert 60.0 / n <= 60.0 && (60.0 / n) * (n / 60.0) == 1.0;
  }

  // ---- the rate ----

  predicate Valid(m: Meter, now: real) {
    && 0.0 < m.cost <= 60.0
    && forall k | k in m.credits :: 0.0 <= m.credits[k].seconds <= 60.0 && m.credits[k].last <= now
  }

  /** A request never makes credit, and what it grants is paid for. */
  lemma TickPays(m: Meter, key: string, r: Request, from: real, prunes: bool)
    requires Valid(m, from) && from <= r.at
    ensures var (next, ok) := Tick(m, r.key, r.at, prunes);
            && Valid(next, r.at) && next.cost == m.cost && 0.0 <= Level(next, key, r.at)
            && Level(next, key, r.at) + (if ok && r.key == key then m.cost else 0.0)
            <= Level(m, key, from) + (r.at - from)
  {
  }

  /** The granted requests of `key` cost no more than a minute's credit and `dt` seconds. */
  predicate Affordable(key: string, rs: seq<Request>, ds: seq<bool>, cost: real, dt: real)
    requires |rs| == |ds|
  {
    Spent(key, rs, ds, cost) <= 60.0 + dt
  }

  /** What the granted requests of `key` cost altogether. */
  function Spent(key: string, rs: seq<Request>, ds: seq<bool>, cost: real): real
    requires |rs| == |ds|
  {
    if rs == [] then 0.0 else (if rs[0].key == key && ds[0] then cost else 0.0) + Spent(key, rs[1..], ds[1..], cost)
  }

  lemma {:induction false} RunIsPaid(m: Meter, key: string, rs: seq<Request>, from: real, prunes: bool)
    requires rs != [] && Monotone(rs) && from <= rs[0].at && Valid(m, from)
    ensures Spent(key, rs, Ticks(m, rs, prunes), m.cost) <= Level(m, key, from) + (rs[|rs| - 1].at - from)
    decreases |rs|
  {
    var r, ds := rs[0], Ticks(m, rs, prunes);
    var (next, ok) := Tick(m, r.key, r.at, prunes);
    TickPays(m, key, r, from, prunes);
    assert ds[1..] == Ticks(next, rs[1..], prunes);
    if |rs| > 1 { RunIsPaid(next, key, rs[1..], r.at, prunes); }
  }

  /** The state in which request `i` finds the meter, and that later decisions depend on it alone. */
  lemma {:induction false} TicksFrom(m: Meter, rs: seq<Request>, i: nat, prunes: bool) returns (mid: Meter)
    requires i < |rs| && Monotone(rs) && Valid(m, rs[0].at)
    ensures Valid(mid, rs[i].at) && mid.cost == m.cost
    ensures Ticks(m, rs, prunes)[i..] == Ticks(mid, rs[i..], prunes)
    decreases i
  {
    if i == 0 {
      mid := m;
      assert rs[0..] == rs && Ticks(m, rs, prunes)[0..] == Ticks(m, rs, prunes);
    } else {
      var next, rest := Tick(m, rs[0].key, rs[0].at, prunes).0, rs[1..];
      TickPays(m, "", rs[0], rs[0].at, prunes);
      assert Valid(next, rs[1].at);
      mid := TicksFrom(next, rest, i - 1, prunes);
      assert rest[i - 1..] == rs[i..];
      var later := Ticks(next, rest, prunes);
      assert Ticks(m, rs, prunes) == [Ticks(m, rs, prunes)[0]] + later;
      assert Ticks(m, rs, prunes)[i..] == later[i - 1..];
    }
  }

  lemma {:induction false} TicksPrefix(m: Meter, rs: seq<Request>, j: nat, prunes: bool)
    requires j <= |rs|
    ensures Ticks(m, rs, prunes)[..j] == Ticks(m, rs[..j], prunes)
    decreases j
  {
    if j > 0 {
      var next := Tick(m, rs[0].key, rs[0].at, prunes).0;
      assert rs[..j][1..] == rs[1..][..j - 1];
      TicksPrefix(next, rs[1..], j - 1, prunes);
      assert Ticks(m, rs, prunes)[..j] == [Ticks(m, rs, prunes)[0]] + Ticks(next, rs[1..], prunes)[..j - 1];
    }
  }

  lemma MeterWindow(m: Meter, key: string, rs: seq<Request>, i: nat, j: nat, prunes: bool)
    requires Monotone(rs) && i < j <= |rs| && Valid(m, rs[0].at)
    ensures Affordable(key, rs[i..j], Ticks(m, rs, prunes)[i..j], m.cost, rs[j - 1].at - rs[i].at)
  {
    var head := rs[..j];
    TicksPrefix(m, rs, j, prunes);
    assert Ticks(m, rs, prunes)[i..j] == Ticks(m, rs, prunes)[..j][i..];
    var mid := TicksFrom(m, head, i, prunes);
    assert head[i..] == rs[i..j];
    RunIsPaid(mid, key, rs[i..j], rs[i].at, prunes);
  }

  lemma {:induction false} SpentScales(key: string, rs: seq<Request>, ds: seq<bool>, cost: real, refill: real)
    requires |rs| == |ds| && cost * refill == 1.0
    ensures Spent(key, rs, ds, cost) * refill == Granted(key, rs, ds) as real
    decreases |rs|
  {
    if rs != [] {
      SpentScales(key, rs[1..], ds[1..], cost, refill);
      var rest := Spent(key, rs[1..], ds[1..], cost);
      assert (cost + rest) * refill == cost * refill + rest * refill;
    }
  }

  lemma ScaledSlack(slack: real, refill: real)
    requires slack >= 0.0 && refill > 0.0
    ensures slack * refill >= 0.0
  {
  }

  /** At most the capacity plus what `dt` seconds refill. */
  predicate WithinRate(granted: nat, capacity: real, refill: real, dt: real) {
    granted as real <= capacity + dt * refill
  }

  lemma SpentToGranted(key: string, rs: seq<Request>, ds: seq<bool>, cost: real, refill: real, dt: real)
    requires |rs| == |ds| && Reciprocal(cost, refill) && Affordable(key, rs, ds, cost, dt)
    ensures WithinRate(Granted(key, rs, ds), 60.0 * refill, refill, dt)
  {
    var spent := Spent(key, rs, ds, cost);
    SpentScales(key, rs, ds, cost, refill);
    ScaledSlack(60.0 + dt - spent, refill);
    assert (60.0 + dt - spent) * refill == 60.0 * refill + dt * refill - spent * refill;
  }

  lemma NewRunFollows(perMinute: int, rs: seq<Request>, prunes: bool) returns (m: Meter)
    requires perMinute > 0 && Monotone(rs) && rs != []
    ensures Decisions(NewLimiter(perMinute).value, rs, prunes) == Ticks(m, rs, prunes)
    ensures Reciprocal(m.cost, NewLimiter(perMinute).value.refill) && Valid(m, rs[0].at)
  {
    m := NewFollows(perMinute, rs[0].at);
    RunFollows(NewLimiter(perMinute).value, m, rs, rs[0].at, prunes);
  }

  lemma MeterRate(m: Meter, refill: real, key: string, rs: seq<Request>, i: nat, j: nat)
    requires Monotone(rs) && i < j <= |rs| && Valid(m, rs[0].at) && Reciprocal(m.cost, refill)
    ensures WithinRate(Granted(key, rs[i..j], Ticks(m, rs, true)[i..j]), 60.0 * refill, refill, rs[j - 1].at - rs[i].at)
  {
    MeterWindow(m, key, rs, i, j, true);
    SpentToGranted(key, rs[i..j], Ticks(m, rs, true)[i..j], m.cost, refill, rs[j - 1].at - rs[i].at);
  }

  /**
   Over any run with a clock that never goes back: in every window, a key is granted at most `perMinute` requests
   and as many again for every minute of its length.
   */
  lemma WindowBound(perMinute: int, key: string, rs: seq<Request>, i: nat, j: nat)
    requires perMinute > 0 && Monotone(rs) && i < j <= |rs|
    ensures var ds, rate := Verdicts(perMinute, rs), perMinute as real;
            WithinRate(Granted(key, rs[i..j], ds[i..j]), rate, rate / 60.0, rs[j - 1].at - rs[i].at)
  {
    var m := NewRunFollows(perMinute, rs, true);
    MeterRate(m, NewLimiter(perMinute).value.refill, key, rs, i, j);
  }

  // ---- pruning cannot be observed ----

  /** From `now` on, each key is alike in both, or absent in one and full again in the other. */
  predicate Indistinguishable(pruned: Meter, full: Meter, now: real) {
    && Valid(pruned, now) && Valid(full, now) && pruned.cost == full.cost
    && (forall k | k in pruned.credits :: k in full.credits && full.credits[k] == pruned.credits[k])
    && forall k | k in full.credits && k !in pruned.credits ::
        full.credits[k].seconds + (now - full.credits[k].last) >= 60.0
  }

  lemma TickAgrees(pruned: Meter, full: Meter, key: string, now: real)
    requires Indistinguishable(pruned, full, now)
    ensures Tick(pruned, key, now, true).1 == Tick(full, key, now, false).1
    ensures Indistinguishable(Tick(pruned, key, now, true).0, Tick(full, key, now, false).0, now)
  {
    var p := PruneMeter(pruned, now);
    assert Indistinguishable(p, full, now);
    assert Level(p, key, now) == Level(full, key, now);
  }

  lemma {:induction false} SameTicks(pruned: Meter, full: Meter, rs: seq<Request>, now: real)
    requires Monotone(rs) && (rs != [] ==> now <= rs[0].at) && Indistinguishable(pruned, full, now)
    ensures Ticks(pruned, rs, true) == Ticks(full, rs, false)
    decreases |rs|
  {
    if rs != [] {
      var key, at := rs[0].key, rs[0].at;
      assert Indistinguishable(pruned, full, at);
      TickAgrees(pruned, full, key, at);
      SameTicks(Tick(pruned, key, at, true).0, Tick(full, key, at, false).0, rs[1..], at);
    }
  }

  /** A limiter that prunes decides every run as one that never does. */
  lemma PruningIsUnobservable(perMinute: int, rs: seq<Request>)
    requires perMinute > 0 && Monotone(rs)
    ensures var l := NewLimiter(perMinute).value;
            Decisions(l, rs, true) == Decisions(l, rs, false)
  {
    if rs != [] {
      var l, now := NewLimiter(perMinute).value, rs[0].at;
      var m := NewFollows(perMinute, now);
      RunFollows(l, m, rs, now, true);
      RunFollows(l, m, rs, now, false);
      SameTicks(m, m, rs, now);
    }
  }

  // ---- the limiter in place ----

  class TokenBuckets {
    const capacity: real
    const refill: real
    var buckets: map<string, Bucket>
    var lastPrune: Option<real>

    constructor (perMinute: int)
      requires perMinute > 0
      ensures Some(Abs()) == NewLimiter(perMinute)
    {
      capacity, refill := perMinute as real, perMinute as real / 60.0;
      buckets, lastPrune := map[], None;
    }

    ghost function Abs(): Limiter
      reads this
    {
      Limiter(capacity, refill, buckets, lastPrune)
    }

    /** Deletes the buckets idle for more than two minutes, at most once a minute. */
    method PruneLocked(now: real)
      modifies this
      ensures Abs() == Prune(old(Abs()), now)
    {
      if lastPrune.Some? && now - lastPrune.value < 60.0 { return; }
      lastPrune := Some(now);
      var rest := buckets.Keys;
      while rest != {}
        invariant rest <= old(buckets).Keys && lastPrune == Some(now)
        invariant buckets == map k | k in old(buckets) && (k in rest || now - old(buckets)[k].last <= 120.0) ::
                    old(buckets)[k]
        decreases rest
      {
        var k :| k in rest;
        rest := rest - {k};
        if now - buckets[k].last > 120.0 { buckets := buckets - {k}; }
      }
    }

    method AllowKey(key: string, now: real) returns (ok: bool)
      modifies this
      ensures (Abs(), ok) == Allow(old(Abs()), key, now, true)
    {
      PruneLocked(now);
      ghost var p := Abs();
      var b := if key in buckets then buckets[key] else Bucket(capacity, now);
      var elapsed := now - b.last;
      if elapsed > 0.0 {
        b := Bucket(Min(capacity, b.tokens + elapsed * refill), now);
      }
      assert b == BucketAt(p, key, now);
      ok := !(b.tokens < 1.0);
      if ok { b := b.(tokens := b.tokens - 1.0); }
      buckets := buckets[key := b];
    }
  }

  /** The limiter of a configured rate; none if the rate disables it. */
  method NewRateLimiter(perMinute: int) returns (r: TokenBuckets?)
    ensures r == null <==> NewLimiter(perMinute).None?
    ensures r != null ==> fresh(r) && Some(r.Abs()) == NewLimiter(perMinute)
  {
    if perMinute <= 0 { return null; }
    r := new TokenBuckets(perMinute);
  }

  /** A disabled limiter allows everything. */
  method AllowOrDisabled(r: TokenBuckets?, key: string, now: real) returns (ok: bool)
    modifies r
    ensures r == null ==> ok
    ensures r != null ==> (r.Abs(), ok) == Allow(old(r.Abs()), key, now, true)
  {
    if r == null { return true; }
    ok := r.AllowKey(key, now);
  }
}
