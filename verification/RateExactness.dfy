/**
 The token bucket denies nothing it could grant: a request is granted exactly when, in every window it
 ends, the key's grants including it stay within capacity plus refill.
 */
module RateExactness {
  import opened RateLimiter

  /** Granting one more at the end of a window costs more than a minute's credit and the window's length. */
  predicate Short(m: Meter, key: string, rs: seq<Request>, ds: seq<bool>, credit: real, from: real)
    requires rs != [] && |ds| == |rs|
  {
    var j := |rs| - 1;
    Spent(key, rs[..j], ds[..j], m.cost) + m.cost > credit + (rs[j].at - from)
  }

  ghost predicate SomeWindowShort(m: Meter, key: string, rs: seq<Request>, ds: seq<bool>)
    requires rs != [] && |ds| == |rs|
  {
    exists i | 0 <= i < |rs| :: Short(m, key, rs[i..], ds[i..], 60.0, rs[i].at)
  }

  /** Without pruning, credit grows with time up to a minute. */
  lemma LevelLater(m: Meter, key: string, from: real, at: real)
    requires Valid(m, from) && from <= at
    ensures Level(m, key, at) == Min(60.0, Level(m, key, from) + (at - from))
  {
  }

  lemma OneDenied(m: Meter, key: string, r: Request, from: real)
    requires r.key == key && Valid(m, from) && from <= r.at && !Tick(m, key, r.at, false).1
    ensures Level(m, key, from) + (r.at - from) < m.cost
  {
    LevelLater(m, key, from, r.at);
  }

  /** Short of credit after the first request: short of it before, or full at it. */
  lemma ShortBefore(m: Meter, key: string, rs: seq<Request>, ds: seq<bool>, from: real)
    requires |rs| == |ds| > 1 && Valid(m, from) && from <= rs[0].at && ds[0] == Tick(m, rs[0].key, rs[0].at, false).1
    requires var next := Tick(m, rs[0].key, rs[0].at, false).0;
             Short(next, key, rs[1..], ds[1..], Level(next, key, rs[0].at), rs[0].at)
    ensures Short(m, key, rs, ds, Level(m, key, from), from) || Short(m, key, rs, ds, 60.0, rs[0].at)
  {
    var j := |rs| - 1;
    assert rs[..j][1..] == rs[1..][..j - 1] && ds[..j][1..] == ds[1..][..j - 1];
    LevelLater(m, key, from, rs[0].at);
  }

  /** A denied last request: the credit at the start and all since was spent, or some window was short of credit. */
  lemma {:induction false} DeniedIsShort(m: Meter, key: string, rs: seq<Request>, from: real)
    requires rs != [] && rs[|rs| - 1].key == key && Monotone(rs) && from <= rs[0].at && Valid(m, from)
    requires !Ticks(m, rs, false)[|rs| - 1]
    ensures var ds := Ticks(m, rs, false);
            Short(m, key, rs, ds, Level(m, key, from), from) || SomeWindowShort(m, key, rs, ds)
    decreases |rs|
  {
    var r, ds, j := rs[0], Ticks(m, rs, false), |rs| - 1;
    if j == 0 {
      OneDenied(m, key, r, from);
    } else {
      var (next, ok) := Tick(m, r.key, r.at, false);
      var rest, tail := rs[1..], ds[1..];
      assert tail == Ticks(next, rest, false);
      TickPays(m, key, r, from, false);
      DeniedIsShort(next, key, rest, r.at);
      if Short(next, key, rest, tail, Level(next, key, r.at), r.at) {
        ShortBefore(m, key, rs, ds, from);
        assert rs[0..] == rs && ds[0..] == ds;
      } else {
        var i :| 0 <= i < |rest| && Short(next, key, rest[i..], tail[i..], 60.0, rest[i].at);
        assert rest[i..] == rs[i + 1..] && tail[i..] == ds[i + 1..];
        assert Short(m, key, rs[i + 1..], ds[i + 1..], 60.0, rs[i + 1].at);
      }
    }
  }

  // ---- from credit back to tokens ----

  lemma ScaledExcess(spent: real, cost: real, refill: real, dt: real, paid: real)
    requires refill > 0.0 && cost * refill == 1.0 && paid == spent * refill && spent + cost > 60.0 + dt
    ensures paid + 1.0 > 60.0 * refill + dt * refill
  {
    var excess, full, refilled := spent + cost - 60.0 - dt, 60.0 * refill, dt * refill;
    assert excess * refill == paid + 1.0 - full - refilled;
    assert excess * refill > 0.0;
  }

  lemma ShortExceeds(key: string, rs: seq<Request>, ds: seq<bool>, cost: real, refill: real, dt: real)
    requires |rs| == |ds| && Reciprocal(cost, refill) && Spent(key, rs, ds, cost) + cost > 60.0 + dt
    ensures !WithinRate(Granted(key, rs, ds) + 1, 60.0 * refill, refill, dt)
  {
    SpentScales(key, rs, ds, cost, refill);
    ScaledExcess(Spent(key, rs, ds, cost), cost, refill, dt, Granted(key, rs, ds) as real);
  }

  lemma {:induction false} GrantedLast(key: string, rs: seq<Request>, ds: seq<bool>)
    requires rs != [] && |rs| == |ds|
    ensures var j := |rs| - 1;
            Granted(key, rs, ds) == Granted(key, rs[..j], ds[..j]) + if rs[j].key == key && ds[j] then 1 else 0
    decreases |rs|
  {
    if |rs| > 1 {
      var j := |rs| - 1;
      GrantedLast(key, rs[1..], ds[1..]);
      assert rs[1..][..j - 1] == rs[..j][1..] && ds[1..][..j - 1] == ds[..j][1..];
    }
  }

  /** Granting request `j` keeps the window from request `i` within the rate. */
  predicate Fits(capacity: real, refill: real, rs: seq<Request>, ds: seq<bool>, i: nat, j: nat)
    requires i <= j < |rs| == |ds|
  {
    WithinRate(Granted(rs[j].key, rs[i..j], ds[i..j]) + 1, capacity, refill, rs[j].at - rs[i].at)
  }

  lemma BoundFits(l: Limiter, key: string, rs: seq<Request>, ds: seq<bool>, i: nat, j: nat)
    requires i <= j < |rs| == |ds| && rs[j].key == key && ds[j]
    requires WithinRate(Granted(key, rs[i..j + 1], ds[i..j + 1]), l.capacity, l.refill, rs[j + 1 - 1].at - rs[i].at)
    ensures Fits(l.capacity, l.refill, rs, ds, i, j)
  {
    GrantedLast(key, rs[i..j + 1], ds[i..j + 1]);
    assert rs[i..j + 1][..j - i] == rs[i..j] && ds[i..j + 1][..j - i] == ds[i..j];
  }

  /** A limiter and the meter it follows, both of which have seen nothing. */
  predicate Unused(l: Limiter, m: Meter, rs: seq<Request>) {
    rs != [] && Monotone(rs) && Follows(l, m, rs[0].at) && m.credits == map[]
  }

  lemma GrantedFits(l: Limiter, m: Meter, rs: seq<Request>, ds: seq<bool>, i: nat, j: nat)
    requires Unused(l, m, rs) && i <= j < |rs| && ds == Ticks(m, rs, true) && ds[j]
    ensures Fits(l.capacity, l.refill, rs, ds, i, j)
  {
    MeterRate(m, l.refill, rs[j].key, rs, i, j + 1);
    BoundFits(l, rs[j].key, rs, ds, i, j);
  }

  lemma DeniedHasWindow(m: Meter, key: string, rs: seq<Request>, ds: seq<bool>) returns (i: nat)
    requires rs != [] && rs[|rs| - 1].key == key && Monotone(rs) && Valid(m, rs[0].at) && m.credits == map[]
    requires ds == Ticks(m, rs, false) && !ds[|rs| - 1]
    ensures i < |rs| && Short(m, key, rs[i..], ds[i..], 60.0, rs[i].at)
  {
    DeniedIsShort(m, key, rs, rs[0].at);
    assert rs[0..] == rs && ds[0..] == ds;
    i :| 0 <= i < |rs| && Short(m, key, rs[i..], ds[i..], 60.0, rs[i].at);
  }

  lemma ShortWindow(m: Meter, key: string, rs: seq<Request>, ds: seq<bool>, i: nat, j: nat)
    requires i <= j < |rs| == |ds| && Short(m, key, rs[..j + 1][i..], ds[..j + 1][i..], 60.0, rs[i].at)
    ensures Spent(key, rs[i..j], ds[i..j], m.cost) + m.cost > 60.0 + (rs[j].at - rs[i].at)
  {
    assert rs[..j + 1][i..][..j - i] == rs[i..j] && ds[..j + 1][i..][..j - i] == ds[i..j];
  }

  /** From a meter that has seen nothing, a denied request ends a window short of credit. */
  lemma DeniedEndsShortWindow(m: Meter, rs: seq<Request>, ds: seq<bool>, j: nat) returns (i: nat)
    requires Monotone(rs) && j < |rs| && Valid(m, rs[0].at) && m.credits == map[] && ds == Ticks(m, rs, false) && !ds[j]
    ensures i <= j && Spent(rs[j].key, rs[i..j], ds[i..j], m.cost) + m.cost > 60.0 + (rs[j].at - rs[i].at)
  {
    var key, head := rs[j].key, rs[..j + 1];
    TicksPrefix(m, rs, j + 1, false);
    var dh := Ticks(m, head, false);
    i := DeniedHasWindow(m, key, head, dh);
    ShortWindow(m, key, rs, ds, i, j);
  }

  lemma DeniedDoesNotFit(l: Limiter, m: Meter, rs: seq<Request>, ds: seq<bool>, j: nat) returns (i: nat)
    requires Unused(l, m, rs) && j < |rs| && ds == Ticks(m, rs, false) && !ds[j]
    ensures i <= j && !Fits(l.capacity, l.refill, rs, ds, i, j)
  {
    i := DeniedEndsShortWindow(m, rs, ds, j);
    ShortExceeds(rs[j].key, rs[i..j], ds[i..j], m.cost, l.refill, rs[j].at - rs[i].at);
  }

  lemma GrantedIffItFitsFor(l: Limiter, m: Meter, rs: seq<Request>, ds: seq<bool>, j: nat)
    requires Unused(l, m, rs) && j < |rs| && ds == Ticks(m, rs, true)
    ensures ds[j] <==> forall i: nat | i <= j :: Fits(l.capacity, l.refill, rs, ds, i, j)
  {
    SameTicks(m, m, rs, rs[0].at);
    if ds[j] {
      forall i: nat | i <= j { GrantedFits(l, m, rs, ds, i, j); }
    } else {
      var i := DeniedDoesNotFit(l, m, rs, ds, j);
    }
  }

  /**
   For every setting: a request is granted exactly when limiting is disabled, or every window it ends holds at most
   `perMinute` granted requests, itself included, and as many again for every minute of the window's length.
   */
  lemma GrantedIffItFits(perMinute: int, rs: seq<Request>, j: nat)
    requires Monotone(rs) && j < |rs|
    ensures var ds, burst, perSecond := Verdicts(perMinute, rs), perMinute as real, perMinute as real / 60.0;
            ds[j] <==> perMinute <= 0 || forall i: nat | i <= j :: Fits(burst, perSecond, rs, ds, i, j)
  {
    if perMinute > 0 {
      var l := NewLimiter(perMinute).value;
      var m := NewFollows(perMinute, rs[0].at);
      RunFollows(l, m, rs, rs[0].at, true);
      GrantedIffItFitsFor(l, m, rs, Decisions(l, rs, true), j);
    }
  }
}
