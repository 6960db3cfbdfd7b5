/**
 Seats as a ledger kept from the requests alone (internal/service/seats.go): who holds a seat and what the limit is
 after any run, and so exactly when a new seat is granted.
 */
module SeatLedger {
  import opened AuthzModel
  import opened TupleKeys
  import opened Store
  import opened Seats
  import opened Requests
  import opened SeatRuns

  /** A request about `sku` that the shard serves: addressed to it, in an active project, with its names given. */
  predicate Serves(c: Call, sk: string, sku: string) {
    && c.Call? && sk == Scope(c.project, c.tenant) && c.active && AboutSeats(c.req) && c.req.sku == sku && sku != ""
    && (c.req.Limit? || c.req.user != "")
  }

  predicate Room(limit: Option<int>, inUse: nat) {
    limit.None? || inUse < limit.value
  }

  function NextLimit(limit: Option<int>, c: Call, sk: string, sku: string): Option<int> {
    if Serves(c, sk, sku) && c.req.Limit? && (c.req.limit.None? || c.req.limit.value >= 0) then c.req.limit else limit
  }

  function NextHeld(limit: Option<int>, held: set<string>, c: Call, sk: string, sku: string): set<string> {
    if c.Deprovision? then (if c.user != "" && InProject(sk, c.project) then held - {c.user} else held)
    else if !Serves(c, sk, sku) then held
    else match c.req
      case Assign(_, u) => if Room(limit, |held|) then held + {u} else held
      case Unassign(_, u) => held - {u}
      case _ => held
  }

  /** The limit of the last accepted setting; none if there was none or it cleared the limit. */
  function LimitAfter(calls: seq<Call>, sk: string, sku: string): Option<int>
    decreases |calls|
  {
    if calls == [] then None
    else NextLimit(LimitAfter(calls[..|calls| - 1], sk, sku), calls[|calls| - 1], sk, sku)
  }

  /** The holders: those given a seat while there was room, less those unassigned or deprovisioned since. */
  function HeldAfter(calls: seq<Call>, sk: string, sku: string): set<string>
    decreases |calls|
  {
    if calls == [] then {}
    else
      var before := calls[..|calls| - 1];
      NextHeld(LimitAfter(before, sk, sku), HeldAfter(before, sk, sku), calls[|calls| - 1], sk, sku)
  }

  function LimitIn(sh: Shard, sku: string): Option<int> {
    if sku in sh.seatLimits then Some(sh.seatLimits[sku]) else None
  }

  /** What the shard keeps for a sku is what the ledger says. */
  predicate Follows(sh: Shard, sku: string, limit: Option<int>, held: set<string>) {
    Holders(sh, sku) == held && LimitIn(sh, sku) == limit
  }

  lemma LimitFollows(sh: Shard, active: bool, sku: string, limit: Option<int>, other: string)
    ensures var sh' := SetSeatLimit(sh, active, sku, limit).0;
            && Holders(sh', other) == Holders(sh, other)
            && LimitIn(sh', other) ==
               if active && other == sku && sku != "" && (limit.None? || limit.value >= 0) then limit
               else LimitIn(sh, other)
  {
  }

  lemma AssignFollows(sh: Shard, active: bool, sku: string, u: string, other: string)
    ensures var (sh', reply) := AssignSeat(sh, active, sku, u);
            var granted := active && sku != "" && u != "" && Room(LimitIn(sh, sku), |Holders(sh, sku)|);
            && LimitIn(sh', other) == LimitIn(sh, other)
            && Holders(sh', other) == (if granted && other == sku then Holders(sh, other) + {u} else Holders(sh, other))
            && (reply.Newly? <==> granted && u !in Holders(sh, sku))
  {
    if u in Holders(sh, sku) { assert Holders(sh, sku) + {u} == Holders(sh, sku); }
  }

  lemma UnassignFollows(sh: Shard, active: bool, sku: string, u: string, other: string)
    ensures var sh' := RevokeSeat(sh, active, sku, u).0;
            && LimitIn(sh', other) == LimitIn(sh, other)
            && Holders(sh', other) ==
               if active && other == sku && sku != "" && u != "" then Holders(sh, other) - {u} else Holders(sh, other)
  {
  }

  lemma SeatServeFollows(sh: Shard, c: Call, sk: string, sku: string)
    requires c.Call? && AboutSeats(c.req) && sk == Scope(c.project, c.tenant)
    ensures var limit, held := LimitIn(sh, sku), Holders(sh, sku);
            Follows(Serve(sh, c).0, sku, NextLimit(limit, c, sk, sku), NextHeld(limit, held, c, sk, sku))
  {
    var sh' := Serve(sh, c).0;
    match c.req
    case Limit(x, limit) =>
      assert sh' == SetSeatLimit(sh, c.active, x, limit).0;
      LimitFollows(sh, c.active, x, limit, sku);
    case Assign(x, u) =>
      assert sh' == AssignSeat(sh, c.active, x, u).0;
      AssignFollows(sh, c.active, x, u, sku);
    case Unassign(x, u) =>
      assert sh' == RevokeSeat(sh, c.active, x, u).0;
      UnassignFollows(sh, c.active, x, u, sku);
  }

  lemma EraseFollows(sh: Shard, u: string, sku: string)
    ensures Holders(EraseUser(sh, u), sku) == Holders(sh, sku) - {u}
    ensures LimitIn(EraseUser(sh, u), sku) == LimitIn(sh, sku)
  {
  }

  /** After every run of any requests: the shard keeps exactly the ledger. */
  lemma {:induction false} LedgerIsKept(calls: seq<Call>, sk: string, sku: string)
    ensures Follows(At(Run(map[], calls), sk), sku, LimitAfter(calls, sk, sku), HeldAfter(calls, sk, sku))
    decreases |calls|
  {
    if calls != [] {
      var before, c := calls[..|calls| - 1], calls[|calls| - 1];
      var sh := At(Run(map[], before), sk);
      LedgerIsKept(before, sk, sku);
      StepIsLocal(Run(map[], before), c, sk);
      if c.Deprovision? {
        EraseFollows(sh, c.user, sku);
      } else if sk == Scope(c.project, c.tenant) {
        if AboutSeats(c.req) {
          SeatServeFollows(sh, c, sk, sku);
        } else {
          SeatsAlwaysInStep(before, sk);
          RolesOffSeats();
          ServeAside(SEAT_NAMESPACE, sh, c);
        }
      }
    }
  }

  /**
   After every run: a request for a seat is granted a new one exactly when the user holds none and fewer are in use
   than the last accepted limit, if there is one.
   */
  lemma SeatGrantedIff(calls: seq<Call>, sk: string, active: bool, sku: string, u: string)
    ensures AssignSeat(At(Run(map[], calls), sk), active, sku, u).1.Newly? <==>
              && active && sku != "" && u != "" && u !in HeldAfter(calls, sk, sku)
              && (LimitAfter(calls, sk, sku).None? || |HeldAfter(calls, sk, sku)| < LimitAfter(calls, sk, sku).value)
  {
    LedgerIsKept(calls, sk, sku);
    AssignFollows(At(Run(map[], calls), sk), active, sku, u, sku);
  }
}
