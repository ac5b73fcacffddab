/** Budget reservations and settled usage under one hard cap (src/ragbench/core/money.py).
    Money is a whole number of the smallest unit. A fresh reservation identifier is the next unused
    index. Each operation runs under the repository's lock, so it is one step of a run. */
module Budget {
  import opened Results

  datatype Status = Open | Settled | Released | ReconciliationRequired

  datatype Reservation = Reservation(correlation: nat, reserved: int, status: Status, settled: Option<int>)

  datatype Usage = Usage(inputTokens: int, outputTokens: int, billablePages: int, cost: int)

  datatype UsageRecord = UsageRecord(correlation: nat, operation: string, model: string, usage: Usage, cacheHit: bool)

  datatype BudgetError =
    BudgetExceeded | OnlyOpenCanSettle | UnknownReservation | NegativeProjection | CacheHitMustBeFree

  datatype Ledger = Ledger(settledCost: int, reservations: seq<Reservation>, usages: seq<UsageRecord>)

  // ----- amounts in a ledger

  function OpenCost(rs: seq<Reservation>): int {
    if rs == [] then 0
    else
      var k := |rs| - 1;
      OpenCost(rs[..k]) + if rs[k].status == Open then rs[k].reserved else 0
  }

  function SettledAmount(r: Reservation): int {
    if r.settled.Some? then r.settled.value else 0
  }

  function SettledSum(rs: seq<Reservation>): int {
    if rs == [] then 0 else SettledSum(rs[..|rs| - 1]) + SettledAmount(rs[|rs| - 1])
  }

  function UsageSum(us: seq<UsageRecord>): int {
    if us == [] then 0 else UsageSum(us[..|us| - 1]) + us[|us| - 1].usage.cost
  }

  /** By how much a flagged reservation cost more than was reserved for it. */
  function Overrun(r: Reservation): nat {
    if r.status == ReconciliationRequired && SettledAmount(r) > r.reserved then SettledAmount(r) - r.reserved else 0
  }

  function OverrunSum(rs: seq<Reservation>): nat {
    if rs == [] then 0 else OverrunSum(rs[..|rs| - 1]) + Overrun(rs[|rs| - 1])
  }

  function Committed(l: Ledger): int {
    l.settledCost + OpenCost(l.reservations)
  }

  // ----- the operations on a ledger

  datatype Settlement = Settlement(operation: string, model: string, usage: Usage, cacheHit: bool, flagged: bool)

  datatype Op =
    | Reserve(correlation: nat, projected: int)
    | Settle(id: nat, settlement: Settlement)
    | Release(id: nat)
    | CacheHit(correlation: nat, operation: string, model: string, usage: Usage)

  /** The error an operation raises, if any. */
  function Refusal(l: Ledger, op: Op, hardLimit: int): Option<BudgetError> {
    match op
    case Reserve(_, projected) =>
      if projected < 0 then Some(NegativeProjection)
      else if Committed(l) + projected >= hardLimit then Some(BudgetExceeded) else None
    case Settle(id, _) =>
      if id >= |l.reservations| then Some(UnknownReservation)
      else if l.reservations[id].status != Open then Some(OnlyOpenCanSettle) else None
    case Release(id) => if id >= |l.reservations| then Some(UnknownReservation) else None
    case CacheHit(_, _, _, usage) => if usage.cost != 0 then Some(CacheHitMustBeFree) else None
  }

  function Closed(r: Reservation, s: Settlement): Reservation {
    r.(status := if s.flagged || s.usage.cost > r.reserved then ReconciliationRequired else Status.Settled,
       settled := Some(s.usage.cost))
  }

  /** The ledger after an operation; a refused one changes nothing. */
  function Step(l: Ledger, op: Op, hardLimit: int): Ledger {
    if Refusal(l, op, hardLimit).Some? then l
    else
      match op
      case Reserve(correlation, projected) =>
        l.(reservations := l.reservations + [Reservation(correlation, projected, Open, None)])
      case Settle(id, s) =>
        var r := l.reservations[id];
        Ledger(l.settledCost + s.usage.cost,
               l.reservations[id := Closed(r, s)],
               l.usages + [UsageRecord(r.correlation, s.operation, s.model, s.usage, s.cacheHit)])
      case Release(id) =>
        var r := l.reservations[id];
        if r.status == Open then l.(reservations := l.reservations[id := r.(status := Released, settled := Some(0))])
        else l
      case CacheHit(correlation, operation, model, usage) =>
        l.(usages := l.usages + [UsageRecord(correlation, operation, model, usage, true)])
  }

  function Run(l: Ledger, ops: seq<Op>, hardLimit: int): Ledger {
    if ops == [] then l else Step(Run(l, ops[..|ops| - 1], hardLimit), ops[|ops| - 1], hardLimit)
  }

  // ----- the repository and the guard

  class MemoryBudgetRepository {
    var settledCost: int
    var reservations: seq<Reservation>
    var usages: seq<UsageRecord>

    constructor (settledCost: int)
      ensures State() == Ledger(settledCost, [], [])
    {
      this.settledCost := settledCost;
      reservations, usages := [], [];
    }

    function State(): Ledger
      reads this
    {
      Ledger(settledCost, reservations, usages)
    }

    method ReserveAtomic(correlation: nat, projected: int, hardLimit: int) returns (r: Result<nat, BudgetError>)
      modifies this
      ensures r.Ok? <==> old(Committed(State())) + projected < hardLimit
      ensures r.Ok? ==> r.value == |old(reservations)|
      ensures r.Ok? ==>
        State() == old(State()).(reservations := old(reservations) + [Reservation(correlation, projected, Open, None)])
      ensures r.Err? ==> r.error == BudgetExceeded && State() == old(State())
    {
      var openCost := 0;
      for i := 0 to |reservations|
        invariant openCost == OpenCost(reservations[..i])
      {
        assert reservations[..i + 1][..i] == reservations[..i];
        if reservations[i].status == Open {
          openCost := openCost + reservations[i].reserved;
        }
      }
      assert reservations[..|reservations|] == reservations;
      if settledCost + openCost + projected >= hardLimit {
        return Err(BudgetExceeded);
      }
      r := Ok(|reservations|);
      reservations := reservations + [Reservation(correlation, projected, Open, None)];
    }

    method Settle(id: nat, s: Settlement) returns (r: Result<(), BudgetError>)
      modifies this
      ensures (if r.Err? then Some(r.error) else None) == Refusal(old(State()), Op.Settle(id, s), 0)
      ensures State() == Step(old(State()), Op.Settle(id, s), 0)
    {
      if id >= |reservations| {
        return Err(UnknownReservation);
      }
      var reservation := reservations[id];
      if reservation.status != Open {
        return Err(OnlyOpenCanSettle);
      }
      var status := if s.flagged || s.usage.cost > reservation.reserved then ReconciliationRequired else Status.Settled;
      reservations := reservations[id := reservation.(status := status, settled := Some(s.usage.cost))];
      settledCost := settledCost + s.usage.cost;
      usages := usages + [UsageRecord(reservation.correlation, s.operation, s.model, s.usage, s.cacheHit)];
      r := Ok(());
    }

    method Release(id: nat) returns (r: Result<(), BudgetError>)
      modifies this
      ensures (if r.Err? then Some(r.error) else None) == Refusal(old(State()), Op.Release(id), 0)
      ensures State() == Step(old(State()), Op.Release(id), 0)
    {
      if id >= |reservations| {
        return Err(UnknownReservation);
      }
      if reservations[id].status == Open {
        reservations := reservations[id := reservations[id].(status := Released, settled := Some(0))];
      }
      r := Ok(());
    }

    method RecordCacheHit(correlation: nat, operation: string, model: string, usage: Usage)
      returns (r: Result<(), BudgetError>)
      modifies this
      ensures (if r.Err? then Some(r.error) else None) ==
        Refusal(old(State()), CacheHit(correlation, operation, model, usage), 0)
      ensures State() == Step(old(State()), CacheHit(correlation, operation, model, usage), 0)
    {
      if usage.cost != 0 {
        return Err(CacheHitMustBeFree);
      }
      usages := usages + [UsageRecord(correlation, operation, model, usage, true)];
      r := Ok(());
    }
  }

  /** One immutable cap in front of a repository. */
  class BudgetGuard {
    const repository: MemoryBudgetRepository
    const hardLimit: int

    constructor (repository: MemoryBudgetRepository, hardLimit: int)
      ensures this.repository == repository && this.hardLimit == hardLimit
    {
      this.repository := repository;
      this.hardLimit := hardLimit;
    }

    method Reserve(correlation: nat, projected: int) returns (r: Result<nat, BudgetError>)
      modifies repository
      ensures (if r.Err? then Some(r.error) else None) ==
        Refusal(old(repository.State()), Op.Reserve(correlation, projected), hardLimit)
      ensures repository.State() == Step(old(repository.State()), Op.Reserve(correlation, projected), hardLimit)
      ensures r.Ok? ==> r.value == |old(repository.reservations)|
    {
      if projected < 0 {
        return Err(NegativeProjection);
      }
      r := repository.ReserveAtomic(correlation, projected, hardLimit);
    }
  }

  // ----- sums under a change of one reservation

  lemma {:induction false} SumsAfterUpdate(rs: seq<Reservation>, id: nat, r: Reservation)
    requires id < |rs|
    ensures OpenCost(rs[id := r]) == OpenCost(rs)
      - (if rs[id].status == Open then rs[id].reserved else 0) + (if r.status == Open then r.reserved else 0)
    ensures SettledSum(rs[id := r]) == SettledSum(rs) - SettledAmount(rs[id]) + SettledAmount(r)
    ensures OverrunSum(rs[id := r]) == OverrunSum(rs) - Overrun(rs[id]) + Overrun(r)
  {
    var k := |rs| - 1;
    if id == k {
      assert rs[id := r][..k] == rs[..k];
    } else {
      assert rs[id := r][..k] == rs[..k][id := r];
      SumsAfterUpdate(rs[..k], id, r);
    }
  }

  // ----- every run

  /** What holds after any operations from a ledger with nothing reserved and `initial` settled. */
  ghost predicate Sound(l: Ledger, initial: int, hardLimit: int) {
    && (forall i :: 0 <= i < |l.reservations| ==>
          && 0 <= l.reservations[i].reserved
          && (l.reservations[i].status == Open ==> l.reservations[i].settled == None))
    && Committed(l) < hardLimit + OverrunSum(l.reservations)
    && l.settledCost == initial + SettledSum(l.reservations)
    && l.settledCost == initial + UsageSum(l.usages)
  }

  lemma StepSound(l: Ledger, op: Op, initial: int, hardLimit: int)
    requires Sound(l, initial, hardLimit)
    ensures Sound(Step(l, op, hardLimit), initial, hardLimit)
  {
    if Refusal(l, op, hardLimit).None? {
      match op
      case Reserve(correlation, projected) =>
        SumsAfterAppend(l.reservations, Reservation(correlation, projected, Open, None));
      case Settle(id, s) =>
        SettleSound(l, id, s, initial, hardLimit);
      case Release(id) =>
        ReleaseSound(l, id, initial, hardLimit);
      case CacheHit(correlation, operation, model, usage) =>
        UsageAfterAppend(l.usages, UsageRecord(correlation, operation, model, usage, true));
    }
  }

  lemma SettleSound(l: Ledger, id: nat, s: Settlement, initial: int, hardLimit: int)
    requires Sound(l, initial, hardLimit) && id < |l.reservations| && l.reservations[id].status == Open
    ensures Sound(Step(l, Op.Settle(id, s), hardLimit), initial, hardLimit)
  {
    var r := l.reservations[id];
    SumsAfterUpdate(l.reservations, id, Closed(r, s));
    UsageAfterAppend(l.usages, UsageRecord(r.correlation, s.operation, s.model, s.usage, s.cacheHit));
    assert Overrun(Closed(r, s)) >= s.usage.cost - r.reserved;
  }

  lemma ReleaseSound(l: Ledger, id: nat, initial: int, hardLimit: int)
    requires Sound(l, initial, hardLimit) && id < |l.reservations|
    ensures Sound(Step(l, Op.Release(id), hardLimit), initial, hardLimit)
  {
    var r := l.reservations[id];
    if r.status == Open {
      SumsAfterUpdate(l.reservations, id, r.(status := Released, settled := Some(0)));
    }
  }

  lemma SumsAfterAppend(rs: seq<Reservation>, r: Reservation)
    ensures OpenCost(rs + [r]) == OpenCost(rs) + if r.status == Open then r.reserved else 0
    ensures SettledSum(rs + [r]) == SettledSum(rs) + SettledAmount(r)
    ensures OverrunSum(rs + [r]) == OverrunSum(rs) + Overrun(r)
  {
    assert (rs + [r])[..|rs|] == rs;
  }

  lemma UsageAfterAppend(us: seq<UsageRecord>, u: UsageRecord)
    ensures UsageSum(us + [u]) == UsageSum(us) + u.usage.cost
  {
    assert (us + [u])[..|us|] == us;
  }

  /** Budget safety over all runs. Settled plus open cost stays below the cap plus the overruns of
      flagged reservations; so with nothing flagged it stays below the cap. */
  lemma {:induction false} RunSound(initial: int, ops: seq<Op>, hardLimit: int)
    requires initial < hardLimit
    ensures Sound(Run(Ledger(initial, [], []), ops, hardLimit), initial, hardLimit)
  {
    if ops != [] {
      RunSound(initial, ops[..|ops| - 1], hardLimit);
      StepSound(Run(Ledger(initial, [], []), ops[..|ops| - 1], hardLimit), ops[|ops| - 1], initial, hardLimit);
    }
  }

  lemma {:induction false} NoFlagNoOverrun(rs: seq<Reservation>)
    requires forall i :: 0 <= i < |rs| ==> rs[i].status != ReconciliationRequired
    ensures OverrunSum(rs) == 0
  {
    if rs != [] {
      NoFlagNoOverrun(rs[..|rs| - 1]);
    }
  }

  lemma CapHoldsUnlessFlagged(initial: int, ops: seq<Op>, hardLimit: int)
    requires initial < hardLimit
    ensures var l := Run(Ledger(initial, [], []), ops, hardLimit);
      Committed(l) < hardLimit || exists i ::
        0 <= i < |l.reservations| && l.reservations[i].status == ReconciliationRequired
  {
    var l := Run(Ledger(initial, [], []), ops, hardLimit);
    RunSound(initial, ops, hardLimit);
    if forall i :: 0 <= i < |l.reservations| ==> l.reservations[i].status != ReconciliationRequired {
      NoFlagNoOverrun(l.reservations);
    }
  }

  /** A reservation is never forgotten or re-priced, and once it has left "open" it never changes. */
  lemma {:induction false} ReservationsSettleOnce(l: Ledger, ops: seq<Op>, hardLimit: int, id: nat)
    requires id < |l.reservations|
    ensures var after := Run(l, ops, hardLimit).reservations;
      && id < |after|
      && after[id].reserved == l.reservations[id].reserved
      && after[id].correlation == l.reservations[id].correlation
      && (l.reservations[id].status != Open ==> after[id] == l.reservations[id])
  {
    if ops != [] {
      ReservationsSettleOnce(l, ops[..|ops| - 1], hardLimit, id);
    }
  }
}
