/** The paid-call protocol of `generate`: double-checked cache, per-key lock, and reserve / settle / release
    around one provider request (src/ragbench/providers/upstage/client.py). Any number of callers interleave;
    the waits that can be cancelled are the wait for the key's lock and the provider request. */
module PaidCalls {
  import opened Results
  import B = Budget
  import P = Pricing
  import S = Singleflight

  datatype Call = Call(key: string, generation: P.Generation)

  /** The callers, the prices they pay, and the project's budget. */
  datatype Workload = Workload(calls: seq<Call>, terms: P.Terms, initial: int, hardLimit: int)

  datatype Stage =
    | Arrived            // before the first cache look-up
    | Missed             // it found nothing
    | Queued             // waiting for the key's lock
    | Locked             // before the second look-up
    | Unpaid             // it found nothing either
    | Requesting(id: nat)  // reserved; the provider request is under way
    | Answered(id: nat)    // a 2xx response arrived
    | Accepted(id: nat)    // settled; before the cache is written
    | Leaving            // about to leave the lock
    | Finished

  /** `answers` holds the response to each reservation that got one. */
  datatype World = World(
    system: S.System, stages: seq<Stage>, cache: map<string, P.Response>, ledger: B.Ledger,
    sent: multiset<string>, puts: multiset<string>, raised: set<nat>, answers: map<nat, P.Response>)

  datatype Event =
    | LookUp(caller: nat)
    | Enter(caller: nat)
    | Acquire(caller: nat)
    | CancelWait(caller: nat)
    | LookUpAgain(caller: nat)
    | Reserve(caller: nat)
    | RequestRaises(caller: nat)
    | ResponseArrives(caller: nat, response: P.Response)
    | Account(caller: nat)
    | Put(caller: nat)
    | PutRaises(caller: nat)
    | Exit(caller: nat)

  function Keys(calls: seq<Call>): (keys: seq<string>)
    ensures |keys| == |calls|
  {
    seq(|calls|, i requires 0 <= i < |calls| => calls[i].key)
  }

  /** Both declared bounds must be positive. */
  predicate Admissible(g: P.Generation) {
    0 < g.maxInput && 0 < g.maxOutput
  }

  /** The ledger after a hit, which costs nothing; a cached response that can no longer be read or priced
      raises, and nothing is recorded. */
  function HitLedger(l: Workload, ledger: B.Ledger, i: nat, cached: P.Response): B.Ledger
    requires i < |l.calls|
  {
    var g := l.calls[i].generation;
    if cached.Undecodable? || !cached.hasContent then ledger
    else
      match P.GenerationUsage(l.terms, g, cached.prompt, cached.completion)
      case Err(_) => ledger
      case Ok(usage) => B.Step(ledger, B.CacheHit(i, "generate", g.model, usage.(cost := 0)), l.hardLimit)
  }

  function Projected(l: Workload, i: nat): Result<int, P.PriceError>
    requires i < |l.calls|
  {
    P.Projected(l.terms, l.calls[i].generation)
  }

  function Accounting(l: Workload, r: B.Reservation, response: P.Response): Option<B.Settlement>
    requires r.correlation < |l.calls|
  {
    P.Accounting(l.terms, l.calls[r.correlation].generation, r.reserved, response)
  }

  function Moved(w: World, i: nat, to: Stage): World
    requires i < |w.stages|
  {
    w.(stages := w.stages[i := to])
  }

  function Reserved(l: Workload, w: World, i: nat): World
    requires |w.stages| == |l.calls| && i < |l.calls|
  {
    var projected := Projected(l, i);
    if projected.Err? || B.Refusal(w.ledger, B.Reserve(i, projected.value), l.hardLimit).Some? then Moved(w, i, Leaving)
    else
      Moved(w, i, Requesting(|w.ledger.reservations|)).(
        ledger := B.Step(w.ledger, B.Reserve(i, projected.value), l.hardLimit),
        sent := w.sent + multiset{l.calls[i].key})
  }

  /** Settles an answer; a flagged one is not cached, and one that cannot be accounted for leaves its
      reservation as it is. */
  function Charged(l: Workload, w: World, i: nat): World
    requires |w.stages| == |l.calls| && i < |l.calls| && w.stages[i].Answered?
  {
    var id := w.stages[i].id;
    if id >= |w.ledger.reservations| || id !in w.answers || w.ledger.reservations[id].correlation != i then w
    else
      match Accounting(l, w.ledger.reservations[id], w.answers[id])
      case None => Moved(w, i, Leaving)
      case Some(s) =>
        Moved(w, i, if s.flagged then Leaving else Accepted(id)).(
          ledger := B.Step(w.ledger, B.Op.Settle(id, s), l.hardLimit))
  }

  /** A caller's step in the registry, if it can be taken. */
  function Locking(l: Workload, w: World, e: S.Event, to: Stage): World
    requires e.caller < |w.stages|
  {
    if S.Enabled(Keys(l.calls), w.system, e) then Moved(w, e.caller, to).(system := S.Next(Keys(l.calls), w.system, e))
    else w
  }

  /** The world after an event; an event that is not the caller's next one changes nothing. */
  function Next(l: Workload, w: World, e: Event): (t: World)
    requires |w.stages| == |l.calls|
    ensures |t.stages| == |l.calls|
  {
    var i := e.caller;
    if i >= |l.calls| then w
    else
      var at, key := w.stages[i], l.calls[i].key;
      match e
      case LookUp(_) =>
        if !at.Arrived? then w
        else if !Admissible(l.calls[i].generation) then Moved(w, i, Finished)
        else if key in w.cache then Moved(w, i, Finished).(ledger := HitLedger(l, w.ledger, i, w.cache[key]))
        else Moved(w, i, Missed)
      case Enter(_) =>
        if at.Missed? then Locking(l, w, S.Enter(i), Queued) else w
      case Acquire(_) =>
        if at.Queued? then Locking(l, w, S.Acquire(i), Locked) else w
      case CancelWait(_) =>
        if at.Queued? then Locking(l, w, S.CancelWait(i), Finished) else w
      case LookUpAgain(_) =>
        if !at.Locked? then w
        else if key in w.cache then Moved(w, i, Leaving).(ledger := HitLedger(l, w.ledger, i, w.cache[key]))
        else Moved(w, i, Unpaid)
      case Reserve(_) =>
        if !at.Unpaid? then w else Reserved(l, w, i)
      case RequestRaises(_) =>
        if !at.Requesting? then w
        else
          Moved(w, i, Leaving).(
            ledger := B.Step(w.ledger, B.Release(at.id), l.hardLimit),
            raised := w.raised + {at.id})
      case ResponseArrives(_, response) =>
        if !at.Requesting? then w
        else Moved(w, i, Answered(at.id)).(answers := w.answers[at.id := response])
      case Account(_) =>
        if !at.Answered? then w else Charged(l, w, i)
      case Put(_) =>
        if !at.Accepted? || at.id !in w.answers then w
        else Moved(w, i, Leaving).(cache := w.cache[key := w.answers[at.id]], puts := w.puts + multiset{key})
      case PutRaises(_) =>
        if !at.Accepted? then w else Moved(w, i, Leaving)
      case Exit(_) =>
        if at.Leaving? then Locking(l, w, S.Exit(i), Finished) else w
  }

  function Start(l: Workload): World {
    World(S.Start(Keys(l.calls)), seq(|l.calls|, i => Arrived), map[], B.Ledger(l.initial, [], []), multiset{},
      multiset{}, {}, map[])
  }

  /** The world after the events, from the start. */
  function Run(l: Workload, events: seq<Event>): (w: World)
    ensures |w.stages| == |l.calls|
  {
    if events == [] then Start(l) else Next(l, Run(l, events[..|events| - 1]), events[|events| - 1])
  }

  // ----- the invariant

  /** Where the registry must see a caller at each stage. */
  predicate Placed(stage: Stage, c: S.Client) {
    match stage
    case Arrived => c.Outside?
    case Missed => c.Outside?
    case Finished => c.Outside?
    case Queued => c.Waiting?
    case _ => c.Inside?
  }

  ghost predicate RegistryAgrees(l: Workload, w: World) {
    && S.Consistent(Keys(l.calls), w.system)
    && |w.stages| == |l.calls|
    && forall i :: 0 <= i < |l.calls| ==> Placed(w.stages[i], w.system.clients[i])
  }

  /** The reservation a caller is responsible for. */
  function Ticket(stage: Stage): Option<nat> {
    if stage.Requesting? || stage.Answered? then Some(stage.id) else None
  }

  /** The caller of a reservation is between its reserve and its settle or release. */
  predicate Owned(stages: seq<Stage>, r: B.Reservation, id: nat) {
    r.correlation < |stages| && Ticket(stages[r.correlation]) == Some(id)
  }

  function AnswerTo(w: World, id: nat): Option<P.Response> {
    if id in w.answers then Some(w.answers[id]) else None
  }

  /** The reservation is settled as its answer demands. */
  predicate Accounted(l: Workload, r: B.Reservation, response: P.Response)
    requires r.correlation < |l.calls|
  {
    Accounting(l, r, response).Some? && r == B.Closed(r, Accounting(l, r, response).value)
  }

  /** What a reservation's status says: its request raised, its answer was accounted for, or it is open
      because its caller is not done with it, or because its answer could not be accounted for. */
  predicate Explained(l: Workload, r: B.Reservation, raised: bool, answer: Option<P.Response>, owned: bool) {
    && r.correlation < |l.calls| && Projected(l, r.correlation) == Ok(r.reserved)
    && match r.status
       case Open => !raised && (owned || (answer.Some? && Accounting(l, r, answer.value).None?))
       case Released => raised && answer.None? && r.settled == Some(0)
       case _ => !raised && answer.Some? && Accounted(l, r, answer.value)
  }

  ghost predicate TicketsOpen(w: World) {
    var rs := w.ledger.reservations;
    forall i :: 0 <= i < |w.stages| && Ticket(w.stages[i]).Some? ==>
      && w.stages[i].id < |rs|
      && rs[w.stages[i].id].status == B.Open
      && rs[w.stages[i].id].correlation == i
      && (w.stages[i].Answered? <==> w.stages[i].id in w.answers)
  }

  ghost predicate AllExplained(l: Workload, w: World) {
    var rs := w.ledger.reservations;
    forall id :: 0 <= id < |rs| ==> Explained(l, rs[id], id in w.raised, AnswerTo(w, id), Owned(w.stages, rs[id], id))
  }

  ghost predicate MoneyAgrees(l: Workload, w: World) {
    && TicketsOpen(w)
    && AllExplained(l, w)
    && (forall id :: id in w.raised || id in w.answers ==> id < |w.ledger.reservations|)
  }

  /** Between the second look-up and the write to the cache. */
  predicate Paying(stage: Stage) {
    stage.Unpaid? || stage.Requesting? || stage.Answered? || stage.Accepted?
  }

  ghost predicate CacheAgrees(l: Workload, w: World) {
    && |w.stages| == |l.calls|
    && (forall i :: 0 <= i < |l.calls| && Paying(w.stages[i]) ==> l.calls[i].key !in w.cache)
    && (forall k :: w.puts[k] == if k in w.cache then 1 else 0)
  }

  ghost predicate Inv(l: Workload, w: World) {
    RegistryAgrees(l, w) && MoneyAgrees(l, w) && CacheAgrees(l, w) && B.Sound(w.ledger, l.initial, l.hardLimit)
  }

  lemma StageMoves(l: Workload, w: World, t: World, i: nat, to: Stage)
    requires RegistryAgrees(l, w) && i < |l.calls|
    requires t.system == w.system && t.stages == w.stages[i := to] && Placed(to, w.system.clients[i])
    ensures RegistryAgrees(l, t)
  {
  }

  lemma ClientMoves(l: Workload, w: World, t: World, e: S.Event, to: Stage)
    requires RegistryAgrees(l, w) && S.Enabled(Keys(l.calls), w.system, e)
    requires t.system == S.Next(Keys(l.calls), w.system, e) && t.stages == w.stages[e.caller := to]
    requires Placed(to, t.system.clients[e.caller])
    ensures RegistryAgrees(l, t)
  {
    S.NextConsistent(Keys(l.calls), w.system, e);
  }

  lemma NextRegistry(l: Workload, w: World, e: Event)
    requires RegistryAgrees(l, w)
    ensures RegistryAgrees(l, Next(l, w, e))
  {
    var t, i := Next(l, w, e), e.caller;
    if t != w {
      match e
      case Enter(_) => ClientMoves(l, w, t, S.Enter(i), Queued);
      case Acquire(_) => ClientMoves(l, w, t, S.Acquire(i), Locked);
      case CancelWait(_) => ClientMoves(l, w, t, S.CancelWait(i), Finished);
      case Exit(_) => ClientMoves(l, w, t, S.Exit(i), Finished);
      case _ =>
        RegistryRests(l, w, e, w.system.clients[i]);
        StageMoves(l, w, t, i, t.stages[i]);
    }
  }

  /** The other steps are taken outside the registry and do not move a caller in or out. */
  lemma RegistryRests(l: Workload, w: World, e: Event, c: S.Client)
    requires |w.stages| == |l.calls| && Next(l, w, e) != w && !e.Enter? && !e.Acquire? && !e.CancelWait? && !e.Exit?
    ensures var t, i := Next(l, w, e), e.caller;
      && i < |l.calls| && t.system == w.system && t.stages == w.stages[i := t.stages[i]]
      && (Placed(w.stages[i], c) ==> Placed(t.stages[i], c))
  {
  }

  // ----- money moves

  /** Nothing about money changes when a caller without a ticket gets no ticket. */
  lemma NoMoneyMoves(l: Workload, w: World, t: World, i: nat, to: Stage)
    requires MoneyAgrees(l, w) && i < |w.stages| && Ticket(w.stages[i]).None? && Ticket(to).None?
    requires t.stages == w.stages[i := to] && t.ledger.reservations == w.ledger.reservations
    requires t.raised == w.raised && t.answers == w.answers
    ensures MoneyAgrees(l, t)
  {
  }

  lemma ReserveMoves(l: Workload, w: World, t: World, i: nat, r: B.Reservation)
    requires MoneyAgrees(l, w) && |w.stages| == |l.calls| && i < |w.stages| && Ticket(w.stages[i]).None?
    requires r.status == B.Open && r.correlation == i && Projected(l, i) == Ok(r.reserved)
    requires t.stages == w.stages[i := Requesting(|w.ledger.reservations|)]
    requires t.ledger.reservations == w.ledger.reservations + [r]
    requires t.raised == w.raised && t.answers == w.answers
    ensures MoneyAgrees(l, t)
  {
    var rs, n := t.ledger.reservations, |w.ledger.reservations|;
    assert forall id :: 0 <= id < n ==> rs[id] == w.ledger.reservations[id];
    assert Owned(t.stages, rs[n], n);
  }

  lemma AnswerMoves(l: Workload, w: World, t: World, i: nat, response: P.Response)
    requires MoneyAgrees(l, w) && i < |w.stages| && w.stages[i].Requesting?
    requires t.stages == w.stages[i := Answered(w.stages[i].id)]
    requires t.ledger == w.ledger && t.raised == w.raised && t.answers == w.answers[w.stages[i].id := response]
    ensures MoneyAgrees(l, t)
  {
  }

  /** The request of caller `i` raised, and its reservation is released. */
  lemma ReleaseMoves(l: Workload, w: World, t: World, i: nat)
    requires MoneyAgrees(l, w) && i < |w.stages| && w.stages[i].Requesting?
    requires t.stages == w.stages[i := Leaving]
    requires t.ledger == B.Step(w.ledger, B.Release(w.stages[i].id), l.hardLimit)
    requires t.raised == w.raised + {w.stages[i].id} && t.answers == w.answers
    ensures MoneyAgrees(l, t)
  {
  }

  /** The answer to caller `i` is settled. */
  lemma SettleMoves(l: Workload, w: World, t: World, i: nat, to: Stage, s: B.Settlement)
    requires MoneyAgrees(l, w) && i < |w.stages| && w.stages[i].Answered? && Ticket(to).None?
    requires Accounting(l, w.ledger.reservations[w.stages[i].id], w.answers[w.stages[i].id]) == Some(s)
    requires t.stages == w.stages[i := to]
    requires t.ledger == B.Step(w.ledger, B.Op.Settle(w.stages[i].id, s), l.hardLimit)
    requires t.raised == w.raised && t.answers == w.answers
    ensures MoneyAgrees(l, t)
  {
    var id := w.stages[i].id;
    var r := w.ledger.reservations[id];
    assert t.ledger.reservations == w.ledger.reservations[id := B.Closed(r, s)];
  }

  /** The answer to caller `i` cannot be accounted for: the caller leaves its reservation open. */
  lemma StrandMoves(l: Workload, w: World, t: World, i: nat)
    requires MoneyAgrees(l, w) && i < |w.stages| && w.stages[i].Answered?
    requires Accounting(l, w.ledger.reservations[w.stages[i].id], w.answers[w.stages[i].id]).None?
    requires t.stages == w.stages[i := Leaving]
    requires t.ledger == w.ledger && t.raised == w.raised && t.answers == w.answers
    ensures MoneyAgrees(l, t)
  {
  }

  lemma AccountMoves(l: Workload, w: World, i: nat)
    requires |w.stages| == |l.calls| && MoneyAgrees(l, w) && i < |l.calls| && w.stages[i].Answered?
    ensures MoneyAgrees(l, Charged(l, w, i))
  {
    var accounting := Accounting(l, w.ledger.reservations[w.stages[i].id], w.answers[w.stages[i].id]);
    var t := Charged(l, w, i);
    if accounting.None? {
      StrandMoves(l, w, t, i);
    } else {
      SettleMoves(l, w, t, i, t.stages[i], accounting.value);
    }
  }

  lemma ReservedMoves(l: Workload, w: World, i: nat)
    requires |w.stages| == |l.calls| && MoneyAgrees(l, w) && i < |l.calls| && w.stages[i].Unpaid?
    ensures MoneyAgrees(l, Reserved(l, w, i))
  {
    var t := Reserved(l, w, i);
    if t.stages[i].Requesting? {
      ReserveMoves(l, w, t, i, t.ledger.reservations[|w.ledger.reservations|]);
    } else {
      NoMoneyMoves(l, w, t, i, Leaving);
    }
  }

  lemma NextMoney(l: Workload, w: World, e: Event)
    requires |w.stages| == |l.calls| && MoneyAgrees(l, w)
    ensures MoneyAgrees(l, Next(l, w, e))
  {
    var t, i := Next(l, w, e), e.caller;
    if t != w {
      match e
      case Reserve(_) => ReservedMoves(l, w, i);
      case RequestRaises(_) => ReleaseMoves(l, w, t, i);
      case ResponseArrives(_, response) => AnswerMoves(l, w, t, i, response);
      case Account(_) => AccountMoves(l, w, i);
      case _ =>
        QuietLedger(l, w, e);
        NoMoneyMoves(l, w, t, i, t.stages[i]);
    }
  }

  // ----- the cache and the ledger

  /** Two callers of one key are never both past the lock. */
  lemma OneInside(l: Workload, w: World, i: nat, j: nat)
    requires RegistryAgrees(l, w) && i < |l.calls| && j < |l.calls| && l.calls[i].key == l.calls[j].key
    requires w.system.clients[i].Inside? && w.system.clients[j].Inside?
    ensures i == j
  {
    assert Keys(l.calls)[i] == Keys(l.calls)[j];
  }

  lemma NextCache(l: Workload, w: World, e: Event)
    requires RegistryAgrees(l, w) && CacheAgrees(l, w)
    ensures CacheAgrees(l, Next(l, w, e))
  {
    var t, i := Next(l, w, e), e.caller;
    if t != w {
      if e.Put? {
        forall j | 0 <= j < |l.calls| && j != i && Paying(w.stages[j]) ensures l.calls[j].key != l.calls[i].key {
          if l.calls[j].key == l.calls[i].key {
            OneInside(l, w, i, j);
          }
        }
        PutMoves(l, w, t, i);
      } else {
        OnlyPutCaches(l, w, e);
        UncachedMoves(l, w, t, i, t.stages[i]);
      }
    }
  }

  lemma OnlyPutCaches(l: Workload, w: World, e: Event)
    requires |w.stages| == |l.calls| && Next(l, w, e) != w && !e.Put?
    ensures var t, i := Next(l, w, e), e.caller;
      && i < |l.calls| && t.stages == w.stages[i := t.stages[i]] && t.cache == w.cache && t.puts == w.puts
      && (Paying(t.stages[i]) ==> Paying(w.stages[i]) || l.calls[i].key !in w.cache)
  {
  }

  /** A move that leaves the cache alone, and that starts paying only when the key is missing from it. */
  lemma UncachedMoves(l: Workload, w: World, t: World, i: nat, to: Stage)
    requires CacheAgrees(l, w) && i < |l.calls| && t.stages == w.stages[i := to]
    requires t.cache == w.cache && t.puts == w.puts
    requires Paying(to) ==> Paying(w.stages[i]) || l.calls[i].key !in w.cache
    ensures CacheAgrees(l, t)
  {
  }

  lemma PutMoves(l: Workload, w: World, t: World, i: nat)
    requires CacheAgrees(l, w) && i < |l.calls| && Paying(w.stages[i]) && t.stages == w.stages[i := Leaving]
    requires forall j :: 0 <= j < |l.calls| && j != i && Paying(w.stages[j]) ==> l.calls[j].key != l.calls[i].key
    requires t.cache.Keys == w.cache.Keys + {l.calls[i].key} && t.puts == w.puts + multiset{l.calls[i].key}
    ensures CacheAgrees(l, t)
  {
    assert forall k :: k in t.cache <==> k in w.cache || k == l.calls[i].key;
  }

  lemma HitSound(l: Workload, ledger: B.Ledger, i: nat, cached: P.Response)
    requires i < |l.calls| && B.Sound(ledger, l.initial, l.hardLimit)
    ensures B.Sound(HitLedger(l, ledger, i, cached), l.initial, l.hardLimit)
  {
    var after := HitLedger(l, ledger, i, cached);
    if after != ledger {
      var g := l.calls[i].generation;
      var usage := P.GenerationUsage(l.terms, g, cached.prompt, cached.completion).value;
      B.StepSound(ledger, B.CacheHit(i, "generate", g.model, usage.(cost := 0)), l.initial, l.hardLimit);
    }
  }

  lemma NextSound(l: Workload, w: World, e: Event)
    requires |w.stages| == |l.calls| && B.Sound(w.ledger, l.initial, l.hardLimit)
    ensures B.Sound(Next(l, w, e).ledger, l.initial, l.hardLimit)
  {
    var t, i := Next(l, w, e), e.caller;
    if t.ledger != w.ledger {
      var at := w.stages[i];
      match e
      case LookUp(_) => HitSound(l, w.ledger, i, w.cache[l.calls[i].key]);
      case LookUpAgain(_) => HitSound(l, w.ledger, i, w.cache[l.calls[i].key]);
      case Reserve(_) => B.StepSound(w.ledger, B.Reserve(i, Projected(l, i).value), l.initial, l.hardLimit);
      case RequestRaises(_) => B.StepSound(w.ledger, B.Release(at.id), l.initial, l.hardLimit);
      case Account(_) =>
        var s := Accounting(l, w.ledger.reservations[at.id], w.answers[at.id]).value;
        B.StepSound(w.ledger, B.Op.Settle(at.id, s), l.initial, l.hardLimit);
    }
  }

  lemma NextInv(l: Workload, w: World, e: Event)
    requires Inv(l, w)
    ensures Inv(l, Next(l, w, e))
  {
    NextRegistry(l, w, e);
    NextMoney(l, w, e);
    NextCache(l, w, e);
    NextSound(l, w, e);
  }

  lemma {:induction false} RunInv(l: Workload, events: seq<Event>)
    requires l.initial < l.hardLimit
    ensures Inv(l, Run(l, events))
  {
    if events != [] {
      RunInv(l, events[..|events| - 1]);
      NextInv(l, Run(l, events[..|events| - 1]), events[|events| - 1]);
    }
  }

  // ----- what every interleaving guarantees

  /** At most one caller of a key is between its reservation and its cache write. */
  lemma OnePayerPerKey(l: Workload, events: seq<Event>, i: nat, j: nat)
    requires l.initial < l.hardLimit && i < |l.calls| && j < |l.calls| && l.calls[i].key == l.calls[j].key
    requires Paying(Run(l, events).stages[i]) && Paying(Run(l, events).stages[j])
    ensures i == j
  {
    RunInv(l, events);
    OneInside(l, Run(l, events), i, j);
  }

  /** `t` has no payment and no cache write for `key` that `w` had not. */
  predicate NothingNewFor(key: string, w: World, t: World) {
    key in t.cache && t.sent[key] == w.sent[key] && t.puts[key] == w.puts[key]
  }

  lemma RunLonger(l: Workload, before: seq<Event>, events: seq<Event>)
    requires events != []
    ensures Run(l, before + events) == Next(l, Run(l, before + events[..|events| - 1]), events[|events| - 1])
  {
    var k := |events| - 1;
    assert before + events == (before + events[..k]) + [events[k]];
    RunLast(l, before + events[..k], events[k]);
  }

  lemma RunLast(l: Workload, events: seq<Event>, e: Event)
    ensures Run(l, events + [e]) == Next(l, Run(l, events), e)
  {
    assert (events + [e])[..|events|] == events;
  }

  lemma NextNothingNew(l: Workload, w: World, e: Event, key: string)
    requires CacheAgrees(l, w) && key in w.cache
    ensures NothingNewFor(key, w, Next(l, w, e))
  {
  }

  lemma {:induction false} PutStays(l: Workload, before: seq<Event>, events: seq<Event>, key: string)
    requires l.initial < l.hardLimit && key in Run(l, before).cache
    ensures NothingNewFor(key, Run(l, before), Run(l, before + events))
  {
    if events == [] {
      assert before + events == before;
    } else {
      var shorter, last := events[..|events| - 1], events[|events| - 1];
      PutStays(l, before, shorter, key);
      RunInv(l, before + shorter);
      NextNothingNew(l, Run(l, before + shorter), last, key);
      RunLonger(l, before, events);
    }
  }

  /** After a response was cached no further paid request is made for its key, whatever happens; and a
      key is cached at most once. */
  lemma NoPaymentAfterPut(l: Workload, before: seq<Event>, events: seq<Event>, key: string)
    requires l.initial < l.hardLimit && key in Run(l, before).cache
    ensures var w, t := Run(l, before), Run(l, before + events);
      key in t.cache && t.sent[key] == w.sent[key] && t.puts[key] == 1
  {
    PutStays(l, before, events, key);
    RunInv(l, before);
  }

  // ----- how reservations end

  predicate Priced(l: Workload, i: nat) {
    i < |l.calls| && Projected(l, i).Ok?
  }

  /** An answer whose reported usage, and so the fallback for it, is an arithmetic error. */
  predicate Unaccountable(l: Workload, i: nat, response: P.Response)
    requires Priced(l, i)
  {
    P.ProjectedModel(l.terms, l.calls[i].generation);
    P.Unaccountable(l.terms, l.calls[i].generation, response)
  }

  lemma UnaccountableIff(l: Workload, r: B.Reservation, response: P.Response)
    requires Priced(l, r.correlation)
    ensures Accounting(l, r, response).None? <==> Unaccountable(l, r.correlation, response)
  {
    P.ProjectedModel(l.terms, l.calls[r.correlation].generation);
    P.UnaccountableIff(l.terms, l.calls[r.correlation].generation, r.reserved, response);
  }

  /** How a reservation may end: released because the request raised; settled or flagged because it was
      answered; or, for an unaccountable answer and no other, not at all. */
  predicate EndedAs(l: Workload, r: B.Reservation, raised: bool, answer: Option<P.Response>) {
    && Priced(l, r.correlation)
    && (r.status == B.Released <==> raised)
    && (answer.Some? <==> !raised)
    && (r.status == B.Open <==> answer.Some? && Unaccountable(l, r.correlation, answer.value))
  }

  /** Once every caller is done no lock entry is left, every reservation has ended in one of these ways, and
      the settled cost is the initial one plus the settled amounts. */
  lemma Quiescence(l: Workload, events: seq<Event>)
    requires l.initial < l.hardLimit && forall i :: 0 <= i < |l.calls| ==> Run(l, events).stages[i].Finished?
    ensures var w := Run(l, events);
      var rs := w.ledger.reservations;
      && w.system.registry.live == map[]
      && (forall id :: 0 <= id < |rs| ==> EndedAs(l, rs[id], id in w.raised, AnswerTo(w, id)))
      && w.ledger.settledCost == l.initial + B.SettledSum(rs)
      && B.Committed(w.ledger) < l.hardLimit + B.OverrunSum(rs)
  {
    RunInv(l, events);
    var w := Run(l, events);
    NobodyInside(l, w);
    AllEnded(l, w);
  }

  lemma NobodyInside(l: Workload, w: World)
    requires RegistryAgrees(l, w) && forall i :: 0 <= i < |l.calls| ==> w.stages[i].Finished?
    ensures w.system.registry.live == map[]
  {
    forall k | k in w.system.registry.live ensures false {
      S.CountPositive(w.system.clients, w.system.registry.live[k]);
    }
  }

  lemma AllEnded(l: Workload, w: World)
    requires |w.stages| == |l.calls| && MoneyAgrees(l, w) && forall i :: 0 <= i < |w.stages| ==> w.stages[i].Finished?
    ensures forall id :: 0 <= id < |w.ledger.reservations| ==>
      EndedAs(l, w.ledger.reservations[id], id in w.raised, AnswerTo(w, id))
  {
    forall id | 0 <= id < |w.ledger.reservations|
      ensures EndedAs(l, w.ledger.reservations[id], id in w.raised, AnswerTo(w, id))
    {
      var r := w.ledger.reservations[id];
      assert !Owned(w.stages, r, id);
      if id in w.answers {
        UnaccountableIff(l, r, w.answers[id]);
      }
    }
  }

  /** The answer that came for this reservation cannot be accounted for. */
  predicate Spoiled(l: Workload, w: World, id: nat) {
    && id < |w.ledger.reservations| && Priced(l, w.ledger.reservations[id].correlation)
    && id in w.answers && Unaccountable(l, w.ledger.reservations[id].correlation, w.answers[id])
  }

  /** Nothing is left open exactly when every answer could be accounted for. */
  lemma NothingStrandedIff(l: Workload, events: seq<Event>)
    requires l.initial < l.hardLimit && forall i :: 0 <= i < |l.calls| ==> Run(l, events).stages[i].Finished?
    ensures var w := Run(l, events);
      B.OpenCost(w.ledger.reservations) == 0 && (forall r :: r in w.ledger.reservations ==> r.status != B.Open)
      <==> forall id :: id in w.answers ==> !Spoiled(l, w, id)
  {
    Quiescence(l, events);
    var w := Run(l, events);
    var rs := w.ledger.reservations;
    forall id | 0 <= id < |rs| ensures rs[id].status == B.Open <==> Spoiled(l, w, id) {
      assert EndedAs(l, rs[id], id in w.raised, AnswerTo(w, id));
    }
    NothingOpen(rs);
  }

  lemma {:induction false} NothingOpen(rs: seq<B.Reservation>)
    ensures (forall r :: r in rs ==> r.status != B.Open) ==> B.OpenCost(rs) == 0
  {
    if rs != [] {
      NothingOpen(rs[..|rs| - 1]);
      assert forall r :: r in rs[..|rs| - 1] ==> r in rs;
    }
  }

  /** An open reservation without a caller: nothing that happens later closes it. */
  lemma NextStays(l: Workload, w: World, e: Event, id: nat)
    requires |w.stages| == |l.calls| && TicketsOpen(w)
    requires id < |w.ledger.reservations| && !Owned(w.stages, w.ledger.reservations[id], id)
    ensures var t := Next(l, w, e);
      && id < |t.ledger.reservations| && t.ledger.reservations[id] == w.ledger.reservations[id]
      && !Owned(t.stages, t.ledger.reservations[id], id)
  {
    var i := e.caller;
    match e
    case Reserve(_) =>
    case RequestRaises(_) =>
    case ResponseArrives(_, _) =>
    case Account(_) =>
    case _ => QuietLedger(l, w, e);
  }

  /** No money moves: only a caller without a ticket moved on, and got none. */
  predicate Quiet(l: Workload, w: World, t: World, i: nat)
    requires |w.stages| == |l.calls| == |t.stages|
  {
    && t.ledger.reservations == w.ledger.reservations && t.raised == w.raised && t.answers == w.answers
    && (t != w ==>
          && i < |l.calls| && t.stages == w.stages[i := t.stages[i]]
          && Ticket(w.stages[i]).None? && Ticket(t.stages[i]).None?)
  }

  lemma QuietLedger(l: Workload, w: World, e: Event)
    requires |w.stages| == |l.calls| && !e.Reserve? && !e.RequestRaises? && !e.ResponseArrives? && !e.Account?
    ensures Quiet(l, w, Next(l, w, e), e.caller)
  {
    if e.LookUp? || e.LookUpAgain? {
      HitsQuiet(l, w, e);
    } else {
      LocksQuiet(l, w, e);
    }
  }

  lemma HitsQuiet(l: Workload, w: World, e: Event)
    requires |w.stages| == |l.calls| && (e.LookUp? || e.LookUpAgain?)
    ensures Quiet(l, w, Next(l, w, e), e.caller)
  {
    HitsKeep(l, w, e.caller);
  }

  lemma LocksQuiet(l: Workload, w: World, e: Event)
    requires |w.stages| == |l.calls| && (e.Enter? || e.Acquire? || e.CancelWait? || e.Exit? || e.Put? || e.PutRaises?)
    ensures Quiet(l, w, Next(l, w, e), e.caller)
  {
  }

  lemma HitsKeep(l: Workload, w: World, i: nat)
    ensures i < |l.calls| && l.calls[i].key in w.cache ==>
      HitLedger(l, w.ledger, i, w.cache[l.calls[i].key]).reservations == w.ledger.reservations
  {
  }

  lemma {:induction false} OpenAtLeast(rs: seq<B.Reservation>, id: nat)
    requires id < |rs| && rs[id].status == B.Open && forall k :: 0 <= k < |rs| ==> 0 <= rs[k].reserved
    ensures rs[id].reserved <= B.OpenCost(rs)
  {
    var n := |rs| - 1;
    if id < n {
      OpenAtLeast(rs[..n], id);
    } else {
      OpenNonnegative(rs[..n]);
    }
  }

  lemma {:induction false} OpenNonnegative(rs: seq<B.Reservation>)
    requires forall k :: 0 <= k < |rs| ==> 0 <= rs[k].reserved
    ensures 0 <= B.OpenCost(rs)
  {
    if rs != [] {
      OpenNonnegative(rs[..|rs| - 1]);
    }
  }

  /** An open reservation whose caller is done with it. */
  predicate Stranded(w: World, id: nat) {
    var rs := w.ledger.reservations;
    id < |rs| && rs[id].status == B.Open && !Owned(w.stages, rs[id], id)
  }

  lemma {:induction false} StaysStranded(l: Workload, before: seq<Event>, events: seq<Event>, id: nat)
    requires l.initial < l.hardLimit && Stranded(Run(l, before), id)
    ensures Stranded(Run(l, before + events), id)
    ensures Run(l, before + events).ledger.reservations[id] == Run(l, before).ledger.reservations[id]
  {
    if events == [] {
      assert before + events == before;
    } else {
      var shorter, last := events[..|events| - 1], events[|events| - 1];
      StaysStranded(l, before, shorter, id);
      RunInv(l, before + shorter);
      NextStays(l, Run(l, before + shorter), last, id);
      RunLonger(l, before, events);
    }
  }

  /** It stays open for good, and its amount stays committed. */
  lemma StrandedForGood(l: Workload, before: seq<Event>, events: seq<Event>, id: nat)
    requires l.initial < l.hardLimit && Stranded(Run(l, before), id)
    ensures var w, t := Run(l, before), Run(l, before + events);
      && Stranded(t, id) && t.ledger.reservations[id] == w.ledger.reservations[id]
      && t.ledger.settledCost + w.ledger.reservations[id].reserved <= B.Committed(t.ledger)
  {
    StaysStranded(l, before, events, id);
    RunInv(l, before + events);
    OpenAtLeast(Run(l, before + events).ledger.reservations, id);
  }

  /** The steps of one call that is answered. */
  function AnsweredCall(response: P.Response): seq<Event> {
    [LookUp(0), Enter(0), Acquire(0), LookUpAgain(0), Reserve(0), ResponseArrives(0, response), Account(0), Exit(0)]
  }

  lemma RunNext(l: Workload, events: seq<Event>, k: nat)
    requires k < |events|
    ensures Run(l, events[..k + 1]) == Next(l, Run(l, events[..k]), events[k])
  {
    assert events[..k + 1] == events[..k] + [events[k]];
    RunLast(l, events[..k], events[k]);
  }

  /** One caller, before anything was cached, reserved or answered. */
  predicate Alone(l: Workload, w: World, at: Stage, client: S.Client) {
    && |l.calls| == 1 && w.stages == [at] && w.system.clients == [client]
    && w.cache == map[] && w.answers == map[] && w.ledger == B.Ledger(l.initial, [], [])
    && w.system.registry ==
       if client.Outside? then S.Registry(map[], [])
       else S.Registry(map[l.calls[0].key := 0], [S.Entry(1, if client.Inside? then Some(0) else None)])
  }

  lemma AloneLooksUp(l: Workload, w: World)
    requires Alone(l, w, Arrived, S.Outside) && Admissible(l.calls[0].generation)
    ensures Alone(l, Next(l, w, LookUp(0)), Missed, S.Outside)
  {
  }

  lemma AloneEnters(l: Workload, w: World)
    requires Alone(l, w, Missed, S.Outside)
    ensures Alone(l, Next(l, w, Enter(0)), Queued, S.Waiting(0))
  {
    assert Keys(l.calls)[0] == l.calls[0].key;
  }

  lemma AloneAcquires(l: Workload, w: World)
    requires Alone(l, w, Queued, S.Waiting(0))
    ensures Alone(l, Next(l, w, Acquire(0)), Locked, S.Inside(0))
  {
  }

  lemma AloneReserves(l: Workload, w: World, projected: nat)
    requires Alone(l, w, Locked, S.Inside(0)) && Projected(l, 0) == Ok(projected) && l.initial + projected < l.hardLimit
    ensures var t := Next(l, Next(l, w, LookUpAgain(0)), Reserve(0));
      && t.stages == [Requesting(0)] && t.answers == map[] && t.system == w.system
      && t.ledger == B.Ledger(l.initial, [B.Reservation(0, projected, B.Open, None)], [])
  {
    assert B.OpenCost([]) == 0;
    assert Alone(l, Next(l, w, LookUpAgain(0)), Unpaid, S.Inside(0));
  }

  lemma AnswerStrands(l: Workload, w: World, response: P.Response, r: B.Reservation)
    requires |l.calls| == 1 && w.stages == [Requesting(0)] && w.answers == map[] && w.ledger.reservations == [r]
    requires r.correlation == 0
    requires Accounting(l, r, response).None?
    ensures var t := Next(l, Next(l, w, ResponseArrives(0, response)), Account(0));
      t.stages == [Leaving] && t.ledger == w.ledger && t.system == w.system
  {
  }

  lemma AloneExits(l: Workload, w: World)
    requires |l.calls| == 1 && w.stages == [Leaving] && w.system.clients == [S.Inside(0)]
    requires |w.system.registry.entries| == 1
    ensures var t := Next(l, w, Exit(0)); t.stages == [Finished] && t.ledger == w.ledger
  {
  }

  /** Every unaccountable answer strands its reservation: the call raises, its lock is free, and the
      projected cost stays open. */
  lemma UnaccountableStrands(l: Workload, response: P.Response, projected: nat)
    requires |l.calls| == 1 && Admissible(l.calls[0].generation) && Projected(l, 0) == Ok(projected)
    requires l.initial + projected < l.hardLimit && Unaccountable(l, 0, response)
    ensures var w := Run(l, AnsweredCall(response));
      && w.stages == [Finished]
      && w.ledger == B.Ledger(l.initial, [B.Reservation(0, projected, B.Open, None)], [])
  {
    var events := AnsweredCall(response);
    ReachesLock(l, events);
    ReachesRequest(l, events, projected);
    UnaccountableIff(l, B.Reservation(0, projected, B.Open, None), response);
    LeavesOpen(l, events, Run(l, events[..5]), response, B.Reservation(0, projected, B.Open, None));
    assert events[..8] == events;
  }

  lemma ReachesMiss(l: Workload, events: seq<Event>)
    requires |l.calls| == 1 && Admissible(l.calls[0].generation) && events != [] && events[0] == LookUp(0)
    ensures Alone(l, Run(l, events[..1]), Missed, S.Outside)
  {
    assert events[..0] == [];
    RunNext(l, events, 0);
    AloneLooksUp(l, Start(l));
  }

  lemma ReachesLock(l: Workload, events: seq<Event>)
    requires |l.calls| == 1 && Admissible(l.calls[0].generation)
    requires |events| >= 3 && events[0] == LookUp(0) && events[1] == Enter(0) && events[2] == Acquire(0)
    ensures Alone(l, Run(l, events[..3]), Locked, S.Inside(0))
  {
    ReachesMiss(l, events);
    RunNext(l, events, 1);
    AloneEnters(l, Run(l, events[..1]));
    RunNext(l, events, 2);
    AloneAcquires(l, Run(l, events[..2]));
  }

  lemma ReachesRequest(l: Workload, events: seq<Event>, projected: nat)
    requires |events| >= 5 && Alone(l, Run(l, events[..3]), Locked, S.Inside(0)) && events[3] == LookUpAgain(0)
    requires events[4] == Reserve(0)
    requires Projected(l, 0) == Ok(projected) && l.initial + projected < l.hardLimit
    ensures var t := Run(l, events[..5]);
      && t.stages == [Requesting(0)] && t.answers == map[] && t.system.clients == [S.Inside(0)]
      && |t.system.registry.entries| == 1
      && t.ledger == B.Ledger(l.initial, [B.Reservation(0, projected, B.Open, None)], [])
  {
    RunNext(l, events, 3);
    RunNext(l, events, 4);
    AloneReserves(l, Run(l, events[..3]), projected);
  }

  lemma LeavesOpen(l: Workload, events: seq<Event>, w: World, response: P.Response, r: B.Reservation)
    requires |events| >= 8 && w == Run(l, events[..5])
    requires events[5] == ResponseArrives(0, response) && events[6] == Account(0) && events[7] == Exit(0)
    requires |l.calls| == 1 && w.stages == [Requesting(0)] && w.answers == map[] && w.ledger.reservations == [r]
    requires r.correlation == 0
    requires w.system.clients == [S.Inside(0)] && |w.system.registry.entries| == 1 && Accounting(l, r, response).None?
    ensures var t := Run(l, events[..8]); t.stages == [Finished] && t.ledger == w.ledger
  {
    RunNext(l, events, 5);
    RunNext(l, events, 6);
    AnswerStrands(l, w, response, r);
    RunNext(l, events, 7);
    AloneExits(l, Run(l, events[..7]));
  }

  /** A count of infinity, which a JSON number like 1e999 decodes to, is enough. */
  lemma InfiniteCountStrands(l: Workload, completion: P.Reported, projected: nat)
    requires |l.calls| == 1 && Admissible(l.calls[0].generation) && Projected(l, 0) == Ok(projected)
    requires l.initial + projected < l.hardLimit
    ensures var w := Run(l, AnsweredCall(P.Decoded(true, P.Infinite, completion)));
      w.stages == [Finished] && w.ledger.reservations == [B.Reservation(0, projected, B.Open, None)]
  {
    UnaccountableStrands(l, P.Decoded(true, P.Infinite, completion), projected);
  }

  // ----- answers within their declared bounds

  /** Every answer reports counts within the bounds its call declared. */
  ghost predicate AllBounded(l: Workload, w: World) {
    var rs := w.ledger.reservations;
    forall id :: id in w.answers ==>
      id < |rs| && rs[id].correlation < |l.calls| && P.Bounded(l.calls[rs[id].correlation].generation, w.answers[id])
  }

  lemma BoundedReservation(l: Workload, r: B.Reservation, raised: bool, answer: Option<P.Response>, owned: bool)
    requires P.RatesNonnegative(l.terms.book) && 0.0 <= l.terms.multiplier
    requires 0 <= r.reserved && Explained(l, r, raised, answer, owned)
    requires answer.Some? ==> P.Bounded(l.calls[r.correlation].generation, answer.value)
    requires r.status == B.Open ==> r.settled == None
    ensures B.SettledAmount(r) <= r.reserved && B.Overrun(r) == 0
    ensures r.status == B.ReconciliationRequired ==> answer.Some? && P.Unusable(answer.value)
  {
    if answer.Some? {
      P.BoundedUsageSettles(l.terms, l.calls[r.correlation].generation, r, answer.value);
    }
  }

  lemma {:induction false} NoOverrunSum(rs: seq<B.Reservation>)
    requires forall id :: 0 <= id < |rs| ==> B.Overrun(rs[id]) == 0
    ensures B.OverrunSum(rs) == 0
  {
    if rs != [] {
      NoOverrunSum(rs[..|rs| - 1]);
    }
  }

  /** Budget safety of whole runs: at rates that are not negative, and as long as answers stay within the
      declared bounds, committed cost stays below the cap at every moment; no reservation costs more than was
      reserved, and none is flagged for its cost. */
  lemma BoundedAnswersKeepCap(l: Workload, events: seq<Event>)
    requires l.initial < l.hardLimit && P.RatesNonnegative(l.terms.book) && 0.0 <= l.terms.multiplier
    requires AllBounded(l, Run(l, events))
    ensures var w := Run(l, events);
      var rs := w.ledger.reservations;
      && B.Committed(w.ledger) < l.hardLimit
      && (forall id :: 0 <= id < |rs| ==> B.SettledAmount(rs[id]) <= rs[id].reserved)
      && (forall id :: 0 <= id < |rs| && rs[id].status == B.ReconciliationRequired ==>
        id in w.answers && P.Unusable(w.answers[id]))
  {
    RunInv(l, events);
    var w := Run(l, events);
    var rs := w.ledger.reservations;
    forall id | 0 <= id < |rs|
      ensures B.SettledAmount(rs[id]) <= rs[id].reserved && B.Overrun(rs[id]) == 0
      ensures rs[id].status == B.ReconciliationRequired ==> id in w.answers && P.Unusable(w.answers[id])
    {
      BoundedReservation(l, rs[id], id in w.raised, AnswerTo(w, id), Owned(w.stages, rs[id], id));
    }
    NoOverrunSum(rs);
  }
}
