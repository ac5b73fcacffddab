/** What callers of the paid-call protocol get for their money (src/ragbench/providers/upstage/client.py): which
    answers the cache holds, what a hit records, how many requests were paid, and that no caller is stuck. */
module PaidAnswers {
  import opened Results
  import opened PaidCalls
  import B = Budget
  import P = Pricing
  import S = Singleflight

  // ----- where cached answers come from

  /** The reservation was settled as its answer demands, and the answer was usable. */
  predicate Kept(l: Workload, r: B.Reservation, answer: P.Response) {
    && r.correlation < |l.calls| && Accounted(l, r, answer)
    && !Accounting(l, r, answer).value.flagged
  }

  /** Reservation `id` paid for an answer to `key`. */
  ghost predicate PaidFor(l: Workload, w: World, key: string, id: nat) {
    var rs := w.ledger.reservations;
    id < |rs| && id in w.answers && Kept(l, rs[id], w.answers[id]) && l.calls[rs[id].correlation].key == key
  }

  ghost predicate CachedFrom(l: Workload, w: World, key: string) {
    key in w.cache && exists id :: PaidFor(l, w, key, id) && w.answers[id] == w.cache[key]
  }

  ghost predicate AcceptedPaid(l: Workload, w: World) {
    forall i :: 0 <= i < |w.stages| && i < |l.calls| && w.stages[i].Accepted? ==>
      PaidFor(l, w, l.calls[i].key, w.stages[i].id) && w.ledger.reservations[w.stages[i].id].correlation == i
  }

  ghost predicate CachePaid(l: Workload, w: World) {
    forall key :: key in w.cache ==> CachedFrom(l, w, key)
  }

  ghost predicate AnswersAgree(l: Workload, w: World) {
    AcceptedPaid(l, w) && CachePaid(l, w)
  }

  /** A settled reservation and its answer never change. */
  lemma PaidStays(l: Workload, w: World, e: Event, key: string, id: nat)
    requires |w.stages| == |l.calls| && TicketsOpen(w) && PaidFor(l, w, key, id)
    ensures var t := Next(l, w, e);
      PaidFor(l, t, key, id) && t.answers[id] == w.answers[id] && t.ledger.reservations[id] == w.ledger.reservations[id]
  {
    assert w.ledger.reservations[id].status != B.Open;
    NextStays(l, w, e, id);
    AnswerStays(l, w, e, id);
  }

  lemma AnswerStays(l: Workload, w: World, e: Event, id: nat)
    requires |w.stages| == |l.calls| && TicketsOpen(w)
    requires id < |w.ledger.reservations| && w.ledger.reservations[id].status != B.Open && id in w.answers
    ensures var t := Next(l, w, e); id in t.answers && t.answers[id] == w.answers[id]
  {
  }

  /** Settling is the only way to become accepted. */
  lemma OnlySettlingAccepts(l: Workload, w: World, e: Event, j: nat)
    requires |w.stages| == |l.calls| && j < |l.calls| && Next(l, w, e).stages[j].Accepted?
    ensures w.stages[j] == Next(l, w, e).stages[j] || (e.Account? && e.caller == j && w.stages[j].Answered?)
  {
  }

  lemma SettledIsPaid(l: Workload, w: World, i: nat)
    requires |w.stages| == |l.calls| && MoneyAgrees(l, w) && i < |l.calls| && w.stages[i].Answered?
    ensures var t, id := Charged(l, w, i), w.stages[i].id;
      t.stages[i].Accepted? ==>
        && t.stages[i].id == id && PaidFor(l, t, l.calls[i].key, id) && t.ledger.reservations[id].correlation == i
  {
    var id := w.stages[i].id;
    var r := w.ledger.reservations[id];
    if Accounting(l, r, w.answers[id]).Some? {
      var s := Accounting(l, r, w.answers[id]).value;
      assert Charged(l, w, i).ledger.reservations == w.ledger.reservations[id := B.Closed(r, s)];
    }
  }

  lemma NextAccepted(l: Workload, w: World, e: Event)
    requires Inv(l, w) && AnswersAgree(l, w)
    ensures AcceptedPaid(l, Next(l, w, e))
  {
    var t := Next(l, w, e);
    forall j | 0 <= j < |t.stages| && j < |l.calls| && t.stages[j].Accepted?
      ensures PaidFor(l, t, l.calls[j].key, t.stages[j].id) && t.ledger.reservations[t.stages[j].id].correlation == j
    {
      OnlySettlingAccepts(l, w, e, j);
      if w.stages[j] == t.stages[j] {
        PaidStays(l, w, e, l.calls[j].key, t.stages[j].id);
      } else {
        SettledIsPaid(l, w, j);
      }
    }
  }

  /** The cache gets new entries from a put only, and then the accepted answer. */
  lemma NextEntry(l: Workload, w: World, e: Event, key: string)
    requires |w.stages| == |l.calls| && key in Next(l, w, e).cache
    ensures var t, i := Next(l, w, e), e.caller;
      || (key in w.cache && t.cache[key] == w.cache[key])
      || (i < |l.calls| && w.stages[i].Accepted? && key == l.calls[i].key
          && w.stages[i].id in w.answers && t.cache[key] == w.answers[w.stages[i].id])
  {
  }

  lemma NextCached(l: Workload, w: World, e: Event)
    requires Inv(l, w) && AnswersAgree(l, w)
    ensures CachePaid(l, Next(l, w, e))
  {
    var t := Next(l, w, e);
    forall key | key in t.cache ensures CachedFrom(l, t, key) {
      NextEntry(l, w, e, key);
      if key in w.cache && t.cache[key] == w.cache[key] {
        var id :| PaidFor(l, w, key, id) && w.answers[id] == w.cache[key];
        PaidStays(l, w, e, key, id);
      } else {
        PaidStays(l, w, e, key, w.stages[e.caller].id);
      }
    }
  }

  lemma {:induction false} RunAnswers(l: Workload, events: seq<Event>)
    requires l.initial < l.hardLimit
    ensures Inv(l, Run(l, events)) && AnswersAgree(l, Run(l, events))
  {
    RunInv(l, events);
    if events != [] {
      var before, e := events[..|events| - 1], events[|events| - 1];
      RunAnswers(l, before);
      NextAccepted(l, Run(l, before), e);
      NextCached(l, Run(l, before), e);
    }
  }

  /** Settled for what it cost, and flagged for nothing but that. */
  predicate SettledUnflagged(r: B.Reservation) {
    r.settled.Some? && r.status == if r.settled.value > r.reserved then B.ReconciliationRequired else B.Status.Settled
  }

  /** The answer has its text, and counts that are numbers and not negative. */
  predicate Proper(l: Workload, i: nat, answer: P.Response)
    requires i < |l.calls|
  {
    P.Counted(l.calls[i].generation, answer) && answer.hasContent
  }

  lemma ProperIffUnflagged(l: Workload, r: B.Reservation, answer: P.Response)
    requires Priced(l, r.correlation) && Accounting(l, r, answer).Some?
    ensures Accounting(l, r, answer).value.flagged <==> !Proper(l, r.correlation, answer)
  {
    var g := l.calls[r.correlation].generation;
    P.ProjectedModel(l.terms, g);
    P.AccountingExact(l.terms, g, r.reserved, answer);
  }

  /** Everything in the cache was answered and paid for: it is the answer to a request for that very key,
      has its text and proper counts, and its reservation was settled for what it cost. */
  lemma CachedAnswersPaid(l: Workload, events: seq<Event>, key: string) returns (id: nat)
    requires l.initial < l.hardLimit && key in Run(l, events).cache
    ensures var w := Run(l, events);
      && id < |w.ledger.reservations| && id in w.answers && w.answers[id] == w.cache[key]
      && var r := w.ledger.reservations[id];
         r.correlation < |l.calls| && l.calls[r.correlation].key == key
         && SettledUnflagged(r) && Proper(l, r.correlation, w.answers[id])
  {
    RunAnswers(l, events);
    var w := Run(l, events);
    assert CachedFrom(l, w, key);
    id :| PaidFor(l, w, key, id) && w.answers[id] == w.cache[key];
    var r := w.ledger.reservations[id];
    assert Explained(l, r, id in w.raised, AnswerTo(w, id), Owned(w.stages, r, id));
    ProperIffUnflagged(l, r, w.answers[id]);
  }

  /** While answers stay within their declared bounds, such a reservation is always settled and never flagged. */
  lemma BoundedCacheSettled(l: Workload, events: seq<Event>, key: string) returns (id: nat)
    requires l.initial < l.hardLimit && key in Run(l, events).cache
    requires P.RatesNonnegative(l.terms.book) && 0.0 <= l.terms.multiplier && AllBounded(l, Run(l, events))
    ensures var w := Run(l, events);
      && id < |w.ledger.reservations| && id in w.answers && w.answers[id] == w.cache[key]
      && w.ledger.reservations[id].status == B.Status.Settled
  {
    id := CachedAnswersPaid(l, events, key);
    BoundedAnswersKeepCap(l, events);
    assert B.SettledAmount(Run(l, events).ledger.reservations[id]) <= Run(l, events).ledger.reservations[id].reserved;
  }

  /** A proper answer that can be accounted for is settled, and a put that does not raise leaves exactly it in
      the cache. */
  lemma ProperAnswerCached(l: Workload, events: seq<Event>, i: nat)
    requires l.initial < l.hardLimit && i < |l.calls| && Run(l, events).stages[i].Answered?
    requires var w := Run(l, events);
      && w.stages[i].id in w.answers && Priced(l, i)
      && Proper(l, i, w.answers[w.stages[i].id]) && !Unaccountable(l, i, w.answers[w.stages[i].id])
    ensures var w, t := Run(l, events), Run(l, events + [Account(i)] + [Put(i)]);
      && t.stages[i] == Leaving && t.cache == w.cache[l.calls[i].key := w.answers[w.stages[i].id]]
      && w.stages[i].id < |t.ledger.reservations| && SettledUnflagged(t.ledger.reservations[w.stages[i].id])
  {
    RunInv(l, events);
    var w := Run(l, events);
    ProperAccepted(l, w, i);
    RunLast(l, events, Account(i));
    RunLast(l, events + [Account(i)], Put(i));
    PutCaches(l, Charged(l, w, i), i);
  }

  lemma ProperAccepted(l: Workload, w: World, i: nat)
    requires |w.stages| == |l.calls| && MoneyAgrees(l, w) && i < |l.calls| && w.stages[i].Answered? && Priced(l, i)
    requires Proper(l, i, w.answers[w.stages[i].id]) && !Unaccountable(l, i, w.answers[w.stages[i].id])
    ensures var t, id := Charged(l, w, i), w.stages[i].id;
      && t == Next(l, w, Account(i)) && t.stages[i] == Accepted(id) && t.answers == w.answers && t.cache == w.cache
      && id < |t.ledger.reservations| && SettledUnflagged(t.ledger.reservations[id])
  {
    var id := w.stages[i].id;
    UnaccountableIff(l, w.ledger.reservations[id], w.answers[id]);
    ProperIffUnflagged(l, w.ledger.reservations[id], w.answers[id]);
  }

  lemma PutCaches(l: Workload, w: World, i: nat)
    requires |w.stages| == |l.calls| && i < |l.calls| && w.stages[i].Accepted? && w.stages[i].id in w.answers
    ensures var t := Next(l, w, Put(i));
      && t.stages[i] == Leaving && t.cache == w.cache[l.calls[i].key := w.answers[w.stages[i].id]]
      && t.ledger == w.ledger
  {
  }

  /** An answer that is not proper, or cannot be accounted for, is never cached: its caller leaves. */
  lemma ImproperAnswerLeaves(l: Workload, events: seq<Event>, i: nat)
    requires l.initial < l.hardLimit && i < |l.calls| && Run(l, events).stages[i].Answered?
    requires var w := Run(l, events);
      && w.stages[i].id in w.answers && Priced(l, i)
      && (!Proper(l, i, w.answers[w.stages[i].id]) || Unaccountable(l, i, w.answers[w.stages[i].id]))
    ensures var w, t := Run(l, events), Run(l, events + [Account(i)]);
      t.stages[i] == Leaving && t.cache == w.cache
  {
    RunInv(l, events);
    RunLast(l, events, Account(i));
    ImproperStep(l, Run(l, events), i);
  }

  lemma ImproperStep(l: Workload, w: World, i: nat)
    requires |w.stages| == |l.calls| && MoneyAgrees(l, w) && i < |l.calls| && w.stages[i].Answered? && Priced(l, i)
    requires !Proper(l, i, w.answers[w.stages[i].id]) || Unaccountable(l, i, w.answers[w.stages[i].id])
    ensures var t := Next(l, w, Account(i)); t.stages[i] == Leaving && t.cache == w.cache
  {
    var r, a := w.ledger.reservations[w.stages[i].id], w.answers[w.stages[i].id];
    UnaccountableIff(l, r, a);
    if Accounting(l, r, a).Some? {
      ProperIffUnflagged(l, r, a);
    }
  }

  // ----- hits

  /** What a caller of its own bounds makes of a cached answer: the counts it can price. */
  predicate Recordable(l: Workload, i: nat, cached: P.Response)
    requires i < |l.calls|
  {
    var g := l.calls[i].generation;
    && Proper(l, i, cached) && g.model in l.terms.book && l.terms.book[g.model].generation.Some?
    && !P.TooDear(l.terms.book[g.model].generation.value, l.terms.multiplier,
                  P.Value(cached.prompt, g.maxInput), P.Value(cached.completion, g.maxOutput))
  }

  function HitRecord(l: Workload, i: nat, cached: P.Response): seq<B.UsageRecord>
    requires i < |l.calls|
  {
    var g := l.calls[i].generation;
    if !Recordable(l, i, cached) then []
    else [B.UsageRecord(i, "generate", g.model,
                        B.Usage(P.Value(cached.prompt, g.maxInput), P.Value(cached.completion, g.maxOutput), 0, 0),
                          true)]
  }

  lemma HitLedgerExact(l: Workload, ledger: B.Ledger, i: nat, cached: P.Response)
    requires i < |l.calls|
    ensures HitLedger(l, ledger, i, cached) == ledger.(usages := ledger.usages + HitRecord(l, i, cached))
  {
    assert ledger.usages + [] == ledger.usages;
  }

  /** A hit, at either look-up, reserves and sends nothing and records one free usage with the cached counts, or
      raises and records nothing when these cannot be priced. */
  lemma HitIsFree(l: Workload, events: seq<Event>, i: nat, again: bool)
    requires i < |l.calls| && l.calls[i].key in Run(l, events).cache
    requires if again then Run(l, events).stages[i].Locked?
             else Run(l, events).stages[i].Arrived? && Admissible(l.calls[i].generation)
    ensures var w, t := Run(l, events), Run(l, events + [if again then LookUpAgain(i) else LookUp(i)]);
      && t.stages == w.stages[i := if again then Leaving else Finished]
      && t.cache == w.cache && t.sent == w.sent
      && t.ledger == w.ledger.(usages := w.ledger.usages + HitRecord(l, i, w.cache[l.calls[i].key]))
  {
    RunLast(l, events, if again then LookUpAgain(i) else LookUp(i));
    HitStep(l, Run(l, events), i, again);
  }

  lemma HitStep(l: Workload, w: World, i: nat, again: bool)
    requires |w.stages| == |l.calls| && i < |l.calls| && l.calls[i].key in w.cache
    requires if again then w.stages[i].Locked? else w.stages[i].Arrived? && Admissible(l.calls[i].generation)
    ensures var t := Next(l, w, if again then LookUpAgain(i) else LookUp(i));
      && t.stages == w.stages[i := if again then Leaving else Finished]
      && t.cache == w.cache && t.sent == w.sent
      && t.ledger == w.ledger.(usages := w.ledger.usages + HitRecord(l, i, w.cache[l.calls[i].key]))
  {
    HitLedgerExact(l, w.ledger, i, w.cache[l.calls[i].key]);
  }

  // ----- paid requests

  /** Reservations made by callers of this key. */
  function KeyCount(l: Workload, rs: seq<B.Reservation>, key: string): nat {
    if rs == [] then 0
    else
      KeyCount(l, rs[..|rs| - 1], key) + if IsFor(l, rs[|rs| - 1], key) then 1 else 0
  }

  predicate IsFor(l: Workload, r: B.Reservation, key: string) {
    r.correlation < |l.calls| && l.calls[r.correlation].key == key
  }

  lemma {:induction false} KeyCountUpdate(l: Workload, rs: seq<B.Reservation>, id: nat, r: B.Reservation, key: string)
    requires id < |rs| && r.correlation == rs[id].correlation
    ensures KeyCount(l, rs[id := r], key) == KeyCount(l, rs, key)
  {
    var k := |rs| - 1;
    if id == k {
      assert rs[id := r][..k] == rs[..k];
    } else {
      assert rs[id := r][..k] == rs[..k][id := r];
      KeyCountUpdate(l, rs[..k], id, r, key);
    }
  }

  lemma KeyCountNext(l: Workload, rs: seq<B.Reservation>, r: B.Reservation, key: string)
    ensures KeyCount(l, rs + [r], key) == KeyCount(l, rs, key) + if IsFor(l, r, key) then 1 else 0
  {
    assert (rs + [r])[..|rs|] == rs;
  }

  /** Releasing and settling change one reservation, and not whose it is. */
  lemma ClosingKeepsCount(l: Workload, ledger: B.Ledger, op: B.Op, key: string)
    requires op.Settle? || op.Release?
    ensures KeyCount(l, B.Step(ledger, op, l.hardLimit).reservations, key) == KeyCount(l, ledger.reservations, key)
  {
    var rs, after := ledger.reservations, B.Step(ledger, op, l.hardLimit).reservations;
    if after != rs {
      assert after == rs[op.id := after[op.id]];
      KeyCountUpdate(l, rs, op.id, after[op.id], key);
    }
  }

  lemma NextSent(l: Workload, w: World, e: Event, key: string)
    requires |w.stages| == |l.calls| && w.sent[key] == KeyCount(l, w.ledger.reservations, key)
    ensures var t := Next(l, w, e); t.sent[key] == KeyCount(l, t.ledger.reservations, key)
  {
    var i := e.caller;
    if i < |l.calls| {
      if e.Reserve? {
        if w.stages[i].Unpaid? {
          ReservingCounts(l, w, i, key);
        }
      } else {
        SendsNothing(l, w, e);
        KeepsCount(l, w, e, key);
      }
    }
  }

  lemma ReservingCounts(l: Workload, w: World, i: nat, key: string)
    requires |w.stages| == |l.calls| && i < |l.calls| && w.sent[key] == KeyCount(l, w.ledger.reservations, key)
    ensures var t := Reserved(l, w, i); t.sent[key] == KeyCount(l, t.ledger.reservations, key)
  {
    if Projected(l, i).Ok? {
      KeyCountNext(l, w.ledger.reservations, B.Reservation(i, Projected(l, i).value, B.Open, None), key);
    }
  }

  lemma KeepsCount(l: Workload, w: World, e: Event, key: string)
    requires |w.stages| == |l.calls| && !e.Reserve? && e.caller < |l.calls|
    ensures KeyCount(l, Next(l, w, e).ledger.reservations, key) == KeyCount(l, w.ledger.reservations, key)
  {
    var i := e.caller;
    match e
    case RequestRaises(_) =>
      if w.stages[i].Requesting? {
        ClosingKeepsCount(l, w.ledger, B.Release(w.stages[i].id), key);
      }
    case Account(_) =>
      if w.stages[i].Answered? {
        SettlingKeepsCount(l, w, i, key);
      }
    case ResponseArrives(_, _) =>
    case _ => QuietLedger(l, w, e);
  }

  lemma SendsNothing(l: Workload, w: World, e: Event)
    requires |w.stages| == |l.calls| && !e.Reserve?
    ensures Next(l, w, e).sent == w.sent
  {
  }

  lemma SettlingKeepsCount(l: Workload, w: World, i: nat, key: string)
    requires |w.stages| == |l.calls| && i < |l.calls| && w.stages[i].Answered?
    ensures var t := Charged(l, w, i);
      t.sent == w.sent && KeyCount(l, t.ledger.reservations, key) == KeyCount(l, w.ledger.reservations, key)
  {
    var id := w.stages[i].id;
    if id < |w.ledger.reservations| && id in w.answers && w.ledger.reservations[id].correlation == i {
      var s := Accounting(l, w.ledger.reservations[id], w.answers[id]);
      if s.Some? {
        ClosingKeepsCount(l, w.ledger, B.Op.Settle(id, s.value), key);
      }
    }
  }

  /** The requests sent for a key are exactly its reservations: each is paid for once, and none is free. */
  lemma {:induction false} RequestsAreReserved(l: Workload, events: seq<Event>, key: string)
    ensures Run(l, events).sent[key] == KeyCount(l, Run(l, events).ledger.reservations, key)
  {
    if events != [] {
      var before := events[..|events| - 1];
      RequestsAreReserved(l, before, key);
      NextSent(l, Run(l, before), events[|events| - 1], key);
    }
  }

  /** An answer is kept as it came, under its caller's reservation. */
  lemma AnswerKept(l: Workload, events: seq<Event>, i: nat, response: P.Response)
    requires i < |l.calls| && Run(l, events).stages[i].Requesting?
    ensures var w, t := Run(l, events), Run(l, events + [ResponseArrives(i, response)]);
      && t.stages == w.stages[i := Answered(w.stages[i].id)] && t.ledger == w.ledger
      && t.answers == w.answers[w.stages[i].id := response]
  {
    RunLast(l, events, ResponseArrives(i, response));
  }

  /** A request that raises gives its reservation back. */
  lemma RaiseReleases(l: Workload, events: seq<Event>, i: nat)
    requires l.initial < l.hardLimit && i < |l.calls| && Run(l, events).stages[i].Requesting?
    ensures var w, t := Run(l, events), Run(l, events + [RequestRaises(i)]);
      var id := w.stages[i].id;
      && t.stages == w.stages[i := Leaving] && id < |w.ledger.reservations|
      && t.ledger == w.ledger.(
           reservations := w.ledger.reservations[id := w.ledger.reservations[id].(status := B.Released,
             settled := Some(0))])
  {
    RunInv(l, events);
    RunLast(l, events, RequestRaises(i));
    RaiseStep(l, Run(l, events), i);
  }

  lemma RaiseStep(l: Workload, w: World, i: nat)
    requires |w.stages| == |l.calls| && TicketsOpen(w) && i < |l.calls| && w.stages[i].Requesting?
    ensures var t, id := Next(l, w, RequestRaises(i)), w.stages[i].id;
      && t.stages == w.stages[i := Leaving] && id < |w.ledger.reservations|
      && t.ledger == w.ledger.(
           reservations := w.ledger.reservations[id := w.ledger.reservations[id].(status := B.Released,
             settled := Some(0))])
  {
  }

  // ----- progress

  /** A step that needs no failure and no cancellation. */
  predicate IsProgress(e: Event) {
    !e.CancelWait? && !e.RequestRaises? && !e.PutRaises?
  }

  ghost predicate CanStep(l: Workload, w: World, e: Event)
    requires |w.stages| == |l.calls|
  {
    IsProgress(e) && e.caller < |l.calls| && Next(l, w, e).stages[e.caller] != w.stages[e.caller]
  }

  /** A caller past the lock always has a next step. */
  lemma InsideSteps(l: Workload, w: World, i: nat)
    requires Inv(l, w) && AnswersAgree(l, w) && i < |l.calls| && w.system.clients[i].Inside?
    ensures exists e :: CanStep(l, w, e)
  {
    match w.stages[i]
    case Leaving => LeavingSteps(l, w, i);
    case Answered(_) => AnsweredSteps(l, w, i);
    case Accepted(_) => AcceptedSteps(l, w, i);
    case _ => OpenSteps(l, w, i);
  }

  lemma OpenSteps(l: Workload, w: World, i: nat)
    requires |w.stages| == |l.calls| && i < |l.calls|
    requires w.stages[i].Arrived? || w.stages[i].Locked? || w.stages[i].Unpaid? || w.stages[i].Requesting?
    ensures exists e :: CanStep(l, w, e)
  {
    match w.stages[i]
    case Arrived => assert CanStep(l, w, LookUp(i));
    case Locked => assert CanStep(l, w, LookUpAgain(i));
    case Unpaid => assert CanStep(l, w, Reserve(i));
    case Requesting(_) => assert CanStep(l, w, ResponseArrives(i, P.Undecodable));
  }

  lemma LeavingSteps(l: Workload, w: World, i: nat)
    requires RegistryAgrees(l, w) && i < |l.calls| && w.stages[i].Leaving?
    ensures exists e :: CanStep(l, w, e)
  {
    assert S.Enabled(Keys(l.calls), w.system, S.Exit(i));
    assert CanStep(l, w, Exit(i));
  }

  lemma AnsweredSteps(l: Workload, w: World, i: nat)
    requires |w.stages| == |l.calls| && TicketsOpen(w) && i < |l.calls| && w.stages[i].Answered?
    ensures exists e :: CanStep(l, w, e)
  {
    assert CanStep(l, w, Account(i));
  }

  lemma AcceptedSteps(l: Workload, w: World, i: nat)
    requires |w.stages| == |l.calls| && AcceptedPaid(l, w) && i < |l.calls| && w.stages[i].Accepted?
    ensures exists e :: CanStep(l, w, e)
  {
    assert CanStep(l, w, Put(i));
  }

  lemma MissedSteps(l: Workload, w: World, i: nat)
    requires RegistryAgrees(l, w) && i < |l.calls| && w.stages[i].Missed?
    ensures exists e :: CanStep(l, w, e)
  {
    assert S.Enabled(Keys(l.calls), w.system, S.Enter(i));
    assert CanStep(l, w, Enter(i));
  }

  lemma QueuedSteps(l: Workload, w: World, i: nat)
    requires Inv(l, w) && AnswersAgree(l, w) && i < |l.calls| && w.stages[i].Queued?
    ensures exists e :: CanStep(l, w, e)
  {
    S.SomebodyCanMove(Keys(l.calls), w.system, i);
    var e :| S.Enabled(Keys(l.calls), w.system, e) && (e.Acquire? || e.Exit?) &&
      Keys(l.calls)[e.caller] == Keys(l.calls)[i];
    if e.Acquire? {
      assert CanStep(l, w, Acquire(e.caller));
    } else {
      InsideSteps(l, w, e.caller);
    }
  }

  /** While somebody is not done, somebody can take a step, without any failure or cancellation. */
  lemma NobodyStuck(l: Workload, events: seq<Event>, i: nat)
    requires l.initial < l.hardLimit && i < |l.calls| && !Run(l, events).stages[i].Finished?
    ensures exists e :: CanStep(l, Run(l, events), e)
  {
    RunAnswers(l, events);
    var w := Run(l, events);
    match w.stages[i]
    case Arrived => OpenSteps(l, w, i);
    case Missed => MissedSteps(l, w, i);
    case Queued => QueuedSteps(l, w, i);
    case _ => InsideSteps(l, w, i);
  }
}
