/** The resumable experiment runner (src/ragbench/experiments/runner.py): what is on disk, the worker pool of
    one process, and every order in which workers answer, fail, are cancelled or are killed. */
module ExperimentRunner {
  import opened Results
  import opened Sorting

  datatype Status = Planned | Running | Completed | Failed | Cancelled | Stopped

  datatype Reason = SchemaThreshold | ProviderThreshold | BudgetExhausted | BatchCap | OperatorCancelled

  type Positive = n: int | n > 0 witness 1

  /** Rates are exact here. */
  datatype Config = Config(questions: seq<string>, batchCap: Positive, concurrency: Positive, errorWindow: Positive,
                           schemaRate: real, providerRate: real)

  datatype Record = Record(status: Status, completed: set<string>, failed: set<string>, reason: Option<Reason>)

  datatype RunError = UnsafeTransition | OutsideCohort | ResultExists | AlreadyCompleted | NeedsResume | NeedsDiagnosis

  function Transitions(from: Status): set<Status> {
    match from
    case Planned => {Running, Cancelled}
    case Running => {Completed, Failed, Cancelled, Stopped}
    case Failed => {Running}
    case Cancelled => {Running}
    case Stopped => {Running}
    case Completed => {}
  }

  // ----- the repository

  class FileExperimentRepository {
    const config: Config
    var record: Record
    var results: map<string, string>

    constructor (config: Config)
      ensures this.config == config && record == Record(Planned, {}, {}, None) && results == map[]
    {
      this.config := config;
      record := Record(Planned, {}, {}, None);
      results := map[];
    }

    /** Unstated completed and failed questions are kept; the stop reason never is. */
    method Transition(to: Status, completed: Option<set<string>>, failed: Option<set<string>>, reason: Option<Reason>)
      returns (r: Result<Record, RunError>)
      modifies this`record
      ensures r.Ok? <==> to in Transitions(old(record).status)
      ensures r.Ok? ==> r.value == record == Updated(old(record), to, completed, failed, reason)
      ensures r.Err? ==> r.error == UnsafeTransition && record == old(record)
    {
      if to !in Transitions(record.status) {
        return Err(UnsafeTransition);
      }
      record := Record(to, if completed.Some? then completed.value else record.completed,
                       if failed.Some? then failed.value else record.failed, reason);
      return Ok(record);
    }

    method ResultIds() returns (ids: set<string>)
      ensures ids == Saved(config, results)
    {
      ids := {};
      for i := 0 to |config.questions|
        invariant ids == set k | 0 <= k < i && config.questions[k] in results :: config.questions[k]
      {
        if config.questions[i] in results {
          ids := ids + {config.questions[i]};
        }
      }
    }

    /** A result is written once. */
    method SaveResult(question: string, content: string) returns (r: Result<(), RunError>)
      modifies this`results
      ensures r == Err(OutsideCohort) <==> question !in config.questions
      ensures r == Err(ResultExists) <==> question in config.questions && question in old(results)
      ensures results == if r.Ok? then old(results)[question := content] else old(results)
    {
      if question !in config.questions {
        return Err(OutsideCohort);
      }
      if question in results {
        return Err(ResultExists);
      }
      results := results[question := content];
      return Ok(());
    }
  }

  function Updated(record: Record, to: Status, completed: Option<set<string>>, failed: Option<set<string>>,
                   reason: Option<Reason>): Record {
    Record(to, if completed.Some? then completed.value else record.completed,
      if failed.Some? then failed.value else record.failed, reason)
  }

  function Saved(config: Config, results: map<string, string>): set<string> {
    set k | 0 <= k < |config.questions| && config.questions[k] in results :: config.questions[k]
  }

  // ----- stop thresholds

  datatype Kind = Fine | Schema | Provider | Other

  function CountKind(kinds: seq<Kind>, kind: Kind): nat {
    if kinds == [] then 0 else CountKind(kinds[..|kinds| - 1], kind) + if kinds[|kinds| - 1] == kind then 1 else 0
  }

  /** The last `errorWindow` outcomes are there, and this kind is at least `rate` of them. */
  predicate Meets(config: Config, recent: seq<Kind>, kind: Kind, rate: real) {
    && |recent| >= config.errorWindow
    && CountKind(recent[|recent| - config.errorWindow..], kind) as real >= rate * config.errorWindow as real
  }

  /** The stop reason after an error was appended to the outcomes. */
  function Judged(config: Config, recent: seq<Kind>, reason: Option<Reason>): Option<Reason> {
    if Meets(config, recent, Schema, config.schemaRate) then Some(SchemaThreshold)
    else if Meets(config, recent, Provider, config.providerRate) then Some(ProviderThreshold)
    else reason
  }

  // ----- the process

  /** The worker pool of one `run` call. The stop event is set exactly when a stop reason is. */
  datatype Process =
    | Idle
    | Active(pending: seq<string>, executing: set<string>, done: set<string>,
             completed: set<string>, failed: set<string>, recent: seq<Kind>, reason: Option<Reason>)

  datatype World = World(record: Record, results: map<string, string>, process: Process)

  /** What the executor did with a question. */
  datatype Outcome = Answered(question: string, content: string) | BudgetRefused | Raised(kind: Kind)

  datatype Event =
    | Begin(resume: bool, acknowledged: bool)
    | Pick(question: string)                      // a worker gets the semaphore
    | Finish(question: string, outcome: Outcome)
    | Conclude                                    // all workers returned
    | Cancel                                      // the operator cancels the run
    | Kill                                        // the process disappears

  function Missing(questions: seq<string>, results: set<string>): (missing: seq<string>)
    ensures forall q :: q in missing <==> q in questions && q !in results
  {
    if questions == [] then []
    else
      Missing(questions[..|questions| - 1], results)
      + if questions[|questions| - 1] in results then [] else [questions[|questions| - 1]]
  }

  function FirstOf<T>(s: seq<T>, n: nat): seq<T> {
    if |s| <= n then s else s[..n]
  }

  predicate ThresholdStop(record: Record) {
    record.status == Stopped && record.reason in {Some(SchemaThreshold), Some(ProviderThreshold)}
  }

  /** Why `run` refuses to begin. */
  function Refusal(record: Record, resume: bool, acknowledged: bool): Option<RunError> {
    if record.status == Completed then Some(AlreadyCompleted)
    else if record.status != Planned && !resume then Some(NeedsResume)
    else if ThresholdStop(record) && !acknowledged then Some(NeedsDiagnosis)
    else if Running !in Transitions(record.status) then Some(UnsafeTransition)
    else None
  }

  function Begun(config: Config, w: World): World {
    var completed := Saved(config, w.results);
    w.(record := Updated(w.record, Running, Some(completed), Some({}), None),
       process := Active(FirstOf(Missing(config.questions, completed), config.batchCap), {}, {}, completed, {}, [],
         None))
  }

  function Picked(p: Process, q: string): Process
    requires p.Active?
  {
    if p.reason.Some? then p.(done := p.done + {q}) else p.(executing := p.executing + {q})
  }

  /** One worker's error of a kind other than a refused budget. */
  function Errored(config: Config, p: Process, q: string, kind: Kind): Process
    requires p.Active?
  {
    var recent := p.recent + [kind];
    p.(executing := p.executing - {q}, done := p.done + {q}, failed := p.failed + {q},
       recent := recent, reason := Judged(config, recent, p.reason))
  }

  function Finished(config: Config, w: World, q: string, outcome: Outcome): World
    requires w.process.Active?
  {
    var p := w.process;
    match outcome
    case BudgetRefused =>
      w.(process := p.(executing := p.executing - {q}, done := p.done + {q}, failed := p.failed + {q},
        reason := Some(BudgetExhausted)))
    case Raised(kind) => w.(process := Errored(config, p, q, if kind == Fine then Other else kind))
    case Answered(question, content) =>
      if question != q then w.(process := Errored(config, p, q, Schema))
      else if q in w.results then w.(process := Errored(config, p, q, Other))
      else
        w.(results := w.results[q := content],
           process := p.(executing := p.executing - {q}, done := p.done + {q}, completed := p.completed + {q},
             recent := p.recent + [Fine]))
  }

  function Concluded(config: Config, w: World): World
    requires w.process.Active?
  {
    var p := w.process;
    var after :=
      if p.reason.Some? then Updated(w.record, Stopped, Some(p.completed), Some(p.failed), p.reason)
      else if p.failed != {} then Updated(w.record, Failed, Some(p.completed), Some(p.failed), None)
      else if |p.completed| != |config.questions| then
        Updated(w.record, Stopped, Some(p.completed), None, Some(BatchCap))
      else Updated(w.record, Completed, Some(p.completed), Some({}), None);
    w.(record := after, process := Idle)
  }

  predicate Enabled(config: Config, w: World, e: Event) {
    match e
    case Begin(resume, acknowledged) => w.process.Idle? && Refusal(w.record, resume, acknowledged).None?
    case Pick(q) =>
      && w.process.Active? && q in w.process.pending && q !in w.process.executing && q !in w.process.done
      && |w.process.executing| < config.concurrency
    case Finish(q, _) => w.process.Active? && q in w.process.executing
    case Conclude => w.process.Active? && forall q :: q in w.process.pending ==> q in w.process.done
    case Cancel => w.process.Active?
    case Kill => w.process.Active?
  }

  /** The world after an event; one that is not enabled does not happen. */
  function Next(config: Config, w: World, e: Event): World {
    if !Enabled(config, w, e) then w
    else
      match e
      case Begin(_, _) => Begun(config, w)
      case Pick(q) => w.(process := Picked(w.process, q))
      case Finish(q, outcome) => Finished(config, w, q, outcome)
      case Conclude => Concluded(config, w)
      case Cancel =>
        w.(record := Updated(w.record, Cancelled, Some(w.process.completed), Some(w.process.failed),
          Some(OperatorCancelled)), process := Idle)
      case Kill => w.(process := Idle)
  }

  const START: World := World(Record(Planned, {}, {}, None), map[], Idle)

  function Run(config: Config, w: World, events: seq<Event>): World {
    if events == [] then w else Next(config, Run(config, w, events[..|events| - 1]), events[|events| - 1])
  }

  // ----- the invariant

  function Questions(config: Config): set<string> {
    set q | q in config.questions
  }

  /** At some moment the last `errorWindow` outcomes met the rate. */
  ghost predicate WasMet(config: Config, recent: seq<Kind>, kind: Kind, rate: real) {
    exists k :: 0 <= k <= |recent| && Meets(config, recent[..k], kind, rate)
  }

  /** A threshold reason was earned by the outcomes up to some moment. */
  ghost predicate Earned(config: Config, recent: seq<Kind>, reason: Option<Reason>) {
    && (reason == Some(SchemaThreshold) ==> WasMet(config, recent, Schema, config.schemaRate))
    && (reason == Some(ProviderThreshold) ==> WasMet(config, recent, Provider, config.providerRate))
    && reason !in {Some(BatchCap), Some(OperatorCancelled)}
  }

  /** The pool: what it counts as completed is what is saved; it only works on questions without a result. */
  ghost predicate PoolAgrees(config: Config, w: World) {
    var p := w.process;
    p.Active? ==>
      && w.record.status == Running && w.record.failed == {}
      && p.completed == w.results.Keys
      && |p.pending| <= config.batchCap && (forall q :: q in p.pending ==> q in config.questions)
      && (forall q :: q in p.executing ==> q in p.pending && q !in p.done && q !in w.results)
      && (forall q :: q in p.pending && q !in p.done ==> q !in w.results)
      && p.failed <= p.done && p.failed !! p.completed
      && |p.executing| <= config.concurrency
      && Earned(config, p.recent, p.reason)
      && (forall q :: q in p.done ==> q in p.pending)
  }

  /** The record: completed questions have results, and a completed run has them all. */
  ghost predicate RecordAgrees(config: Config, w: World) {
    && w.record.completed <= w.results.Keys <= Questions(config)
    && w.record.failed <= Questions(config)
    && (w.process.Idle? && w.record.status != Running ==> w.record.completed == w.results.Keys)
    && (w.record.status == Completed ==>
      w.process.Idle? && w.record.completed == Questions(config) && w.record.failed == {})
  }

  ghost predicate Inv(config: Config, w: World) {
    Distinct(config.questions) && PoolAgrees(config, w) && RecordAgrees(config, w)
  }

  lemma SavedExact(config: Config, results: map<string, string>)
    ensures Saved(config, results) == results.Keys * Questions(config)
  {
  }

  lemma BegunInv(config: Config, w: World, resume: bool, acknowledged: bool)
    requires Inv(config, w) && Enabled(config, w, Begin(resume, acknowledged))
    ensures Inv(config, Begun(config, w))
  {
    SavedExact(config, w.results);
    var t := Begun(config, w);
    assert t.process.completed == w.results.Keys;
    forall q | q in t.process.pending ensures q in config.questions && q !in w.results {
      assert q in Missing(config.questions, t.process.completed);
    }
  }

  lemma PickedInv(config: Config, w: World, q: string)
    requires Inv(config, w) && Enabled(config, w, Pick(q))
    ensures Inv(config, w.(process := Picked(w.process, q)))
  {
  }

  /** An error whose outcomes meet a threshold earns its reason. */
  lemma JudgedEarned(config: Config, recent: seq<Kind>, kind: Kind, reason: Option<Reason>)
    requires Earned(config, recent, reason)
    ensures Earned(config, recent + [kind], Judged(config, recent + [kind], reason))
  {
    var longer := recent + [kind];
    assert longer[..|longer|] == longer;
    EarnedLonger(config, recent, kind, reason);
  }

  lemma EarnedLonger(config: Config, recent: seq<Kind>, kind: Kind, reason: Option<Reason>)
    requires Earned(config, recent, reason)
    ensures Earned(config, recent + [kind], reason)
  {
    if reason == Some(SchemaThreshold) {
      WasMetLonger(config, recent, kind, Schema, config.schemaRate);
    }
    if reason == Some(ProviderThreshold) {
      WasMetLonger(config, recent, kind, Provider, config.providerRate);
    }
  }

  lemma WasMetLonger(config: Config, recent: seq<Kind>, last: Kind, kind: Kind, rate: real)
    requires WasMet(config, recent, kind, rate)
    ensures WasMet(config, recent + [last], kind, rate)
  {
    var k :| 0 <= k <= |recent| && Meets(config, recent[..k], kind, rate);
    assert (recent + [last])[..k] == recent[..k];
  }

  lemma ErroredInv(config: Config, w: World, q: string, kind: Kind)
    requires Inv(config, w) && w.process.Active? && q in w.process.executing
    ensures Inv(config, w.(process := Errored(config, w.process, q, kind)))
  {
    JudgedEarned(config, w.process.recent, kind, w.process.reason);
    assert |w.process.executing - {q}| <= |w.process.executing|;
  }

  lemma FinishedInv(config: Config, w: World, q: string, outcome: Outcome)
    requires Inv(config, w) && w.process.Active? && q in w.process.executing
    ensures Inv(config, Finished(config, w, q, outcome))
  {
    match outcome
    case BudgetRefused => RefusedInv(config, w, q);
    case Raised(kind) => ErroredInv(config, w, q, if kind == Fine then Other else kind);
    case Answered(question, content) =>
      if question != q {
        ErroredInv(config, w, q, Schema);
      } else {
        AnsweredInv(config, w, q, content);
      }
  }

  lemma RefusedInv(config: Config, w: World, q: string)
    requires Inv(config, w) && w.process.Active? && q in w.process.executing
    ensures Inv(config, Finished(config, w, q, BudgetRefused))
  {
  }

  lemma AnsweredInv(config: Config, w: World, q: string, content: string)
    requires Inv(config, w) && w.process.Active? && q in w.process.executing
    ensures Inv(config, Finished(config, w, q, Answered(q, content)))
  {
    EarnedLonger(config, w.process.recent, Fine, w.process.reason);
  }

  /** When the workers are done and nothing failed, as many results as questions means all of them. */
  lemma AllSaved(config: Config, completed: set<string>)
    requires Distinct(config.questions) && completed <= Questions(config)
    ensures |completed| == |config.questions| <==> completed == Questions(config)
  {
    MemberCount(config.questions);
    assert AsSet(config.questions) == Questions(config);
    if completed != Questions(config) {
      assert |Questions(config) - completed| == |Questions(config)| - |completed|;
    }
  }

  lemma ConcludedInv(config: Config, w: World)
    requires Inv(config, w) && Enabled(config, w, Conclude)
    ensures Inv(config, Concluded(config, w))
  {
    AllSaved(config, w.process.completed);
  }

  lemma NextInv(config: Config, w: World, e: Event)
    requires Inv(config, w)
    ensures Inv(config, Next(config, w, e))
  {
    if Enabled(config, w, e) {
      match e
      case Begin(resume, acknowledged) => BegunInv(config, w, resume, acknowledged);
      case Pick(q) => PickedInv(config, w, q);
      case Finish(q, outcome) => FinishedInv(config, w, q, outcome);
      case Conclude => ConcludedInv(config, w);
      case Cancel =>
      case Kill =>
    }
  }

  /** Recorded completed questions have results and results are of configured questions, in every run of every
      process; a completed run has all of them. */
  lemma {:induction false} RunInv(config: Config, events: seq<Event>)
    requires Distinct(config.questions)
    ensures Inv(config, Run(config, START, events))
  {
    if events != [] {
      RunInv(config, events[..|events| - 1]);
      NextInv(config, Run(config, START, events[..|events| - 1]), events[|events| - 1]);
    }
  }

  // ----- what every history guarantees

  lemma {:induction false} RunConcat(config: Config, w: World, before: seq<Event>, events: seq<Event>)
    ensures Run(config, w, before + events) == Run(config, Run(config, w, before), events)
  {
    if events == [] {
      assert before + events == before;
    } else {
      RunConcat(config, w, before, events[..|events| - 1]);
      assert (before + events)[..|before + events| - 1] == before + events[..|events| - 1];
    }
  }

  /** Results are write-once: what is saved is never changed or removed. */
  lemma {:induction false} ResultsKept(config: Config, w: World, events: seq<Event>, q: string)
    requires q in w.results
    ensures q in Run(config, w, events).results && Run(config, w, events).results[q] == w.results[q]
  {
    if events != [] {
      ResultsKept(config, w, events[..|events| - 1], q);
    }
  }

  /** A question with a saved result is never executed again. */
  lemma NeverExecutedAgain(config: Config, before: seq<Event>, events: seq<Event>, q: string)
    requires Distinct(config.questions) && q in Run(config, START, before).results
    ensures var p := Run(config, START, before + events).process; p.Active? ==> q !in p.executing
  {
    RunInv(config, before + events);
    RunConcat(config, START, before, events);
    ResultsKept(config, Run(config, START, before), events, q);
  }

  /** A completed run stays as it is, with a result for every question. */
  lemma {:induction false} CompletedIsFinal(config: Config, before: seq<Event>, events: seq<Event>)
    requires Distinct(config.questions) && Run(config, START, before).record.status == Completed
    ensures Run(config, START, before + events) == Run(config, START, before)
    ensures Run(config, START, before).record.completed == Run(config, START, before).results.Keys == Questions(config)
  {
    RunInv(config, before);
    if events == [] {
      assert before + events == before;
    } else {
      CompletedIsFinal(config, before, events[..|events| - 1]);
      assert (before + events)[..|before + events| - 1] == before + events[..|events| - 1];
    }
  }

  /** A run stops at a threshold only if at some moment its last `errorWindow` outcomes met the rate. */
  lemma ThresholdEarned(config: Config, events: seq<Event>)
    requires Distinct(config.questions) && Enabled(config, Run(config, START, events), Conclude)
    ensures var recent := Run(config, START, events).process.recent;
      var stopped := Run(config, START, events + [Conclude]).record;
      && (stopped.reason == Some(SchemaThreshold) ==> WasMet(config, recent, Schema, config.schemaRate))
      && (stopped.reason == Some(ProviderThreshold) ==> WasMet(config, recent, Provider, config.providerRate))
  {
    RunInv(config, events);
    assert (events + [Conclude])[..|events|] == events;
    assert Run(config, START, events + [Conclude]) == Concluded(config, Run(config, START, events));
  }

  // ----- what one outcome does to the run

  /** The last `errorWindow` outcomes are there, and at least `rate` of them are of this kind. */
  predicate Frequent(config: Config, recent: seq<Kind>, kind: Kind, rate: real) {
    && |recent| >= config.errorWindow
    && multiset(recent[|recent| - config.errorWindow..])[kind] as real >= rate * config.errorWindow as real
  }

  lemma {:induction false} CountIsMultiplicity(kinds: seq<Kind>, kind: Kind)
    ensures CountKind(kinds, kind) == multiset(kinds)[kind]
  {
    if kinds != [] {
      CountIsMultiplicity(kinds[..|kinds| - 1], kind);
      assert kinds == kinds[..|kinds| - 1] + [kinds[|kinds| - 1]];
    }
  }

  lemma MeetsIffFrequent(config: Config, recent: seq<Kind>, kind: Kind, rate: real)
    ensures Meets(config, recent, kind, rate) <==> Frequent(config, recent, kind, rate)
  {
    if |recent| >= config.errorWindow {
      CountIsMultiplicity(recent[|recent| - config.errorWindow..], kind);
    }
  }

  /** The outcome is an error of this kind: raised so, an answer to another question, or one too many. */
  predicate FailsAs(w: World, q: string, outcome: Outcome, kind: Kind) {
    match outcome
    case BudgetRefused => false
    case Raised(raised) => kind == if raised == Fine then Other else raised
    case Answered(question, _) => if question != q then kind == Schema else q in w.results && kind == Other
  }

  lemma RunLast(config: Config, events: seq<Event>, e: Event)
    ensures Run(config, START, events + [e]) == Next(config, Run(config, START, events), e)
  {
    assert (events + [e])[..|events|] == events;
  }

  /** Every error is counted, and stops the run exactly when the last outcomes hold enough errors of a kind, the
      schema threshold going first. */
  lemma ErrorStopsIff(config: Config, events: seq<Event>, q: string, outcome: Outcome, kind: Kind)
    requires Enabled(config, Run(config, START, events), Finish(q, outcome))
    requires FailsAs(Run(config, START, events), q, outcome, kind)
    ensures var w, t := Run(config, START, events), Run(config, START, events + [Finish(q, outcome)]);
      && t.process.Active? && t.process.recent == w.process.recent + [kind]
      && t.process.failed == w.process.failed + {q} && t.process.completed == w.process.completed
      && t.results == w.results && q !in t.process.executing
      && t.process.reason ==
         if Frequent(config, t.process.recent, Schema, config.schemaRate) then Some(SchemaThreshold)
         else if Frequent(config, t.process.recent, Provider, config.providerRate) then Some(ProviderThreshold)
         else w.process.reason
  {
    RunLast(config, events, Finish(q, outcome));
    var recent := Run(config, START, events).process.recent + [kind];
    MeetsIffFrequent(config, recent, Schema, config.schemaRate);
    MeetsIffFrequent(config, recent, Provider, config.providerRate);
  }

  /** A first answer to its question is saved and counted as fine, and stops nothing. */
  lemma AnswerSaves(config: Config, events: seq<Event>, q: string, content: string)
    requires Enabled(config, Run(config, START, events), Finish(q, Answered(q, content)))
    requires q !in Run(config, START, events).results
    ensures var w, t := Run(config, START, events), Run(config, START, events + [Finish(q, Answered(q, content))]);
      && t.results == w.results[q := content] && t.process.Active? && t.process.recent == w.process.recent + [Fine]
      && t.process.completed == w.process.completed + {q} && t.process.failed == w.process.failed
      && t.process.reason == w.process.reason
  {
    RunLast(config, events, Finish(q, Answered(q, content)));
  }

  /** A refused budget stops the run at once, and is not counted among the outcomes. */
  lemma BudgetStops(config: Config, events: seq<Event>, q: string)
    requires Enabled(config, Run(config, START, events), Finish(q, BudgetRefused))
    ensures var w, t := Run(config, START, events), Run(config, START, events + [Finish(q, BudgetRefused)]);
      && t.process.Active? && t.process.reason == Some(BudgetExhausted) && t.process.recent == w.process.recent
      && t.process.failed == w.process.failed + {q} && t.results == w.results
  {
    RunLast(config, events, Finish(q, BudgetRefused));
  }

  /** What is recorded at the end of a run: its stop reason if it has one; else that it failed if a question did;
      else that it completed, or how far the batch went. */
  lemma ConclusionRecorded(config: Config, events: seq<Event>)
    requires Distinct(config.questions) && Enabled(config, Run(config, START, events), Conclude)
    ensures var p, t := Run(config, START, events).process, Run(config, START, events + [Conclude]);
      && t.process.Idle? && t.results == Run(config, START, events).results && t.record.completed == p.completed
      && (p.reason.Some? ==> t.record == Record(Stopped, p.completed, p.failed, p.reason))
      && (p.reason.None? && p.failed != {} ==> t.record == Record(Failed, p.completed, p.failed, None))
      && (p.reason.None? && p.failed == {} ==>
            t.record == if p.completed == Questions(config) then Record(Completed, p.completed, {}, None)
                        else Record(Stopped, p.completed, {}, Some(BatchCap)))
  {
    RunInv(config, events);
    RunLast(config, events, Conclude);
    AllSaved(config, Run(config, START, events).process.completed);
  }

  /** A cancelled run records what it had, and its operator. */
  lemma CancellationRecorded(config: Config, events: seq<Event>)
    requires Run(config, START, events).process.Active?
    ensures var p, t := Run(config, START, events).process, Run(config, START, events + [Cancel]);
      t.process.Idle? && t.record == Record(Cancelled, p.completed, p.failed, Some(OperatorCancelled))
  {
    RunLast(config, events, Cancel);
  }

  /** A run that stops at a threshold cannot begin again without an acknowledged diagnosis. */
  lemma ThresholdNeedsDiagnosis(config: Config, events: seq<Event>, resume: bool)
    requires Distinct(config.questions) && Enabled(config, Run(config, START, events), Conclude)
    requires Run(config, START, events).process.reason in {Some(SchemaThreshold), Some(ProviderThreshold)}
    ensures !Enabled(config, Run(config, START, events + [Conclude]), Begin(resume, false))
  {
    ConclusionRecorded(config, events);
  }

  /** The process is at work all along, so that no other run begins. */
  predicate SameRun(config: Config, w: World, events: seq<Event>) {
    Run(config, w, events).process.Active? && (events != [] ==> SameRun(config, w, events[..|events| - 1]))
  }

  lemma StopStays(config: Config, w: World, e: Event)
    requires w.process.Active? && w.process.reason.Some? && Next(config, w, e).process.Active?
    ensures var t := Next(config, w, e);
      && t.process.reason.Some? && t.process.executing <= w.process.executing
      && t.results.Keys <= w.results.Keys + w.process.executing
  {
  }

  /** Once the stop event is set no further question is executed by this run, however it goes on, and only
      those under way can still get a result. */
  lemma {:induction false} StopHolds(config: Config, w: World, events: seq<Event>)
    requires w.process.Active? && w.process.reason.Some? && SameRun(config, w, events)
    ensures var t := Run(config, w, events);
      && t.process.reason.Some? && t.process.executing <= w.process.executing
      && t.results.Keys <= w.results.Keys + w.process.executing
  {
    if events != [] {
      var shorter, last := events[..|events| - 1], events[|events| - 1];
      StopHolds(config, w, shorter);
      StopStays(config, Run(config, w, shorter), last);
    }
  }

  /** Exactly when an experiment that is not in progress can begin: never once it completed or its process was
      killed, and after a threshold stop only when the diagnosis is acknowledged. */
  lemma ResumableIff(config: Config, events: seq<Event>, resume: bool, acknowledged: bool)
    requires Run(config, START, events).process.Idle?
    ensures var w := Run(config, START, events);
      Enabled(config, w, Begin(resume, acknowledged)) <==>
        || w.record.status == Planned
        || (resume && w.record.status !in {Completed, Running} && (ThresholdStop(w.record) ==> acknowledged))
  {
  }

  /** After a kill nothing can ever change the run: the state left behind allows no transition to itself. */
  lemma {:induction false} KilledForGood(config: Config, w: World, events: seq<Event>)
    requires w.process.Idle? && w.record.status == Running
    ensures Run(config, w, events) == w
  {
    if events != [] {
      KilledForGood(config, w, events[..|events| - 1]);
    }
  }

  lemma KillStrands(config: Config, before: seq<Event>, events: seq<Event>)
    requires Distinct(config.questions) && Run(config, START, before).process.Active?
    ensures Run(config, START, before + [Kill] + events) == Run(config, START, before).(process := Idle)
  {
    RunInv(config, before);
    RunConcat(config, START, before, [Kill]);
    assert [Kill][..0] == [];
    RunConcat(config, START, before + [Kill], events);
    KilledForGood(config, Run(config, START, before + [Kill]), events);
  }

  // ----- runs without failures

  predicate IsClean(e: Event) {
    e.Pick? || (e.Finish? && e.outcome.Answered? && e.outcome.question == e.question)
  }

  predicate AreClean(events: seq<Event>) {
    forall e :: e in events ==> IsClean(e)
  }

  /** A clean pool: no failure, no stop, and what left the pool unexecuted is nothing. */
  ghost predicate CleanPool(config: Config, base: World, w: World) {
    var p := w.process;
    && p.Active? && p.reason.None? && p.failed == {}
    && p.pending == Begun(config, base).process.pending
    && w.record == Begun(config, base).record
    && w.results.Keys == base.results.Keys + p.done
  }

  lemma CleanNext(config: Config, base: World, w: World, e: Event)
    requires Inv(config, w) && CleanPool(config, base, w) && IsClean(e)
    ensures CleanPool(config, base, Next(config, w, e))
  {
  }

  lemma {:induction false} CleanPoolStays(config: Config, base: World, events: seq<Event>)
    requires Inv(config, base) && Enabled(config, base, Begin(true, true)) && AreClean(events)
    ensures Inv(config, Run(config, Begun(config, base), events))
    ensures CleanPool(config, base, Run(config, Begun(config, base), events))
  {
    BegunInv(config, base, true, true);
    if events != [] {
      var before := events[..|events| - 1];
      CleanPoolStays(config, base, before);
      CleanNext(config, base, Run(config, Begun(config, base), before), events[|events| - 1]);
      NextInv(config, Run(config, Begun(config, base), before), events[|events| - 1]);
    }
  }

  function MissingIn(config: Config, w: World): seq<string> {
    Missing(config.questions, w.results.Keys)
  }

  function Smaller(x: nat, y: nat): nat { if x < y then x else y }

  lemma {:induction false} NothingMissing(questions: seq<string>, saved: set<string>)
    requires forall q :: q in questions ==> q in saved
    ensures Missing(questions, saved) == []
  {
    if questions != [] {
      NothingMissing(questions[..|questions| - 1], saved);
    }
  }

  /** Saving the first of the missing questions leaves the others missing. */
  lemma {:induction false} MissingAfter(questions: seq<string>, saved: set<string>, more: set<string>, n: nat)
    requires Distinct(questions) && n <= |Missing(questions, saved)|
    requires forall q :: q in more <==> q in Missing(questions, saved)[..n]
    ensures Missing(questions, saved + more) == Missing(questions, saved)[n..]
  {
    if n == |Missing(questions, saved)| {
      assert Missing(questions, saved)[..n] == Missing(questions, saved);
      NothingMissing(questions, saved + more);
    } else {
      var before, last := questions[..|questions| - 1], questions[|questions| - 1];
      var rest, all := Missing(before, saved), Missing(questions, saved);
      LastIsNew(questions, saved, n);
      assert all[..n] == rest[..n] && all[n..] == rest[n..] + all[|rest|..];
      MissingAfter(before, saved, more, n);
    }
  }

  lemma LastIsNew(questions: seq<string>, saved: set<string>, n: nat)
    requires Distinct(questions) && questions != []
    requires n <= |Missing(questions[..|questions| - 1], saved)|
    ensures questions[|questions| - 1] !in Missing(questions[..|questions| - 1], saved)[..n]
  {
    var before := questions[..|questions| - 1];
    assert forall i | 0 <= i < |before| :: questions[i] == before[i];
    assert forall q :: q in Missing(before, saved)[..n] ==> q in Missing(before, saved);
  }

  /** What a clean pool has saved once all its workers returned. */
  lemma CleanPoolSaves(config: Config, base: World, w: World)
    requires Inv(config, base) && Inv(config, w) && CleanPool(config, base, w) && Enabled(config, w, Conclude)
    ensures MissingIn(config, w) == MissingIn(config, base)[Smaller(config.batchCap, |MissingIn(config, base)|)..]
  {
    var missing := MissingIn(config, base);
    var n := Smaller(config.batchCap, |missing|);
    SavedExact(config, base.results);
    assert Saved(config, base.results) == base.results.Keys;
    assert w.process.pending == missing[..n];
    MissingAfter(config.questions, base.results.Keys, w.process.done, n);
  }

  /** Its run completes the experiment when nothing is missing, and otherwise stops at the batch cap. */
  lemma CleanPoolConcludes(config: Config, base: World, w: World)
    requires Inv(config, w) && CleanPool(config, base, w) && Enabled(config, w, Conclude)
    ensures var t := Concluded(config, w);
      && t.process.Idle? && t.results == w.results
      && (t.record.status == Completed <==> MissingIn(config, w) == [])
      && (t.record.status != Completed ==> t.record.status == Stopped && t.record.reason == Some(BatchCap))
  {
    AllSaved(config, w.process.completed);
    NoneMissing(config, w);
  }

  /** The world after one run whose workers did these things. */
  function AfterRun(config: Config, w: World, events: seq<Event>): World {
    Next(config, Run(config, Next(config, w, Begin(true, true)), events), Conclude)
  }

  /** A run that may begin, fails nowhere, and concludes. */
  ghost predicate IsCleanRun(config: Config, w: World, events: seq<Event>) {
    && AreClean(events) && Enabled(config, w, Begin(true, true))
    && Enabled(config, Run(config, Begun(config, w), events), Conclude)
  }

  /** A clean run saves the first `batchCap` missing questions. */
  lemma CleanRunAdvances(config: Config, w: World, events: seq<Event>)
    requires Inv(config, w) && IsCleanRun(config, w, events)
    ensures w.record.status != Completed
    ensures var t := AfterRun(config, w, events);
      && Inv(config, t) && t.process.Idle?
      && MissingIn(config, t) == MissingIn(config, w)[Smaller(config.batchCap, |MissingIn(config, w)|)..]
      && (t.record.status == Completed <==> MissingIn(config, t) == [])
      && (t.record.status != Completed ==> t.record.status == Stopped && t.record.reason == Some(BatchCap))
  {
    var ended := Run(config, Begun(config, w), events);
    CleanPoolStays(config, w, events);
    ConcludedInv(config, ended);
    CleanPoolSaves(config, w, ended);
    CleanPoolConcludes(config, w, ended);
  }

  lemma NoneMissing(config: Config, w: World)
    requires w.results.Keys <= Questions(config)
    ensures MissingIn(config, w) == [] <==> w.results.Keys == Questions(config)
  {
    if MissingIn(config, w) != [] {
      assert MissingIn(config, w)[0] in MissingIn(config, w);
    }
  }

  /** The world after several runs in turn. */
  function AfterRuns(config: Config, runs: seq<seq<Event>>): World {
    if runs == [] then START else AfterRun(config, AfterRuns(config, runs[..|runs| - 1]), runs[|runs| - 1])
  }

  ghost predicate AreCleanRuns(config: Config, runs: seq<seq<Event>>) {
    runs != [] ==>
      AreCleanRuns(config, runs[..|runs| - 1]) &&
        IsCleanRun(config, AfterRuns(config, runs[..|runs| - 1]), runs[|runs| - 1])
  }

  /** `k` batches of questions. */
  function Covered(cap: nat, k: nat): nat {
    if k == 0 then 0 else Covered(cap, k - 1) + cap
  }

  lemma {:induction false} CoveredIs(cap: nat, k: nat)
    ensures Covered(cap, k) == k * cap
  {
    if k > 0 {
      CoveredIs(cap, k - 1);
    }
  }

  /** The first `x` questions have results and no other has. */
  ghost predicate AfterFirst(config: Config, t: World, x: nat) {
    && MissingIn(config, t) == config.questions[Smaller(x, |config.questions|)..]
    && (t.record.status == Completed <==> x >= |config.questions|)
  }

  lemma BatchNext(config: Config, w: World, t: World, x: nat)
    requires AfterFirst(config, w, x) && w.record.status != Completed
    requires MissingIn(config, t) == MissingIn(config, w)[Smaller(config.batchCap, |MissingIn(config, w)|)..]
    requires t.record.status == Completed <==> MissingIn(config, t) == []
    ensures x < |config.questions| && AfterFirst(config, t, x + config.batchCap)
  {
    DropMore(config.questions, x, config.batchCap);
  }

  lemma CleanRunFrom(config: Config, w: World, events: seq<Event>, x: nat)
    requires Inv(config, w) && AfterFirst(config, w, x) && IsCleanRun(config, w, events)
    ensures Inv(config, AfterRun(config, w, events))
    ensures x < |config.questions| && AfterFirst(config, AfterRun(config, w, events), x + config.batchCap)
  {
    CleanRunAdvances(config, w, events);
    BatchNext(config, w, AfterRun(config, w, events), x);
  }

  lemma StartFirst(config: Config)
    requires Distinct(config.questions) && config.questions != []
    ensures Inv(config, START) && AfterFirst(config, START, 0)
  {
    AllMissing(config.questions);
    assert START.results.Keys == {};
  }

  lemma {:induction false} CleanRunsCover(config: Config, runs: seq<seq<Event>>)
    requires Distinct(config.questions) && config.questions != [] && AreCleanRuns(config, runs)
    ensures Inv(config, AfterRuns(config, runs))
    ensures AfterFirst(config, AfterRuns(config, runs), Covered(config.batchCap, |runs|))
    ensures |runs| > 0 ==> Covered(config.batchCap, |runs| - 1) < |config.questions|
  {
    if runs == [] {
      StartFirst(config);
    } else {
      var before := runs[..|runs| - 1];
      CleanRunsCover(config, before);
      CleanRunFrom(config, AfterRuns(config, before), runs[|runs| - 1], Covered(config.batchCap, |before|));
    }
  }

  /** After `k` clean runs all but the first `k * batchCap` questions are missing, and the experiment completes
      in the first run that covers them all: run number n / batchCap, rounded up. */
  lemma CleanRunsComplete(config: Config, runs: seq<seq<Event>>)
    requires Distinct(config.questions) && config.questions != [] && AreCleanRuns(config, runs)
    ensures var t, k, n := AfterRuns(config, runs), |runs|, |config.questions|;
      && Covered(config.batchCap, k) == k * config.batchCap
      && MissingIn(config, t) == config.questions[Smaller(Covered(config.batchCap, k), n)..]
      && (t.record.status == Completed <==> k * config.batchCap >= n)
      && (k > 0 ==> (k - 1) * config.batchCap < n)
  {
    CleanRunsCover(config, runs);
    CoveredIs(config.batchCap, |runs|);
    if |runs| > 0 {
      CoveredIs(config.batchCap, |runs| - 1);
    }
  }

  lemma DropMore(s: seq<string>, x: nat, cap: nat)
    requires x < |s| && cap > 0
    ensures Smaller(x, |s|) == x
    ensures s[x..][Smaller(cap, |s[x..]|)..] == s[Smaller(x + cap, |s|)..]
    ensures s[Smaller(x + cap, |s|)..] == [] <==> x + cap >= |s|
  {
  }

  lemma {:induction false} AllMissing(questions: seq<string>)
    ensures Missing(questions, {}) == questions
  {
    if questions != [] {
      AllMissing(questions[..|questions| - 1]);
    }
  }

  // ----- such runs exist

  lemma {:induction false} MissingDistinct(questions: seq<string>, saved: set<string>)
    requires Distinct(questions)
    ensures Distinct(Missing(questions, saved))
  {
    if questions != [] {
      MissingDistinct(questions[..|questions| - 1], saved);
      LastIsNew(questions, saved, |Missing(questions[..|questions| - 1], saved)|);
      var rest := Missing(questions[..|questions| - 1], saved);
      assert rest[..|rest|] == rest;
      assert forall i | 0 <= i < |rest| :: rest[i] in rest;
    }
  }

  /** One worker after the other answers. */
  function Script(questions: seq<string>): (events: seq<Event>)
    ensures AreClean(events)
  {
    if questions == [] then []
    else
      var q := questions[|questions| - 1];
      Script(questions[..|questions| - 1]) + [Pick(q), Finish(q, Answered(q, "answer"))]
  }

  lemma PickAndAnswer(config: Config, w: World, q: string)
    requires Inv(config, w) && w.process.Active? && w.process.reason.None? && w.process.executing == {}
    requires q in w.process.pending && q !in w.process.done
    ensures var t := Next(config, Next(config, w, Pick(q)), Finish(q, Answered(q, "answer")));
      && t.process.Active? && t.process.executing == {} && t.process.done == w.process.done + {q}
  {
  }

  /** The first `i` pending questions are answered and nobody is working. */
  predicate Scripted(p: Process, pending: seq<string>, i: nat) {
    i <= |pending| && p.Active? && p.executing == {} && p.done == AsSet(pending[..i])
  }

  lemma PrefixSet(s: seq<string>, i: nat)
    requires i < |s|
    ensures AsSet(s[..i + 1]) == AsSet(s[..i]) + {s[i]}
  {
    assert s[..i + 1] == s[..i] + [s[i]];
  }

  lemma ScriptNext(config: Config, w: World, pending: seq<string>, i: nat)
    requires Inv(config, w) && w.process.Active? && w.process.reason.None? && w.process.pending == pending
    requires i < |pending| && pending[i] !in pending[..i] && Scripted(w.process, pending, i)
    ensures var picked := Next(config, w, Pick(pending[i]));
      Scripted(Next(config, picked, Finish(pending[i], Answered(pending[i], "answer"))).process, pending, i + 1)
  {
    PrefixSet(pending, i);
    PickAndAnswer(config, w, pending[i]);
  }

  lemma {:induction false} ScriptRuns(config: Config, w: World, i: nat)
    requires Inv(config, w) && Enabled(config, w, Begin(true, true)) && i <= |Begun(config, w).process.pending|
    ensures var pending := Begun(config, w).process.pending;
      Scripted(Run(config, Begun(config, w), Script(pending[..i])).process, pending, i)
  {
    var b := Begun(config, w);
    var pending := b.process.pending;
    if i > 0 {
      ScriptRuns(config, w, i - 1);
      var script, q := Script(pending[..i - 1]), pending[i - 1];
      CleanPoolStays(config, w, script);
      PendingDistinct(config, w, i - 1);
      ScriptNext(config, Run(config, b, script), pending, i - 1);
      TwoSteps(config, b, script, Pick(q), Finish(q, Answered(q, "answer")));
      ScriptLonger(pending, i - 1);
    }
  }

  lemma ScriptLonger(pending: seq<string>, i: nat)
    requires i < |pending|
    ensures Script(pending[..i + 1]) ==
      Script(pending[..i]) + [Pick(pending[i]), Finish(pending[i], Answered(pending[i], "answer"))]
  {
    assert pending[..i + 1][..i] == pending[..i];
  }

  lemma PendingDistinct(config: Config, w: World, i: nat)
    requires Distinct(config.questions) && i < |Begun(config, w).process.pending|
    ensures var pending := Begun(config, w).process.pending; pending[i] !in pending[..i]
  {
    MissingDistinct(config.questions, Saved(config, w.results));
  }

  lemma TwoSteps(config: Config, w: World, events: seq<Event>, d: Event, e: Event)
    ensures Run(config, w, events + [d, e]) == Next(config, Next(config, Run(config, w, events), d), e)
  {
    var one, two := events + [d], events + [d, e];
    assert two[..|two| - 1] == one && two[|two| - 1] == e;
    assert one[..|one| - 1] == events && one[|one| - 1] == d;
  }

  /** Whenever a run may begin, it can be a clean one. */
  lemma CleanRunPossible(config: Config, w: World)
    requires Inv(config, w) && Enabled(config, w, Begin(true, true))
    ensures exists events :: IsCleanRun(config, w, events)
  {
    var pending := Begun(config, w).process.pending;
    ScriptRuns(config, w, |pending|);
    assert pending[..|pending|] == pending;
    CleanPoolStays(config, w, Script(pending));
    assert IsCleanRun(config, w, Script(pending));
  }
}
