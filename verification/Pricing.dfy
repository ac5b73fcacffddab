/** Upper-bound prices (src/ragbench/providers/upstage/pricing.py) and the billed amount the gateway
    reserves and settles (src/ragbench/providers/upstage/client.py). Amounts are whole micro-dollars;
    rates are exact. */
module Pricing {
  import opened Results
  import Budget

  /** The last one is an arithmetic error; the others are value errors. */
  datatype PriceError = NegativeUsage | UnknownModel | MissingField | UnsupportedOperation | TooManyDigits

  /** Dollars per million tokens. */
  datatype GenerationRates = GenerationRates(input: real, output: real)

  datatype EmbeddingRates = EmbeddingRates(input: real, promotionInput: real, promotionEnds: int)

  /** `pages` holds dollars per page for each parse mode. */
  datatype Model = Model(pages: map<string, real>, generation: Option<GenerationRates>,
    embedding: Option<EmbeddingRates>)

  type PriceBook = map<string, Model>

  datatype PricingRequest = PricingRequest(
    operation: string, model: string, inputTokens: int, outputTokens: int, billablePages: int, mode: string,
      requestedAt: int)

  // ----- rounding

  /** Rounding up to a whole micro-dollar. */
  function Ceiling(x: real): (n: int)
    ensures x <= n as real < x + 1.0
  {
    -((-x).Floor)
  }

  /** Rounding to the nearest whole micro-dollar, ties to the even one. */
  function HalfEven(x: real): (n: int)
    ensures -0.5 <= n as real - x <= 0.5
    ensures n as real - x == 0.5 || x - n as real == 0.5 ==> n % 2 == 0
  {
    var low := x.Floor;
    var rest := x - low as real;
    if rest < 0.5 then low
    else if rest > 0.5 then low + 1
    else if low % 2 == 0 then low else low + 1
  }

  /** Amounts have at most 28 digits, the precision of the decimal context. */
  const Limit: int := 10000000000000000000000000000

  predicate Representable(amount: int) {
    -Limit < amount < Limit
  }

  /** An amount of too many digits is refused by the rounding itself. */
  function Quantized(amount: int): Result<int, PriceError> {
    if Representable(amount) then Ok(amount) else Err(TooManyDigits)
  }

  lemma CeilingMonotone(x: real, y: real)
    requires x <= y
    ensures Ceiling(x) <= Ceiling(y)
  {
  }

  lemma HalfEvenMonotone(x: real, y: real)
    requires x <= y
    ensures HalfEven(x) <= HalfEven(y)
  {
  }

  // ----- estimates

  function Estimate(book: PriceBook, r: PricingRequest): Result<int, PriceError> {
    if r.inputTokens < 0 || r.outputTokens < 0 || r.billablePages < 0 then Err(NegativeUsage)
    else if r.model !in book then Err(UnknownModel)
    else
      var model := book[r.model];
      if r.operation == "parse" then
        if r.mode !in model.pages then Err(MissingField)
        else Quantized(Ceiling(Times(model.pages[r.mode] * 1000000.0, r.billablePages)))
      else if r.operation == "generate" then
        if model.generation.None? then Err(MissingField)
        else Quantized(Ceiling(GenerationCost(model.generation.value, r.inputTokens, r.outputTokens)))
      else if r.operation == "embed" then
        if model.embedding.None? then Err(MissingField)
        else Quantized(Ceiling(Times(EmbeddingRate(model.embedding.value, r.requestedAt), r.inputTokens)))
      else Err(UnsupportedOperation)
  }

  function Times(rate: real, count: int): real {
    rate * count as real
  }

  /** Dollars per million tokens, times tokens, is micro-dollars. */
  function GenerationCost(rates: GenerationRates, input: int, output: int): real {
    Times(rates.input, input) + Times(rates.output, output)
  }

  function EmbeddingRate(rates: EmbeddingRates, at: int): real {
    if at < rates.promotionEnds then rates.promotionInput else rates.input
  }

  /** The amount with tax that is reserved and settled. */
  function Gross(net: int, multiplier: real): int {
    HalfEven(Times(multiplier, net))
  }

  lemma TimesMonotone(rate: real, a: int, b: int)
    requires a <= b && 0.0 <= rate
    ensures Times(rate, a) <= Times(rate, b)
  {
  }

  lemma GrossMonotone(a: int, b: int, multiplier: real)
    requires a <= b && 0.0 <= multiplier
    ensures Gross(a, multiplier) <= Gross(b, multiplier)
  {
    TimesMonotone(multiplier, a, b);
    HalfEvenMonotone(Times(multiplier, a), Times(multiplier, b));
  }

  predicate RatesNonnegative(book: PriceBook) {
    forall m :: m in book ==>
      && (forall mode :: mode in book[m].pages ==> 0.0 <= book[m].pages[mode])
      && (book[m].generation.Some? ==> 0.0 <= book[m].generation.value.input && 0.0 <= book[m].generation.value.output)
      && (book[m].embedding.Some? ==>
        0.0 <= book[m].embedding.value.input && 0.0 <= book[m].embedding.value.promotionInput)
  }

  /** Nothing below a price that can be rounded fails to be rounded. */
  lemma CheaperIsPriced(x: real, y: real)
    requires 0.0 <= x <= y && Quantized(Ceiling(y)).Ok?
    ensures Quantized(Ceiling(x)).Ok? && 0 <= Ceiling(x) <= Ceiling(y)
  {
    CeilingMonotone(0.0, x);
    CeilingMonotone(x, y);
  }

  lemma CostMonotone(rates: GenerationRates, i: int, o: int, maxI: int, maxO: int)
    requires 0.0 <= rates.input && 0.0 <= rates.output && 0 <= i <= maxI && 0 <= o <= maxO
    ensures 0.0 <= GenerationCost(rates, i, o) <= GenerationCost(rates, maxI, maxO)
  {
    TimesMonotone(rates.input, 0, i);
    TimesMonotone(rates.output, 0, o);
    TimesMonotone(rates.input, i, maxI);
    TimesMonotone(rates.output, o, maxO);
  }

  lemma GenerationCostMonotone(rates: GenerationRates, i: int, o: int, maxI: int, maxO: int)
    requires 0.0 <= rates.input && 0.0 <= rates.output && 0 <= i <= maxI && 0 <= o <= maxO
    ensures Ceiling(GenerationCost(rates, i, o)) <= Ceiling(GenerationCost(rates, maxI, maxO))
  {
    CostMonotone(rates, i, o, maxI, maxO);
    CeilingMonotone(GenerationCost(rates, i, o), GenerationCost(rates, maxI, maxO));
  }

  /** Less usage of the same kind is priced too, and never dearer. */
  lemma EstimateMonotone(book: PriceBook, small: PricingRequest, large: PricingRequest)
    requires RatesNonnegative(book) && Estimate(book, large).Ok?
    requires 0 <= small.inputTokens <= large.inputTokens && 0 <= small.outputTokens <= large.outputTokens
    requires 0 <= small.billablePages <= large.billablePages
    requires large == small.(inputTokens := large.inputTokens, outputTokens := large.outputTokens,
      billablePages := large.billablePages)
    ensures Estimate(book, small).Ok? && 0 <= Estimate(book, small).value <= Estimate(book, large).value
  {
    var model := book[small.model];
    if small.operation == "parse" {
      var rate := model.pages[small.mode] * 1000000.0;
      TimesMonotone(rate, 0, small.billablePages);
      TimesMonotone(rate, small.billablePages, large.billablePages);
      CheaperIsPriced(Times(rate, small.billablePages), Times(rate, large.billablePages));
    } else if small.operation == "generate" {
      var rates := model.generation.value;
      CostMonotone(rates, small.inputTokens, small.outputTokens, large.inputTokens, large.outputTokens);
      CheaperIsPriced(GenerationCost(rates, small.inputTokens, small.outputTokens),
        GenerationCost(rates, large.inputTokens, large.outputTokens));
    } else {
      var rate := EmbeddingRate(model.embedding.value, small.requestedAt);
      TimesMonotone(rate, 0, small.inputTokens);
      TimesMonotone(rate, small.inputTokens, large.inputTokens);
      CheaperIsPriced(Times(rate, small.inputTokens), Times(rate, large.inputTokens));
    }
  }

  // ----- what a price is

  /** `n` is the least whole number not below `x`. */
  predicate LeastWhole(n: int, x: real) {
    n as real - 1.0 < x <= n as real
  }

  /** `n` is the whole number nearest to `x`, the even one of two. */
  predicate NearestWhole(n: int, x: real) {
    -0.5 <= n as real - x <= 0.5 && (n as real - x == 0.5 || x - n as real == 0.5 ==> n % 2 == 0)
  }

  predicate IsPagePrice(rate: real, pages: int, x: real) {
    x == rate * 1000000.0 * pages as real
  }

  predicate IsTokenPrice(rate: real, tokens: int, x: real) {
    x == rate * tokens as real
  }

  predicate IsGenerationPrice(rates: GenerationRates, input: int, output: int, x: real) {
    x == rates.input * input as real + rates.output * output as real
  }

  /** The price in micro-dollars before rounding: dollars per page times a million times pages; dollars per
      million input tokens and per million output tokens times those; or the embedding rate, promotional
      strictly before the promotion ends, times input tokens. */
  predicate IsPrice(book: PriceBook, r: PricingRequest, x: real) {
    r.model in book &&
    var model := book[r.model];
    || (r.operation == "parse" && r.mode in model.pages && IsPagePrice(model.pages[r.mode], r.billablePages, x))
    || (r.operation == "generate" && model.generation.Some?
        && IsGenerationPrice(model.generation.value, r.inputTokens, r.outputTokens, x))
    || (r.operation == "embed" && model.embedding.Some? && r.requestedAt < model.embedding.value.promotionEnds
        && IsTokenPrice(model.embedding.value.promotionInput, r.inputTokens, x))
    || (r.operation == "embed" && model.embedding.Some? && r.requestedAt >= model.embedding.value.promotionEnds
        && IsTokenPrice(model.embedding.value.input, r.inputTokens, x))
  }

  /** An estimate is the price rounded up, exactly when no count is negative, there is a price, and the rounded
      price is not too long. */
  lemma EstimateIff(book: PriceBook, r: PricingRequest, n: int)
    ensures Estimate(book, r) == Ok(n) <==>
      && 0 <= r.inputTokens && 0 <= r.outputTokens && 0 <= r.billablePages
      && Representable(n) && exists x :: IsPrice(book, r, x) && LeastWhole(n, x)
  {
    if x :| IsPrice(book, r, x) && LeastWhole(n, x) {
      PriceDecides(book, r, n, x);
    } else if Estimate(book, r) == Ok(n) {
      var x := PriceOf(book, r);
      PriceDecides(book, r, n, x);
    }
  }

  /** The price of what could be estimated. */
  lemma PriceOf(book: PriceBook, r: PricingRequest) returns (x: real)
    requires Estimate(book, r).Ok?
    ensures IsPrice(book, r, x)
  {
    var model := book[r.model];
    if r.operation == "parse" {
      x := model.pages[r.mode] * 1000000.0 * r.billablePages as real;
    } else if r.operation == "generate" {
      x := model.generation.value.input * r.inputTokens as real +
        model.generation.value.output * r.outputTokens as real;
    } else {
      var rates := model.embedding.value;
      x := (if r.requestedAt < rates.promotionEnds then rates.promotionInput else rates.input) * r.inputTokens as real;
    }
  }

  lemma PriceDecides(book: PriceBook, r: PricingRequest, n: int, x: real)
    requires IsPrice(book, r, x)
    ensures Estimate(book, r) == Ok(n) <==>
      && 0 <= r.inputTokens && 0 <= r.outputTokens && 0 <= r.billablePages && Representable(n) && LeastWhole(n, x)
  {
    EstimateRounds(book, r, x);
    CeilingLeast(x, n);
  }

  lemma EstimateRounds(book: PriceBook, r: PricingRequest, x: real)
    requires IsPrice(book, r, x)
    ensures Estimate(book, r) ==
      if 0 <= r.inputTokens && 0 <= r.outputTokens && 0 <= r.billablePages then Quantized(Ceiling(x))
      else Err(NegativeUsage)
  {
    var model := book[r.model];
    if r.operation == "parse" {
      assert x == Times(model.pages[r.mode] * 1000000.0, r.billablePages);
    } else if r.operation == "generate" {
      assert x == GenerationCost(model.generation.value, r.inputTokens, r.outputTokens);
    } else {
      assert x == Times(EmbeddingRate(model.embedding.value, r.requestedAt), r.inputTokens);
    }
  }

  lemma CeilingLeast(x: real, n: int)
    ensures n == Ceiling(x) <==> LeastWhole(n, x)
  {
  }

  // ----- one generation: its projection, and what its answer is settled at

  datatype Terms = Terms(book: PriceBook, multiplier: real)

  /** A request with its declared token bounds. */
  datatype Generation = Generation(model: string, maxInput: int, maxOutput: int)

  function Billed(terms: Terms, request: PricingRequest): Result<int, PriceError> {
    match Estimate(terms.book, request)
    case Err(e) => Err(e)
    case Ok(net) => Quantized(Gross(net, terms.multiplier))
  }

  function GenerateRequestPrice(model: string, input: int, output: int): PricingRequest {
    PricingRequest("generate", model, input, output, 0, "standard", 0)
  }

  function Projected(terms: Terms, g: Generation): Result<int, PriceError> {
    Billed(terms, GenerateRequestPrice(g.model, g.maxInput, g.maxOutput))
  }

  /** A count in an answer: left out, a number after conversion, something whose conversion is a type or
      value error, or an infinity, whose conversion is an overflow. */
  datatype Reported = Missing | Count(n: int) | Unreadable | Infinite

  /** The body of an answer; without decoded JSON, or without the generated text, the call fails. */
  datatype Response = Undecodable | Decoded(hasContent: bool, prompt: Reported, completion: Reported)

  /** Only what is `Rejected` - a type or value error - falls back to the projection. */
  datatype UsageError = Rejected | Arithmetic

  function Read(count: Reported, bound: int): Result<int, UsageError> {
    match count
    case Missing => Ok(bound)
    case Count(n) => Ok(n)
    case Unreadable => Err(Rejected)
    case Infinite => Err(Arithmetic)
  }

  /** Counts the provider left out are taken from the declared bounds. */
  function GenerationUsage(terms: Terms, g: Generation, prompt: Reported,
                           completion: Reported): Result<Budget.Usage, UsageError> {
    match Read(prompt, g.maxInput)
    case Err(e) => Err(e)
    case Ok(input) =>
      match Read(completion, g.maxOutput)
      case Err(e) => Err(e)
      case Ok(output) =>
        match Billed(terms, GenerateRequestPrice(g.model, input, output))
        case Err(e) => Err(if e == TooManyDigits then Arithmetic else Rejected)
        case Ok(cost) => Ok(Budget.Usage(input, output, 0, cost))
  }

  /** How an answered call settles its reservation: at the reported usage, flagged if there is no text; or
      flagged at the projection. Nothing is settled when the fallback itself raises. */
  function Accounting(terms: Terms, g: Generation, projected: int, response: Response): Option<Budget.Settlement> {
    var fallback := Budget.Settlement("generate", g.model, Budget.Usage(g.maxInput, g.maxOutput, 0, projected), false,
      true);
    match response
    case Undecodable => Some(fallback)
    case Decoded(hasContent, prompt, completion) =>
      match GenerationUsage(terms, g, prompt, completion)
      case Ok(usage) => Some(Budget.Settlement("generate", g.model, usage, false, !hasContent))
      case Err(e) => if e == Rejected then Some(fallback) else None
  }

  /** A count that has no numeric value, and what a count stands for otherwise. */
  predicate Readable(count: Reported) {
    count.Missing? || count.Count?
  }

  function Value(count: Reported, bound: int): int {
    if count.Count? then count.n else bound
  }

  /** The net price, or the price with tax, has more digits than amounts can have. */
  predicate TooDear(rates: GenerationRates, multiplier: real, input: int, output: int) {
    var net := Ceiling(GenerationCost(rates, input, output));
    !Representable(net) || !Representable(Gross(net, multiplier))
  }

  /** The answers that settle nothing: the first count that cannot be read is an infinity, or both can be
      read, are not negative, and cost too much to be written down. */
  predicate Unaccountable(terms: Terms, g: Generation, response: Response)
    requires g.model in terms.book && terms.book[g.model].generation.Some?
  {
    response.Decoded? &&
    var input, output := Value(response.prompt, g.maxInput), Value(response.completion, g.maxOutput);
    || response.prompt.Infinite?
    || (Readable(response.prompt) && response.completion.Infinite?)
    || (Readable(response.prompt) && Readable(response.completion) && 0 <= input && 0 <= output
        && TooDear(terms.book[g.model].generation.value, terms.multiplier, input, output))
  }

  lemma ProjectedModel(terms: Terms, g: Generation)
    requires Projected(terms, g).Ok?
    ensures g.model in terms.book && terms.book[g.model].generation.Some? && 0 <= g.maxInput && 0 <= g.maxOutput
  {
  }

  /** Exactly those answers are not accounted for. */
  lemma UnaccountableIff(terms: Terms, g: Generation, projected: int, response: Response)
    requires g.model in terms.book && terms.book[g.model].generation.Some?
    ensures Accounting(terms, g, projected, response).None? <==> Unaccountable(terms, g, response)
  {
  }

  /** The bill for these counts: their price rounded up, times the multiplier, rounded to the nearest. */
  ghost predicate IsBill(terms: Terms, model: string, input: int, output: int, cost: int) {
    && model in terms.book && terms.book[model].generation.Some?
    && exists net ::
         IsNet(terms.book[model].generation.value, input, output, net) && IsTaxed(terms.multiplier, net, cost)
  }

  ghost predicate IsNet(rates: GenerationRates, input: int, output: int, net: int) {
    exists x :: IsGenerationPrice(rates, input, output, x) && LeastWhole(net, x)
  }

  predicate IsTaxed(multiplier: real, net: int, cost: int) {
    NearestWhole(cost, multiplier * net as real)
  }

  lemma GrossExact(net: int, multiplier: real)
    ensures IsTaxed(multiplier, net, Gross(net, multiplier))
  {
  }

  lemma BilledExact(terms: Terms, model: string, input: int, output: int)
    ensures var billed := Billed(terms, GenerateRequestPrice(model, input, output));
      billed.Ok? ==> 0 <= input && 0 <= output && IsBill(terms, model, input, output, billed.value)
  {
    var request := GenerateRequestPrice(model, input, output);
    if Billed(terms, request).Ok? {
      var net := Estimate(terms.book, request).value;
      NetExact(terms.book, model, input, output, net);
      GrossExact(net, terms.multiplier);
    }
  }

  lemma NetExact(book: PriceBook, model: string, input: int, output: int, net: int)
    requires Estimate(book, GenerateRequestPrice(model, input, output)) == Ok(net)
    ensures 0 <= input && 0 <= output && model in book && book[model].generation.Some?
    ensures IsNet(book[model].generation.value, input, output, net)
  {
    var request := GenerateRequestPrice(model, input, output);
    EstimateIff(book, request, net);
    var x :| IsPrice(book, request, x) && LeastWhole(net, x);
    assert IsGenerationPrice(book[model].generation.value, input, output, x);
  }

  /** What is reserved is the bill for the declared bounds. */
  lemma ProjectedExact(terms: Terms, g: Generation)
    requires Projected(terms, g).Ok?
    ensures IsBill(terms, g.model, g.maxInput, g.maxOutput, Projected(terms, g).value)
  {
    BilledExact(terms, g.model, g.maxInput, g.maxOutput);
  }

  /** The answer's counts are numbers that are not negative. */
  predicate Counted(g: Generation, response: Response) {
    && response.Decoded? && Readable(response.prompt) && Readable(response.completion)
    && 0 <= Value(response.prompt, g.maxInput) && 0 <= Value(response.completion, g.maxOutput)
  }

  /** What an answer is settled at: the bill for its counts, or the declared bounds at the projection when it has
      no proper counts; flagged exactly when these or the text are missing. */
  lemma AccountingExact(terms: Terms, g: Generation, projected: int, response: Response)
    requires g.model in terms.book && terms.book[g.model].generation.Some?
    requires Accounting(terms, g, projected, response).Some?
    ensures var s := Accounting(terms, g, projected, response).value;
      && s.operation == "generate" && s.model == g.model && !s.cacheHit && s.usage.billablePages == 0
      && (s.flagged <==> !Counted(g, response) || !response.hasContent)
      && (Counted(g, response) ==>
            && s.usage.inputTokens == Value(response.prompt, g.maxInput)
            && s.usage.outputTokens == Value(response.completion, g.maxOutput)
            && IsBill(terms, g.model, s.usage.inputTokens, s.usage.outputTokens, s.usage.cost))
      && (!Counted(g, response) ==> s.usage == Budget.Usage(g.maxInput, g.maxOutput, 0, projected))
  {
    if response.Decoded? {
      BilledExact(terms, g.model, Value(response.prompt, g.maxInput), Value(response.completion, g.maxOutput));
    }
  }

  /** At rates that are not negative, and a multiplier of at least one, only the price with tax matters:
      it is too dear from half a unit below the limit, where rounding to the even neighbour reaches it. */
  lemma TooDearIff(rates: GenerationRates, multiplier: real, input: nat, output: nat)
    requires 0.0 <= rates.input && 0.0 <= rates.output && 1.0 <= multiplier
    ensures TooDear(rates, multiplier, input, output) <==>
      Times(multiplier, Ceiling(GenerationCost(rates, input, output))) >= Limit as real - 0.5
  {
    CostMonotone(rates, 0, 0, input, output);
    var net := Ceiling(GenerationCost(rates, input, output));
    CeilingMonotone(0.0, GenerationCost(rates, input, output));
    TaxAdds(net, multiplier);
    HalfEvenReaches(Times(multiplier, net));
  }

  lemma TaxAdds(net: nat, multiplier: real)
    requires 1.0 <= multiplier
    ensures net as real <= Times(multiplier, net)
  {
    assert 0.0 <= (multiplier - 1.0) * net as real;
  }

  lemma HalfEvenReaches(x: real)
    requires 0.0 <= x
    ensures Representable(HalfEven(x)) <==> x < Limit as real - 0.5
  {
  }

  predicate WithinBound(count: Reported, bound: int) {
    count.Count? ==> 0 <= count.n <= bound
  }

  /** Every count it reports is within the declared bound. */
  predicate Bounded(g: Generation, response: Response) {
    response.Decoded? ==> WithinBound(response.prompt, g.maxInput) && WithinBound(response.completion, g.maxOutput)
  }

  /** Not decoded, without text, or with a count that is no number. */
  predicate Unusable(response: Response) {
    response.Undecodable? || !response.hasContent || response.prompt.Unreadable? || response.completion.Unreadable?
  }

  /** Usage within the declared token bounds is priced and costs at most the projection. So its reservation
      is settled for no more than was reserved, and flagged only for an answer that could not be used. */
  lemma BoundedUsageSettles(terms: Terms, g: Generation, r: Budget.Reservation, response: Response)
    requires RatesNonnegative(terms.book) && 0.0 <= terms.multiplier
    requires Projected(terms, g) == Ok(r.reserved) && Bounded(g, response)
    ensures Accounting(terms, g, r.reserved, response).None? <==>
      response.Decoded? && (response.prompt.Infinite? || (Readable(response.prompt) && response.completion.Infinite?))
    ensures var s := Accounting(terms, g, r.reserved, response);
      s.Some? ==>
        && s.value.usage.cost <= r.reserved && (s.value.flagged <==> Unusable(response))
        && Budget.Closed(r, s.value).status ==
          (if s.value.flagged then Budget.ReconciliationRequired else Budget.Status.Settled)
  {
    if response.Decoded? && Readable(response.prompt) && Readable(response.completion) {
      var input, output := Value(response.prompt, g.maxInput), Value(response.completion, g.maxOutput);
      BilledMonotone(terms, g, input, output);
    }
  }

  lemma BilledMonotone(terms: Terms, g: Generation, input: int, output: int)
    requires RatesNonnegative(terms.book) && 0.0 <= terms.multiplier && Projected(terms, g).Ok?
    requires 0 <= input <= g.maxInput && 0 <= output <= g.maxOutput
    ensures var billed := Billed(terms, GenerateRequestPrice(g.model, input, output));
      billed.Ok? && 0 <= billed.value <= Projected(terms, g).value
  {
    var small, large := GenerateRequestPrice(g.model, input, output),
      GenerateRequestPrice(g.model, g.maxInput, g.maxOutput);
    EstimateMonotone(terms.book, small, large);
    GrossMonotone(0, Estimate(terms.book, small).value, terms.multiplier);
    GrossMonotone(Estimate(terms.book, small).value, Estimate(terms.book, large).value, terms.multiplier);
  }

  /** At a negative rate, some number of tokens has a negative price. */
  lemma NegativeRateCharge(rate: real, multiplier: real) returns (n: nat)
    requires rate < 0.0 && 1.0 <= multiplier
    ensures Gross(Ceiling(Times(rate, n)), multiplier) < 0
  {
    n := Ceiling(2.0 / -rate);
    EnoughTokens(rate, n);
    NegativeStaysNegative(Ceiling(Times(rate, n)), multiplier);
  }

  lemma EnoughTokens(rate: real, n: nat)
    requires rate < 0.0 && 2.0 / -rate <= n as real
    ensures Times(rate, n) <= -2.0
  {
    var x := 2.0 / -rate;
    assert rate * x == -2.0;
    assert (-rate) * x <= (-rate) * n as real;
  }

  lemma NegativeStaysNegative(net: int, multiplier: real)
    requires net <= -1 && 1.0 <= multiplier
    ensures Gross(net, multiplier) < 0
  {
    assert Times(multiplier, net) <= -1.0;
  }

  /** The rates decide it: as exact amounts, settling below the bounds is never dearer than the bounds,
      whatever they are, exactly when no rate is negative (which the price book does not check). */
  lemma NoOverrunIffRatesNonnegative(rates: GenerationRates, multiplier: real)
    requires 1.0 <= multiplier
    ensures (forall i: nat, o: nat, maxI: nat, maxO: nat :: i <= maxI && o <= maxO ==>
              Gross(Ceiling(GenerationCost(rates, i, o)), multiplier) <=
              Gross(Ceiling(GenerationCost(rates, maxI, maxO)), multiplier))
       <==> 0.0 <= rates.input && 0.0 <= rates.output
  {
    if 0.0 <= rates.input && 0.0 <= rates.output {
      forall i: nat, o: nat, maxI: nat, maxO: nat | i <= maxI && o <= maxO
        ensures Gross(Ceiling(GenerationCost(rates, i, o)), multiplier) <=
          Gross(Ceiling(GenerationCost(rates, maxI, maxO)), multiplier)
      {
        GenerationCostMonotone(rates, i, o, maxI, maxO);
        GrossMonotone(Ceiling(GenerationCost(rates, i, o)), Ceiling(GenerationCost(rates, maxI, maxO)), multiplier);
      }
    } else {
      var byInput := rates.input < 0.0;
      var n := NegativeRateCharge(if byInput then rates.input else rates.output, multiplier);
      var i: nat, o: nat := if byInput then n else 0, if byInput then 0 else n;
      assert Gross(Ceiling(GenerationCost(rates, 0, 0)), multiplier) == 0;
      assert GenerationCost(rates, i, o) == Times(if byInput then rates.input else rates.output, n);
      assert Gross(Ceiling(GenerationCost(rates, i, o)), multiplier) < Gross(Ceiling(GenerationCost(rates, 0, 0)),
        multiplier);
    }
  }
}
