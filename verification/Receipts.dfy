/**
 Immutable admissions and settlements, the mutable projection of them, and the
 reader that derives every charge from the immutable side.

 Money and rates are exact reals. A hash is modelled by the value it hashes.
*/
module Receipts {
  import opened Basics
  import opened Totals

  datatype Result<+T> = Ok(value: T) | Err(error: Error)

  /** Why a reader or a transaction refuses. */
  datatype Error =
    | InvalidEvidence | MissingReceipt | MissingRow | RowDiffersFromAdmission | PricingOrDayDiffers
    | InvalidReservation | InvalidPricing | InvalidRequestHash | ReservationDiffersFromBounds
    | UnsettledRowDiffers | RowDiffersFromSettlement | UsageDiffersFromEvidence | UnboundAuthority
    | InvalidRequest | DeadlineExpired | PricingUnavailable | InvalidAuthority | PriorBreach | CapExhausted
    | IdentityUsed | InvalidReport | NotReserved | ClockBeforeAdmission | AlreadySettled

  /** The call statuses the code tells apart ("reserved" is Open, "ok" is Success); any other status is Other. */
  datatype Status = Blank | Open | Success | UsageOverrun | PricingMismatch | ModelMismatch | UsageUnknown
                  | Other(text: string)

  const COUNTER_LIMIT: int := 0x4000_0000_0000_0000
  const TOKEN_LIMIT: int := 0x8000_0000_0000_0000

  function DayOf(t: Time): (day: int)
    ensures day * DAY <= t < (day + 1) * DAY
  {
    t / DAY
  }

  datatype Price = Price(provider: string, model: string, version: string, sourceUri: string,
                         effectiveAt: Time, inputRate: real, outputRate: real)

  datatype Caps = Caps(perRun: Amount, perDay: Amount)

  datatype Scope = RunScope(run: string) | DayScope(day: int)

  datatype Admission = Admission(
    callId: Id, runId: string, sessionId: string, startedAt: Time, provider: string, model: string,
    inputBound: int, outputLimit: int, requestHash: Option<string>,
    reservedTokens: int, reservedCost: real, pricing: Price)

  datatype Evidence = Evidence(
    responsePresent: bool, model: Option<string>, input: Option<int>, output: Option<int>,
    total: Option<int>, totalRequired: bool, ambiguous: bool, responseHash: Option<string>)

  datatype Breach =
    | PricingIdentityMismatch | AmbiguousResponse | ContradictoryResponse | ModelUnverifiable
    | TokensExceeded | CostExceeded | InputExceeded | OutputExceeded | ReportedOverrun

  datatype Usage = Usage(
    input: Option<int>, output: Option<int>, tokenLowerBound: int, actualTokens: Option<int>,
    costLowerBound: Option<real>, actualCost: Option<real>,
    chargedTokens: int, chargedCost: real, breaches: set<Breach>, status: Status)
  {
    function Charged(): Amount {
      Amount(1, chargedTokens, chargedCost)
    }
  }

  /** One row of the mutable accounting table. */
  datatype Row = Row(
    id: Id, runId: string, day: int, provider: string, model: string, pricingVersion: string,
    reservedTokens: int, chargedTokens: int, reservedCost: real, chargedCost: real,
    input: Option<int>, output: Option<int>, status: Status, startedAt: Time,
    latency: Option<real>, actualModel: Option<string>)

  datatype Settlement = Settlement(
    admission: Admission, evidence: Evidence, suppliedPricing: Price, usage: Usage,
    reportedStatus: Status, completedAt: Time, accounting: Row)

  datatype Store = Store(admissions: map<Id, Admission>, settlements: map<Id, Settlement>, calls: map<Id, Row>)

  const EMPTY := Store(map[], map[], map[])

  datatype Charge = Charge(id: Id, runId: string, day: int, pending: bool, model: Option<string>,
                           expectedModel: string, usage: Usage)
  {
    predicate In(scope: Scope) {
      match scope
      case RunScope(run) => runId == run
      case DayScope(d) => day == d
    }
  }

  predicate InScope(a: Admission, scope: Scope) {
    match scope
    case RunScope(run) => a.runId == run
    case DayScope(d) => DayOf(a.startedAt) == d
  }

  // ---------------------------------------------------------------- usage

  predicate IsCounter(n: int) {
    0 <= n < COUNTER_LIMIT
  }

  predicate OptionalCounter(n: Option<int>) {
    n.Some? ==> IsCounter(n.value)
  }

  predicate EvidenceWellFormed(e: Evidence) {
    && OptionalCounter(e.input) && OptionalCounter(e.output) && OptionalCounter(e.total)
    && (e.model.Some? ==> 0 < |e.model.value| <= 160)
    && (e.responseHash.Some? ==> IsSha256(e.responseHash.value))
  }

  /** What is on record before any provider response. */
  const NO_RESPONSE := Evidence(false, None, None, None, None, false, false, None)

  function OrZero(n: Option<int>): int {
    if n.Some? then n.value else 0
  }

  function Max(a: int, b: int): int {
    if a >= b then a else b
  }

  function MaxCost(a: real, b: real): real {
    if a >= b then a else b
  }

  function Cost(price: Price, input: int, output: int): real {
    (input as real * price.inputRate + output as real * price.outputRate) / 1_000_000.0
  }

  function Counters(e: Evidence): int {
    OrZero(e.input) + OrZero(e.output)
  }

  predicate Contradictory(e: Evidence) {
    e.total.Some? && (e.total.value < Counters(e) || (e.input.Some? && e.output.Some? && e.total.value != Counters(e)))
  }

  predicate Exact(e: Evidence) {
    e.input.Some? && e.output.Some? && !e.ambiguous && !Contradictory(e) && (e.totalRequired ==> e.total.Some?)
  }

  predicate Priced(a: Admission, e: Evidence) {
    e.model == Some(a.model)
  }

  function CostFloor(a: Admission, e: Evidence): Option<real> {
    if Priced(a, e) then Some(Cost(a.pricing, OrZero(e.input), OrZero(e.output))) else None
  }

  function TokenFloor(e: Evidence): int {
    Max(Counters(e), OrZero(e.total))
  }

  predicate Exceeds(n: Option<int>, bound: int) {
    n.Some? && n.value > bound
  }

  predicate CostOverrun(a: Admission, e: Evidence) {
    CostFloor(a, e).Some? && CostFloor(a, e).value > a.reservedCost
  }

  /** Some bound of the reservation is exceeded. */
  predicate ReservationExceeded(a: Admission, e: Evidence) {
    TokenFloor(e) > a.reservedTokens || CostOverrun(a, e)
    || Exceeds(e.input, a.inputBound) || Exceeds(e.output, a.outputLimit)
  }

  predicate BreachHolds(a: Admission, e: Evidence, reported: Status, pricingVerified: bool, b: Breach) {
    match b
    case PricingIdentityMismatch => !pricingVerified
    case AmbiguousResponse => e.ambiguous
    case ContradictoryResponse => Contradictory(e)
    case ModelUnverifiable => e.responsePresent && !Priced(a, e)
    case TokensExceeded => TokenFloor(e) > a.reservedTokens
    case CostExceeded => CostOverrun(a, e)
    case InputExceeded => Exceeds(e.input, a.inputBound)
    case OutputExceeded => Exceeds(e.output, a.outputLimit)
    case ReportedOverrun => reported == UsageOverrun && !ReservationExceeded(a, e)
  }

  /** The reasons a call is breached. The list's fixed order carries no information. */
  function Breaches(a: Admission, e: Evidence, reported: Status, pricingVerified: bool): set<Breach> {
    set b: Breach | BreachHolds(a, e, reported, pricingVerified, b)
  }

  function FinalStatus(a: Admission, e: Evidence, reported: Status, pricingVerified: bool): Status {
    if ReservationExceeded(a, e) || reported == UsageOverrun then UsageOverrun
    else if e.responsePresent && !Priced(a, e) then ModelMismatch
    else if !pricingVerified then PricingMismatch
    else if reported == Success && !Exact(e) then UsageUnknown
    else reported
  }

  /** The sole charge policy: replayed by admissions, settlements and readers. */
  function DeriveUsage(a: Admission, e: Evidence, reported: Status, pricingVerified: bool): Result<Usage> {
    if reported == Blank || !EvidenceWellFormed(e) then Err(InvalidEvidence)
    else
      var floor := CostFloor(a, e);
      Ok(Usage(
           e.input, e.output, TokenFloor(e),
           if Exact(e) then Some(Counters(e)) else None,
           floor,
           if Exact(e) then floor else None,
           Max(a.reservedTokens, TokenFloor(e)),
           MaxCost(a.reservedCost, if floor.Some? then floor.value else 0.0),
           Breaches(a, e, reported, pricingVerified),
           FinalStatus(a, e, reported, pricingVerified)))
  }

  // ---------------------------------------------------------------- usage arithmetic

  /** What the writer guarantees of an admission, and the reader checks again. */
  predicate AdmissionSound(id: Id, a: Admission) {
    && a.callId == id
    && a.pricing.provider == a.provider && a.pricing.model == a.model
    && a.pricing.effectiveAt <= a.startedAt
    && 0 < a.reservedTokens < TOKEN_LIMIT
    && a.reservedCost >= 0.0 && a.pricing.inputRate >= 0.0 && a.pricing.outputRate >= 0.0
    && (a.requestHash.Some? ==> IsSha256(a.requestHash.value))
    && a.inputBound > 0 && a.outputLimit >= 0
    && a.inputBound + a.outputLimit == a.reservedTokens
    && Cost(a.pricing, a.inputBound, a.outputLimit) == a.reservedCost
  }

  lemma ProductMono(n: int, m: int, rate: real)
    requires n <= m && rate >= 0.0
    ensures n as real * rate <= m as real * rate
  {
    assert (m as real - n as real) * rate >= 0.0;
  }

  lemma CostMono(price: Price, i: int, o: int, i': int, o': int)
    requires price.inputRate >= 0.0 && price.outputRate >= 0.0
    requires i <= i' && o <= o'
    ensures Cost(price, i, o) <= Cost(price, i', o')
  {
    ProductMono(i, i', price.inputRate);
    ProductMono(o, o', price.outputRate);
  }

  /**
   Spend cannot overrun on its own: a cost overrun comes with an input or an
   output overrun.
  */
  lemma CostOverrunHasTokenCause(id: Id, a: Admission, e: Evidence, reported: Status, pricingVerified: bool)
    requires AdmissionSound(id, a)
    requires CostExceeded in Breaches(a, e, reported, pricingVerified)
    ensures var bs := Breaches(a, e, reported, pricingVerified); InputExceeded in bs || OutputExceeded in bs
  {
    if !Exceeds(e.input, a.inputBound) && !Exceeds(e.output, a.outputLimit) {
      CostMono(a.pricing, OrZero(e.input), OrZero(e.output), a.inputBound, a.outputLimit);
    }
  }

  /**
   An unbreached call is exactly one whose response can be attributed and whose
   three counters each fit: the token and the spend fences add only the bound
   on the reported total.
  */
  lemma UnbreachedMeansEachCounterFits(id: Id, a: Admission, e: Evidence, reported: Status, pricingVerified: bool)
    requires AdmissionSound(id, a)
    ensures Breaches(a, e, reported, pricingVerified) == {}
       <==> && pricingVerified && !e.ambiguous && !Contradictory(e)
            && (e.responsePresent ==> Priced(a, e))
            && !Exceeds(e.input, a.inputBound) && !Exceeds(e.output, a.outputLimit)
            && !Exceeds(e.total, a.reservedTokens)
            && reported != UsageOverrun
  {
    var bs := Breaches(a, e, reported, pricingVerified);
    if !Exceeds(e.input, a.inputBound) && !Exceeds(e.output, a.outputLimit) {
      CostMono(a.pricing, OrZero(e.input), OrZero(e.output), a.inputBound, a.outputLimit);
    }
    if bs == {} {
      forall b: Breach ensures !BreachHolds(a, e, reported, pricingVerified, b) {
        assert b !in bs;
      }
      assert && !BreachHolds(a, e, reported, pricingVerified, PricingIdentityMismatch)
             && !BreachHolds(a, e, reported, pricingVerified, AmbiguousResponse)
             && !BreachHolds(a, e, reported, pricingVerified, ContradictoryResponse)
             && !BreachHolds(a, e, reported, pricingVerified, ModelUnverifiable)
             && !BreachHolds(a, e, reported, pricingVerified, TokensExceeded)
             && !BreachHolds(a, e, reported, pricingVerified, InputExceeded)
             && !BreachHolds(a, e, reported, pricingVerified, OutputExceeded)
             && !BreachHolds(a, e, reported, pricingVerified, CostExceeded)
             && !BreachHolds(a, e, reported, pricingVerified, ReportedOverrun);
    }
  }

  /** A charge never falls below its reservation, and equals it unless the call is breached. */
  lemma ChargeCoversReservation(id: Id, a: Admission, e: Evidence, reported: Status, pricingVerified: bool)
    requires AdmissionSound(id, a)
    requires DeriveUsage(a, e, reported, pricingVerified).Ok?
    ensures var u := DeriveUsage(a, e, reported, pricingVerified).value;
            && (forall m: Measure :: Reserved(a).Of(m) <= u.Charged().Of(m))
            && (u.breaches == {} ==> u.Charged() == Reserved(a))
  {
    var bs := Breaches(a, e, reported, pricingVerified);
    assert TokensExceeded in bs <==> TokenFloor(e) > a.reservedTokens;
    assert CostExceeded in bs <==> CostOverrun(a, e);
  }

  function Reserved(a: Admission): Amount {
    Amount(1, a.reservedTokens, a.reservedCost)
  }

  // ---------------------------------------------------------------- what the evidence allows

  /** Counts the provider may really have made: they agree with everything reported. */
  ghost predicate Possible(e: Evidence, input: nat, output: nat) {
    && (e.input.Some? ==> input == e.input.value)
    && (e.output.Some? ==> output == e.output.value)
    && (e.total.Some? ==> input + output == e.total.value)
  }

  /** Evidence contradicts itself exactly when no counts agree with it. */
  lemma ContradictionMeansImpossible(a: Admission, e: Evidence, reported: Status, pricingVerified: bool)
    requires EvidenceWellFormed(e)
    ensures ContradictoryResponse in Breaches(a, e, reported, pricingVerified) <==>
            forall input: nat, output: nat :: !Possible(e, input, output)
  {
    if !Contradictory(e) {
      var input := if e.input.Some? then e.input.value
                   else if e.total.Some? then e.total.value - OrZero(e.output) else 0;
      var output := if e.output.Some? then e.output.value
                    else if e.total.Some? then e.total.value - input else 0;
      assert Possible(e, input, output);
    }
  }

  /**
   The known tokens are the least the evidence allows, and tokens are published as actual
   exactly when both counters were reported, confirmed where a total is due.
  */
  lemma KnownTokensAreLeast(a: Admission, e: Evidence, reported: Status, pricingVerified: bool)
    requires DeriveUsage(a, e, reported, pricingVerified).Ok?
    ensures var u := DeriveUsage(a, e, reported, pricingVerified).value;
            && u.input == e.input && u.output == e.output
            && (forall input: nat, output: nat :: Possible(e, input, output) ==> u.tokenLowerBound <= input + output)
            && ((exists input: nat, output: nat :: Possible(e, input, output)) ==>
                  exists input: nat, output: nat :: Possible(e, input, output) && input + output == u.tokenLowerBound)
            && (u.actualTokens.Some? <==>
                  && e.input.Some? && e.output.Some? && Possible(e, e.input.value, e.output.value)
                  && !e.ambiguous && (e.totalRequired ==> e.total.Some?))
            && (u.actualTokens.Some? ==> u.actualTokens.value == e.input.value + e.output.value)
  {
    if !Contradictory(e) {
      var input := if e.input.Some? then e.input.value
                   else if e.total.Some? then e.total.value - OrZero(e.output) else 0;
      var output := if e.output.Some? then e.output.value
                    else if e.total.Some? then e.total.value - input else 0;
      assert Possible(e, input, output);
    }
  }

  /**
   What a response costs: every counter at its own rate per million. The known cost is a lower
   bound of what any possible counts cost, and cost is published as actual exactly when tokens are
   and the response names the admitted model.
  */
  lemma KnownCostIsPriced(a: Admission, e: Evidence, reported: Status, pricingVerified: bool)
    requires DeriveUsage(a, e, reported, pricingVerified).Ok?
    ensures var u := DeriveUsage(a, e, reported, pricingVerified).value;
            && (u.costLowerBound.Some? <==> e.model == Some(a.model))
            && (u.costLowerBound.Some? ==>
                  u.costLowerBound.value * 1_000_000.0
                  == (if e.input.Some? then e.input.value as real * a.pricing.inputRate else 0.0)
                     + (if e.output.Some? then e.output.value as real * a.pricing.outputRate else 0.0))
            && (u.actualCost.Some? <==> u.actualTokens.Some? && e.model == Some(a.model))
            && (u.actualCost.Some? ==>
                  u.actualCost.value * 1_000_000.0
                  == e.input.value as real * a.pricing.inputRate + e.output.value as real * a.pricing.outputRate)
  {
    PerMillion(a.pricing, OrZero(e.input), OrZero(e.output));
    KnownPart(e.input, a.pricing.inputRate);
    KnownPart(e.output, a.pricing.outputRate);
    hide Cost, Breaches, FinalStatus, TokenFloor, Contradictory;
  }

  lemma PerMillion(price: Price, input: int, output: int)
    ensures Cost(price, input, output) * 1_000_000.0
            == input as real * price.inputRate + output as real * price.outputRate
  {
  }

  lemma KnownPart(known: Option<int>, rate: real)
    ensures OrZero(known) as real * rate == if known.Some? then known.value as real * rate else 0.0
  {
  }

  lemma LeastPart(known: Option<int>, n: nat, rate: real)
    requires rate >= 0.0 && (known.Some? ==> n == known.value)
    ensures (if known.Some? then known.value as real * rate else 0.0) <= n as real * rate
  {
    ProductMono(0, n, rate);
  }

  /** Nothing the evidence allows costs less than the known cost. */
  lemma KnownCostIsLeast(a: Admission, e: Evidence, reported: Status, pricingVerified: bool, input: nat, output: nat)
    requires DeriveUsage(a, e, reported, pricingVerified).Ok? && Possible(e, input, output)
    requires a.pricing.inputRate >= 0.0 && a.pricing.outputRate >= 0.0 && e.model == Some(a.model)
    ensures DeriveUsage(a, e, reported, pricingVerified).value.costLowerBound.value * 1_000_000.0
            <= input as real * a.pricing.inputRate + output as real * a.pricing.outputRate
  {
    KnownCostIsPriced(a, e, reported, pricingVerified);
    assert (e.input.Some? ==> input == e.input.value) && (e.output.Some? ==> output == e.output.value);
    hide DeriveUsage, Possible;
    LeastPart(e.input, input, a.pricing.inputRate);
    LeastPart(e.output, output, a.pricing.outputRate);
  }

  /** The charge is the least that covers the reservation and everything known. */
  lemma ChargeIsLeastCover(a: Admission, e: Evidence, reported: Status, pricingVerified: bool, tokens: int, cost: real)
    requires DeriveUsage(a, e, reported, pricingVerified).Ok? && a.reservedCost >= 0.0
    ensures var u := DeriveUsage(a, e, reported, pricingVerified).value;
            && (u.chargedTokens <= tokens <==> a.reservedTokens <= tokens && u.tokenLowerBound <= tokens)
            && (u.chargedCost <= cost <==>
                  a.reservedCost <= cost && (u.costLowerBound.Some? ==> u.costLowerBound.value <= cost))
  {
  }

  /** Each breach in terms of the published usage, and the status the breaches leave. */
  lemma BreachesDecideStatus(a: Admission, e: Evidence, reported: Status, pricingVerified: bool)
    requires DeriveUsage(a, e, reported, pricingVerified).Ok?
    ensures var u := DeriveUsage(a, e, reported, pricingVerified).value;
            var exceeded := u.breaches * {TokensExceeded, CostExceeded, InputExceeded, OutputExceeded};
            && (TokensExceeded in u.breaches <==> u.tokenLowerBound > a.reservedTokens)
            && (CostExceeded in u.breaches <==> u.costLowerBound.Some? && u.costLowerBound.value > a.reservedCost)
            && (InputExceeded in u.breaches <==> u.input.Some? && u.input.value > a.inputBound)
            && (OutputExceeded in u.breaches <==> u.output.Some? && u.output.value > a.outputLimit)
            && (AmbiguousResponse in u.breaches <==> e.ambiguous)
            && (PricingIdentityMismatch in u.breaches <==> !pricingVerified)
            && (ModelUnverifiable in u.breaches <==> e.responsePresent && e.model != Some(a.model))
            && (ReportedOverrun in u.breaches <==> reported == UsageOverrun && exceeded == {})
            && u.status == (if exceeded != {} || ReportedOverrun in u.breaches then UsageOverrun
                            else if ModelUnverifiable in u.breaches then ModelMismatch
                            else if PricingIdentityMismatch in u.breaches then PricingMismatch
                            else if reported == Success && u.actualTokens.None? then UsageUnknown
                            else reported)
  {
    ExceededIsBreached(a, e, reported, pricingVerified);
    hide ReservationExceeded, Contradictory, TokenFloor, Exact, CostFloor;
  }

  lemma ExceededIsBreached(a: Admission, e: Evidence, reported: Status, pricingVerified: bool)
    ensures var bs := Breaches(a, e, reported, pricingVerified);
            && (TokensExceeded in bs <==> TokenFloor(e) > a.reservedTokens)
            && (CostExceeded in bs <==> CostFloor(a, e).Some? && CostFloor(a, e).value > a.reservedCost)
            && (InputExceeded in bs <==> e.input.Some? && e.input.value > a.inputBound)
            && (OutputExceeded in bs <==> e.output.Some? && e.output.value > a.outputLimit)
            && (bs * {TokensExceeded, CostExceeded, InputExceeded, OutputExceeded} != {} <==> ReservationExceeded(a, e))
  {
    var bs := Breaches(a, e, reported, pricingVerified);
    var exceeded := bs * {TokensExceeded, CostExceeded, InputExceeded, OutputExceeded};
    if ReservationExceeded(a, e) {
      assert TokensExceeded in exceeded || CostExceeded in exceeded
             || InputExceeded in exceeded || OutputExceeded in exceeded;
    }
  }

  /** A call that has not settled is charged its reservation and is not breached. */
  lemma PendingIsReservation(id: Id, a: Admission)
    requires AdmissionSound(id, a)
    ensures var r := DeriveUsage(a, NO_RESPONSE, Open, true);
            r.Ok? && r.value.breaches == {} && r.value.Charged() == Reserved(a)
  {
    UnbreachedMeansEachCounterFits(id, a, NO_RESPONSE, Open, true);
    ChargeCoversReservation(id, a, NO_RESPONSE, Open, true);
  }

  // ---------------------------------------------------------------- verified calls

  datatype Verified = Verified(admission: Admission, settlement: Option<Settlement>, row: Row, usage: Usage)

  function VerifiedCall(st: Store, id: Id): Result<Verified> {
    if id !in st.admissions then Err(MissingReceipt)
    else if id !in st.calls then Err(MissingRow)
    else
      var a, row := st.admissions[id], st.calls[id];
      if a.callId != row.id || a.runId != row.runId || a.startedAt != row.startedAt || a.provider != row.provider
         || a.model != row.model || a.reservedTokens != row.reservedTokens || a.reservedCost != row.reservedCost
      then Err(RowDiffersFromAdmission)
      else if row.id != id then Err(RowDiffersFromAdmission)
      else if a.pricing.version != row.pricingVersion || a.pricing.provider != a.provider || a.pricing.model != a.model
              || DayOf(a.startedAt) != row.day || a.pricing.effectiveAt > a.startedAt
      then Err(PricingOrDayDiffers)
      else if !(0 < a.reservedTokens < TOKEN_LIMIT) then Err(InvalidReservation)
      else if a.reservedCost < 0.0 || a.pricing.inputRate < 0.0 || a.pricing.outputRate < 0.0
      then Err(InvalidPricing)
      else if a.requestHash.Some? && !IsSha256(a.requestHash.value) then Err(InvalidRequestHash)
      else if a.inputBound <= 0 || a.outputLimit < 0 || a.inputBound + a.outputLimit != a.reservedTokens
              || Cost(a.pricing, a.inputBound, a.outputLimit) != a.reservedCost
      then Err(ReservationDiffersFromBounds)
      else if id !in st.settlements then
        if row.input.Some? || row.output.Some? || row.actualModel.Some? || row.latency.Some?
           || row.status != Open || row.chargedTokens != a.reservedTokens || row.chargedCost != a.reservedCost
        then Err(UnsettledRowDiffers)
        else
          var u := DeriveUsage(a, NO_RESPONSE, Open, true);
          if u.Err? then Err(u.error) else Ok(Verified(a, None, row, u.value))
      else
        var s := st.settlements[id];
        if row != s.accounting || s.completedAt < a.startedAt then
          Err(RowDiffersFromSettlement)
        else
          var u := DeriveUsage(a, s.evidence, s.reportedStatus, s.suppliedPricing == a.pricing);
          if u.Err? then Err(u.error)
          else if s.admission != a || u.value != s.usage then
            Err(UsageDiffersFromEvidence)
          else if u.value.input != row.input || u.value.output != row.output
                  || u.value.chargedTokens != row.chargedTokens
                  || u.value.chargedCost != row.chargedCost || u.value.status != row.status
          then Err(UsageDiffersFromEvidence)
          else if row.actualModel != s.evidence.model then Err(UsageDiffersFromEvidence)
          else Ok(Verified(a, Some(s), row, u.value))
  }

  /** The row an admission starts with. */
  function ReservedRow(a: Admission): Row {
    Row(a.callId, a.runId, DayOf(a.startedAt), a.provider, a.model, a.pricing.version,
        a.reservedTokens, a.reservedTokens, a.reservedCost, a.reservedCost,
        None, None, Open, a.startedAt, None, None)
  }

  /** The row a settlement leaves behind. */
  function SettledRow(a: Admission, u: Usage, latency: real, model: Option<string>): Row {
    ReservedRow(a).(chargedTokens := u.chargedTokens, chargedCost := u.chargedCost, input := u.input,
                    output := u.output, status := u.status, latency := Some(latency), actualModel := model)
  }

  /** A settlement that belongs to its admission and repeats the charge policy. */
  ghost predicate SettlementSound(a: Admission, s: Settlement) {
    && s.admission == a
    && s.completedAt >= a.startedAt
    && DeriveUsage(a, s.evidence, s.reportedStatus, s.suppliedPricing == a.pricing) == Ok(s.usage)
    && s.accounting == ReservedRow(a).(chargedTokens := s.usage.chargedTokens, chargedCost := s.usage.chargedCost,
                                       input := s.usage.input, output := s.usage.output, status := s.usage.status,
                                       latency := s.accounting.latency, actualModel := s.evidence.model)
  }

  /** The one row that the immutable side of a call allows. */
  ghost function DeterminedRow(st: Store, id: Id): Row
    requires id in st.admissions
  {
    if id in st.settlements then st.settlements[id].accounting else ReservedRow(st.admissions[id])
  }

  /**
   Acceptance pins every column: a call is accepted exactly when its immutable
   records are sound and its mutable row is the one they determine.
  */
  lemma AcceptancePinsTheRow(st: Store, id: Id)
    requires id in st.admissions
    ensures VerifiedCall(st, id).Ok?
       <==> && AdmissionSound(id, st.admissions[id])
            && (id in st.settlements ==> SettlementSound(st.admissions[id], st.settlements[id]))
            && id in st.calls && st.calls[id] == DeterminedRow(st, id)
  {
  }

  /** The usage a reader certifies depends on immutable records only. */
  function CertifiedUsage(a: Admission, s: Option<Settlement>): Result<Usage> {
    if s.None? then DeriveUsage(a, NO_RESPONSE, Open, true)
    else DeriveUsage(a, s.value.evidence, s.value.reportedStatus, s.value.suppliedPricing == a.pricing)
  }

  lemma VerifiedUsage(st: Store, id: Id)
    requires VerifiedCall(st, id).Ok?
    ensures id in st.admissions && id in st.calls
    ensures var s := if id in st.settlements then Some(st.settlements[id]) else None;
            && CertifiedUsage(st.admissions[id], s) == Ok(VerifiedCall(st, id).value.usage)
            && VerifiedCall(st, id).value.admission == st.admissions[id]
            && VerifiedCall(st, id).value.settlement == s
            && VerifiedCall(st, id).value.row == st.calls[id]
            && AdmissionSound(id, st.admissions[id])
  {
    AcceptancePinsTheRow(st, id);
  }

  // ---------------------------------------------------------------- verified charges

  predicate Unready(asOf: Option<Time>, t: Time) {
    asOf.Some? && t > asOf.value
  }

  /** Zero or one charge for one admitted call. */
  function Entry(st: Store, id: Id, day: int, run: Option<string>, asOf: Option<Time>): Result<seq<Charge>>
    requires id in st.admissions
  {
    var a := st.admissions[id];
    if Unready(asOf, a.startedAt) || (DayOf(a.startedAt) != day && Some(a.runId) != run) then Ok([])
    else
      var v := VerifiedCall(st, id);
      if v.Err? then Err(v.error)
      else
        var hidden := v.value.settlement.Some? && Unready(asOf, v.value.settlement.value.completedAt);
        var pending := v.value.settlement.None? || hidden;
        var u := if hidden then DeriveUsage(a, NO_RESPONSE, Open, true) else Ok(v.value.usage);
        if u.Err? then Err(u.error)
        else Ok([Charge(id, a.runId, DayOf(a.startedAt), pending,
                        if pending then None else v.value.row.actualModel, a.model, u.value)])
  }

  function Prepend<T>(first: seq<T>, rest: Result<seq<T>>): Result<seq<T>> {
    if rest.Err? then rest else Ok(first + rest.value)
  }

  /** The charges of a set of calls, in the order of their identities. */
  function Collect(st: Store, ids: set<Id>, day: int, run: Option<string>, asOf: Option<Time>): Result<seq<Charge>>
    requires ids <= st.admissions.Keys
    decreases |ids|
  {
    if ids == {} then Ok([])
    else
      var m := Min(ids);
      var e := Entry(st, m, day, run, asOf);
      if e.Err? then e else Prepend(e.value, Collect(st, ids - {m}, day, run, asOf))
  }

  function VerifiedCharges(st: Store, day: int, run: Option<string>, asOf: Option<Time>): Result<seq<Charge>> {
    if st.admissions.Keys != st.calls.Keys || !(st.settlements.Keys <= st.admissions.Keys) then
      Err(UnboundAuthority)
    else Collect(st, st.admissions.Keys, day, run, asOf)
  }

  lemma PrependAssoc<T>(a: seq<T>, b: seq<T>, r: Result<seq<T>>)
    ensures Prepend(a + b, r) == Prepend(a, Prepend(b, r))
  {
    if r.Ok? {
      assert a + b + r.value == a + (b + r.value);
    }
  }

  lemma PrependNothing<T>(r: Result<seq<T>>)
    ensures Prepend([], r) == r
  {
    if r.Ok? {
      assert [] + r.value == r.value;
    }
  }

  /** The reader's loop over all admitted identities in sorted order. */
  method ReadVerifiedCharges(st: Store, day: int, run: Option<string>, asOf: Option<Time>)
    returns (r: Result<seq<Charge>>)
    ensures r == VerifiedCharges(st, day, run, asOf)
  {
    var ids := st.admissions.Keys;
    if ids != st.calls.Keys || !(st.settlements.Keys <= ids) {
      return Err(UnboundAuthority);
    }
    var values: seq<Charge> := [];
    var rest := ids;
    PrependNothing(Collect(st, ids, day, run, asOf));
    while rest != {}
      invariant rest <= ids
      invariant Collect(st, ids, day, run, asOf) == Prepend(values, Collect(st, rest, day, run, asOf))
      decreases |rest|
    {
      var identity := Min(rest);
      var entry := Entry(st, identity, day, run, asOf);
      if entry.Err? {
        return entry;
      }
      PrependAssoc(values, entry.value, Collect(st, rest - {identity}, day, run, asOf));
      values := values + entry.value;
      rest := rest - {identity};
    }
    assert values + [] == values;
    return Ok(values);
  }

  /** Total charge of the listed calls that fall in a scope. */
  function UsedIn(values: seq<Charge>, scope: Scope, m: Measure): real {
    if values == [] then 0.0
    else (if values[0].In(scope) then values[0].usage.Charged().Of(m) else 0.0) + UsedIn(values[1..], scope, m)
  }

  predicate AnyBreach(values: seq<Charge>) {
    exists v :: v in values && v.usage.breaches != {}
  }
}
