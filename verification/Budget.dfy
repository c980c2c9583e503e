/**
 The two transactions of the generative budget: admission with a conservative
 reservation, and settlement. Each runs under one write lock, so each is one
 atomic step on the shared store.
*/
module Budget {
  import opened Basics
  import opened Totals
  import opened Receipts

  type ListedPrice = p: Price | p.inputRate >= 0.0 && p.outputRate >= 0.0
    witness Price("", "", "", "", 0, 0.0, 0.0)

  datatype Config = Config(provider: string, pricing: seq<ListedPrice>, caps: Caps)

  /** The caller: one budget object bound to a run. */
  datatype Caller = Caller(config: Config, runId: string, sessionId: string)

  datatype Request = Request(model: string, inputBound: int, outputLimit: int, requestHash: Option<string>)

  /** What an admission reads from outside: a fresh UUID, the clock under the lock, the deadline twice. */
  datatype AdmissionClock = AdmissionClock(identity: Id, now: Time, remaining: int, remainingAtInsert: int)

  /** The caller's report on a finished call, with the two clocks settlement reads. */
  datatype Report = Report(price: Price, evidence: Evidence, status: Status, elapsed: real,
                           checkedAt: Time, completedAt: Time)

  datatype Outcome = Refused(error: Error) | Committed(usage: Usage, failure: Option<Failure>)

  /** Raised after the settlement is committed. */
  datatype Failure = OverranReservation | CannotCertify

  predicate Quotes(p: Price, provider: string, model: string, now: Time) {
    p.provider == provider && p.model == model && p.effectiveAt <= now
  }

  /** The latest price in force for the model; the first listed one wins a tie. */
  function LatestQuote(pricing: seq<ListedPrice>, provider: string, model: string, now: Time): (r: Option<ListedPrice>)
    ensures r.None? <==> forall p :: p in pricing ==> !Quotes(p, provider, model, now)
    ensures r.Some? ==> r.value in pricing && Quotes(r.value, provider, model, now)
    ensures r.Some? ==>
            forall p :: p in pricing && Quotes(p, provider, model, now) ==> p.effectiveAt <= r.value.effectiveAt
  {
    if pricing == [] then None
    else
      var rest := LatestQuote(pricing[1..], provider, model, now);
      if !Quotes(pricing[0], provider, model, now) then rest
      else if rest.Some? && rest.value.effectiveAt > pricing[0].effectiveAt then rest
      else Some(pricing[0])
  }

  predicate RequestWellFormed(q: Request) {
    && q.inputBound >= 1 && q.outputLimit >= 0 && q.inputBound + q.outputLimit < TOKEN_LIMIT
    && (q.requestHash.Some? ==> IsSha256(q.requestHash.value))
  }

  function CapFor(caps: Caps, scope: Scope): Amount {
    if scope.RunScope? then caps.perRun else caps.perDay
  }

  /** The reservation leaves room in the scope: requests, tokens and spend. */
  predicate Fits(values: seq<Charge>, scope: Scope, reservation: Amount, caps: Caps) {
    forall m: Measure :: UsedIn(values, scope, m) + reservation.Of(m) <= CapFor(caps, scope).Of(m)
  }

  function NewAdmission(b: Caller, q: Request, c: AdmissionClock, price: Price): Admission {
    Admission(c.identity, b.runId, b.sessionId, c.now, b.config.provider, q.model,
              q.inputBound, q.outputLimit, q.requestHash,
              q.inputBound + q.outputLimit, Cost(price, q.inputBound, q.outputLimit), price)
  }

  /** Admission as a transition of the store. */
  function Reserve(st: Store, b: Caller, q: Request, c: AdmissionClock): (Store, Result<Admission>) {
    if !RequestWellFormed(q) then (st, Err(InvalidRequest))
    else if c.remaining <= 0 then (st, Err(DeadlineExpired))
    else
      var price := LatestQuote(b.config.pricing, b.config.provider, q.model, c.now);
      var values := VerifiedCharges(st, DayOf(c.now), Some(b.runId), None);
      if price.None? then (st, Err(PricingUnavailable))
      else if values.Err? then (st, Err(InvalidAuthority))
      else if AnyBreach(values.value) then (st, Err(PriorBreach))
      else
        var a := NewAdmission(b, q, c, price.value);
        if !Fits(values.value, RunScope(b.runId), Reserved(a), b.config.caps)
           || !Fits(values.value, DayScope(DayOf(c.now)), Reserved(a), b.config.caps)
        then (st, Err(CapExhausted))
        else if c.remainingAtInsert <= 0 then (st, Err(DeadlineExpired))
        else if c.identity in st.calls || c.identity in st.admissions then (st, Err(IdentityUsed))
        else (st.(calls := st.calls[c.identity := ReservedRow(a)], admissions := st.admissions[c.identity := a]), Ok(a))
  }

  function FailureAfterCommit(status: Status, u: Usage): Option<Failure> {
    if u.status == UsageOverrun then Some(OverranReservation)
    else if (status == Success && u.status != Success) || AmbiguousResponse in u.breaches
            || ContradictoryResponse in u.breaches || PricingIdentityMismatch in u.breaches
    then Some(CannotCertify)
    else None
  }

  /** Settlement as a transition of the store. */
  function Finish(st: Store, runId: string, id: Id, r: Report): (Store, Outcome) {
    if r.status == Blank || r.status == Open || r.elapsed < 0.0 then
      (st, Refused(InvalidReport))
    else if id !in st.calls || st.calls[id].runId != runId || st.calls[id].status != Open then
      (st, Refused(NotReserved))
    else
      var v := VerifiedCall(st, id);
      if v.Err? then (st, Refused(v.error))
      else
        var a := v.value.admission;
        var u := DeriveUsage(a, r.evidence, r.status, r.price == a.pricing);
        if u.Err? then (st, Refused(u.error))
        else if r.checkedAt < a.startedAt then (st, Refused(ClockBeforeAdmission))
        else if id in st.settlements then (st, Refused(AlreadySettled))
        else
          var row := st.calls[id].(chargedTokens := u.value.chargedTokens, chargedCost := u.value.chargedCost,
                                   input := u.value.input, output := u.value.output, status := u.value.status,
                                   latency := Some(r.elapsed), actualModel := r.evidence.model);
          var s := Settlement(a, r.evidence, r.price, u.value, r.status, r.completedAt, row);
          (st.(calls := st.calls[id := row], settlements := st.settlements[id := s]),
           Committed(u.value, FailureAfterCommit(r.status, u.value)))
  }

  /**
   A settlement reported "ok" that raises no failure certifies its usage: no
   breach, both counters known, the charge equal to the reservation.
  */
  lemma CertifiedSuccess(st: Store, runId: string, id: Id, r: Report)
    requires r.status == Success
    requires Finish(st, runId, id, r).1.Committed? && Finish(st, runId, id, r).1.failure.None?
    ensures id in st.admissions
    ensures var u := Finish(st, runId, id, r).1.usage;
            && u.breaches == {} && u.status == Success
            && u.Charged() == Reserved(st.admissions[id])
            && u.actualTokens == Some(OrZero(u.input) + OrZero(u.output)) && u.input.Some? && u.output.Some?
            && u.tokenLowerBound == u.actualTokens.value
            && (r.evidence.responsePresent ==> u.actualCost.Some? && r.evidence.model == Some(st.admissions[id].model))
  {
    VerifiedUsage(st, id);
    var a, u := st.admissions[id], Finish(st, runId, id, r).1.usage;
    ChargeCoversReservation(id, a, r.evidence, r.status, r.price == a.pricing);
  }

  /**
   A reservation is priced at the latest listed quote, the whole input bound at the input rate
   and the whole output limit at the output rate, per million tokens.
  */
  lemma ReservationIsPriced(st: Store, b: Caller, q: Request, c: AdmissionClock)
    requires Reserve(st, b, q, c).1.Ok?
    ensures var a := Reserve(st, b, q, c).1.value;
            && a.reservedCost * 1_000_000.0
               == q.inputBound as real * a.pricing.inputRate + q.outputLimit as real * a.pricing.outputRate
            && a.reservedTokens == q.inputBound + q.outputLimit
            && a.inputBound == q.inputBound && a.outputLimit == q.outputLimit && a.requestHash == q.requestHash
            && a.callId == c.identity && a.startedAt == c.now && a.runId == b.runId && a.sessionId == b.sessionId
            && a.provider == b.config.provider && a.model == q.model
            && IsLatestQuote(b.config.pricing, a.pricing, b.config.provider, q.model, c.now)
  {
  }

  ghost predicate IsLatestQuote(pricing: seq<ListedPrice>, p: Price, provider: string, model: string, now: Time) {
    && p in pricing && p.provider == provider && p.model == model && p.effectiveAt <= now
    && forall x :: x in pricing && x.provider == provider && x.model == model && x.effectiveAt <= now ==>
         x.effectiveAt <= p.effectiveAt
  }

  lemma CommitDerives(st: Store, runId: string, id: Id, r: Report)
    requires Finish(st, runId, id, r).1.Committed?
    ensures id in st.admissions && AdmissionSound(id, st.admissions[id])
    ensures var a, o := st.admissions[id], Finish(st, runId, id, r).1;
            && DeriveUsage(a, r.evidence, r.status, r.price == a.pricing) == Ok(o.usage)
            && o.failure == FailureAfterCommit(r.status, o.usage)
  {
    hide DeriveUsage, FailureAfterCommit;
    VerifiedUsage(st, id);
  }

  /** A settled call is charged at the rates it was admitted with, whatever price the caller reports. */
  lemma SettlementIsPriced(st: Store, runId: string, id: Id, r: Report)
    requires Finish(st, runId, id, r).1.Committed?
    ensures id in st.admissions
    ensures var a, u := st.admissions[id], Finish(st, runId, id, r).1.usage;
            && (u.actualCost.Some? ==>
                  && r.evidence.input.Some? && r.evidence.output.Some?
                  && u.actualCost.value * 1_000_000.0
                     == r.evidence.input.value as real * a.pricing.inputRate
                        + r.evidence.output.value as real * a.pricing.outputRate
                  && u.chargedCost >= u.actualCost.value && u.chargedCost >= a.reservedCost
                  && (u.chargedCost == u.actualCost.value || u.chargedCost == a.reservedCost))
            && (u.actualCost.Some? <==> u.actualTokens.Some? && r.evidence.model == Some(a.model))
            && (r.evidence.model != Some(a.model) ==> u.chargedCost == a.reservedCost)
  {
    hide Finish;
    CommitDerives(st, runId, id, r);
    var a := st.admissions[id];
    KnownCostIsPriced(a, r.evidence, r.status, r.price == a.pricing);
  }

  lemma SilentStatus(status: Status, u: Usage)
    requires var exceeded := u.breaches * {TokensExceeded, CostExceeded, InputExceeded, OutputExceeded};
             && (ReportedOverrun in u.breaches <==> status == UsageOverrun && exceeded == {})
             && u.status == (if exceeded != {} || ReportedOverrun in u.breaches then UsageOverrun
                             else if ModelUnverifiable in u.breaches then ModelMismatch
                             else if PricingIdentityMismatch in u.breaches then PricingMismatch
                             else if status == Success && u.actualTokens.None? then UsageUnknown
                             else status)
    ensures FailureAfterCommit(status, u).None? <==>
              && u.breaches <= {ModelUnverifiable}
              && (status == Success ==> u.breaches == {} && u.actualTokens.Some?)
    ensures FailureAfterCommit(status, u) == Some(OverranReservation) <==>
              exists x :: x in u.breaches
                          && x in {TokensExceeded, CostExceeded, InputExceeded, OutputExceeded, ReportedOverrun}
  {
    var exceeded := u.breaches * {TokensExceeded, CostExceeded, InputExceeded, OutputExceeded};
    var overruns := u.breaches * {TokensExceeded, CostExceeded, InputExceeded, OutputExceeded, ReportedOverrun};
    assert overruns != {} <==> exceeded != {} || ReportedOverrun in u.breaches by {
      assert overruns == exceeded + (u.breaches * {ReportedOverrun});
      assert ReportedOverrun in u.breaches <==> ReportedOverrun in u.breaches * {ReportedOverrun};
    }
    if x :| x in overruns {
      assert x in u.breaches;
    }
    if x :| x in u.breaches && x != ModelUnverifiable {
      if x in {TokensExceeded, CostExceeded, InputExceeded, OutputExceeded} {
        assert x in exceeded;
      } else {
        OtherBreaches(x);
      }
    }
    forall x | x in u.breaches && x in {TokensExceeded, CostExceeded, InputExceeded, OutputExceeded, ReportedOverrun}
      ensures x in overruns
    {
    }
  }

  lemma OtherBreaches(x: Breach)
    requires x !in {TokensExceeded, CostExceeded, InputExceeded, OutputExceeded, ModelUnverifiable}
    ensures x in {ReportedOverrun, AmbiguousResponse, ContradictoryResponse, PricingIdentityMismatch}
  {
    match x
    case ReportedOverrun | AmbiguousResponse | ContradictoryResponse | PricingIdentityMismatch =>
  }

  /**
   After its commit a settlement is silent exactly when nothing was exceeded, no breach but an
   unverified model is on record, and a reported success is confirmed by both counters and the model.
  */
  lemma SilentExactly(st: Store, runId: string, id: Id, r: Report)
    requires Finish(st, runId, id, r).1.Committed?
    ensures var o := Finish(st, runId, id, r).1;
            && (o.failure.None? <==>
                  && o.usage.breaches <= {ModelUnverifiable}
                  && (r.status == Success ==> o.usage.breaches == {} && o.usage.actualTokens.Some?))
            && (o.failure == Some(OverranReservation) <==>
                  exists x :: x in o.usage.breaches
                              && x in {TokensExceeded, CostExceeded, InputExceeded, OutputExceeded, ReportedOverrun})
  {
    hide Finish;
    CommitDerives(st, runId, id, r);
    var a, u := st.admissions[id], Finish(st, runId, id, r).1.usage;
    BreachesDecideStatus(a, r.evidence, r.status, r.price == a.pricing);
    KnownTokensAreLeast(a, r.evidence, r.status, r.price == a.pricing);
    ContradictionMeansImpossible(a, r.evidence, r.status, r.price == a.pricing);
    assert u.breaches == Breaches(a, r.evidence, r.status, r.price == a.pricing);
    hide DeriveUsage, Breaches, Possible;
    SilentStatus(r.status, u);
  }

  // ---------------------------------------------------------------- the objects

  /** The durable accounting database shared by every budget object. */
  class AccountingDb {
    var admissions: map<Id, Admission>
    var settlements: map<Id, Settlement>
    var calls: map<Id, Row>

    function Contents(): Store
      reads this
    {
      Store(admissions, settlements, calls)
    }

    constructor ()
      ensures Contents() == EMPTY
    {
      admissions, settlements, calls := map[], map[], map[];
    }
  }

  class AgentCallBudget {
    const db: AccountingDb
    const caller: Caller

    constructor (db: AccountingDb, caller: Caller)
      ensures this.db == db && this.caller == caller
    {
      this.db, this.caller := db, caller;
    }

    method ReserveBound(q: Request, c: AdmissionClock) returns (r: Result<Admission>)
      modifies db
      ensures (db.Contents(), r) == Reserve(old(db.Contents()), caller, q, c)
    {
      if q.inputBound < 1 || q.outputLimit < 0 || q.inputBound + q.outputLimit >= TOKEN_LIMIT
         || (q.requestHash.Some? && !IsSha256(q.requestHash.value)) {
        return Err(InvalidRequest);
      }
      if c.remaining <= 0 {
        return Err(DeadlineExpired);
      }
      var price := LatestQuote(caller.config.pricing, caller.config.provider, q.model, c.now);
      if price.None? {
        return Err(PricingUnavailable);
      }
      var charges := ReadVerifiedCharges(db.Contents(), DayOf(c.now), Some(caller.runId), None);
      if charges.Err? {
        return Err(InvalidAuthority);
      }
      var values := charges.value;
      if AnyBreach(values) {
        return Err(PriorBreach);
      }
      var a := NewAdmission(caller, q, c, price.value);
      var scopes := [RunScope(caller.runId), DayScope(DayOf(c.now))];
      for i := 0 to |scopes|
        invariant forall k :: 0 <= k < i ==> Fits(values, scopes[k], Reserved(a), caller.config.caps)
      {
        if !Fits(values, scopes[i], Reserved(a), caller.config.caps) {
          return Err(CapExhausted);
        }
      }
      assert Fits(values, scopes[0], Reserved(a), caller.config.caps);
      assert Fits(values, scopes[1], Reserved(a), caller.config.caps);
      if c.remainingAtInsert <= 0 {
        return Err(DeadlineExpired);
      }
      if c.identity in db.calls || c.identity in db.admissions {
        return Err(IdentityUsed);
      }
      db.calls := db.calls[c.identity := ReservedRow(a)];
      db.admissions := db.admissions[c.identity := a];
      return Ok(a);
    }

    method Settle(id: Id, r: Report) returns (o: Outcome)
      modifies db
      ensures (db.Contents(), o) == Finish(old(db.Contents()), caller.runId, id, r)
    {
      if r.status == Blank || r.status == Open || r.elapsed < 0.0 {
        return Refused(InvalidReport);
      }
      if id !in db.calls || db.calls[id].runId != caller.runId || db.calls[id].status != Open {
        return Refused(NotReserved);
      }
      var v := VerifiedCall(db.Contents(), id);
      if v.Err? {
        return Refused(v.error);
      }
      var a := v.value.admission;
      var usage := DeriveUsage(a, r.evidence, r.status, r.price == a.pricing);
      if usage.Err? {
        return Refused(usage.error);
      }
      if r.checkedAt < a.startedAt {
        return Refused(ClockBeforeAdmission);
      }
      if id in db.settlements {
        return Refused(AlreadySettled);
      }
      var u := usage.value;
      db.calls := db.calls[id := db.calls[id].(chargedTokens := u.chargedTokens, chargedCost := u.chargedCost,
                                               input := u.input, output := u.output, status := u.status,
                                               latency := Some(r.elapsed), actualModel := r.evidence.model)];
      db.settlements :=
        db.settlements[id := Settlement(a, r.evidence, r.price, u, r.status, r.completedAt, db.calls[id])];
      return Committed(u, FailureAfterCommit(r.status, u));
    }
  }
}
