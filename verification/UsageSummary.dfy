/**
 The public usage view: verified charges folded into known lower bounds, actual
 totals where every call reports one, and conservative totals.
*/
module UsageSummary {
  import opened Basics
  import opened Totals
  import opened Receipts

  datatype Summary = Summary(
    requests: int, pendingRequests: int, usageUnknown: int, unpriced: int, knownInput: int, knownOutput: int,
    knownTokens: int, knownCost: real, actualTokens: Option<int>, actualCost: Option<real>,
    uncertainTokens: int, uncertainCost: real, conservativeTokens: int, conservativeCost: real, breached: bool)

  const NOTHING := Summary(0, 0, 0, 0, 0, 0, 0, 0.0, Some(0), Some(0.0), 0, 0.0, 0, 0.0, false)

  function Include(v: Charge, s: Summary): Summary {
    var u := v.usage;
    Summary(
      s.requests + 1,
      s.pendingRequests + (if v.pending then 1 else 0),
      s.usageUnknown + (if u.actualTokens.None? then 1 else 0),
      s.unpriced + (if u.actualCost.None? then 1 else 0),
      s.knownInput + OrZero(u.input),
      s.knownOutput + OrZero(u.output),
      s.knownTokens + u.tokenLowerBound,
      s.knownCost + (if u.costLowerBound.Some? then u.costLowerBound.value else 0.0),
      if u.actualTokens.Some? && s.actualTokens.Some? then Some(u.actualTokens.value + s.actualTokens.value) else None,
      if u.actualCost.Some? && s.actualCost.Some? then Some(u.actualCost.value + s.actualCost.value) else None,
      s.uncertainTokens + (if u.actualCost.None? then u.chargedTokens else 0),
      s.uncertainCost + (if u.actualCost.None? then u.chargedCost else 0.0),
      s.conservativeTokens + u.chargedTokens,
      s.conservativeCost + u.chargedCost,
      s.breached || u.breaches != {})
  }

  function Summarize(values: seq<Charge>): Summary {
    if values == [] then NOTHING else Include(values[0], Summarize(values[1..]))
  }

  // ---------------------------------------------------------------- each figure is one column

  function Total(values: seq<Charge>, column: Charge -> real): real {
    if values == [] then 0.0 else Total(values[..|values| - 1], column) + column(values[|values| - 1])
  }

  function If(b: bool): real {
    if b then 1.0 else 0.0
  }

  function Known(n: Option<int>): real {
    if n.Some? then n.value as real else 0.0
  }

  function Pending(v: Charge): real { If(v.pending) }

  function UnknownTokens(v: Charge): real { If(v.usage.actualTokens.None?) }

  function UnknownCost(v: Charge): real { If(v.usage.actualCost.None?) }

  function Input(v: Charge): real { Known(v.usage.input) }

  function Output(v: Charge): real { Known(v.usage.output) }

  function LeastTokens(v: Charge): real { v.usage.tokenLowerBound as real }

  function LeastCost(v: Charge): real { if v.usage.costLowerBound.Some? then v.usage.costLowerBound.value else 0.0 }

  function UncertainTokens(v: Charge): real { if v.usage.actualCost.None? then v.usage.chargedTokens as real else 0.0 }

  function UncertainCost(v: Charge): real { if v.usage.actualCost.None? then v.usage.chargedCost else 0.0 }

  lemma {:induction false} TotalPrepend(v: Charge, values: seq<Charge>, column: Charge -> real)
    ensures Total([v] + values, column) == column(v) + Total(values, column)
  {
    if values == [] {
      assert [v] + values == [v] && [v][..0] == [];
    } else {
      assert ([v] + values)[..|values|] == [v] + values[..|values| - 1];
      TotalPrepend(v, values[..|values| - 1], column);
    }
  }

  /** Every figure of a summary is the total of its own column over the calls, in whatever order they are taken. */
  lemma {:induction false} FiguresAreColumns(values: seq<Charge>)
    ensures var s := Summarize(values);
            && s.requests == |values|
            && s.pendingRequests as real == Total(values, Pending)
            && s.usageUnknown as real == Total(values, UnknownTokens)
            && s.unpriced as real == Total(values, UnknownCost)
            && s.knownInput as real == Total(values, Input) && s.knownOutput as real == Total(values, Output)
            && s.knownTokens as real == Total(values, LeastTokens) && s.knownCost == Total(values, LeastCost)
            && s.uncertainTokens as real == Total(values, UncertainTokens)
            && s.uncertainCost == Total(values, UncertainCost)
  {
    if values != [] {
      var rest := values[1..];
      assert values == [values[0]] + rest;
      FiguresAreColumns(rest);
      TotalPrepend(values[0], rest, Pending);
      TotalPrepend(values[0], rest, UnknownTokens);
      TotalPrepend(values[0], rest, UnknownCost);
      TotalPrepend(values[0], rest, Input);
      TotalPrepend(values[0], rest, Output);
      TotalPrepend(values[0], rest, LeastTokens);
      TotalPrepend(values[0], rest, LeastCost);
      TotalPrepend(values[0], rest, UncertainTokens);
      TotalPrepend(values[0], rest, UncertainCost);
      hide Total;
    }
  }

  /** The calls of a list that fall in a scope, in order. */
  function Select(values: seq<Charge>, scope: Scope): seq<Charge> {
    if values == [] then []
    else (if values[0].In(scope) then [values[0]] else []) + Select(values[1..], scope)
  }

  /** How the figures of one derived usage relate. */
  ghost predicate Coherent(u: Usage) {
    && 0 <= OrZero(u.input) && 0 <= OrZero(u.output)
    && OrZero(u.input) + OrZero(u.output) <= u.tokenLowerBound <= u.chargedTokens
    && (u.costLowerBound.Some? ==> 0.0 <= u.costLowerBound.value <= u.chargedCost) && 0.0 <= u.chargedCost
    && (u.actualTokens.Some? ==>
          u.input.Some? && u.output.Some?
          && u.actualTokens.value == u.input.value + u.output.value == u.tokenLowerBound)
    && (u.actualCost.Some? ==> u.actualTokens.Some? && u.actualCost == u.costLowerBound)
  }

  lemma DerivedUsageCoherent(id: Id, a: Admission, e: Evidence, reported: Status, pricingVerified: bool)
    requires AdmissionSound(id, a) && DeriveUsage(a, e, reported, pricingVerified).Ok?
    ensures Coherent(DeriveUsage(a, e, reported, pricingVerified).value)
  {
    CostMono(a.pricing, 0, 0, OrZero(e.input), OrZero(e.output));
  }

  ghost predicate AllCoherent(values: seq<Charge>) {
    forall v :: v in values ==> Coherent(v.usage)
  }

  /** Every accepted list is coherent, call by call. */
  lemma {:induction false} VerifiedChargesCoherent(st: Store, ids: set<Id>, day: int, run: Option<string>,
                                                   asOf: Option<Time>)
    requires ids <= st.admissions.Keys && Collect(st, ids, day, run, asOf).Ok?
    ensures AllCoherent(Collect(st, ids, day, run, asOf).value)
    decreases |ids|
  {
    if ids != {} {
      var m := Min(ids);
      EntryCoherent(st, m, day, run, asOf);
      VerifiedChargesCoherent(st, ids - {m}, day, run, asOf);
    }
  }

  lemma EntryCoherent(st: Store, id: Id, day: int, run: Option<string>, asOf: Option<Time>)
    requires id in st.admissions && Entry(st, id, day, run, asOf).Ok?
    ensures AllCoherent(Entry(st, id, day, run, asOf).value)
  {
    if Entry(st, id, day, run, asOf).value != [] {
      VerifiedUsage(st, id);
      var a := st.admissions[id];
      PendingIsReservation(id, a);
      DerivedUsageCoherent(id, a, NO_RESPONSE, Open, true);
      if id in st.settlements {
        var s := st.settlements[id];
        DerivedUsageCoherent(id, a, s.evidence, s.reportedStatus, s.suppliedPricing == a.pricing);
      }
    }
  }

  /**
   What the published figures promise: known counters, lower bounds and
   conservative totals are ordered; a total published as actual is the sum of
   the known counters and of the lower bounds, and a null total means some call
   is unknown, never zero.
  */
  lemma {:induction false} SummaryIsSound(values: seq<Charge>)
    requires AllCoherent(values)
    ensures var s := Summarize(values);
            && s.knownInput + s.knownOutput <= s.knownTokens <= s.conservativeTokens
            && 0.0 <= s.knownCost <= s.conservativeCost
            && (s.actualTokens.Some? ==> s.actualTokens.value == s.knownInput + s.knownOutput == s.knownTokens)
            && (s.actualTokens.None? <==> exists v :: v in values && v.usage.actualTokens.None?)
            && (s.actualCost.Some? ==> s.actualTokens.Some? && s.actualCost.value == s.knownCost
                                       && s.uncertainTokens == 0 && s.uncertainCost == 0.0)
            && (s.actualCost.None? <==> exists v :: v in values && v.usage.actualCost.None?)
            && 0 <= s.uncertainTokens <= s.conservativeTokens && 0.0 <= s.uncertainCost <= s.conservativeCost
            && (s.breached <==> AnyBreach(values))
  {
    if values != [] {
      var rest := values[1..];
      assert values == [values[0]] + rest;
      assert Coherent(values[0].usage);
      assert forall v :: v in rest ==> v in values;
      SummaryIsSound(rest);
    }
  }

  /** The conservative totals of a scope are the amounts admission holds against its caps. */
  lemma {:induction false} ConservativeTotalsAreCapUsage(values: seq<Charge>, scope: Scope)
    ensures var s := Summarize(Select(values, scope));
            && s.requests as real == UsedIn(values, scope, Requests)
            && s.conservativeTokens as real == UsedIn(values, scope, Tokens)
            && s.conservativeCost == UsedIn(values, scope, Spend)
  {
    if values != [] {
      ConservativeTotalsAreCapUsage(values[1..], scope);
      var rest := Select(values[1..], scope);
      if values[0].In(scope) {
        assert Select(values, scope) == [values[0]] + rest;
        assert ([values[0]] + rest)[1..] == rest;
      } else {
        assert Select(values, scope) == rest;
      }
    }
  }
}
