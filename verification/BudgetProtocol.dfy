/**
 Whole runs of the budget protocol: any interleaving of admissions and
 settlements by any number of callers, with the mutable projection rewritten
 arbitrarily in between where a theorem allows it.
*/
module BudgetProtocol {
  import opened Basics
  import opened Totals
  import opened Receipts
  import opened Budget

  datatype Step =
    | Admit(caller: Caller, request: Request, clock: AdmissionClock)
    | Settle(runId: string, id: Id, report: Report)
    | RewriteProjection(calls: map<Id, Row>)

  function Apply(st: Store, step: Step): Store {
    match step
    case Admit(b, q, c) => Reserve(st, b, q, c).0
    case Settle(run, id, r) => Finish(st, run, id, r).0
    case RewriteProjection(calls) => st.(calls := calls)
  }

  function Exec(st: Store, steps: seq<Step>): Store {
    if steps == [] then st else Apply(Exec(st, steps[..|steps| - 1]), steps[|steps| - 1])
  }

  // ---------------------------------------------------------------- what one step writes

  /** A successful admission appends one sound admission and its row. */
  ghost predicate Admits(st: Store, st': Store, a: Admission) {
    && a.callId !in st.admissions && a.callId !in st.calls && AdmissionSound(a.callId, a)
    && st' == Store(st.admissions[a.callId := a], st.settlements, st.calls[a.callId := ReservedRow(a)])
  }

  /** A committed settlement appends one record and rewrites the row of an open, verified call. */
  ghost predicate Settles(st: Store, st': Store, id: Id, s: Settlement) {
    && id in st.admissions && AdmissionSound(id, st.admissions[id])
    && id !in st.settlements && id in st.calls && st.calls[id] == ReservedRow(st.admissions[id])
    && s.admission == st.admissions[id] && s.reportedStatus != Open
    && DeriveUsage(s.admission, s.evidence, s.reportedStatus, s.suppliedPricing == s.admission.pricing) == Ok(s.usage)
    && s.accounting == SettledRow(s.admission, s.usage,
                                  if s.accounting.latency.Some? then s.accounting.latency.value else 0.0,
                                  s.evidence.model)
    && st' == Store(st.admissions, st.settlements[id := s], st.calls[id := s.accounting])
  }

  lemma ReserveShape(st: Store, b: Caller, q: Request, c: AdmissionClock)
    ensures var (st', r) := Reserve(st, b, q, c);
            if r.Err? then st' == st
            else Admits(st, st', r.value) && r.value.callId == c.identity && r.value.startedAt == c.now
                 && r.value.runId == b.runId
  {
    if Reserve(st, b, q, c).1.Ok? {
      var a := Reserve(st, b, q, c).1.value;
      CostMono(a.pricing, 0, 0, q.inputBound, q.outputLimit);
    }
  }

  lemma FinishShape(st: Store, run: string, id: Id, r: Report)
    ensures var (st', o) := Finish(st, run, id, r);
            if o.Refused? then st' == st
            else id in st'.settlements && Settles(st, st', id, st'.settlements[id])
                 && st'.settlements[id].completedAt == r.completedAt
  {
    if Finish(st, run, id, r).1.Committed? {
      AcceptancePinsTheRow(st, id);
    }
  }

  /** Every step leaves the store, appends an admission, appends a settlement, or rewrites the projection. */
  lemma ApplyShape(st: Store, step: Step)
    ensures var st' := Apply(st, step);
            || st' == st
            || (step.Admit? && step.clock.identity in st'.admissions
                && Admits(st, st', st'.admissions[step.clock.identity])
                && st'.admissions[step.clock.identity].startedAt == step.clock.now)
            || (step.Settle? && step.id in st'.settlements && Settles(st, st', step.id, st'.settlements[step.id])
                && st'.settlements[step.id].completedAt == step.report.completedAt)
            || (step.RewriteProjection? && st' == st.(calls := step.calls))
  {
    match step
    case Admit(b, q, c) => ReserveShape(st, b, q, c);
    case Settle(run, id, r) => FinishShape(st, run, id, r);
    case RewriteProjection(_) =>
  }

  // ---------------------------------------------------------------- totals from immutable records

  ghost function SettledBy(st: Store, id: Id, asOf: Option<Time>): Option<Settlement> {
    if id in st.settlements && !Unready(asOf, st.settlements[id].completedAt) then Some(st.settlements[id]) else None
  }

  ghost predicate Visible(st: Store, id: Id, scope: Scope, asOf: Option<Time>) {
    id in st.admissions && InScope(st.admissions[id], scope) && !Unready(asOf, st.admissions[id].startedAt)
  }

  /** What one call is charged in a scope at a cutoff, read from its immutable records. */
  ghost function ChargeAt(st: Store, id: Id, scope: Scope, asOf: Option<Time>, m: Measure): real {
    if Visible(st, id, scope, asOf) && CertifiedUsage(st.admissions[id], SettledBy(st, id, asOf)).Ok?
    then CertifiedUsage(st.admissions[id], SettledBy(st, id, asOf)).value.Charged().Of(m)
    else 0.0
  }

  ghost function ReservationAt(st: Store, id: Id, scope: Scope, m: Measure): real {
    if Visible(st, id, scope, None) then Reserved(st.admissions[id]).Of(m) else 0.0
  }

  ghost function Charges(st: Store, scope: Scope, asOf: Option<Time>, m: Measure): Id -> real {
    (id: Id) => ChargeAt(st, id, scope, asOf, m)
  }

  ghost function Reservations(st: Store, scope: Scope, m: Measure): Id -> real {
    (id: Id) => ReservationAt(st, id, scope, m)
  }

  /** Everything charged in a scope, as a reader at the cutoff may count it. */
  ghost function ChargedTotal(st: Store, scope: Scope, asOf: Option<Time>, m: Measure): real {
    SumOver(st.admissions.Keys, Charges(st, scope, asOf, m))
  }

  ghost function ReservedTotal(st: Store, scope: Scope, m: Measure): real {
    SumOver(st.admissions.Keys, Reservations(st, scope, m))
  }

  ghost predicate Asked(scope: Scope, day: int, run: Option<string>) {
    match scope
    case RunScope(r) => run == Some(r)
    case DayScope(d) => d == day
  }

  lemma {:induction false} UsedAppend(a: seq<Charge>, b: seq<Charge>, scope: Scope, m: Measure)
    ensures UsedIn(a + b, scope, m) == UsedIn(a, scope, m) + UsedIn(b, scope, m)
  {
    if a == [] {
      assert a + b == b;
    } else {
      assert (a + b)[1..] == a[1..] + b;
      UsedAppend(a[1..], b, scope, m);
    }
  }

  /** One verified entry counts what the immutable records say. */
  lemma EntryTotal(st: Store, id: Id, day: int, run: Option<string>, asOf: Option<Time>, scope: Scope, m: Measure)
    requires id in st.admissions && Asked(scope, day, run)
    requires Entry(st, id, day, run, asOf).Ok?
    ensures UsedIn(Entry(st, id, day, run, asOf).value, scope, m) == ChargeAt(st, id, scope, asOf, m)
  {
    hide VerifiedCall, DeriveUsage, AdmissionSound;
    var a, entry := st.admissions[id], Entry(st, id, day, run, asOf).value;
    if entry != [] {
      VerifiedUsage(st, id);
      assert entry == [entry[0]] && entry[1..] == [];
      assert entry[0].In(scope) <==> InScope(a, scope);
    }
  }

  /** The listed charges total what the immutable records say, whatever the mutable rows hold. */
  lemma {:induction false} CollectTotal(st: Store, ids: set<Id>, day: int, run: Option<string>, asOf: Option<Time>,
                                        scope: Scope, m: Measure)
    requires ids <= st.admissions.Keys && Asked(scope, day, run)
    requires Collect(st, ids, day, run, asOf).Ok?
    ensures UsedIn(Collect(st, ids, day, run, asOf).value, scope, m)
         == SumOver(ids, Charges(st, scope, asOf, m))
    decreases |ids|
  {
    if ids != {} {
      var x := Min(ids);
      EntryTotal(st, x, day, run, asOf, scope, m);
      CollectTotal(st, ids - {x}, day, run, asOf, scope, m);
      UsedAppend(Entry(st, x, day, run, asOf).value, Collect(st, ids - {x}, day, run, asOf).value, scope, m);
    }
  }

  /** Every requested call is verified and listed. */
  lemma {:induction false} CollectLists(st: Store, ids: set<Id>, day: int, run: Option<string>, asOf: Option<Time>,
                                        id: Id)
    requires ids <= st.admissions.Keys && id in ids
    requires Collect(st, ids, day, run, asOf).Ok?
    ensures var entry := Entry(st, id, day, run, asOf);
            entry.Ok? && forall v :: v in entry.value ==> v in Collect(st, ids, day, run, asOf).value
    decreases |ids|
  {
    var m := Min(ids);
    if id != m {
      CollectLists(st, ids - {m}, day, run, asOf, id);
    }
  }

  // ---------------------------------------------------------------- caps

  /** A breach on record: read from the immutable side only. */
  ghost predicate Breached(st: Store, id: Id) {
    && id in st.admissions && id in st.settlements
    && var u := CertifiedUsage(st.admissions[id], Some(st.settlements[id]));
       u.Ok? && u.value.breaches != {}
  }

  /** The charge beyond the reservation: counted for breached calls only. */
  ghost function ExcessAt(st: Store, id: Id, scope: Scope, m: Measure): real {
    if Breached(st, id) then ChargeAt(st, id, scope, None, m) - ReservationAt(st, id, scope, m) else 0.0
  }

  ghost function Excesses(st: Store, scope: Scope, m: Measure): Id -> real {
    (id: Id) => ExcessAt(st, id, scope, m)
  }

  /** Immutable records that only the two transactions can have written. */
  ghost predicate Lawful(st: Store) {
    && (forall id :: id in st.admissions ==> AdmissionSound(id, st.admissions[id]))
    && (forall id :: id in st.settlements ==>
          id in st.admissions && CertifiedUsage(st.admissions[id], Some(st.settlements[id])).Ok?)
  }

  lemma {:induction false} ExecLawful(st: Store, steps: seq<Step>)
    requires Lawful(st)
    ensures Lawful(Exec(st, steps))
  {
    hide VerifiedCall, DeriveUsage, AdmissionSound;
    if steps != [] {
      var init, step := steps[..|steps| - 1], steps[|steps| - 1];
      ExecLawful(st, init);
      ApplyShape(Exec(st, init), step);
    }
  }

  ghost predicate SharedCaps(steps: seq<Step>, caps: Caps) {
    forall i :: 0 <= i < |steps| && steps[i].Admit? ==> steps[i].caller.config.caps == caps
  }

  lemma LawfulCharge(st: Store, scope: Scope, id: Id, m: Measure)
    requires Lawful(st)
    ensures ReservationAt(st, id, scope, m) <= ChargeAt(st, id, scope, None, m)
    ensures ChargeAt(st, id, scope, None, m) == ReservationAt(st, id, scope, m) + ExcessAt(st, id, scope, m)
  {
    hide DeriveUsage, AdmissionSound;
    if id in st.admissions {
      var a := st.admissions[id];
      PendingIsReservation(id, a);
      if id in st.settlements {
        var s := st.settlements[id];
        ChargeCoversReservation(id, a, s.evidence, s.reportedStatus, s.suppliedPricing == a.pricing);
      }
    }
  }

  lemma ReservedAtMostCharged(st: Store, scope: Scope, m: Measure)
    requires Lawful(st)
    ensures ReservedTotal(st, scope, m) <= ChargedTotal(st, scope, None, m)
  {
    forall x ensures ReservationAt(st, x, scope, m) <= ChargeAt(st, x, scope, None, m) {
      LawfulCharge(st, scope, x, m);
    }
    SumMono(st.admissions.Keys, Reservations(st, scope, m), Charges(st, scope, None, m));
  }

  /** Adding one admission adds its reservation to the scopes it belongs to. */
  lemma ReservedTotalGrows(st: Store, st': Store, id: Id, scope: Scope, m: Measure)
    requires id !in st.admissions && id in st'.admissions
    requires st'.admissions == st.admissions[id := st'.admissions[id]]
    ensures ReservedTotal(st', scope, m) == ReservedTotal(st, scope, m) + ReservationAt(st', id, scope, m)
  {
    var ids := st.admissions.Keys;
    assert st'.admissions.Keys == ids + {id};
    SumInsert(ids, Reservations(st', scope, m), id);
    SumSame(ids, Reservations(st, scope, m), Reservations(st', scope, m));
  }

  /** What a successful admission has checked. */
  lemma AdmittedFits(st: Store, b: Caller, q: Request, c: AdmissionClock, scope: Scope, m: Measure)
    requires Reserve(st, b, q, c).1.Ok?
    requires InScope(Reserve(st, b, q, c).1.value, scope)
    ensures ChargedTotal(st, scope, None, m) + Reserved(Reserve(st, b, q, c).1.value).Of(m)
         <= CapFor(b.config.caps, scope).Of(m)
  {
    CollectTotal(st, st.admissions.Keys, DayOf(c.now), Some(b.runId), None, scope, m);
  }

  /** An admission keeps the reservations of every scope under its cap. */
  lemma AdmissionKeepsReservedUnderCap(st: Store, b: Caller, q: Request, c: AdmissionClock, scope: Scope, m: Measure)
    requires Lawful(st)
    requires ReservedTotal(st, scope, m) <= CapFor(b.config.caps, scope).Of(m)
    ensures ReservedTotal(Reserve(st, b, q, c).0, scope, m) <= CapFor(b.config.caps, scope).Of(m)
  {
    var (st', r) := Reserve(st, b, q, c);
    if r.Ok? {
      ReserveShape(st, b, q, c);
      ReservedTotalGrows(st, st', c.identity, scope, m);
      if InScope(r.value, scope) {
        AdmittedFits(st, b, q, c, scope, m);
        ReservedAtMostCharged(st, scope, m);
      }
    }
  }

  lemma SameAdmissionsSameReservations(st: Store, st': Store, scope: Scope, m: Measure)
    requires st.admissions == st'.admissions
    ensures ReservedTotal(st, scope, m) == ReservedTotal(st', scope, m)
  {
    SumSame(st.admissions.Keys, Reservations(st, scope, m), Reservations(st', scope, m));
  }

  /**
   Caps are safe: under any interleaving, and whatever is written to the mutable
   rows in between, the requests, tokens and spend reserved by every run and on
   every day stay within the shared caps.
  */
  lemma {:induction false} ReservationsStayWithinCaps(steps: seq<Step>, caps: Caps, scope: Scope, m: Measure)
    requires SharedCaps(steps, caps) && CapFor(caps, scope).Of(m) >= 0.0
    ensures ReservedTotal(Exec(EMPTY, steps), scope, m) <= CapFor(caps, scope).Of(m)
  {
    if steps != [] {
      var init, step := steps[..|steps| - 1], steps[|steps| - 1];
      ReservationsStayWithinCaps(init, caps, scope, m);
      var st := Exec(EMPTY, init);
      ExecLawful(EMPTY, init);
      if step.Admit? {
        AdmissionKeepsReservedUnderCap(st, step.caller, step.request, step.clock, scope, m);
      } else {
        ApplyShape(st, step);
        SameAdmissionsSameReservations(st, Apply(st, step), scope, m);
      }
    }
  }

  /** Charges pass a cap only by what breached calls overran. */
  lemma ChargesExceedCapsOnlyByBreaches(steps: seq<Step>, caps: Caps, scope: Scope, m: Measure)
    requires SharedCaps(steps, caps) && CapFor(caps, scope).Of(m) >= 0.0
    ensures var st := Exec(EMPTY, steps);
            ChargedTotal(st, scope, None, m)
            <= CapFor(caps, scope).Of(m) + SumOver(st.admissions.Keys, Excesses(st, scope, m))
  {
    var st := Exec(EMPTY, steps);
    ExecLawful(EMPTY, steps);
    ReservationsStayWithinCaps(steps, caps, scope, m);
    ChargeIsReservationPlusExcess(st, scope, m);
  }

  lemma ChargeIsReservationPlusExcess(st: Store, scope: Scope, m: Measure)
    requires Lawful(st)
    ensures ChargedTotal(st, scope, None, m)
         == ReservedTotal(st, scope, m) + SumOver(st.admissions.Keys, Excesses(st, scope, m))
  {
    forall x ensures ChargeAt(st, x, scope, None, m) == ReservationAt(st, x, scope, m) + ExcessAt(st, x, scope, m) {
      LawfulCharge(st, scope, x, m);
    }
    SumSplit(st.admissions.Keys, Charges(st, scope, None, m), Reservations(st, scope, m),
             Excesses(st, scope, m));
  }

  // ---------------------------------------------------------------- the breach fence

  ghost predicate Preserves(st: Store, st': Store) {
    && (forall id :: id in st.admissions ==> id in st'.admissions && st'.admissions[id] == st.admissions[id])
    && (forall id :: id in st.settlements ==> id in st'.settlements && st'.settlements[id] == st.settlements[id])
  }

  /** Admissions and settlements are never changed or removed. */
  lemma {:induction false} ExecPreserves(st: Store, steps: seq<Step>)
    ensures Preserves(st, Exec(st, steps))
  {
    if steps != [] {
      ExecPreserves(st, steps[..|steps| - 1]);
      ApplyShape(Exec(st, steps[..|steps| - 1]), steps[|steps| - 1]);
    }
  }

  /**
   The fence: once a breach has settled, no later admission with that run or on
   that day succeeds, whatever is written to the mutable rows.
  */
  lemma BreachFencesRunAndDay(st: Store, later: seq<Step>, id: Id, b: Caller, q: Request, c: AdmissionClock)
    requires Breached(st, id)
    requires b.runId == st.admissions[id].runId || DayOf(c.now) == DayOf(st.admissions[id].startedAt)
    ensures var now := Exec(st, later); Reserve(now, b, q, c).1.Err? && Reserve(now, b, q, c).0 == now
  {
    hide VerifiedCall, DeriveUsage, AdmissionSound, Collect;
    ExecPreserves(st, later);
    var now := Exec(st, later);
    var values := VerifiedCharges(now, DayOf(c.now), Some(b.runId), None);
    if values.Ok? {
      CollectLists(now, now.admissions.Keys, DayOf(c.now), Some(b.runId), None, id);
      VerifiedUsage(now, id);
      var charge := Entry(now, id, DayOf(c.now), Some(b.runId), None).value[0];
      assert charge in values.value && charge.usage.breaches != {};
    }
  }

  // ---------------------------------------------------------------- no lockout, no tampering

  /** A store whose every call the reader accepts. */
  ghost predicate Intact(st: Store) {
    && st.calls.Keys == st.admissions.Keys
    && st.settlements.Keys <= st.admissions.Keys
    && (forall id :: id in st.admissions ==> VerifiedCall(st, id).Ok?)
    && (forall id :: id in st.settlements ==> st.settlements[id].usage.status != Open)
  }

  /** A settlement is completed no earlier than its call was admitted. */
  ghost predicate InTime(st: Store, id: Id) {
    id in st.admissions && id in st.settlements ==> st.settlements[id].completedAt >= st.admissions[id].startedAt
  }

  ghost predicate AllInTime(st: Store) {
    forall id :: id in st.admissions ==> InTime(st, id)
  }

  /** The steps of the protocol itself. */
  ghost predicate NoRewrites(steps: seq<Step>) {
    forall i :: 0 <= i < |steps| ==> !steps[i].RewriteProjection?
  }

  /** What every run of the protocol keeps: a call is accepted exactly when its settlement is in time. */
  ghost predicate Aligned(st: Store) {
    && st.calls.Keys == st.admissions.Keys
    && st.settlements.Keys <= st.admissions.Keys
    && (forall id :: id in st.admissions ==> (VerifiedCall(st, id).Ok? <==> InTime(st, id)))
    && (forall id :: id in st.settlements ==> st.settlements[id].usage.status != Open)
  }

  lemma VerifiedCallFrame(st: Store, st': Store, id: Id)
    requires id in st.admissions && id in st'.admissions && st.admissions[id] == st'.admissions[id]
    requires id in st.calls && id in st'.calls && st.calls[id] == st'.calls[id]
    requires id in st.settlements <==> id in st'.settlements
    requires id in st.settlements ==> st.settlements[id] == st'.settlements[id]
    ensures VerifiedCall(st, id) == VerifiedCall(st', id)
  {
  }

  lemma AdmitsIntact(st: Store, st': Store, a: Admission)
    requires Intact(st) && Admits(st, st', a)
    ensures Intact(st')
  {
    AcceptancePinsTheRow(st', a.callId);
    forall id | id in st.admissions ensures VerifiedCall(st', id).Ok? {
      VerifiedCallFrame(st, st', id);
    }
  }

  lemma OtherCallsKeepTheirVerdict(st: Store, st': Store, id: Id, s: Settlement)
    requires st.calls.Keys == st.admissions.Keys && id in st.admissions
    requires st' == Store(st.admissions, st.settlements[id := s], st.calls[id := s.accounting])
    ensures forall x :: x in st.admissions && x != id ==> VerifiedCall(st', x) == VerifiedCall(st, x)
  {
    forall x | x in st.admissions && x != id ensures VerifiedCall(st', x) == VerifiedCall(st, x) {
      VerifiedCallFrame(st, st', x);
    }
  }

  lemma SettledStatus(st: Store, st': Store, id: Id, s: Settlement)
    requires Settles(st, st', id, s)
    ensures s.usage.status != Open
  {
  }

  lemma OneAcceptedSettlementKeepsAll(st: Store, st': Store, id: Id, s: Settlement)
    requires Intact(st) && id in st.admissions && s.usage.status != Open
    requires st' == Store(st.admissions, st.settlements[id := s], st.calls[id := s.accounting])
    requires VerifiedCall(st', id).Ok?
    ensures Intact(st')
  {
    hide VerifiedCall;
    OtherCallsKeepTheirVerdict(st, st', id, s);
    assert st'.calls.Keys == st.calls.Keys;
    assert st'.settlements.Keys == st.settlements.Keys + {id};
  }

  lemma SettlesIntactIff(st: Store, st': Store, id: Id, s: Settlement)
    requires Intact(st) && Settles(st, st', id, s)
    ensures Intact(st') <==> s.completedAt >= st.admissions[id].startedAt
  {
    SettledCallAcceptedIff(st, st', id, s);
    if s.completedAt >= st.admissions[id].startedAt {
      SettledStatus(st, st', id, s);
      OneAcceptedSettlementKeepsAll(st, st', id, s);
    }
  }

  lemma SettledCallAcceptedIff(st: Store, st': Store, id: Id, s: Settlement)
    requires Settles(st, st', id, s)
    ensures VerifiedCall(st', id).Ok? <==> s.completedAt >= st.admissions[id].startedAt
  {
    AcceptancePinsTheRow(st', id);
  }

  /**
   A committed settlement keeps the store readable exactly when its completion
   clock is not behind the admission's start: the check before the commit reads
   an earlier clock.
  */
  lemma FinishKeepsAuthorityIff(st: Store, run: string, id: Id, r: Report)
    requires Intact(st)
    requires Finish(st, run, id, r).1.Committed?
    ensures id in st.admissions
    ensures Intact(Finish(st, run, id, r).0) <==> r.completedAt >= st.admissions[id].startedAt
  {
    FinishShape(st, run, id, r);
    var st' := Finish(st, run, id, r).0;
    SettlesIntactIff(st, st', id, st'.settlements[id]);
  }

  lemma AdmitsAligned(st: Store, st': Store, a: Admission)
    requires Aligned(st) && Admits(st, st', a)
    ensures Aligned(st')
  {
    hide VerifiedCall, DeriveUsage;
    AcceptancePinsTheRow(st', a.callId);
    forall id | id in st.admissions ensures VerifiedCall(st', id).Ok? <==> InTime(st', id) {
      VerifiedCallFrame(st, st', id);
      assert InTime(st, id) <==> InTime(st', id);
    }
  }

  lemma SettlesAligned(st: Store, st': Store, id: Id, s: Settlement)
    requires Aligned(st) && Settles(st, st', id, s)
    ensures Aligned(st')
  {
    hide VerifiedCall, DeriveUsage, AdmissionSound;
    SettledCallAcceptedIff(st, st', id, s);
    SettledStatus(st, st', id, s);
    OtherCallsKeepTheirVerdict(st, st', id, s);
    assert st'.calls.Keys == st.calls.Keys;
    assert st'.settlements.Keys == st.settlements.Keys + {id};
    forall x | x in st.admissions ensures VerifiedCall(st', x).Ok? <==> InTime(st', x) {
      assert x != id ==> (InTime(st, x) <==> InTime(st', x));
    }
  }

  lemma StepAligned(st: Store, step: Step)
    requires Aligned(st) && !step.RewriteProjection?
    ensures Aligned(Apply(st, step))
  {
    ApplyShape(st, step);
    var st' := Apply(st, step);
    hide Aligned;
    if st' != st {
      if step.Admit? {
        AdmitsAligned(st, st', st'.admissions[step.clock.identity]);
      } else {
        SettlesAligned(st, st', step.id, st'.settlements[step.id]);
      }
    }
  }

  lemma {:induction false} RunsStayAligned(st: Store, steps: seq<Step>)
    requires Aligned(st) && NoRewrites(steps)
    ensures Aligned(Exec(st, steps))
  {
    if steps != [] {
      RunsStayAligned(st, steps[..|steps| - 1]);
      StepAligned(Exec(st, steps[..|steps| - 1]), steps[|steps| - 1]);
    }
  }

  lemma RunsAreAligned(steps: seq<Step>)
    requires NoRewrites(steps)
    ensures Aligned(Exec(EMPTY, steps))
  {
    RunsStayAligned(EMPTY, steps);
  }

  /** Over every run, the store is accepted whole exactly when every settlement on record is in time. */
  lemma RunsStayIntactExactly(steps: seq<Step>)
    requires NoRewrites(steps)
    ensures Intact(Exec(EMPTY, steps)) <==> AllInTime(Exec(EMPTY, steps))
  {
    RunsAreAligned(steps);
  }

  // ---------------------------------------------------------------- what a read accepts

  /** The calls a read looks at: admitted by its cutoff, on its day or of its run. */
  ghost predicate Selected(st: Store, id: Id, day: int, run: Option<string>, asOf: Option<Time>) {
    && id in st.admissions && !Unready(asOf, st.admissions[id].startedAt)
    && (DayOf(st.admissions[id].startedAt) == day || Some(st.admissions[id].runId) == run)
  }

  lemma {:induction false} CollectsExactly(st: Store, ids: set<Id>, day: int, run: Option<string>, asOf: Option<Time>)
    requires ids <= st.admissions.Keys
    ensures Collect(st, ids, day, run, asOf).Ok? <==>
              forall id :: id in ids && Selected(st, id, day, run, asOf) ==> VerifiedCall(st, id).Ok?
    decreases |ids|
  {
    hide VerifiedCall, DeriveUsage, AdmissionSound;
    if ids != {} {
      var m := Min(ids);
      if VerifiedCall(st, m).Ok? {
        VerifiedUsage(st, m);
        PendingIsReservation(m, st.admissions[m]);
      }
      CollectsExactly(st, ids - {m}, day, run, asOf);
    }
  }

  /** A read at any day, run and cutoff accepts a reached store exactly when the settlements it looks at are in time. */
  lemma ReadsAcceptExactly(steps: seq<Step>, day: int, run: Option<string>, asOf: Option<Time>)
    requires NoRewrites(steps)
    ensures var st := Exec(EMPTY, steps);
            VerifiedCharges(st, day, run, asOf).Ok? <==>
              forall id :: Selected(st, id, day, run, asOf) ==> InTime(st, id)
  {
    var st := Exec(EMPTY, steps);
    RunsAreAligned(steps);
    CollectsExactly(st, st.admissions.Keys, day, run, asOf);
    hide VerifiedCall, Collect;
  }

  /** What a read says of one call: settled as far as its cutoff can see, with the usage its records certify. */
  ghost predicate Tells(st: Store, asOf: Option<Time>, v: Charge) {
    && v.id in st.admissions
    && var a, s := st.admissions[v.id], SettledBy(st, v.id, asOf);
    && v.runId == a.runId && v.day == DayOf(a.startedAt) && v.expectedModel == a.model
    && (v.pending <==> s.None?) && v.model == (if s.None? then None else s.value.evidence.model)
    && CertifiedUsage(a, s) == Ok(v.usage)
  }

  /** A read lists the calls it looks at, each once and in the order of their identities. */
  ghost predicate ListsExactly(st: Store, ids: set<Id>, day: int, run: Option<string>, asOf: Option<Time>,
                               values: seq<Charge>) {
    && (forall i, j :: 0 <= i < j < |values| ==> values[i].id < values[j].id)
    && (forall i :: 0 <= i < |values| ==>
          values[i].id in ids && Selected(st, values[i].id, day, run, asOf) && Tells(st, asOf, values[i]))
    && (forall id :: id in ids && Selected(st, id, day, run, asOf) ==> Listed(values, id))
  }

  ghost predicate Listed(values: seq<Charge>, id: Id) {
    exists i :: 0 <= i < |values| && values[i].id == id
  }

  lemma EntryTells(st: Store, id: Id, day: int, run: Option<string>, asOf: Option<Time>)
    requires id in st.admissions && Entry(st, id, day, run, asOf).Ok?
    ensures var values := Entry(st, id, day, run, asOf).value;
            if Selected(st, id, day, run, asOf)
            then |values| == 1 && values[0].id == id && Tells(st, asOf, values[0])
            else values == []
  {
    hide DeriveUsage, AdmissionSound;
    if Selected(st, id, day, run, asOf) {
      VerifiedUsage(st, id);
      AcceptancePinsTheRow(st, id);
      hide VerifiedCall;
    }
  }

  lemma {:induction false} CollectListsExactly(st: Store, ids: set<Id>, day: int, run: Option<string>,
                                               asOf: Option<Time>)
    requires ids <= st.admissions.Keys && Collect(st, ids, day, run, asOf).Ok?
    ensures ListsExactly(st, ids, day, run, asOf, Collect(st, ids, day, run, asOf).value)
    decreases |ids|
  {
    if ids != {} {
      var m := Min(ids);
      EntryTells(st, m, day, run, asOf);
      CollectListsExactly(st, ids - {m}, day, run, asOf);
      ListsOneMore(st, ids, day, run, asOf, Entry(st, m, day, run, asOf).value,
                   Collect(st, ids - {m}, day, run, asOf).value);
    }
  }

  lemma ListsOneMore(st: Store, ids: set<Id>, day: int, run: Option<string>, asOf: Option<Time>, first: seq<Charge>,
                     rest: seq<Charge>)
    requires ids != {} && ListsExactly(st, ids - {Min(ids)}, day, run, asOf, rest)
    requires if Selected(st, Min(ids), day, run, asOf)
             then |first| == 1 && first[0].id == Min(ids) && Tells(st, asOf, first[0])
             else first == []
    ensures ListsExactly(st, ids, day, run, asOf, first + rest)
  {
    hide Selected, Tells, Listed;
    var m, values := Min(ids), first + rest;
    forall i | 0 <= i < |rest| ensures m < rest[i].id {
      assert rest[i].id in ids - {m};
    }
    forall id | id in ids && Selected(st, id, day, run, asOf) ensures Listed(values, id) {
      if id == m {
        ListedAt(values, 0);
      } else {
        assert Listed(rest, id);
        var i := PlaceOf(rest, id);
        ListedAt(values, |first| + i);
      }
    }
  }

  lemma ListedAt(values: seq<Charge>, i: nat)
    requires i < |values|
    ensures Listed(values, values[i].id)
  {
  }

  lemma PlaceOf(values: seq<Charge>, id: Id) returns (i: nat)
    requires Listed(values, id)
    ensures i < |values| && values[i].id == id
  {
    i :| 0 <= i < |values| && values[i].id == id;
  }

  /** What every successful read returns, on any store. */
  lemma ReadListsExactly(st: Store, day: int, run: Option<string>, asOf: Option<Time>)
    requires VerifiedCharges(st, day, run, asOf).Ok?
    ensures ListsExactly(st, st.admissions.Keys, day, run, asOf, VerifiedCharges(st, day, run, asOf).value)
  {
    CollectListsExactly(st, st.admissions.Keys, day, run, asOf);
  }

  /** Admission never locks itself out: each read succeeds exactly when its settlements are in time. */
  lemma ReachableStoresAreAccepted(steps: seq<Step>)
    requires NoRewrites(steps)
    ensures var st := Exec(EMPTY, steps);
            (forall day, run, asOf :: VerifiedCharges(st, day, run, asOf).Ok?) <==> AllInTime(st)
  {
    var st := Exec(EMPTY, steps);
    forall day, run, asOf
      ensures VerifiedCharges(st, day, run, asOf).Ok? <==>
              forall id :: Selected(st, id, day, run, asOf) ==> InTime(st, id)
    {
      ReadsAcceptExactly(steps, day, run, asOf);
    }
    hide VerifiedCharges, InTime;
    if forall day, run, asOf :: VerifiedCharges(st, day, run, asOf).Ok? {
      forall id | id in st.admissions ensures InTime(st, id) {
        var day := DayOf(st.admissions[id].startedAt);
        assert VerifiedCharges(st, day, None, None).Ok?;
        assert Selected(st, id, day, None, None);
      }
    }
  }

  /**
   A settlement on record before its admission locks its run and its day out for
   good: every later admission there is refused, whatever is written to the mutable rows.
  */
  lemma LateClockLocksOut(st: Store, later: seq<Step>, id: Id, b: Caller, q: Request, c: AdmissionClock)
    requires id in st.admissions && id in st.settlements && !InTime(st, id)
    requires b.runId == st.admissions[id].runId || DayOf(c.now) == DayOf(st.admissions[id].startedAt)
    ensures var now := Exec(st, later);
            && VerifiedCharges(now, DayOf(c.now), Some(b.runId), None).Err?
            && Reserve(now, b, q, c).1.Err? && Reserve(now, b, q, c).0 == now
  {
    hide VerifiedCall, Collect, DeriveUsage, AdmissionSound;
    ExecPreserves(st, later);
    var now := Exec(st, later);
    AcceptancePinsTheRow(now, id);
    CollectsExactly(now, now.admissions.Keys, DayOf(c.now), Some(b.runId), None);
    assert Selected(now, id, DayOf(c.now), Some(b.runId), None);
  }

  /** One free call, admitted at instant 1, checked at 1 and completed at 0 after the clock stepped back. */
  function SteppedBack(caller: Caller, model: string): seq<Step> {
    [Admit(caller, Request(model, 1, 0, None), AdmissionClock(0, 1, 1, 1)),
     Settle(caller.runId, 0,
            Report(Price(caller.config.provider, model, model, model, 0, 0.0, 0.0), NO_RESPONSE, Success, 0.0, 1, 0))]
  }

  /** The protocol reaches such a store: both steps are accepted, and no admission of the run ever is again. */
  lemma LockoutIsReachable(provider: string, model: string, run: string, later: seq<Step>, q: Request,
                           c: AdmissionClock)
    ensures var caps := Amount(1, 1, 0.0);
            var price := Price(provider, model, model, model, 0, 0.0, 0.0);
            var caller := Caller(Config(provider, [price], Caps(caps, caps)), run, run);
            var st := Exec(EMPTY, SteppedBack(caller, model));
            && st.admissions.Keys == st.settlements.Keys == {0} && !InTime(st, 0)
            && Reserve(Exec(st, later), caller, q, c).1.Err?
  {
    hide VerifiedCall, DeriveUsage, Finish, InTime;
    var caps := Amount(1, 1, 0.0);
    var price := Price(provider, model, model, model, 0, 0.0, 0.0);
    var caller := Caller(Config(provider, [price], Caps(caps, caps)), run, run);
    var steps := SteppedBack(caller, model);
    var q0, c0 := Request(model, 1, 0, None), AdmissionClock(0, 1, 1, 1);
    FirstAdmission(caller, q0, c0, price);
    var one := Apply(EMPTY, steps[0]);
    assert steps[..1] == [steps[0]] && steps[..0] == [] && Exec(EMPTY, [steps[0]]) == one;
    var a := one.admissions[0];
    AcceptancePinsTheRow(one, 0);
    FinishCommits(one, run, 0, steps[1].report);
    var st := Exec(EMPTY, steps);
    assert st == Apply(one, steps[1]);
    assert !InTime(st, 0) by {
      BeforeAdmission(st, 0);
    }
    LateClockLocksOut(st, later, 0, caller, q, c);
  }

  lemma BeforeAdmission(st: Store, id: Id)
    requires id in st.admissions && id in st.settlements && st.settlements[id].completedAt < st.admissions[id].startedAt
    ensures !InTime(st, id)
  {
  }

  lemma FirstAdmission(b: Caller, q: Request, c: AdmissionClock, price: ListedPrice)
    requires RequestWellFormed(q) && c.remaining > 0 && c.remainingAtInsert > 0
    requires b.config.pricing == [price] && Quotes(price, b.config.provider, q.model, c.now)
    requires Fits([], RunScope(b.runId), Reserved(NewAdmission(b, q, c, price)), b.config.caps)
    requires Fits([], DayScope(DayOf(c.now)), Reserved(NewAdmission(b, q, c, price)), b.config.caps)
    ensures var a := NewAdmission(b, q, c, price);
            Reserve(EMPTY, b, q, c) == (Store(map[c.identity := a], map[], map[c.identity := ReservedRow(a)]), Ok(a))
  {
    assert LatestQuote([price], b.config.provider, q.model, c.now) == Some(price);
    assert VerifiedCharges(EMPTY, DayOf(c.now), Some(b.runId), None) == Ok([]);
  }

  lemma FinishCommits(st: Store, run: string, id: Id, r: Report)
    requires id in st.admissions && id !in st.settlements && id in st.calls && VerifiedCall(st, id).Ok?
             && st.calls[id].runId == run
    requires r.status != Blank && r.status != Open && r.elapsed >= 0.0 && r.checkedAt >= st.admissions[id].startedAt
    requires EvidenceWellFormed(r.evidence)
    ensures var (st', o) := Finish(st, run, id, r);
            && o.Committed? && st'.admissions == st.admissions && st'.settlements.Keys == st.settlements.Keys + {id}
            && st'.settlements[id].completedAt == r.completedAt
  {
    AcceptancePinsTheRow(st, id);
    VerifiedUsage(st, id);
  }

  // ---------------------------------------------------------------- when a step succeeds

  /** The first listed of the latest quotes in force. */
  ghost predicate IsQuote(b: Caller, model: string, now: Time, i: nat) {
    && i < |b.config.pricing|
    && IsLatestQuote(b.config.pricing, b.config.pricing[i], b.config.provider, model, now)
    && forall j :: 0 <= j < i ==> !IsLatestQuote(b.config.pricing, b.config.pricing[j], b.config.provider, model, now)
  }

  lemma {:induction false} QuoteIsFirst(pricing: seq<ListedPrice>, provider: string, model: string, now: Time)
    returns (i: nat)
    requires LatestQuote(pricing, provider, model, now).Some?
    ensures i < |pricing| && LatestQuote(pricing, provider, model, now).value == pricing[i]
    ensures forall j :: 0 <= j < i && Quotes(pricing[j], provider, model, now) ==>
              pricing[j].effectiveAt < pricing[i].effectiveAt
  {
    hide Quotes;
    var tail := pricing[1..];
    var rest := LatestQuote(tail, provider, model, now);
    if Quotes(pricing[0], provider, model, now) && !(rest.Some? && rest.value.effectiveAt > pricing[0].effectiveAt) {
      return 0;
    }
    var k := QuoteIsFirst(tail, provider, model, now);
    i := k + 1;
    forall j | 0 <= j < i && Quotes(pricing[j], provider, model, now)
      ensures pricing[j].effectiveAt < pricing[i].effectiveAt
    {
      assert j > 0 ==> pricing[j] == tail[j - 1];
    }
  }

  /** What a request takes from a scope: one request, its tokens, and their price. */
  ghost function Need(q: Request, p: Price, m: Measure): real {
    match m
    case Requests => 1.0
    case Tokens => (q.inputBound + q.outputLimit) as real
    case Spend => (q.inputBound as real * p.inputRate + q.outputLimit as real * p.outputRate) / 1_000_000.0
  }

  ghost predicate RoomIn(st: Store, scope: Scope, q: Request, p: Price, cap: Amount) {
    forall m: Measure :: ChargedTotal(st, scope, None, m) + Need(q, p, m) <= cap.Of(m)
  }

  /** A bound of at least one token, a limit that keeps the sum below 2^63, and a hash if there is one. */
  ghost predicate IsRequest(q: Request) {
    && q.inputBound >= 1 && q.outputLimit >= 0 && q.inputBound + q.outputLimit < 0x8000_0000_0000_0000
    && (q.requestHash.Some? ==> IsSha256(q.requestHash.value))
  }

  /** The request and the clocks an admission reads. */
  ghost predicate InOrder(st: Store, q: Request, c: AdmissionClock) {
    && IsRequest(q)
    && c.remaining > 0 && c.remainingAtInsert > 0 && c.identity !in st.admissions
  }

  /** No call of the run or the day settled before its admission or in breach. */
  ghost predicate Unobstructed(st: Store, b: Caller, c: AdmissionClock) {
    forall id :: Selected(st, id, DayOf(c.now), Some(b.runId), None) ==> InTime(st, id) && !Breached(st, id)
  }

  /** At the quoted price the request fits the run and the day. */
  ghost predicate Room(st: Store, b: Caller, q: Request, c: AdmissionClock, p: Price) {
    && RoomIn(st, RunScope(b.runId), q, p, b.config.caps.perRun)
    && RoomIn(st, DayScope(DayOf(c.now)), q, p, b.config.caps.perDay)
  }

  /** An admission in terms of the immutable records alone. */
  ghost predicate Admissible(st: Store, b: Caller, q: Request, c: AdmissionClock) {
    && InOrder(st, q, c) && Unobstructed(st, b, c)
    && exists i: nat :: IsQuote(b, q.model, c.now, i) && Room(st, b, q, c, b.config.pricing[i])
  }

  /** On every store a run reaches, an admission succeeds exactly when it is admissible. */
  lemma AdmissionSucceedsExactly(steps: seq<Step>, b: Caller, q: Request, c: AdmissionClock)
    requires NoRewrites(steps)
    ensures Reserve(Exec(EMPTY, steps), b, q, c).1.Ok? <==> Admissible(Exec(EMPTY, steps), b, q, c)
  {
    var st := Exec(EMPTY, steps);
    RunsAreAligned(steps);
    ReadsAcceptExactly(steps, DayOf(c.now), Some(b.runId), None);
    AlignedAdmission(st, b, q, c);
  }

  /** Why an admission is refused: the first of these that holds. */
  lemma AdmissionRefusesExactly(steps: seq<Step>, b: Caller, q: Request, c: AdmissionClock)
    requires NoRewrites(steps) && Reserve(Exec(EMPTY, steps), b, q, c).1.Err?
    ensures var st := Exec(EMPTY, steps);
            var why := Reserve(st, b, q, c).1.error;
            if !IsRequest(q) then why == InvalidRequest
            else if c.remaining <= 0 then why == DeadlineExpired
            else if forall i :: !IsQuote(b, q.model, c.now, i) then why == PricingUnavailable
            else if exists id :: Selected(st, id, DayOf(c.now), Some(b.runId), None) && !InTime(st, id) then
              why == InvalidAuthority
            else if exists id :: Selected(st, id, DayOf(c.now), Some(b.runId), None) && Breached(st, id) then
              why == PriorBreach
            else if forall i: nat :: IsQuote(b, q.model, c.now, i) ==> !Room(st, b, q, c, b.config.pricing[i]) then
              why == CapExhausted
            else if c.remainingAtInsert <= 0 then why == DeadlineExpired
            else why == IdentityUsed && c.identity in st.admissions
  {
    var st := Exec(EMPTY, steps);
    RunsAreAligned(steps);
    ReadsAcceptExactly(steps, DayOf(c.now), Some(b.runId), None);
    hide VerifiedCall, Collect, DeriveUsage, AdmissionSound, InTime, Breached, VerifiedCharges, Room, Fits, AnyBreach,
         Exec, Selected, UsedIn;
    var quote := LatestQuote(b.config.pricing, b.config.provider, q.model, c.now);
    if quote.Some? {
      var i := TheQuote(b, q, c);
      assert IsQuote(b, q.model, c.now, i);
      if VerifiedCharges(st, DayOf(c.now), Some(b.runId), None).Ok? {
        BreachIsListed(st, b, c);
        RoomIsFit(st, b, q, c, quote.value);
      }
    }
  }

  lemma AlignedAdmission(st: Store, b: Caller, q: Request, c: AdmissionClock)
    requires Aligned(st)
    requires VerifiedCharges(st, DayOf(c.now), Some(b.runId), None).Ok? <==>
             forall id :: Selected(st, id, DayOf(c.now), Some(b.runId), None) ==> InTime(st, id)
    ensures Reserve(st, b, q, c).1.Ok? <==> Admissible(st, b, q, c)
  {
    hide VerifiedCall, Collect, DeriveUsage, AdmissionSound, InTime, Breached, VerifiedCharges, Room, Fits,
         Unobstructed;
    var quote := LatestQuote(b.config.pricing, b.config.provider, q.model, c.now);
    ReadIsUnobstructed(st, b, c);
    if quote.Some? {
      var i := TheQuote(b, q, c);
      if VerifiedCharges(st, DayOf(c.now), Some(b.runId), None).Ok? {
        RoomIsFit(st, b, q, c, quote.value);
      }
    }
  }

  lemma ReadIsUnobstructed(st: Store, b: Caller, c: AdmissionClock)
    requires VerifiedCharges(st, DayOf(c.now), Some(b.runId), None).Ok? <==>
             forall id :: Selected(st, id, DayOf(c.now), Some(b.runId), None) ==> InTime(st, id)
    ensures var read := VerifiedCharges(st, DayOf(c.now), Some(b.runId), None);
            read.Ok? && !AnyBreach(read.value) <==> Unobstructed(st, b, c)
  {
    hide VerifiedCharges, InTime, Breached, AnyBreach, Selected;
    if VerifiedCharges(st, DayOf(c.now), Some(b.runId), None).Ok? {
      BreachIsListed(st, b, c);
    }
  }

  lemma TheQuote(b: Caller, q: Request, c: AdmissionClock) returns (i: nat)
    requires LatestQuote(b.config.pricing, b.config.provider, q.model, c.now).Some?
    ensures forall k :: IsQuote(b, q.model, c.now, k) <==> k == i
    ensures i < |b.config.pricing|
    ensures b.config.pricing[i] == LatestQuote(b.config.pricing, b.config.provider, q.model, c.now).value
  {
    i := QuoteIsFirst(b.config.pricing, b.config.provider, q.model, c.now);
  }

  lemma BreachIsListed(st: Store, b: Caller, c: AdmissionClock)
    requires VerifiedCharges(st, DayOf(c.now), Some(b.runId), None).Ok?
    ensures AnyBreach(VerifiedCharges(st, DayOf(c.now), Some(b.runId), None).value) <==>
            exists id :: Selected(st, id, DayOf(c.now), Some(b.runId), None) && Breached(st, id)
  {
    var values := VerifiedCharges(st, DayOf(c.now), Some(b.runId), None).value;
    ReadListsExactly(st, DayOf(c.now), Some(b.runId), None);
    CollectsExactly(st, st.admissions.Keys, DayOf(c.now), Some(b.runId), None);
    hide VerifiedCharges, Collect;
    if AnyBreach(values) {
      var v :| v in values && v.usage.breaches != {};
      assert VerifiedCall(st, v.id).Ok?;
      UnsettledIsUnbreached(st, v);
    }
    if id :| Selected(st, id, DayOf(c.now), Some(b.runId), None) && Breached(st, id) {
      assert Listed(values, id);
      var i := PlaceOf(values, id);
      assert values[i] in values;
    }
  }

  lemma UnsettledIsUnbreached(st: Store, v: Charge)
    requires Tells(st, None, v) && v.usage.breaches != {} && VerifiedCall(st, v.id).Ok?
    ensures Breached(st, v.id)
  {
    VerifiedUsage(st, v.id);
    PendingIsReservation(v.id, st.admissions[v.id]);
  }

  lemma RoomIsFit(st: Store, b: Caller, q: Request, c: AdmissionClock, p: Price)
    requires VerifiedCharges(st, DayOf(c.now), Some(b.runId), None).Ok?
    ensures var a, values := NewAdmission(b, q, c, p), VerifiedCharges(st, DayOf(c.now), Some(b.runId), None).value;
            Room(st, b, q, c, p) <==>
              && Fits(values, RunScope(b.runId), Reserved(a), b.config.caps)
              && Fits(values, DayScope(DayOf(c.now)), Reserved(a), b.config.caps)
  {
    ScopeHasRoom(st, b, q, c, RunScope(b.runId), p);
    ScopeHasRoom(st, b, q, c, DayScope(DayOf(c.now)), p);
  }

  lemma ScopeHasRoom(st: Store, b: Caller, q: Request, c: AdmissionClock, scope: Scope, p: Price)
    requires VerifiedCharges(st, DayOf(c.now), Some(b.runId), None).Ok?
    requires scope == RunScope(b.runId) || scope == DayScope(DayOf(c.now))
    ensures var a := NewAdmission(b, q, c, p);
            Fits(VerifiedCharges(st, DayOf(c.now), Some(b.runId), None).value, scope, Reserved(a), b.config.caps)
            <==> RoomIn(st, scope, q, p, if scope.RunScope? then b.config.caps.perRun else b.config.caps.perDay)
  {
    var a := NewAdmission(b, q, c, p);
    forall m: Measure
      ensures Need(q, p, m) == Reserved(a).Of(m)
      ensures UsedIn(VerifiedCharges(st, DayOf(c.now), Some(b.runId), None).value, scope, m)
           == ChargedTotal(st, scope, None, m)
    {
      CollectTotal(st, st.admissions.Keys, DayOf(c.now), Some(b.runId), None, scope, m);
    }
  }

  /** Counters below the limit, a model name of 1 to 160 characters, a hash: whatever the response gave. */
  ghost predicate IsEvidence(e: Evidence) {
    && (forall n :: Some(n) in {e.input, e.output, e.total} ==> 0 <= n < 0x4000_0000_0000_0000)
    && (forall name :: e.model == Some(name) ==> 1 <= |name| <= 160)
    && (forall hash :: e.responseHash == Some(hash) ==> IsSha256(hash))
  }

  lemma EvidenceIsEvidence(e: Evidence)
    ensures EvidenceWellFormed(e) <==> IsEvidence(e)
  {
    assert IsEvidence(e) ==> forall n :: n in {e.input, e.output, e.total} && n.Some? ==> IsCounter(n.value);
  }

  /** On every store a run reaches, a settlement commits exactly when these hold. */
  lemma SettlementSucceedsExactly(steps: seq<Step>, run: string, id: Id, r: Report)
    requires NoRewrites(steps)
    ensures var st := Exec(EMPTY, steps);
            Finish(st, run, id, r).1.Committed? <==>
              && r.status != Blank && r.status != Open && r.elapsed >= 0.0 && IsEvidence(r.evidence)
              && id in st.admissions && st.admissions[id].runId == run && id !in st.settlements
              && r.checkedAt >= st.admissions[id].startedAt
  {
    var st := Exec(EMPTY, steps);
    RunsAreAligned(steps);
    EvidenceIsEvidence(r.evidence);
    hide EvidenceWellFormed, IsEvidence;
    if id in st.admissions {
      OpenRowIs(st, id);
      hide VerifiedCall, DeriveUsage, Aligned;
    } else {
      assert VerifiedCall(st, id).Err?;
    }
  }

  /** In an aligned store a call is open exactly when it is verified and not settled. */
  lemma OpenRowIs(st: Store, id: Id)
    requires Aligned(st) && id in st.admissions
    ensures id in st.calls
    ensures id !in st.settlements ==>
              && VerifiedCall(st, id).Ok? && VerifiedCall(st, id).value.admission == st.admissions[id]
              && st.calls[id].status == Open && st.calls[id].runId == st.admissions[id].runId
    ensures id in st.settlements && VerifiedCall(st, id).Ok? ==> st.calls[id].status != Open
  {
    AcceptancePinsTheRow(st, id);
    if id !in st.settlements {
      assert InTime(st, id);
      VerifiedUsage(st, id);
    }
    hide VerifiedCall, DeriveUsage;
  }

  /**
   No rewrite goes unnoticed: after any rewrite of the mutable rows of a reachable
   store, the reader accepts a call exactly when its settlement is in time and its row was left as it was.
  */
  lemma RewritesAreDetected(steps: seq<Step>, calls: map<Id, Row>, id: Id)
    requires NoRewrites(steps) && id in Exec(EMPTY, steps).admissions
    ensures var st := Exec(EMPTY, steps);
            && id in st.calls
            && (VerifiedCall(Apply(st, RewriteProjection(calls)), id).Ok?
                <==> InTime(st, id) && id in calls && calls[id] == st.calls[id])
  {
    var st := Exec(EMPTY, steps);
    RunsAreAligned(steps);
    AcceptancePinsTheRow(st, id);
    AcceptancePinsTheRow(st.(calls := calls), id);
  }

  /**
   Nor does one a read could miss: after any rewrite of a reachable store a read succeeds exactly when no
   row was added or removed and every call it looks at is in time and its row as it was.
  */
  lemma RewrittenReadsAcceptExactly(steps: seq<Step>, calls: map<Id, Row>, day: int, run: Option<string>,
                                    asOf: Option<Time>)
    requires NoRewrites(steps)
    ensures var st := Exec(EMPTY, steps);
            && st.calls.Keys == st.admissions.Keys
            && (VerifiedCharges(Apply(st, RewriteProjection(calls)), day, run, asOf).Ok? <==>
                  && calls.Keys == st.admissions.Keys
                  && forall id :: Selected(st, id, day, run, asOf) ==> InTime(st, id) && calls[id] == st.calls[id])
  {
    hide VerifiedCall, Collect, Exec, InTime, Breached;
    var st := Exec(EMPTY, steps);
    var rewritten := Apply(st, RewriteProjection(calls));
    RunsAreAligned(steps);
    CollectsExactly(rewritten, st.admissions.Keys, day, run, asOf);
    forall id | id in st.admissions
      ensures VerifiedCall(rewritten, id).Ok? <==> InTime(st, id) && id in calls && calls[id] == st.calls[id]
    {
      RewritesAreDetected(steps, calls, id);
    }
    assert forall id :: Selected(rewritten, id, day, run, asOf) <==> Selected(st, id, day, run, asOf);
  }

  /** A settled call cannot settle again, even if its row is rewritten to look open. */
  lemma SettlesOnce(st: Store, later: seq<Step>, run: string, id: Id, r: Report)
    requires id in st.settlements
    ensures Finish(Exec(st, later), run, id, r).1.Refused?
  {
    ExecPreserves(st, later);
  }

  // ---------------------------------------------------------------- point-in-time reads

  /** Every clock the step writes is later than t. */
  ghost predicate After(step: Step, t: Time) {
    match step
    case Admit(_, _, c) => c.now > t
    case Settle(_, _, r) => r.completedAt > t
    case RewriteProjection(_) => false
  }

  ghost predicate WrittenBy(st: Store, t: Time) {
    && (forall id :: id in st.admissions ==> st.admissions[id].startedAt <= t)
    && (forall id :: id in st.settlements ==> st.settlements[id].completedAt <= t)
  }

  /** At a cutoff before its completion, a settled call still reads as pending. */
  lemma EntryIgnoresLaterSettlement(st: Store, st': Store, id: Id, s: Settlement, day: int, run: Option<string>,
                                    t: Time)
    requires Settles(st, st', id, s) && s.completedAt > t
    requires VerifiedCall(st, id).Ok? && VerifiedCall(st', id).Ok?
    ensures Entry(st', id, day, run, Some(t)) == Entry(st, id, day, run, Some(t))
  {
    VerifiedUsage(st, id);
    VerifiedUsage(st', id);
  }

  lemma EntryFrame(st: Store, st': Store, id: Id, day: int, run: Option<string>, asOf: Option<Time>)
    requires id in st.admissions && id in st'.admissions && st.admissions[id] == st'.admissions[id]
    requires id in st.calls && id in st'.calls && st.calls[id] == st'.calls[id]
    requires id in st.settlements <==> id in st'.settlements
    requires id in st.settlements ==> st.settlements[id] == st'.settlements[id]
    ensures Entry(st, id, day, run, asOf) == Entry(st', id, day, run, asOf)
  {
    VerifiedCallFrame(st, st', id);
  }

  lemma {:induction false} CollectSame(st: Store, st': Store, ids: set<Id>, day: int, run: Option<string>,
                                       asOf: Option<Time>)
    requires ids <= st.admissions.Keys && ids <= st'.admissions.Keys
    requires forall id :: id in ids ==> Entry(st, id, day, run, asOf) == Entry(st', id, day, run, asOf)
    ensures Collect(st, ids, day, run, asOf) == Collect(st', ids, day, run, asOf)
    decreases |ids|
  {
    if ids != {} {
      CollectSame(st, st', ids - {Min(ids)}, day, run, asOf);
    }
  }

  /** A call that is not visible at the cutoff leaves no trace in the list. */
  lemma {:induction false} CollectSkips(st: Store, ids: set<Id>, x: Id, day: int, run: Option<string>,
                                        asOf: Option<Time>)
    requires ids <= st.admissions.Keys && x in ids
    requires Entry(st, x, day, run, asOf) == Ok([])
    ensures Collect(st, ids, day, run, asOf) == Collect(st, ids - {x}, day, run, asOf)
    decreases |ids|
  {
    var m := Min(ids);
    if m == x {
      PrependNothing(Collect(st, ids - {m}, day, run, asOf));
    } else {
      CollectSkips(st, ids - {m}, x, day, run, asOf);
      assert ids - {m} - {x} == ids - {x} - {m};
      MinOfRest(ids, x);
    }
  }

  lemma AdmissionInvisibleBefore(st: Store, st': Store, a: Admission, day: int, run: Option<string>, t: Time)
    requires Admits(st, st', a) && a.startedAt > t && st.calls.Keys == st.admissions.Keys
    ensures Collect(st', st'.admissions.Keys, day, run, Some(t)) == Collect(st, st.admissions.Keys, day, run, Some(t))
  {
    hide VerifiedCall, DeriveUsage, AdmissionSound;
    var ids := st.admissions.Keys;
    forall id | id in ids ensures Entry(st, id, day, run, Some(t)) == Entry(st', id, day, run, Some(t)) {
      EntryFrame(st, st', id, day, run, Some(t));
    }
    CollectSkips(st', st'.admissions.Keys, a.callId, day, run, Some(t));
    assert st'.admissions.Keys - {a.callId} == ids;
    CollectSame(st, st', ids, day, run, Some(t));
  }

  lemma EntryUnready(st: Store, id: Id, day: int, run: Option<string>, t: Time)
    requires id in st.admissions && st.admissions[id].startedAt > t
    ensures Entry(st, id, day, run, Some(t)) == Ok([])
  {
  }

  lemma SettlementInvisibleBefore(st: Store, st': Store, x: Id, s: Settlement, day: int, run: Option<string>, t: Time)
    requires Settles(st, st', x, s) && s.completedAt > t && Aligned(st) && Aligned(st')
    ensures Collect(st', st'.admissions.Keys, day, run, Some(t)) == Collect(st, st.admissions.Keys, day, run, Some(t))
  {
    hide VerifiedCall, Entry, Collect, DeriveUsage;
    forall id | id in st.admissions ensures Entry(st, id, day, run, Some(t)) == Entry(st', id, day, run, Some(t)) {
      if id == x && st.admissions[x].startedAt <= t {
        assert InTime(st, x) && InTime(st', x);
        EntryIgnoresLaterSettlement(st, st', x, s, day, run, t);
      } else if id == x {
        EntryUnready(st, x, day, run, t);
        EntryUnready(st', x, day, run, t);
      } else {
        EntryFrame(st, st', id, day, run, Some(t));
      }
    }
    CollectSame(st, st', st.admissions.Keys, day, run, Some(t));
  }

  lemma StepInvisibleBefore(st: Store, step: Step, day: int, run: Option<string>, t: Time)
    requires Aligned(st) && Aligned(Apply(st, step)) && After(step, t)
    ensures VerifiedCharges(Apply(st, step), day, run, Some(t)) == VerifiedCharges(st, day, run, Some(t))
  {
    ApplyShape(st, step);
    var st' := Apply(st, step);
    if st' != st {
      if step.Admit? {
        AdmissionInvisibleBefore(st, st', st'.admissions[step.clock.identity], day, run, t);
      } else {
        SettlementInvisibleBefore(st, st', step.id, st'.settlements[step.id], day, run, t);
      }
    }
  }

  /**
   Time travel: reading any later store at cutoff t gives the list, or the failure, that
   was readable without a cutoff on the store as it was at t.
  */
  lemma {:induction false} PointInTimeRead(st: Store, later: seq<Step>, day: int, run: Option<string>, t: Time)
    requires Aligned(st) && WrittenBy(st, t)
    requires forall i :: 0 <= i < |later| ==> After(later[i], t)
    ensures VerifiedCharges(Exec(st, later), day, run, Some(t)) == VerifiedCharges(st, day, run, None)
  {
    if later == [] {
      CutoffIrrelevant(st, st.admissions.Keys, day, run, t);
    } else {
      var init, step := later[..|later| - 1], later[|later| - 1];
      PointInTimeRead(st, init, day, run, t);
      RunsStayAligned(st, init);
      StepAligned(Exec(st, init), step);
      StepInvisibleBefore(Exec(st, init), step, day, run, t);
    }
  }

  lemma {:induction false} CutoffIrrelevant(st: Store, ids: set<Id>, day: int, run: Option<string>, t: Time)
    requires WrittenBy(st, t) && ids <= st.admissions.Keys
    ensures Collect(st, ids, day, run, Some(t)) == Collect(st, ids, day, run, None)
    decreases |ids|
  {
    hide VerifiedCall, DeriveUsage, AdmissionSound;
    if ids != {} {
      var m := Min(ids);
      if VerifiedCall(st, m).Ok? {
        VerifiedUsage(st, m);
      }
      CutoffIrrelevant(st, ids - {m}, day, run, t);
    }
  }

  lemma ChargeGrows(st: Store, scope: Scope, id: Id, t: Time, t': Time, m: Measure)
    requires Intact(st) && id in st.admissions && t <= t'
    ensures ChargeAt(st, id, scope, Some(t), m) <= ChargeAt(st, id, scope, Some(t'), m)
  {
    hide VerifiedCall, DeriveUsage, AdmissionSound;
    var a := st.admissions[id];
    VerifiedUsage(st, id);
    PendingIsReservation(id, a);
    if id in st.settlements {
      var s := st.settlements[id];
      ChargeCoversReservation(id, a, s.evidence, s.reportedStatus, s.suppliedPricing == a.pricing);
    }
  }

  /** Conservative totals never decrease as the cutoff moves forward. */
  lemma ConservativeTotalsGrow(st: Store, scope: Scope, day: int, run: Option<string>, t: Time, t': Time, m: Measure)
    requires Intact(st) && t <= t' && Asked(scope, day, run)
    ensures VerifiedCharges(st, day, run, Some(t)).Ok? && VerifiedCharges(st, day, run, Some(t')).Ok?
    ensures UsedIn(VerifiedCharges(st, day, run, Some(t)).value, scope, m)
            <= UsedIn(VerifiedCharges(st, day, run, Some(t')).value, scope, m)
  {
    var ids := st.admissions.Keys;
    CollectsExactly(st, ids, day, run, Some(t));
    CollectsExactly(st, ids, day, run, Some(t'));
    CollectTotal(st, ids, day, run, Some(t), scope, m);
    CollectTotal(st, ids, day, run, Some(t'), scope, m);
    forall id | id in ids ensures ChargeAt(st, id, scope, Some(t), m) <= ChargeAt(st, id, scope, Some(t'), m) {
      ChargeGrows(st, scope, id, t, t', m);
    }
    SumMono(ids, Charges(st, scope, Some(t), m), Charges(st, scope, Some(t'), m));
  }
}
