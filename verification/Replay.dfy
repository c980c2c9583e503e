/**
 The chronological replay: phases of one timestamp, the rebalance that supersedes
 open intents, and resuming a run on the ledger it left.

 Bars, dividends, risk and routing are an engine of arbitrary functions that may
 fill and close open intents and change the rest of the book, nothing else.
*/
module Replay {
  import opened Totals
  import opened Basics

  datatype Intent = Intent(id: Id, decisionAt: Time)

  datatype Order = Order(intent: Intent, open: bool)

  datatype Fill = Fill(order: Id, executedAt: Time)

  datatype Target = Target(decisionAt: Time, content: nat)

  /** One timestamp: whether bars open, a decision is due and the book is valued. */
  datatype Event = Event(at: Time, opens: bool, decides: bool, values: bool)

  /** The rest of the database, by its content hash. */
  type Book = nat

  /** What the database holds: applied steps, decisions, orders, fills, and the rest of the book. */
  datatype Ledger = Ledger(steps: seq<Time>, decisions: seq<Time>, orders: map<Id, Order>, fills: seq<Fill>, book: Book)

  datatype Engine = Engine(
    settle: (Ledger, Event) -> Option<Ledger>,
    trade: (Ledger, Event) -> Option<Ledger>,
    decide: (Ledger, Event) -> Option<Option<Target>>,
    route: (Ledger, Target) -> Option<seq<Intent>>,
    executable: Intent -> bool,
    admit: (Ledger, Intent) -> bool,
    value: (Ledger, Event) -> Option<Ledger>)

  // ---------------------------------------------------------------- what an engine may do

  /** Orders keep their intent and are never reopened. */
  ghost predicate OnlyCloses(before: map<Id, Order>, after: map<Id, Order>) {
    && before.Keys == after.Keys
    && forall id :: id in before ==> after[id].intent == before[id].intent && (after[id].open ==> before[id].open)
  }

  ghost predicate KeepsRecords(before: Ledger, after: Ledger) {
    && after.steps == before.steps && after.decisions == before.decisions && OnlyCloses(before.orders, after.orders)
  }

  /** Fills are appended, at this time, and only for intents open when the phase starts. */
  ghost predicate FillsOpen(before: Ledger, after: Ledger, at: Time) {
    && |before.fills| <= |after.fills| && after.fills[..|before.fills|] == before.fills
    && forall i :: |before.fills| <= i < |after.fills| ==>
         after.fills[i].executedAt == at && after.fills[i].order in before.orders
           && before.orders[after.fills[i].order].open
  }

  ghost predicate Lawful(e: Engine) {
    && (forall l, ev :: e.settle(l, ev).Some? ==>
          KeepsRecords(l, e.settle(l, ev).value) && e.settle(l, ev).value.fills == l.fills)
    && (forall l, ev :: e.trade(l, ev).Some? ==>
          KeepsRecords(l, e.trade(l, ev).value) && FillsOpen(l, e.trade(l, ev).value, ev.at))
    && (forall l, ev :: e.value(l, ev).Some? ==> e.value(l, ev).value == l.(book := e.value(l, ev).value.book))
    && (forall l, t :: e.route(l, t).Some? ==> AllDecidedAt(e.route(l, t).value, t.decisionAt))
  }

  ghost predicate AllDecidedAt(intents: seq<Intent>, at: Time) {
    forall i :: 0 <= i < |intents| ==> intents[i].decisionAt == at
  }

  // ---------------------------------------------------------------- one step

  function CancelAll(orders: map<Id, Order>): map<Id, Order> {
    map id | id in orders :: orders[id].(open := false)
  }

  /** A known intent is a retry and changes nothing; a new one is opened if the risk check admits it. */
  function Submit(l: Ledger, e: Engine, n: Intent): Ledger {
    if n.id !in l.orders && e.admit(l, n) then l.(orders := l.orders[n.id := Order(n, true)]) else l
  }

  function SubmitAll(l: Ledger, e: Engine, intents: seq<Intent>): Ledger {
    if intents == [] then l
    else Submit(SubmitAll(l, e, intents[..|intents| - 1]), e, intents[|intents| - 1])
  }

  /** A new target cancels everything open before it is routed. */
  function Rebalanced(l: Ledger, e: Engine, t: Target): Option<Ledger> {
    var cancelled := l.(orders := CancelAll(l.orders));
    var routed := e.route(cancelled, t);
    if routed.None? || exists i :: 0 <= i < |routed.value| && !e.executable(routed.value[i]) then None
    else
      var submitted := SubmitAll(cancelled, e, routed.value);
      Some(submitted.(decisions := submitted.decisions + [t.decisionAt]))
  }

  function Decided(l: Ledger, e: Engine, ev: Event): Option<Ledger> {
    if !ev.decides then Some(l)
    else
      var target := e.decide(l, ev);
      if target.None? then None
      else if target.value.None? then Some(l)
      else if target.value.value.decisionAt != ev.at then None
      else Rebalanced(l, e, target.value.value)
  }

  /** All phases of a timestamp in their order, as one transaction; a recorded step is not repeated. */
  function StepOf(l: Ledger, e: Engine, ev: Event): Option<Ledger> {
    if ev.at in l.steps then Some(l)
    else
      var settled := e.settle(l.(steps := l.steps + [ev.at]), ev);
      if settled.None? then None
      else
        var traded := if ev.opens then e.trade(settled.value, ev) else settled;
        if traded.None? then None
        else
          var decided := Decided(traded.value, e, ev);
          if decided.None? then None
          else if ev.values then e.value(decided.value, ev)
          else decided
  }

  /** The ledger after the first n timestamps, up to the first that fails. */
  function Replayed(l: Ledger, e: Engine, timeline: seq<Event>, n: nat): Option<Ledger>
    requires n <= |timeline|
  {
    if n == 0 then Some(l)
    else
      var before := Replayed(l, e, timeline, n - 1);
      if before.None? then None else StepOf(before.value, e, timeline[n - 1])
  }

  /** At the evaluation cutoff everything still open expires. */
  function Closed(l: Ledger): Ledger {
    l.(orders := CancelAll(l.orders))
  }

  ghost predicate Chronological(timeline: seq<Event>) {
    forall i, j :: 0 <= i < j < |timeline| ==> timeline[i].at < timeline[j].at
  }

  // ---------------------------------------------------------------- the replay object

  class PortfolioReplay {
    var ledger: Ledger

    constructor (l: Ledger)
      ensures ledger == l
    {
      ledger := l;
    }

    /** Cancelling the open intents one by one. */
    method CancelPending()
      modifies this
      ensures ledger == old(ledger).(orders := CancelAll(old(ledger).orders))
    {
      var todo := set id | id in ledger.orders && ledger.orders[id].open;
      while todo != {}
        invariant ledger == old(ledger).(orders := ledger.orders)
        invariant OnlyCloses(old(ledger).orders, ledger.orders)
        invariant todo <= ledger.orders.Keys
        invariant forall id :: id in ledger.orders && ledger.orders[id].open ==> id in todo
        decreases |todo|
      {
        var id := Min(todo);
        ledger := ledger.(orders := ledger.orders[id := ledger.orders[id].(open := false)]);
        todo := todo - {id};
      }
      forall id | id in ledger.orders ensures ledger.orders[id] == CancelAll(old(ledger).orders)[id] {
        assert id in old(ledger).orders && !ledger.orders[id].open;
      }
      assert ledger.orders == CancelAll(old(ledger).orders);
    }

    method Rebalance(e: Engine, t: Target) returns (ok: bool)
      modifies this
      ensures ok <==> Rebalanced(old(ledger), e, t).Some?
      ensures ok ==> ledger == Rebalanced(old(ledger), e, t).value
    {
      CancelPending();
      ghost var cancelled := ledger;
      var routed := e.route(ledger, t);
      if routed.None? {
        return false;
      }
      var intents := routed.value;
      for i := 0 to |intents|
        invariant ledger == SubmitAll(cancelled, e, intents[..i])
        invariant forall j :: 0 <= j < i ==> e.executable(intents[j])
      {
        assert intents[..i + 1][..i] == intents[..i];
        if !e.executable(intents[i]) {
          return false;
        }
        if intents[i].id !in ledger.orders && e.admit(ledger, intents[i]) {
          ledger := ledger.(orders := ledger.orders[intents[i].id := Order(intents[i], true)]);
        }
      }
      assert intents[..|intents|] == intents;
      ledger := ledger.(decisions := ledger.decisions + [t.decisionAt]);
      return true;
    }

    /** One timestamp. A failure rolls the whole step back. */
    method Step(e: Engine, ev: Event) returns (ok: bool)
      modifies this
      ensures ok <==> StepOf(old(ledger), e, ev).Some?
      ensures ledger == if ok then StepOf(old(ledger), e, ev).value else old(ledger)
    {
      var saved := ledger;
      if ev.at in ledger.steps {
        return true;
      }
      ledger := ledger.(steps := ledger.steps + [ev.at]);
      ok := Phases(e, ev);
      if !ok {
        ledger := saved;
      }
    }

    method Phases(e: Engine, ev: Event) returns (ok: bool)
      requires ledger.steps != [] && ledger.steps[|ledger.steps| - 1] == ev.at
      requires ev.at !in ledger.steps[..|ledger.steps| - 1]
      modifies this
      ensures var before := old(ledger).(steps := old(ledger).steps[..|old(ledger).steps| - 1]);
              && (ok <==> StepOf(before, e, ev).Some?)
              && (ok ==> ledger == StepOf(before, e, ev).value)
    {
      assert ledger.steps[..|ledger.steps| - 1] + [ev.at] == ledger.steps;
      var settled := e.settle(ledger, ev);
      if settled.None? {
        return false;
      }
      ledger := settled.value;
      if ev.opens {
        var traded := e.trade(ledger, ev);
        if traded.None? {
          return false;
        }
        ledger := traded.value;
      }
      if ev.decides {
        var target := e.decide(ledger, ev);
        if target.None? {
          return false;
        }
        if target.value.Some? {
          if target.value.value.decisionAt != ev.at {
            return false;
          }
          ok := Rebalance(e, target.value.value);
          if !ok {
            return false;
          }
        }
      }
      if ev.values {
        var valued := e.value(ledger, ev);
        if valued.None? {
          return false;
        }
        ledger := valued.value;
      }
      return true;
    }

    /** The run: every timestamp in order, then the cutoff. */
    method Run(e: Engine, timeline: seq<Event>) returns (ok: bool)
      modifies this
      ensures ok <==> Replayed(old(ledger), e, timeline, |timeline|).Some?
      ensures ok ==> ledger == Closed(Replayed(old(ledger), e, timeline, |timeline|).value)
      ensures !ok ==> exists n :: 0 <= n < |timeline| && Replayed(old(ledger), e, timeline, n) == Some(ledger)
                                  && Replayed(old(ledger), e, timeline, n + 1).None?
    {
      ghost var start := ledger;
      for n := 0 to |timeline|
        invariant Replayed(start, e, timeline, n) == Some(ledger)
      {
        ok := Step(e, timeline[n]);
        if !ok {
          FailureIsFinal(start, e, timeline, n + 1, |timeline|);
          return false;
        }
      }
      CancelPending();
      return true;
    }
  }

  lemma {:induction false} FailureIsFinal(l: Ledger, e: Engine, timeline: seq<Event>, n: nat, m: nat)
    requires n <= m <= |timeline| && Replayed(l, e, timeline, n).None?
    ensures Replayed(l, e, timeline, m).None?
  {
    if n < m {
      FailureIsFinal(l, e, timeline, n, m - 1);
    }
  }

  // ---------------------------------------------------------------- what one step does

  /** The same ledger up to its orders. */
  ghost predicate OnlyOrdersChange(before: Ledger, after: Ledger) {
    && after.steps == before.steps && after.decisions == before.decisions && after.fills == before.fills
    && after.book == before.book
  }

  /**
   The risk check decides: an intent not on record yet is opened exactly when the check admits it on the
   ledger as the intents before it left it; one on record changes nothing, nor does a refused one.
  */
  lemma RiskCheckDecides(l: Ledger, e: Engine, intents: seq<Intent>, i: nat)
    requires i < |intents|
    ensures var before, after, n := SubmitAll(l, e, intents[..i]), SubmitAll(l, e, intents[..i + 1]), intents[i];
            && OnlyOrdersChange(before, after)
            && (forall id :: id in before.orders ==> id in after.orders && after.orders[id] == before.orders[id])
            && (forall id :: id in after.orders && id !in before.orders ==> id == n.id && e.admit(before, n))
            && (n.id !in before.orders && e.admit(before, n) ==>
                  n.id in after.orders && after.orders[n.id].intent == n && after.orders[n.id].open)
  {
    assert intents[..i + 1][..i] == intents[..i];
  }

  /** What a target replaces: every open intent is closed, each still on record with its intent. */
  ghost predicate AllClosed(before: Ledger, after: Ledger) {
    && OnlyOrdersChange(before, after) && after.orders.Keys == before.orders.Keys
    && forall id :: id in before.orders ==>
         after.orders[id].intent == before.orders[id].intent && !after.orders[id].open
  }

  /**
   A rebalance succeeds exactly when its target is routed, on a ledger with nothing open, to intents that
   can all be executed; they are then submitted, and the decision is recorded.
  */
  lemma RebalanceSubmits(l: Ledger, e: Engine, t: Target) returns (cancelled: Ledger)
    ensures AllClosed(l, cancelled)
    ensures Rebalanced(l, e, t).Some? <==>
              exists intents :: e.route(cancelled, t) == Some(intents) && forall n :: n in intents ==> e.executable(n)
    ensures Rebalanced(l, e, t).Some? ==>
              && e.route(cancelled, t).Some?
              && var submitted, r := SubmitAll(cancelled, e, e.route(cancelled, t).value), Rebalanced(l, e, t).value;
              && r.orders == submitted.orders && r.decisions == l.decisions + [t.decisionAt]
              && r.steps == l.steps && r.fills == l.fills && r.book == l.book
  {
    cancelled := l.(orders := CancelAll(l.orders));
    var routed := e.route(cancelled, t);
    if routed.Some? {
      SubmissionKeeps(cancelled, e, routed.value);
      assert (exists i :: 0 <= i < |routed.value| && !e.executable(routed.value[i])) <==>
             exists n :: n in routed.value && !e.executable(n);
    }
  }

  lemma {:induction false} SubmissionKeeps(l: Ledger, e: Engine, intents: seq<Intent>)
    ensures OnlyOrdersChange(l, SubmitAll(l, e, intents))
  {
    if intents != [] {
      SubmissionKeeps(l, e, intents[..|intents| - 1]);
    }
  }

  /** The decision phase: none due, none made, or a target of this very timestamp that is rebalanced to. */
  ghost predicate DecidesTo(e: Engine, ev: Event, before: Ledger, after: Ledger) {
    if !ev.decides || e.decide(before, ev) == Some(None) then after == before
    else
      exists t: Target :: e.decide(before, ev) == Some(Some(t)) && t.decisionAt == ev.at
                  && Rebalanced(before, e, t) == Some(after)
  }

  /** One timestamp: settlement, trades at its open, its decision and valuation, each on what the one before left. */
  ghost predicate Phased(e: Engine, ev: Event, before: Ledger, settled: Ledger, traded: Ledger, decided: Ledger,
                         after: Ledger) {
    && e.settle(before.(steps := before.steps + [ev.at]), ev) == Some(settled)
    && (if ev.opens then e.trade(settled, ev) == Some(traded) else traded == settled)
    && DecidesTo(e, ev, traded, decided)
    && (if ev.values then e.value(decided, ev) == Some(after) else after == decided)
  }

  /** A new step succeeds exactly when all its phases do, in this order; a recorded one is skipped. */
  lemma StepIsPhased(l: Ledger, e: Engine, ev: Event, after: Ledger)
    ensures ev.at in l.steps ==> StepOf(l, e, ev) == Some(l)
    ensures ev.at !in l.steps ==>
              (StepOf(l, e, ev) == Some(after) <==>
                 exists settled, traded, decided :: Phased(e, ev, l, settled, traded, decided, after))
  {
    hide Rebalanced;
    if ev.at !in l.steps && StepOf(l, e, ev) == Some(after) {
      var settled := e.settle(l.(steps := l.steps + [ev.at]), ev).value;
      var traded := if ev.opens then e.trade(settled, ev).value else settled;
      var decided := Decided(traded, e, ev).value;
      assert Phased(e, ev, l, settled, traded, decided, after);
    }
  }

  // ---------------------------------------------------------------- what every run keeps

  /** Fills follow their decision, and whatever is open was decided by the latest decision. */
  ghost predicate Causal(l: Ledger, limit: Time) {
    && (forall i :: 0 <= i < |l.fills| ==>
          l.fills[i].order in l.orders && l.orders[l.fills[i].order].intent.decisionAt < l.fills[i].executedAt <= limit)
    && (forall id :: id in l.orders ==> l.orders[id].intent.decisionAt <= limit)
    && (forall i :: 0 <= i < |l.decisions| ==> l.decisions[i] <= limit)
    && (forall i, j :: 0 <= i < j < |l.decisions| ==> l.decisions[i] < l.decisions[j])
    && OpenFromLatest(l)
  }

  ghost predicate OpenFromLatest(l: Ledger) {
    forall id :: id in l.orders && l.orders[id].open ==>
      l.decisions != [] && l.orders[id].intent.decisionAt == l.decisions[|l.decisions| - 1]
  }

  lemma {:induction false} SubmitAllOpens(l: Ledger, e: Engine, intents: seq<Intent>, at: Time)
    requires AllDecidedAt(intents, at) && forall id :: id in l.orders ==> !l.orders[id].open
    ensures var s := SubmitAll(l, e, intents);
            && s == l.(orders := s.orders)
            && (forall id :: id in l.orders ==> id in s.orders && s.orders[id] == l.orders[id])
            && (forall id :: id in s.orders && id !in l.orders ==> s.orders[id].intent.decisionAt == at)
  {
    if intents != [] {
      var init := intents[..|intents| - 1];
      assert forall i :: 0 <= i < |init| ==> init[i] == intents[i];
      SubmitAllOpens(l, e, init, at);
    }
  }

  /** Before the decision of a timestamp: nothing decided yet, and fills only of earlier decisions. */
  lemma RebalanceIsCausal(l: Ledger, e: Engine, t: Target, earlier: Time)
    requires Lawful(e) && earlier < t.decisionAt && Rebalanced(l, e, t).Some?
    requires Causal(l, t.decisionAt)
    requires forall i :: 0 <= i < |l.decisions| ==> l.decisions[i] <= earlier
    ensures var r := Rebalanced(l, e, t).value; Causal(r, t.decisionAt) && r.steps == l.steps && r.fills == l.fills
  {
    var cancelled := l.(orders := CancelAll(l.orders));
    var routed := e.route(cancelled, t).value;
    assert AllDecidedAt(routed, t.decisionAt);
    hide Lawful;
    SubmitAllOpens(cancelled, e, routed, t.decisionAt);
    var s := SubmitAll(cancelled, e, routed);
    forall id | id in s.orders ensures s.orders[id].intent.decisionAt <= t.decisionAt {
      assert id in l.orders || s.orders[id].intent.decisionAt == t.decisionAt;
    }
  }

  lemma TradeIsCausal(l: Ledger, traded: Ledger, at: Time, earlier: Time)
    requires Causal(l, earlier) && earlier < at && KeepsRecords(l, traded) && FillsOpen(l, traded, at)
    ensures Causal(traded, at)
  {
    forall i | 0 <= i < |traded.fills|
      ensures traded.fills[i].order in traded.orders
              && traded.orders[traded.fills[i].order].intent.decisionAt < traded.fills[i].executedAt <= at
    {
      if i < |l.fills| {
        assert traded.fills[..|l.fills|][i] == l.fills[i];
      }
    }
  }

  lemma SettleIsCausal(l: Ledger, settled: Ledger, earlier: Time)
    requires Causal(l, earlier) && KeepsRecords(l, settled) && settled.fills == l.fills
    ensures Causal(settled, earlier)
  {
  }

  lemma DecisionIsCausal(l: Ledger, e: Engine, ev: Event, earlier: Time)
    requires Lawful(e) && earlier < ev.at && Causal(l, ev.at) && Decided(l, e, ev).Some?
    requires forall i :: 0 <= i < |l.decisions| ==> l.decisions[i] <= earlier
    ensures var r := Decided(l, e, ev).value; Causal(r, ev.at) && r.steps == l.steps
  {
    hide Lawful, Causal, Rebalanced;
    if ev.decides && e.decide(l, ev).value.Some? {
      RebalanceIsCausal(l, e, e.decide(l, ev).value.value, earlier);
    }
  }

  lemma ValueIsCausal(l: Ledger, e: Engine, ev: Event, limit: Time)
    requires Lawful(e) && Causal(l, limit) && e.value(l, ev).Some?
    ensures Causal(e.value(l, ev).value, limit) && e.value(l, ev).value.steps == l.steps
  {
    assert e.value(l, ev).value == l.(book := e.value(l, ev).value.book);
    hide Lawful;
  }

  lemma BeginIsCausal(l: Ledger, e: Engine, ev: Event, earlier: Time)
    requires Lawful(e) && Causal(l, earlier)
    requires e.settle(l.(steps := l.steps + [ev.at]), ev).Some?
    ensures var settled := e.settle(l.(steps := l.steps + [ev.at]), ev).value;
            Causal(settled, earlier) && settled.steps == l.steps + [ev.at]
  {
    var begun := l.(steps := l.steps + [ev.at]);
    assert Causal(begun, earlier);
    assert KeepsRecords(begun, e.settle(begun, ev).value) && e.settle(begun, ev).value.fills == begun.fills;
    hide Lawful, Causal;
    SettleIsCausal(begun, e.settle(begun, ev).value, earlier);
  }

  lemma OpeningIsCausal(l: Ledger, e: Engine, ev: Event, earlier: Time)
    requires Lawful(e) && Causal(l, earlier) && earlier < ev.at && (ev.opens ==> e.trade(l, ev).Some?)
    ensures var traded := if ev.opens then e.trade(l, ev).value else l;
            Causal(traded, ev.at) && traded.steps == l.steps && traded.decisions == l.decisions
  {
    var traded := if ev.opens then e.trade(l, ev).value else l;
    assert KeepsRecords(l, traded) && FillsOpen(l, traded, ev.at);
    hide Lawful, Causal, FillsOpen;
    TradeIsCausal(l, traded, ev.at, earlier);
  }

  /** A new timestamp keeps the run causal. */
  lemma StepIsCausal(l: Ledger, e: Engine, ev: Event, earlier: Time)
    requires Lawful(e) && Causal(l, earlier) && earlier < ev.at && ev.at !in l.steps && StepOf(l, e, ev).Some?
    ensures var r := StepOf(l, e, ev).value; Causal(r, ev.at) && r.steps == l.steps + [ev.at]
  {
    var settled := e.settle(l.(steps := l.steps + [ev.at]), ev).value;
    BeginIsCausal(l, e, ev, earlier);
    OpeningIsCausal(settled, e, ev, earlier);
    var traded := if ev.opens then e.trade(settled, ev).value else settled;
    DecisionsUpTo(settled, earlier);
    hide Lawful, Causal, Decided;
    DecisionIsCausal(traded, e, ev, earlier);
    if ev.values {
      ValueIsCausal(Decided(traded, e, ev).value, e, ev, ev.at);
    }
  }

  lemma DecisionsUpTo(l: Ledger, limit: Time)
    requires Causal(l, limit)
    ensures forall i :: 0 <= i < |l.decisions| ==> l.decisions[i] <= limit
  {
  }

  function Times(timeline: seq<Event>, n: nat): seq<Time>
    requires n <= |timeline|
  {
    seq(n, i requires 0 <= i < n => timeline[i].at)
  }

  function LastTime(timeline: seq<Event>, n: nat, since: Time): Time
    requires n <= |timeline|
  {
    if n == 0 then since else timeline[n - 1].at
  }

  /**
   At every step boundary of every run: each timestamp applied once and in order, every
   fill after its decision, and every open intent from the latest rebalance.
  */
  lemma {:induction false} EveryRunIsCausal(l: Ledger, e: Engine, timeline: seq<Event>, n: nat, since: Time)
    requires Lawful(e) && Chronological(timeline) && n <= |timeline| && (timeline != [] ==> since < timeline[0].at)
    requires l.steps == [] && Causal(l, since) && Replayed(l, e, timeline, n).Some?
    ensures var r := Replayed(l, e, timeline, n).value;
            r.steps == Times(timeline, n) && Causal(r, LastTime(timeline, n, since))
  {
    if n > 0 {
      EveryRunIsCausal(l, e, timeline, n - 1, since);
      var before := Replayed(l, e, timeline, n - 1).value;
      assert timeline[n - 1].at !in before.steps;
      StepIsCausal(before, e, timeline[n - 1], LastTime(timeline, n - 1, since));
      assert Times(timeline, n) == Times(timeline, n - 1) + [timeline[n - 1].at];
    }
  }

  // ---------------------------------------------------------------- resuming

  /** A ledger that holds the first k steps. */
  ghost predicate Holds(l: Ledger, timeline: seq<Event>, k: nat) {
    k <= |timeline| && forall i :: 0 <= i < k ==> timeline[i].at in l.steps
  }

  lemma StepRemembers(l: Ledger, e: Engine, ev: Event)
    requires Lawful(e) && StepOf(l, e, ev).Some?
    ensures ev.at in StepOf(l, e, ev).value.steps && forall t :: t in l.steps ==> t in StepOf(l, e, ev).value.steps
  {
    if ev.at !in l.steps {
      var settled := e.settle(l.(steps := l.steps + [ev.at]), ev).value;
      var traded := if ev.opens then e.trade(settled, ev).value else settled;
      var decided := Decided(traded, e, ev).value;
      if ev.decides && e.decide(traded, ev).value.Some? {
        RebalanceKeepsSteps(traded, e, e.decide(traded, ev).value.value);
      }
      if ev.values {
        assert e.value(decided, ev).value == decided.(book := e.value(decided, ev).value.book);
      }
    }
  }

  lemma RebalanceKeepsSteps(l: Ledger, e: Engine, t: Target)
    requires Lawful(e) && Rebalanced(l, e, t).Some?
    ensures Rebalanced(l, e, t).value.steps == l.steps
  {
    var cancelled := l.(orders := CancelAll(l.orders));
    SubmitAllOpens(cancelled, e, e.route(cancelled, t).value, t.decisionAt);
  }

  lemma {:induction false} ReplayRemembers(l: Ledger, e: Engine, timeline: seq<Event>, k: nat)
    requires Lawful(e) && k <= |timeline| && Replayed(l, e, timeline, k).Some?
    ensures Holds(Replayed(l, e, timeline, k).value, timeline, k)
  {
    if k > 0 {
      ReplayRemembers(l, e, timeline, k - 1);
      StepRemembers(Replayed(l, e, timeline, k - 1).value, e, timeline[k - 1]);
    }
  }

  /** Steps a ledger holds are skipped. */
  lemma {:induction false} HeldStepsAreSkipped(l: Ledger, e: Engine, timeline: seq<Event>, k: nat)
    requires Holds(l, timeline, k)
    ensures Replayed(l, e, timeline, k) == Some(l)
  {
    if k > 0 {
      HeldStepsAreSkipped(l, e, timeline, k - 1);
    }
  }

  /** A run stopped after any number of steps and started again continues as if it had not stopped. */
  lemma {:induction false} ResumeEqualsUninterrupted(l: Ledger, e: Engine, timeline: seq<Event>, k: nat, n: nat)
    requires Lawful(e) && k <= n <= |timeline| && Replayed(l, e, timeline, k).Some?
    ensures Replayed(Replayed(l, e, timeline, k).value, e, timeline, n) == Replayed(l, e, timeline, n)
  {
    if n == k {
      ReplayRemembers(l, e, timeline, k);
      HeldStepsAreSkipped(Replayed(l, e, timeline, k).value, e, timeline, k);
    } else {
      ResumeEqualsUninterrupted(l, e, timeline, k, n - 1);
    }
  }

  /** Running a finished ledger again, the cutoff included, changes nothing. */
  lemma RerunChangesNothing(l: Ledger, e: Engine, timeline: seq<Event>)
    requires Lawful(e) && Replayed(l, e, timeline, |timeline|).Some?
    ensures var done := Closed(Replayed(l, e, timeline, |timeline|).value);
            Replayed(done, e, timeline, |timeline|) == Some(done) && Closed(done) == done
  {
    ReplayRemembers(l, e, timeline, |timeline|);
    HeldStepsAreSkipped(Closed(Replayed(l, e, timeline, |timeline|).value), e, timeline, |timeline|);
  }

  // ---------------------------------------------------------------- the independent timing check

  method CheckTiming(l: Ledger) returns (timing: bool)
    requires forall i :: 0 <= i < |l.fills| ==> l.fills[i].order in l.orders
    ensures timing <==> l.fills != [] && forall i :: 0 <= i < |l.fills| ==>
              l.orders[l.fills[i].order].intent.decisionAt < l.fills[i].executedAt
  {
    timing := l.fills != [];
    for i := 0 to |l.fills|
      invariant timing <==> l.fills != [] && forall k :: 0 <= k < i ==>
                  l.orders[l.fills[k].order].intent.decisionAt < l.fills[k].executedAt
    {
      timing := timing && l.fills[i].executedAt > l.orders[l.fills[i].order].intent.decisionAt;
    }
  }

  /** After the cutoff nothing is open and the timing check passes for any run that traded. */
  lemma FinishedRunsPassTheTimingCheck(l: Ledger, e: Engine, timeline: seq<Event>, since: Time)
    requires Lawful(e) && Chronological(timeline) && (timeline != [] ==> since < timeline[0].at)
    requires l.steps == [] && Causal(l, since) && Replayed(l, e, timeline, |timeline|).Some?
    ensures var done := Closed(Replayed(l, e, timeline, |timeline|).value);
            && (forall id :: id in done.orders ==> !done.orders[id].open)
            && forall i :: 0 <= i < |done.fills| ==>
                 done.fills[i].order in done.orders
                   && done.orders[done.fills[i].order].intent.decisionAt < done.fills[i].executedAt
  {
    EveryRunIsCausal(l, e, timeline, |timeline|, since);
  }
}
