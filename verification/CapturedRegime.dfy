/**
 The captured path: rows become known after their own session, so an event is
 stored per decision clock. Repeated operating cycles must not create emissions
 or advance durations when no new row is present.
*/
module CapturedRegime {
  import opened Basics
  import opened ForwardFilter
  import opened RegimeDetector

  /** What a stored event hands to the next decision. */
  datatype Carry = Carry(state: State, reason: Reason)

  function CarryOf(e: Event): Carry {
    Carry(e.state, e.reason)
  }

  function ObservedAt(e: Event): Time
    requires e.prefix != []
  {
    e.prefix[|e.prefix| - 1].at
  }

  /** Filter and accept the rows from position k on. */
  function Fold(d: Fitted, c: Carry, raw: History, k: nat): (r: Carry)
    requires d.Valid() && Usable(d, c.state) && NoGapAfter(d, raw, k)
    ensures Usable(d, r.state)
    decreases |raw|
  {
    if |raw| <= k then c
    else
      RowsObservable(d, raw, k);
      var init := raw[..|raw| - 1];
      var before, e := Fold(d, c, init, k), d.emission(raw).value;
      Carry(Advance(d, before.state, e),
            Why(d, Step(d.model, before.state.alpha, e), before.state.effective, before.state.held))
  }

  lemma FoldOne(d: Fitted, c: Carry, raw: History, k: nat)
    requires d.Valid() && Usable(d, c.state) && NoGapAfter(d, raw, k) && k < |raw|
    ensures d.emission(raw).Some? && NoGapAfter(d, raw[..|raw| - 1], k)
    ensures var before, e := Fold(d, c, raw[..|raw| - 1], k), d.emission(raw).value;
            Fold(d, c, raw, k) == Carry(Advance(d, before.state, e),
                                        Why(d, Step(d.model, before.state.alpha, e), before.state.effective,
                                            before.state.held))
  {
    RowsObservable(d, raw, k);
  }

  lemma FoldNothing(d: Fitted, c: Carry, raw: History)
    requires d.Valid() && Usable(d, c.state)
    ensures NoGapAfter(d, raw, |raw|) && Fold(d, c, raw, |raw|) == c
  {
  }

  lemma FoldUsable(d: Fitted, c: Carry, raw: History, k: nat)
    requires d.Valid() && Usable(d, c.state) && NoGapAfter(d, raw, k)
    ensures Usable(d, Fold(d, c, raw, k).state)
  {
  }

  lemma RowsObservable(d: Fitted, raw: History, k: nat)
    requires k < |raw| && NoGapAfter(d, raw, k)
    ensures d.emission(raw).Some? && NoGapAfter(d, raw[..|raw| - 1], k)
  {
    var init := raw[..|raw| - 1];
    assert Observable(d, raw, |raw| - 1) && raw[..|raw| - 1 + 1] == raw;
    forall i | k <= i < |init| ensures Observable(d, init, i) {
      assert Observable(d, raw, i) && init[..i + 1] == raw[..i + 1];
    }
  }

  lemma {:induction false} GapFreePrefix(d: Fitted, raw: History, k: nat, n: nat)
    requires n <= |raw| && NoGapAfter(d, raw, k)
    ensures NoGapAfter(d, raw[..n], k)
  {
    forall i | k <= i < n ensures Observable(d, raw[..n], i) {
      assert Observable(d, raw, i) && raw[..n][..i + 1] == raw[..i + 1];
    }
  }

  /** Folding in two parts is folding once. */
  lemma {:induction false} FoldSplits(d: Fitted, c: Carry, raw: History, k: nat, n: nat)
    requires d.Valid() && Usable(d, c.state) && NoGapAfter(d, raw, k) && k <= n <= |raw|
    ensures NoGapAfter(d, raw[..n], k)
    ensures Fold(d, Fold(d, c, raw[..n], k), raw, n) == Fold(d, c, raw, k)
    decreases |raw|
  {
    GapFreePrefix(d, raw, k, n);
    if n < |raw| {
      RowsObservable(d, raw, k);
      var init := raw[..|raw| - 1];
      FoldSplits(d, c, init, k, n);
      assert init[..n] == raw[..n];
    } else {
      assert raw[..n] == raw;
    }
  }

  /** The vector handed on is the filter over every emission since training began. */
  lemma {:induction false} FoldIsFilter(d: Fitted, c: Carry, raw: History, k: nat)
    requires d.Valid() && Usable(d, c.state) && NoGapAfter(d, raw, k) && k <= |raw|
    requires c.state.alpha == Trained(d, raw[..k])
    ensures Fold(d, c, raw, k).state.alpha == Trained(d, raw)
    decreases |raw|
  {
    if k == |raw| {
      assert raw[..k] == raw;
    } else {
      RowsObservable(d, raw, k);
      var init := raw[..|raw| - 1];
      assert init[..k] == raw[..k];
      FoldIsFilter(d, c, init, k);
      EmittedFeasible(d, raw);
      assert Emitted(d, raw)[..|Emitted(d, raw)| - 1] == Emitted(d, init);
    }
  }

  // ---------------------------------------------------------------- one decision

  predicate AllAgree(events: seq<Event>, raw: History) {
    forall i :: 0 <= i < |events| ==> events[i].prefix != [] && UpTo(raw, ObservedAt(events[i])) == events[i].prefix
  }

  function After(d: Fitted, events: seq<Event>): Time
    requires d.training != []
  {
    if events == [] || events[|events| - 1].prefix == [] then d.TrainedThrough() else ObservedAt(events[|events| - 1])
  }

  function JudgeCaptured(d: Fitted, events: seq<Event>, raw: History, asOf: Time, maxAge: int): Verdict
    requires d.training != []
  {
    if raw == [] || !Chronological(raw) || raw[|raw| - 1].at > asOf then InvalidHistory
    else if asOf <= d.fittedAt then NotAfterFit
    else if maxAge <= 0 || asOf - raw[|raw| - 1].at > maxAge then Stale
    else if UpTo(raw, d.TrainedThrough()) != d.training then TrainingChanged
    else if d.emission(raw).None? then Incomplete
    else if events != [] && events[|events| - 1].at > asOf then MovedBackwards
    else if !AllAgree(events, raw) then HistoryChanged
    else if !NoGapAfter(d, raw, |UpTo(raw, After(d, events))|) then CoverageGap
    else if events != [] && events[|events| - 1].at == asOf && raw != events[|events| - 1].prefix then CutoffChanged
    else Stored
  }

  /** The first decision: with no new row, the training posterior itself is accepted. */
  function First(d: Fitted, initial: Vec, raw: History, k: nat): (r: Carry)
    requires d.Valid() && Posterior(d.model, initial) && NoGapAfter(d, raw, k)
    ensures Usable(d, r.state)
  {
    if |raw| <= k then
      var why := Why(d, initial, None, 0);
      Carry(Accept(d, initial, None, 0), if why.Accepted? then TrainingPosterior else why)
    else Fold(d, Carry(State(Some(initial), None, 0), Accepted), raw, k)
  }

  /** The posterior of the training rows. */
  function Initial(d: Fitted): (v: Vec)
    requires d.Valid()
    ensures Trained(d, d.training) == Some(v) && Posterior(d.model, v)
  {
    EmittedFeasible(d, d.training);
    Trained(d, d.training).value
  }

  /**
   The state before any row after training. A first decision that brings such a row starts
   from the bare posterior; one that does not accepts the posterior first.
  */
  function Opening(d: Fitted, onTraining: bool): (c: Carry)
    requires d.Valid()
    ensures Usable(d, c.state)
  {
    if onTraining then First(d, Initial(d), d.training, |d.training|)
    else Carry(State(Some(Initial(d)), None, 0), Accepted)
  }

  ghost predicate OpenedOnTraining(d: Fitted, events: seq<Event>)
    requires events != []
  {
    |events[0].prefix| == |d.training|
  }

  /** The state of an event folds all rows after training into the opening state. */
  ghost predicate Reached(d: Fitted, onTraining: bool, e: Event)
    requires d.Valid()
  {
    && d.training <= e.prefix && Chronological(e.prefix) && NoGapAfter(d, e.prefix, |d.training|)
    && CarryOf(e) == Fold(d, Opening(d, onTraining), e.prefix, |d.training|)
  }

  ghost predicate Chain(d: Fitted, events: seq<Event>)
    requires d.Valid()
  {
    events != [] ==> forall i :: 0 <= i < |events| ==> Reached(d, OpenedOnTraining(d, events), events[i])
  }

  lemma ReachedUsable(d: Fitted, onTraining: bool, e: Event)
    requires d.Valid() && Reached(d, onTraining, e)
    ensures Usable(d, e.state) && e.prefix != []
  {
    FoldUsable(d, Opening(d, onTraining), e.prefix, |d.training|);
  }

  /** A new decision over a history that agrees with the last one goes on from it. */
  lemma NextReached(d: Fitted, onTraining: bool, last: Event, raw: History, asOf: Time)
    requires d.Valid() && Reached(d, onTraining, last) && Usable(d, last.state) && last.prefix != []
    requires Chronological(raw) && UpTo(raw, ObservedAt(last)) == last.prefix && NoGapAfter(d, raw, |last.prefix|)
    ensures var c := Fold(d, CarryOf(last), raw, |last.prefix|);
            Reached(d, onTraining, Event(asOf, raw, c.state, c.reason))
  {
    hide Usable, Fold, Observable, Opening;
    var k, n := |d.training|, |last.prefix|;
    assert raw[..n] == last.prefix;
    GapsJoin(d, raw, k, n);
    hide NoGapAfter, UpTo;
    FoldSplits(d, Opening(d, onTraining), raw, k, n);
  }

  lemma GapsJoin(d: Fitted, raw: History, k: nat, n: nat)
    requires n <= |raw| && NoGapAfter(d, raw[..n], k) && NoGapAfter(d, raw, n)
    ensures NoGapAfter(d, raw, k)
  {
    forall i | k <= i < |raw| ensures Observable(d, raw, i) {
      if i < n {
        assert Observable(d, raw[..n], i) && raw[..n][..i + 1] == raw[..i + 1];
      }
    }
  }

  lemma ChainLast(d: Fitted, events: seq<Event>)
    requires d.Valid() && Chain(d, events) && events != []
    ensures var last := events[|events| - 1];
            last.prefix != [] && Usable(d, last.state) && Reached(d, OpenedOnTraining(d, events), last)
  {
    hide Reached;
    ReachedUsable(d, OpenedOnTraining(d, events), events[|events| - 1]);
  }

  lemma ChainExtends(d: Fitted, events: seq<Event>, e: Event)
    requires d.Valid() && Chain(d, events) && events != [] && Reached(d, OpenedOnTraining(d, events), e)
    ensures Chain(d, events + [e])
  {
    hide Reached;
    assert (events + [e])[0] == events[0];
  }

  lemma LastAgrees(events: seq<Event>, raw: History)
    requires AllAgree(events, raw)
    ensures events != [] ==>
              var last := events[|events| - 1];
              last.prefix != [] && UpTo(raw, ObservedAt(last)) == last.prefix
  {
  }

  lemma TrainingIsPrefix(d: Fitted, raw: History)
    requires d.training != [] && UpTo(raw, d.TrainedThrough()) == d.training
    ensures d.training <= raw && (|raw| <= |d.training| ==> raw == d.training)
  {
  }

  /** A first decision folds its rows into its opening state. */
  lemma FirstIsFold(d: Fitted, raw: History)
    requires d.Valid() && d.training <= raw && NoGapAfter(d, raw, |d.training|)
    ensures First(d, Initial(d), raw, |d.training|) == Fold(d, Opening(d, |raw| == |d.training|), raw, |d.training|)
  {
    hide Usable, Posterior, NoGapAfter, Accept, Why;
    if |raw| == |d.training| {
      assert raw == d.training;
      FoldNothing(d, Opening(d, true), raw);
    }
  }

  /** The event of a first decision starts a chain. */
  lemma FirstStartsChain(d: Fitted, raw: History, at: Time)
    requires d.Valid() && Chronological(raw) && UpTo(raw, d.TrainedThrough()) == d.training
    requires NoGapAfter(d, raw, |d.training|)
    ensures var c := First(d, Initial(d), raw, |d.training|); Chain(d, [Event(at, raw, c.state, c.reason)])
  {
    TrainingIsPrefix(d, raw);
    FirstIsFold(d, raw);
    hide UpTo, First, NoGapAfter, Fold, Opening, Initial;
  }

  // ---------------------------------------------------------------- decisions

  datatype Decision = Decision(raw: History, asOf: Time, maxAge: int)

  lemma StoredMayFold(d: Fitted, events: seq<Event>, c: Decision)
    requires d.Valid() && Chain(d, events) && JudgeCaptured(d, events, c.raw, c.asOf, c.maxAge) == Stored
    ensures events == [] ==> NoGapAfter(d, c.raw, |d.training|)
    ensures events != [] ==>
            Usable(d, events[|events| - 1].state) && NoGapAfter(d, c.raw, |events[|events| - 1].prefix|)
    ensures events != [] && events[|events| - 1].at == c.asOf ==> events[|events| - 1].prefix == c.raw
  {
    hide UpTo, Chain, Reached, NoGapAfter, Usable, AllAgree;
    LastAgrees(events, c.raw);
    if events != [] {
      ChainLast(d, events);
    }
  }

  /** The state of a stored decision: the first starts from training, a later one folds the new rows into the last. */
  ghost function Decided(d: Fitted, events: seq<Event>, c: Decision): Carry
    requires d.Valid() && Chain(d, events) && JudgeCaptured(d, events, c.raw, c.asOf, c.maxAge) == Stored
  {
    StoredMayFold(d, events, c);
    hide JudgeCaptured, Chain, NoGapAfter, Usable;
    if events == [] then First(d, Initial(d), c.raw, |d.training|)
    else Fold(d, CarryOf(events[|events| - 1]), c.raw, |events[|events| - 1].prefix|)
  }

  ghost function EventOf(d: Fitted, events: seq<Event>, c: Decision): Event
    requires d.Valid() && Chain(d, events) && JudgeCaptured(d, events, c.raw, c.asOf, c.maxAge) == Stored
  {
    var r := Decided(d, events, c);
    Event(c.asOf, c.raw, r.state, r.reason)
  }

  /** What a decision stores. */
  ghost function AfterDecision(d: Fitted, events: seq<Event>, c: Decision): seq<Event>
    requires d.Valid() && Chain(d, events)
  {
    if JudgeCaptured(d, events, c.raw, c.asOf, c.maxAge) != Stored
       || (events != [] && events[|events| - 1].at == c.asOf)
    then events
    else events + [EventOf(d, events, c)]
  }

  lemma DecisionKeepsChain(d: Fitted, events: seq<Event>, c: Decision)
    requires d.Valid() && Chain(d, events)
    ensures Chain(d, AfterDecision(d, events, c))
  {
    hide UpTo, Fold, First, Trained, Chain, Reached, NoGapAfter, Posterior, Usable, AllAgree;
    if AfterDecision(d, events, c) != events {
      LastAgrees(events, c.raw);
      if events == [] {
        FirstStartsChain(d, c.raw, c.asOf);
        assert [] + [EventOf(d, events, c)] == [EventOf(d, events, c)];
      } else {
        ChainLast(d, events);
        NextReached(d, OpenedOnTraining(d, events), events[|events| - 1], c.raw, c.asOf);
        ChainExtends(d, events, EventOf(d, events, c));
      }
    }
  }

  class CapturedRegimeDetector {
    const d: Fitted
    const initialAlpha: Vec
    var events: seq<Event>

    ghost predicate Valid()
      reads this
    {
      d.Valid() && initialAlpha == Initial(d) && Chain(d, events)
    }

    constructor (d: Fitted)
      requires d.Valid()
      ensures Valid() && this.d == d && events == []
    {
      this.d := d;
      EmittedFeasible(d, d.training);
      var normalized := Emitted(d, d.training);
      var posteriors := Forward(d.model, normalized, None);
      assert normalized[..|normalized| - 1 + 1] == normalized;
      this.initialAlpha := posteriors[|posteriors| - 1];
      this.events := [];
    }

    /** Filter and accept the pending rows in order. */
    method Run(start: Carry, raw: History, k: nat) returns (c: Carry)
      requires d.Valid() && Usable(d, start.state) && NoGapAfter(d, raw, k) && k <= |raw|
      ensures c == Fold(d, start, raw, k)
    {
      hide Accept, Why, Step, Fold, NoGapAfter, Usable, Advance;
      c := start;
      GapFreePrefix(d, raw, k, k);
      FoldNothing(d, start, raw[..k]);
      for n := k to |raw|
        invariant NoGapAfter(d, raw[..n], k)
        invariant c == Fold(d, start, raw[..n], k)
      {
        GapFreePrefix(d, raw, k, n + 1);
        FoldOne(d, start, raw[..n + 1], k);
        assert raw[..n + 1][..n] == raw[..n];
        FoldUsable(d, start, raw[..n], k);
        var e := d.emission(raw[..n + 1]).value;
        c := Carry(Advance(d, c.state, e), Why(d, Step(d.model, c.state.alpha, e), c.state.effective, c.state.held));
      }
      assert raw[..|raw|] == raw;
    }

    method PrefixesAgree(raw: History) returns (agree: bool)
      ensures agree <==> AllAgree(events, raw)
    {
      hide UpTo;
      for i := 0 to |events|
        invariant AllAgree(events[..i], raw)
      {
        assert events[..i + 1][..i] == events[..i];
        if events[i].prefix == [] || UpTo(raw, ObservedAt(events[i])) != events[i].prefix {
          return false;
        }
      }
      assert events[..|events|] == events;
      return true;
    }

    /** The checks of a decision, in their order. */
    method Check(raw: History, asOf: Time, maxAge: int) returns (verdict: Verdict)
      requires d.Valid()
      ensures verdict == JudgeCaptured(d, events, raw, asOf, maxAge)
    {
      hide UpTo, NoGapAfter, AllAgree;
      if raw == [] || !Chronological(raw) || raw[|raw| - 1].at > asOf {
        return InvalidHistory;
      }
      if asOf <= d.fittedAt {
        return NotAfterFit;
      }
      if maxAge <= 0 || asOf - raw[|raw| - 1].at > maxAge {
        return Stale;
      }
      if UpTo(raw, d.TrainedThrough()) != d.training {
        return TrainingChanged;
      }
      if d.emission(raw).None? {
        return Incomplete;
      }
      if events != [] && events[|events| - 1].at > asOf {
        return MovedBackwards;
      }
      var agree := PrefixesAgree(raw);
      if !agree {
        return HistoryChanged;
      }
      if !NoGapAfter(d, raw, |UpTo(raw, After(d, events))|) {
        return CoverageGap;
      }
      if events != [] && events[|events| - 1].at == asOf && raw != events[|events| - 1].prefix {
        return CutoffChanged;
      }
      return Stored;
    }

    /**
     One captured decision. A retry at the same clock changes nothing; otherwise
     one event is appended that continues the last one over the new rows only.
    */
    method Predict(raw: History, asOf: Time, maxAge: int) returns (verdict: Verdict)
      requires Valid()
      modifies this`events
      ensures Valid()
      ensures verdict == JudgeCaptured(d, old(events), raw, asOf, maxAge)
      ensures events == AfterDecision(d, old(events), Decision(raw, asOf, maxAge))
    {
      hide UpTo, Fold, First, Trained, Chain, Reached, NoGapAfter, Posterior, Usable, AllAgree, Opening, Chronological;
      DecisionKeepsChain(d, events, Decision(raw, asOf, maxAge));
      verdict := Check(raw, asOf, maxAge);
      if verdict != Stored || (events != [] && events[|events| - 1].at == asOf) {
        return;
      }
      LastAgrees(events, raw);
      var k := |UpTo(raw, After(d, events))|;
      if events == [] {
        var c := Begin(raw, k);
        events := events + [Event(asOf, raw, c.state, c.reason)];
      } else {
        var last := events[|events| - 1];
        ChainLast(d, events);
        var c := Run(CarryOf(last), raw, k);
        events := events + [Event(asOf, raw, c.state, c.reason)];
      }
    }

    method Begin(raw: History, k: nat) returns (c: Carry)
      requires Valid() && Chronological(raw) && raw != [] && UpTo(raw, d.TrainedThrough()) == d.training
      requires k == |d.training| && NoGapAfter(d, raw, k)
      ensures c == First(d, initialAlpha, raw, k)
    {
      hide Chain, Trained, NoGapAfter, UpTo, Fold;
      if |raw| <= k {
        var why := Why(d, initialAlpha, None, 0);
        c := Carry(Accept(d, initialAlpha, None, 0), if why.Accepted? then TrainingPosterior else why);
      } else {
        c := Run(Carry(State(Some(initialAlpha), None, 0), Accepted), raw, k);
      }
    }
  }

  // ---------------------------------------------------------------- series of decisions

  ghost function AfterDecisions(d: Fitted, cs: seq<Decision>): (events: seq<Event>)
    requires d.Valid()
    ensures Chain(d, events)
  {
    if cs == [] then []
    else
      var events := AfterDecisions(d, cs[..|cs| - 1]);
      DecisionKeepsChain(d, events, cs[|cs| - 1]);
      AfterDecision(d, events, cs[|cs| - 1])
  }

  // ---------------------------------------------------------------- when a decision stores

  /** Clocks of stored events increase and their rows accumulate. */
  ghost predicate Accumulates(events: seq<Event>) {
    forall i, j :: 0 <= i < j < |events| ==> events[i].at < events[j].at && events[i].prefix <= events[j].prefix
  }

  /**
   A decision is stored, or a retry of the last one, exactly when its rows are ordered and known, fresh
   at a clock after the fit that has not moved back, begin with the training rows and then with the
   last observed rows, and can all be observed; at the clock of the last event they must be its rows.
  */
  ghost predicate Admissible(d: Fitted, events: seq<Event>, c: Decision) {
    && c.raw != [] && Rising(c.raw) && c.raw[|c.raw| - 1].at <= c.asOf <= c.raw[|c.raw| - 1].at + c.maxAge
    && d.fittedAt < c.asOf && c.maxAge > 0
    && d.training <= c.raw && d.emission(c.raw).Some? && NoGapAfter(d, c.raw, |d.training|)
    && (events != [] ==>
          var last := events[|events| - 1];
          last.at <= c.asOf && last.prefix <= c.raw && (last.at == c.asOf ==> last.prefix == c.raw))
  }

  lemma FirstResumes(d: Fitted, raw: History)
    requires d.training != []
    ensures After(d, []) == d.TrainedThrough()
  {
  }

  lemma StoredCapturedExactly(d: Fitted, events: seq<Event>, c: Decision)
    requires d.Valid() && Chain(d, events) && Accumulates(events)
    ensures JudgeCaptured(d, events, c.raw, c.asOf, c.maxAge) == Stored <==> Admissible(d, events, c)
  {
    hide UpTo, Chain, Accumulates, AllAgree, NoGapAfter, Rising, Chronological, After;
    RisingIsChronological(c.raw);
    FirstResumes(d, c.raw);
    if c.raw != [] && Chronological(c.raw) {
      assert Chronological(d.training) && d.training != [];
      UpToIsPrefix(c.raw, d.training, d.TrainedThrough());
      AgreementIsExtension(d, events, c.raw);
      if events != [] && events[|events| - 1].prefix <= c.raw {
        GapsExactly(d, events, c.raw);
      }
    }
  }

  /** Why a decision is refused: the first of these that holds. */
  lemma CapturedRefusalsAreExact(d: Fitted, events: seq<Event>, c: Decision)
    requires d.Valid() && Chain(d, events) && Accumulates(events)
    requires JudgeCaptured(d, events, c.raw, c.asOf, c.maxAge) != Stored
    ensures var verdict := JudgeCaptured(d, events, c.raw, c.asOf, c.maxAge);
            if c.raw == [] || !Chronological(c.raw) || c.raw[|c.raw| - 1].at > c.asOf then verdict == InvalidHistory
            else if c.asOf <= d.fittedAt then verdict == NotAfterFit
            else if c.maxAge <= 0 || c.raw[|c.raw| - 1].at + c.maxAge < c.asOf then verdict == Stale
            else if !(d.training <= c.raw) then verdict == TrainingChanged
            else if d.emission(c.raw) == None then verdict == Incomplete
            else if events != [] && c.asOf < events[|events| - 1].at then verdict == MovedBackwards
            else if events != [] && !(events[|events| - 1].prefix <= c.raw) then verdict == HistoryChanged
            else if !NoGapAfter(d, c.raw, |d.training|) then verdict == CoverageGap
            else verdict == CutoffChanged && events != [] && events[|events| - 1].at == c.asOf
  {
    hide UpTo, Chain, Accumulates, AllAgree, NoGapAfter, Rising, Chronological, After;
    RisingIsChronological(c.raw);
    FirstResumes(d, c.raw);
    if c.raw != [] && Chronological(c.raw) {
      assert Chronological(d.training) && d.training != [];
      UpToIsPrefix(c.raw, d.training, d.TrainedThrough());
      AgreementIsExtension(d, events, c.raw);
      if events != [] && events[|events| - 1].prefix <= c.raw {
        GapsExactly(d, events, c.raw);
      }
    }
  }

  /** Agreement with every stored event comes down to the last of them. */
  lemma AgreementIsExtension(d: Fitted, events: seq<Event>, raw: History)
    requires d.Valid() && Chain(d, events) && Accumulates(events) && Chronological(raw)
    ensures AllAgree(events, raw) <==> (events != [] ==> events[|events| - 1].prefix <= raw)
  {
    hide UpTo, Observable, Reached, Fold;
    forall i | 0 <= i < |events|
      ensures events[i].prefix != []
      ensures UpTo(raw, ObservedAt(events[i])) == events[i].prefix <==> events[i].prefix <= raw
    {
      ReachedUsable(d, OpenedOnTraining(d, events), events[i]);
      UpToIsPrefix(raw, events[i].prefix, ObservedAt(events[i]));
    }
    if events != [] && events[|events| - 1].prefix <= raw {
      forall i | 0 <= i < |events| ensures events[i].prefix <= raw {
        assert i < |events| - 1 ==> events[i].prefix <= events[|events| - 1].prefix;
      }
    }
  }

  lemma GapsExactly(d: Fitted, events: seq<Event>, raw: History)
    requires d.Valid() && Chain(d, events) && events != [] && Chronological(raw)
    requires events[|events| - 1].prefix <= raw
    ensures NoGapAfter(d, raw, |UpTo(raw, After(d, events))|) <==> NoGapAfter(d, raw, |d.training|)
  {
    hide UpTo, Observable, Fold, Opening;
    var last := events[|events| - 1];
    assert Reached(d, OpenedOnTraining(d, events), last);
    ReachedUsable(d, OpenedOnTraining(d, events), last);
    UpToIsPrefix(raw, last.prefix, ObservedAt(last));
    assert raw[..|last.prefix|] == last.prefix;
    if NoGapAfter(d, raw, |last.prefix|) {
      GapsJoin(d, raw, |d.training|, |last.prefix|);
    }
  }

  lemma DecisionAccumulates(d: Fitted, events: seq<Event>, c: Decision)
    requires d.Valid() && Chain(d, events) && Accumulates(events)
    ensures Accumulates(AfterDecision(d, events, c))
  {
    StoredCapturedExactly(d, events, c);
    hide JudgeCaptured, Chain, NoGapAfter, Chronological;
    if AfterDecision(d, events, c) != events && events != [] {
      var last, e := events[|events| - 1], EventOf(d, events, c);
      assert last.at < e.at && last.prefix <= e.prefix;
      AccumulatesOneMore(events, e);
    }
  }

  lemma AccumulatesOneMore(events: seq<Event>, e: Event)
    requires Accumulates(events) && events != []
    requires events[|events| - 1].at < e.at && events[|events| - 1].prefix <= e.prefix
    ensures Accumulates(events + [e])
  {
    var last := events[|events| - 1];
    forall i | 0 <= i < |events| ensures events[i].at < e.at && events[i].prefix <= e.prefix {
      assert i < |events| - 1 ==> events[i].prefix <= last.prefix;
    }
  }

  /** After any series of decisions: clocks and rows only grow, and exactly the admissible decisions are stored. */
  lemma {:induction false} DecisionsStoreExactly(d: Fitted, cs: seq<Decision>, c: Decision)
    requires d.Valid()
    ensures var events := AfterDecisions(d, cs);
            && Accumulates(events)
            && (JudgeCaptured(d, events, c.raw, c.asOf, c.maxAge) == Stored <==> Admissible(d, events, c))
  {
    hide JudgeCaptured, AfterDecision, Admissible, Chain;
    if cs != [] {
      DecisionsStoreExactly(d, cs[..|cs| - 1], c);
      DecisionAccumulates(d, AfterDecisions(d, cs[..|cs| - 1]), cs[|cs| - 1]);
    }
    StoredCapturedExactly(d, AfterDecisions(d, cs), c);
  }

  /** The decision state after a series: what its last event hands on. */
  ghost function StateAfter(d: Fitted, cs: seq<Decision>): (Carry, History)
    requires d.Valid() && AfterDecisions(d, cs) != []
  {
    var events := AfterDecisions(d, cs);
    (CarryOf(events[|events| - 1]), events[|events| - 1].prefix)
  }

  lemma IdleDecision(d: Fitted, events: seq<Event>, c: Decision)
    requires d.Valid() && Chain(d, events) && events != [] && c.raw == events[|events| - 1].prefix
    ensures var after := AfterDecision(d, events, c);
            && after != [] && CarryOf(after[|after| - 1]) == CarryOf(events[|events| - 1])
            && after[|after| - 1].prefix == c.raw
  {
    hide Chain, JudgeCaptured, Decided;
    if AfterDecision(d, events, c) != events {
      IdleFold(d, events, c);
    }
  }

  lemma IdleFold(d: Fitted, events: seq<Event>, c: Decision)
    requires d.Valid() && Chain(d, events) && events != [] && c.raw == events[|events| - 1].prefix
    requires JudgeCaptured(d, events, c.raw, c.asOf, c.maxAge) == Stored
    ensures Decided(d, events, c) == CarryOf(events[|events| - 1])
  {
    StoredMayFold(d, events, c);
    FoldNothing(d, CarryOf(events[|events| - 1]), c.raw);
    hide Chain, JudgeCaptured, Fold, Usable, NoGapAfter;
  }

  /** Any number of cycles without a new row hand on the same vector, regime, count and reason. */
  lemma {:induction false} IdleCyclesChangeNothing(d: Fitted, cs: seq<Decision>, idle: seq<Decision>)
    requires d.Valid() && AfterDecisions(d, cs) != []
    requires forall i :: 0 <= i < |idle| ==> idle[i].raw == StateAfter(d, cs).1
    ensures AfterDecisions(d, cs + idle) != [] && StateAfter(d, cs + idle) == StateAfter(d, cs)
  {
    hide AfterDecision, Chain;
    if idle == [] {
      assert cs + idle == cs;
    } else {
      var init := idle[..|idle| - 1];
      IdleCyclesChangeNothing(d, cs, init);
      assert (cs + idle)[..|cs + idle| - 1] == cs + init;
      IdleDecision(d, AfterDecisions(d, cs + init), idle[|idle| - 1]);
    }
  }

  /**
   The cycles in between do not matter: the state after any series that stored an event
   folds the last observed rows into one of two opening states.
  */
  lemma StateDependsOnRows(d: Fitted, cs: seq<Decision>)
    requires d.Valid() && AfterDecisions(d, cs) != []
    ensures var (c, rows) := StateAfter(d, cs);
            && d.training <= rows && NoGapAfter(d, rows, |d.training|)
            && c == Fold(d, Opening(d, OpenedOnTraining(d, AfterDecisions(d, cs))), rows, |d.training|)
  {
    hide AfterDecisions, Fold, Opening, Chain, NoGapAfter;
    ChainLast(d, AfterDecisions(d, cs));
  }

  /** So any two series that last observed the same rows, and opened alike, end in the same state. */
  lemma CyclesDoNotMatter(d: Fitted, x: seq<Decision>, y: seq<Decision>)
    requires d.Valid() && AfterDecisions(d, x) != [] && AfterDecisions(d, y) != []
    requires OpenedOnTraining(d, AfterDecisions(d, x)) == OpenedOnTraining(d, AfterDecisions(d, y))
    ensures StateAfter(d, x).1 == StateAfter(d, y).1 ==> StateAfter(d, x) == StateAfter(d, y)
  {
    StateDependsOnRows(d, x);
    StateDependsOnRows(d, y);
    hide AfterDecisions, Fold, Opening, Chain, NoGapAfter;
  }

  /** The rows a stored decision was given are the rows its state observed. */
  lemma StoredDecisionObserves(d: Fitted, cs: seq<Decision>, c: Decision)
    requires d.Valid() && JudgeCaptured(d, AfterDecisions(d, cs), c.raw, c.asOf, c.maxAge) == Stored
    ensures AfterDecisions(d, cs + [c]) != [] && StateAfter(d, cs + [c]).1 == c.raw
    ensures AfterDecisions(d, cs + [c])[|AfterDecisions(d, cs + [c])| - 1].at == c.asOf
  {
    hide JudgeCaptured, Chain, AfterDecision;
    assert (cs + [c])[..|cs|] == cs;
    StoredObserves(d, AfterDecisions(d, cs), c);
  }

  lemma StoredObserves(d: Fitted, events: seq<Event>, c: Decision)
    requires d.Valid() && Chain(d, events) && JudgeCaptured(d, events, c.raw, c.asOf, c.maxAge) == Stored
    ensures var after := AfterDecision(d, events, c);
            after != [] && after[|after| - 1].prefix == c.raw && after[|after| - 1].at == c.asOf
  {
    hide JudgeCaptured, Chain, NoGapAfter, Usable, Decided;
    StoredMayFold(d, events, c);
    if AfterDecision(d, events, c) != events {
      assert AfterDecision(d, events, c) == events + [EventOf(d, events, c)];
    }
  }

  lemma {:induction false} EmittedGrows(d: Fitted, h: History, k: nat)
    requires k <= |h| && Emitted(d, h[..k]) != []
    ensures Emitted(d, h) != []
    decreases |h|
  {
    if k < |h| {
      assert h[..|h| - 1][..k] == h[..k];
      EmittedGrows(d, h[..|h| - 1], k);
    } else {
      assert h[..k] == h;
    }
  }

  /** Every captured vector is the exact posterior of all emissions up to its last row. */
  lemma CapturedPosteriorIsExact(d: Fitted, events: seq<Event>, i: nat)
    requires d.Valid() && Chain(d, events) && i < |events|
    ensures Emissions(d.model, Emitted(d, events[i].prefix))
    ensures events[i].state.alpha == Trained(d, events[i].prefix)
    ensures var u := BruteForce(d.model, Emitted(d, events[i].prefix));
            events[i].state.alpha.Some? && Sum(u) > 0.0 && u == Scale(Sum(u), events[i].state.alpha.value)
  {
    hide Trained, Chain, BruteForce, Sum, Scale, Emitted;
    CapturedIsTrained(d, events, i);
    TrainedIsExact(d, events[i].prefix);
  }

  /** Every captured vector is the filter over the emissions of its rows, of which training gives at least one. */
  lemma CapturedIsTrained(d: Fitted, events: seq<Event>, i: nat)
    requires d.Valid() && Chain(d, events) && i < |events|
    ensures events[i].state.alpha == Trained(d, events[i].prefix) && Emitted(d, events[i].prefix) != []
  {
    hide Fold, Opening, NoGapAfter, Trained;
    var e, t := events[i], OpenedOnTraining(d, events);
    assert Reached(d, t, e);
    assert e.prefix[..|d.training|] == d.training;
    OpeningIsTrained(d, t);
    FoldIsFilter(d, Opening(d, t), e.prefix, |d.training|);
    EmittedGrows(d, e.prefix, |d.training|);
  }

  lemma TrainedIsExact(d: Fitted, h: History)
    requires d.Valid() && Emitted(d, h) != []
    ensures Emissions(d.model, Emitted(d, h)) && Trained(d, h).Some?
    ensures var u := BruteForce(d.model, Emitted(d, h)); Sum(u) > 0.0 && u == Scale(Sum(u), Trained(d, h).value)
  {
    hide BruteForce, Sum, Scale, Emitted, Filter;
    EmittedFeasible(d, h);
    FilterIsExact(d.model, Emitted(d, h));
  }

  lemma OpeningIsTrained(d: Fitted, onTraining: bool)
    requires d.Valid()
    ensures Opening(d, onTraining).state.alpha == Trained(d, d.training)
  {
    hide Trained, Fold, Why;
  }

  // ---------------------------------------------------------------- what is published, row by row

  /** What is handed on over the rows after training, the opening state first. */
  ghost function RowCarries(d: Fitted, onTraining: bool, raw: History): (cs: seq<Carry>)
    requires d.Valid() && |d.training| <= |raw| && NoGapAfter(d, raw, |d.training|)
    ensures cs != [] && cs[|cs| - 1] == Fold(d, Opening(d, onTraining), raw, |d.training|)
    decreases |raw|
  {
    if |raw| == |d.training| then [Opening(d, onTraining)]
    else
      RowsObservable(d, raw, |d.training|);
      RowCarries(d, onTraining, raw[..|raw| - 1]) + [Fold(d, Opening(d, onTraining), raw, |d.training|)]
  }

  ghost function CarriedStates(cs: seq<Carry>): seq<State> {
    seq(|cs|, i requires 0 <= i < |cs| => cs[i].state)
  }

  /** The opening: the bare training posterior, or what accepting it publishes, under a reason of its own. */
  ghost predicate Opens(d: Fitted, onTraining: bool, c: Carry) {
    if onTraining then
      && c.reason != Accepted
      && Publishes(d, FRESH, c.state, if c.reason == TrainingPosterior then Accepted else c.reason)
    else c.state.effective.None? && c.state.held == 0
  }

  /** A series over the rows after training: each hands on the posterior of its rows, published from the one before. */
  ghost predicate PublishedOver(d: Fitted, onTraining: bool, raw: History, cs: seq<Carry>)
    requires d.Valid()
  {
    && cs != [] && |cs| == |raw| - |d.training| + 1 && Opens(d, onTraining, cs[0])
    && (forall n :: 0 <= n < |cs| ==> cs[n].state.alpha == Trained(d, raw[..|d.training| + n]))
    && (forall n :: 0 < n < |cs| ==> Continued(d, cs, n))
  }

  ghost predicate Continued(d: Fitted, cs: seq<Carry>, n: nat)
    requires 0 < n < |cs|
  {
    Publishes(d, cs[n - 1].state, cs[n].state, cs[n].reason)
  }

  lemma OpeningOpens(d: Fitted, onTraining: bool)
    requires d.Valid()
    ensures Opens(d, onTraining, Opening(d, onTraining))
  {
    AcceptPublishes(d, Initial(d), FRESH);
    hide Publishes, Accept;
  }

  lemma FoldPublishes(d: Fitted, c: Carry, raw: History, k: nat)
    requires d.Valid() && Usable(d, c.state) && NoGapAfter(d, raw, k) && k < |raw|
    ensures NoGapAfter(d, raw[..|raw| - 1], k)
    ensures var before, after := Fold(d, c, raw[..|raw| - 1], k), Fold(d, c, raw, k);
            Publishes(d, before.state, after.state, after.reason) && Moves(d, before.state, after.state)
  {
    FoldOne(d, c, raw, k);
    var before, e := Fold(d, c, raw[..|raw| - 1], k).state, d.emission(raw).value;
    FoldUsable(d, c, raw[..|raw| - 1], k);
    AcceptMoves(d, Step(d.model, before.alpha, e), before);
    AcceptPublishes(d, Step(d.model, before.alpha, e), before);
    hide Fold, Accept, Moves, Step, Publishes, Why;
  }

  /**
   However decisions were spread on the rows: a regime is established or changed only to the label of
   the first largest entry of the posterior, exactly when that entry reaches the threshold and no
   minimum duration holds, and the reason says why not.
  */
  lemma {:induction false} CapturedRegimesFollowPosterior(d: Fitted, onTraining: bool, raw: History)
    requires d.Valid() && d.training <= raw && NoGapAfter(d, raw, |d.training|)
    ensures PublishedOver(d, onTraining, raw, RowCarries(d, onTraining, raw))
    decreases |raw|
  {
    hide Publishes, Opening, Opens, Advance, Accept, Why, Usable, NoGapAfter, Trained;
    OpeningIsTrained(d, onTraining);
    var k := |d.training|;
    if |raw| == k {
      OpeningOpens(d, onTraining);
      assert raw[..k] == raw == d.training;
    } else {
      RowsObservable(d, raw, k);
      var init := raw[..|raw| - 1];
      CapturedRegimesFollowPosterior(d, onTraining, init);
      FoldPublishes(d, Opening(d, onTraining), raw, k);
      assert raw[..k] == d.training;
      FoldIsFilter(d, Opening(d, onTraining), raw, k);
      PublishedOnce(d, onTraining, raw, RowCarries(d, onTraining, init), Fold(d, Opening(d, onTraining), raw, k));
    }
  }

  lemma PublishedOnce(d: Fitted, onTraining: bool, raw: History, cs: seq<Carry>, c: Carry)
    requires d.Valid() && |raw| > |d.training| && PublishedOver(d, onTraining, raw[..|raw| - 1], cs)
    requires c.state.alpha == Trained(d, raw) && Publishes(d, cs[|cs| - 1].state, c.state, c.reason)
    ensures PublishedOver(d, onTraining, raw, cs + [c])
  {
    hide Publishes, Opens, Trained;
    var init, all, k := raw[..|raw| - 1], cs + [c], |d.training|;
    forall n | 0 <= n < |all| ensures all[n].state.alpha == Trained(d, raw[..k + n]) {
      if n < |cs| {
        assert init[..k + n] == raw[..k + n];
      } else {
        assert raw[..k + n] == raw;
      }
    }
    forall n | 0 < n < |all| ensures Continued(d, all, n) {
      if n < |cs| {
        assert Continued(d, cs, n);
      }
    }
  }

  /** The state and the reason of every stored decision are the last of such a series over its rows. */
  lemma StoredDecisionPublishes(d: Fitted, events: seq<Event>, i: nat) returns (cs: seq<Carry>)
    requires d.Valid() && Chain(d, events) && i < |events|
    ensures PublishedOver(d, OpenedOnTraining(d, events), events[i].prefix, cs)
    ensures cs[|cs| - 1] == CarryOf(events[i])
  {
    hide Fold, Opening, NoGapAfter, Publishes, Opens, Trained;
    assert Reached(d, OpenedOnTraining(d, events), events[i]);
    CapturedRegimesFollowPosterior(d, OpenedOnTraining(d, events), events[i].prefix);
    cs := RowCarries(d, OpenedOnTraining(d, events), events[i].prefix);
  }

  // ---------------------------------------------------------------- dwell

  lemma OpeningDwells(d: Fitted, onTraining: bool)
    requires d.Valid()
    ensures Dwells(d, [Opening(d, onTraining).state])
  {
    var bare := State(Some(Initial(d)), None, 0);
    NothingDwells(d);
    assert Moves(d, bare, bare);
    AcceptMoves(d, Initial(d), bare);
    assert [] + [bare] == [bare] && [] + [Opening(d, onTraining).state] == [Opening(d, onTraining).state];
    hide Dwells, Accept, Why, Moves, Fold;
    DwellExtends(d, [], bare, if onTraining then Accept(d, Initial(d), None, 0) else bare);
  }

  /** Dwell on the captured path: over rows, however decisions were spread, blocks are counted and end only when due. */
  lemma {:induction false} CapturedRegimesDwell(d: Fitted, onTraining: bool, raw: History)
    requires d.Valid() && |d.training| <= |raw| && NoGapAfter(d, raw, |d.training|)
    ensures Dwells(d, CarriedStates(RowCarries(d, onTraining, raw)))
    decreases |raw|
  {
    hide Dwells, Moves, Publishes, Opening, Advance, Accept, Why, Usable, NoGapAfter, Fold;
    if |raw| == |d.training| {
      OpeningDwells(d, onTraining);
      assert CarriedStates(RowCarries(d, onTraining, raw)) == [Opening(d, onTraining).state];
    } else {
      RowsObservable(d, raw, |d.training|);
      CapturedRegimesDwell(d, onTraining, raw[..|raw| - 1]);
      FoldPublishes(d, Opening(d, onTraining), raw, |d.training|);
      var cs := RowCarries(d, onTraining, raw[..|raw| - 1]);
      OneMoreDwells(d, cs, Fold(d, Opening(d, onTraining), raw, |d.training|));
    }
  }

  lemma OneMoreDwells(d: Fitted, cs: seq<Carry>, c: Carry)
    requires cs != [] && Dwells(d, CarriedStates(cs)) && Moves(d, cs[|cs| - 1].state, c.state)
    ensures Dwells(d, CarriedStates(cs + [c]))
  {
    hide Dwells, Moves;
    DwellExtends(d, CarriedStates(cs), cs[|cs| - 1].state, c.state);
    assert CarriedStates(cs + [c]) == CarriedStates(cs) + [c.state];
  }

  /** The state of every stored decision is the last of such a series. */
  lemma StoredStateDwells(d: Fitted, events: seq<Event>, i: nat)
    requires d.Valid() && Chain(d, events) && i < |events|
    ensures |d.training| <= |events[i].prefix| && NoGapAfter(d, events[i].prefix, |d.training|)
    ensures var ss := CarriedStates(RowCarries(d, OpenedOnTraining(d, events), events[i].prefix));
            Dwells(d, ss) && ss[|ss| - 1] == events[i].state
  {
    hide Fold, Opening, NoGapAfter, Dwells, RowCarries;
    assert Reached(d, OpenedOnTraining(d, events), events[i]);
    CapturedRegimesDwell(d, OpenedOnTraining(d, events), events[i].prefix);
  }
}
