/**
 The causal regime detector: forward filtering feeds a hysteresis machine whose
 state is stored between calls, one event per observation.

 A row history stands for the input hash over it. Normalisation and likelihood
 are one function of the rows up to and including the one observed, which is
 what makes them causal.
*/
module RegimeDetector {
  import opened Basics
  import opened ForwardFilter

  datatype Label = RiskOn | Neutral | RiskOff | Crisis

  datatype Observation = Observation(at: Time, signals: seq<real>)

  type History = seq<Observation>

  /** A fitted detector: model, state labels, hysteresis settings and training rows. */
  datatype Fitted = Fitted(model: Model, labels: seq<Label>, threshold: real, minDays: nat,
                           emission: History -> Option<Vec>, training: History, fittedAt: Time)
  {
    ghost predicate Valid() {
      && model.Valid() && |labels| == model.N() && minDays >= 1
      && (forall h: History :: emission(h).Some? ==> |emission(h).value| == model.N() && AllPositive(emission(h).value))
      && training != [] && Chronological(training) && training[|training| - 1].at <= fittedAt
      && Emitted(this, training) != []
    }

    function TrainedThrough(): Time
      requires training != []
    {
      training[|training| - 1].at
    }
  }

  datatype Reason = Accepted | LowConfidence | MinimumDuration | TrainingPosterior

  /** What is carried from one observation to the next. */
  datatype State = State(alpha: Option<Vec>, effective: Option<Label>, held: nat)

  datatype Event = Event(at: Time, prefix: History, state: State, reason: Reason)

  datatype Verdict =
    | Stored | InsufficientData
    | InvalidHistory | TrainingChanged | HistoryChanged | MovedBackwards | CoverageGap | NotAfterFit | Stale
    | Incomplete | CutoffChanged

  predicate Chronological(h: History) {
    forall i, j :: 0 <= i < j < |h| ==> h[i].at < h[j].at
  }

  /** The rows observed up to a time. */
  function UpTo(h: History, t: Time): (r: History)
    ensures r <= h
    ensures r != [] ==> r[|r| - 1].at <= t
    ensures |r| < |h| ==> exists i :: |r| <= i < |h| && h[i].at > t
  {
    if h == [] || h[|h| - 1].at <= t then h else UpTo(h[..|h| - 1], t)
  }

  /** The normalised rows that survive, as emission weights. */
  function Emitted(d: Fitted, h: History): seq<Vec> {
    if h == [] then []
    else Emitted(d, h[..|h| - 1]) + (if d.emission(h).Some? then [d.emission(h).value] else [])
  }

  lemma {:induction false} EmittedFeasible(d: Fitted, h: History)
    requires d.Valid()
    ensures Emissions(d.model, Emitted(d, h))
  {
    if h != [] {
      EmittedFeasible(d, h[..|h| - 1]);
    }
  }

  /** The rows that survive as emissions. */
  ghost function Surviving(d: Fitted, h: History): set<nat> {
    set n: nat | n < |h| && Observable(d, h, n)
  }

  lemma SurvivingGrows(d: Fitted, h: History)
    requires h != []
    ensures |Surviving(d, h)| == |Surviving(d, h[..|h| - 1])| + if d.emission(h).Some? then 1 else 0
  {
    var init := h[..|h| - 1];
    var more: set<nat> := if d.emission(h).Some? then {|init|} else {};
    RowIsLast(d, h);
    forall m: nat ensures m in Surviving(d, h) <==> m in Surviving(d, init) + more {
      if m < |init| {
        SameRow(d, init, h, m);
      }
    }
    assert Surviving(d, h) == Surviving(d, init) + more;
    assert Surviving(d, init) !! more;
  }

  /** One emission for every row that survives, the last row's last. */
  lemma {:induction false} EmittedExactly(d: Fitted, h: History)
    ensures |Emitted(d, h)| == |Surviving(d, h)|
    ensures h != [] ==> Emitted(d, h[..|h| - 1]) <= Emitted(d, h)
    ensures h != [] && d.emission(h).Some? ==>
              Emitted(d, h) != [] && Emitted(d, h)[|Emitted(d, h)| - 1] == d.emission(h).value
  {
    if h != [] {
      EmittedExactly(d, h[..|h| - 1]);
      SurvivingGrows(d, h);
      hide Surviving;
    } else {
      assert Surviving(d, h) == {};
    }
  }

  // ---------------------------------------------------------------- hysteresis

  /** The first position of the largest entry. */
  function ArgMax(v: Vec): (k: nat)
    requires v != []
    ensures k < |v| && forall i :: 0 <= i < |v| ==> v[i] <= v[k]
    ensures forall i :: 0 <= i < k ==> v[i] < v[k]
  {
    if |v| == 1 then 0
    else
      var k := ArgMax(v[..|v| - 1]);
      assert forall i :: 0 <= i < |v| - 1 ==> v[..|v| - 1][i] == v[i];
      if v[|v| - 1] > v[k] then |v| - 1 else k
  }

  function Why(d: Fitted, alpha: Vec, effective: Option<Label>, held: nat): Reason
    requires |alpha| == |d.labels| > 0
  {
    var winner := ArgMax(alpha);
    if alpha[winner] < d.threshold then LowConfidence
    else if effective.Some? && Some(d.labels[winner]) != effective && held < d.minDays then MinimumDuration
    else Accepted
  }

  function Accept(d: Fitted, alpha: Vec, effective: Option<Label>, held: nat): State
    requires |alpha| == |d.labels| > 0
  {
    var proposed := Some(d.labels[ArgMax(alpha)]);
    var accepted := Why(d, alpha, effective, held).Accepted?;
    var effective' := if accepted then proposed else effective;
    var base := if accepted && proposed != effective then 0 else held;
    State(Some(alpha), effective', if effective'.Some? then base + 1 else 0)
  }

  ghost predicate Usable(d: Fitted, s: State) {
    ForwardFilter.Feasible(d.model, s.alpha)
  }

  function Advance(d: Fitted, s: State, e: Vec): (r: State)
    requires d.Valid() && Usable(d, s) && |e| == d.model.N() && AllPositive(e)
    ensures Usable(d, r) && r.alpha == Some(Step(d.model, s.alpha, e))
  {
    Accept(d, Step(d.model, s.alpha, e), s.effective, s.held)
  }

  function Observe(d: Fitted, s: State, h: History): Event
    requires d.Valid() && Usable(d, s) && h != [] && d.emission(h).Some?
  {
    var e := d.emission(h).value;
    Event(h[|h| - 1].at, h, Advance(d, s, e), Why(d, Step(d.model, s.alpha, e), s.effective, s.held))
  }

  // ---------------------------------------------------------------- one pass over a whole history

  /** Every row after the fit can be observed. */
  predicate Covered(d: Fitted, h: History) {
    h == [] || h[|h| - 1].at <= d.fittedAt || (d.emission(h).Some? && Covered(d, h[..|h| - 1]))
  }

  /** The state after a history, by one pass from the start of training. */
  function StateOf(d: Fitted, h: History): (s: State)
    requires d.Valid() && Covered(d, h)
    ensures Usable(d, s)
  {
    if h == [] || h[|h| - 1].at <= d.fittedAt then
      EmittedFeasible(d, h);
      State(Filter(d.model, None, Emitted(d, h)), None, 0)
    else Advance(d, StateOf(d, h[..|h| - 1]), d.emission(h).value)
  }

  /** The events of a history, by one pass. */
  function EventsOf(d: Fitted, h: History): seq<Event>
    requires d.Valid() && Covered(d, h)
  {
    if h == [] || h[|h| - 1].at <= d.fittedAt then []
    else EventsOf(d, h[..|h| - 1]) + [Observe(d, StateOf(d, h[..|h| - 1]), h)]
  }

  /** Each stored vector is the filter over every emission since training began. */
  lemma {:induction false} StateIsFilter(d: Fitted, h: History)
    requires d.Valid() && Covered(d, h)
    ensures Emissions(d.model, Emitted(d, h))
    ensures StateOf(d, h).alpha == Filter(d.model, None, Emitted(d, h))
  {
    EmittedFeasible(d, h);
    if h != [] && h[|h| - 1].at > d.fittedAt {
      var init, e := h[..|h| - 1], d.emission(h).value;
      StateIsFilter(d, init);
      assert Emitted(d, h)[..|Emitted(d, h)| - 1] == Emitted(d, init);
    }
  }

  /**
   End to end: the vector stored with a history's last event, times the weight of
   all hidden paths through training and inference, is the weight of the paths
   that end in each state.
  */
  lemma StoredPosteriorIsExact(d: Fitted, h: History)
    requires d.Valid() && Covered(d, h) && h != [] && h[|h| - 1].at > d.fittedAt
    ensures Emissions(d.model, Emitted(d, h))
    ensures var u, alpha := BruteForce(d.model, Emitted(d, h)), EventsOf(d, h)[|EventsOf(d, h)| - 1].state.alpha;
            alpha.Some? && Sum(u) > 0.0 && u == Scale(Sum(u), alpha.value)
  {
    StateIsFilter(d, h);
    FilterIsExact(d.model, Emitted(d, h));
  }

  // ---------------------------------------------------------------- dwell

  /** The held count of state k is the length of the block of its regime; without a regime there was none before. */
  ghost predicate HeldCountsBlock(ss: seq<State>, k: nat)
    requires k < |ss|
  {
    var s := ss[k];
    if s.effective.None? then s.held == 0 && forall i :: 0 <= i <= k ==> ss[i].effective.None?
    else
      && 1 <= s.held <= k + 1
      && (forall i :: k + 1 - s.held <= i <= k ==> ss[i].effective == s.effective)
      && (s.held < k + 1 ==> ss[k - s.held].effective != s.effective)
  }

  ghost predicate ChangesOnlyWhenDue(d: Fitted, ss: seq<State>, k: nat)
    requires 0 < k < |ss|
  {
    var before, after := ss[k - 1], ss[k];
    before.effective.Some? && after.effective != before.effective ==> after.effective.Some? && before.held >= d.minDays
  }

  /** In a series of states blocks are counted and end only when due. */
  ghost predicate Dwells(d: Fitted, ss: seq<State>) {
    && (forall k :: 0 <= k < |ss| ==> HeldCountsBlock(ss, k))
    && (forall k :: 0 < k < |ss| ==> ChangesOnlyWhenDue(d, ss, k))
  }

  function StatesOf(events: seq<Event>): seq<State> {
    seq(|events|, i requires 0 <= i < |events| => events[i].state)
  }

  lemma {:induction false} EventsEndInState(d: Fitted, h: History)
    requires d.Valid() && Covered(d, h)
    ensures var events := EventsOf(d, h);
            if h == [] || h[|h| - 1].at <= d.fittedAt then events == []
            else events != [] && events[|events| - 1].state == StateOf(d, h) && events[|events| - 1].prefix == h
                 && events[|events| - 1].at == h[|h| - 1].at
  {
  }

  /**
   Dwell: in every stored history, the held count is the length of the current
   block of one effective regime, and a block ends only after the minimum number
   of events; a regime once established never lapses.
  */
  lemma {:induction false} RegimesDwell(d: Fitted, h: History)
    requires d.Valid() && Covered(d, h) && Chronological(h)
    ensures Dwells(d, StatesOf(EventsOf(d, h)))
  {
    if h != [] && h[|h| - 1].at > d.fittedAt {
      var init := h[..|h| - 1];
      RegimesDwell(d, init);
      StatesGrow(d, h);
      StateBefore(d, init);
      ObserveMoves(d, StateOf(d, init), h);
      hide Dwells, Moves, Observe, EventsOf, StateOf, Covered, Usable;
      DwellExtends(d, StatesOf(EventsOf(d, init)), StateOf(d, init), Observe(d, StateOf(d, init), h).state);
    } else {
      NothingDwells(d);
    }
  }

  lemma NothingDwells(d: Fitted)
    ensures Dwells(d, [])
  {
  }

  lemma StatesGrow(d: Fitted, h: History)
    requires d.Valid() && Covered(d, h) && h != [] && h[|h| - 1].at > d.fittedAt
    ensures var init := h[..|h| - 1];
            StatesOf(EventsOf(d, h)) == StatesOf(EventsOf(d, init)) + [Observe(d, StateOf(d, init), h).state]
  {
    hide Observe, StateOf;
  }

  /** The state an observation starts from: the last event's, or a fresh one. */
  lemma StateBefore(d: Fitted, h: History)
    requires d.Valid() && Covered(d, h)
    ensures var ss, s := StatesOf(EventsOf(d, h)), StateOf(d, h);
            if ss == [] then s.effective.None? && s.held == 0 else ss[|ss| - 1] == s
  {
    EventsEndInState(d, h);
    hide Observe, Filter, Emitted, Advance;
  }

  /** One accepted or refused proposal. */
  ghost predicate Moves(d: Fitted, s: State, r: State) {
    if r.effective == s.effective then r.held == if r.effective.Some? then s.held + 1 else 0
    else r.effective.Some? && r.held == 1 && (s.effective.Some? ==> s.held >= d.minDays)
  }

  lemma AcceptMoves(d: Fitted, alpha: Vec, s: State)
    requires |alpha| == |d.labels| > 0
    ensures Moves(d, s, Accept(d, alpha, s.effective, s.held))
  {
    hide ArgMax;
  }

  lemma ObserveMoves(d: Fitted, s: State, h: History)
    requires d.Valid() && Usable(d, s) && h != [] && d.emission(h).Some?
    ensures Moves(d, s, Observe(d, s, h).state)
  {
    AcceptMoves(d, Step(d.model, s.alpha, d.emission(h).value), s);
  }

  lemma DwellExtends(d: Fitted, ss: seq<State>, s: State, r: State)
    requires Dwells(d, ss) && Moves(d, s, r)
    requires if ss == [] then s.effective.None? && s.held == 0 else ss[|ss| - 1] == s
    ensures Dwells(d, ss + [r])
  {
    NewBlock(d, ss, s, r);
    forall k | 0 <= k < |ss + [r]| ensures HeldCountsBlock(ss + [r], k) {
      if k < |ss| {
        OldBlock(ss, r, k);
      }
    }
    hide HeldCountsBlock;
    forall k | 0 < k < |ss + [r]| ensures ChangesOnlyWhenDue(d, ss + [r], k) {
      if k < |ss| {
        assert ChangesOnlyWhenDue(d, ss, k);
      }
    }
  }

  lemma OldBlock(ss: seq<State>, r: State, k: nat)
    requires k < |ss| && HeldCountsBlock(ss, k)
    ensures HeldCountsBlock(ss + [r], k)
  {
    assert forall i :: 0 <= i < |ss| ==> (ss + [r])[i] == ss[i];
  }

  lemma NewBlock(d: Fitted, ss: seq<State>, s: State, r: State)
    requires Moves(d, s, r)
    requires if ss == [] then s.effective.None? && s.held == 0 else ss[|ss| - 1] == s && HeldCountsBlock(ss, |ss| - 1)
    ensures HeldCountsBlock(ss + [r], |ss|) && (ss != [] ==> ChangesOnlyWhenDue(d, ss + [r], |ss|))
  {
    assert forall i :: 0 <= i < |ss| ==> (ss + [r])[i] == ss[i];
  }

  // ---------------------------------------------------------------- what is published

  /** The first position of the largest entry. */
  ghost predicate Leads(v: Vec, w: nat) {
    w < |v| && (forall i :: 0 <= i < |v| ==> v[i] <= v[w]) && forall i :: 0 <= i < w ==> v[i] < v[w]
  }

  /**
   A proposal is taken exactly when it is confident and due: it reaches the threshold, and no other
   regime is still within its minimum duration. The reason says which of the two failed.
  */
  ghost predicate Follows(d: Fitted, proposed: Label, confidence: real, before: State, after: State, reason: Reason) {
    var confident := confidence >= d.threshold;
    var due := before.effective.None? || before.effective == Some(proposed) || before.held >= d.minDays;
    && after.effective == (if confident && due then Some(proposed) else before.effective)
    && (reason == LowConfidence <==> !confident)
    && (reason == MinimumDuration <==> confident && !due)
    && (reason == Accepted <==> confident && due)
  }

  /** The label of the leading entry of the posterior is proposed. */
  ghost predicate Publishes(d: Fitted, before: State, after: State, reason: Reason) {
    && after.alpha.Some?
    && exists w: nat :: Leads(after.alpha.value, w) && w < |d.labels|
                        && Follows(d, d.labels[w], after.alpha.value[w], before, after, reason)
  }

  const FRESH := State(None, None, 0)

  ghost function Before(events: seq<Event>, k: nat): State
    requires k < |events|
  {
    if k == 0 then FRESH else events[k - 1].state
  }

  /** One event per row after the fit, in order, each published from the one before. */
  ghost predicate PublishedRows(d: Fitted, h: History, events: seq<Event>) {
    && |events| <= |h|
    && (forall i :: 0 <= i < |h| ==> (h[i].at > d.fittedAt <==> i >= |h| - |events|))
    && (forall k :: 0 <= k < |events| ==> IsEventOf(d, h, events, k))
  }

  ghost predicate IsEventOf(d: Fitted, h: History, events: seq<Event>, k: nat)
    requires k < |events| <= |h|
  {
    var n := |h| - |events| + k;
    && events[k].at == h[n].at && events[k].prefix == h[..n + 1]
    && Publishes(d, Before(events, k), events[k].state, events[k].reason)
  }

  lemma AcceptPublishes(d: Fitted, alpha: Vec, s: State)
    requires |alpha| == |d.labels| > 0
    ensures Publishes(d, s, Accept(d, alpha, s.effective, s.held), Why(d, alpha, s.effective, s.held))
  {
    var w := ArgMax(alpha);
    assert Leads(alpha, w);
  }

  lemma ObservePublishes(d: Fitted, s: State, before: State, h: History)
    requires d.Valid() && Usable(d, s) && h != [] && d.emission(h).Some?
    requires before.effective == s.effective && before.held == s.held
    ensures var e := Observe(d, s, h);
            e.at == h[|h| - 1].at && e.prefix == h && Publishes(d, before, e.state, e.reason)
  {
    AcceptPublishes(d, Step(d.model, s.alpha, d.emission(h).value), before);
    hide Publishes;
  }

  /**
   The regimes of a history: a regime is established or changed only to the label of the first
   largest entry of the stored posterior, and exactly when that entry reaches the threshold and no
   minimum duration holds; the stored reason says why not.
  */
  lemma {:induction false} RegimesFollowPosterior(d: Fitted, h: History)
    requires d.Valid() && Covered(d, h) && Chronological(h)
    ensures PublishedRows(d, h, EventsOf(d, h))
  {
    if h != [] && h[|h| - 1].at > d.fittedAt {
      var init := h[..|h| - 1];
      RegimesFollowPosterior(d, init);
      EventsGrow(d, h);
      LastIsBefore(d, init);
      var events := EventsOf(d, init);
      hide EventsOf, StateOf, Covered, Observe, PublishedRows, Publishes, Chronological;
      ObservePublishes(d, StateOf(d, init), if events == [] then FRESH else events[|events| - 1].state, h);
      PublishedOneMore(d, h, events, Observe(d, StateOf(d, init), h));
    }
  }

  lemma EventsGrow(d: Fitted, h: History)
    requires d.Valid() && Covered(d, h) && h != [] && h[|h| - 1].at > d.fittedAt
    ensures Covered(d, h[..|h| - 1]) && d.emission(h).Some?
    ensures EventsOf(d, h) == EventsOf(d, h[..|h| - 1]) + [Observe(d, StateOf(d, h[..|h| - 1]), h)]
  {
    hide Observe, StateOf;
  }

  lemma LastIsBefore(d: Fitted, h: History)
    requires d.Valid() && Covered(d, h)
    ensures var events, s := EventsOf(d, h), StateOf(d, h);
            var before := if events == [] then FRESH else events[|events| - 1].state;
            before.effective == s.effective && before.held == s.held
  {
    EventsEndInState(d, h);
    hide Observe, Filter, Emitted, Advance;
  }

  lemma PublishedOneMore(d: Fitted, h: History, events: seq<Event>, e: Event)
    requires h != [] && h[|h| - 1].at > d.fittedAt && PublishedRows(d, h[..|h| - 1], events)
    requires e.at == h[|h| - 1].at && e.prefix == h
    requires Publishes(d, if events == [] then FRESH else events[|events| - 1].state, e.state, e.reason)
    ensures PublishedRows(d, h, events + [e])
  {
    hide Publishes;
    var init, all := h[..|h| - 1], events + [e];
    forall i | 0 <= i < |h| ensures h[i].at > d.fittedAt <==> i >= |h| - |all| {
      assert i < |init| ==> init[i] == h[i];
    }
    forall k | 0 <= k < |all| ensures IsEventOf(d, h, all, k) {
      if k < |events| {
        var n := |init| - |events| + k;
        assert IsEventOf(d, init, events, k);
        assert init[..n + 1] == h[..n + 1] && init[n] == h[n];
      } else {
        assert h[..|h|] == h;
      }
    }
  }

  // ---------------------------------------------------------------- calls on a stored history

  predicate AgreesWith(raw: History, e: Event) {
    UpTo(raw, e.at) == e.prefix
  }

  predicate PrefixesUnchanged(events: seq<Event>, raw: History)
    requires raw != []
  {
    forall i :: 0 <= i < |events| && events[i].at <= raw[|raw| - 1].at ==> AgreesWith(raw, events[i])
  }

  predicate Observable(d: Fitted, raw: History, i: nat)
    requires i < |raw|
  {
    d.emission(raw[..i + 1]).Some?
  }

  predicate NoGapAfter(d: Fitted, raw: History, k: nat) {
    forall i :: k <= i < |raw| ==> Observable(d, raw, i)
  }

  function Resume(d: Fitted, events: seq<Event>): Time {
    if events == [] then d.fittedAt else events[|events| - 1].at
  }

  /** The outcome of a call, from the stored events and the rows supplied. */
  function Judge(d: Fitted, events: seq<Event>, raw: History, asOf: Time): Verdict
    requires d.training != []
  {
    if raw == [] || !Chronological(raw) || raw[|raw| - 1].at > asOf then InvalidHistory
    else if UpTo(raw, d.TrainedThrough()) != d.training then TrainingChanged
    else if d.emission(raw).None? || raw[|raw| - 1].at <= d.fittedAt then InsufficientData
    else if !PrefixesUnchanged(events, raw) then HistoryChanged
    else if events != [] && raw[|raw| - 1].at < events[|events| - 1].at then MovedBackwards
    else if !NoGapAfter(d, raw, |UpTo(raw, Resume(d, events))|) then CoverageGap
    else Stored
  }

  /** Stored events are those of one pass over the last recorded history. */
  ghost predicate OnePass(d: Fitted, events: seq<Event>)
    requires d.Valid()
  {
    events == [] ||
    var h := events[|events| - 1].prefix;
    Chronological(h) && Covered(d, h) && h != [] && h[|h| - 1].at > d.fittedAt && events == EventsOf(d, h)
  }

  lemma {:induction false} CoveredFrom(d: Fitted, raw: History, k: nat)
    requires k <= |raw| && Covered(d, raw[..k]) && NoGapAfter(d, raw, k)
    ensures Covered(d, raw)
    decreases |raw| - k
  {
    if k == |raw| {
      assert raw[..k] == raw;
    } else {
      assert Observable(d, raw, k);
      assert raw[..k + 1][..k] == raw[..k];
      assert Covered(d, raw[..k + 1]);
      CoveredFrom(d, raw, k + 1);
    }
  }

  lemma {:induction false} UpToLastOf(h: History, t: Time)
    ensures var k := |UpTo(h, t)|;
            (k > 0 ==> h[k - 1].at <= t) && forall i :: k <= i < |h| ==> h[i].at > t
  {
    if h != [] && h[|h| - 1].at > t {
      UpToLastOf(h[..|h| - 1], t);
    }
  }

  /** The state and events of one pass over the rows before position k. */
  ghost predicate Passed(d: Fitted, raw: History, k: nat, state: State, events: seq<Event>)
    requires d.Valid()
  {
    k <= |raw| && Covered(d, raw[..k]) && state == StateOf(d, raw[..k]) && events == EventsOf(d, raw[..k])
  }

  lemma ResumeFresh(d: Fitted, raw: History)
    requires d.Valid() && Chronological(raw) && UpTo(raw, d.TrainedThrough()) == d.training
    ensures var k := |UpTo(raw, d.fittedAt)|;
            && Passed(d, raw, k, State(Trained(d, raw[..k]), None, 0), [])
            && |d.training| <= k && raw[..|d.training|] == d.training
            && (forall i :: k <= i < |raw| ==> raw[i].at > d.fittedAt)
  {
    hide UpTo, Filter, Emitted;
    var k := |UpTo(raw, d.fittedAt)|;
    assert raw[..k] == UpTo(raw, d.fittedAt);
    UpToLastOf(raw, d.fittedAt);
  }

  lemma ResumeStored(d: Fitted, events: seq<Event>, raw: History)
    requires d.Valid() && OnePass(d, events) && events != [] && Chronological(raw)
    requires AgreesWith(raw, events[|events| - 1])
    ensures var k := |UpTo(raw, events[|events| - 1].at)|;
            && Passed(d, raw, k, events[|events| - 1].state, events)
            && (forall i :: k <= i < |raw| ==> raw[i].at > d.fittedAt)
  {
    var last := events[|events| - 1];
    var k := |UpTo(raw, last.at)|;
    assert raw[..k] == last.prefix;
    EventsEndInState(d, last.prefix);
    UpToLastOf(raw, last.at);
  }

  /** One more observed row extends one pass. */
  lemma PassOne(d: Fitted, raw: History, k: nat, state: State, events: seq<Event>)
    requires d.Valid() && Passed(d, raw, k, state, events)
    requires k < |raw| && raw[k].at > d.fittedAt && Observable(d, raw, k)
    ensures Usable(d, state)
    ensures var e := Observe(d, state, raw[..k + 1]); Passed(d, raw, k + 1, e.state, events + [e])
  {
    hide Step, Filter, Emitted, Advance, Accept, Why, Posterior;
    assert raw[..k + 1][..k] == raw[..k];
  }

  /** Whatever was stored, a call that stores covers the whole history. */
  lemma StoredCovers(d: Fitted, events: seq<Event>, raw: History, asOf: Time)
    requires d.Valid() && OnePass(d, events) && Judge(d, events, raw, asOf) == Stored
    ensures Covered(d, raw)
  {
    hide OnePass, UpTo, NoGapAfter, Covered, StateOf, EventsOf, Trained;
    if events == [] {
      ResumeFresh(d, raw);
    } else {
      assert AgreesWith(raw, events[|events| - 1]);
      ResumeStored(d, events, raw);
    }
    CoveredFrom(d, raw, |UpTo(raw, Resume(d, events))|);
  }

  /** The filter over every emission of a history. */
  function Trained(d: Fitted, h: History): Option<Vec>
    requires d.Valid()
  {
    EmittedFeasible(d, h);
    Filter(d.model, None, Emitted(d, h))
  }

  class CausalRegimeDetector {
    const d: Fitted
    const initialAlpha: Vec
    var events: seq<Event>

    ghost predicate Valid()
      reads this
    {
      d.Valid() && Trained(d, d.training) == Some(initialAlpha) && OnePass(d, events)
    }

    constructor (d: Fitted)
      requires d.Valid()
      ensures Valid() && this.d == d && events == []
    {
      this.d := d;
      EmittedFeasible(d, d.training);
      var normalized := Emitted(d, d.training);
      var posteriors := Forward(d.model, normalized, None);
      assert normalized[..|normalized| - 1 + 1] == normalized;
      this.initialAlpha := posteriors[|posteriors| - 1];
      this.events := [];
    }

    /** The checks of a call, in their order. */
    method Check(raw: History, asOf: Time) returns (verdict: Verdict)
      requires d.Valid()
      ensures verdict == Judge(d, events, raw, asOf)
    {
      hide UpTo, Observable;
      if raw == [] || !Chronological(raw) || raw[|raw| - 1].at > asOf {
        return InvalidHistory;
      }
      if UpTo(raw, d.TrainedThrough()) != d.training {
        return TrainingChanged;
      }
      if d.emission(raw).None? || raw[|raw| - 1].at <= d.fittedAt {
        return InsufficientData;
      }
      for i := 0 to |events|
        invariant forall j :: 0 <= j < i && events[j].at <= raw[|raw| - 1].at ==> AgreesWith(raw, events[j])
      {
        if events[i].at <= raw[|raw| - 1].at && !AgreesWith(raw, events[i]) {
          return HistoryChanged;
        }
      }
      if events != [] && raw[|raw| - 1].at < events[|events| - 1].at {
        return MovedBackwards;
      }
      if !NoGapAfter(d, raw, |UpTo(raw, Resume(d, events))|) {
        return CoverageGap;
      }
      return Stored;
    }

    /**
     The strict path. A call that stores anything leaves exactly the events that
     one pass over the supplied rows would store, whatever calls came before.
    */
    method Predict(raw: History, asOf: Time) returns (verdict: Verdict)
      requires Valid()
      modifies this`events
      ensures Valid()
      ensures verdict == Judge(d, old(events), raw, asOf)
      ensures verdict == Stored ==> Covered(d, raw) && events == EventsOf(d, raw)
      ensures verdict != Stored ==> events == old(events)
    {
      hide StateOf, EventsOf, Covered, Passed, OnePass, Trained, UpTo, NoGapAfter, Feasible, Posterior;
      verdict := Check(raw, asOf);
      if verdict != Stored {
        return;
      }
      StoredCovers(d, events, raw, asOf);
      var k := |UpTo(raw, Resume(d, events))|;
      var state;
      if events != [] {
        assert AgreesWith(raw, events[|events| - 1]);
        ResumeStored(d, events, raw);
        state := events[|events| - 1].state;
      } else {
        ResumeFresh(d, raw);
        var alpha := FilterDelayed(raw, k);
        state := State(Some(alpha), None, 0);
      }
      Append(raw, k, state);
    }

    /** The event loop over the rows not seen before. */
    method Append(raw: History, k: nat, start: State)
      requires d.Valid() && Passed(d, raw, k, start, events) && NoGapAfter(d, raw, k) && Chronological(raw)
      requires raw != [] && raw[|raw| - 1].at > d.fittedAt
      requires forall i :: k <= i < |raw| ==> raw[i].at > d.fittedAt
      modifies this`events
      ensures Covered(d, raw) && events == EventsOf(d, raw) && OnePass(d, events)
    {
      hide StateOf, EventsOf, Covered, Observe;
      var state := start;
      for n := k to |raw|
        invariant Passed(d, raw, n, state, events)
      {
        assert Observable(d, raw, n);
        PassOne(d, raw, n, state, events);
        var e := Observe(d, state, raw[..n + 1]);
        events := events + [e];
        state := e.state;
      }
      assert raw[..|raw|] == raw;
      EventsEndInState(d, raw);
    }

    /** Rows between training and fit move the posterior without recording an event. */
    method FilterDelayed(raw: History, k: nat) returns (alpha: Vec)
      requires d.Valid() && Trained(d, d.training) == Some(initialAlpha)
      requires |d.training| <= k <= |raw| && raw[..|d.training|] == d.training
      ensures Trained(d, raw[..k]) == Some(alpha)
    {
      hide Filter, Step, Posterior;
      alpha := initialAlpha;
      var delayed: seq<Vec> := [];
      for i := |d.training| to k
        invariant Emitted(d, raw[..i]) == Emitted(d, d.training) + delayed
        invariant Emissions(d.model, delayed)
      {
        var h := raw[..i + 1];
        assert h[..i] == raw[..i];
        if d.emission(h).Some? {
          delayed := delayed + [d.emission(h).value];
        }
      }
      hide Emitted;
      EmittedFeasible(d, d.training);
      FilterRestarts(d.model, None, Emitted(d, d.training), delayed);
      if delayed != [] {
        var posteriors := Forward(d.model, delayed, Some(alpha));
        assert delayed[..|delayed| - 1 + 1] == delayed;
        alpha := posteriors[|posteriors| - 1];
      }
    }
  }

  // ---------------------------------------------------------------- when a call stores

  /** In ordered rows, those up to a time are a prefix that ends at that time exactly when the rows begin with it. */
  lemma UpToIsPrefix(h: History, p: History, t: Time)
    requires Chronological(h) && p != [] && p[|p| - 1].at == t
    ensures UpTo(h, t) == p <==> p <= h
  {
    UpToLastOf(h, t);
    if p <= h {
      assert h[|p| - 1].at == t;
    }
  }

  /** Every row is later than the one before. */
  ghost predicate Rising(h: History) {
    forall i :: 0 < i < |h| ==> LaterRow(h, i)
  }

  ghost predicate LaterRow(h: History, i: nat)
    requires 0 < i < |h|
  {
    h[i - 1].at < h[i].at
  }

  lemma {:induction false} RisingIsChronological(h: History)
    ensures Rising(h) <==> Chronological(h)
  {
    if Rising(h) && h != [] {
      var init := h[..|h| - 1];
      forall i | 0 < i < |init| ensures LaterRow(init, i) {
        assert LaterRow(h, i);
      }
      RisingIsChronological(init);
      assert |h| > 1 ==> LaterRow(h, |h| - 1);
      assert forall i :: 0 <= i < |init| ==> init[i] == h[i];
    }
  }

  /** Every row after the fit is observable. */
  ghost predicate Observed(d: Fitted, raw: History) {
    forall i :: 0 <= i < |raw| && raw[i].at > d.fittedAt ==> Observable(d, raw, i)
  }

  /** The rows of every stored event begin those of the last one. */
  lemma EventPrefixes(d: Fitted, events: seq<Event>)
    requires d.Valid() && OnePass(d, events) && events != []
    ensures forall i :: 0 <= i < |events| ==>
              var p := events[i].prefix; p != [] && p <= events[|events| - 1].prefix && p[|p| - 1].at == events[i].at
  {
    hide Publishes, EventsOf, Covered, Before, Chronological;
    var h := events[|events| - 1].prefix;
    RegimesFollowPosterior(d, h);
    assert PublishedRows(d, h, events);
    hide OnePass;
    forall i | 0 <= i < |events|
      ensures var p := events[i].prefix; p != [] && p <= h && p[|p| - 1].at == events[i].at
    {
      assert IsEventOf(d, h, events, i);
    }
  }

  lemma NoGapExactly(d: Fitted, events: seq<Event>, raw: History)
    requires d.Valid() && OnePass(d, events) && Chronological(raw)
    requires events != [] ==> events[|events| - 1].prefix <= raw
    ensures NoGapAfter(d, raw, |UpTo(raw, Resume(d, events))|) <==> Observed(d, raw)
  {
    if events == [] {
      UpToLastOf(raw, d.fittedAt);
      hide UpTo, Observable;
    } else {
      var h := events[|events| - 1].prefix;
      StoredIsObserved(d, events);
      EventsEndInState(d, h);
      hide EventsOf, OnePass, Covered, UpTo, Observable, NoGapAfter, Observed;
      UpToIsPrefix(raw, h, events[|events| - 1].at);
      GapsAfterStored(d, h, raw);
    }
  }

  lemma GapsAfterStored(d: Fitted, h: History, raw: History)
    requires h != [] && h <= raw && h[|h| - 1].at > d.fittedAt && Observed(d, h) && Chronological(raw)
    ensures NoGapAfter(d, raw, |h|) <==> Observed(d, raw)
  {
    hide Observable;
    forall i | 0 <= i < |h| && raw[i].at > d.fittedAt ensures Observable(d, raw, i) {
      assert Observable(d, h, i);
      SameRow(d, h, raw, i);
    }
    forall i | |h| <= i < |raw| ensures raw[i].at > d.fittedAt {
      assert raw[|h| - 1].at < raw[i].at;
    }
  }

  lemma NothingStored(raw: History)
    ensures raw != [] ==> PrefixesUnchanged([], raw)
  {
  }

  lemma StoredIsObserved(d: Fitted, events: seq<Event>)
    requires d.Valid() && OnePass(d, events) && events != []
    ensures Observed(d, events[|events| - 1].prefix)
  {
    hide EventsOf, Covered, Observed;
    CoveredIsObserved(d, events[|events| - 1].prefix);
  }

  lemma CoveredIsObserved(d: Fitted, h: History)
    requires Covered(d, h) && Chronological(h)
    ensures Observed(d, h)
  {
    CoveredHasNoGap(d, h);
    UpToLastOf(h, d.fittedAt);
    hide Covered, UpTo, Observable;
  }

  lemma SameRow(d: Fitted, h: History, raw: History, i: nat)
    requires h <= raw && i < |h|
    ensures Observable(d, h, i) <==> Observable(d, raw, i)
  {
    assert h[..i + 1] == raw[..i + 1];
  }

  /**
   A call stores exactly when its rows are ordered and known, begin with the training rows, go on
   from the last stored history, bring a row after the fit, and leave no row after the fit out.
  */
  lemma StoredExactly(d: Fitted, events: seq<Event>, raw: History, asOf: Time)
    requires d.Valid() && OnePass(d, events)
    ensures Judge(d, events, raw, asOf) == Stored <==>
              && raw != [] && Rising(raw) && d.fittedAt < raw[|raw| - 1].at <= asOf
              && d.training <= raw && (events != [] ==> events[|events| - 1].prefix <= raw)
              && Observed(d, raw)
  {
    hide UpTo, Observable, EventsOf, Covered, Rising, OnePass, PrefixesUnchanged, NoGapAfter, Chronological;
    NothingStored(raw);
    RisingIsChronological(raw);
    if raw != [] && Chronological(raw) {
      UpToIsPrefix(raw, d.training, d.TrainedThrough());
      assert raw[..|raw| - 1 + 1] == raw;
      if events != [] {
        StoredExtends(d, events, raw);
      }
      if events != [] ==> events[|events| - 1].prefix <= raw {
        NoGapExactly(d, events, raw);
      }
      assert raw[|raw| - 1].at > d.fittedAt && Observed(d, raw) ==> Observable(d, raw, |raw| - 1);
      assert Observable(d, raw, |raw| - 1) <==> d.emission(raw).Some? by {
        RowIsLast(d, raw);
      }
    }
  }

  /** The rows go on from every event stored up to the last of them. */
  ghost predicate EventsExtended(events: seq<Event>, raw: History)
    requires raw != []
  {
    forall i :: 0 <= i < |events| && events[i].at <= raw[|raw| - 1].at ==> events[i].prefix <= raw
  }

  lemma UnchangedIsExtended(d: Fitted, events: seq<Event>, raw: History)
    requires d.Valid() && OnePass(d, events) && raw != [] && Chronological(raw)
    ensures PrefixesUnchanged(events, raw) <==> EventsExtended(events, raw)
  {
    hide OnePass, EventsOf, Covered, UpTo, Chronological;
    forall i | 0 <= i < |events| ensures AgreesWith(raw, events[i]) <==> events[i].prefix <= raw {
      EventPrefixes(d, events);
      UpToIsPrefix(raw, events[i].prefix, events[i].at);
    }
    hide AgreesWith;
  }

  /** Why a call is refused: the first of these that holds. */
  lemma RefusalsAreExact(d: Fitted, events: seq<Event>, raw: History, asOf: Time)
    requires d.Valid() && OnePass(d, events) && Judge(d, events, raw, asOf) != Stored
    ensures var verdict := Judge(d, events, raw, asOf);
            if raw == [] || !Chronological(raw) || raw[|raw| - 1].at > asOf then verdict == InvalidHistory
            else if !(d.training <= raw) then verdict == TrainingChanged
            else if raw[|raw| - 1].at <= d.fittedAt || d.emission(raw) == None then verdict == InsufficientData
            else if events != [] && !(events[|events| - 1].prefix <= raw) then
              verdict == if EventsExtended(events, raw) then MovedBackwards else HistoryChanged
            else verdict == CoverageGap && !Observed(d, raw)
  {
    hide UpTo, EventsOf, Covered, OnePass, PrefixesUnchanged, NoGapAfter, Observed, Rising, Chronological;
    NothingStored(raw);
    StoredExactly(d, events, raw, asOf);
    RisingIsChronological(raw);
    if raw != [] && Chronological(raw) {
      assert Chronological(d.training) && d.training != [];
      UpToIsPrefix(raw, d.training, d.TrainedThrough());
      UnchangedIsExtended(d, events, raw);
      if events != [] {
        StoredExtends(d, events, raw);
      }
    }
  }

  lemma RowIsLast(d: Fitted, raw: History)
    requires raw != []
    ensures Observable(d, raw, |raw| - 1) <==> d.emission(raw).Some?
  {
    assert raw[..|raw| - 1 + 1] == raw;
  }

  /** The checks on stored events come down to the last of them. */
  lemma StoredExtends(d: Fitted, events: seq<Event>, raw: History)
    requires d.Valid() && OnePass(d, events) && events != [] && raw != [] && Chronological(raw)
    ensures PrefixesUnchanged(events, raw) && raw[|raw| - 1].at >= events[|events| - 1].at <==>
            events[|events| - 1].prefix <= raw
  {
    hide UpTo, EventsOf, Covered, OnePass, PrefixesUnchanged;
    UnchangedIsExtended(d, events, raw);
    EventPrefixes(d, events);
    var p := events[|events| - 1].prefix;
    if p <= raw {
      assert raw[|p| - 1] == p[|p| - 1];
      forall i | 0 <= i < |events| ensures events[i].prefix <= raw {
        assert events[i].prefix <= p;
      }
    }
  }

  // ---------------------------------------------------------------- series of calls

  datatype Call = Call(raw: History, asOf: Time)

  /** What a call stores, by the contract of Predict. */
  function AfterCall(d: Fitted, events: seq<Event>, c: Call): seq<Event>
    requires d.Valid() && OnePass(d, events)
  {
    if Judge(d, events, c.raw, c.asOf) == Stored then
      StoredCovers(d, events, c.raw, c.asOf);
      EventsOf(d, c.raw)
    else events
  }

  lemma AfterCallOnePass(d: Fitted, events: seq<Event>, c: Call)
    requires d.Valid() && OnePass(d, events)
    ensures OnePass(d, AfterCall(d, events, c))
  {
    hide OnePass, Covered, EventsOf, StateOf, UpTo, NoGapAfter, AgreesWith;
    if Judge(d, events, c.raw, c.asOf) == Stored {
      StoredCovers(d, events, c.raw, c.asOf);
      EventsAreOnePass(d, c.raw);
    }
  }

  lemma EventsAreOnePass(d: Fitted, h: History)
    requires d.Valid() && Covered(d, h) && Chronological(h) && h != [] && h[|h| - 1].at > d.fittedAt
    ensures OnePass(d, EventsOf(d, h))
  {
    EventsEndInState(d, h);
  }

  lemma EmptyIsOnePass(d: Fitted)
    requires d.Valid()
    ensures OnePass(d, [])
  {
  }

  function AfterCalls(d: Fitted, calls: seq<Call>): (events: seq<Event>)
    requires d.Valid()
    ensures OnePass(d, events)
  {
    if calls == [] then []
    else
      var events := AfterCalls(d, calls[..|calls| - 1]);
      AfterCallOnePass(d, events, calls[|calls| - 1]);
      AfterCall(d, events, calls[|calls| - 1])
  }

  /** What any stored events allow, an empty store allows too. */
  lemma StoredAloneToo(d: Fitted, events: seq<Event>, c: Call)
    requires d.Valid() && OnePass(d, events) && Judge(d, events, c.raw, c.asOf) == Stored
    ensures Judge(d, [], c.raw, c.asOf) == Stored
  {
    hide OnePass, Covered, NoGapAfter, UpTo, AgreesWith;
    StoredCovers(d, events, c.raw, c.asOf);
    CoveredHasNoGap(d, c.raw);
  }

  /**
   Incremental equals one-shot: if the last call of any series stores, the same
   call alone on an empty store succeeds too and leaves the same events.
  */
  lemma IncrementalEqualsOneShot(d: Fitted, calls: seq<Call>, last: Call)
    requires d.Valid() && Judge(d, AfterCalls(d, calls), last.raw, last.asOf) == Stored
    ensures Judge(d, [], last.raw, last.asOf) == Stored && OnePass(d, [])
    ensures AfterCalls(d, calls + [last]) == AfterCall(d, [], last)
    ensures Covered(d, last.raw) && AfterCalls(d, calls + [last]) == EventsOf(d, last.raw)
  {
    hide Judge, OnePass, EventsOf, Covered;
    StoredAloneToo(d, AfterCalls(d, calls), last);
    StoredCovers(d, AfterCalls(d, calls), last.raw, last.asOf);
    EmptyIsOnePass(d);
    assert (calls + [last])[..|calls|] == calls;
  }

  lemma {:induction false} CoveredHasNoGap(d: Fitted, h: History)
    requires Covered(d, h) && Chronological(h)
    ensures NoGapAfter(d, h, |UpTo(h, d.fittedAt)|)
  {
    if h != [] && h[|h| - 1].at > d.fittedAt {
      var init := h[..|h| - 1];
      CoveredHasNoGap(d, init);
      forall i | |UpTo(h, d.fittedAt)| <= i < |h| ensures Observable(d, h, i) {
        if i < |init| {
          assert Observable(d, init, i);
          assert init[..i + 1] == h[..i + 1];
        } else {
          assert h[..i + 1] == h;
        }
      }
    }
  }
}
