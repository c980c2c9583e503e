/**
 The trading desk: the graph of its nodes, the debate loop, the veto and exposure
 flags every node passes on, the failure paths, and the consensus rule.

 What models, evidence checks and stores answer, and which nodes raise, is an
 arbitrary world.
*/
module Desk {
  import opened Basics

  datatype Role = Fundamental | Sentiment | Technical | Earnings | TranscriptNlp | RiskManager | Strategist

  datatype Action = Buy | Hold | Reduce | Exit | Abstain | Veto

  datatype Availability = Answered | Unavailable | NotApplicable

  /** A report; its quotes hold when every claim is found in its source. */
  datatype Report = Report(role: Role, action: Action, status: Availability, quotesHold: bool, derivedFrom: set<Role>)

  datatype Hmm = Hmm(crisis: bool, available: bool, asOf: Time)

  datatype Portfolio = Portfolio(vetoes: nat, available: bool, asOf: Time)

  datatype Inputs = Inputs(asOf: Time, hmm: Option<Hmm>, portfolio: Option<Portfolio>, blockedAtEntry: bool,
                           maxRounds: nat)

  datatype Node = Prepare | MarketContext | MacroRegime | LoadMemory | Retrieve | Specialists | Verify | Debate | Risk
                | Synthesis | Save | Done

  datatype Decision = Decision(action: Action, riskVeto: bool, blocked: bool, reports: seq<Report>)

  datatype State = State(blocked: bool, veto: bool, crisis: bool, issues: bool, round: nat, reports: map<Role, Report>,
                         decision: Option<Decision>)

  datatype World = World(
    raises: (Node, nat) -> bool,
    memoryUnavailable: bool,
    evidenceUnavailable: bool,
    order: seq<Role>,
    write: (Role, State) -> Report,
    issues: State -> bool,
    persistenceFails: bool)

  datatype Outcome = Finished(state: State) | Raised | OutOfSteps

  const ROLES: seq<Role> := [Fundamental, Sentiment, Technical, Earnings, TranscriptNlp, RiskManager, Strategist]

  const VOTING: seq<Role> := [Fundamental, Sentiment, Technical, RiskManager, Strategist]

  // ---------------------------------------------------------------- the nodes

  function Blank(inp: Inputs): State {
    State(inp.blockedAtEntry, false, false, false, 0, map[], None)
  }

  predicate Eligible(inp: Inputs) {
    inp.hmm.Some? && inp.hmm.value.available && inp.hmm.value.asOf == inp.asOf
  }

  /** The regime is the model's own, or unavailable and then exposure is blocked. */
  function ReadRegime(s: State, inp: Inputs): State {
    if Eligible(inp) then s.(crisis := inp.hmm.value.crisis) else s.(crisis := false, blocked := true)
  }

  function Written(w: World, role: Role, s: State): Report {
    w.write(role, s).(role := role)
  }

  /** Specialists finish in some order; each adds its own report. */
  function Merge(reports: map<Role, Report>, w: World, s: State, order: seq<Role>): map<Role, Report> {
    if order == [] then reports
    else
      var last := order[|order| - 1];
      Merge(reports, w, s, order[..|order| - 1])[last := Written(w, last, s)]
  }

  predicate Debates(role: Role, r: Report) {
    role != RiskManager && role != Strategist && r.status != NotApplicable
  }

  /** A debate round revises the reports of the applicable analysts. */
  function Revised(w: World, s: State): map<Role, Report> {
    map role | role in s.reports :: if Debates(role, s.reports[role]) then Written(w, role, s) else s.reports[role]
  }

  /** The round collects its updates role by role and merges them into the reports. */
  method RunDebateRound(w: World, s: State) returns (reports: map<Role, Report>)
    ensures reports == Revised(w, s)
  {
    var updates: map<Role, Report>, todo := map[], s.reports.Keys;
    while todo != {}
      invariant todo <= s.reports.Keys
      invariant forall role :: role in updates <==> role in s.reports && role !in todo && Debates(role, s.reports[role])
      invariant forall role :: role in updates ==> updates[role] == Written(w, role, s)
      decreases |todo|
    {
      var role :| role in todo;
      if Debates(role, s.reports[role]) {
        updates := updates[role := Written(w, role, s)];
      }
      todo := todo - {role};
    }
    reports := s.reports + updates;
  }

  predicate PortfolioUsable(inp: Inputs) {
    inp.portfolio.Some? && inp.portfolio.value.available && inp.portfolio.value.asOf == inp.asOf
  }

  predicate HardReasons(s: State, inp: Inputs) {
    s.veto || (inp.portfolio.Some? && inp.portfolio.value.vetoes > 0) || s.crisis
  }

  function ReviewRisk(s: State, inp: Inputs, w: World): State {
    var blocked := s.blocked || s.issues;
    var written := if PortfolioUsable(inp) then Written(w, RiskManager, s.(blocked := blocked))
                   else Report(RiskManager, Abstain, Unavailable, true, {});
    var veto := HardReasons(s, inp) || written.action == Veto;
    var report := if veto then written.(action := Veto) else written;
    s.(blocked := blocked || veto || report.status != Answered, veto := veto,
       reports := s.reports[RiskManager := report])
  }

  predicate RoleMissing(s: State) {
    exists role :: role in {Fundamental, Sentiment, Technical, RiskManager}
      && (role !in s.reports || s.reports[role].status != Answered)
  }

  function Listed(reports: map<Role, Report>, roles: seq<Role>): seq<Report> {
    if roles == [] then []
    else
      var last := roles[|roles| - 1];
      Listed(reports, roles[..|roles| - 1]) + (if last in reports then [reports[last]] else [])
  }

  /** The validation every decision passes when it is built. */
  predicate SafeBoundary(d: Decision) {
    && (d.riskVeto ==> d.action == Veto)
    && (d.action == Abstain || d.action == Veto ==> d.blocked)
    && (d.action == Buy ==> !d.blocked)
  }

  predicate TakesExposure(a: Action) {
    a == Buy || a == Reduce || a == Exit
  }

  function Synthesize(s: State, w: World): Decision {
    var missing := RoleMissing(s);
    var synthesis := Written(w, Strategist, s).(derivedFrom := s.reports.Keys);
    var invalid := !synthesis.quotesHold;
    var blocked := s.blocked || missing || invalid || synthesis.status != Answered;
    var action :=
      if s.veto then Veto
      else if synthesis.status != Answered || invalid || missing || s.issues
              || (blocked && TakesExposure(synthesis.action))
      then Abstain
      else synthesis.action;
    Decision(action, s.veto, blocked || action == Veto || action == Abstain, Listed(s.reports, ROLES) + [synthesis])
  }

  /** When nothing can be persisted the decision abstains or vetoes. */
  function Unpersisted(d: Decision): Decision {
    var veto := d.riskVeto || d.action == Veto;
    d.(action := if veto then Veto else Abstain, riskVeto := veto, blocked := true)
  }

  /** What a node writes; None when it raises, or builds a decision that fails validation. */
  function Act(node: Node, s: State, inp: Inputs, w: World): Option<State> {
    if w.raises(node, s.round) then None
    else
      match node
      case Prepare => Some(Blank(inp))
      case MarketContext => Some(s)
      case MacroRegime => Some(ReadRegime(s, inp))
      case LoadMemory => Some(s.(blocked := s.blocked || w.memoryUnavailable))
      case Retrieve => Some(s.(blocked := s.blocked || w.evidenceUnavailable))
      case Specialists => Some(s.(reports := Merge(s.reports, w, s, w.order)))
      case Verify => Some(s.(issues := w.issues(s)))
      case Debate => Some(s.(reports := Revised(w, s), round := s.round + 1))
      case Risk => Some(ReviewRisk(s, inp, w))
      case Synthesis =>
        var d := Synthesize(s, w);
        if SafeBoundary(d) then Some(s.(decision := Some(d))) else None
      case Save =>
        if w.persistenceFails && s.decision.Some? then Some(s.(decision := Some(Unpersisted(s.decision.value))))
        else Some(s)
      case Done => Some(s)
  }

  function Next(node: Node, s: State, inp: Inputs): Node {
    match node
    case Prepare => MarketContext
    case MarketContext => MacroRegime
    case MacroRegime => LoadMemory
    case LoadMemory => Retrieve
    case Retrieve => Specialists
    case Specialists => Verify
    case Verify => if s.round < inp.maxRounds then Debate else Risk
    case Debate => Verify
    case Risk => Synthesis
    case Synthesis => Save
    case Save => Done
    case Done => Done
  }

  /** Running the graph from a node with a number of steps left. */
  function Execute(node: Node, s: State, inp: Inputs, w: World, steps: nat): Outcome
    decreases steps
  {
    if node == Done then Finished(s)
    else if steps == 0 then OutOfSteps
    else
      var after := Act(node, s, inp, w);
      if after.None? then Raised else Execute(Next(node, after.value, inp), after.value, inp, w, steps - 1)
  }

  function StepLimit(inp: Inputs): nat {
    30 + 3 * inp.maxRounds
  }

  /** The decision when the graph fails: the accounting veto stays visible. */
  function Fallback(inp: Inputs): Decision {
    var veto := (inp.portfolio.Some? && inp.portfolio.value.vetoes > 0) || (inp.hmm.Some? && inp.hmm.value.crisis);
    Decision(if veto then Veto else Abstain, veto, true, [])
  }

  function Analyze(inp: Inputs, w: World): Decision {
    var outcome := Execute(Prepare, Blank(inp), inp, w, StepLimit(inp));
    if outcome.Finished? && outcome.state.decision.Some? then outcome.state.decision.value else Fallback(inp)
  }

  // ---------------------------------------------------------------- the order of specialists

  lemma {:induction false} MergeAt(reports: map<Role, Report>, w: World, s: State, order: seq<Role>, role: Role)
    ensures role in Merge(reports, w, s, order) <==> role in reports || role in order
    ensures role in order ==> Merge(reports, w, s, order)[role] == Written(w, role, s)
    ensures role !in order && role in reports ==> Merge(reports, w, s, order)[role] == reports[role]
  {
    if order != [] {
      var init, last := order[..|order| - 1], order[|order| - 1];
      MergeAt(reports, w, s, init, role);
      assert order == init + [last];
    }
  }

  /** The joined reports do not depend on which specialist finishes first. */
  lemma CompletionOrderIsIrrelevant(reports: map<Role, Report>, w: World, s: State, x: seq<Role>, y: seq<Role>)
    requires forall role :: role in x <==> role in y
    ensures Merge(reports, w, s, x) == Merge(reports, w, s, y)
  {
    var a, b := Merge(reports, w, s, x), Merge(reports, w, s, y);
    forall role ensures (role in a <==> role in b) && (role in a ==> a[role] == b[role]) {
      MergeAt(reports, w, s, x, role);
      MergeAt(reports, w, s, y, role);
    }
  }

  lemma {:induction false} MergeIgnoresOrder(reports: map<Role, Report>, w: World, s: State, order: seq<Role>,
                                             other: seq<Role>)
    ensures Merge(reports, w.(order := other), s, order) == Merge(reports, w, s, order)
  {
    if order != [] {
      MergeIgnoresOrder(reports, w, s, order[..|order| - 1], other);
    }
  }

  lemma ActIgnoresOrder(node: Node, s: State, inp: Inputs, w: World, other: seq<Role>)
    requires forall role :: role in w.order <==> role in other
    ensures Act(node, s, inp, w.(order := other)) == Act(node, s, inp, w)
  {
    hide Merge, Revised, ReviewRisk, Synthesize, SafeBoundary, Unpersisted, ReadRegime;
    MergeIgnoresOrder(s.reports, w, s, other, other);
    CompletionOrderIsIrrelevant(s.reports, w, s, w.order, other);
    WritingIgnoresOrder(s, inp, w, other);
  }

  lemma WritingIgnoresOrder(s: State, inp: Inputs, w: World, other: seq<Role>)
    ensures var v := w.(order := other);
            Revised(v, s) == Revised(w, s) && ReviewRisk(s, inp, v) == ReviewRisk(s, inp, w)
              && Synthesize(s, v) == Synthesize(s, w)
  {
    var v := w.(order := other);
    assert forall role, t :: Written(v, role, t) == Written(w, role, t);
    hide Listed, RoleMissing;
    assert Revised(v, s) == Revised(w, s);
  }

  lemma {:induction false} ExecuteIgnoresOrder(node: Node, s: State, inp: Inputs, w: World, other: seq<Role>,
                                               steps: nat)
    requires forall role :: role in w.order <==> role in other
    ensures Execute(node, s, inp, w.(order := other), steps) == Execute(node, s, inp, w, steps)
    decreases steps
  {
    hide Act, Next;
    if node != Done && steps > 0 {
      ActIgnoresOrder(node, s, inp, w, other);
      var after := Act(node, s, inp, w);
      if after.Some? {
        ExecuteIgnoresOrder(Next(node, after.value, inp), after.value, inp, w, other, steps - 1);
      }
    }
  }

  /** Nor does the decision of the desk. */
  lemma DecisionIgnoresCompletionOrder(inp: Inputs, w: World, other: seq<Role>)
    requires forall role :: role in w.order <==> role in other
    ensures Analyze(inp, w.(order := other)) == Analyze(inp, w)
  {
    ExecuteIgnoresOrder(Prepare, Blank(inp), inp, w, other, StepLimit(inp));
    hide Execute;
  }

  // ---------------------------------------------------------------- the debate loop ends

  /** Steps still needed from a node. */
  function StepsFrom(node: Node, s: State, inp: Inputs): nat {
    var rounds := if s.round < inp.maxRounds then inp.maxRounds - s.round else 0;
    match node
    case Prepare => 10 + 2 * inp.maxRounds
    case MarketContext => 9 + 2 * rounds
    case MacroRegime => 8 + 2 * rounds
    case LoadMemory => 7 + 2 * rounds
    case Retrieve => 6 + 2 * rounds
    case Specialists => 5 + 2 * rounds
    case Verify => 4 + 2 * rounds
    case Debate => 5 + (if rounds > 0 then 2 * (rounds - 1) else 0)
    case Risk => 3
    case Synthesis => 2
    case Save => 1
    case Done => 0
  }

  lemma OneStep(node: Node, s: State, inp: Inputs, w: World)
    requires node != Done && Act(node, s, inp, w).Some? && (node == Debate ==> s.round < inp.maxRounds)
    ensures var after := Act(node, s, inp, w).value;
            && StepsFrom(Next(node, after, inp), after, inp) < StepsFrom(node, s, inp)
            && (Next(node, after, inp) == Debate ==> after.round < inp.maxRounds)
  {
    hide Merge, Revised, ReviewRisk, Synthesize, Unpersisted;
  }

  lemma {:induction false} NeverOutOfSteps(node: Node, s: State, inp: Inputs, w: World, steps: nat)
    requires StepsFrom(node, s, inp) <= steps && (node == Debate ==> s.round < inp.maxRounds)
    ensures !Execute(node, s, inp, w, steps).OutOfSteps?
    decreases steps
  {
    hide Act, Next;
    if node != Done {
      if Act(node, s, inp, w).Some? {
        OneStep(node, s, inp, w);
        var after := Act(node, s, inp, w).value;
        NeverOutOfSteps(Next(node, after, inp), after, inp, w, steps - 1);
      }
    }
  }

  /** The debate loop ends within the recursion limit, whatever the nodes write. */
  lemma DeskEndsWithinTheLimit(inp: Inputs, w: World)
    ensures !Execute(Prepare, Blank(inp), inp, w, StepLimit(inp)).OutOfSteps?
  {
    NeverOutOfSteps(Prepare, Blank(inp), inp, w, StepLimit(inp));
  }

  // ---------------------------------------------------------------- what every node passes on

  /** The vetoes no model may lift: an accounting veto, or a crisis of an eligible regime model. */
  ghost predicate BindingVeto(inp: Inputs) {
    || (exists p :: inp.portfolio == Some(p) && p.vetoes > 0)
    || (exists m :: inp.hmm == Some(m) && m.crisis && m.available && m.asOf == inp.asOf)
  }

  /** Position on the one path through the graph; verification and debate alternate in place. */
  function Stage(node: Node): nat {
    match node
    case Prepare => 0
    case MarketContext => 1
    case MacroRegime => 2
    case LoadMemory => 3
    case Retrieve => 4
    case Specialists => 5
    case Verify => 6
    case Debate => 6
    case Risk => 7
    case Synthesis => 8
    case Save => 9
    case Done => 10
  }

  ghost predicate FlagsKept(node: Node, s: State, inp: Inputs, w: World) {
    && (inp.blockedAtEntry ==> s.blocked)
    && (Stage(node) > 2 ==> s.crisis == (Eligible(inp) && inp.hmm.value.crisis) && (!Eligible(inp) ==> s.blocked))
    && (Stage(node) > 3 && w.memoryUnavailable ==> s.blocked)
    && (Stage(node) > 4 && w.evidenceUnavailable ==> s.blocked)
    && (Stage(node) <= 7 ==> !s.veto)
    && (Stage(node) > 7 ==> RiskReviewed(s, inp))
  }

  ghost predicate RiskReviewed(s: State, inp: Inputs) {
    && (BindingVeto(inp) ==> s.veto)
    && (s.veto || s.issues || !PortfolioUsable(inp) ==> s.blocked)
    && RiskManager in s.reports && (s.veto <==> s.reports[RiskManager].action == Veto)
  }

  ghost predicate DecisionMade(node: Node, s: State, w: World) {
    var d := Synthesize(s.(decision := None), w);
    s.decision == if Stage(node) <= 8 then None
                  else if Stage(node) == 9 || !w.persistenceFails then Some(d)
                  else Some(Unpersisted(d))
  }

  lemma FlagsStay(node: Node, s: State, inp: Inputs, w: World)
    requires node != Done && FlagsKept(node, s, inp, w) && Act(node, s, inp, w).Some?
    ensures var after := Act(node, s, inp, w).value; FlagsKept(Next(node, after, inp), after, inp, w)
  {
    hide Merge, Revised, Synthesize, Unpersisted, SafeBoundary;
  }

  lemma DecisionStays(node: Node, s: State, inp: Inputs, w: World)
    requires node != Done && DecisionMade(node, s, w) && Act(node, s, inp, w).Some?
    ensures var after := Act(node, s, inp, w).value; DecisionMade(Next(node, after, inp), after, w)
  {
    hide Merge, Revised, Synthesize, Unpersisted, SafeBoundary;
    var after := Act(node, s, inp, w).value;
    assert node == Synthesis ==> s == s.(decision := None) && after.(decision := None) == s;
    assert node == Save ==> after.(decision := None) == s.(decision := None);
  }

  lemma {:induction false} KeptToTheEnd(node: Node, s: State, inp: Inputs, w: World, steps: nat)
    requires FlagsKept(node, s, inp, w) && DecisionMade(node, s, w)
    ensures var outcome := Execute(node, s, inp, w, steps);
            outcome.Finished? ==> FlagsKept(Done, outcome.state, inp, w) && DecisionMade(Done, outcome.state, w)
    decreases steps
  {
    hide FlagsKept, DecisionMade, Act, Next;
    if node != Done && steps > 0 && Act(node, s, inp, w).Some? {
      FlagsStay(node, s, inp, w);
      DecisionStays(node, s, inp, w);
      var after := Act(node, s, inp, w).value;
      KeptToTheEnd(Next(node, after, inp), after, inp, w, steps - 1);
    }
  }

  ghost predicate Completed(inp: Inputs, w: World) {
    Execute(Prepare, Blank(inp), inp, w, StepLimit(inp)).Finished?
  }

  ghost function FinalState(inp: Inputs, w: World): State
    requires Completed(inp, w)
  {
    Execute(Prepare, Blank(inp), inp, w, StepLimit(inp)).state
  }

  /** The decision of a completed run, from its final flags and reports. */
  lemma CompletedDecision(inp: Inputs, w: World)
    requires Completed(inp, w)
    ensures var s := FinalState(inp, w);
            && FlagsKept(Done, s, inp, w)
            && Analyze(inp, w) ==
               (var d := Synthesize(s.(decision := None), w); if w.persistenceFails then Unpersisted(d) else d)
  {
    assert Blank(inp).(decision := None) == Blank(inp);
    hide Execute, Synthesize, Unpersisted;
    KeptToTheEnd(Prepare, Blank(inp), inp, w, StepLimit(inp));
  }

  // ---------------------------------------------------------------- the graph unrolled

  /** What the entry nodes leave: exposure blocked by anything missing, and the regime if it is current. */
  ghost function Opened(inp: Inputs, w: World): State {
    var current := exists m :: inp.hmm == Some(m) && m.available && m.asOf == inp.asOf;
    State(inp.blockedAtEntry || w.memoryUnavailable || w.evidenceUnavailable || !current, false,
          current && inp.hmm.value.crisis, false, 0, map[], None)
  }

  /** The state before verification k: the specialists' reports, or the reports debated since the one before. */
  ghost function Unverified(inp: Inputs, w: World, k: nat): State
    decreases k, 0
  {
    if k == 0 then
      var s := Opened(inp, w);
      s.(reports := map role | role in w.order :: w.write(role, s).(role := role))
    else
      var s := VerifiedAfter(inp, w, k - 1);
      s.(round := k,
         reports := map role | role in s.reports ::
           if role == RiskManager || role == Strategist || s.reports[role].status == NotApplicable then s.reports[role]
           else w.write(role, s).(role := role))
  }

  ghost function VerifiedAfter(inp: Inputs, w: World, k: nat): State
    decreases k, 1
  {
    Unverified(inp, w, k).(issues := w.issues(Unverified(inp, w, k)))
  }

  /** No entry node raises, nor the verification and the debate of any round from k on, nor the last three nodes. */
  ghost predicate EntryStands(w: World) {
    forall node ::
      node in {Prepare, MarketContext, MacroRegime, LoadMemory, Retrieve, Specialists} ==> !w.raises(node, 0)
  }

  ghost predicate RoundsStand(inp: Inputs, w: World, k: nat) {
    && (forall i :: k <= i <= inp.maxRounds ==> !w.raises(Verify, i))
    && (forall i :: k <= i < inp.maxRounds ==> !w.raises(Debate, i))
    && !w.raises(Risk, inp.maxRounds) && !w.raises(Synthesis, inp.maxRounds) && !w.raises(Save, inp.maxRounds)
  }

  /** The review of risk: vetoes found before it bind, a usable portfolio lets the model add one. */
  ghost predicate RiskDecided(inp: Inputs, w: World, s: State, f: State) {
    var usable := exists p :: inp.portfolio == Some(p) && p.available && p.asOf == inp.asOf;
    var asked := w.write(RiskManager, s.(blocked := s.blocked || s.issues));
    && RiskManager in f.reports
    && var report := f.reports[RiskManager];
    && f == s.(blocked := f.blocked, veto := f.veto, reports := s.reports[RiskManager := report])
    && (f.veto <==>
          || s.crisis || (exists p :: inp.portfolio == Some(p) && p.vetoes > 0)
          || (usable && asked.action == Veto))
    && report.role == RiskManager && report.status == (if usable then asked.status else Unavailable)
    && report.action == (if f.veto then Veto else if usable then asked.action else Abstain)
    && (usable ==> report.quotesHold == asked.quotesHold && report.derivedFrom == asked.derivedFrom)
    && (f.blocked <==> s.blocked || s.issues || f.veto || report.status != Answered)
  }

  lemma ReviewDecides(s: State, inp: Inputs, w: World)
    requires !s.veto
    ensures RiskDecided(inp, w, s, ReviewRisk(s, inp, w))
  {
  }

  lemma ReviewBlocks(s: State, inp: Inputs, w: World)
    ensures var f := ReviewRisk(s, inp, w); (f.veto ==> f.blocked) && f.round == s.round && f.decision == s.decision
  {
  }

  lemma EntryRuns(inp: Inputs, w: World, steps: nat)
    requires steps >= 6
    ensures Execute(Prepare, Blank(inp), inp, w, steps) ==
            if EntryStands(w) then Execute(Verify, Unverified(inp, w, 0), inp, w, steps - 6) else Raised
  {
    hide Merge, Execute, Revised, ReviewRisk, Synthesize, Unpersisted, SafeBoundary;
    var s0 := Blank(inp);
    FirstThreeRun(inp, w, steps);
    var s1 := ReadRegime(s0, inp);
    OneMove(LoadMemory, s1, inp, w, steps - 3);
    var s2 := s1.(blocked := s1.blocked || w.memoryUnavailable);
    OneMove(Retrieve, s2, inp, w, steps - 4);
    var s3 := s2.(blocked := s2.blocked || w.evidenceUnavailable);
    assert s3 == Opened(inp, w);
    OneMove(Specialists, s3, inp, w, steps - 5);
    MergeIsMap(w, s3);
  }

  lemma FirstThreeRun(inp: Inputs, w: World, steps: nat)
    requires steps >= 3
    ensures Execute(Prepare, Blank(inp), inp, w, steps) ==
            if w.raises(Prepare, 0) || w.raises(MarketContext, 0) || w.raises(MacroRegime, 0) then Raised
            else Execute(LoadMemory, ReadRegime(Blank(inp), inp), inp, w, steps - 3)
  {
    hide Merge, Execute, Revised, ReviewRisk, Synthesize, Unpersisted, SafeBoundary, ReadRegime;
    var s0 := Blank(inp);
    OneMove(Prepare, s0, inp, w, steps);
    OneMove(MarketContext, s0, inp, w, steps - 1);
    OneMove(MacroRegime, s0, inp, w, steps - 2);
  }

  lemma OneMove(node: Node, s: State, inp: Inputs, w: World, steps: nat)
    requires node != Done && steps > 0
    ensures Execute(node, s, inp, w, steps) ==
            var after := Act(node, s, inp, w);
            if after.None? then Raised else Execute(Next(node, after.value, inp), after.value, inp, w, steps - 1)
  {
  }

  lemma MergeIsMap(w: World, s: State)
    ensures Merge(map[], w, s, w.order) == map role | role in w.order :: w.write(role, s).(role := role)
  {
    var a, b := Merge(map[], w, s, w.order), map role | role in w.order :: w.write(role, s).(role := role);
    forall role ensures (role in a <==> role in b) && (role in a ==> a[role] == b[role]) {
      MergeAt(map[], w, s, w.order, role);
    }
  }

  /** From the verification of round k to the review of risk. */
  lemma {:induction false} RoundsRun(inp: Inputs, w: World, k: nat, steps: nat)
    requires k <= inp.maxRounds && steps >= 4 + 2 * (inp.maxRounds - k)
    ensures var s := VerifiedAfter(inp, w, inp.maxRounds);
            var outcome := Execute(Verify, Unverified(inp, w, k), inp, w, steps);
            if RoundsStand(inp, w, k) then outcome == Finished(Ended(inp, w, s)) else outcome == Raised
    decreases inp.maxRounds - k
  {
    hide Execute, Revised, ReviewRisk, Synthesize, Unpersisted, SafeBoundary, Merge, ReadRegime, Ended, Unverified,
         Opened;
    var u := Unverified(inp, w, k);
    RoundIs(inp, w, k);
    OneMove(Verify, u, inp, w, steps);
    if !w.raises(Verify, k) {
      var v := VerifiedAfter(inp, w, k);
      if k < inp.maxRounds {
        OneMove(Debate, v, inp, w, steps - 1);
        if !w.raises(Debate, k) {
          DebateIs(inp, w, k);
          RoundsRun(inp, w, k + 1, steps - 2);
        }
      } else {
        ExitRuns(inp, w, v, steps - 1);
      }
    }
  }

  lemma {:induction false} RoundIs(inp: Inputs, w: World, k: nat)
    ensures Unverified(inp, w, k).round == k && VerifiedAfter(inp, w, k).round == k
    ensures !VerifiedAfter(inp, w, k).veto && VerifiedAfter(inp, w, k).decision == None
    ensures VerifiedAfter(inp, w, k).blocked == Opened(inp, w).blocked
    ensures VerifiedAfter(inp, w, k).crisis == Opened(inp, w).crisis
  {
    if k > 0 {
      RoundIs(inp, w, k - 1);
    }
  }

  lemma DebateIs(inp: Inputs, w: World, k: nat)
    ensures var s := VerifiedAfter(inp, w, k);
            s.(reports := Revised(w, s), round := k + 1) == Unverified(inp, w, k + 1)
  {
    RoundIs(inp, w, k);
    var s := VerifiedAfter(inp, w, k);
    assert Revised(w, s) == Unverified(inp, w, k + 1).reports;
  }

  /** The last three nodes. */
  ghost function Ended(inp: Inputs, w: World, s: State): State {
    var f := ReviewRisk(s, inp, w);
    var d := Synthesize(f, w);
    f.(decision := Some(if w.persistenceFails then Unpersisted(d) else d))
  }

  lemma ExitRuns(inp: Inputs, w: World, s: State, steps: nat)
    requires steps >= 3 && !s.veto && s.round == inp.maxRounds
    ensures Execute(Risk, s, inp, w, steps) ==
            if !w.raises(Risk, s.round) && !w.raises(Synthesis, s.round) && !w.raises(Save, s.round)
            then Finished(Ended(inp, w, s)) else Raised
  {
    hide Execute, ReviewRisk, Synthesize, SafeBoundary, Unpersisted;
    var f := ReviewRisk(s, inp, w);
    ReviewBlocks(s, inp, w);
    SynthesisIsAlwaysSafe(f, w);
    OneMove(Risk, s, inp, w, steps);
    OneMove(Synthesis, f, inp, w, steps - 1);
    var g := f.(decision := Some(Synthesize(f, w)));
    OneMove(Save, g, inp, w, steps - 2);
    DoneIsFinished(inp, w);
  }

  lemma DoneIsFinished(inp: Inputs, w: World)
    ensures forall t, n: nat :: Execute(Done, t, inp, w, n) == Finished(t)
  {
  }

  /**
   A run completes exactly when no node on its path raises: every debate round is held, each followed
   by a verification. Its final flags and reports are those of the last verification after the review of risk.
  */
  lemma RunIsUnrolled(inp: Inputs, w: World)
    ensures Completed(inp, w) <==> EntryStands(w) && RoundsStand(inp, w, 0)
    ensures Completed(inp, w) ==>
              var s := VerifiedAfter(inp, w, inp.maxRounds);
              s.round == inp.maxRounds && RiskDecided(inp, w, s, FinalState(inp, w).(decision := None))
  {
    hide Execute, ReviewRisk, Synthesize, Unpersisted;
    EntryRuns(inp, w, StepLimit(inp));
    RoundsRun(inp, w, 0, StepLimit(inp) - 6);
    RoundIs(inp, w, inp.maxRounds);
    ReviewDecides(VerifiedAfter(inp, w, inp.maxRounds), inp, w);
    assert Blank(inp) == Blank(inp).(decision := None);
  }

  // ---------------------------------------------------------------- desk safety

  /** Every decision of the desk passes its own validation: building it never raises. */
  lemma SynthesisIsAlwaysSafe(s: State, w: World)
    requires s.veto ==> s.blocked
    ensures SafeBoundary(Synthesize(s, w)) && SafeBoundary(Unpersisted(Synthesize(s, w)))
    ensures forall d :: d in {Synthesize(s, w), Unpersisted(Synthesize(s, w))} ==>
              && (d.riskVeto ==> d.action == Veto) && (d.action in {Abstain, Veto} ==> d.blocked)
              && (d.blocked ==> d.action != Buy)
  {
  }

  /** A binding veto yields a blocking veto decision, whatever models write, raise or fail to persist. */
  lemma BindingVetoHolds(inp: Inputs, w: World)
    requires BindingVeto(inp)
    ensures var d := Analyze(inp, w); d.action == Veto && d.riskVeto && d.blocked
  {
    if Completed(inp, w) {
      CompletedDecision(inp, w);
      hide Execute, Analyze, Listed, RoleMissing;
    }
  }

  /** What stands against new exposure before any model is asked. */
  ghost predicate Obstructed(inp: Inputs, w: World) {
    || inp.blockedAtEntry || w.memoryUnavailable || w.evidenceUnavailable
    || !(exists m :: inp.hmm == Some(m) && m.available && m.asOf == inp.asOf)
    || !(exists p :: inp.portfolio == Some(p) && p.available && p.asOf == inp.asOf)
  }

  /** Exposure blocked at entry, or by anything a later node found, is never taken. */
  lemma BlockedExposureIsNeverTaken(inp: Inputs, w: World)
    requires Obstructed(inp, w)
    ensures var d := Analyze(inp, w); !TakesExposure(d.action) && d.blocked
  {
    if Completed(inp, w) {
      CompletedDecision(inp, w);
      hide Execute, Analyze, Listed, RoleMissing;
    }
  }

  /** When the desk buys, reduces or exits: exactly when nothing stands against it and the synthesis says so. */
  lemma ExposureIsTakenExactly(inp: Inputs, w: World, a: Action)
    requires TakesExposure(a)
    ensures Analyze(inp, w).action == a <==>
              && Completed(inp, w) && !w.persistenceFails
              && var s := FinalState(inp, w).(decision := None);
                 && !s.blocked && !s.veto && !s.issues && !RoleMissing(s)
                 && var synthesis := Written(w, Strategist, s);
                    synthesis.status == Answered && synthesis.quotesHold && synthesis.action == a
  {
    if Completed(inp, w) {
      CompletedDecision(inp, w);
      hide Execute, Analyze, Listed, RoleMissing;
    }
  }

  /** The four analyses a decision needs, each answered, and nothing unverified. */
  ghost predicate Grounded(s: State) {
    && !s.issues
    && forall role :: role in {Fundamental, Sentiment, Technical, RiskManager} ==>
         role in s.reports && s.reports[role].status == Answered
  }

  /** What a completed run decides, from its final flags, its final reports and what the strategist writes. */
  ghost predicate Decides(s: State, synthesis: Report, persisted: bool, d: Decision) {
    var grounded := Grounded(s) && synthesis.status == Answered && synthesis.quotesHold;
    var action := if s.veto then Veto
                  else if grounded && (synthesis.action in {Buy, Reduce, Exit} ==> !s.blocked) then synthesis.action
                  else Abstain;
    if persisted then
      && d.action == action && d.riskVeto == s.veto
      && (d.blocked <==> s.blocked || action == Veto || action == Abstain)
    else
      d.action == (if action == Veto then Veto else Abstain) && d.riskVeto == (action == Veto) && d.blocked
  }

  /** The reports of a decision: the final ones, and the synthesis, said to derive from all of them. */
  ghost predicate Reports(s: State, synthesis: Report, d: Decision) {
    && d.reports != [] && d.reports[|d.reports| - 1] == synthesis.(derivedFrom := s.reports.Keys)
    && Lists(d.reports[..|d.reports| - 1], s.reports, s.reports.Keys)
  }

  /** Each report of these roles once. */
  ghost predicate Lists(rs: seq<Report>, reports: map<Role, Report>, roles: set<Role>) {
    && (forall i, j :: 0 <= i < j < |rs| ==> rs[i].role != rs[j].role)
    && (forall i :: 0 <= i < |rs| ==>
          rs[i].role in roles && rs[i].role in reports && reports[rs[i].role] == rs[i])
    && (forall role :: role in roles && role in reports ==> ListedAs(rs, role))
  }

  ghost predicate ListedAs(rs: seq<Report>, role: Role) {
    exists i :: 0 <= i < |rs| && rs[i].role == role
  }

  ghost predicate Named(reports: map<Role, Report>) {
    forall role :: role in reports ==> reports[role].role == role
  }

  function RolesIn(roles: seq<Role>): set<Role> {
    set role | role in roles
  }

  lemma {:induction false} ListedExactly(reports: map<Role, Report>, roles: seq<Role>)
    requires Named(reports) && forall i, j :: 0 <= i < j < |roles| ==> roles[i] != roles[j]
    ensures Lists(Listed(reports, roles), reports, RolesIn(roles))
  {
    if roles != [] {
      var init, last := roles[..|roles| - 1], roles[|roles| - 1];
      ListedExactly(reports, init);
      assert roles == init + [last];
      assert last !in init;
      assert RolesIn(roles) == RolesIn(init) + {last};
      ListsOneMore(Listed(reports, init), reports, RolesIn(init), last);
    }
  }

  lemma ListsOneMore(rs: seq<Report>, reports: map<Role, Report>, roles: set<Role>, last: Role)
    requires Named(reports) && Lists(rs, reports, roles) && last !in roles
    ensures Lists(rs + (if last in reports then [reports[last]] else []), reports, roles + {last})
  {
    var all := rs + (if last in reports then [reports[last]] else []);
    forall role | role in roles + {last} && role in reports ensures ListedAs(all, role) {
      if role == last {
        assert all[|rs|].role == last;
      } else {
        assert ListedAs(rs, role);
        var i :| 0 <= i < |rs| && rs[i].role == role;
        assert all[i].role == role;
      }
    }
  }

  lemma {:induction false} VerifiedIsNamed(inp: Inputs, w: World, k: nat)
    ensures Named(VerifiedAfter(inp, w, k).reports)
  {
    if k > 0 {
      VerifiedIsNamed(inp, w, k - 1);
    }
  }

  lemma AllRoles()
    ensures forall role :: role in RolesIn(ROLES)
  {
    forall role ensures role in ROLES {
      match role
      case Fundamental => assert ROLES[0] == role;
      case Sentiment => assert ROLES[1] == role;
      case Technical => assert ROLES[2] == role;
      case Earnings => assert ROLES[3] == role;
      case TranscriptNlp => assert ROLES[4] == role;
      case RiskManager => assert ROLES[5] == role;
      case Strategist => assert ROLES[6] == role;
    }
  }

  lemma SynthesisDecides(s: State, w: World)
    requires Named(s.reports) && (s.veto ==> s.blocked) && (s.issues ==> s.blocked)
    ensures var synthesis := w.write(Strategist, s).(role := Strategist);
            && Decides(s, synthesis, true, Synthesize(s, w))
            && Decides(s, synthesis, false, Unpersisted(Synthesize(s, w)))
            && Reports(s, synthesis, Synthesize(s, w))
  {
    var d := Synthesize(s, w);
    ListedExactly(s.reports, ROLES);
    AllRoles();
    assert d.reports[..|d.reports| - 1] == Listed(s.reports, ROLES);
    hide Listed;
  }

  /**
   The decision of the desk, for every world. When a node on the path raises: the accounting veto or the
   crisis that was supplied, current or not, else abstention, and no reports. Otherwise the veto, or the
   strategist's action if everything is grounded and exposure it takes is not blocked, or abstention.
  */
  lemma DeskDecidesExactly(inp: Inputs, w: World)
    ensures var d := Analyze(inp, w);
            if Completed(inp, w) then
              var s := FinalState(inp, w).(decision := None);
              var synthesis := w.write(Strategist, s).(role := Strategist);
              Decides(s, synthesis, !w.persistenceFails, d) && Reports(s, synthesis, d)
            else
              && d.riskVeto == ((exists p :: inp.portfolio == Some(p) && p.vetoes > 0)
                                || exists m :: inp.hmm == Some(m) && m.crisis)
              && d.action == (if d.riskVeto then Veto else Abstain) && d.blocked && d.reports == []
  {
    if Completed(inp, w) {
      var s := FinalState(inp, w).(decision := None);
      CompletedDecision(inp, w);
      RunIsUnrolled(inp, w);
      VerifiedIsNamed(inp, w, inp.maxRounds);
      assert Named(s.reports);
      SynthesisDecides(s, w);
      hide Execute, Analyze, Synthesize, Decides, Reports, Named, VerifiedAfter;
      assert Reports(s, w.write(Strategist, s).(role := Strategist), Analyze(inp, w)) by {
        UnpersistedKeepsReports(s, w);
      }
    }
  }

  lemma UnpersistedKeepsReports(s: State, w: World)
    ensures var synthesis := w.write(Strategist, s).(role := Strategist);
            Reports(s, synthesis, Unpersisted(Synthesize(s, w))) == Reports(s, synthesis, Synthesize(s, w))
  {
    hide Synthesize;
  }

  // ---------------------------------------------------------------- the consensus rule

  /** The report kept for a role: a later one replaces an earlier one. */
  function ByRole(reports: seq<Report>, role: Role): Option<Report> {
    if reports == [] then None
    else
      var last := reports[|reports| - 1];
      if last.role == role then Some(last) else ByRole(reports[..|reports| - 1], role)
  }

  predicate DistinctRoles(reports: seq<Report>) {
    forall i, j :: 0 <= i < j < |reports| ==> reports[i].role != reports[j].role
  }

  function Votes(reports: seq<Report>, a: Action, roles: seq<Role>): nat {
    if roles == [] then 0
    else
      var report := ByRole(reports, roles[|roles| - 1]);
      Votes(reports, a, roles[..|roles| - 1]) + if report.Some? && report.value.action == a then 1 else 0
  }

  predicate Vetoed(d: Decision) {
    d.riskVeto || d.action == Veto
      || exists i :: 0 <= i < |d.reports| && d.reports[i].role == RiskManager && d.reports[i].action == Veto
  }

  predicate Quorum(d: Decision) {
    && d.action != Abstain && DistinctRoles(d.reports)
    && (forall i :: 0 <= i < |VOTING| ==>
          ByRole(d.reports, VOTING[i]).Some? && ByRole(d.reports, VOTING[i]).value.status == Answered)
    && ByRole(d.reports, Strategist).Some?
    && {Fundamental, Sentiment, Technical, RiskManager} <= ByRole(d.reports, Strategist).value.derivedFrom
  }

  function Consensus(d: Decision, minimum: nat): Option<Action> {
    if minimum < 4 || minimum > |VOTING| then None
    else if Vetoed(d) then Some(Veto)
    else if !Quorum(d) then Some(Abstain)
    else if Votes(d.reports, Buy, VOTING) >= minimum then Some(if d.action == Buy && !d.blocked then Buy else Abstain)
    else if Votes(d.reports, Hold, VOTING) >= minimum then Some(if d.action == Hold then Hold else Abstain)
    else if Votes(d.reports, Reduce, VOTING) >= minimum then Some(if d.action == Reduce then Reduce else Abstain)
    else if Votes(d.reports, Exit, VOTING) >= minimum then Some(if d.action == Exit then Exit else Abstain)
    else Some(Abstain)
  }

  lemma {:induction false} OneVoteEach(reports: seq<Report>, a: Action, b: Action, roles: seq<Role>)
    requires a != b
    ensures Votes(reports, a, roles) + Votes(reports, b, roles) <= |roles|
  {
    if roles != [] {
      OneVoteEach(reports, a, b, roles[..|roles| - 1]);
    }
  }

  /** The roles of a list whose report recommends an action. */
  ghost function Backing(d: Decision, a: Action, roles: seq<Role>): set<Role> {
    set role: Role | role in roles && Recommends(d, role, a)
  }

  ghost predicate Recommends(d: Decision, role: Role, a: Action) {
    exists i :: 0 <= i < |d.reports| && d.reports[i].role == role && d.reports[i].action == a
  }

  /** No veto is on the decision, its own or the risk manager's. */
  ghost predicate Unvetoed(d: Decision) {
    !d.riskVeto && d.action != Veto && !Recommends(d, RiskManager, Veto)
  }

  /** One report of each voting role, all of them answered, and the strategist's derived from the others. */
  ghost predicate Complete(d: Decision) {
    && d.action != Abstain
    && (forall i, j :: 0 <= i < j < |d.reports| ==> d.reports[i].role != d.reports[j].role)
    && (forall role :: role in VOTING ==> Answers(d, role))
    && (forall i :: 0 <= i < |d.reports| && d.reports[i].role == Strategist ==>
          {Fundamental, Sentiment, Technical, RiskManager} <= d.reports[i].derivedFrom)
  }

  ghost predicate Answers(d: Decision, role: Role) {
    exists i :: 0 <= i < |d.reports| && d.reports[i].role == role && d.reports[i].status == Answered
  }

  lemma {:induction false} ByRoleFinds(reports: seq<Report>, role: Role)
    ensures ByRole(reports, role).None? <==> forall i :: 0 <= i < |reports| ==> reports[i].role != role
    ensures ByRole(reports, role).Some? ==>
              exists i :: 0 <= i < |reports| && reports[i] == ByRole(reports, role).value && reports[i].role == role
  {
    if reports != [] {
      ByRoleFinds(reports[..|reports| - 1], role);
      assert reports[|reports| - 1] == reports[|reports| - 1];
    }
  }

  lemma ByRoleIs(d: Decision, i: nat)
    requires DistinctRoles(d.reports) && i < |d.reports|
    ensures ByRole(d.reports, d.reports[i].role) == Some(d.reports[i])
  {
    ByRoleFinds(d.reports, d.reports[i].role);
  }

  lemma QuorumIsComplete(d: Decision)
    ensures Quorum(d) <==> Complete(d)
  {
    if DistinctRoles(d.reports) {
      forall role
        ensures Answers(d, role) <==> ByRole(d.reports, role).Some? && ByRole(d.reports, role).value.status == Answered
      {
        ByRoleFinds(d.reports, role);
        if i :| 0 <= i < |d.reports| && d.reports[i].role == role {
          ByRoleIs(d, i);
        }
      }
      hide ByRole;
      forall i | 0 <= i < |d.reports| ensures ByRole(d.reports, d.reports[i].role) == Some(d.reports[i]) {
        ByRoleIs(d, i);
      }
      assert forall role :: role in VOTING <==> exists i :: 0 <= i < |VOTING| && VOTING[i] == role;
    }
  }

  lemma VoteIs(d: Decision, a: Action, role: Role)
    requires DistinctRoles(d.reports)
    ensures Recommends(d, role, a) <==> ByRole(d.reports, role).Some? && ByRole(d.reports, role).value.action == a
  {
    ByRoleFinds(d.reports, role);
    if i :| 0 <= i < |d.reports| && d.reports[i].role == role {
      ByRoleIs(d, i);
    }
  }

  lemma {:induction false} VotesCount(d: Decision, a: Action, roles: seq<Role>)
    requires DistinctRoles(d.reports) && forall i, j :: 0 <= i < j < |roles| ==> roles[i] != roles[j]
    ensures Votes(d.reports, a, roles) == |Backing(d, a, roles)|
  {
    assert roles == [] ==> Backing(d, a, roles) == {};
    hide DistinctRoles, Recommends, ByRole, Backing;
    if roles != [] {
      var init, last := roles[..|roles| - 1], roles[|roles| - 1];
      VotesCount(d, a, init);
      assert roles == init + [last];
      VoteIs(d, a, last);
      BackingGrows(d, a, init, last);
    }
  }

  lemma BackingGrows(d: Decision, a: Action, init: seq<Role>, last: Role)
    requires last !in init
    ensures |Backing(d, a, init + [last])| == |Backing(d, a, init)| + if Recommends(d, last, a) then 1 else 0
  {
    hide Recommends;
    var more: set<Role> := if Recommends(d, last, a) then {last} else {};
    assert Backing(d, a, init + [last]) == Backing(d, a, init) + more;
    assert Backing(d, a, init) !! more;
  }

  /**
   The order in which actions are tried never matters: an action is the consensus exactly when the desk
   decided it, nothing vetoes it, every voting role answered and enough of them recommend it.
  */
  lemma ConsensusIsExact(d: Decision, minimum: nat, a: Action)
    requires a != Veto && a != Abstain
    ensures Consensus(d, minimum) == Some(a) <==>
              && 4 <= minimum <= 5 && Unvetoed(d) && Complete(d) && |Backing(d, a, VOTING)| >= minimum
              && d.action == a && (a == Buy ==> !d.blocked)
    ensures Consensus(d, minimum) == Some(Veto) <==> 4 <= minimum <= 5 && !Unvetoed(d)
    ensures Consensus(d, minimum).None? <==> !(4 <= minimum <= 5)
  {
    QuorumIsComplete(d);
    if DistinctRoles(d.reports) {
      VotesCount(d, a, VOTING);
    }
    hide Votes, Quorum, Complete;
    forall b | b != a ensures Votes(d.reports, a, VOTING) + Votes(d.reports, b, VOTING) <= 5 {
      OneVoteEach(d.reports, a, b, VOTING);
    }
    assert Quorum(d) ==> DistinctRoles(d.reports) by {
      QuorumIsDistinct(d);
    }
    assert Votes(d.reports, a, VOTING) >= minimum >= 4 ==> forall b :: b != a ==> Votes(d.reports, b, VOTING) < minimum;
  }

  lemma QuorumIsDistinct(d: Decision)
    ensures Quorum(d) ==> DistinctRoles(d.reports)
  {
  }

  /** End to end: a binding veto is the consensus, and consensus never takes exposure the desk did not. */
  lemma ConsensusRespectsTheDesk(inp: Inputs, w: World, minimum: nat)
    requires 4 <= minimum <= 5
    ensures BindingVeto(inp) ==> Consensus(Analyze(inp, w), minimum) == Some(Veto)
    ensures Obstructed(inp, w) ==> !TakesExposure(Consensus(Analyze(inp, w), minimum).value)
  {
    var d := Analyze(inp, w);
    if BindingVeto(inp) {
      BindingVetoHolds(inp, w);
    }
    if Obstructed(inp, w) {
      BlockedExposureIsNeverTaken(inp, w);
      ConsensusIsExact(d, minimum, Buy);
      ConsensusIsExact(d, minimum, Reduce);
      ConsensusIsExact(d, minimum, Exit);
    }
    hide Analyze, Votes, Quorum;
  }
}
