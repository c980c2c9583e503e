/**
 The random selection control of a callback benchmark: every slot of the
 baseline's target is given another eligible instrument of the same asset class.

 The random choice is an arbitrary sampler. The class of an instrument is its
 recorded identity's, an arbitrary function here.
*/
module CallbackControl {
  import opened Totals
  import opened Basics

  /** The instrument each slot of the baseline is mapped to. */
  type Allocation = map<Id, Id>

  datatype Target = Target(weights: map<Id, real>, preserve: map<Id, real>)

  datatype Row = Row(at: Time, eligible: set<Id>, rebalanceDue: bool)

  datatype Refusal = PassiveWithoutAllocation | AllocationOffCadence | TooFewCandidates | LeftUniverse

  datatype Step = Refused(why: Refusal) | Chosen(next: Allocation, varied: bool)

  datatype Plan = NoTarget | Plan(target: Target, allocation: Allocation, passive: set<Id>)

  type Classes = Id -> nat

  /** A draw without replacement: which candidate each slot gets, given what the row has drawn before. */
  type Sampler = (Time, Allocation, set<Id>, set<Id>) -> Allocation

  ghost predicate Injective(a: Allocation) {
    forall k, l :: k in a && l in a && k != l ==> a[k] != a[l]
  }

  ghost predicate ClassPreserving(a: Allocation, cls: Classes) {
    forall k :: k in a ==> cls(a[k]) == cls(k)
  }

  ghost predicate Draws(r: Allocation, slots: set<Id>, candidates: set<Id>) {
    r.Keys == slots && r.Values <= candidates && Injective(r)
  }

  ghost predicate Samples(draw: Sampler) {
    forall at, a, slots, candidates ::
      |slots| <= |candidates| ==> Draws(draw(at, a, slots, candidates), slots, candidates)
  }

  function Active(t: Target): set<Id> {
    set k | k in t.weights && t.weights[k] > 0.0 && k !in t.preserve
  }

  /** Passive slots keep their instrument. */
  function Kept(m: Allocation, t: Target): Allocation {
    map k | k in m && k in t.preserve :: m[k]
  }

  function OfClass(ids: set<Id>, cls: Classes, c: nat): set<Id> {
    set k | k in ids && cls(k) == c
  }

  function ClassesOf(ids: set<Id>, cls: Classes): set<nat> {
    set k | k in ids :: cls(k)
  }

  function Candidates(eligible: set<Id>, taken: Allocation, cls: Classes, c: nat): set<Id> {
    OfClass(eligible, cls, c) - taken.Values
  }

  /** One class after the other, in order. */
  function Assign(row: Row, active: set<Id>, cls: Classes, draw: Sampler, classes: set<nat>, next: Allocation,
                  varied: bool): Step
    decreases |classes|
  {
    if classes == {} then Chosen(next, varied)
    else
      var c := Min(classes);
      var slots, candidates := OfClass(active, cls, c), Candidates(row.eligible, next, cls, c);
      if |candidates| < |slots| then Refused(TooFewCandidates)
      else
        Assign(row, active, cls, draw, classes - {c}, next + draw(row.at, next, slots, candidates),
               varied || |candidates| > |slots| || |slots| > 1)
  }

  function Allocate(m: Allocation, row: Row, t: Target, cls: Classes, draw: Sampler): Step {
    var active, kept := Active(t), Kept(m, t);
    if exists k :: k in t.preserve && k !in m && t.preserve[k] > 0.0 then Refused(PassiveWithoutAllocation)
    else if row.rebalanceDue then Assign(row, active, cls, draw, ClassesOf(active, cls), kept, false)
    else if !(active <= m.Keys) then Refused(AllocationOffCadence)
    else Chosen(kept + (map k | k in active :: m[k]), false)
  }

  /** One decision row of the control. */
  function Select(m: Allocation, row: Row, t: Target, cls: Classes, draw: Sampler): Step {
    var s := Allocate(m, row, t, cls, draw);
    if s.Chosen? && exists k :: k in Active(t) && k in s.next && s.next[k] !in row.eligible
    then Refused(LeftUniverse)
    else s
  }

  method AssignClasses(row: Row, active: set<Id>, cls: Classes, draw: Sampler, kept: Allocation) returns (s: Step)
    ensures s == Assign(row, active, cls, draw, ClassesOf(active, cls), kept, false)
  {
    var classes, next, varied := ClassesOf(active, cls), kept, false;
    while classes != {}
      invariant Assign(row, active, cls, draw, classes, next, varied)
             == Assign(row, active, cls, draw, ClassesOf(active, cls), kept, false)
      decreases |classes|
    {
      var c := Min(classes);
      var slots := set k | k in active && cls(k) == c;
      var candidates := set k | k in row.eligible && cls(k) == c && k !in next.Values;
      assert candidates == Candidates(row.eligible, next, cls, c);
      if |candidates| < |slots| {
        return Refused(TooFewCandidates);
      }
      varied := varied || |candidates| > |slots| || |slots| > 1;
      next := next + draw(row.at, next, slots, candidates);
      classes := classes - {c};
    }
    return Chosen(next, varied);
  }

  method SelectRow(m: Allocation, row: Row, t: Target, cls: Classes, draw: Sampler) returns (s: Step)
    ensures s == Select(m, row, t, cls, draw)
  {
    var passive := t.preserve.Keys;
    var next, varied := Kept(m, t), false;
    if exists k :: k in passive && k !in m && t.preserve[k] > 0.0 {
      return Refused(PassiveWithoutAllocation);
    }
    var active := Active(t);
    if !row.rebalanceDue {
      if !(active <= m.Keys) {
        return Refused(AllocationOffCadence);
      }
      next := next + (map k | k in active :: m[k]);
    } else {
      var drawn := AssignClasses(row, active, cls, draw, next);
      if drawn.Refused? {
        return drawn;
      }
      next, varied := drawn.next, drawn.varied;
    }
    assert Chosen(next, varied) == Allocate(m, row, t, cls, draw);
    if exists k :: k in active && k in next && next[k] !in row.eligible {
      return Refused(LeftUniverse);
    }
    return Chosen(next, varied);
  }

  // ---------------------------------------------------------------- a run over all rows

  datatype Control = Control(mapping: Allocation, plans: seq<Plan>, varied: bool)

  /** What one more row makes of a control. */
  function Extended(c: Option<Control>, r: (Row, Option<Target>), cls: Classes, draw: Sampler): Option<Control> {
    if c.None? then None
    else if r.1.None? then Some(c.value.(plans := c.value.plans + [NoTarget]))
    else
      var s := Select(c.value.mapping, r.0, r.1.value, cls, draw);
      if s.Refused? then None
      else
        Some(Control(s.next, c.value.plans + [Plan(r.1.value, s.next, r.1.value.preserve.Keys)],
                     c.value.varied || s.varied))
  }

  function Rows(rows: seq<(Row, Option<Target>)>, cls: Classes, draw: Sampler): Option<Control> {
    if rows == [] then Some(Control(map[], [], false))
    else Extended(Rows(rows[..|rows| - 1], cls, draw), rows[|rows| - 1], cls, draw)
  }

  method PlanAll(rows: seq<(Row, Option<Target>)>, cls: Classes, draw: Sampler) returns (c: Option<Control>)
    ensures c == Rows(rows, cls, draw)
  {
    var mapping: Allocation, plans, varied := map[], [], false;
    for i := 0 to |rows|
      invariant Rows(rows[..i], cls, draw) == Some(Control(mapping, plans, varied))
    {
      assert rows[..i + 1][..i] == rows[..i];
      var (row, target) := rows[i];
      if target.None? {
        plans := plans + [NoTarget];
      } else {
        var s := SelectRow(mapping, row, target.value, cls, draw);
        if s.Refused? {
          RefusalStops(rows, cls, draw, i + 1);
          return None;
        }
        mapping, varied := s.next, varied || s.varied;
        plans := plans + [Plan(target.value, mapping, target.value.preserve.Keys)];
      }
    }
    assert rows[..|rows|] == rows;
    return Some(Control(mapping, plans, varied));
  }

  lemma {:induction false} RefusalStops(rows: seq<(Row, Option<Target>)>, cls: Classes, draw: Sampler, i: nat)
    requires i <= |rows| && Rows(rows[..i], cls, draw).None?
    ensures Rows(rows, cls, draw).None?
    decreases |rows|
  {
    if i < |rows| {
      assert rows[..|rows| - 1][..i] == rows[..i];
      RefusalStops(rows[..|rows| - 1], cls, draw, i);
    } else {
      assert rows[..i] == rows;
    }
  }

  // ---------------------------------------------------------------- what a row keeps

  ghost predicate Sound(a: Allocation, cls: Classes) {
    Injective(a) && ClassPreserving(a, cls)
  }

  /** Extending by a draw from the free candidates of one class. */
  lemma DrawKeepsSound(next: Allocation, r: Allocation, cls: Classes, c: nat, active: set<Id>, eligible: set<Id>)
    requires Sound(next, cls) && next.Keys !! OfClass(active, cls, c)
    requires Draws(r, OfClass(active, cls, c), Candidates(eligible, next, cls, c))
    ensures Sound(next + r, cls)
  {
    forall k | k in r ensures r[k] in Candidates(eligible, next, cls, c) && k in OfClass(active, cls, c) {
      assert r[k] in r.Values && k in r.Keys;
    }
    forall k | k in next ensures next[k] in next.Values {
    }
  }

  lemma {:induction false} AssignIsSound(row: Row, active: set<Id>, cls: Classes, draw: Sampler, classes: set<nat>,
                                         next: Allocation, varied: bool)
    requires Samples(draw) && Sound(next, cls)
    requires forall k :: k in next && k in active ==> cls(k) !in classes
    requires Assign(row, active, cls, draw, classes, next, varied).Chosen?
    ensures var final := Assign(row, active, cls, draw, classes, next, varied).next;
            && Sound(final, cls)
            && final.Keys == next.Keys + (set k | k in active && cls(k) in classes)
            && (forall k :: k in next ==> final[k] == next[k])
            && (forall k :: k in active && cls(k) in classes ==> final[k] in row.eligible && final[k] !in next.Values)
    decreases |classes|
  {
    hide Samples, Draws, OfClass, Candidates, Sound;
    if classes != {} {
      var c := Min(classes);
      var slots, candidates := OfClass(active, cls, c), Candidates(row.eligible, next, cls, c);
      var r := draw(row.at, next, slots, candidates);
      DrawIsApart(row, active, cls, draw, classes, next);
      DrawKeepsSound(next, r, cls, c, active, row.eligible);
      var varied' := varied || |candidates| > |slots| || |slots| > 1;
      AssignIsSound(row, active, cls, draw, classes - {c}, next + r, varied');
      DrawnFirst(row, active, cls, classes, c, next, r,
                 Assign(row, active, cls, draw, classes - {c}, next + r, varied').next);
    }
  }

  lemma DrawnFirst(row: Row, active: set<Id>, cls: Classes, classes: set<nat>, c: nat, next: Allocation, r: Allocation,
                   final: Allocation)
    requires c in classes && Draws(r, OfClass(active, cls, c), Candidates(row.eligible, next, cls, c))
    requires forall k :: k in next && k in active ==> cls(k) !in classes
    requires final.Keys == (next + r).Keys + (set k | k in active && cls(k) in classes - {c})
    requires forall k :: k in next + r ==> final[k] == (next + r)[k]
    requires forall k ::
               k in active && cls(k) in classes - {c} ==> final[k] in row.eligible && final[k] !in (next + r).Values
    ensures final.Keys == next.Keys + (set k | k in active && cls(k) in classes)
    ensures forall k :: k in next ==> final[k] == next[k]
    ensures forall k :: k in active && cls(k) in classes ==> final[k] in row.eligible && final[k] !in next.Values
  {
    forall k | k in r ensures r[k] in row.eligible && r[k] !in next.Values && k in active && cls(k) == c {
      assert r[k] in r.Values && k in r.Keys;
    }
    forall k | k in next ensures k !in r && next[k] in (next + r).Values {
      assert (next + r)[k] == next[k];
    }
    forall k | k in active && cls(k) in classes ensures final[k] in row.eligible && final[k] !in next.Values {
      if cls(k) == c {
        assert k in OfClass(active, cls, c);
        assert final[k] == r[k];
      }
    }
  }

  /** What a row accepted off the cadence does: it forgets, and never moves, an allocation. */
  lemma OffCadenceKeeps(m: Allocation, row: Row, t: Target, cls: Classes, draw: Sampler)
    requires !row.rebalanceDue && Sound(m, cls) && Allocate(m, row, t, cls, draw).Chosen?
    ensures var next := Allocate(m, row, t, cls, draw).next;
            && Sound(next, cls)
            && next.Keys == (m.Keys * t.preserve.Keys) + Active(t)
            && forall k :: k in next ==> k in m && next[k] == m[k]
  {
  }

  lemma OnCadenceKeeps(m: Allocation, row: Row, t: Target, cls: Classes, draw: Sampler)
    requires row.rebalanceDue && Samples(draw) && Sound(m, cls) && Allocate(m, row, t, cls, draw).Chosen?
    ensures var next := Allocate(m, row, t, cls, draw).next;
            && Sound(next, cls)
            && next.Keys == (m.Keys * t.preserve.Keys) + Active(t)
            && (forall k :: k in m && k in t.preserve ==> next[k] == m[k])
            && (forall k :: k in Active(t) ==> next[k] in row.eligible)
  {
    var active, kept := Active(t), Kept(m, t);
    var classes := ClassesOf(active, cls);
    KeptIsSound(m, t, cls);
    ClassesCover(active, cls);
    hide Assign, Samples, Injective, ClassPreserving, Active, Kept, ClassesOf;
    AssignIsSound(row, active, cls, draw, classes, kept, false);
    var next := Assign(row, active, cls, draw, classes, kept, false).next;
    forall k | k in m && k in t.preserve ensures next[k] == m[k] {
      assert k in kept;
    }
  }

  lemma KeptIsSound(m: Allocation, t: Target, cls: Classes)
    requires Sound(m, cls)
    ensures Sound(Kept(m, t), cls) && Kept(m, t).Keys == m.Keys * t.preserve.Keys
    ensures forall k :: k in Kept(m, t) ==> Kept(m, t)[k] == m[k] && k !in Active(t)
  {
  }

  lemma ClassesCover(active: set<Id>, cls: Classes)
    ensures forall k :: k in active ==> cls(k) in ClassesOf(active, cls)
    ensures active == set k | k in active && cls(k) in ClassesOf(active, cls)
  {
  }

  /** What an accepted row does to the mapping. */
  lemma SelectIsSound(m: Allocation, row: Row, t: Target, cls: Classes, draw: Sampler)
    requires Samples(draw) && Sound(m, cls) && Select(m, row, t, cls, draw).Chosen?
    ensures var next := Select(m, row, t, cls, draw).next;
            && Sound(next, cls)
            && next.Keys == (m.Keys * t.preserve.Keys) + Active(t)
            && (forall k :: k in m && k in t.preserve ==> next[k] == m[k])
            && (forall k :: k in Active(t) ==> next[k] in row.eligible)
            && (!row.rebalanceDue ==> forall k :: k in Active(t) ==> k in m && next[k] == m[k])
  {
    hide Allocate, Sound, Samples;
    if row.rebalanceDue {
      OnCadenceKeeps(m, row, t, cls, draw);
    } else {
      OffCadenceKeeps(m, row, t, cls, draw);
    }
  }

  /** Whether a rebalance has enough candidates does not depend on the draw. */
  lemma {:induction false} AssignSucceedsExactly(row: Row, active: set<Id>, cls: Classes, draw: Sampler,
                                                 classes: set<nat>, next: Allocation, varied: bool)
    requires Samples(draw) && forall k :: k in next && k in active ==> cls(k) !in classes
    ensures Assign(row, active, cls, draw, classes, next, varied).Chosen? <==>
            EnoughFor(row, active, cls, classes, next)
    decreases |classes|
  {
    hide Samples, OfClass, Candidates;
    if classes != {} {
      var c := Min(classes);
      var slots, candidates := OfClass(active, cls, c), Candidates(row.eligible, next, cls, c);
      if |slots| <= |candidates| {
        DrawIsApart(row, active, cls, draw, classes, next);
        var r := draw(row.at, next, slots, candidates);
        AssignSucceedsExactly(row, active, cls, draw, classes - {c}, next + r,
                              varied || |candidates| > |slots| || |slots| > 1);
        EnoughForRest(row, active, cls, classes, c, next, r);
      } else {
        assert !EnoughClass(row, active, cls, c, next);
      }
    }
  }

  /** The draw for a class maps slots that are not mapped yet. */
  lemma DrawIsApart(row: Row, active: set<Id>, cls: Classes, draw: Sampler, classes: set<nat>, next: Allocation)
    requires Samples(draw) && classes != {} && forall k :: k in next && k in active ==> cls(k) !in classes
    requires var slots, candidates := OfClass(active, cls, Min(classes)),
                                      Candidates(row.eligible, next, cls, Min(classes));
             |slots| <= |candidates|
    ensures var slots, candidates := OfClass(active, cls, Min(classes)),
                                     Candidates(row.eligible, next, cls, Min(classes));
            var r := draw(row.at, next, slots, candidates);
            && Draws(r, slots, candidates) && next.Keys !! r.Keys
            && forall k :: k in next + r && k in active ==> cls(k) !in classes - {Min(classes)}
  {
    var slots, candidates := OfClass(active, cls, Min(classes)), Candidates(row.eligible, next, cls, Min(classes));
    var r := draw(row.at, next, slots, candidates);
    assert Draws(r, slots, candidates);
    assert forall k :: k in r ==> k in r.Keys;
  }

  predicate EnoughClass(row: Row, active: set<Id>, cls: Classes, c: nat, next: Allocation) {
    |OfClass(active, cls, c)| <= |Candidates(row.eligible, next, cls, c)|
  }

  predicate EnoughFor(row: Row, active: set<Id>, cls: Classes, classes: set<nat>, next: Allocation) {
    forall c :: c in classes ==> EnoughClass(row, active, cls, c, next)
  }

  lemma EnoughForRest(row: Row, active: set<Id>, cls: Classes, classes: set<nat>, c: nat, next: Allocation,
                      r: Allocation)
    requires c in classes && EnoughClass(row, active, cls, c, next)
    requires Draws(r, OfClass(active, cls, c), Candidates(row.eligible, next, cls, c)) && next.Keys !! r.Keys
    ensures EnoughFor(row, active, cls, classes, next) <==> EnoughFor(row, active, cls, classes - {c}, next + r)
  {
    forall d | d in classes && d != c
      ensures EnoughClass(row, active, cls, d, next + r) <==> EnoughClass(row, active, cls, d, next)
    {
      OtherClassesUntouched(row.eligible, next, r, cls, c, d, OfClass(active, cls, c));
    }
    hide EnoughClass;
    if EnoughFor(row, active, cls, classes - {c}, next + r) {
      forall d | d in classes ensures EnoughClass(row, active, cls, d, next) {
        assert d == c || EnoughClass(row, active, cls, d, next + r);
      }
    }
  }

  /** A draw in one class leaves the candidates of every other class. */
  lemma OtherClassesUntouched(eligible: set<Id>, next: Allocation, r: Allocation, cls: Classes, c: nat, d: nat,
                              slots: set<Id>)
    requires c != d && Draws(r, slots, Candidates(eligible, next, cls, c))
    requires next.Keys !! r.Keys
    ensures Candidates(eligible, next + r, cls, d) == Candidates(eligible, next, cls, d)
  {
    assert (next + r).Values == next.Values + r.Values by {
      forall v | v in next.Values ensures v in (next + r).Values {
        var k :| k in next && next[k] == v;
        assert (next + r)[k] == v;
      }
      forall v | v in r.Values ensures v in (next + r).Values {
        var k :| k in r && r[k] == v;
        assert (next + r)[k] == v;
      }
    }
  }

  /** A row is accepted exactly when these four conditions hold, whatever is drawn. */
  lemma SelectAcceptsExactly(m: Allocation, row: Row, t: Target, cls: Classes, draw: Sampler)
    requires Samples(draw) && Sound(m, cls)
    ensures Select(m, row, t, cls, draw).Chosen? <==>
              && (forall k :: k in t.preserve && k !in m ==> t.preserve[k] <= 0.0)
              && if row.rebalanceDue then EnoughFor(row, Active(t), cls, ClassesOf(Active(t), cls), Kept(m, t))
                 else Active(t) <= m.Keys && forall k :: k in Active(t) ==> m[k] in row.eligible
  {
    if row.rebalanceDue {
      AssignSucceedsExactly(row, Active(t), cls, draw, ClassesOf(Active(t), cls), Kept(m, t), false);
      if Allocate(m, row, t, cls, draw).Chosen? {
        OnCadenceKeeps(m, row, t, cls, draw);
      }
    } else if Allocate(m, row, t, cls, draw).Chosen? {
      OffCadenceKeeps(m, row, t, cls, draw);
    }
  }

  /** Why a row is refused: the first of these that holds. */
  lemma RefusalsAreExact(m: Allocation, row: Row, t: Target, cls: Classes, draw: Sampler)
    requires Samples(draw) && Sound(m, cls) && Select(m, row, t, cls, draw).Refused?
    ensures var why := Select(m, row, t, cls, draw).why;
            if exists k :: k in t.preserve && k !in m && t.preserve[k] > 0.0 then why == PassiveWithoutAllocation
            else if row.rebalanceDue then
              why == TooFewCandidates && !EnoughFor(row, Active(t), cls, ClassesOf(Active(t), cls), Kept(m, t))
            else if exists k :: k in Active(t) && k !in m then why == AllocationOffCadence
            else why == LeftUniverse && exists k :: k in Active(t) && m[k] !in row.eligible
  {
    hide Assign, Samples, Sound, EnoughFor, Kept, Active, ClassesOf;
    KeptIsSound(m, t, cls);
    if row.rebalanceDue {
      AssignSucceedsExactly(row, Active(t), cls, draw, ClassesOf(Active(t), cls), Kept(m, t), false);
      AssignRefuses(row, Active(t), cls, draw, ClassesOf(Active(t), cls), Kept(m, t), false);
      if Allocate(m, row, t, cls, draw).Chosen? {
        OnCadenceKeeps(m, row, t, cls, draw);
      }
    } else if Allocate(m, row, t, cls, draw).Chosen? {
      OffCadenceKeeps(m, row, t, cls, draw);
    }
  }

  lemma {:induction false} AssignRefuses(row: Row, active: set<Id>, cls: Classes, draw: Sampler, classes: set<nat>,
                                         next: Allocation, varied: bool)
    ensures var s := Assign(row, active, cls, draw, classes, next, varied); s.Refused? ==> s.why == TooFewCandidates
    decreases |classes|
  {
    if classes != {} {
      var c := Min(classes);
      var slots, candidates := OfClass(active, cls, c), Candidates(row.eligible, next, cls, c);
      AssignRefuses(row, active, cls, draw, classes - {c}, next + draw(row.at, next, slots, candidates),
                    varied || |candidates| > |slots| || |slots| > 1);
    }
  }

  // ---------------------------------------------------------------- over every sequence of rows

  /** After any accepted rows no two slots share an instrument and every slot keeps its asset class. */
  lemma {:induction false} MappingStaysSound(rows: seq<(Row, Option<Target>)>, cls: Classes, draw: Sampler)
    requires Samples(draw) && Rows(rows, cls, draw).Some?
    ensures var c := Rows(rows, cls, draw).value;
            && Sound(c.mapping, cls)
            && |c.plans| == |rows|
            && forall i :: 0 <= i < |rows| ==> PlanFits(c.plans[i], rows[i], cls)
  {
    if rows != [] {
      var init, target := rows[..|rows| - 1], rows[|rows| - 1].1;
      MappingStaysSound(init, cls, draw);
      hide Samples, Sound, Select;
      if target.Some? {
        hide PlanFits;
        SelectFits(Rows(init, cls, draw).value.mapping, rows[|rows| - 1].0, target.value, cls, draw);
      }
    }
  }

  lemma SelectFits(m: Allocation, row: Row, t: Target, cls: Classes, draw: Sampler)
    requires Samples(draw) && Sound(m, cls) && Select(m, row, t, cls, draw).Chosen?
    ensures var next := Select(m, row, t, cls, draw).next;
            Sound(next, cls) && PlanFits(Plan(t, next, t.preserve.Keys), (row, Some(t)), cls)
  {
    SelectIsSound(m, row, t, cls, draw);
  }

  /** A plan maps all active slots and only slots of its own target. */
  ghost predicate PlanFits(p: Plan, row: (Row, Option<Target>), cls: Classes) {
    match row.1
    case None => p.NoTarget?
    case Some(t) =>
      && p.Plan? && p.target == t && p.passive == t.preserve.Keys
      && Sound(p.allocation, cls)
      && (forall k :: k in t.weights && t.weights[k] > 0.0 && k !in t.preserve ==>
            k in p.allocation && p.allocation[k] in row.0.eligible)
      && forall k :: k in p.allocation ==> k in t.preserve || (k in t.weights && t.weights[k] > 0.0)
  }

  /** The rows that have a target, in order. */
  function Targeted(rows: seq<(Row, Option<Target>)>): seq<(Row, Option<Target>)> {
    if rows == [] then []
    else
      var last := rows[|rows| - 1];
      Targeted(rows[..|rows| - 1]) + (if last.1.Some? then [last] else [])
  }

  /** The plans that have a target, in order. */
  function Planned(plans: seq<Plan>): seq<Plan> {
    if plans == [] then []
    else
      var last := plans[|plans| - 1];
      Planned(plans[..|plans| - 1]) + (if last.Plan? then [last] else [])
  }

  /** The same control up to rows without a target. */
  ghost predicate Agree(x: Option<Control>, y: Option<Control>) {
    && (x.Some? <==> y.Some?)
    && (x.Some? ==>
          && x.value.mapping == y.value.mapping && x.value.varied == y.value.varied
          && Planned(x.value.plans) == Planned(y.value.plans))
  }

  lemma RowsExtend(rows: seq<(Row, Option<Target>)>, r: (Row, Option<Target>), cls: Classes, draw: Sampler)
    ensures Rows(rows + [r], cls, draw) == Extended(Rows(rows, cls, draw), r, cls, draw)
  {
    hide Select;
    assert (rows + [r])[..|rows|] == rows;
  }

  lemma ExtendedAlike(x: Option<Control>, y: Option<Control>, r: (Row, Option<Target>), cls: Classes, draw: Sampler)
    requires Agree(x, y)
    ensures Agree(Extended(x, r, cls, draw), if r.1.Some? then Extended(y, r, cls, draw) else y)
  {
    hide Select, Planned;
    if x.Some? {
      PlannedOneMore(x.value.plans, NoTarget);
      if r.1.Some? {
        var s := Select(x.value.mapping, r.0, r.1.value, cls, draw);
        if s.Chosen? {
          PlannedOneMore(x.value.plans, Plan(r.1.value, s.next, r.1.value.preserve.Keys));
          PlannedOneMore(y.value.plans, Plan(r.1.value, s.next, r.1.value.preserve.Keys));
        }
      }
    }
  }

  /** Rows without a target change nothing: the control is the one of the rows that have one. */
  lemma {:induction false} TargetlessRowsChangeNothing(rows: seq<(Row, Option<Target>)>, cls: Classes, draw: Sampler)
    ensures Agree(Rows(rows, cls, draw), Rows(Targeted(rows), cls, draw))
  {
    if rows != [] {
      hide Rows, Agree, Extended;
      var init, last := rows[..|rows| - 1], rows[|rows| - 1];
      TargetlessRowsChangeNothing(init, cls, draw);
      assert rows == init + [last];
      RowsExtend(init, last, cls, draw);
      RowsExtend(Targeted(init), last, cls, draw);
      ExtendedAlike(Rows(init, cls, draw), Rows(Targeted(init), cls, draw), last, cls, draw);
      assert last.1.None? ==> Targeted(rows) == Targeted(init);
    }
  }

  lemma PlannedOneMore(plans: seq<Plan>, p: Plan)
    ensures Planned(plans + [p]) == Planned(plans) + (if p.Plan? then [p] else [])
  {
    assert (plans + [p])[..|plans|] == plans;
  }

  lemma {:induction false} TargetedJoins(x: seq<(Row, Option<Target>)>, y: seq<(Row, Option<Target>)>)
    ensures Targeted(x + y) == Targeted(x) + Targeted(y)
  {
    if y == [] {
      assert x + y == x;
    } else {
      assert (x + y)[..|x + y| - 1] == x + y[..|y| - 1];
      TargetedJoins(x, y[..|y| - 1]);
    }
  }

  /** A row without a target, inserted anywhere: the same acceptance, mapping, variation and plans with a target. */
  lemma InsertedRowChangesNothing(x: seq<(Row, Option<Target>)>, row: Row, y: seq<(Row, Option<Target>)>, cls: Classes,
                                  draw: Sampler)
    ensures Agree(Rows(x + [(row, None)] + y, cls, draw), Rows(x + y, cls, draw))
  {
    hide Rows, Planned;
    var added: seq<(Row, Option<Target>)> := [(row, None)];
    TargetlessRowsChangeNothing(x + added + y, cls, draw);
    TargetlessRowsChangeNothing(x + y, cls, draw);
    TargetedJoins(x + added, y);
    TargetedJoins(x, added);
    assert added[..0] == [];
    assert Targeted(added) == [];
    TargetedJoins(x, y);
    assert Targeted(x + added + y) == Targeted(x + y);
  }

  /**
   A row with a target goes on from the mapping before it: it is accepted exactly when these conditions
   hold of that mapping, whatever is drawn, and its plan is the new mapping.
  */
  lemma NextRowAccepted(rows: seq<(Row, Option<Target>)>, cls: Classes, draw: Sampler, row: Row, t: Target)
    requires Samples(draw)
    ensures Rows(rows, cls, draw).None? ==> Rows(rows + [(row, Some(t))], cls, draw).None?
    ensures Rows(rows, cls, draw).Some? ==>
              var b, next := Rows(rows, cls, draw).value, Rows(rows + [(row, Some(t))], cls, draw);
              var m := b.mapping;
              && (next.Some? <==>
                    && (forall k :: k in t.preserve && k !in m ==> t.preserve[k] <= 0.0)
                    && if row.rebalanceDue then EnoughFor(row, Active(t), cls, ClassesOf(Active(t), cls), Kept(m, t))
                       else Active(t) <= m.Keys && forall k :: k in Active(t) ==> m[k] in row.eligible)
              && (next.Some? ==>
                    next.value.plans == b.plans + [Plan(t, next.value.mapping, t.preserve.Keys)]
                    && (b.varied ==> next.value.varied) && (!row.rebalanceDue ==> next.value.varied == b.varied))
  {
    assert (rows + [(row, Some(t))])[..|rows|] == rows;
    if Rows(rows, cls, draw).Some? {
      MappingStaysSound(rows, cls, draw);
      SelectAcceptsExactly(Rows(rows, cls, draw).value.mapping, row, t, cls, draw);
      hide EnoughFor, Assign, Samples;
    }
  }

  /** Off the cadence every active slot keeps the instrument it had. */
  lemma OffCadenceNeverRotates(rows: seq<(Row, Option<Target>)>, cls: Classes, draw: Sampler, row: Row, t: Target)
    requires Samples(draw) && !row.rebalanceDue && Rows(rows + [(row, Some(t))], cls, draw).Some?
    ensures Rows(rows, cls, draw).Some?
    ensures var before, after := Rows(rows, cls, draw).value.mapping,
                                 Rows(rows + [(row, Some(t))], cls, draw).value.mapping;
            forall k :: k in after ==> k in before && after[k] == before[k]
  {
    assert (rows + [(row, Some(t))])[..|rows|] == rows;
    MappingStaysSound(rows, cls, draw);
    OffCadenceKeeps(Rows(rows, cls, draw).value.mapping, row, t, cls, draw);
  }

  // ---------------------------------------------------------------- the control's target

  datatype Position = Position(quantity: real, marketValue: real)

  /** The weight each instrument of the control gets, written slot by slot. */
  function Weight(p: Plan, held: map<Id, Position>, nav: real, slot: Id): real
    requires p.Plan? && (held != map[] ==> nav != 0.0) && slot in p.allocation
             && (slot in p.passive || slot in p.target.weights)
  {
    if slot in p.passive then
      if p.allocation[slot] in held then held[p.allocation[slot]].marketValue / nav else 0.0
    else p.target.weights[slot]
  }

  ghost predicate Represents(p: Plan, held: map<Id, Position>, nav: real, weights: map<Id, real>, slots: set<Id>)
    requires p.Plan? && (held != map[] ==> nav != 0.0)
  {
    && slots <= p.allocation.Keys
    && weights.Keys == (set k | k in slots :: p.allocation[k])
    && forall k ::
         k in slots && (k in p.passive || k in p.target.weights) ==> weights[p.allocation[k]] == Weight(p, held, nav, k)
  }

  /** The target of the control at one decision: weights by instrument, and the quantities it preserves. */
  method Provide(p: Plan, held: map<Id, Position>, nav: real) returns (weights: map<Id, real>, preserved: map<Id, real>)
    requires p.Plan? && (held != map[] ==> nav != 0.0) && Injective(p.allocation)
    requires forall k :: k in p.allocation ==> k in p.passive || k in p.target.weights
    ensures Represents(p, held, nav, weights, p.allocation.Keys)
    ensures preserved.Keys == (set k | k in p.allocation && k in p.passive :: p.allocation[k])
    ensures forall v :: v in preserved ==> preserved[v] == if v in held then held[v].quantity else 0.0
  {
    var todo := p.allocation.Keys;
    weights, preserved := map[], map[];
    while todo != {}
      invariant todo <= p.allocation.Keys
      invariant Represents(p, held, nav, weights, p.allocation.Keys - todo)
      invariant preserved.Keys == (set k | k in p.allocation && k in p.passive && k !in todo :: p.allocation[k])
      invariant forall v :: v in preserved ==> preserved[v] == if v in held then held[v].quantity else 0.0
      decreases |todo|
    {
      var slot := Min(todo);
      var key := p.allocation[slot];
      ghost var before, done := weights, p.allocation.Keys - todo;
      if slot in p.passive {
        preserved := preserved[key := if key in held then held[key].quantity else 0.0];
        weights := weights[key := if key in held then held[key].marketValue / nav else 0.0];
      } else {
        weights := weights[key := p.target.weights[slot]];
      }
      OneMoreSlot(p, held, nav, before, weights, done, slot);
      todo := todo - {slot};
      assert p.allocation.Keys - todo == done + {slot};
    }
  }

  lemma OneMoreSlot(p: Plan, held: map<Id, Position>, nav: real, before: map<Id, real>, after: map<Id, real>,
                    done: set<Id>, slot: Id)
    requires p.Plan? && (held != map[] ==> nav != 0.0) && Injective(p.allocation)
    requires Represents(p, held, nav, before, done) && slot in p.allocation && slot !in done
    requires slot in p.passive || slot in p.target.weights
    requires after == before[p.allocation[slot] := Weight(p, held, nav, slot)]
    ensures Represents(p, held, nav, after, done + {slot})
  {
    hide Weight;
  }

  /** A passive slot weighs what the control itself holds of its instrument, as a share of its own NAV. */
  lemma PassiveWeightsFollowHoldings(p: Plan, held: map<Id, Position>, nav: real, weights: map<Id, real>, slot: Id)
    requires p.Plan? && nav != 0.0 && Represents(p, held, nav, weights, p.allocation.Keys)
    requires slot in p.allocation && slot in p.passive
    ensures p.allocation[slot] in weights
    ensures weights[p.allocation[slot]] * nav
            == if p.allocation[slot] in held then held[p.allocation[slot]].marketValue else 0.0
  {
    assert weights[p.allocation[slot]] == Weight(p, held, nav, slot);
  }

  // ---------------------------------------------------------------- budgets

  ghost function In(weights: map<Id, real>): Id -> real {
    (id: Id) => if id in weights then weights[id] else 0.0
  }

  ghost function Images(a: Allocation, slots: set<Id>): set<Id>
    requires slots <= a.Keys
  {
    set k | k in slots :: a[k]
  }

  /** Along an injective mapping a total is carried over. */
  lemma {:induction false} ImageSum(a: Allocation, slots: set<Id>, f: Id -> real, g: Id -> real)
    requires Injective(a) && slots <= a.Keys && forall k :: k in slots ==> g(a[k]) == f(k)
    ensures SumOver(Images(a, slots), g) == SumOver(slots, f)
    decreases |slots|
  {
    if slots != {} {
      var k := Min(slots);
      assert Images(a, slots) - {a[k]} == Images(a, slots - {k}) by {
        forall v | v in Images(a, slots) && v != a[k] ensures v in Images(a, slots - {k}) {
          var l :| l in slots && a[l] == v;
        }
      }
      ImageSum(a, slots - {k}, f, g);
      SumRemove(Images(a, slots), g, a[k]);
    }
  }

  /** For every asset class the control's active weight is the baseline's. */
  lemma ClassBudgetsAreConserved(p: Plan, row: (Row, Option<Target>), cls: Classes, held: map<Id, Position>, nav: real,
                                 weights: map<Id, real>, c: nat)
    requires row.1.Some? && PlanFits(p, row, cls) && (held != map[] ==> nav != 0.0)
    requires Represents(p, held, nav, weights, p.allocation.Keys)
    ensures var active := Active(p.target);
            SumOver(OfClass(Images(p.allocation, active), cls, c), In(weights))
            == SumOver(OfClass(active, cls, c), In(p.target.weights))
  {
    var active := Active(p.target);
    var slots := OfClass(active, cls, c);
    assert OfClass(Images(p.allocation, active), cls, c) == Images(p.allocation, slots);
    forall k | k in slots ensures In(weights)(p.allocation[k]) == In(p.target.weights)(k) {
      assert weights[p.allocation[k]] == Weight(p, held, nav, k);
    }
    ImageSum(p.allocation, slots, In(p.target.weights), In(weights));
  }

  // ---------------------------------------------------------------- a control without freedom

  lemma ForcedDraw(slots: set<Id>, candidates: set<Id>, x: Allocation, y: Allocation)
    requires |slots| == |candidates| <= 1 && Draws(x, slots, candidates) && Draws(y, slots, candidates)
    ensures x == y
  {
    forall k | k in slots ensures k in x && k in y && x[k] == y[k] {
      assert k in x.Keys && k in y.Keys;
      assert x[k] in x.Values && y[k] in y.Values;
      Only(candidates, x[k], y[k]);
    }
    assert x.Keys == y.Keys;
  }

  lemma Only(s: set<Id>, a: Id, b: Id)
    requires |s| <= 1 && a in s && b in s
    ensures a == b
  {
    var rest := s - {a};
    assert |rest| == |s| - 1;
    assert rest == {};
    assert b !in rest;
  }

  lemma {:induction false} ForcedAssign(row: Row, active: set<Id>, cls: Classes, d: Sampler, e: Sampler,
                                        classes: set<nat>, next: Allocation, varied: bool)
    requires Samples(d) && Samples(e)
    requires var s := Assign(row, active, cls, d, classes, next, varied); s.Chosen? && !s.varied
    ensures !varied && Assign(row, active, cls, d, classes, next, varied) ==
            Assign(row, active, cls, e, classes, next, varied)
    decreases |classes|
  {
    hide Samples, OfClass, Candidates;
    if classes != {} {
      var c := Min(classes);
      var slots, candidates := OfClass(active, cls, c), Candidates(row.eligible, next, cls, c);
      var x := d(row.at, next, slots, candidates);
      var varied' := varied || |candidates| > |slots| || |slots| > 1;
      ForcedAssign(row, active, cls, d, e, classes - {c}, next + x, varied');
      ForcedCall(d, e, row.at, next, slots, candidates);
    }
  }

  lemma ForcedCall(d: Sampler, e: Sampler, at: Time, a: Allocation, slots: set<Id>, candidates: set<Id>)
    requires Samples(d) && Samples(e) && |slots| == |candidates| <= 1
    ensures d(at, a, slots, candidates) == e(at, a, slots, candidates)
  {
    var x, y := d(at, a, slots, candidates), e(at, a, slots, candidates);
    assert Draws(x, slots, candidates) && Draws(y, slots, candidates);
    ForcedDraw(slots, candidates, x, y);
  }

  /** A control that reports no variation is the same under every sampler. */
  lemma {:induction false} UnvariedControlIsForced(rows: seq<(Row, Option<Target>)>, cls: Classes, d: Sampler,
                                                   e: Sampler)
    requires Samples(d) && Samples(e) && Rows(rows, cls, d).Some? && !Rows(rows, cls, d).value.varied
    ensures Rows(rows, cls, e) == Rows(rows, cls, d)
  {
    hide Samples, Select;
    if rows != [] {
      var init := rows[..|rows| - 1];
      var (row, target) := rows[|rows| - 1];
      UnvariedControlIsForced(init, cls, d, e);
      if target.Some? {
        ForcedSelect(Rows(init, cls, d).value.mapping, row, target.value, cls, d, e);
      }
    }
  }

  lemma ForcedSelect(m: Allocation, row: Row, t: Target, cls: Classes, d: Sampler, e: Sampler)
    requires Samples(d) && Samples(e) && Select(m, row, t, cls, d).Chosen? && !Select(m, row, t, cls, d).varied
    ensures Select(m, row, t, cls, e) == Select(m, row, t, cls, d)
  {
    hide Samples, Assign, Kept, Active, ClassesOf;
    if row.rebalanceDue {
      ForcedAssign(row, Active(t), cls, d, e, ClassesOf(Active(t), cls), Kept(m, t), false);
    }
  }

  // ---------------------------------------------------------------- a control with freedom

  lemma {:induction false} ValuesOfInjective(r: Allocation)
    requires Injective(r)
    ensures |r.Values| == |r.Keys|
    decreases |r.Keys|
  {
    if r.Keys != {} {
      var k :| k in r.Keys;
      var rest := map l | l in r && l != k :: r[l];
      assert rest.Keys == r.Keys - {k};
      forall v | v in r.Values && v != r[k] ensures v in rest.Values {
        var l :| l in r && r[l] == v;
        assert rest[l] == v;
      }
      assert rest.Values == r.Values - {r[k]};
      ValuesOfInjective(rest);
    }
  }

  /** With more candidates than slots, or more slots than one, there is another draw. */
  lemma AnotherDraw(slots: set<Id>, candidates: set<Id>, r: Allocation) returns (other: Allocation)
    requires slots != {} && Draws(r, slots, candidates) && (|candidates| > |slots| || |slots| > 1)
    ensures Draws(other, slots, candidates) && other != r
  {
    var k :| k in slots;
    if |candidates| > |slots| {
      ValuesOfInjective(r);
      SmallerIsNotAll(r.Values, candidates);
      var v :| v in candidates - r.Values;
      other := Reassigned(slots, candidates, r, k, v);
    } else {
      var rest := slots - {k};
      assert |rest| == |slots| - 1;
      var l :| l in rest;
      other := Swapped(slots, candidates, r, k, l);
    }
  }

  lemma Reassigned(slots: set<Id>, candidates: set<Id>, r: Allocation, k: Id, v: Id) returns (other: Allocation)
    requires Draws(r, slots, candidates) && k in slots && v in candidates && v !in r.Values
    ensures Draws(other, slots, candidates) && other != r
  {
    assert k in r.Keys;
    other := r[k := v];
    forall m | m in r ensures r[m] != v && r[m] in candidates {
      assert r[m] in r.Values;
    }
    assert other[k] == v && other.Keys == slots;
  }

  lemma Swapped(slots: set<Id>, candidates: set<Id>, r: Allocation, k: Id, l: Id) returns (other: Allocation)
    requires Draws(r, slots, candidates) && k in slots && l in slots && k != l
    ensures Draws(other, slots, candidates) && other != r
  {
    assert k in r.Keys && l in r.Keys;
    other := r[k := r[l]][l := r[k]];
    forall m | m in r ensures r[m] in candidates {
      assert r[m] in r.Values;
    }
    assert other[k] == r[l] && other.Keys == slots;
  }

  lemma SmallerIsNotAll(x: set<Id>, y: set<Id>)
    requires |x| < |y|
    ensures y - x != {}
  {
    if y - x == {} {
      forall v | v in y ensures v in x {
        assert v !in y - x;
      }
      Smaller(y, x);
    }
  }

  lemma {:induction false} Smaller(x: set<Id>, y: set<Id>)
    requires x <= y
    ensures |x| <= |y|
  {
    assert y == x + (y - x);
  }

  /** The sampler that answers one call differently. */
  ghost function Instead(draw: Sampler, at: Time, a: Allocation, slots: set<Id>, candidates: set<Id>,
                         r: Allocation): Sampler {
    (t: Time, b: Allocation, s: set<Id>, c: set<Id>) =>
      if t == at && b == a && s == slots && c == candidates then r else draw(t, b, s, c)
  }

  lemma InsteadSamples(draw: Sampler, at: Time, a: Allocation, slots: set<Id>, candidates: set<Id>, r: Allocation)
    requires Samples(draw) && Draws(r, slots, candidates)
    ensures Samples(Instead(draw, at, a, slots, candidates, r))
  {
    var e := Instead(draw, at, a, slots, candidates, r);
    forall t, b, s, c | |s| <= |c| ensures Draws(e(t, b, s, c), s, c) {
      assert Draws(draw(t, b, s, c), s, c);
    }
  }

  ghost predicate DiffersOn(d: Step, e: Step) {
    d.Chosen? && (e.Refused? || e.next != d.next)
  }

  /** A class that is drawn differently stays different. */
  lemma DifferentDrawStays(row: Row, active: set<Id>, cls: Classes, d: Sampler, e: Sampler, classes: set<nat>,
                           next: Allocation, varied: bool)
    requires Samples(d) && Samples(e) && Sound(next, cls) && classes != {}
    requires forall k :: k in next && k in active ==> cls(k) !in classes
    requires Assign(row, active, cls, d, classes, next, varied).Chosen?
    requires var c := Min(classes);
             var slots, candidates := OfClass(active, cls, c), Candidates(row.eligible, next, cls, c);
             d(row.at, next, slots, candidates) != e(row.at, next, slots, candidates)
    ensures DiffersOn(Assign(row, active, cls, d, classes, next, varied),
                      Assign(row, active, cls, e, classes, next, varied))
  {
    var c := Min(classes);
    var slots, candidates := OfClass(active, cls, c), Candidates(row.eligible, next, cls, c);
    var x, y := d(row.at, next, slots, candidates), e(row.at, next, slots, candidates);
    assert Draws(x, slots, candidates) && Draws(y, slots, candidates);
    assert x.Keys == y.Keys;
    if Assign(row, active, cls, e, classes, next, varied).Chosen? {
      var varied' := varied || |candidates| > |slots| || |slots| > 1;
      RestKeeps(row, active, cls, d, classes, next, x, varied');
      RestKeeps(row, active, cls, e, classes, next, y, varied');
      var f, g := Assign(row, active, cls, d, classes, next, varied).next,
                  Assign(row, active, cls, e, classes, next, varied).next;
      hide Assign, Samples, Sound, Draws;
      var k := WhereTheyDiffer(x, y);
      assert f[k] == x[k] && g[k] == y[k];
    }
  }

  lemma WhereTheyDiffer(x: Allocation, y: Allocation) returns (k: Id)
    requires x.Keys == y.Keys && x != y
    ensures k in x && k in y && x[k] != y[k]
  {
    assert exists l :: l in x.Keys && x[l] != y[l];
    k :| k in x.Keys && x[k] != y[k];
  }

  lemma RestKeeps(row: Row, active: set<Id>, cls: Classes, d: Sampler, classes: set<nat>, next: Allocation,
                  x: Allocation, varied: bool)
    requires Samples(d) && Sound(next, cls) && classes != {}
    requires forall k :: k in next && k in active ==> cls(k) !in classes
    requires Draws(x, OfClass(active, cls, Min(classes)), Candidates(row.eligible, next, cls, Min(classes)))
    requires Assign(row, active, cls, d, classes - {Min(classes)}, next + x, varied).Chosen?
    ensures var final := Assign(row, active, cls, d, classes - {Min(classes)}, next + x, varied).next;
            forall k :: k in x ==> k in final && final[k] == x[k]
  {
    DrawKeepsSound(next, x, cls, Min(classes), active, row.eligible);
    assert forall k :: k in x ==> k in x.Keys;
    AssignIsSound(row, active, cls, d, classes - {Min(classes)}, next + x, varied);
    assert forall k :: k in x ==> (next + x)[k] == x[k];
  }

  /** A class with freedom can be drawn otherwise. */
  lemma FreeClass(row: Row, active: set<Id>, cls: Classes, d: Sampler, classes: set<nat>, next: Allocation)
    returns (e: Sampler)
    requires Samples(d) && Sound(next, cls) && classes != {} && Min(classes) in ClassesOf(active, cls)
    requires forall k :: k in next && k in active ==> cls(k) !in classes
    requires Assign(row, active, cls, d, classes, next, false).Chosen?
    requires var slots, candidates := OfClass(active, cls, Min(classes)),
                                      Candidates(row.eligible, next, cls, Min(classes));
             |candidates| > |slots| || |slots| > 1
    ensures Samples(e)
            && DiffersOn(Assign(row, active, cls, d, classes, next, false),
                         Assign(row, active, cls, e, classes, next, false))
  {
    var c := Min(classes);
    var slots, candidates := OfClass(active, cls, c), Candidates(row.eligible, next, cls, c);
    var x := d(row.at, next, slots, candidates);
    assert Draws(x, slots, candidates);
    var k :| k in active && cls(k) == c;
    assert k in slots;
    hide Samples, Draws, Assign, Sound;
    var y := AnotherDraw(slots, candidates, x);
    e := Instead(d, row.at, next, slots, candidates, y);
    InsteadSamples(d, row.at, next, slots, candidates, y);
    DifferentDrawStays(row, active, cls, d, e, classes, next, false);
  }

  /** A class without freedom is drawn alike by every sampler. */
  lemma ForcedClass(row: Row, active: set<Id>, cls: Classes, d: Sampler, e: Sampler, classes: set<nat>,
                    next: Allocation)
    requires Samples(d) && Samples(e) && Sound(next, cls) && classes != {}
    requires forall k :: k in next && k in active ==> cls(k) !in classes
    requires var slots, candidates := OfClass(active, cls, Min(classes)),
                                      Candidates(row.eligible, next, cls, Min(classes));
             |slots| == |candidates| <= 1
    ensures var slots, candidates := OfClass(active, cls, Min(classes)),
                                     Candidates(row.eligible, next, cls, Min(classes));
            var x := d(row.at, next, slots, candidates);
            && e(row.at, next, slots, candidates) == x && Sound(next + x, cls)
            && forall k :: k in next + x && k in active ==> cls(k) !in classes - {Min(classes)}
  {
    var c := Min(classes);
    var slots, candidates := OfClass(active, cls, c), Candidates(row.eligible, next, cls, c);
    var x, y := d(row.at, next, slots, candidates), e(row.at, next, slots, candidates);
    assert Draws(x, slots, candidates) && Draws(y, slots, candidates);
    ForcedDraw(slots, candidates, x, y);
    DrawKeepsSound(next, x, cls, c, active, row.eligible);
    assert forall k :: k in x ==> k in x.Keys;
  }

  /** A row that reports variation can be drawn otherwise. */
  lemma {:induction false} VariedRowIsFree(row: Row, active: set<Id>, cls: Classes, d: Sampler, classes: set<nat>,
                                           next: Allocation) returns (e: Sampler)
    requires Samples(d) && Sound(next, cls) && classes <= ClassesOf(active, cls)
    requires forall k :: k in next && k in active ==> cls(k) !in classes
    requires var s := Assign(row, active, cls, d, classes, next, false); s.Chosen? && s.varied
    ensures Samples(e)
            && DiffersOn(Assign(row, active, cls, d, classes, next, false),
                         Assign(row, active, cls, e, classes, next, false))
    decreases |classes|
  {
    hide Samples, Sound, Draws, ClassesOf, OfClass, Candidates;
    var c := Min(classes);
    var slots, candidates := OfClass(active, cls, c), Candidates(row.eligible, next, cls, c);
    if |candidates| > |slots| || |slots| > 1 {
      e := FreeClass(row, active, cls, d, classes, next);
    } else {
      ForcedClass(row, active, cls, d, d, classes, next);
      e := VariedRowIsFree(row, active, cls, d, classes - {c}, next + d(row.at, next, slots, candidates));
      ForcedClass(row, active, cls, d, e, classes, next);
    }
  }

  lemma {:induction false} PlansGrow(rows: seq<(Row, Option<Target>)>, cls: Classes, d: Sampler)
    requires rows != [] && Rows(rows, cls, d).Some?
    ensures var init := Rows(rows[..|rows| - 1], cls, d);
            && init.Some? && |Rows(rows, cls, d).value.plans| == |init.value.plans| + 1
            && Rows(rows, cls, d).value.plans[..|init.value.plans|] == init.value.plans
  {
  }

  /** A control that reports variation is another one under some sampler. */
  lemma {:induction false} VariedControlIsFree(rows: seq<(Row, Option<Target>)>, cls: Classes, d: Sampler)
    returns (e: Sampler)
    requires Samples(d) && Rows(rows, cls, d).Some? && Rows(rows, cls, d).value.varied
    ensures Samples(e) && (Rows(rows, cls, e).None? || Rows(rows, cls, e).value.plans != Rows(rows, cls, d).value.plans)
  {
    var init := rows[..|rows| - 1];
    var (row, target) := rows[|rows| - 1];
    var before := Rows(init, cls, d).value;
    if before.varied {
      e := VariedControlIsFree(init, cls, d);
      PlansGrow(rows, cls, d);
      if Rows(rows, cls, e).Some? {
        PlansGrow(rows, cls, e);
      }
    } else {
      MappingStaysSound(init, cls, d);
      e := FreeSelect(before.mapping, row, target.value, cls, d);
      UnvariedControlIsForced(init, cls, d, e);
      PlansGrow(rows, cls, d);
    }
  }

  lemma FreeSelect(m: Allocation, row: Row, t: Target, cls: Classes, d: Sampler) returns (e: Sampler)
    requires Samples(d) && Sound(m, cls) && Select(m, row, t, cls, d).Chosen? && Select(m, row, t, cls, d).varied
    ensures Samples(e) && DiffersOn(Select(m, row, t, cls, d), Select(m, row, t, cls, e))
  {
    var active, kept := Active(t), Kept(m, t);
    KeptIsSound(m, t, cls);
    e := VariedRowIsFree(row, active, cls, d, ClassesOf(active, cls), kept);
    hide Samples, Sound, Assign;
  }

  /** A control reports no variation exactly when every sampler gives the same one. */
  lemma VariationIsExact(rows: seq<(Row, Option<Target>)>, cls: Classes, d: Sampler)
    requires Samples(d) && Rows(rows, cls, d).Some?
    ensures !Rows(rows, cls, d).value.varied <==>
            forall e: Sampler :: Samples(e) ==> Rows(rows, cls, e) == Rows(rows, cls, d)
  {
    if Rows(rows, cls, d).value.varied {
      var e := VariedControlIsFree(rows, cls, d);
      assert Rows(rows, cls, e) != Rows(rows, cls, d);
    } else {
      forall e: Sampler | Samples(e) ensures Rows(rows, cls, e) == Rows(rows, cls, d) {
        UnvariedControlIsForced(rows, cls, d, e);
      }
    }
  }
}
