/**
 Normalised forward filtering of a hidden Markov model, against the sum over
 all state paths.

 Probabilities are exact reals, so the log-domain recursion is written as the
 product it computes and the underflow floors never act.
*/
module ForwardFilter {
  import opened Basics

  type Vec = seq<real>

  datatype Model = Model(start: Vec, transition: seq<Vec>) {
    function N(): nat {
      |start|
    }

    /** Positive start and transition weights, as the floors enforce. */
    ghost predicate Valid() {
      && N() > 0 && AllPositive(start)
      && |transition| == N()
      && forall i :: 0 <= i < N() ==> |transition[i]| == N() && AllPositive(transition[i])
    }
  }

  ghost predicate AllPositive(v: Vec) {
    forall i :: 0 <= i < |v| ==> v[i] > 0.0
  }

  /** A distribution over the states of the model. */
  ghost predicate Posterior(m: Model, v: Vec) {
    |v| == m.N() && AllPositive(v) && Sum(v) == 1.0
  }

  ghost predicate Emissions(m: Model, es: seq<Vec>) {
    forall t :: 0 <= t < |es| ==> |es[t]| == m.N() && AllPositive(es[t])
  }

  function Sum(v: Vec): real {
    if v == [] then 0.0 else v[0] + Sum(v[1..])
  }

  function Dot(v: Vec, w: Vec): real
    requires |v| == |w|
  {
    if v == [] then 0.0 else v[0] * w[0] + Dot(v[1..], w[1..])
  }

  /** A product, named so that proofs can set its arithmetic aside. */
  function Times(x: real, y: real): real {
    x * y
  }

  function Scale(c: real, v: Vec): (r: Vec)
    ensures |r| == |v|
    ensures forall i :: 0 <= i < |v| ==> r[i] == Times(c, v[i])
  {
    if v == [] then [] else [Times(c, v[0])] + Scale(c, v[1..])
  }

  function Column(m: Model, j: nat): (r: Vec)
    requires m.Valid() && j < m.N()
    ensures |r| == m.N() && forall i :: 0 <= i < m.N() ==> r[i] == m.transition[i][j]
  {
    seq(m.N(), i requires 0 <= i < m.N() => m.transition[i][j])
  }

  // ---------------------------------------------------------------- linear algebra

  lemma {:induction false} SumPositive(v: Vec)
    requires AllPositive(v)
    ensures Sum(v) >= 0.0 && (v != [] ==> Sum(v) > 0.0)
  {
    if v != [] {
      SumPositive(v[1..]);
    }
  }

  lemma {:induction false} SumScale(c: real, v: Vec)
    ensures Sum(Scale(c, v)) == c * Sum(v)
  {
    if v != [] {
      assert Scale(c, v)[1..] == Scale(c, v[1..]);
      SumScale(c, v[1..]);
      assert c * (v[0] + Sum(v[1..])) == c * v[0] + c * Sum(v[1..]);
    }
  }

  lemma {:induction false} DotScale(c: real, v: Vec, w: Vec)
    requires |v| == |w|
    ensures Dot(Scale(c, v), w) == c * Dot(v, w)
  {
    if v != [] {
      assert Scale(c, v)[1..] == Scale(c, v[1..]);
      DotScale(c, v[1..], w[1..]);
      assert c * (v[0] * w[0] + Dot(v[1..], w[1..])) == (c * v[0]) * w[0] + c * Dot(v[1..], w[1..]);
    }
  }

  lemma {:induction false} DotPositive(v: Vec, w: Vec)
    requires |v| == |w| && AllPositive(v) && AllPositive(w)
    ensures Dot(v, w) >= 0.0 && (v != [] ==> Dot(v, w) > 0.0)
  {
    if v != [] {
      DotPositive(v[1..], w[1..]);
      assert v[0] * w[0] > 0.0;
    }
  }

  /** Raising one coordinate raises the product by that coordinate's share. */
  lemma {:induction false} DotRaise(v: Vec, w: Vec, k: nat, d: real)
    requires |v| == |w| && k < |v|
    ensures Dot(v[k := v[k] + d], w) == Dot(v, w) + d * w[k]
  {
    var v' := v[k := v[k] + d];
    if k == 0 {
      assert v'[1..] == v[1..];
      assert (v[0] + d) * w[0] == v[0] * w[0] + d * w[0];
    } else {
      assert v'[1..] == v[1..][k - 1 := v[1..][k - 1] + d];
      DotRaise(v[1..], w[1..], k - 1, d);
    }
  }

  lemma {:induction false} DotZero(v: Vec, w: Vec)
    requires |v| == |w| && forall i :: 0 <= i < |v| ==> v[i] == 0.0
    ensures Dot(v, w) == 0.0
  {
    if v != [] {
      DotZero(v[1..], w[1..]);
    }
  }

  // ---------------------------------------------------------------- the recursion

  /** The weights before the emission: the start weights, or one transition from the last posterior. */
  function Prior(m: Model, previous: Option<Vec>): (r: Vec)
    requires m.Valid() && (previous.Some? ==> |previous.value| == m.N())
    ensures |r| == m.N()
    ensures previous.None? ==> r == m.start
    ensures previous.Some? ==> forall j :: 0 <= j < m.N() ==> r[j] == Dot(previous.value, Column(m, j))
  {
    if previous.None? then m.start
    else seq(m.N(), j requires 0 <= j < m.N() => Dot(previous.value, Column(m, j)))
  }

  function Joint(m: Model, previous: Option<Vec>, e: Vec): (r: Vec)
    requires m.Valid() && |e| == m.N() && (previous.Some? ==> |previous.value| == m.N())
    ensures |r| == m.N() && forall j :: 0 <= j < m.N() ==> r[j] == Prior(m, previous)[j] * e[j]
  {
    seq(m.N(), j requires 0 <= j < m.N() => Prior(m, previous)[j] * e[j])
  }

  /** The scale that normalisation divides out. */
  function Evidence(m: Model, previous: Option<Vec>, e: Vec): real
    requires m.Valid() && |e| == m.N() && (previous.Some? ==> |previous.value| == m.N())
  {
    Sum(Joint(m, previous, e))
  }

  ghost predicate Feasible(m: Model, previous: Option<Vec>) {
    m.Valid() && (previous.Some? ==> Posterior(m, previous.value))
  }

  function Step(m: Model, previous: Option<Vec>, e: Vec): (r: Vec)
    requires Feasible(m, previous) && |e| == m.N() && AllPositive(e)
    ensures Posterior(m, r)
    ensures Evidence(m, previous, e) > 0.0
    ensures Scale(Evidence(m, previous, e), r) == Joint(m, previous, e)
  {
    StepNormalises(m, previous, e);
    Scale(1.0 / Evidence(m, previous, e), Joint(m, previous, e))
  }

  lemma JointPositive(m: Model, previous: Option<Vec>, e: Vec)
    requires Feasible(m, previous) && |e| == m.N() && AllPositive(e)
    ensures AllPositive(Joint(m, previous, e)) && Evidence(m, previous, e) > 0.0
  {
    forall j | 0 <= j < m.N() ensures Joint(m, previous, e)[j] > 0.0 {
      if previous.Some? {
        DotPositive(previous.value, Column(m, j));
      }
      ProductPositive(Prior(m, previous)[j], e[j]);
    }
    SumPositive(Joint(m, previous, e));
  }

  lemma ProductPositive(x: real, y: real)
    requires x > 0.0 && y > 0.0
    ensures x * y > 0.0
  {
  }

  lemma Undo(z: real, w: real, x: real, y: real)
    requires z * w == 1.0 && y == Times(w, x)
    ensures Times(z, y) == x
  {
    assert z * (w * x) == (z * w) * x;
  }

  lemma Reciprocal(z: real)
    requires z > 0.0
    ensures 1.0 / z > 0.0 && z * (1.0 / z) == 1.0 && 1.0 / z * z == 1.0
  {
  }

  lemma ScaleBack(z: real, w: real, v: Vec)
    requires z * w == 1.0
    ensures Scale(z, Scale(w, v)) == v
  {
    hide Scale, Times;
    var s := Scale(w, v);
    forall j | 0 <= j < |v| ensures Scale(z, s)[j] == v[j] {
      Undo(z, w, v[j], s[j]);
    }
    SameVec(Scale(z, s), v);
  }

  lemma {:induction false} ScalePositive(w: real, v: Vec)
    requires w > 0.0 && AllPositive(v)
    ensures AllPositive(Scale(w, v))
  {
    if v != [] {
      ScalePositive(w, v[1..]);
      ProductPositive(w, v[0]);
    }
  }

  lemma StepNormalises(m: Model, previous: Option<Vec>, e: Vec)
    requires Feasible(m, previous) && |e| == m.N() && AllPositive(e)
    ensures var z := Evidence(m, previous, e);
            z > 0.0 && Posterior(m, Scale(1.0 / z, Joint(m, previous, e)))
            && Scale(z, Scale(1.0 / z, Joint(m, previous, e))) == Joint(m, previous, e)
  {
    JointPositive(m, previous, e);
    Normalise(m, Joint(m, previous, e));
  }

  lemma Normalise(m: Model, joint: Vec)
    requires |joint| == m.N() && AllPositive(joint) && Sum(joint) > 0.0
    ensures var z := Sum(joint);
            Posterior(m, Scale(1.0 / z, joint)) && Scale(z, Scale(1.0 / z, joint)) == joint
  {
    hide Scale, Times, Sum;
    var z := Sum(joint);
    var w := 1.0 / z;
    Reciprocal(z);
    ScalePositive(w, joint);
    SumScale(w, joint);
    ScaleBack(z, w, joint);
  }

  lemma SameVec(u: Vec, v: Vec)
    requires |u| == |v| && forall j :: 0 <= j < |u| ==> u[j] == v[j]
    ensures u == v
  {
  }

  /** The posterior after a sequence of emissions. */
  function Filter(m: Model, previous: Option<Vec>, es: seq<Vec>): (r: Option<Vec>)
    requires Feasible(m, previous) && Emissions(m, es)
    ensures Feasible(m, r) && (es != [] ==> r.Some?) && (es == [] ==> r == previous)
  {
    if es == [] then previous
    else Some(Step(m, Filter(m, previous, es[..|es| - 1]), es[|es| - 1]))
  }

  lemma FilterNothing(m: Model, previous: Option<Vec>)
    requires Feasible(m, previous)
    ensures Emissions(m, []) && Filter(m, previous, []) == previous
  {
  }

  lemma FilterNext(m: Model, previous: Option<Vec>, es: seq<Vec>, t: nat)
    requires Feasible(m, previous) && Emissions(m, es) && t < |es|
    ensures Emissions(m, es[..t]) && Emissions(m, es[..t + 1])
    ensures var before := Filter(m, previous, es[..t]);
            && Feasible(m, before) && |es[t]| == m.N() && AllPositive(es[t])
            && Filter(m, previous, es[..t + 1]) == Some(Step(m, before, es[t]))
  {
    hide Step;
    assert es[..t + 1][..t] == es[..t];
  }

  /** The filter loop: one posterior per emission. */
  method Forward(m: Model, values: seq<Vec>, previous: Option<Vec>) returns (result: seq<Vec>)
    requires Feasible(m, previous) && Emissions(m, values)
    ensures |result| == |values|
    ensures forall t :: 0 <= t < |values| ==> Filter(m, previous, values[..t + 1]) == Some(result[t])
  {
    hide Step, Filter, Feasible;
    result := [];
    var alpha := previous;
    FilterNothing(m, previous);
    for t := 0 to |values|
      invariant |result| == t
      invariant alpha == Filter(m, previous, values[..t])
      invariant forall k :: 0 <= k < t ==> Filter(m, previous, values[..k + 1]) == Some(result[k])
    {
      FilterNext(m, previous, values, t);
      alpha := Some(Step(m, alpha, values[t]));
      result := result + [alpha.value];
    }
  }

  /** Restarting from the last posterior continues the same recursion. */
  lemma {:induction false} FilterRestarts(m: Model, previous: Option<Vec>, xs: seq<Vec>, ys: seq<Vec>)
    requires Feasible(m, previous) && Emissions(m, xs) && Emissions(m, ys)
    ensures Emissions(m, xs + ys)
    ensures Filter(m, previous, xs + ys) == Filter(m, Filter(m, previous, xs), ys)
  {
    if ys == [] {
      assert xs + ys == xs;
    } else {
      var init := ys[..|ys| - 1];
      FilterRestarts(m, previous, xs, init);
      assert (xs + ys)[..|xs + ys| - 1] == xs + init;
    }
  }

  // ---------------------------------------------------------------- brute force over paths

  type Path = seq<nat>

  function Extensions(p: Path, n: nat): (r: seq<Path>)
    ensures |r| == n && forall j :: 0 <= j < n ==> r[j] == p + [j]
  {
    seq(n, j requires 0 <= j < n => p + [j])
  }

  function ExtendAll(ps: seq<Path>, n: nat): seq<Path> {
    if ps == [] then [] else Extensions(ps[0], n) + ExtendAll(ps[1..], n)
  }

  /** All state paths of length t. */
  function Paths(n: nat, t: nat): seq<Path> {
    if t == 0 then [[]] else ExtendAll(Paths(n, t - 1), n)
  }

  ghost predicate IsPath(p: Path, n: nat, t: nat) {
    |p| == t && forall i :: 0 <= i < t ==> p[i] < n
  }

  lemma {:induction false} InExtendAll(ps: seq<Path>, n: nat, q: Path)
    ensures q in ExtendAll(ps, n) <==> |q| > 0 && q[|q| - 1] < n && q[..|q| - 1] in ps
  {
    if ps != [] {
      InExtendAll(ps[1..], n, q);
      assert ps == [ps[0]] + ps[1..];
      assert q in Extensions(ps[0], n) <==> |q| > 0 && q[|q| - 1] < n && q[..|q| - 1] == ps[0] by {
        if |q| > 0 && q[|q| - 1] < n && q[..|q| - 1] == ps[0] {
          assert q == Extensions(ps[0], n)[q[|q| - 1]];
        }
      }
    }
  }

  /** The enumeration is complete and holds nothing else. */
  lemma {:induction false} PathsAreAllPaths(n: nat, t: nat, p: Path)
    ensures p in Paths(n, t) <==> IsPath(p, n, t)
  {
    if t > 0 {
      InExtendAll(Paths(n, t - 1), n, p);
      if |p| > 0 {
        PathsAreAllPaths(n, t - 1, p[..|p| - 1]);
        assert p == p[..|p| - 1] + [p[|p| - 1]];
      }
    }
  }

  ghost predicate Distinct(ps: seq<Path>) {
    forall i, j :: 0 <= i < j < |ps| ==> ps[i] != ps[j]
  }

  /** No path is enumerated twice. */
  lemma {:induction false} PathsAreDistinct(n: nat, t: nat)
    ensures Distinct(Paths(n, t))
  {
    if t > 0 {
      PathsAreDistinct(n, t - 1);
      ExtendKeepsDistinct(Paths(n, t - 1), n);
    }
  }

  lemma DistinctAppend(ps: seq<Path>, qs: seq<Path>)
    requires Distinct(ps) && Distinct(qs)
    requires forall i, j :: 0 <= i < |ps| && 0 <= j < |qs| ==> ps[i] != qs[j]
    ensures Distinct(ps + qs)
  {
    forall i, j | 0 <= i < j < |ps + qs| ensures (ps + qs)[i] != (ps + qs)[j] {
      if i < |ps| && j >= |ps| {
        assert ps[i] != qs[j - |ps|];
      }
    }
  }

  lemma {:induction false} ExtendKeepsDistinct(ps: seq<Path>, n: nat)
    requires Distinct(ps)
    ensures Distinct(ExtendAll(ps, n))
  {
    if ps != [] {
      var first, rest := Extensions(ps[0], n), ExtendAll(ps[1..], n);
      ExtendKeepsDistinct(ps[1..], n);
      forall i, j | 0 <= i < |first| && 0 <= j < |rest| ensures first[i] != rest[j] {
        InExtendAll(ps[1..], n, rest[j]);
        assert rest[j] in rest;
        assert first[i][..|first[i]| - 1] == ps[0];
        assert ps[0] !in ps[1..];
      }
      forall i, j | 0 <= i < j < |first| ensures first[i] != first[j] {
        assert first[i][|ps[0]|] == i && first[j][|ps[0]|] == j;
      }
      DistinctAppend(first, rest);
    }
  }

  /** The factors of a path: its start, its transitions and its emissions. */
  function Factors(m: Model, p: Path, es: seq<Vec>): seq<real>
    requires m.Valid() && Emissions(m, es) && IsPath(p, m.N(), |es|)
  {
    if |p| == 0 then []
    else
      var k := |p| - 1;
      Factors(m, p[..k], es[..k]) + [if k == 0 then m.start[p[0]] else m.transition[p[k - 1]][p[k]], es[k][p[k]]]
  }

  function Product(v: Vec): real {
    if v == [] then 1.0 else Product(v[..|v| - 1]) * v[|v| - 1]
  }

  lemma ProductOfTwoMore(v: Vec, x: real, y: real)
    ensures Product(v + [x, y]) == (Product(v) * x) * y
  {
    var w := v + [x];
    assert v + [x, y] == w + [y];
    assert (w + [y])[..|w|] == w;
    assert w[..|v|] == v;
  }

  /** The joint weight of a path and the emissions. */
  function Weight(m: Model, p: Path, es: seq<Vec>): real
    requires m.Valid() && Emissions(m, es) && IsPath(p, m.N(), |es|)
  {
    Product(Factors(m, p, es))
  }

  ghost predicate AllPaths(ps: seq<Path>, n: nat, t: nat) {
    forall i :: 0 <= i < |ps| ==> IsPath(ps[i], n, t)
  }

  lemma PathsAllPaths(n: nat, t: nat)
    ensures AllPaths(Paths(n, t), n, t)
  {
    forall i | 0 <= i < |Paths(n, t)| ensures IsPath(Paths(n, t)[i], n, t) {
      PathsAreAllPaths(n, t, Paths(n, t)[i]);
    }
  }

  /** Total weight of the listed paths that end in state j. */
  function EndMass(m: Model, ps: seq<Path>, es: seq<Vec>, j: nat): real
    requires m.Valid() && Emissions(m, es) && AllPaths(ps, m.N(), |es|)
  {
    if ps == [] then 0.0
    else
      (if |es| > 0 && ps[0][|es| - 1] == j then Weight(m, ps[0], es) else 0.0) + EndMass(m, ps[1..], es, j)
  }

  function EndMasses(m: Model, ps: seq<Path>, es: seq<Vec>): (r: Vec)
    requires m.Valid() && Emissions(m, es) && AllPaths(ps, m.N(), |es|)
    ensures |r| == m.N() && forall j :: 0 <= j < m.N() ==> r[j] == EndMass(m, ps, es, j)
  {
    seq(m.N(), j requires 0 <= j < m.N() => EndMass(m, ps, es, j))
  }

  /** For each state, the sum over all paths that end there. */
  function BruteForce(m: Model, es: seq<Vec>): (r: Vec)
    requires m.Valid() && Emissions(m, es)
    ensures |r| == m.N()
  {
    PathsAllPaths(m.N(), |es|);
    EndMasses(m, Paths(m.N(), |es|), es)
  }

  lemma {:induction false} EndMassAppend(m: Model, ps: seq<Path>, qs: seq<Path>, es: seq<Vec>, j: nat)
    requires m.Valid() && Emissions(m, es) && AllPaths(ps, m.N(), |es|) && AllPaths(qs, m.N(), |es|)
    ensures AllPaths(ps + qs, m.N(), |es|)
    ensures EndMass(m, ps + qs, es, j) == EndMass(m, ps, es, j) + EndMass(m, qs, es, j)
  {
    if ps == [] {
      assert ps + qs == qs;
    } else {
      assert (ps + qs)[1..] == ps[1..] + qs;
      EndMassAppend(m, ps[1..], qs, es, j);
    }
  }

  /** Only the extension by j ends in j. */
  lemma {:induction false} EndMassOneOf(m: Model, ps: seq<Path>, es: seq<Vec>, j: nat, at: nat)
    requires m.Valid() && Emissions(m, es) && |es| > 0 && AllPaths(ps, m.N(), |es|)
    requires forall i :: 0 <= i < |ps| ==> (ps[i][|es| - 1] == j <==> i == at)
    ensures EndMass(m, ps, es, j) == if at < |ps| then Weight(m, ps[at], es) else 0.0
  {
    if ps != [] {
      if at == 0 {
        EndMassOneOf(m, ps[1..], es, j, |ps|);
      } else {
        EndMassOneOf(m, ps[1..], es, j, at - 1);
      }
    }
  }

  lemma ExtendedPaths(ps: seq<Path>, n: nat, t: nat)
    requires AllPaths(ps, n, t)
    ensures AllPaths(ExtendAll(ps, n), n, t + 1)
  {
    forall i | 0 <= i < |ExtendAll(ps, n)| ensures IsPath(ExtendAll(ps, n)[i], n, t + 1) {
      var q := ExtendAll(ps, n)[i];
      InExtendAll(ps, n, q);
      assert q == q[..|q| - 1] + [q[|q| - 1]];
    }
  }

  /** What one path brings into state j with one more emission. */
  function Contribution(m: Model, p: Path, es: seq<Vec>, e: Vec, j: nat): real
    requires m.Valid() && Emissions(m, es) && |e| == m.N() && |es| > 0 && IsPath(p, m.N(), |es|) && j < m.N()
  {
    (Weight(m, p, es) * m.transition[p[|p| - 1]][j]) * e[j]
  }

  /** All one-state extensions of one path: only the one into j contributes to j. */
  lemma EndMassOfExtensions(m: Model, p: Path, es: seq<Vec>, e: Vec, j: nat)
    requires m.Valid() && Emissions(m, es) && |e| == m.N() && AllPositive(e) && |es| > 0
    requires IsPath(p, m.N(), |es|) && j < m.N()
    ensures Emissions(m, es + [e]) && AllPaths(Extensions(p, m.N()), m.N(), |es + [e]|)
    ensures EndMass(m, Extensions(p, m.N()), es + [e], j) == Contribution(m, p, es, e, j)
  {
    hide EndMass, Weight, AllPositive, IsPath;
    forall i | 0 <= i < m.N() ensures IsPath(Extensions(p, m.N())[i], m.N(), |es| + 1) {
      PathExtends(m, p, es, e, i);
    }
    PathExtends(m, p, es, e, j);
    EndMassOneOf(m, Extensions(p, m.N()), es + [e], j, j);
    WeightExtends(m, p, es, e, j);
  }

  /** Adding a path raises the mass of its end state only. */
  lemma EndMassesAdd(m: Model, ps: seq<Path>, es: seq<Vec>)
    requires m.Valid() && Emissions(m, es) && |es| > 0 && ps != [] && AllPaths(ps, m.N(), |es|)
    ensures var k, before := ps[0][|es| - 1], EndMasses(m, ps[1..], es);
            EndMasses(m, ps, es) == before[k := before[k] + Weight(m, ps[0], es)]
  {
  }

  /** What one transition and one emission bring into state j. */
  function Arrival(m: Model, u: Vec, e: Vec, j: nat): real
    requires m.Valid() && |u| == |e| == m.N() && j < m.N()
  {
    Dot(u, Column(m, j)) * e[j]
  }

  lemma ArrivalRaise(m: Model, u: Vec, e: Vec, j: nat, k: nat, w: real)
    requires m.Valid() && |u| == |e| == m.N() && j < m.N() && k < m.N()
    ensures Arrival(m, u[k := u[k] + w], e, j) == Arrival(m, u, e, j) + (w * m.transition[k][j]) * e[j]
  {
    DotRaise(u, Column(m, j), k, w);
    Distribute(Dot(u, Column(m, j)), w * m.transition[k][j], e[j], Dot(u[k := u[k] + w], Column(m, j)));
  }

  lemma Distribute(a: real, b: real, c: real, sum: real)
    requires sum == a + b
    ensures sum * c == a * c + b * c
  {
  }

  lemma ArrivalOfNothing(m: Model, u: Vec, e: Vec, j: nat)
    requires m.Valid() && |u| == |e| == m.N() && j < m.N()
    requires forall i :: 0 <= i < |u| ==> u[i] == 0.0
    ensures Arrival(m, u, e, j) == 0.0
  {
    DotZero(u, Column(m, j));
  }

  /** One more emission: the mass arriving in j is the transition from every end state, times the emission. */
  lemma {:induction false} EndMassExtends(m: Model, ps: seq<Path>, es: seq<Vec>, e: Vec, j: nat)
    requires m.Valid() && Emissions(m, es) && |e| == m.N() && AllPositive(e) && |es| > 0
    requires AllPaths(ps, m.N(), |es|) && j < m.N()
    ensures Emissions(m, es + [e]) && AllPaths(ExtendAll(ps, m.N()), m.N(), |es + [e]|)
    ensures EndMass(m, ExtendAll(ps, m.N()), es + [e], j) == Arrival(m, EndMasses(m, ps, es), e, j)
  {
    ExtendedPaths(ps, m.N(), |es|);
    if ps == [] {
      ArrivalOfNothing(m, EndMasses(m, ps, es), e, j);
    } else {
      EndMassExtends(m, ps[1..], es, e, j);
      ArrivalAdds(m, ps, es, e, j);
      ExtensionsAdd(m, ps, es, e, j);
    }
  }

  lemma ArrivalAdds(m: Model, ps: seq<Path>, es: seq<Vec>, e: Vec, j: nat)
    requires m.Valid() && Emissions(m, es) && |e| == m.N() && |es| > 0
    requires ps != [] && AllPaths(ps, m.N(), |es|) && j < m.N()
    ensures Arrival(m, EndMasses(m, ps, es), e, j)
         == Arrival(m, EndMasses(m, ps[1..], es), e, j) + Contribution(m, ps[0], es, e, j)
  {
    EndMassesAdd(m, ps, es);
    ArrivalRaise(m, EndMasses(m, ps[1..], es), e, j, ps[0][|es| - 1], Weight(m, ps[0], es));
  }

  lemma ExtensionsAdd(m: Model, ps: seq<Path>, es: seq<Vec>, e: Vec, j: nat)
    requires m.Valid() && Emissions(m, es) && |e| == m.N() && AllPositive(e) && |es| > 0
    requires ps != [] && AllPaths(ps, m.N(), |es|) && j < m.N()
    ensures Emissions(m, es + [e]) && AllPaths(ExtendAll(ps, m.N()), m.N(), |es| + 1)
    ensures AllPaths(ExtendAll(ps[1..], m.N()), m.N(), |es| + 1)
    ensures EndMass(m, ExtendAll(ps, m.N()), es + [e], j)
         == EndMass(m, ExtendAll(ps[1..], m.N()), es + [e], j) + Contribution(m, ps[0], es, e, j)
  {
    hide Contribution, EndMass;
    var p, rest := ps[0], ps[1..];
    ExtendedPaths(ps, m.N(), |es|);
    ExtendedPaths(rest, m.N(), |es|);
    EndMassOfExtensions(m, p, es, e, j);
    EndMassAppend(m, Extensions(p, m.N()), ExtendAll(rest, m.N()), es + [e], j);
  }

  lemma PathExtends(m: Model, p: Path, es: seq<Vec>, e: Vec, j: nat)
    requires m.Valid() && Emissions(m, es) && |e| == m.N() && AllPositive(e)
    requires IsPath(p, m.N(), |es|) && j < m.N()
    ensures Emissions(m, es + [e]) && IsPath(p + [j], m.N(), |es + [e]|)
  {
  }

  lemma WeightExtends(m: Model, p: Path, es: seq<Vec>, e: Vec, j: nat)
    requires m.Valid() && Emissions(m, es) && |e| == m.N() && AllPositive(e) && |es| > 0
    requires IsPath(p, m.N(), |es|) && j < m.N()
    ensures Emissions(m, es + [e]) && IsPath(p + [j], m.N(), |es + [e]|)
    ensures Weight(m, p + [j], es + [e]) == (Weight(m, p, es) * m.transition[p[|p| - 1]][j]) * e[j]
  {
    PathExtends(m, p, es, e, j);
    FactorsExtend(m, p, es, e, j);
    ProductOfTwoMore(Factors(m, p, es), m.transition[p[|p| - 1]][j], e[j]);
  }

  lemma FactorsExtend(m: Model, p: Path, es: seq<Vec>, e: Vec, j: nat)
    requires m.Valid() && Emissions(m, es) && Emissions(m, es + [e]) && |es| > 0 && j < m.N() == |e|
    requires IsPath(p, m.N(), |es|) && IsPath(p + [j], m.N(), |es + [e]|)
    ensures Factors(m, p + [j], es + [e]) == Factors(m, p, es) + [m.transition[p[|p| - 1]][j], e[j]]
  {
    var q, es', k := p + [j], es + [e], |p|;
    assert q[..k] == p && es'[..k] == es && q[k] == j && q[k - 1] == p[k - 1] && es'[k] == e;
  }

  /** Sum over all paths, one emission at a time: the unnormalised recursion. */
  lemma BruteForceStart(m: Model, e: Vec, j: nat)
    requires m.Valid() && |e| == m.N() && AllPositive(e) && j < m.N()
    ensures Emissions(m, [e]) && BruteForce(m, [e])[j] == m.start[j] * e[j]
  {
    WeightStarts(m, e, j);
    var n := m.N();
    PathsAllPaths(n, 1);
    assert Paths(n, 0) == [[]];
    assert ExtendAll([[]], n) == Extensions([], n);
    assert Paths(n, 1) == Extensions([], n);
    EndMassOneOf(m, Paths(n, 1), [e], j, j);
  }

  lemma WeightStarts(m: Model, e: Vec, j: nat)
    requires m.Valid() && |e| == m.N() && AllPositive(e) && j < m.N()
    ensures Emissions(m, [e]) && IsPath([j], m.N(), 1) && Weight(m, [j], [e]) == m.start[j] * e[j]
  {
    assert [j][..0] == [] && [e][..0] == [];
    assert Factors(m, [j], [e]) == [] + [m.start[j], e[j]];
    ProductOfTwoMore([], m.start[j], e[j]);
  }

  lemma BruteForceStep(m: Model, es: seq<Vec>, e: Vec, j: nat)
    requires m.Valid() && Emissions(m, es) && |e| == m.N() && AllPositive(e) && j < m.N() && es != []
    ensures Emissions(m, es + [e])
    ensures BruteForce(m, es + [e])[j] == Arrival(m, BruteForce(m, es), e, j)
  {
    PathsAllPaths(m.N(), |es|);
    PathsAllPaths(m.N(), |es| + 1);
    EndMassExtends(m, Paths(m.N(), |es|), es, e, j);
  }

  lemma Reassociate(a: real, b: real, c: real, bc: real)
    requires bc == b * c
    ensures (a * b) * c == a * bc
  {
    assert (a * b) * c == a * (b * c);
  }

  lemma ScaleTwice(c: real, z: real, v: Vec)
    ensures Scale(c, Scale(z, v)) == Scale(c * z, v)
  {
    hide Scale;
    var s := Scale(z, v);
    forall j | 0 <= j < |v| ensures Scale(c, s)[j] == Scale(c * z, v)[j] {
      Reassociate(c, z, v[j], s[j]);
    }
    SameVec(Scale(c, s), Scale(c * z, v));
  }

  /** Proportional vectors stay proportional through one transition and one emission. */
  lemma JointScales(m: Model, c: real, alpha: Vec, u: Vec, e: Vec, j: nat)
    requires m.Valid() && |alpha| == |e| == m.N() && u == Scale(c, alpha) && j < m.N()
    ensures Arrival(m, u, e, j) == c * Joint(m, Some(alpha), e)[j]
  {
    DotScale(c, alpha, Column(m, j));
    Reassociate(c, Dot(alpha, Column(m, j)), e[j], Joint(m, Some(alpha), e)[j]);
  }

  /** A vector proportional to a posterior is its own total times the posterior. */
  lemma ScaledPosterior(m: Model, u: Vec, c: real, z: real, alpha: Vec)
    requires Posterior(m, alpha) && c > 0.0 && z > 0.0
    requires u == Scale(c, Scale(z, alpha))
    ensures Sum(u) > 0.0 && u == Scale(Sum(u), alpha)
  {
    hide Scale, Sum, Times;
    ScaleTwice(c, z, alpha);
    SumScale(c * z, alpha);
    ProductPositive(c, z);
  }

  /**
   Filtering is exact: the posterior after any emissions, times the total weight
   of all paths, is the weight of the paths that end in each state.
  */
  lemma {:induction false} FilterIsExact(m: Model, es: seq<Vec>)
    requires m.Valid() && Emissions(m, es) && es != []
    ensures Sum(BruteForce(m, es)) > 0.0
    ensures BruteForce(m, es) == Scale(Sum(BruteForce(m, es)), Filter(m, None, es).value)
  {
    var init, e := es[..|es| - 1], es[|es| - 1];
    assert es == init + [e];
    if init == [] {
      assert es == [e];
      FirstStepIsExact(m, e);
    } else {
      FilterIsExact(m, init);
      NextStepIsExact(m, init, e, Filter(m, None, init).value);
    }
  }

  lemma FirstStepIsExact(m: Model, e: Vec)
    requires m.Valid() && |e| == m.N() && AllPositive(e)
    ensures Emissions(m, [e])
    ensures var u := BruteForce(m, [e]); Sum(u) > 0.0 && u == Scale(Sum(u), Step(m, None, e))
  {
    hide BruteForce, Scale, Sum, Joint, Step, Arrival, Dot;
    forall j | 0 <= j < m.N() ensures BruteForce(m, [e])[j] == Scale(1.0, Joint(m, None, e))[j] {
      BruteForceStart(m, e, j);
    }
    SameVec(BruteForce(m, [e]), Scale(1.0, Joint(m, None, e)));
    ScaledPosterior(m, BruteForce(m, [e]), 1.0, Evidence(m, None, e), Step(m, None, e));
  }

  lemma NextStepIsExact(m: Model, es: seq<Vec>, e: Vec, alpha: Vec)
    requires m.Valid() && Emissions(m, es) && |e| == m.N() && AllPositive(e) && es != [] && Posterior(m, alpha)
    requires Sum(BruteForce(m, es)) > 0.0 && BruteForce(m, es) == Scale(Sum(BruteForce(m, es)), alpha)
    ensures Emissions(m, es + [e])
    ensures var u := BruteForce(m, es + [e]); Sum(u) > 0.0 && u == Scale(Sum(u), Step(m, Some(alpha), e))
  {
    hide BruteForce, Scale, Sum, Joint, Step, Arrival, Dot;
    var c, joint := Sum(BruteForce(m, es)), Joint(m, Some(alpha), e);
    forall j | 0 <= j < m.N() ensures BruteForce(m, es + [e])[j] == Scale(c, joint)[j] {
      BruteForceStep(m, es, e, j);
      JointScales(m, c, alpha, BruteForce(m, es), e, j);
    }
    SameVec(BruteForce(m, es + [e]), Scale(c, joint));
    ScaledPosterior(m, BruteForce(m, es + [e]), c, Evidence(m, Some(alpha), e), Step(m, Some(alpha), e));
  }
}
