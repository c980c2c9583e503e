/**
 The walk-forward run: the rows each fold trains, validates and predicts on, and the
 independent check of the resulting fold evidence.

 Fitting and prediction are outside: a fold is what rows it uses and records.
*/
module WalkForward {
  import opened Basics
  import opened FoldSplit

  /** One decision row: when it is decided, its label ends and its features were known; is its label a finite number. */
  datatype Row = Row(at: Time, labelEnd: Time, availableAt: Time, labelled: bool)

  datatype FoldEvidence = FoldEvidence(split: Split, trainRows: nat, validationRows: nat, testRows: nat,
                                       purgedRows: int, labelEndMax: Time, validationLabelEndMax: Time)

  datatype Run = Run(evidence: seq<FoldEvidence>, predicted: seq<nat>)

  // ---------------------------------------------------------------- the rows of a fold

  predicate Inside(r: Row, lo: Time, hi: Time) {
    lo <= r.at < hi
  }

  /** Row numbers of a segment. Purging drops the rows whose label is not over before the segment is. */
  function Pick(rows: seq<Row>, lo: Time, hi: Time, purge: bool): seq<nat> {
    if rows == [] then []
    else
      var n := |rows| - 1;
      Pick(rows[..n], lo, hi, purge) +
        (if Inside(rows[n], lo, hi) && (purge ==> rows[n].labelEnd < hi) then [n] else [])
  }

  ghost predicate Picked(rows: seq<Row>, i: int, lo: Time, hi: Time, purge: bool) {
    0 <= i < |rows| && Inside(rows[i], lo, hi) && (purge ==> rows[i].labelEnd < hi)
  }

  function Train(rows: seq<Row>, f: Split): seq<nat> { Pick(rows, f.trainStart, f.trainEnd, true) }

  function Validation(rows: seq<Row>, f: Split): seq<nat> { Pick(rows, f.validationStart, f.validationEnd, true) }

  function Test(rows: seq<Row>, f: Split): seq<nat> { Pick(rows, f.testStart, f.testEnd, false) }

  function Purged(rows: seq<Row>, lo: Time, hi: Time): int {
    |Pick(rows, lo, hi, false)| - |Pick(rows, lo, hi, true)|
  }

  ghost predicate Ascending(ids: seq<nat>) {
    forall i, j :: 0 <= i < j < |ids| ==> ids[i] < ids[j]
  }

  lemma {:induction false} PickMembers(rows: seq<Row>, lo: Time, hi: Time, purge: bool)
    ensures Ascending(Pick(rows, lo, hi, purge))
    ensures forall i :: i in Pick(rows, lo, hi, purge) <==> Picked(rows, i, lo, hi, purge)
  {
    if rows != [] {
      var n := |rows| - 1;
      PickMembers(rows[..n], lo, hi, purge);
      var before := Pick(rows[..n], lo, hi, purge);
      forall k | 0 <= k < |before| ensures before[k] < n {
        assert before[k] in before;
      }
    }
  }

  method Mask(rows: seq<Row>, lo: Time, hi: Time, purge: bool) returns (ids: seq<nat>)
    ensures ids == Pick(rows, lo, hi, purge)
  {
    ids := [];
    for i := 0 to |rows|
      invariant ids == Pick(rows[..i], lo, hi, purge)
    {
      assert rows[..i + 1][..i] == rows[..i];
      if lo <= rows[i].at < hi && (!purge || rows[i].labelEnd < hi) {
        ids := ids + [i];
      }
    }
    assert rows[..|rows|] == rows;
  }

  function MaxEnd(rows: seq<Row>, ids: seq<nat>): (t: Time)
    requires ids != [] && forall i :: i in ids ==> i < |rows|
    ensures exists i :: i in ids && rows[i].labelEnd == t
    ensures forall i :: i in ids ==> rows[i].labelEnd <= t
  {
    assert ids == ids[..|ids| - 1] + [ids[|ids| - 1]];
    assert ids[|ids| - 1] in ids;
    var last := rows[ids[|ids| - 1]].labelEnd;
    if |ids| == 1 then last
    else
      var init := ids[..|ids| - 1];
      assert |init| > 0 && forall i :: i in init ==> i in ids;
      var t := MaxEnd(rows, init);
      if last > t then last else t
  }

  function EvidenceOf(rows: seq<Row>, f: Split): Option<FoldEvidence> {
    var train, validation, test := Train(rows, f), Validation(rows, f), Test(rows, f);
    PickMembers(rows, f.trainStart, f.trainEnd, true);
    PickMembers(rows, f.validationStart, f.validationEnd, true);
    if train == [] || validation == [] || test == [] then None
    else if exists i :: i in train + validation && !rows[i].labelled then None
    else
      Some(FoldEvidence(f, |train|, |validation|, |test|,
                    Purged(rows, f.trainStart, f.trainEnd) + Purged(rows, f.validationStart, f.validationEnd),
                    MaxEnd(rows, train), MaxEnd(rows, validation)))
  }

  // ---------------------------------------------------------------- the run

  /** Rows are sorted by decision time, features are known by then, and every label ends after its decision. */
  predicate Ordered(rows: seq<Row>) {
    && (forall i, j :: 0 <= i < j < |rows| ==> rows[i].at <= rows[j].at)
    && (forall i :: 0 <= i < |rows| ==> rows[i].availableAt <= rows[i].at < rows[i].labelEnd)
  }

  function Dates(rows: seq<Row>): seq<Time> {
    seq(|rows|, i requires 0 <= i < |rows| => rows[i].at)
  }

  /** Rows predicted by the first n folds, in the order they are concatenated. */
  function Predictions(rows: seq<Row>, folds: seq<Split>, n: nat): seq<nat>
    requires n <= |folds|
  {
    if n == 0 then [] else Predictions(rows, folds, n - 1) + Test(rows, folds[n - 1])
  }

  /** No row before its predecessor, none known or labelled in hindsight. */
  ghost predicate Causal(rows: seq<Row>) {
    && (forall i :: 0 < i < |rows| ==> Follows(rows, i))
    && (forall r :: r in rows ==> r.availableAt <= r.at && r.at < r.labelEnd)
  }

  ghost predicate Follows(rows: seq<Row>, i: nat)
    requires 0 < i < |rows|
  {
    rows[i - 1].at <= rows[i].at
  }

  lemma OrderedIsCausal(rows: seq<Row>)
    ensures Ordered(rows) <==> Causal(rows)
  {
    if Causal(rows) {
      forall i, j | 0 <= i < j < |rows| ensures rows[i].at <= rows[j].at {
        CausalAscends(rows, i, j);
      }
    }
    assert forall i :: 0 <= i < |rows| ==> rows[i] in rows;
  }

  lemma {:induction false} CausalAscends(rows: seq<Row>, i: nat, j: nat)
    requires Causal(rows) && i < j < |rows|
    ensures rows[i].at <= rows[j].at
  {
    assert Follows(rows, j);
    if i < j - 1 {
      CausalAscends(rows, i, j - 1);
    }
  }

  ghost predicate Runs(rows: seq<Row>, folds: seq<Split>, w: Windows, n: nat) {
    && rows != [] && Causal(rows) && Configured(w)
    && Folds(folds, rows[0].at, rows[|rows| - 1].at, w) && n <= |folds|
    && forall i :: 0 <= i < n ==> EvidenceOf(rows, folds[i]).Some?
  }

  ghost predicate Records(run: Run, rows: seq<Row>, folds: seq<Split>, n: nat)
    requires n <= |folds|
  {
    && |run.evidence| == n && run.predicted == Predictions(rows, folds, n)
    && forall i :: 0 <= i < n ==> EvidenceOf(rows, folds[i]) == Some(run.evidence[i])
  }

  lemma EndsOfSorted(rows: seq<Row>)
    requires rows != [] && Ordered(rows)
    ensures Dates(rows) != [] && Earliest(Dates(rows)) == rows[0].at && Latest(Dates(rows)) == rows[|rows| - 1].at
  {
    var dates := Dates(rows);
    assert dates[0] == rows[0].at && dates[|rows| - 1] == rows[|rows| - 1].at;
    assert dates[0] in dates && dates[|rows| - 1] in dates;
    assert forall i :: 0 <= i < |dates| ==> dates[0] <= dates[i] <= dates[|dates| - 1];
  }

  /** The fold loop. It fails exactly when an input check or a fold does: predictions never overlap. */
  method RunFolds(rows: seq<Row>, w: Windows) returns (r: Option<Run>, folds: seq<Split>)
    ensures rows != [] && Causal(rows) && Configured(w) ==> Folds(folds, rows[0].at, rows[|rows| - 1].at, w)
    ensures r.Some? <==> folds != [] && Runs(rows, folds, w, |folds|)
    ensures r.Some? ==> Records(r.value, rows, folds, |folds|)
  {
    OrderedIsCausal(rows);
    hide Ordered, Causal, Folds, EvidenceOf;
    if rows == [] || !Ordered(rows) {
      return None, [];
    }
    EndsOfSorted(rows);
    var split := SplitFolds(Dates(rows), rows[0].at, w);
    if split.None? || split.value == [] {
      return None, [];
    }
    var run := RunEach(rows, split.value, w);
    return run, split.value;
  }

  method RunEach(rows: seq<Row>, folds: seq<Split>, w: Windows) returns (r: Option<Run>)
    requires Runs(rows, folds, w, 0)
    ensures r.Some? <==> Runs(rows, folds, w, |folds|)
    ensures r.Some? ==> Records(r.value, rows, folds, |folds|)
  {
    hide EvidenceOf, Folds, Ordered, Test, Causal;
    var evidence, predicted := [], [];
    for n := 0 to |folds|
      invariant Runs(rows, folds, w, n) && Records(Run(evidence, predicted), rows, folds, n)
    {
      var e := RunFold(rows, folds[n]);
      if e.None? {
        return None;
      }
      var test := Mask(rows, folds[n].testStart, folds[n].testEnd, false);
      TestRows(rows, folds[n]);
      evidence, predicted := evidence + [e.value], predicted + test;
    }
    OrderedIsCausal(rows);
    PredictedInOrder(rows, folds, rows[0].at, rows[|rows| - 1].at, w, |folds|);
    if exists i, j :: 0 <= i < j < |predicted| && predicted[i] == predicted[j] {
      assert false;
    }
    return Some(Run(evidence, predicted));
  }

  lemma TestRows(rows: seq<Row>, f: Split)
    ensures Test(rows, f) == Pick(rows, f.testStart, f.testEnd, false)
  {
  }

  method RunFold(rows: seq<Row>, f: Split) returns (e: Option<FoldEvidence>)
    ensures e == EvidenceOf(rows, f)
  {
    hide Pick, MaxEnd;
    var trainRaw := Mask(rows, f.trainStart, f.trainEnd, false);
    var train := Mask(rows, f.trainStart, f.trainEnd, true);
    var validationRaw := Mask(rows, f.validationStart, f.validationEnd, false);
    var validation := Mask(rows, f.validationStart, f.validationEnd, true);
    var test := Mask(rows, f.testStart, f.testEnd, false);
    if train == [] || validation == [] || test == [] {
      return None;
    }
    PickMembers(rows, f.trainStart, f.trainEnd, true);
    PickMembers(rows, f.validationStart, f.validationEnd, true);
    if exists i :: i in train + validation && !rows[i].labelled {
      return None;
    }
    return Some(FoldEvidence(f, |train|, |validation|, |test|, |trainRaw| - |train| + (|validationRaw| - |validation|),
                         MaxEnd(rows, train), MaxEnd(rows, validation)));
  }

  // ---------------------------------------------------------------- every out-of-sample row once

  /** Predicted rows come out in their own order, and they are the rows of the windows so far. */
  lemma {:induction false} PredictedInOrder(rows: seq<Row>, folds: seq<Split>, start: Time, latest: Time, w: Windows,
                                            n: nat)
    requires Ordered(rows) && Configured(w) && n <= |folds| && Folds(folds, start, latest, w)
    ensures Ascending(Predictions(rows, folds, n))
    ensures forall i :: i in Predictions(rows, folds, n) <==>
                          n > 0 && Picked(rows, i, FirstTest(start, w), folds[n - 1].testEnd, false)
  {
    hide FirstTest, SplitAt, Pick;
    if n > 0 {
      var f := folds[n - 1];
      PredictedInOrder(rows, folds, start, latest, w, n - 1);
      PickMembers(rows, f.testStart, f.testEnd, false);
      WindowStarts(folds, start, latest, w, n - 1);
      AppendPicked(rows, Predictions(rows, folds, n - 1), Test(rows, f), FirstTest(start, w), f.testStart, f.testEnd);
    }
  }

  /** A window starts where the one before ends, and not before the first. */
  lemma WindowStarts(folds: seq<Split>, start: Time, latest: Time, w: Windows, n: nat)
    requires Configured(w) && Folds(folds, start, latest, w) && n < |folds|
    ensures FirstTest(start, w) <= folds[n].testStart < folds[n].testEnd
    ensures if n == 0 then folds[n].testStart == FirstTest(start, w) else folds[n - 1].testEnd == folds[n].testStart
  {
    hide FirstTest;
    SegmentsAreOrdered(start, folds[n].testStart, latest, w);
    SegmentsAreOrdered(start, folds[0].testStart, latest, w);
    hide SplitAt;
    if n > 0 {
      assert Adjoins(folds, n);
      WindowsAscend(folds, start, latest, w, 0, n);
    }
  }

  lemma AppendPicked(rows: seq<Row>, x: seq<nat>, y: seq<nat>, lo: Time, mid: Time, hi: Time)
    requires Ordered(rows) && Ascending(x) && Ascending(y) && lo <= mid < hi
    requires (forall i :: i in x <==> Picked(rows, i, lo, mid, false))
             && forall i :: i in y <==> Picked(rows, i, mid, hi, false)
    ensures Ascending(x + y) && forall i :: i in x + y <==> Picked(rows, i, lo, hi, false)
  {
    forall i, j | 0 <= i < |x| && 0 <= j < |y| ensures x[i] < y[j] {
      assert Picked(rows, x[i], lo, mid, false) && Picked(rows, y[j], mid, hi, false) by {
        assert x[i] in x && y[j] in y;
      }
      assert rows[x[i]].at < mid <= rows[y[j]].at;
    }
  }

  /** A successful run predicts every row from the first test start on, each exactly once. */
  lemma EachRowIsPredictedOnce(rows: seq<Row>, folds: seq<Split>, w: Windows, run: Run)
    requires folds != [] && Runs(rows, folds, w, |folds|) && Records(run, rows, folds, |folds|)
    ensures Ascending(run.predicted)
    ensures forall i :: i in run.predicted <==> 0 <= i < |rows| && FirstTest(rows[0].at, w) <= rows[i].at
  {
    hide EvidenceOf, FirstTest, SplitAt;
    OrderedIsCausal(rows);
    PredictedInOrder(rows, folds, rows[0].at, rows[|rows| - 1].at, w, |folds|);
    forall i | 0 <= i < |rows| ensures rows[i].at < folds[|folds| - 1].testEnd {
      assert rows[i].at <= rows[|rows| - 1].at;
    }
  }

  // ---------------------------------------------------------------- no label leaks forward

  /** The segments of a fold come before its window and every later one. */
  lemma SegmentsPrecedeWindows(rows: seq<Row>, folds: seq<Split>, w: Windows, i: nat, j: nat)
    requires Runs(rows, folds, w, |folds|) && i <= j < |folds|
    ensures folds[i].trainEnd <= folds[i].validationStart && folds[i].validationEnd <= folds[j].testStart
  {
    hide EvidenceOf, Causal, FirstTest, Adjoins;
    var start, latest := rows[0].at, rows[|rows| - 1].at;
    assert folds[i] == SplitAt(start, folds[i].testStart, latest, w);
    SegmentsAreOrdered(start, folds[i].testStart, latest, w);
    if i < j {
      WindowsAscend(folds, start, latest, w, i, j);
    }
    hide Folds, SplitAt;
  }

  /** Labels a fold learns from are over before any row it validates or, then or later, predicts is decided. */
  lemma NoLabelLeaks(rows: seq<Row>, folds: seq<Split>, w: Windows, i: nat, j: nat, a: nat, v: nat, t: nat)
    requires Runs(rows, folds, w, |folds|) && i <= j < |folds|
    requires a in Train(rows, folds[i]) && v in Validation(rows, folds[i]) && t in Test(rows, folds[j])
    ensures a < |rows| && v < |rows| && t < |rows|
    ensures rows[a].labelEnd < rows[v].at && rows[v].labelEnd < rows[t].at
  {
    hide Runs, Pick;
    PickMembers(rows, folds[i].trainStart, folds[i].trainEnd, true);
    PickMembers(rows, folds[i].validationStart, folds[i].validationEnd, true);
    PickMembers(rows, folds[j].testStart, folds[j].testEnd, false);
    SegmentsPrecedeWindows(rows, folds, w, i, j);
  }

  /** No row decided in the embargo days before a fold's validation or test window is trained or validated on. */
  lemma EmbargoedRowsAreUnused(rows: seq<Row>, folds: seq<Split>, w: Windows, i: nat, a: nat)
    requires Runs(rows, folds, w, |folds|) && i < |folds|
    requires a in Train(rows, folds[i]) || a in Validation(rows, folds[i])
    ensures a < |rows|
    ensures !(folds[i].validationStart - w.embargo * DAY <= rows[a].at < folds[i].validationStart)
    ensures !(folds[i].testStart - w.embargo * DAY <= rows[a].at < folds[i].testStart)
    ensures rows[a].labelEnd < folds[i].testStart - w.embargo * DAY
  {
    var f := folds[i];
    EmbargoSeparates(folds, rows[0].at, rows[|rows| - 1].at, w, i);
    SegmentsAreOrdered(rows[0].at, f.testStart, rows[|rows| - 1].at, w);
    assert f == SplitAt(rows[0].at, f.testStart, rows[|rows| - 1].at, w);
    PickMembers(rows, f.trainStart, f.trainEnd, true);
    PickMembers(rows, f.validationStart, f.validationEnd, true);
    hide SplitAt, Folds, Moved;
  }

  /** Rows decided in a segment, with their label over before its end or not. */
  ghost function Decided(rows: seq<Row>, lo: Time, hi: Time, over: bool): set<nat> {
    set i: nat | i < |rows| && DecidedIn(rows[i], lo, hi, over)
  }

  ghost predicate DecidedIn(r: Row, lo: Time, hi: Time, over: bool) {
    lo <= r.at && r.at < hi && (r.labelEnd < hi <==> over)
  }

  lemma {:induction false} PickCounts(rows: seq<Row>, lo: Time, hi: Time)
    ensures |Pick(rows, lo, hi, true)| == |Decided(rows, lo, hi, true)|
    ensures |Pick(rows, lo, hi, false)| == |Decided(rows, lo, hi, true)| + |Decided(rows, lo, hi, false)|
  {
    assert rows == [] ==> Decided(rows, lo, hi, true) == {} && Decided(rows, lo, hi, false) == {};
    hide Decided;
    if rows != [] {
      PickCounts(rows[..|rows| - 1], lo, hi);
      DecidedGrows(rows, lo, hi, true);
      DecidedGrows(rows, lo, hi, false);
    }
  }

  lemma DecidedGrows(rows: seq<Row>, lo: Time, hi: Time, over: bool)
    requires rows != []
    ensures |Decided(rows, lo, hi, over)|
            == |Decided(rows[..|rows| - 1], lo, hi, over)| + if DecidedIn(rows[|rows| - 1], lo, hi, over) then 1 else 0
  {
    hide DecidedIn;
    var init, last := rows[..|rows| - 1], rows[|rows| - 1];
    var more: set<nat> := if DecidedIn(last, lo, hi, over) then {|init|} else {};
    assert Decided(rows, lo, hi, over) == Decided(init, lo, hi, over) + more;
    assert Decided(init, lo, hi, over) !! more;
  }

  /** Every row decided in a segment with its label over before the end is labelled, and there is one. */
  ghost predicate Learnable(rows: seq<Row>, lo: Time, hi: Time) {
    && (exists i :: 0 <= i < |rows| && DecidedIn(rows[i], lo, hi, true))
    && forall i :: 0 <= i < |rows| && DecidedIn(rows[i], lo, hi, true) ==> rows[i].labelled
  }

  /** A fold succeeds exactly when it can learn and validate, and has a row to predict. */
  lemma FoldSucceedsExactly(rows: seq<Row>, f: Split)
    ensures EvidenceOf(rows, f).Some? <==>
              && Learnable(rows, f.trainStart, f.trainEnd) && Learnable(rows, f.validationStart, f.validationEnd)
              && exists i :: 0 <= i < |rows| && f.testStart <= rows[i].at && rows[i].at < f.testEnd
  {
    var train, validation, test := Train(rows, f), Validation(rows, f), Test(rows, f);
    PickMembers(rows, f.trainStart, f.trainEnd, true);
    PickMembers(rows, f.validationStart, f.validationEnd, true);
    PickMembers(rows, f.testStart, f.testEnd, false);
    hide Pick;
    assert test != [] ==> test[0] in test;
    LearnsExactly(rows, f.trainStart, f.trainEnd, train);
    LearnsExactly(rows, f.validationStart, f.validationEnd, validation);
    hide Learnable, Picked;
    assert forall i :: i in train + validation <==> i in train || i in validation;
    if exists i :: 0 <= i < |rows| && f.testStart <= rows[i].at && rows[i].at < f.testEnd {
      var i :| 0 <= i < |rows| && f.testStart <= rows[i].at && rows[i].at < f.testEnd;
      PickedInTest(rows, f, i);
    }
    if test != [] {
      PickedInTest(rows, f, test[0]);
    }
  }

  lemma PickedInTest(rows: seq<Row>, f: Split, i: nat)
    ensures i in Test(rows, f) <==> i < |rows| && f.testStart <= rows[i].at && rows[i].at < f.testEnd
  {
    PickMembers(rows, f.testStart, f.testEnd, false);
  }

  lemma LearnsExactly(rows: seq<Row>, lo: Time, hi: Time, ids: seq<nat>)
    requires forall i :: i in ids <==> Picked(rows, i, lo, hi, true)
    ensures Learnable(rows, lo, hi) <==> ids != [] && !exists i :: i in ids && i < |rows| && !rows[i].labelled
  {
    assert forall i :: 0 <= i < |rows| ==> (DecidedIn(rows[i], lo, hi, true) <==> Picked(rows, i, lo, hi, true));
    hide DecidedIn;
    assert ids != [] ==> ids[0] in ids;
  }

  /** The recorded counts are those of the rows decided in each segment; the purged ones had labels not yet over. */
  lemma EvidenceCounts(rows: seq<Row>, f: Split)
    requires EvidenceOf(rows, f).Some?
    ensures var e := EvidenceOf(rows, f).value;
            && e.split == f
            && e.trainRows == |Decided(rows, f.trainStart, f.trainEnd, true)|
            && e.validationRows == |Decided(rows, f.validationStart, f.validationEnd, true)|
            && e.testRows == |Decided(rows, f.testStart, f.testEnd, true)|
                             + |Decided(rows, f.testStart, f.testEnd, false)|
            && e.purgedRows == |Decided(rows, f.trainStart, f.trainEnd, false)|
                               + |Decided(rows, f.validationStart, f.validationEnd, false)|
  {
    PickCounts(rows, f.trainStart, f.trainEnd);
    PickCounts(rows, f.validationStart, f.validationEnd);
    PickCounts(rows, f.testStart, f.testEnd);
  }

  /** A row once trained on stays a training row of every later fold. */
  lemma TrainingRowsExpand(rows: seq<Row>, folds: seq<Split>, w: Windows, i: nat, j: nat, a: nat)
    requires Runs(rows, folds, w, |folds|) && i < j < |folds| && a in Train(rows, folds[i])
    ensures a in Train(rows, folds[j])
  {
    hide EvidenceOf;
    PickMembers(rows, folds[i].trainStart, folds[i].trainEnd, true);
    PickMembers(rows, folds[j].trainStart, folds[j].trainEnd, true);
    TrainingExpands(folds, rows[0].at, rows[|rows| - 1].at, w, i, j);
  }

  // ---------------------------------------------------------------- the independent check

  predicate SoundSplit(e: FoldEvidence) {
    && e.labelEndMax < e.split.trainEnd <= e.split.validationStart < e.split.validationEnd <= e.split.testStart
    && e.validationLabelEndMax < e.split.validationEnd
    && e.trainRows > 0 && e.validationRows > 0 && e.testRows > 0
  }

  predicate Successive(es: seq<FoldEvidence>, i: nat)
    requires 0 < i < |es|
  {
    es[i - 1].split.testEnd <= es[i].split.testStart
  }

  predicate SplitValid(es: seq<FoldEvidence>) {
    && es != []
    && (forall i :: 0 <= i < |es| ==> SoundSplit(es[i]))
    && (forall i :: 0 < i < |es| ==> Successive(es, i))
  }

  method CheckSplits(es: seq<FoldEvidence>) returns (valid: bool)
    ensures valid <==> SplitValid(es)
  {
    valid := es != [];
    for i := 0 to |es|
      invariant valid <==>
                es != [] && (forall k :: 0 <= k < i ==> SoundSplit(es[k]))
                  && (forall k :: 0 < k < i ==> Successive(es, k))
    {
      var f := es[i].split;
      valid := valid && es[i].labelEndMax < f.trainEnd <= f.validationStart < f.validationEnd <= f.testStart;
      valid := valid && es[i].validationLabelEndMax < f.validationEnd;
      valid := valid && es[i].trainRows > 0 && es[i].validationRows > 0 && es[i].testRows > 0;
      if i > 0 {
        valid := valid && es[i - 1].split.testEnd <= f.testStart;
      }
      assert i > 0 ==> (Successive(es, i) <==> es[i - 1].split.testEnd <= f.testStart);
    }
  }

  lemma PurgedLabelsEnd(rows: seq<Row>, lo: Time, hi: Time)
    requires Pick(rows, lo, hi, true) != []
    ensures (forall i :: i in Pick(rows, lo, hi, true) ==> i < |rows|) && MaxEnd(rows, Pick(rows, lo, hi, true)) < hi
  {
    PickMembers(rows, lo, hi, true);
    hide Pick;
  }

  lemma FoldIsSound(rows: seq<Row>, start: Time, test: Time, latest: Time, w: Windows)
    requires Configured(w)
    ensures var e := EvidenceOf(rows, SplitAt(start, test, latest, w)); e.Some? ==> SoundSplit(e.value)
  {
    var f := SplitAt(start, test, latest, w);
    SegmentsAreOrdered(start, test, latest, w);
    hide SplitAt, Pick, MaxEnd;
    if EvidenceOf(rows, f).Some? {
      PurgedLabelsEnd(rows, f.trainStart, f.trainEnd);
      PurgedLabelsEnd(rows, f.validationStart, f.validationEnd);
    }
  }

  /** Learned labels end inside their segments, which follow one another up to the test window. */
  ghost predicate Separated(e: FoldEvidence) {
    && e.labelEndMax < e.split.trainEnd && e.split.trainEnd <= e.split.validationStart
    && e.split.validationStart < e.split.validationEnd && e.validationLabelEndMax < e.split.validationEnd
    && e.split.validationEnd <= e.split.testStart
    && 1 <= e.trainRows && 1 <= e.validationRows && 1 <= e.testRows
  }

  /**
   What the check accepts: separated folds, each window from the end of the one before. With windows
   of some length, no fold then learns from a label that is open when it, or a later one, predicts.
  */
  lemma ValidSplitsDoNotLeak(es: seq<FoldEvidence>)
    ensures SplitValid(es) <==>
              && es != [] && (forall e :: e in es ==> Separated(e))
              && forall i :: 0 < i < |es| ==> Successive(es, i)
    ensures SplitValid(es) && (forall e :: e in es ==> e.split.testStart < e.split.testEnd) ==>
              forall i, j :: 0 <= i <= j < |es| ==>
                es[i].labelEndMax < es[j].split.testStart && es[i].validationLabelEndMax < es[j].split.testStart
  {
    assert forall i :: 0 <= i < |es| ==> es[i] in es;
    if SplitValid(es) && forall e :: e in es ==> e.split.testStart < e.split.testEnd {
      forall i, j | 0 <= i <= j < |es| ensures es[i].split.testStart <= es[j].split.testStart {
        TestsAscend(es, i, j);
      }
    }
  }

  lemma {:induction false} TestsAscend(es: seq<FoldEvidence>, i: nat, j: nat)
    requires SplitValid(es) && (forall e :: e in es ==> e.split.testStart < e.split.testEnd) && i <= j < |es|
    ensures es[i].split.testStart <= es[j].split.testStart
  {
    if i < j {
      assert Successive(es, j) && es[j - 1] in es;
      TestsAscend(es, i, j - 1);
    }
  }

  /** The evidence of every successful run passes the independent split check. */
  lemma SuccessfulRunsAreValid(rows: seq<Row>, folds: seq<Split>, w: Windows, run: Run)
    requires folds != [] && Runs(rows, folds, w, |folds|) && Records(run, rows, folds, |folds|)
    ensures SplitValid(run.evidence)
  {
    hide SplitAt, FirstTest, SoundSplit, Predictions;
    forall i | 0 <= i < |folds| ensures SoundSplit(run.evidence[i]) && run.evidence[i].split == folds[i] {
      FoldIsSound(rows, rows[0].at, folds[i].testStart, rows[|rows| - 1].at, w);
    }
    hide EvidenceOf;
    forall i | 0 < i < |folds| ensures Successive(run.evidence, i) {
      assert Adjoins(folds, i);
    }
  }
}
