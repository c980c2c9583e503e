/**
 The calendar folds of an expanding walk-forward: a growing training segment, a
 validation segment and contiguous out-of-sample windows, with embargo days between.
*/
module FoldSplit {
  import opened Basics
  import opened Calendar

  datatype Windows = Windows(initialTrain: int, walk: int, validation: int, embargo: int)

  datatype Split = Split(trainStart: Time, trainEnd: Time, validationStart: Time, validationEnd: Time,
                         testStart: Time, testEnd: Time, complete: bool)

  predicate Configured(w: Windows) {
    w.walk > 0 && w.validation > 0 && w.initialTrain > 0 && w.embargo >= 0
  }

  function Earliest(dates: seq<Time>): (t: Time)
    requires dates != []
    ensures t in dates && forall d :: d in dates ==> t <= d
  {
    var last := dates[|dates| - 1];
    assert dates == dates[..|dates| - 1] + [last];
    if |dates| == 1 then last
    else
      var t := Earliest(dates[..|dates| - 1]);
      if last < t then last else t
  }

  function Latest(dates: seq<Time>): (t: Time)
    requires dates != []
    ensures t in dates && forall d :: d in dates ==> d <= t
  {
    var last := dates[|dates| - 1];
    assert dates == dates[..|dates| - 1] + [last];
    if |dates| == 1 then last
    else
      var t := Latest(dates[..|dates| - 1]);
      if last > t then last else t
  }

  // ---------------------------------------------------------------- the folds

  function FirstTest(start: Time, w: Windows): Time {
    AddDays(AddMonths(start, w.initialTrain + w.validation), w.embargo)
  }

  function ValidationStart(test: Time, w: Windows): Time {
    AddMonths(AddDays(test, -w.embargo), -w.validation)
  }

  function SplitAt(start: Time, test: Time, latest: Time, w: Windows): Split {
    Split(start, AddDays(ValidationStart(test, w), -w.embargo), ValidationStart(test, w), AddDays(test, -w.embargo),
          test, AddMonths(test, w.walk), AddMonths(test, w.walk) <= AddDays(latest, 1))
  }

  ghost predicate Adjoins(folds: seq<Split>, i: nat)
    requires 0 < i < |folds|
  {
    folds[i - 1].testEnd == folds[i].testStart
  }

  /** The folds of a history: from the first test start on, window after window, up to the last date. */
  ghost predicate Folds(folds: seq<Split>, start: Time, latest: Time, w: Windows) {
    && (folds == [] <==> latest < FirstTest(start, w))
    && (folds != [] ==> folds[0].testStart == FirstTest(start, w) && latest < folds[|folds| - 1].testEnd)
    && (forall i ::
          0 <= i < |folds| ==>
            folds[i] == SplitAt(start, folds[i].testStart, latest, w) && folds[i].testStart <= latest)
    && (forall i :: 0 < i < |folds| ==> Adjoins(folds, i))
  }

  method SplitFolds(dates: seq<Time>, trainStart: Time, w: Windows) returns (r: Option<seq<Split>>)
    ensures r.Some? <==> 1 <= w.walk && 1 <= w.validation && 1 <= w.initialTrain && 0 <= w.embargo
    ensures r.Some? && dates == [] ==> r.value == []
    ensures r.Some? && dates != [] ==>
              Folds(r.value, if trainStart < Earliest(dates) then Earliest(dates) else trainStart, Latest(dates), w)
  {
    if w.walk <= 0 || w.validation <= 0 || w.initialTrain <= 0 || w.embargo < 0 {
      return None;
    }
    if dates == [] {
      return Some([]);
    }
    var earliest := Earliest(dates);
    var folds := FoldsFrom(if trainStart < earliest then earliest else trainStart, Latest(dates), w);
    return Some(folds);
  }

  method FoldsFrom(start: Time, latest: Time, w: Windows) returns (folds: seq<Split>)
    requires Configured(w)
    ensures Folds(folds, start, latest, w)
  {
    hide AddMonths, AddDays, Building, Folds;
    var current := AddDays(AddMonths(start, w.initialTrain + w.validation), w.embargo);
    folds := [];
    NothingBuilt(start, latest, w);
    while current <= latest
      invariant Building(folds, start, latest, w, current)
      decreases latest - current
    {
      var end := AddMonths(current, w.walk);
      var validationEnd := AddDays(current, -w.embargo);
      var validationStart := AddMonths(validationEnd, -w.validation);
      var trainEnd := AddDays(validationStart, -w.embargo);
      var fold := Split(start, trainEnd, validationStart, validationEnd, current, end, end <= AddDays(latest, 1));
      BuildNext(folds, start, latest, w, current, fold);
      AddMonthsMoves(current, w.walk);
      folds := folds + [fold];
      current := end;
    }
    Built(folds, start, latest, w, current);
  }

  /** The folds up to the next test start. */
  ghost predicate Building(folds: seq<Split>, start: Time, latest: Time, w: Windows, current: Time) {
    && current == (if folds == [] then FirstTest(start, w) else folds[|folds| - 1].testEnd)
    && (folds != [] ==> folds[0].testStart == FirstTest(start, w))
    && (forall i ::
          0 <= i < |folds| ==>
            folds[i] == SplitAt(start, folds[i].testStart, latest, w) && folds[i].testStart <= latest)
    && (forall i :: 0 < i < |folds| ==> Adjoins(folds, i))
  }

  lemma NothingBuilt(start: Time, latest: Time, w: Windows)
    ensures Building([], start, latest, w, FirstTest(start, w))
  {
  }

  lemma Built(folds: seq<Split>, start: Time, latest: Time, w: Windows, current: Time)
    requires Building(folds, start, latest, w, current) && latest < current
    ensures Folds(folds, start, latest, w)
  {
    hide FirstTest, SplitAt;
  }

  lemma BuildNext(folds: seq<Split>, start: Time, latest: Time, w: Windows, current: Time, f: Split)
    requires Building(folds, start, latest, w, current) && current <= latest && f == SplitAt(start, current, latest, w)
    ensures Building(folds + [f], start, latest, w, f.testEnd)
  {
    hide FirstTest, AddMonths;
    forall i | 0 < i < |folds + [f]| ensures Adjoins(folds + [f], i) {
      assert i < |folds| ==> Adjoins(folds, i);
    }
  }

  /** The segments of a fold lie one after the other. */
  lemma SegmentsAreOrdered(start: Time, test: Time, latest: Time, w: Windows)
    requires Configured(w)
    ensures var f := SplitAt(start, test, latest, w);
            f.trainEnd <= f.validationStart < f.validationEnd <= f.testStart < f.testEnd
  {
    hide AddMonths;
    AddMonthsMoves(AddDays(test, -w.embargo), -w.validation);
    AddMonthsMoves(test, w.walk);
  }

  /** Instant b is a moved by whole months: the same time of day, and the same day unless its month is too short. */
  ghost predicate Moved(a: Time, b: Time, months: int) {
    var last := MonthLength(MonthOf(b / DAY)) - 1;
    && MonthOf(b / DAY) == MonthOf(a / DAY) + months && b % DAY == a % DAY
    && DayOfMonth(b) == if DayOfMonth(a) <= last then DayOfMonth(a) else last
  }

  /**
   The layout of every fold, counted back from its test window: embargo days, the validation months,
   embargo days again, and before them everything since the start; the window itself is the walk
   months, complete when its end is no later than a day after the last date.
  */
  lemma EmbargoSeparates(folds: seq<Split>, start: Time, latest: Time, w: Windows, i: nat)
    requires Configured(w) && Folds(folds, start, latest, w) && i < |folds|
    ensures var f := folds[i];
            && f.trainStart == start
            && f.trainEnd + w.embargo * DAY == f.validationStart
            && Moved(f.validationEnd, f.validationStart, -w.validation)
            && f.validationEnd + w.embargo * DAY == f.testStart
            && Moved(f.testStart, f.testEnd, w.walk)
            && (f.complete <==> f.testEnd <= latest + DAY)
  {
    hide AddMonths, MonthOf, MonthLength, FirstDay, DayOfMonth, FirstTest, Adjoins;
    var f := folds[i];
    assert f == SplitAt(start, f.testStart, latest, w);
    hide Folds;
    AddMonthsParts(f.validationEnd, -w.validation);
    AddMonthsParts(f.testStart, w.walk);
  }

  /** The first test window starts the embargo days after the initial and the validation months. */
  lemma FirstTestIsPlaced(start: Time, w: Windows)
    ensures Moved(start, FirstTest(start, w) - w.embargo * DAY, w.initialTrain + w.validation)
  {
    hide AddMonths, MonthOf, MonthLength, FirstDay, DayOfMonth;
    AddMonthsParts(start, w.initialTrain + w.validation);
  }

  lemma {:induction false} WindowsAscend(folds: seq<Split>, start: Time, latest: Time, w: Windows, i: nat, j: nat)
    requires Configured(w) && Folds(folds, start, latest, w) && i < j < |folds|
    ensures folds[i].testEnd <= folds[j].testStart
  {
    hide AddMonths;
    assert Adjoins(folds, j);
    if i < j - 1 {
      SegmentsAreOrdered(start, folds[j - 1].testStart, latest, w);
      WindowsAscend(folds, start, latest, w, i, j - 1);
    }
  }

  ghost predicate InTest(f: Split, d: Time) {
    f.testStart <= d < f.testEnd
  }

  /** Every date from the first test start to the last date lies in exactly one test window. */
  lemma TestWindowsTile(folds: seq<Split>, start: Time, latest: Time, w: Windows, d: Time) returns (i: nat)
    requires Configured(w) && Folds(folds, start, latest, w) && FirstTest(start, w) <= d <= latest
    ensures i < |folds| && InTest(folds[i], d)
    ensures forall j :: 0 <= j < |folds| && InTest(folds[j], d) ==> j == i
  {
    hide AddMonths, SplitAt;
    i := 0;
    while folds[i].testEnd <= d
      invariant i < |folds| && folds[i].testStart <= d
      decreases |folds| - i
    {
      assert i < |folds| - 1;
      assert Adjoins(folds, i + 1);
      i := i + 1;
    }
    forall j | 0 <= j < |folds| && InTest(folds[j], d) ensures j == i {
      if j < i {
        WindowsAscend(folds, start, latest, w, j, i);
      } else if i < j {
        WindowsAscend(folds, start, latest, w, i, j);
      }
    }
  }

  /** Only the last window can be incomplete. */
  lemma OnlyTheLastIsIncomplete(folds: seq<Split>, start: Time, latest: Time, w: Windows, i: nat)
    requires Folds(folds, start, latest, w) && i < |folds| - 1
    ensures folds[i].complete
  {
    assert Adjoins(folds, i + 1);
  }

  /** These conditions leave no freedom: a history has one list of folds. */
  lemma FoldsAreDetermined(x: seq<Split>, y: seq<Split>, start: Time, latest: Time, w: Windows)
    requires Configured(w) && Folds(x, start, latest, w) && Folds(y, start, latest, w)
    ensures x == y
  {
    hide AddMonths;
    if x != [] {
      var n := if |x| <= |y| then |x| else |y|;
      forall i | 0 <= i < n ensures x[i] == y[i] {
        SameFold(x, y, start, latest, w, i);
      }
      if |x| < |y| {
        WindowsAscend(y, start, latest, w, |x| - 1, |x|);
      } else if |y| < |x| {
        WindowsAscend(x, start, latest, w, |y| - 1, |y|);
      }
    }
  }

  lemma {:induction false} SameFold(x: seq<Split>, y: seq<Split>, start: Time, latest: Time, w: Windows, i: nat)
    requires Folds(x, start, latest, w) && Folds(y, start, latest, w) && i < |x| && i < |y|
    ensures x[i] == y[i]
  {
    hide AddMonths;
    if i > 0 {
      SameFold(x, y, start, latest, w, i - 1);
      assert Adjoins(x, i) && Adjoins(y, i);
    }
  }

  lemma {:induction false} TestTimeOfDay(folds: seq<Split>, start: Time, latest: Time, w: Windows, i: nat)
    requires Folds(folds, start, latest, w) && i < |folds|
    ensures folds[i].testStart % DAY == start % DAY
  {
    hide AddMonths, MonthOf, DayOfMonth, MonthLength, ValidationStart;
    if i == 0 {
      AddMonthsParts(start, w.initialTrain + w.validation);
      DaysKeepTimeOfDay(AddMonths(start, w.initialTrain + w.validation), w.embargo);
    } else {
      assert Adjoins(folds, i);
      TestTimeOfDay(folds, start, latest, w, i - 1);
      AddMonthsParts(folds[i - 1].testStart, w.walk);
    }
  }

  lemma DaysKeepTimeOfDay(t: Time, n: int)
    ensures AddDays(t, n) % DAY == t % DAY
  {
    InstantIsDayAndTime(t);
    DayAndTime(t / DAY + n, t % DAY);
    assert AddDays(t, n) == (t / DAY + n) * DAY + t % DAY;
  }

  /** Training expands from fold to fold: an earlier training window is part of every later one. */
  lemma TrainingExpands(folds: seq<Split>, start: Time, latest: Time, w: Windows, i: nat, j: nat)
    requires Configured(w) && Folds(folds, start, latest, w) && i < j < |folds|
    ensures folds[i].trainStart == folds[j].trainStart && folds[i].trainEnd <= folds[j].trainEnd
  {
    hide AddMonths, MonthOf, DayOfMonth, MonthLength, FirstDay;
    WindowsAscend(folds, start, latest, w, i, j);
    SegmentsAreOrdered(start, folds[i].testStart, latest, w);
    TestTimeOfDay(folds, start, latest, w, i);
    TestTimeOfDay(folds, start, latest, w, j);
    DaysKeepTimeOfDay(folds[i].testStart, -w.embargo);
    DaysKeepTimeOfDay(folds[j].testStart, -w.embargo);
    AddMonthsMonotone(AddDays(folds[i].testStart, -w.embargo), AddDays(folds[j].testStart, -w.embargo), -w.validation);
  }
}
