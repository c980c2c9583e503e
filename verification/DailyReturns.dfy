/**
 Daily compounding of one accepted return chain between exact closes.

 A day is emitted when periods of the chain tile it exactly. The boundaries are
 an arbitrary increasing list of closes.
*/
module DailyReturns {
  import opened Basics
  import opened NavStore
  import opened NavReader

  datatype Day = Day(begin: Time, end: Time, availableAt: Time, growth: real, parts: seq<Nav>)

  datatype Daily = Daily(days: seq<Day>, expected: nat, unaggregated: seq<Nav>)

  /** What the partition hands over. */
  ghost predicate Sound(c: seq<Nav>) {
    && (forall i :: 0 <= i < |c| ==> NavWellFormed(c[i]))
    && Contiguous(c)
    && DistinctSources(c)
  }

  function Pairs(closes: seq<Time>, first: Time, cutoff: Time): seq<(Time, Time)> {
    if |closes| < 2 then []
    else
      var a, b := closes[|closes| - 2], closes[|closes| - 1];
      Pairs(closes[..|closes| - 1], first, cutoff) + (if first <= a && b <= cutoff then [(a, b)] else [])
  }

  function Growth(parts: seq<Nav>): real
    requires forall i :: 0 <= i < |parts| ==> NavWellFormed(parts[i])
  {
    if parts == [] then 1.0
    else
      assert NavWellFormed(parts[|parts| - 1]);
      Growth(parts[..|parts| - 1]) * Factor(parts[|parts| - 1])
  }

  function LatestAvailable(parts: seq<Nav>): (t: Time)
    requires parts != []
    ensures forall i :: 0 <= i < |parts| ==> parts[i].availableAt <= t
    ensures exists i :: 0 <= i < |parts| && parts[i].availableAt == t
  {
    var last := parts[|parts| - 1].availableAt;
    if |parts| == 1 then last
    else
      var t := LatestAvailable(parts[..|parts| - 1]);
      if last > t then last else t
  }

  // ---------------------------------------------------------------- what a day is

  /** Periods i to j tile the time from a to b and are known by the cutoff. */
  ghost predicate Tiles(c: seq<Nav>, cutoff: Time, a: Time, b: Time, i: nat, j: nat) {
    && i < j <= |c| && c[i].startedAt == a && c[j - 1].endedAt == b
    && forall k :: i <= k < j ==> c[k].availableAt <= cutoff
  }

  ghost predicate Tiled(c: seq<Nav>, cutoff: Time, a: Time, b: Time) {
    exists i: nat, j: nat :: Tiles(c, cutoff, a, b, i, j)
  }

  ghost predicate IsDay(c: seq<Nav>, cutoff: Time, d: Day, i: nat, j: nat) {
    && (forall k :: 0 <= k < |c| ==> NavWellFormed(c[k]))
    && Tiles(c, cutoff, d.begin, d.end, i, j)
    && d.parts == c[i..j] && d.growth == Growth(d.parts) && d.availableAt == LatestAvailable(d.parts)
  }

  /** The days of a list of pairs: one for every tiled pair, in order. */
  ghost predicate DaysOf(c: seq<Nav>, cutoff: Time, pairs: seq<(Time, Time)>, days: seq<Day>)
    decreases |pairs|
  {
    if pairs == [] then days == []
    else
      var (a, b) := pairs[|pairs| - 1];
      if Tiled(c, cutoff, a, b) then
        && days != []
        && var d := days[|days| - 1];
        && d.begin == a && d.end == b && (exists i: nat, j: nat :: IsDay(c, cutoff, d, i, j))
        && DaysOf(c, cutoff, pairs[..|pairs| - 1], days[..|days| - 1])
      else DaysOf(c, cutoff, pairs[..|pairs| - 1], days)
  }

  /** The periods of all days, in order. */
  ghost function PartsOf(days: seq<Day>): seq<Nav> {
    if days == [] then [] else PartsOf(days[..|days| - 1]) + days[|days| - 1].parts
  }

  function Unused(c: seq<Nav>, used: set<string>): seq<Nav> {
    if c == [] then []
    else
      var last := c[|c| - 1];
      Unused(c[..|c| - 1], used) + (if last.sourceId !in used then [last] else [])
  }

  ghost function Sources(ns: seq<Nav>): set<string> {
    set n | n in ns :: n.sourceId
  }

  ghost predicate AllStamped(ns: seq<Nav>) {
    forall i :: 0 <= i < |ns| ==> ns[i].opening > 0.0 && ns[i] == Stamped(ns[i])
  }

  // ---------------------------------------------------------------- order inside a chain

  lemma {:induction false} ChainInOrder(c: seq<Nav>, i: nat, j: nat)
    requires Sound(c) && i < j < |c|
    ensures c[i].endedAt <= c[j].startedAt
  {
    assert Joins(c, j);
    if i < j - 1 {
      ChainInOrder(c, i, j - 1);
    }
  }

  lemma TilesUnique(c: seq<Nav>, cutoff: Time, a: Time, b: Time, i: nat, j: nat, k: nat, l: nat)
    requires Sound(c) && Tiles(c, cutoff, a, b, i, j) && Tiles(c, cutoff, a, b, k, l)
    ensures i == k && j == l
  {
    if i < k { ChainInOrder(c, i, k); }
    if k < i { ChainInOrder(c, k, i); }
    if j < l { ChainInOrder(c, j - 1, l - 1); }
    if l < j { ChainInOrder(c, l - 1, j - 1); }
  }

  // ---------------------------------------------------------------- the cursor loop

  /** The periods of a chain by the time they start. */
  ghost predicate Starts(byStart: map<Time, Nav>, c: seq<Nav>) {
    && (forall i :: 0 <= i < |c| ==> c[i].startedAt in byStart && byStart[c[i].startedAt] == c[i])
    && (forall t :: t in byStart ==> byStart[t] in c && byStart[t].startedAt == t)
  }

  method IndexByStart(c: seq<Nav>) returns (byStart: map<Time, Nav>)
    requires Sound(c)
    ensures Starts(byStart, c)
  {
    byStart := map[];
    for i := 0 to |c|
      invariant Starts(byStart, c[..i])
    {
      forall k | 0 <= k < i ensures c[k].startedAt != c[i].startedAt {
        ChainInOrder(c, k, i);
      }
      assert c[..i + 1] == c[..i] + [c[i]];
      byStart := byStart[c[i].startedAt := c[i]];
    }
    assert c[..|c|] == c;
  }

  /** The cursor stands behind periods i to j, which tile the time since the begin. */
  ghost predicate Walked(c: seq<Nav>, cutoff: Time, begin: Time, cursor: Time, i: nat, j: nat) {
    && i <= j <= |c|
    && if i == j then cursor == begin else Tiles(c, cutoff, begin, cursor, i, j)
  }

  lemma WalkOn(c: seq<Nav>, byStart: map<Time, Nav>, cutoff: Time, begin: Time, cursor: Time, i: nat, j: nat)
    returns (k: nat, l: nat)
    requires Sound(c) && Starts(byStart, c) && Walked(c, cutoff, begin, cursor, i, j)
    requires cursor in byStart && byStart[cursor].availableAt <= cutoff
    ensures k <= l < |c| && c[l] == byStart[cursor] && cursor < c[l].endedAt
    ensures Walked(c, cutoff, begin, c[l].endedAt, k, l + 1)
    ensures c[i..j] + [c[l]] == c[k..l + 1]
  {
    hide Contiguous, DistinctSources;
    var m :| 0 <= m < |c| && c[m] == byStart[cursor];
    assert NavWellFormed(c[m]);
    if i == j {
      k, l := m, m;
    } else {
      NextIsAt(c, j, m);
      k, l := i, j;
    }
  }

  /** Walking from the begin of a day: the periods that tile it, if they do. */
  method Walk(c: seq<Nav>, byStart: map<Time, Nav>, cutoff: Time, begin: Time, end: Time)
    returns (parts: Option<seq<Nav>>)
    requires Sound(c) && Starts(byStart, c) && begin < end
    ensures parts.Some? <==> Tiled(c, cutoff, begin, end)
    ensures parts.Some? ==>
            exists i: nat, j: nat :: i < j <= |c| && Tiles(c, cutoff, begin, end, i, j) && parts.value == c[i..j]
  {
    hide Contiguous, DistinctSources, Starts, NavWellFormed;
    var cursor, taken := begin, [];
    ghost var i: nat, j: nat := 0, 0;
    while cursor < end
      invariant cursor <= end && Walked(c, cutoff, begin, cursor, i, j) && taken == c[i..j]
      decreases end - cursor
    {
      if cursor !in byStart || byStart[cursor].endedAt > end || byStart[cursor].availableAt > cutoff {
        NoTiling(c, byStart, cutoff, begin, end, cursor, i, j);
        return None;
      }
      var item := byStart[cursor];
      i, j := WalkOn(c, byStart, cutoff, begin, cursor, i, j);
      taken := taken + [item];
      cursor := item.endedAt;
      j := j + 1;
    }
    return Some(taken);
  }

  lemma NextIsAt(c: seq<Nav>, j: nat, k: nat)
    requires Sound(c) && 0 < j <= |c| && k < |c| && c[k].startedAt == c[j - 1].endedAt
    ensures k == j
  {
    if k < j {
      if k < j - 1 {
        ChainInOrder(c, k, j - 1);
      }
    } else {
      assert Joins(c, j);
      if j < k {
        ChainInOrder(c, j, k);
      }
    }
  }

  lemma NoTiling(c: seq<Nav>, byStart: map<Time, Nav>, cutoff: Time, begin: Time, end: Time, cursor: Time, i: nat,
                 j: nat)
    requires Sound(c) && Starts(byStart, c) && cursor < end && Walked(c, cutoff, begin, cursor, i, j)
    requires cursor !in byStart || byStart[cursor].endedAt > end || byStart[cursor].availableAt > cutoff
    ensures !Tiled(c, cutoff, begin, end)
  {
    if Tiled(c, cutoff, begin, end) {
      var k: nat, l: nat :| Tiles(c, cutoff, begin, end, k, l);
      TiledHasNext(c, cutoff, begin, end, cursor, i, j, k, l);
    }
  }

  lemma TiledHasNext(c: seq<Nav>, cutoff: Time, begin: Time, end: Time, cursor: Time, i: nat, j: nat, k: nat, l: nat)
    requires Sound(c) && cursor < end && Walked(c, cutoff, begin, cursor, i, j) && Tiles(c, cutoff, begin, end, k, l)
    ensures exists m :: 0 <= m < |c| && c[m].startedAt == cursor && c[m].endedAt <= end && c[m].availableAt <= cutoff
  {
    var m := if i == j then k else j;
    if i < j {
      if i < k { ChainInOrder(c, i, k); }
      if k < i { ChainInOrder(c, k, i); }
      if l < j { ChainInOrder(c, l - 1, j - 1); }
      assert j < l;
      assert Joins(c, j);
    }
    if m < l - 1 {
      ChainInOrder(c, m, l - 1);
    }
    assert c[m].startedAt == cursor && c[m].availableAt <= cutoff;
  }

  lemma NoDays(c: seq<Nav>, cutoff: Time)
    ensures DaysOf(c, cutoff, [], []) && Sources(PartsOf([])) == {} && AllStamped(PartsOf([]))
  {
  }

  lemma SkipDay(c: seq<Nav>, cutoff: Time, pairs: seq<(Time, Time)>, days: seq<Day>)
    requires pairs != [] && !Tiled(c, cutoff, pairs[|pairs| - 1].0, pairs[|pairs| - 1].1)
    requires DaysOf(c, cutoff, pairs[..|pairs| - 1], days)
    ensures DaysOf(c, cutoff, pairs, days)
  {
  }

  lemma SliceIsSound(c: seq<Nav>, cutoff: Time, a: Time, b: Time, i: nat, j: nat)
    requires Sound(c) && Tiles(c, cutoff, a, b, i, j)
    ensures i < j <= |c| && forall k :: 0 <= k < |c[i..j]| ==> NavWellFormed(c[i..j][k])
    ensures AllStamped(c) ==> AllStamped(c[i..j])
  {
  }

  lemma AddDay(c: seq<Nav>, cutoff: Time, pairs: seq<(Time, Time)>, days: seq<Day>, a: Time, b: Time, d: Day)
    requires DaysOf(c, cutoff, pairs, days) && AllStamped(PartsOf(days)) && AllStamped(d.parts)
    requires d.begin == a && d.end == b && exists i: nat, j: nat :: IsDay(c, cutoff, d, i, j)
    ensures DaysOf(c, cutoff, pairs + [(a, b)], days + [d])
    ensures PartsOf(days + [d]) == PartsOf(days) + d.parts
    ensures Sources(PartsOf(days + [d])) == Sources(PartsOf(days)) + Sources(d.parts)
    ensures AllStamped(PartsOf(days + [d]))
  {
    DayIsTiled(c, cutoff, d);
    hide IsDay, Tiled, Stamped, Sources;
    assert (days + [d])[..|days|] == days && (pairs + [(a, b)])[..|pairs|] == pairs;
    SourcesSplit(PartsOf(days), d.parts);
  }

  lemma DayIsTiled(c: seq<Nav>, cutoff: Time, d: Day)
    requires exists i: nat, j: nat :: IsDay(c, cutoff, d, i, j)
    ensures Tiled(c, cutoff, d.begin, d.end)
  {
    hide NavWellFormed, Growth, LatestAvailable;
    var i: nat, j: nat :| IsDay(c, cutoff, d, i, j);
    assert Tiles(c, cutoff, d.begin, d.end, i, j);
  }

  lemma SourcesSplit(x: seq<Nav>, y: seq<Nav>)
    ensures Sources(x + y) == Sources(x) + Sources(y)
  {
    forall id | id in Sources(x) + Sources(y) ensures id in Sources(x + y) {
      var n :| n in x + y && n.sourceId == id;
    }
  }

  /** The stored returns of the periods that tile the time from a to b are those of their NAVs and flows. */
  ghost predicate Checks(c: seq<Nav>, cutoff: Time, a: Time, b: Time) {
    forall i: nat, j: nat :: Tiles(c, cutoff, a, b, i, j) ==> AllStamped(c[i..j])
  }

  ghost predicate ChecksDays(c: seq<Nav>, cutoff: Time, pairs: seq<(Time, Time)>) {
    forall k :: 0 <= k < |pairs| ==> Checks(c, cutoff, pairs[k].0, pairs[k].1)
  }

  lemma OneTilingChecks(c: seq<Nav>, cutoff: Time, a: Time, b: Time, i: nat, j: nat)
    requires Sound(c) && Tiles(c, cutoff, a, b, i, j)
    ensures Checks(c, cutoff, a, b) <==> AllStamped(c[i..j])
  {
    forall k: nat, l: nat | Tiles(c, cutoff, a, b, k, l) ensures k == i && l == j {
      TilesUnique(c, cutoff, a, b, i, j, k, l);
    }
    hide AllStamped;
  }

  lemma UntiledChecks(c: seq<Nav>, cutoff: Time, a: Time, b: Time)
    requires !Tiled(c, cutoff, a, b)
    ensures Checks(c, cutoff, a, b)
  {
  }

  lemma StampedChecks(c: seq<Nav>, cutoff: Time, pairs: seq<(Time, Time)>)
    requires AllStamped(c)
    ensures ChecksDays(c, cutoff, pairs)
  {
  }

  /** All days of a chain, and the periods that fell into none. */
  method Aggregate(c: seq<Nav>, pairs: seq<(Time, Time)>, cutoff: Time) returns (r: Option<Daily>)
    requires Sound(c) && forall k :: 0 <= k < |pairs| ==> pairs[k].0 < pairs[k].1
    ensures r.Some? <==> ChecksDays(c, cutoff, pairs)
    ensures r.Some? ==>
              && DaysOf(c, cutoff, pairs, r.value.days) && r.value.expected == |pairs|
              && AllStamped(PartsOf(r.value.days))
              && r.value.unaggregated == Unused(c, Sources(PartsOf(r.value.days)))
  {
    hide DaysOf, PartsOf, Growth, NavWellFormed, Contiguous, DistinctSources, Sources, Unused, AllStamped, Tiles,
         Starts, Checks;
    var byStart := IndexByStart(c);
    var days: seq<Day>, used: set<string> := [], {};
    NoDays(c, cutoff);
    for k := 0 to |pairs|
      invariant DaysOf(c, cutoff, pairs[..k], days)
      invariant used == Sources(PartsOf(days)) && AllStamped(PartsOf(days))
      invariant forall m :: 0 <= m < k ==> Checks(c, cutoff, pairs[m].0, pairs[m].1)
    {
      assert pairs[..k + 1][..k] == pairs[..k] && pairs[..k + 1][k] == pairs[k];
      var (begin, end) := pairs[k];
      var tiling := Walk(c, byStart, cutoff, begin, end);
      if tiling.Some? {
        var parts := tiling.value;
        ghost var i: nat, j: nat :| i < j <= |c| && Tiles(c, cutoff, begin, end, i, j) && parts == c[i..j];
        SliceIsSound(c, cutoff, begin, end, i, j);
        OneTilingChecks(c, cutoff, begin, end, i, j);
        var growth, ids := Compound(parts);
        if growth.None? {
          return None;
        }
        var d := Day(begin, end, LatestAvailable(parts), growth.value, parts);
        assert IsDay(c, cutoff, d, i, j);
        AddDay(c, cutoff, pairs[..k], days, begin, end, d);
        assert pairs[..k + 1] == pairs[..k] + [(begin, end)];
        days, used := days + [d], used + ids;
      } else {
        UntiledChecks(c, cutoff, begin, end);
        SkipDay(c, cutoff, pairs[..k + 1], days);
      }
    }
    assert pairs[..|pairs|] == pairs;
    return Some(Daily(days, |pairs|, Unused(c, used)));
  }

  lemma CompoundNothing()
    ensures Growth([]) == 1.0 && Sources([]) == {}
  {
  }

  lemma GrowthStep(parts: seq<Nav>, k: nat)
    requires k < |parts| && forall i :: 0 <= i < |parts| ==> NavWellFormed(parts[i])
    ensures Growth(parts[..k + 1]) == Growth(parts[..k]) * Factor(parts[k])
  {
    hide Factor, NavWellFormed;
    assert parts[..k + 1][..k] == parts[..k] && parts[..k + 1][k] == parts[k];
  }

  lemma SourcesStep(parts: seq<Nav>, k: nat)
    requires k < |parts|
    ensures Sources(parts[..k + 1]) == Sources(parts[..k]) + {parts[k].sourceId}
  {
    assert parts[..k + 1] == parts[..k] + [parts[k]];
    assert Sources([parts[k]]) == {parts[k].sourceId} by {
      assert parts[k] in [parts[k]];
    }
    SourcesSplit(parts[..k], [parts[k]]);
  }

  /** The product of the factors, each checked against its stored return. */
  method Compound(parts: seq<Nav>) returns (growth: Option<real>, ids: set<string>)
    requires forall i :: 0 <= i < |parts| ==> NavWellFormed(parts[i])
    ensures growth.Some? <==> AllStamped(parts)
    ensures growth.Some? ==> growth.value == Growth(parts) && ids == Sources(parts)
  {
    hide Growth, Sources;
    var factor := 1.0;
    ids := {};
    CompoundNothing();
    for k := 0 to |parts|
      invariant AllStamped(parts[..k]) && factor == Growth(parts[..k]) && ids == Sources(parts[..k])
    {
      var value := (parts[k].closing - parts[k].endFlow) / parts[k].opening;
      if value - 1.0 != parts[k].periodReturn {
        assert parts[k] != Stamped(parts[k]);
        return None, ids;
      }
      GrowthStep(parts, k);
      SourcesStep(parts, k);
      factor, ids := factor * value, ids + {parts[k].sourceId};
    }
    assert parts[..|parts|] == parts;
    return Some(factor), ids;
  }

  // ---------------------------------------------------------------- calendar pairs

  ghost predicate Increasing(closes: seq<Time>) {
    forall i, j :: 0 <= i < j < |closes| ==> closes[i] < closes[j]
  }

  ghost predicate Consecutive(pairs: seq<(Time, Time)>) {
    && (forall k :: 0 <= k < |pairs| ==> pairs[k].0 < pairs[k].1)
    && (forall k :: 0 < k < |pairs| ==> Abuts(pairs, k))
  }

  ghost predicate Abuts(pairs: seq<(Time, Time)>, k: nat)
    requires 0 < k < |pairs|
  {
    pairs[k - 1].1 == pairs[k].0
  }

  lemma ConsecutiveInit(pairs: seq<(Time, Time)>)
    requires Consecutive(pairs) && pairs != []
    ensures var init := pairs[..|pairs| - 1];
            Consecutive(init) && (init != [] ==> init[0] == pairs[0] && init[|init| - 1].1 == pairs[|pairs| - 1].0)
  {
    var init := pairs[..|pairs| - 1];
    forall k | 0 < k < |init| ensures Abuts(init, k) {
      assert Abuts(pairs, k);
    }
    assert init != [] ==> Abuts(pairs, |init|);
  }

  lemma ConsecutiveAppend(pairs: seq<(Time, Time)>, a: Time, b: Time)
    requires Consecutive(pairs) && a < b && (pairs != [] ==> pairs[|pairs| - 1].1 == a)
    ensures Consecutive(pairs + [(a, b)])
  {
    var all := pairs + [(a, b)];
    forall k | 0 < k < |all| ensures Abuts(all, k) {
      assert k < |pairs| ==> Abuts(pairs, k);
    }
  }

  /** The expected days are consecutive: the window drops pairs only at its two ends. */
  lemma {:induction false} PairsAreConsecutive(closes: seq<Time>, first: Time, cutoff: Time)
    requires Increasing(closes)
    ensures var pairs := Pairs(closes, first, cutoff);
            && Consecutive(pairs)
            && (pairs != [] ==> first <= pairs[0].0 < pairs[|pairs| - 1].1 <= cutoff)
            && (pairs != [] && closes[|closes| - 1] <= cutoff ==> pairs[|pairs| - 1].1 == closes[|closes| - 1])
  {
    hide Consecutive;
    if |closes| >= 2 {
      var init := closes[..|closes| - 1];
      PairsAreConsecutive(init, first, cutoff);
      var before, a, b := Pairs(init, first, cutoff), closes[|closes| - 2], closes[|closes| - 1];
      assert init[|init| - 1] == a;
      if first <= a && b <= cutoff {
        ConsecutiveAppend(before, a, b);
      } else {
        assert Pairs(closes, first, cutoff) == before;
      }
    } else {
      NoPairs();
    }
  }

  lemma NoPairs()
    ensures Consecutive([])
  {
  }

  /** Every pair of neighbouring closes inside the window is expected. */
  lemma {:induction false} PairsAreComplete(closes: seq<Time>, first: Time, cutoff: Time, a: Time, b: Time)
    ensures (a, b) in Pairs(closes, first, cutoff) <==>
              first <= a && b <= cutoff && exists i :: 0 <= i < |closes| - 1 && Neighbours(closes, i, a, b)
  {
    if |closes| >= 2 {
      var init, n := closes[..|closes| - 1], |closes| - 2;
      PairsAreComplete(init, first, cutoff, a, b);
      if first <= a && b <= cutoff {
        if i :| 0 <= i < |closes| - 1 && Neighbours(closes, i, a, b) && i < n {
          assert Neighbours(init, i, a, b);
        }
        if i :| 0 <= i < |init| - 1 && Neighbours(init, i, a, b) {
          assert Neighbours(closes, i, a, b);
        }
        if closes[n] == a && closes[n + 1] == b {
          assert Neighbours(closes, n, a, b);
        }
      }
    }
  }

  ghost predicate Neighbours(closes: seq<Time>, i: nat, a: Time, b: Time)
    requires i < |closes| - 1
  {
    closes[i] == a && closes[i + 1] == b
  }

  // ---------------------------------------------------------------- what the days of a chain are

  /** A pair gets a day exactly when its time is tiled, and days have no other source. */
  lemma {:induction false} DayIffTiled(c: seq<Nav>, cutoff: Time, pairs: seq<(Time, Time)>, days: seq<Day>, a: Time,
                                       b: Time)
    requires DaysOf(c, cutoff, pairs, days)
    ensures (exists d :: d in days && d.begin == a && d.end == b) <==> (a, b) in pairs && Tiled(c, cutoff, a, b)
  {
    hide IsDay, Tiled;
    if pairs != [] {
      var init, last := pairs[..|pairs| - 1], pairs[|pairs| - 1];
      assert pairs == init + [last];
      if Tiled(c, cutoff, last.0, last.1) {
        var d := days[|days| - 1];
        assert days == days[..|days| - 1] + [d];
        DayIffTiled(c, cutoff, init, days[..|days| - 1], a, b);
      } else {
        DayIffTiled(c, cutoff, init, days, a, b);
      }
    }
  }

  lemma OneDayEach(c: seq<Nav>, cutoff: Time, d: Day, e: Day)
    requires Sound(c) && d.begin == e.begin && d.end == e.end
    requires (exists i: nat, j: nat :: IsDay(c, cutoff, d, i, j)) && exists i: nat, j: nat :: IsDay(c, cutoff, e, i, j)
    ensures d == e
  {
    var i: nat, j: nat :| IsDay(c, cutoff, d, i, j);
    var k: nat, l: nat :| IsDay(c, cutoff, e, k, l);
    TilesUnique(c, cutoff, d.begin, d.end, i, j, k, l);
  }

  /** A chain and its expected days have one list of days. */
  lemma {:induction false} DaysAreDetermined(c: seq<Nav>, cutoff: Time, pairs: seq<(Time, Time)>, x: seq<Day>,
                                             y: seq<Day>)
    requires Sound(c) && DaysOf(c, cutoff, pairs, x) && DaysOf(c, cutoff, pairs, y)
    ensures x == y
    decreases |pairs|
  {
    hide Sound, Tiled, IsDay;
    if pairs != [] {
      var init := pairs[..|pairs| - 1];
      var (a, b) := pairs[|pairs| - 1];
      if Tiled(c, cutoff, a, b) {
        DaysAreDetermined(c, cutoff, init, x[..|x| - 1], y[..|y| - 1]);
        OneDayEach(c, cutoff, x[|x| - 1], y[|y| - 1]);
        assert x == x[..|x| - 1] + [x[|x| - 1]] && y == y[..|y| - 1] + [y[|y| - 1]];
      } else {
        DaysAreDetermined(c, cutoff, init, x, y);
      }
    }
  }

  /** Days use periods of the chain in its order, none past the last expected close. */
  ghost predicate UsedInOrder(c: seq<Nav>, ps: seq<Nav>) {
    && (forall i :: 0 <= i < |ps| ==> ps[i] in c && NavWellFormed(ps[i]))
    && (forall i, j :: 0 <= i < j < |ps| ==> ps[i].endedAt <= ps[j].startedAt)
  }

  lemma {:induction false} PartsInOrder(c: seq<Nav>, cutoff: Time, pairs: seq<(Time, Time)>, days: seq<Day>)
    requires Sound(c) && Consecutive(pairs) && DaysOf(c, cutoff, pairs, days)
    ensures UsedInOrder(c, PartsOf(days))
    ensures forall i :: 0 <= i < |PartsOf(days)| ==> pairs != [] && PartsOf(days)[i].endedAt <= pairs[|pairs| - 1].1
  {
    hide Tiled, Sound, NavWellFormed;
    if pairs != [] {
      var init := pairs[..|pairs| - 1];
      var (a, b) := pairs[|pairs| - 1];
      ConsecutiveInit(pairs);
      if Tiled(c, cutoff, a, b) {
        var before, d := days[..|days| - 1], days[|days| - 1];
        PartsInOrder(c, cutoff, init, before);
        assert init != [] ==> init[|init| - 1].1 == a;
        var i: nat, j: nat :| IsDay(c, cutoff, d, i, j);
        SliceInOrder(c, cutoff, d, i, j);
        AppendInOrder(c, PartsOf(before), d.parts, a);
      } else {
        PartsInOrder(c, cutoff, init, days);
      }
    }
  }

  lemma SliceInOrder(c: seq<Nav>, cutoff: Time, d: Day, i: nat, j: nat)
    requires Sound(c) && IsDay(c, cutoff, d, i, j)
    ensures UsedInOrder(c, d.parts)
    ensures forall k :: 0 <= k < |d.parts| ==> d.begin <= d.parts[k].startedAt && d.parts[k].endedAt <= d.end
  {
    hide Growth, LatestAvailable, Contiguous, DistinctSources;
    forall k | 0 <= k < |d.parts| ensures d.begin <= d.parts[k].startedAt && d.parts[k].endedAt <= d.end {
      if k > 0 { ChainInOrder(c, i, i + k); }
      if i + k < j - 1 { ChainInOrder(c, i + k, j - 1); }
    }
    forall k, l | 0 <= k < l < |d.parts| ensures d.parts[k].endedAt <= d.parts[l].startedAt {
      ChainInOrder(c, i + k, i + l);
    }
  }

  lemma AppendInOrder(c: seq<Nav>, x: seq<Nav>, y: seq<Nav>, a: Time)
    requires UsedInOrder(c, x) && UsedInOrder(c, y)
    requires forall i :: 0 <= i < |x| ==> x[i].endedAt <= a
    requires forall i :: 0 <= i < |y| ==> a <= y[i].startedAt
    ensures UsedInOrder(c, x + y)
  {
    hide NavWellFormed;
  }

  lemma {:induction false} UnusedMembers(c: seq<Nav>, used: set<string>)
    ensures forall n :: n in Unused(c, used) <==> n in c && n.sourceId !in used
  {
    if c != [] {
      UnusedMembers(c[..|c| - 1], used);
      assert c == c[..|c| - 1] + [c[|c| - 1]];
    }
  }

  /** Every period of the chain is in exactly one place: once in one day, or unaggregated. */
  lemma EveryPeriodOnce(c: seq<Nav>, cutoff: Time, pairs: seq<(Time, Time)>, days: seq<Day>)
    requires Sound(c) && Consecutive(pairs) && DaysOf(c, cutoff, pairs, days)
    ensures var used := PartsOf(days);
            && DistinctSources(used)
            && (forall n :: n in c <==> n in used || n in Unused(c, Sources(used)))
            && (forall n :: n in used ==> n !in Unused(c, Sources(used)))
  {
    var used := PartsOf(days);
    PartsInOrder(c, cutoff, pairs, days);
    UnusedMembers(c, Sources(used));
    forall i, j | 0 <= i < j < |used| ensures used[i].sourceId != used[j].sourceId {
      assert used[i].startedAt < used[j].startedAt;
      SourceNamesPeriod(c, used[i], used[j]);
    }
    forall n | n in c && n.sourceId in Sources(used) ensures n in used {
      var m :| m in used && m.sourceId == n.sourceId;
      assert m in c;
      SourceNamesPeriod(c, m, n);
    }
  }

  lemma SourceNamesPeriod(c: seq<Nav>, m: Nav, n: Nav)
    requires DistinctSources(c) && m in c && n in c
    ensures m.sourceId == n.sourceId ==> m == n
  {
  }

  // ---------------------------------------------------------------- compounding

  ghost function TotalGrowth(days: seq<Day>): real {
    if days == [] then 1.0 else TotalGrowth(days[..|days| - 1]) * days[|days| - 1].growth
  }

  /** The cumulated value of one unit of capital over daily returns. */
  ghost function CumulatedNav(days: seq<Day>): real {
    if days == [] then 1.0 else CumulatedNav(days[..|days| - 1]) * (1.0 + (days[|days| - 1].growth - 1.0))
  }

  ghost function TotalReturn(days: seq<Day>): real {
    CumulatedNav(days) - 1.0
  }

  lemma {:induction false} CumulatedIsGrowth(days: seq<Day>)
    ensures CumulatedNav(days) == TotalGrowth(days)
  {
    if days != [] {
      CumulatedIsGrowth(days[..|days| - 1]);
    }
  }

  ghost predicate AllWellFormed(ns: seq<Nav>) {
    forall i :: 0 <= i < |ns| ==> NavWellFormed(ns[i])
  }

  lemma {:induction false} GrowthSplits(x: seq<Nav>, y: seq<Nav>)
    requires AllWellFormed(x) && AllWellFormed(y)
    ensures AllWellFormed(x + y) && Growth(x + y) == Growth(x) * Growth(y)
  {
    hide NavWellFormed, Factor;
    if y == [] {
      assert x + y == x;
    } else {
      var init, last := y[..|y| - 1], y[|y| - 1];
      assert (x + y)[..|x + y| - 1] == x + init && (x + y)[|x + y| - 1] == last;
      GrowthSplits(x, init);
      Associate(Growth(x), Growth(init), Growth([last]));
      assert [last][..0] == [];
      assert Growth(y) == Growth(init) * Growth([last]);
    }
  }

  lemma Associate(a: real, b: real, c: real)
    ensures (a * b) * c == a * (b * c)
  {
  }

  lemma SameProduct(a: real, b: real, x: real, y: real)
    requires a == x && b == y
    ensures a * b == x * y
  {
  }

  lemma NoGrowth()
    ensures Growth([]) == 1.0
  {
  }

  lemma DayGrowth(c: seq<Nav>, cutoff: Time, d: Day)
    requires exists i: nat, j: nat :: IsDay(c, cutoff, d, i, j)
    ensures AllWellFormed(d.parts) && d.growth == Growth(d.parts)
  {
    hide NavWellFormed, Growth, LatestAvailable;
  }

  lemma NothingGrows()
    ensures AllWellFormed(PartsOf([])) && PartsOf([]) == [] && TotalGrowth([]) == 1.0
  {
  }

  lemma OneMoreDay(days: seq<Day>)
    requires days != []
    requires var before, d := days[..|days| - 1], days[|days| - 1];
             && AllWellFormed(PartsOf(before)) && TotalGrowth(before) == Growth(PartsOf(before))
             && AllWellFormed(d.parts) && d.growth == Growth(d.parts)
    ensures AllWellFormed(PartsOf(days)) && TotalGrowth(days) == Growth(PartsOf(days))
  {
    hide NavWellFormed, Growth;
    var before, d := days[..|days| - 1], days[|days| - 1];
    GrowthSplits(PartsOf(before), d.parts);
    SameProduct(TotalGrowth(before), d.growth, Growth(PartsOf(before)), Growth(d.parts));
  }

  /** The compounded return of the days is that of the periods they use. */
  lemma {:induction false} DaysCompoundExactly(c: seq<Nav>, cutoff: Time, pairs: seq<(Time, Time)>, days: seq<Day>)
    requires Sound(c) && DaysOf(c, cutoff, pairs, days)
    ensures AllWellFormed(PartsOf(days)) && TotalGrowth(days) == Growth(PartsOf(days))
  {
    hide Sound, Tiled, IsDay, Growth, TotalGrowth, AllWellFormed, PartsOf;
    if pairs != [] {
      var init := pairs[..|pairs| - 1];
      var (a, b) := pairs[|pairs| - 1];
      if Tiled(c, cutoff, a, b) {
        var before, d := days[..|days| - 1], days[|days| - 1];
        DaysCompoundExactly(c, cutoff, init, before);
        DayGrowth(c, cutoff, d);
        OneMoreDay(days);
      } else {
        DaysCompoundExactly(c, cutoff, init, days);
      }
    } else {
      NoGrowth();
      NothingGrows();
    }
  }

  // ---------------------------------------------------------------- returns are unit prices

  ghost predicate Unitised(parts: seq<Nav>, units: seq<real>, prices: seq<real>, k: nat)
    requires k < |parts| && |units| == |prices| == |parts| + 1
  {
    && parts[k].opening == units[k] * prices[k]
    && parts[k].closing - parts[k].endFlow == units[k] * prices[k + 1]
    && parts[k].endFlow == (units[k + 1] - units[k]) * prices[k + 1]
  }

  /**
   The same capital held as units of a fund at a price of one: a period moves the price, and the
   money that comes in or goes out at its end buys or redeems units at the new price.
  */
  ghost predicate UnitAccount(parts: seq<Nav>, units: seq<real>, prices: seq<real>) {
    && |units| == |prices| == |parts| + 1 && prices[0] == 1.0
    && forall k :: 0 <= k < |parts| ==> Unitised(parts, units, prices, k)
  }

  /** Whatever flowed in or out, the growth of a stretch of periods is the price of one unit. */
  lemma {:induction false} GrowthIsUnitPrice(parts: seq<Nav>, units: seq<real>, prices: seq<real>)
    requires AllWellFormed(parts) && UnitAccount(parts, units, prices)
    ensures Growth(parts) == prices[|parts|]
    decreases |parts|
  {
    if parts != [] {
      var n := |parts| - 1;
      var init := parts[..n];
      var u, p := units[..n + 1], prices[..n + 1];
      forall k | 0 <= k < n ensures Unitised(init, u, p, k) {
        assert Unitised(parts, units, prices, k);
      }
      GrowthIsUnitPrice(init, u, p);
      assert Unitised(parts, units, prices, n) && NavWellFormed(parts[n]);
      hide Growth, UnitAccount;
      GrowthStep(parts, n);
      assert parts[..n + 1] == parts;
      PriceMoves(parts[n], units[n], prices[n], prices[n + 1]);
    }
  }

  lemma PriceMoves(n: Nav, units: real, price: real, after: real)
    requires n.opening > 0.0 && n.opening == units * price && n.closing - n.endFlow == units * after
    ensures price * Factor(n) == after
  {
    Quotient(units, price, after);
  }

  lemma Quotient(units: real, price: real, after: real)
    requires units * price > 0.0
    ensures price * ((units * after) / (units * price)) == after
  {
    var q := (units * after) / (units * price);
    assert q * (units * price) == units * after;
    assert units * (q * price - after) == 0.0;
    assert units != 0.0;
  }

  /** Periods that continue one another can be held in units, unless money comes in when nothing is left. */
  lemma {:induction false} UnitsExist(parts: seq<Nav>) returns (units: seq<real>, prices: seq<real>)
    requires AllWellFormed(parts) && Contiguous(parts)
    requires forall k :: 0 <= k < |parts| ==> parts[k].closing > parts[k].endFlow || parts[k].endFlow == 0.0
    ensures UnitAccount(parts, units, prices)
    ensures parts != [] ==> parts[|parts| - 1].closing == units[|parts|] * prices[|parts|]
  {
    if parts == [] {
      return [1.0], [1.0];
    }
    var n := |parts| - 1;
    var last := parts[n];
    ContiguousInit(parts);
    var u, p := UnitsExist(parts[..n]);
    if n == 0 {
      u, p := [last.opening], [1.0];
    }
    hide UnitAccount, Contiguous;
    LastOpens(parts, u, p);
    var price, more := NextPrice(last, u[n], p[n]);
    units, prices := u + [u[n] + more], p + [price];
    AccountExtends(parts, u, p, u[n] + more, price);
  }

  lemma LastOpens(parts: seq<Nav>, u: seq<real>, p: seq<real>)
    requires AllWellFormed(parts) && Contiguous(parts) && parts != []
    requires if |parts| == 1 then u == [parts[0].opening] && p == [1.0]
             else
               && UnitAccount(parts[..|parts| - 1], u, p)
               && parts[|parts| - 2].closing == u[|parts| - 1] * p[|parts| - 1]
    ensures |u| == |p| == |parts| && parts[|parts| - 1].opening == u[|parts| - 1] * p[|parts| - 1]
    ensures UnitAccount(parts[..|parts| - 1], u, p) && NavWellFormed(parts[|parts| - 1])
  {
    if |parts| > 1 {
      assert Joins(parts, |parts| - 1);
    }
  }

  lemma AccountExtends(parts: seq<Nav>, u: seq<real>, p: seq<real>, units: real, price: real)
    requires parts != [] && |u| == |p| == |parts| && UnitAccount(parts[..|parts| - 1], u, p)
    requires Unitised(parts[|parts| - 1..], [u[|parts| - 1], units], [p[|parts| - 1], price], 0)
    ensures UnitAccount(parts, u + [units], p + [price])
  {
    forall k | 0 <= k < |parts| ensures Unitised(parts, u + [units], p + [price], k) {
      if k < |parts| - 1 {
        assert Unitised(parts[..|parts| - 1], u, p, k);
      }
    }
  }

  lemma NextPrice(n: Nav, units: real, price: real) returns (after: real, more: real)
    requires NavWellFormed(n) && n.opening == units * price
    requires n.closing > n.endFlow || n.endFlow == 0.0
    ensures n.closing - n.endFlow == units * after && n.endFlow == more * after
    ensures n.closing == (units + more) * after
  {
    assert units != 0.0;
    after := (n.closing - n.endFlow) / units;
    if n.endFlow == 0.0 {
      more := 0.0;
    } else {
      assert after != 0.0;
      more := n.endFlow / after;
    }
  }

  lemma ContiguousInit(parts: seq<Nav>)
    requires AllWellFormed(parts) && Contiguous(parts) && parts != []
    ensures AllWellFormed(parts[..|parts| - 1]) && Contiguous(parts[..|parts| - 1])
  {
    var init := parts[..|parts| - 1];
    forall k | 0 < k < |init| ensures Joins(init, k) {
      assert Joins(parts, k);
    }
  }

  /** A deposit is no return: money that comes in at the end of the last period leaves the growth as it is. */
  lemma DepositsAreNoReturn(parts: seq<Nav>, n: Nav, amount: real)
    requires AllWellFormed(parts) && NavWellFormed(n)
    ensures var m := n.(closing := n.closing + amount, endFlow := n.endFlow + amount);
            NavWellFormed(m) ==>
              && AllWellFormed(parts + [n]) && AllWellFormed(parts + [m])
              && Growth(parts + [m]) == Growth(parts + [n])
  {
    var m := n.(closing := n.closing + amount, endFlow := n.endFlow + amount);
    if NavWellFormed(m) {
      assert (parts + [m])[..|parts|] == parts && (parts + [n])[..|parts|] == parts;
    }
  }

  /**
   With every expected day present, the total return is what one unit bought at the first boundary
   gained by the last, whatever flowed in or out meanwhile.
  */
  lemma FullCoverageIsUnitPrice(c: seq<Nav>, cutoff: Time, pairs: seq<(Time, Time)>, days: seq<Day>)
    returns (i: nat, j: nat)
    requires Sound(c) && Consecutive(pairs) && DaysOf(c, cutoff, pairs, days) && pairs != []
    requires |days| == |pairs|
    ensures Tiles(c, cutoff, pairs[0].0, pairs[|pairs| - 1].1, i, j)
    ensures forall units, prices :: UnitAccount(c[i..j], units, prices) ==> TotalReturn(days) == prices[j - i] - 1.0
  {
    CumulatedIsGrowth(days);
    i, j := FullCoverageIsOneSlice(c, cutoff, pairs, days);
    DaysCompoundExactly(c, cutoff, pairs, days);
    forall units, prices | UnitAccount(c[i..j], units, prices) ensures TotalReturn(days) == prices[j - i] - 1.0 {
      GrowthIsUnitPrice(c[i..j], units, prices);
    }
  }

  // ---------------------------------------------------------------- full coverage without flows

  lemma {:induction false} GrowthTelescopes(c: seq<Nav>, i: nat, j: nat)
    requires Sound(c) && i < j <= |c| && forall k :: i <= k < j ==> c[k].endFlow == 0.0
    ensures AllWellFormed(c[i..j]) && Growth(c[i..j]) == c[j - 1].closing / c[i].opening
  {
    hide Factor, Growth, NavWellFormed, Contiguous, DistinctSources;
    var parts := c[i..j];
    GrowthStep(parts, j - i - 1);
    assert parts[..j - i - 1] == c[i..j - 1] && parts[..j - i] == parts && parts[j - i - 1] == c[j - 1];
    FactorWithoutFlow(c[j - 1]);
    if i < j - 1 {
      GrowthTelescopes(c, i, j - 1);
      NavsCancel(c, i, j);
    } else {
      assert c[i..i] == [];
      NoGrowth();
    }
  }

  lemma FactorWithoutFlow(n: Nav)
    requires NavWellFormed(n) && n.endFlow == 0.0
    ensures n.opening > 0.0 && Factor(n) == n.closing / n.opening
  {
  }

  lemma NavsCancel(c: seq<Nav>, i: nat, j: nat)
    requires Sound(c) && i < j - 1 < |c|
    ensures c[i].opening > 0.0 && c[j - 1].opening > 0.0
    ensures (c[j - 2].closing / c[i].opening) * (c[j - 1].closing / c[j - 1].opening) == c[j - 1].closing / c[i].opening
  {
    hide DistinctSources;
    assert Joins(c, j - 1) && NavWellFormed(c[i]) && NavWellFormed(c[j - 1]);
    hide Contiguous, NavWellFormed;
    Cancel(c[j - 2].closing, c[i].opening, c[j - 1].closing);
  }

  lemma Cancel(m: real, p: real, q: real)
    requires m > 0.0 && p > 0.0
    ensures (m / p) * (q / m) == q / p
  {
  }

  /** With every expected day present, the days use one unbroken stretch of the chain. */
  lemma {:induction false} FullCoverageIsOneSlice(c: seq<Nav>, cutoff: Time, pairs: seq<(Time, Time)>, days: seq<Day>)
    returns (i: nat, j: nat)
    requires Sound(c) && Consecutive(pairs) && DaysOf(c, cutoff, pairs, days) && pairs != []
    requires |days| == |pairs|
    ensures Tiles(c, cutoff, pairs[0].0, pairs[|pairs| - 1].1, i, j) && PartsOf(days) == c[i..j]
  {
    hide Tiled, IsDay, Contiguous, DistinctSources, NavWellFormed;
    var init := pairs[..|pairs| - 1];
    var (a, b) := pairs[|pairs| - 1];
    ConsecutiveInit(pairs);
    if !Tiled(c, cutoff, a, b) {
      AtMostOneDayEach(c, cutoff, init, days);
    }
    var before, d := days[..|days| - 1], days[|days| - 1];
    var k, l := DaySlice(c, cutoff, d);
    if init == [] {
      i, j := k, l;
      assert PartsOf(before) == [];
    } else {
      i, j := FullCoverageIsOneSlice(c, cutoff, init, before);
      Extend(c, cutoff, pairs[0].0, a, b, i, j, k, l);
      j := l;
    }
  }

  lemma DaySlice(c: seq<Nav>, cutoff: Time, d: Day) returns (i: nat, j: nat)
    requires exists i: nat, j: nat :: IsDay(c, cutoff, d, i, j)
    ensures Tiles(c, cutoff, d.begin, d.end, i, j) && d.parts == c[i..j]
  {
    i, j :| IsDay(c, cutoff, d, i, j);
  }

  lemma Extend(c: seq<Nav>, cutoff: Time, first: Time, a: Time, b: Time, i: nat, j: nat, k: nat, l: nat)
    requires Sound(c) && Tiles(c, cutoff, first, a, i, j) && Tiles(c, cutoff, a, b, k, l)
    ensures k == j && Tiles(c, cutoff, first, b, i, l) && c[i..j] + c[k..l] == c[i..l]
  {
    NextIsAt(c, j, k);
  }

  lemma {:induction false} AtMostOneDayEach(c: seq<Nav>, cutoff: Time, pairs: seq<(Time, Time)>, days: seq<Day>)
    requires DaysOf(c, cutoff, pairs, days)
    ensures |days| <= |pairs|
  {
    hide Tiled, IsDay;
    if pairs != [] {
      var init, last := pairs[..|pairs| - 1], pairs[|pairs| - 1];
      if Tiled(c, cutoff, last.0, last.1) {
        AtMostOneDayEach(c, cutoff, init, days[..|days| - 1]);
      } else {
        AtMostOneDayEach(c, cutoff, init, days);
      }
    }
  }

  /** The total return of a fully covered chain without flows is its last NAV over its first, minus one. */
  lemma FullCoverageTelescopes(c: seq<Nav>, cutoff: Time, pairs: seq<(Time, Time)>, days: seq<Day>)
    returns (i: nat, j: nat)
    requires Sound(c) && Consecutive(pairs) && DaysOf(c, cutoff, pairs, days) && pairs != []
    requires |days| == |pairs| && forall k :: 0 <= k < |c| ==> c[k].endFlow == 0.0
    ensures Tiles(c, cutoff, pairs[0].0, pairs[|pairs| - 1].1, i, j)
    ensures c[i].opening > 0.0 && TotalReturn(days) == c[j - 1].closing / c[i].opening - 1.0
  {
    CumulatedIsGrowth(days);
    i, j := FullCoverageIsOneSlice(c, cutoff, pairs, days);
    DaysCompoundExactly(c, cutoff, pairs, days);
    GrowthTelescopes(c, i, j);
    assert NavWellFormed(c[i]);
  }

  // ---------------------------------------------------------------- from the store

  lemma LastSourceIsNew(ns: seq<Nav>)
    requires DistinctSources(ns) && ns != []
    ensures var init := ns[..|ns| - 1];
            && ns == init + [ns[|ns| - 1]]
            && DistinctSources(init)
            && forall n :: n in init ==> n.sourceId != ns[|ns| - 1].sourceId
  {
  }

  lemma {:induction false} RowsKeepPlace(navs: seq<Nav>, s: string)
    requires DistinctSources(navs)
    ensures DistinctSources(Of(navs, s)) && forall n :: n in Of(navs, s) ==> n in navs
  {
    if navs != [] {
      RowsKeepPlace(navs[..|navs| - 1], s);
      LastSourceIsNew(navs);
    }
  }

  lemma {:induction false} SeenKeepsSources(ns: seq<Nav>, cutoff: Time)
    requires DistinctSources(ns)
    ensures DistinctSources(Seen(ns, cutoff)) && forall n :: n in Seen(ns, cutoff) ==> n in ns
  {
    if ns != [] {
      SeenKeepsSources(ns[..|ns| - 1], cutoff);
      LastSourceIsNew(ns);
    }
  }

  lemma {:induction false} SegmentKeepsSources(h: seq<Nav>, starts: seq<Epoch>, k: nat)
    requires DistinctSources(h) && k <= |starts|
    ensures DistinctSources(Segment(h, starts, k)) && forall n :: n in Segment(h, starts, k) ==> n in h
  {
    if h != [] {
      SegmentKeepsSources(h[..|h| - 1], starts, k);
      LastSourceIsNew(h);
    }
  }

  /** Every chain the reader accepts meets the aggregation's assumptions, and no stored return is refused. */
  lemma AcceptedChainsAreSound(t: Tables, s: string, starts: seq<Epoch>, cutoff: Time, k: nat)
    requires Valid(t) && k <= |starts| && Accepted(Seen(Of(t.navs, s), cutoff), starts)
    ensures var c := Segment(Seen(Of(t.navs, s), cutoff), starts, k); Sound(c) && AllStamped(c)
  {
    var ns := Of(t.navs, s);
    var h := Seen(ns, cutoff);
    var c := Segment(h, starts, k);
    assert Guarded(ns, AnchorsOf(t.epochs, s));
    RowsKeepPlace(t.navs, s);
    SeenKeepsSources(ns, cutoff);
    SegmentKeepsSources(h, starts, k);
    assert SegmentAccepted(h, starts, k);
    forall i | 0 <= i < |c| ensures NavWellFormed(c[i]) && c[i] == Stamped(c[i]) {
      assert c[i] in ns;
    }
  }
}
