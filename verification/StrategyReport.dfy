/**
 The published daily report of one strategy: the days of all its chains, and one
 coverage entry that every chain writes in turn.

 The entry is keyed by the strategy, so the last chain's replaces the others. The
 main theorem says exactly when the report still accounts for every visible period.
*/
module StrategyReport {
  import opened Basics
  import opened NavStore
  import opened NavReader
  import opened DailyReturns

  /** The closes of a chain's calendar. */
  type Calendar = Chain -> seq<Time>

  datatype Entry = Entry(epoch: Option<string>, day: Day)

  datatype Coverage = Coverage(epoch: Option<string>, complete: bool, expected: nat, completed: nat,
                               unaggregated: seq<Nav>)

  datatype Report = Report(entries: seq<Entry>, coverage: Option<Coverage>)

  ghost predicate Calendars(closes: Calendar) {
    forall c :: Increasing(closes(c))
  }

  /** The funding source a chain starts from; None for the initial, unanchored chain. */
  function EpochOf(c: Chain): Option<string> {
    if c.anchor.Some? then Some(c.anchor.value.sourceId) else None
  }

  predicate Placed(c: Chain) {
    c.anchor.None? ==> c.periods != []
  }

  function FirstOf(c: Chain): Time
    requires Placed(c)
  {
    if c.anchor.Some? then c.anchor.value.at else c.periods[0].startedAt
  }

  function PairsOf(c: Chain, closes: Calendar, cutoff: Time): seq<(Time, Time)>
    requires Placed(c)
  {
    Pairs(closes(c), FirstOf(c), cutoff)
  }

  // ---------------------------------------------------------------- the days of one chain

  /** The day of a tiled pair. */
  ghost function TheDay(c: seq<Nav>, cutoff: Time, a: Time, b: Time): (d: Day)
    requires Sound(c) && Tiled(c, cutoff, a, b)
    ensures d.begin == a && d.end == b && exists i: nat, j: nat :: IsDay(c, cutoff, d, i, j)
  {
    var i: nat, j: nat :| Tiles(c, cutoff, a, b, i, j);
    var d := Day(a, b, LatestAvailable(c[i..j]), Growth(c[i..j]), c[i..j]);
    assert IsDay(c, cutoff, d, i, j);
    d
  }

  ghost function TheDays(c: seq<Nav>, cutoff: Time, pairs: seq<(Time, Time)>): (days: seq<Day>)
    requires Sound(c)
    ensures DaysOf(c, cutoff, pairs, days)
    decreases |pairs|
  {
    if pairs == [] then []
    else
      var (a, b) := pairs[|pairs| - 1];
      var init := TheDays(c, cutoff, pairs[..|pairs| - 1]);
      if !Tiled(c, cutoff, a, b) then init
      else
        assert (init + [TheDay(c, cutoff, a, b)])[..|init|] == init;
        init + [TheDay(c, cutoff, a, b)]
  }

  ghost predicate Publishable(c: Chain) {
    Sound(c.periods) && Placed(c)
  }

  ghost function DaysOfChain(c: Chain, closes: Calendar, cutoff: Time): seq<Day>
    requires Publishable(c)
  {
    TheDays(c.periods, cutoff, PairsOf(c, closes, cutoff))
  }

  function Tagged(epoch: Option<string>, days: seq<Day>): seq<Entry> {
    seq(|days|, i requires 0 <= i < |days| => Entry(epoch, days[i]))
  }

  function CoverageFrom(c: Chain, expected: nat, days: seq<Day>, unaggregated: seq<Nav>): Coverage {
    Coverage(EpochOf(c), expected > 0 && |days| == expected, expected, |days|, unaggregated)
  }

  ghost function CoverageOf(c: Chain, closes: Calendar, cutoff: Time): Coverage
    requires Publishable(c)
  {
    var days := DaysOfChain(c, closes, cutoff);
    CoverageFrom(c, |PairsOf(c, closes, cutoff)|, days, Unused(c.periods, Sources(PartsOf(days))))
  }

  // ---------------------------------------------------------------- the report of all chains

  ghost predicate AllPublishable(chains: seq<Chain>) {
    forall m :: 0 <= m < |chains| ==> Publishable(chains[m])
  }

  ghost function EntriesOf(chains: seq<Chain>, closes: Calendar, cutoff: Time): seq<Entry>
    requires AllPublishable(chains)
  {
    if chains == [] then []
    else
      var last := chains[|chains| - 1];
      EntriesOf(chains[..|chains| - 1], closes, cutoff) + Tagged(EpochOf(last), DaysOfChain(last, closes, cutoff))
  }

  ghost function ReportOf(chains: seq<Chain>, closes: Calendar, cutoff: Time): Report
    requires AllPublishable(chains)
  {
    Report(EntriesOf(chains, closes, cutoff),
           if chains == [] then None else Some(CoverageOf(chains[|chains| - 1], closes, cutoff)))
  }

  lemma AggregateIsTheDays(c: Chain, closes: Calendar, cutoff: Time, days: seq<Day>)
    requires Publishable(c) && DaysOf(c.periods, cutoff, PairsOf(c, closes, cutoff), days)
    ensures days == DaysOfChain(c, closes, cutoff)
  {
    DaysAreDetermined(c.periods, cutoff, PairsOf(c, closes, cutoff), days, DaysOfChain(c, closes, cutoff));
  }

  /** The stored returns of every tiled day of every chain are right. */
  ghost predicate AllCheck(chains: seq<Chain>, closes: Calendar, cutoff: Time)
    requires AllPublishable(chains)
  {
    forall m :: 0 <= m < |chains| ==> ChainChecks(chains[m], closes, cutoff)
  }

  ghost predicate ChainChecks(c: Chain, closes: Calendar, cutoff: Time)
    requires Publishable(c)
  {
    ChecksDays(c.periods, cutoff, PairsOf(c, closes, cutoff))
  }

  /** The loop over the chains: days are appended, coverage is overwritten. */
  method Publish(chains: seq<Chain>, closes: Calendar, cutoff: Time) returns (r: Option<Report>)
    requires AllPublishable(chains) && Calendars(closes)
    ensures r.Some? ==> r.value == ReportOf(chains, closes, cutoff)
    ensures r.Some? <==> AllCheck(chains, closes, cutoff)
  {
    hide Publishable, AllStamped, DaysOf, Increasing, Calendars, ChecksDays, PartsOf, Unused, Tagged, Placed;
    var entries: seq<Entry>, coverage: Option<Coverage> := [], None;
    for m := 0 to |chains|
      invariant entries == EntriesOf(chains[..m], closes, cutoff)
      invariant forall k :: 0 <= k < m ==> ChainChecks(chains[k], closes, cutoff)
      invariant coverage == if m == 0 then None else Some(CoverageOf(chains[m - 1], closes, cutoff))
    {
      var c := chains[m];
      assert chains[..m + 1][..m] == chains[..m];
      ChainPairs(c, closes, cutoff);
      var pairs := PairsOf(c, closes, cutoff);
      var daily := Aggregate(c.periods, pairs, cutoff);
      if daily.None? {
        return None;
      }
      AggregateIsTheDays(c, closes, cutoff, daily.value.days);
      entries := entries + Tagged(EpochOf(c), daily.value.days);
      coverage := Some(CoverageFrom(c, |pairs|, daily.value.days, daily.value.unaggregated));
    }
    assert chains[..|chains|] == chains;
    return Some(Report(entries, coverage));
  }

  lemma ChainPairs(c: Chain, closes: Calendar, cutoff: Time)
    requires Publishable(c) && Calendars(closes)
    ensures Placed(c) && Sound(c.periods) && Consecutive(PairsOf(c, closes, cutoff))
  {
    PairsAreConsecutive(closes(c), FirstOf(c), cutoff);
  }

  // ---------------------------------------------------------------- the chains of a strategy

  ghost predicate Usable(h: seq<Nav>) {
    (forall i :: 0 <= i < |h| ==> NavWellFormed(h[i])) && DistinctSources(h)
  }

  lemma AcceptedSegmentIsSound(h: seq<Nav>, starts: seq<Epoch>, k: nat)
    requires Usable(h) && Accepted(h, starts) && k <= |starts|
    ensures Sound(Segment(h, starts, k)) && (AllStamped(h) ==> AllStamped(Segment(h, starts, k)))
  {
    var c := Segment(h, starts, k);
    SegmentKeepsSources(h, starts, k);
    assert SegmentAccepted(h, starts, k);
    forall i | 0 <= i < |c|
      ensures NavWellFormed(c[i]) && (AllStamped(h) ==> c[i].opening > 0.0 && c[i] == Stamped(c[i]))
    {
      assert c[i] in h;
    }
  }

  /** Chain 0 lies before every anchor, chain k starts from anchor k - 1. */
  function ChainAt(h: seq<Nav>, starts: seq<Epoch>, k: nat): Chain
    requires k <= |starts|
  {
    Chain(Segment(h, starts, k), AnchorOf(starts, k))
  }

  /** Where segment 1 stands among the chains: an empty initial segment gives no chain. */
  function Shift(h: seq<Nav>, starts: seq<Epoch>): nat {
    if Segment(h, starts, 0) == [] then 1 else 0
  }

  lemma {:induction false} ChainsAre(h: seq<Nav>, starts: seq<Epoch>, n: nat)
    requires 0 < n <= |starts| + 1
    ensures var chains, s := Chains(h, starts, n), Shift(h, starts);
            && |chains| == n - s
            && forall m :: 0 <= m < |chains| ==> chains[m] == ChainAt(h, starts, m + s)
  {
    hide Segment;
    if n > 1 {
      ChainsAre(h, starts, n - 1);
    } else {
      assert Chains(h, starts, 0) == [];
    }
  }

  ghost function AllChains(h: seq<Nav>, starts: seq<Epoch>): (chains: seq<Chain>)
    requires Usable(h) && Accepted(h, starts)
    ensures AllPublishable(chains)
  {
    ChainsPublishable(h, starts);
    Chains(h, starts, |starts| + 1)
  }

  lemma ChainsPublishable(h: seq<Nav>, starts: seq<Epoch>)
    requires Usable(h) && Accepted(h, starts)
    ensures var chains := Chains(h, starts, |starts| + 1);
            && AllPublishable(chains)
            && (AllStamped(h) ==> forall m :: 0 <= m < |chains| ==> AllStamped(chains[m].periods))
  {
    hide Segment, Sound, AllStamped, Accepted, Usable;
    ChainsAre(h, starts, |starts| + 1);
    var chains, s := Chains(h, starts, |starts| + 1), Shift(h, starts);
    forall m | 0 <= m < |chains| ensures Publishable(chains[m]) && (AllStamped(h) ==> AllStamped(chains[m].periods)) {
      AcceptedSegmentIsSound(h, starts, m + s);
    }
  }

  /** Reading one strategy at a cutoff: partition, check, and the days and coverage of its chains. */
  method ReportStrategy(h: seq<Nav>, starts: seq<Epoch>, closes: Calendar, cutoff: Time) returns (r: Option<Report>)
    requires Usable(h) && Calendars(closes)
    ensures r.Some? ==> Accepted(h, starts) && r.value == ReportOf(AllChains(h, starts), closes, cutoff)
    ensures r.Some? <==> Accepted(h, starts) && AllCheck(AllChains(h, starts), closes, cutoff)
  {
    hide Accepted, Usable, Calendars, AllPublishable, ReportOf, AllCheck;
    var chains := Partition(h, starts);
    if chains.None? {
      return None;
    }
    ChainsPublishable(h, starts);
    r := Publish(chains.value, closes, cutoff);
  }

  /** On rows as the writers stamp them no return is refused. */
  lemma StampedRowsCheck(h: seq<Nav>, starts: seq<Epoch>, closes: Calendar, cutoff: Time)
    requires Usable(h) && Accepted(h, starts) && AllStamped(h)
    ensures AllCheck(AllChains(h, starts), closes, cutoff)
  {
    ChainsPublishable(h, starts);
    var chains := AllChains(h, starts);
    hide Accepted, Usable, AllStamped, ChecksDays, AllChains, AllPublishable;
    forall m | 0 <= m < |chains| ensures ChainChecks(chains[m], closes, cutoff) {
      StampedChecks(chains[m].periods, cutoff, PairsOf(chains[m], closes, cutoff));
    }
  }

  // ---------------------------------------------------------------- every period in one chain

  /** A visible period lies in the segment of the anchors before it, and in no other. */
  lemma {:induction false} EveryPeriodInOneSegment(h: seq<Nav>, starts: seq<Epoch>, k: nat, n: Nav)
    requires Ascending(starts) && k <= |starts|
    ensures n in Segment(h, starts, k) <==> n in h && k == SegmentIndex(starts, n)
  {
    if h != [] {
      EveryPeriodInOneSegment(h[..|h| - 1], starts, k, n);
      SegmentIndexIsTheSegment(starts, h[|h| - 1], k);
      assert h == h[..|h| - 1] + [h[|h| - 1]];
    }
  }

  // ---------------------------------------------------------------- what a chain uses

  /** Some expected day that is tiled spans the period. */
  ghost predicate InTiledDay(c: Chain, closes: Calendar, cutoff: Time, n: Nav)
    requires Placed(c)
  {
    exists p :: p in PairsOf(c, closes, cutoff) && Spans(c.periods, cutoff, p, n)
  }

  ghost predicate Spans(c: seq<Nav>, cutoff: Time, p: (Time, Time), n: Nav) {
    Tiled(c, cutoff, p.0, p.1) && p.0 <= n.startedAt && n.endedAt <= p.1
  }

  lemma DaySpans(c: seq<Nav>, cutoff: Time, d: Day, n: Nav)
    requires Sound(c) && n in c && exists i: nat, j: nat :: IsDay(c, cutoff, d, i, j)
    ensures n in d.parts <==> d.begin <= n.startedAt && n.endedAt <= d.end
  {
    hide Growth, LatestAvailable, Contiguous, DistinctSources;
    var i: nat, j: nat :| IsDay(c, cutoff, d, i, j);
    var k :| 0 <= k < |c| && c[k] == n;
    assert i <= k < j ==> d.parts[k - i] == n;
    if n in d.parts {
      SliceInOrder(c, cutoff, d, i, j);
    } else if d.begin <= n.startedAt && n.endedAt <= d.end {
      assert NavWellFormed(n);
      if k < i {
        ChainInOrder(c, k, i);
      } else if j <= k {
        ChainInOrder(c, j - 1, k);
      }
    }
  }

  /** A period is used exactly when a tiled expected day spans it. */
  lemma {:induction false} UsedExactly(c: seq<Nav>, cutoff: Time, pairs: seq<(Time, Time)>, days: seq<Day>, n: Nav)
    requires Sound(c) && n in c && DaysOf(c, cutoff, pairs, days)
    ensures n in PartsOf(days) <==> exists p :: p in pairs && Spans(c, cutoff, p, n)
    decreases |pairs|
  {
    hide Sound, Tiled, IsDay;
    if pairs != [] {
      var init, last := pairs[..|pairs| - 1], pairs[|pairs| - 1];
      assert pairs == init + [last];
      if Tiled(c, cutoff, last.0, last.1) {
        UsedExactly(c, cutoff, init, days[..|days| - 1], n);
        DaySpans(c, cutoff, days[|days| - 1], n);
        assert n in days[|days| - 1].parts <==> Spans(c, cutoff, last, n);
      } else {
        UsedExactly(c, cutoff, init, days, n);
      }
    }
  }

  // ---------------------------------------------------------------- what the report accounts for

  ghost predicate UsedBy(entries: seq<Entry>, n: Nav) {
    exists i :: 0 <= i < |entries| && n in entries[i].day.parts
  }

  /** A period is in some published day, or listed as unaggregated. */
  ghost predicate Accounted(r: Report, n: Nav) {
    UsedBy(r.entries, n) || (r.coverage.Some? && n in r.coverage.value.unaggregated)
  }

  lemma {:induction false} PartsAreInDays(days: seq<Day>, n: Nav)
    ensures n in PartsOf(days) <==> exists i :: 0 <= i < |days| && n in days[i].parts
  {
    if days != [] {
      PartsAreInDays(days[..|days| - 1], n);
      assert days == days[..|days| - 1] + [days[|days| - 1]];
    }
  }

  lemma UsedByTagged(epoch: Option<string>, days: seq<Day>, n: Nav)
    ensures UsedBy(Tagged(epoch, days), n) <==> n in PartsOf(days)
  {
    PartsAreInDays(days, n);
    var entries := Tagged(epoch, days);
    assert forall i :: 0 <= i < |days| ==> entries[i].day == days[i];
  }

  lemma UsedByAppend(x: seq<Entry>, y: seq<Entry>, n: Nav)
    ensures UsedBy(x + y, n) <==> UsedBy(x, n) || UsedBy(y, n)
  {
    if UsedBy(y, n) {
      var i :| 0 <= i < |y| && n in y[i].day.parts;
      assert (x + y)[|x| + i] == y[i];
    }
    if UsedBy(x, n) {
      var i :| 0 <= i < |x| && n in x[i].day.parts;
      assert (x + y)[i] == x[i];
    }
  }

  lemma {:induction false} UsedByChains(chains: seq<Chain>, closes: Calendar, cutoff: Time, n: Nav)
    requires AllPublishable(chains)
    ensures UsedBy(EntriesOf(chains, closes, cutoff), n) <==>
              exists m :: 0 <= m < |chains| && n in PartsOf(DaysOfChain(chains[m], closes, cutoff))
  {
    hide Publishable, DaysOfChain, PartsOf;
    if chains != [] {
      var init, last := chains[..|chains| - 1], chains[|chains| - 1];
      assert AllPublishable(init) by {
        assert forall m :: 0 <= m < |init| ==> init[m] == chains[m];
      }
      UsedByChains(init, closes, cutoff, n);
      UsedByTagged(EpochOf(last), DaysOfChain(last, closes, cutoff), n);
      UsedByAppend(EntriesOf(init, closes, cutoff), Tagged(EpochOf(last), DaysOfChain(last, closes, cutoff)), n);
    }
  }

  lemma UsedAreMembers(c: Chain, closes: Calendar, cutoff: Time, n: Nav)
    requires Publishable(c) && Calendars(closes) && n in PartsOf(DaysOfChain(c, closes, cutoff))
    ensures n in c.periods
  {
    ChainPairs(c, closes, cutoff);
    PartsInOrder(c.periods, cutoff, PairsOf(c, closes, cutoff), DaysOfChain(c, closes, cutoff));
  }

  /** Only its own chain can use a period. */
  lemma OwnChainUses(h: seq<Nav>, starts: seq<Epoch>, closes: Calendar, cutoff: Time, n: Nav, k: nat)
    requires Usable(h) && Accepted(h, starts) && Ascending(starts) && Calendars(closes)
    requires k <= |starts| && n in Segment(h, starts, k)
    ensures Publishable(ChainAt(h, starts, k))
    ensures UsedBy(EntriesOf(AllChains(h, starts), closes, cutoff), n) <==>
              InTiledDay(ChainAt(h, starts, k), closes, cutoff, n)
  {
    hide Segment, Sound, Accepted, Usable, Calendars, PartsOf, DaysOfChain;
    var chains, s, own := AllChains(h, starts), Shift(h, starts), ChainAt(h, starts, k);
    AcceptedSegmentIsSound(h, starts, k);
    ChainsAre(h, starts, |starts| + 1);
    EveryPeriodInOneSegment(h, starts, k, n);
    assert chains[k - s] == own;
    UsedByChains(chains, closes, cutoff, n);
    ChainUsesExactly(own, closes, cutoff, n);
    if m: nat :| m < |chains| && n in PartsOf(DaysOfChain(chains[m], closes, cutoff)) {
      UsedAreMembers(chains[m], closes, cutoff, n);
      EveryPeriodInOneSegment(h, starts, m + s, n);
    }
  }

  lemma ChainUsesExactly(c: Chain, closes: Calendar, cutoff: Time, n: Nav)
    requires Publishable(c) && n in c.periods
    ensures n in PartsOf(DaysOfChain(c, closes, cutoff)) <==> InTiledDay(c, closes, cutoff, n)
  {
    UsedExactly(c.periods, cutoff, PairsOf(c, closes, cutoff), DaysOfChain(c, closes, cutoff), n);
  }

  /** The published unaggregated periods are the last chain's that no day uses. */
  lemma CoverageLists(h: seq<Nav>, starts: seq<Epoch>, closes: Calendar, cutoff: Time, n: Nav, k: nat)
    requires Usable(h) && Accepted(h, starts) && Ascending(starts) && Calendars(closes)
    requires k <= |starts| && n in Segment(h, starts, k)
    ensures var coverage := ReportOf(AllChains(h, starts), closes, cutoff).coverage;
            && coverage.Some?
            && (n in coverage.value.unaggregated <==>
                  k == |starts| && !InTiledDay(ChainAt(h, starts, k), closes, cutoff, n))
  {
    hide Segment, Accepted, Usable, Calendars, DaysOfChain, Sound, AllPublishable, PartsOf;
    var chains, s, last := AllChains(h, starts), Shift(h, starts), ChainAt(h, starts, |starts|);
    AcceptedSegmentIsSound(h, starts, |starts|);
    ChainsAre(h, starts, |starts| + 1);
    EveryPeriodInOneSegment(h, starts, k, n);
    EveryPeriodInOneSegment(h, starts, |starts|, n);
    assert |starts| - s < |chains| && chains[|chains| - 1] == last;
    UnusedInChain(last, closes, cutoff, n);
  }

  lemma UnusedInChain(c: Chain, closes: Calendar, cutoff: Time, n: Nav)
    requires Publishable(c) && Calendars(closes)
    ensures n in CoverageOf(c, closes, cutoff).unaggregated <==> n in c.periods && !InTiledDay(c, closes, cutoff, n)
  {
    var days := DaysOfChain(c, closes, cutoff);
    UnusedMembers(c.periods, Sources(PartsOf(days)));
    ChainPairs(c, closes, cutoff);
    EveryPeriodOnce(c.periods, cutoff, PairsOf(c, closes, cutoff), days);
    if n in c.periods {
      ChainUsesExactly(c, closes, cutoff, n);
    }
  }

  /** One visible period is accounted for unless it lies in an earlier chain and in no tiled day. */
  lemma PeriodAccountedExactly(h: seq<Nav>, starts: seq<Epoch>, closes: Calendar, cutoff: Time, n: Nav, k: nat)
    requires Usable(h) && Accepted(h, starts) && Ascending(starts) && Calendars(closes)
    requires k <= |starts| && n in Segment(h, starts, k)
    ensures Placed(ChainAt(h, starts, k))
    ensures Accounted(ReportOf(AllChains(h, starts), closes, cutoff), n) <==>
              k == |starts| || InTiledDay(ChainAt(h, starts, k), closes, cutoff, n)
  {
    OwnChainUses(h, starts, closes, cutoff, n, k);
    CoverageLists(h, starts, closes, cutoff, n, k);
    hide Segment, Accepted, Usable, Calendars, InTiledDay, AllChains;
  }

  /** Every period of the chain lies in a tiled expected day. */
  ghost predicate FullyTiled(h: seq<Nav>, starts: seq<Epoch>, closes: Calendar, cutoff: Time, k: nat)
    requires k <= |starts|
  {
    var c := ChainAt(h, starts, k);
    forall n :: n in c.periods ==> Placed(c) && InTiledDay(c, closes, cutoff, n)
  }

  lemma AccountedAt(h: seq<Nav>, starts: seq<Epoch>, closes: Calendar, cutoff: Time, n: Nav)
    requires Usable(h) && Accepted(h, starts) && Ascending(starts) && Calendars(closes) && n in h
    ensures var k := SegmentIndex(starts, n);
            && n in ChainAt(h, starts, k).periods && Placed(ChainAt(h, starts, k))
            && (Accounted(ReportOf(AllChains(h, starts), closes, cutoff), n) <==>
                  k == |starts| || InTiledDay(ChainAt(h, starts, k), closes, cutoff, n))
  {
    EveryPeriodInOneSegment(h, starts, SegmentIndex(starts, n), n);
    PeriodAccountedExactly(h, starts, closes, cutoff, n, SegmentIndex(starts, n));
  }

  lemma AccountedMeansTiled(h: seq<Nav>, starts: seq<Epoch>, closes: Calendar, cutoff: Time, k: nat)
    requires Usable(h) && Accepted(h, starts) && Ascending(starts) && Calendars(closes) && k < |starts|
    requires forall n :: n in h ==> Accounted(ReportOf(AllChains(h, starts), closes, cutoff), n)
    ensures FullyTiled(h, starts, closes, cutoff, k)
  {
    forall n | n in ChainAt(h, starts, k).periods
      ensures Placed(ChainAt(h, starts, k)) && InTiledDay(ChainAt(h, starts, k), closes, cutoff, n)
    {
      EveryPeriodInOneSegment(h, starts, k, n);
      AccountedAt(h, starts, closes, cutoff, n);
    }
  }

  /**
   The published report accounts for every visible period exactly when every chain
   but the last is fully tiled: an untiled period of an earlier chain is in no day,
   and the coverage entry that listed it has been overwritten.
  */
  lemma ReportAccountsExactly(h: seq<Nav>, starts: seq<Epoch>, closes: Calendar, cutoff: Time)
    requires Usable(h) && Accepted(h, starts) && Ascending(starts) && Calendars(closes)
    ensures (forall n :: n in h ==> Accounted(ReportOf(AllChains(h, starts), closes, cutoff), n))
       <==> forall k :: 0 <= k < |starts| ==> FullyTiled(h, starts, closes, cutoff, k)
  {
    var report := ReportOf(AllChains(h, starts), closes, cutoff);
    if forall n :: n in h ==> Accounted(report, n) {
      forall k | 0 <= k < |starts| ensures FullyTiled(h, starts, closes, cutoff, k) {
        AccountedMeansTiled(h, starts, closes, cutoff, k);
      }
    }
    if forall k :: 0 <= k < |starts| ==> FullyTiled(h, starts, closes, cutoff, k) {
      forall n | n in h ensures Accounted(report, n) {
        AccountedAt(h, starts, closes, cutoff, n);
        assert SegmentIndex(starts, n) < |starts| ==> FullyTiled(h, starts, closes, cutoff, SegmentIndex(starts, n));
      }
    }
  }

  // ---------------------------------------------------------------- from the store

  lemma LastAnchorIsNew(es: seq<Epoch>)
    requires DistinctAnchors(es) && es != []
    ensures var init := es[..|es| - 1];
            && es == init + [es[|es| - 1]] && DistinctAnchors(init)
            && forall e :: e in init ==> e.sourceId != es[|es| - 1].sourceId
  {
  }

  lemma {:induction false} AnchorsKeepSources(epochs: seq<Epoch>, s: string)
    requires DistinctAnchors(epochs)
    ensures DistinctAnchors(AnchorsOf(epochs, s)) && forall e :: e in AnchorsOf(epochs, s) ==> e in epochs
  {
    if epochs != [] {
      AnchorsKeepSources(epochs[..|epochs| - 1], s);
      LastAnchorIsNew(epochs);
    }
  }

  lemma {:induction false} SeenAnchorsKeepSources(es: seq<Epoch>, cutoff: Time)
    requires DistinctAnchors(es)
    ensures DistinctAnchors(SeenAnchors(es, cutoff)) && forall e :: e in SeenAnchors(es, cutoff) ==> e in es
  {
    if es != [] {
      SeenAnchorsKeepSources(es[..|es| - 1], cutoff);
      LastAnchorIsNew(es);
    }
  }

  /** What the queries return on every store the writers built meets the assumptions above. */
  lemma StoredRowsAreUsable(t: Tables, s: string, cutoff: Time)
    requires Valid(t)
    ensures var h, starts := Seen(Of(t.navs, s), cutoff), SeenAnchors(AnchorsOf(t.epochs, s), cutoff);
            Usable(h) && AllStamped(h) && Ascending(starts) && DistinctAnchors(starts)
  {
    var ns, es := Of(t.navs, s), AnchorsOf(t.epochs, s);
    assert Guarded(ns, es);
    RowsKeepPlace(t.navs, s);
    SeenKeepsSources(ns, cutoff);
    AnchorsKeepSources(t.epochs, s);
    SeenAnchorsKeepSources(es, cutoff);
    SeenAnchorsAreAnchors(es, cutoff);
    var h := Seen(ns, cutoff);
    forall i | 0 <= i < |h| ensures NavWellFormed(h[i]) && h[i] == Stamped(h[i]) {
      assert h[i] in ns;
    }
  }

  // ---------------------------------------------------------------- an epoch whose rest is lost

  /** An epoch with one period that ends at an actual zero, and a later epoch with its first period. */
  ghost predicate TwoEpochs(e: Epoch, n: Nav, f: Epoch, m: Nav) {
    && EpochWellFormed(e) && EpochWellFormed(f) && NavWellFormed(n) && NavWellFormed(m)
    && n.strategy == e.strategy && f.strategy == e.strategy && m.strategy == e.strategy
    && e.sourceId != f.sourceId && n.sourceId != m.sourceId
    && Funds(e, n) && n.closing == 0.0 && n.endedAt <= f.at && Funds(f, m)
  }

  lemma TwoEpochsAreAdmitted(e: Epoch, n: Nav, f: Epoch, m: Nav)
    requires TwoEpochs(e, n, f, m)
    ensures StartEpoch(Tables([], []), e) == (Tables([], [e]), Inserted)
    ensures RecordNav(Tables([], [e]), n) == (Tables([Stamped(n)], [e]), Inserted)
    ensures StartEpoch(Tables([Stamped(n)], [e]), f) == (Tables([Stamped(n)], [e, f]), Inserted)
    ensures RecordNav(Tables([Stamped(n)], [e, f]), m) == (Tables([Stamped(n), Stamped(m)], [e, f]), Inserted)
  {
    FirstEpochAdmitted(e, n);
    SecondAnchorAdmitted(e, Stamped(n), f);
    SecondPeriodAdmitted(e, Stamped(n), f, m);
  }

  lemma FirstEpochAdmitted(e: Epoch, n: Nav)
    requires EpochWellFormed(e) && NavWellFormed(n) && n.strategy == e.strategy && Funds(e, n)
    ensures StartEpoch(Tables([], []), e) == (Tables([], [e]), Inserted)
    ensures RecordNav(Tables([], [e]), n) == (Tables([Stamped(n)], [e]), Inserted)
  {
    hide IsSha256, Factor;
    assert [] + [e] == [e] && [] + [Stamped(n)] == [Stamped(n)] && [e][..0] == [];
    assert LatestEpoch([e], e.strategy) == Some(e);
  }

  lemma SecondAnchorAdmitted(e: Epoch, row: Nav, f: Epoch)
    requires EpochWellFormed(f) && row.strategy == e.strategy == f.strategy && e.sourceId != f.sourceId
    requires row.closing == 0.0 && e.at < row.endedAt <= f.at
    ensures StartEpoch(Tables([row], [e]), f) == (Tables([row], [e, f]), Inserted)
  {
    hide EpochWellFormed;
    assert [e] + [f] == [e, f] && [e][..0] == [] && [row][..0] == [];
    assert LatestEpoch([e], e.strategy) == Some(e) && LatestNav([row], e.strategy) == Some(row);
    assert e in [e];
  }

  lemma SecondPeriodAdmitted(e: Epoch, row: Nav, f: Epoch, m: Nav)
    requires NavWellFormed(m) && row.strategy == e.strategy == f.strategy == m.strategy && row.sourceId != m.sourceId
    requires e.at < f.at && row.endedAt <= f.at && Funds(f, m)
    ensures RecordNav(Tables([row], [e, f]), m) == (Tables([row, Stamped(m)], [e, f]), Inserted)
  {
    hide IsSha256, Factor;
    assert [row] + [Stamped(m)] == [row, Stamped(m)] && [e][..0] == [] && [row][..0] == [] && [e, f][..1] == [e];
    assert LatestNav([], e.strategy) == None && LatestEpoch([], e.strategy) == None;
    assert LatestEpoch([e], e.strategy) == Some(e) && LatestNav([row], e.strategy) == Some(row);
    assert LatestEpoch([e, f], e.strategy) == Some(f);
    assert row in [row];
  }

  lemma TwoEpochsAreValid(e: Epoch, n: Nav, f: Epoch, m: Nav)
    requires TwoEpochs(e, n, f, m)
    ensures Valid(Tables([Stamped(n), Stamped(m)], [e, f]))
  {
    TwoEpochsAreAdmitted(e, n, f, m);
    EveryHistoryIsValid([]);
    hide Valid, StartEpoch, RecordNav, TwoEpochs;
    StartEpochKeepsValid(Tables([], []), e);
    RecordNavKeepsValid(Tables([], [e]), n);
    StartEpochKeepsValid(Tables([Stamped(n)], [e]), f);
    RecordNavKeepsValid(Tables([Stamped(n)], [e, f]), m);
  }

  lemma TwoEpochRows(e: Epoch, n: Nav, f: Epoch, m: Nav)
    requires TwoEpochs(e, n, f, m)
    ensures Of([Stamped(n), Stamped(m)], e.strategy) == [Stamped(n), Stamped(m)]
            && AnchorsOf([e, f], e.strategy) == [e, f]
  {
    var row, next := Stamped(n), Stamped(m);
    hide IsSha256, Factor, Stamped;
    assert [e][..0] == [] && [row][..0] == [] && [e, f][..1] == [e] && [row, next][..1] == [row];
    assert row.strategy == e.strategy && next.strategy == e.strategy;
    assert Of([row], e.strategy) == [row] && AnchorsOf([e], e.strategy) == [e];
  }

  /**
   The writers build it: when the first epoch's last period ends between two closes, it
   is in no published day, and the coverage of the second epoch does not list it either.
  */
  lemma ClosedEpochIsLost(e: Epoch, n: Nav, f: Epoch, m: Nav, closes: Calendar, cutoff: Time)
    requires TwoEpochs(e, n, f, m) && Calendars(closes)
    requires Visible(n, cutoff) && Visible(m, cutoff) && VisibleAnchor(e, cutoff) && VisibleAnchor(f, cutoff)
    requires forall t :: t in closes(Chain([Stamped(n)], Some(e))) ==> t < n.endedAt
    ensures var t := Tables([Stamped(n), Stamped(m)], [e, f]);
            var h, starts := Seen(Of(t.navs, e.strategy), cutoff), SeenAnchors(AnchorsOf(t.epochs, e.strategy), cutoff);
            && Valid(t) && Usable(h) && Accepted(h, starts)
            && Stamped(n) in h && !Accounted(ReportOf(AllChains(h, starts), closes, cutoff), Stamped(n))
  {
    var t := Tables([Stamped(n), Stamped(m)], [e, f]);
    var ns, es := Of(t.navs, e.strategy), AnchorsOf(t.epochs, e.strategy);
    var h, starts := Seen(ns, cutoff), SeenAnchors(es, cutoff);
    TwoEpochsAreSeen(e, n, f, m, cutoff);
    assert e.at <= Stamped(n).startedAt < f.at <= Stamped(m).startedAt && Stamped(n).endedAt == n.endedAt;
    assert DistinctSources(h);
    hide Valid, Accepted, Usable, Seen, SeenAnchors, Of, AnchorsOf, Accounted, Calendars, Stamped, TwoEpochs;
    FirstEpochIsChainOne(e, f, starts, Stamped(n));
    FirstChainIsOnePeriod(e, f, h, starts, Stamped(n), Stamped(m));
    UntiledFirstChain(h, starts, closes, cutoff, Stamped(n));
  }

  lemma FirstChainIsOnePeriod(e: Epoch, f: Epoch, h: seq<Nav>, starts: seq<Epoch>, n: Nav, m: Nav)
    requires Ascending(starts) && |starts| == 2 && starts[0] == e && starts[1] == f
    requires e.at <= n.startedAt < f.at <= m.startedAt
    requires DistinctSources(h) && forall x :: x in h <==> x == n || x == m
    ensures ChainAt(h, starts, 1) == Chain([n], Some(e))
  {
    var c := Segment(h, starts, 1);
    SegmentIndexIsTheSegment(starts, n, 1);
    SegmentIndexIsTheSegment(starts, m, 2);
    SegmentKeepsSources(h, starts, 1);
    forall x ensures x in c <==> x == n {
      EveryPeriodInOneSegment(h, starts, 1, x);
    }
    hide Segment, SegmentIndex;
    assert n in c;
    assert c[0] in c && c[|c| - 1] in c;
    assert c[0].sourceId == c[|c| - 1].sourceId;
  }

  lemma TwoEpochsAreSeen(e: Epoch, n: Nav, f: Epoch, m: Nav, cutoff: Time)
    requires TwoEpochs(e, n, f, m)
    requires Visible(n, cutoff) && Visible(m, cutoff) && VisibleAnchor(e, cutoff) && VisibleAnchor(f, cutoff)
    ensures var t := Tables([Stamped(n), Stamped(m)], [e, f]);
            var h, starts := Seen(Of(t.navs, e.strategy), cutoff), SeenAnchors(AnchorsOf(t.epochs, e.strategy), cutoff);
            && Valid(t) && Usable(h) && Accepted(h, starts) && Ascending(starts)
            && (forall x :: x in h <==> x == Stamped(n) || x == Stamped(m))
            && forall x :: x in starts <==> x == e || x == f
  {
    var t := Tables([Stamped(n), Stamped(m)], [e, f]);
    TwoEpochsAreValid(e, n, f, m);
    TwoEpochRows(e, n, f, m);
    assert Visible(Stamped(n), cutoff) && Visible(Stamped(m), cutoff);
    hide Valid, Accepted, Usable, Seen, SeenAnchors, Of, AnchorsOf, Stamped, TwoEpochs, Visible;
    CompleteHistoryIsReadable(t, e.strategy, cutoff);
    StoredRowsAreUsable(t, e.strategy, cutoff);
    SeenMembers(t.navs, cutoff);
    assert Ascending([e, f]) by {
      ValidAscends(t, e.strategy);
    }
    SeenAnchorsAreAnchors(t.epochs, cutoff);
  }

  lemma ValidAscends(t: Tables, s: string)
    requires Valid(t)
    ensures Ascending(AnchorsOf(t.epochs, s))
  {
    assert Guarded(Of(t.navs, s), AnchorsOf(t.epochs, s));
  }

  lemma UntiledFirstChain(h: seq<Nav>, starts: seq<Epoch>, closes: Calendar, cutoff: Time, n: Nav)
    requires Usable(h) && Accepted(h, starts) && Ascending(starts) && Calendars(closes)
    requires |starts| == 2 && n in h && SegmentIndex(starts, n) == 1
    requires forall t :: t in closes(ChainAt(h, starts, 1)) ==> t < n.endedAt
    ensures !Accounted(ReportOf(AllChains(h, starts), closes, cutoff), n)
  {
    EveryPeriodInOneSegment(h, starts, 1, n);
    hide Segment, Accepted, Usable, Accounted, AllChains, ReportOf, InTiledDay;
    PeriodAccountedExactly(h, starts, closes, cutoff, n, 1);
    NotTiled(ChainAt(h, starts, 1), closes, cutoff, n);
  }

  lemma FirstEpochIsChainOne(e: Epoch, f: Epoch, starts: seq<Epoch>, n: Nav)
    requires Ascending(starts) && (forall x :: x in starts <==> x == e || x == f)
    requires e.at <= n.startedAt < f.at
    ensures |starts| == 2 && starts[0] == e && starts[1] == f && SegmentIndex(starts, n) == 1
  {
    hide SegmentIndex;
    assert e in starts && f in starts;
    var i :| 0 <= i < |starts| && starts[i] == e;
    var j :| 0 <= j < |starts| && starts[j] == f;
    forall k | 0 <= k < |starts| ensures (starts[k] == e && k == i) || (starts[k] == f && k == j) {
      assert starts[k] in starts;
    }
    assert i < j;
    assert starts[0] == e && i == 0;
    assert starts[1] == f && j == 1;
    assert starts[|starts| - 1] == f;
    SegmentIndexIsTheSegment(starts, n, 1);
  }

  lemma NotTiled(c: Chain, closes: Calendar, cutoff: Time, n: Nav)
    requires Placed(c) && forall t :: t in closes(c) ==> t < n.endedAt
    ensures !InTiledDay(c, closes, cutoff, n)
  {
    forall p | p in PairsOf(c, closes, cutoff) ensures p.1 < n.endedAt {
      PairsAreComplete(closes(c), FirstOf(c), cutoff, p.0, p.1);
      var i :| 0 <= i < |closes(c)| - 1 && Neighbours(closes(c), i, p.0, p.1);
      assert closes(c)[i + 1] in closes(c);
    }
  }

  // ---------------------------------------------------------------- the continuous calendar

  /** The UTC midnights from the day of one instant to the day of another. */
  function Midnights(first: Time, last: Time): seq<Time> {
    if last / DAY < first / DAY then []
    else seq(last / DAY - first / DAY + 1, i requires 0 <= i => (first / DAY + i) * DAY)
  }

  /** The closes of a continuous market: midnights from the start of a chain to its last end. */
  function ContinuousCalendar(): Calendar {
    (c: Chain) =>
      if !Placed(c) then []
      else Midnights(FirstOf(c), if c.periods == [] then FirstOf(c) else c.periods[|c.periods| - 1].endedAt)
  }

  lemma ContinuousIsACalendar()
    ensures Calendars(ContinuousCalendar())
  {
    forall c: Chain ensures Increasing(ContinuousCalendar()(c)) {
      if Placed(c) {
        MidnightsIncrease(FirstOf(c), if c.periods == [] then FirstOf(c) else c.periods[|c.periods| - 1].endedAt);
      }
    }
  }

  lemma MidnightsIncrease(first: Time, last: Time)
    ensures Increasing(Midnights(first, last))
    ensures forall t :: t in Midnights(first, last) ==> t <= last && t % DAY == 0
  {
    var closes := Midnights(first, last);
    forall i | 0 <= i < |closes| ensures closes[i] <= last && closes[i] % DAY == 0 {
      assert closes[i] == (first / DAY + i) * DAY;
    }
  }

  /** On the continuous calendar every epoch that ends within a day loses its last period once another is funded. */
  lemma MidnightsLoseTheLastPeriod(e: Epoch, n: Nav, f: Epoch, m: Nav, cutoff: Time)
    requires TwoEpochs(e, n, f, m) && n.endedAt % DAY != 0
    requires Visible(n, cutoff) && Visible(m, cutoff) && VisibleAnchor(e, cutoff) && VisibleAnchor(f, cutoff)
    ensures Calendars(ContinuousCalendar())
    ensures var t := Tables([Stamped(n), Stamped(m)], [e, f]);
            var h, starts := Seen(Of(t.navs, e.strategy), cutoff), SeenAnchors(AnchorsOf(t.epochs, e.strategy), cutoff);
            && Valid(t) && Usable(h) && Accepted(h, starts) && Stamped(n) in h
            && !Accounted(ReportOf(AllChains(h, starts), ContinuousCalendar(), cutoff), Stamped(n))
  {
    ContinuousIsACalendar();
    MidnightsIncrease(e.at, n.endedAt);
    assert ContinuousCalendar()(Chain([Stamped(n)], Some(e))) == Midnights(e.at, n.endedAt);
    hide Midnights, TwoEpochs;
    ClosedEpochIsLost(e, n, f, m, ContinuousCalendar(), cutoff);
  }

  // ---------------------------------------------------------------- metrics

  /** The daily returns of one epoch. */
  ghost function Matching(entries: seq<Entry>, epoch: Option<string>): seq<Day> {
    if entries == [] then []
    else
      var last := entries[|entries| - 1];
      Matching(entries[..|entries| - 1], epoch) + (if last.epoch == epoch then [last.day] else [])
  }

  /** What the metrics of a strategy are computed from: the days of the epoch its coverage names. */
  ghost function MetricsDays(r: Report): seq<Day> {
    if r.coverage.None? then [] else Matching(r.entries, r.coverage.value.epoch)
  }

  lemma {:induction false} MatchingAppend(x: seq<Entry>, y: seq<Entry>, epoch: Option<string>)
    ensures Matching(x + y, epoch) == Matching(x, epoch) + Matching(y, epoch)
  {
    if y == [] {
      assert x + y == x;
    } else {
      var init := y[..|y| - 1];
      MatchingAppend(x, init, epoch);
      assert (x + y)[..|x + y| - 1] == x + init;
    }
  }

  lemma {:induction false} MatchingTagged(tag: Option<string>, days: seq<Day>, epoch: Option<string>)
    ensures Matching(Tagged(tag, days), epoch) == if tag == epoch then days else []
  {
    if days != [] {
      var init := days[..|days| - 1];
      MatchingTagged(tag, init, epoch);
      assert Tagged(tag, days)[..|days| - 1] == Tagged(tag, init);
      assert days == init + [days[|days| - 1]];
    }
  }

  lemma {:induction false} NoneMatch(chains: seq<Chain>, closes: Calendar, cutoff: Time, epoch: Option<string>)
    requires AllPublishable(chains) && forall m :: 0 <= m < |chains| ==> EpochOf(chains[m]) != epoch
    ensures Matching(EntriesOf(chains, closes, cutoff), epoch) == []
  {
    hide Publishable, DaysOfChain;
    if chains != [] {
      var init, last := chains[..|chains| - 1], chains[|chains| - 1];
      assert AllPublishable(init) by {
        assert forall m :: 0 <= m < |init| ==> init[m] == chains[m];
      }
      NoneMatch(init, closes, cutoff, epoch);
      MatchingAppend(EntriesOf(init, closes, cutoff), Tagged(EpochOf(last), DaysOfChain(last, closes, cutoff)), epoch);
      MatchingTagged(EpochOf(last), DaysOfChain(last, closes, cutoff), epoch);
    }
  }

  /** Metrics see exactly the last chain. */
  lemma MetricsSeeTheLastChain(chains: seq<Chain>, closes: Calendar, cutoff: Time)
    requires AllPublishable(chains) && chains != []
    requires forall m :: 0 <= m < |chains| - 1 ==> EpochOf(chains[m]) != EpochOf(chains[|chains| - 1])
    ensures MetricsDays(ReportOf(chains, closes, cutoff)) == DaysOfChain(chains[|chains| - 1], closes, cutoff)
  {
    hide Publishable, DaysOfChain;
    var init, last := chains[..|chains| - 1], chains[|chains| - 1];
    assert AllPublishable(init) by {
      assert forall m :: 0 <= m < |init| ==> init[m] == chains[m];
    }
    NoneMatch(init, closes, cutoff, EpochOf(last));
    MatchingAppend(EntriesOf(init, closes, cutoff), Tagged(EpochOf(last), DaysOfChain(last, closes, cutoff)),
                   EpochOf(last));
    MatchingTagged(EpochOf(last), DaysOfChain(last, closes, cutoff), EpochOf(last));
  }

  ghost predicate NoFlows(c: seq<Nav>) {
    forall k :: 0 <= k < |c| ==> c[k].endFlow == 0.0
  }

  /** The chains of a stored strategy have different epochs. */
  lemma ChainsHaveOwnEpochs(h: seq<Nav>, starts: seq<Epoch>)
    requires Usable(h) && Accepted(h, starts) && DistinctAnchors(starts)
    ensures var chains := AllChains(h, starts);
            forall l, m :: 0 <= l < m < |chains| ==> EpochOf(chains[l]) != EpochOf(chains[m])
  {
    hide Segment, Accepted, Usable;
    ChainsAre(h, starts, |starts| + 1);
  }

  /** Period i of the last chain starts at its first expected boundary, period j - 1 ends at its last. */
  ghost predicate ReturnsLastOverFirst(chains: seq<Chain>, closes: Calendar, cutoff: Time, i: nat, j: nat)
    requires AllPublishable(chains) && chains != []
  {
    var c, pairs := chains[|chains| - 1].periods, PairsOf(chains[|chains| - 1], closes, cutoff);
    && pairs != [] && Tiles(c, cutoff, pairs[0].0, pairs[|pairs| - 1].1, i, j)
    && c[i].opening > 0.0
    && TotalReturn(MetricsDays(ReportOf(chains, closes, cutoff))) == c[j - 1].closing / c[i].opening - 1.0
  }

  /** With complete coverage and no flows, the published total return is the NAV at the last boundary over the NAV at
   * the first, minus one. */
  lemma CompleteReturnTelescopes(h: seq<Nav>, starts: seq<Epoch>, closes: Calendar, cutoff: Time)
    returns (i: nat, j: nat)
    requires Usable(h) && Accepted(h, starts) && DistinctAnchors(starts) && Calendars(closes)
    requires var report := ReportOf(AllChains(h, starts), closes, cutoff);
             report.coverage.Some? && report.coverage.value.complete
    requires NoFlows(AllChains(h, starts)[|AllChains(h, starts)| - 1].periods)
    ensures var chains := AllChains(h, starts);
            ReturnsLastOverFirst(chains, closes, cutoff, i, j)
  {
    var chains := AllChains(h, starts);
    ChainsHaveOwnEpochs(h, starts);
    hide Accepted, Usable, DistinctAnchors, AllChains;
    i, j := LastChainTelescopes(chains, closes, cutoff);
  }

  /** The published total return of complete coverage, flows or not: what one unit of the last chain gained. */
  ghost predicate ReturnsUnitPrice(chains: seq<Chain>, closes: Calendar, cutoff: Time, i: nat, j: nat)
    requires AllPublishable(chains) && chains != []
  {
    var c, pairs := chains[|chains| - 1].periods, PairsOf(chains[|chains| - 1], closes, cutoff);
    && pairs != [] && Tiles(c, cutoff, pairs[0].0, pairs[|pairs| - 1].1, i, j)
    && forall units, prices :: UnitAccount(c[i..j], units, prices) ==>
         TotalReturn(MetricsDays(ReportOf(chains, closes, cutoff))) == prices[j - i] - 1.0
  }

  /**
   With complete coverage the published total return is the price of a unit bought at the first
   boundary of the last chain for one, money that flowed in or out buying or redeeming units.
  */
  lemma CompleteReturnIsUnitPrice(h: seq<Nav>, starts: seq<Epoch>, closes: Calendar, cutoff: Time)
    returns (i: nat, j: nat)
    requires Usable(h) && Accepted(h, starts) && DistinctAnchors(starts) && Calendars(closes)
    requires var report := ReportOf(AllChains(h, starts), closes, cutoff);
             report.coverage.Some? && report.coverage.value.complete
    ensures AllChains(h, starts) != [] && ReturnsUnitPrice(AllChains(h, starts), closes, cutoff, i, j)
  {
    var chains := AllChains(h, starts);
    ChainsHaveOwnEpochs(h, starts);
    hide Accepted, Usable, DistinctAnchors, AllChains;
    var last := chains[|chains| - 1];
    MetricsSeeTheLastChain(chains, closes, cutoff);
    ChainPairs(last, closes, cutoff);
    hide Calendars, AllPublishable, MetricsDays;
    i, j := FullCoverageIsUnitPrice(last.periods, cutoff, PairsOf(last, closes, cutoff),
                                    DaysOfChain(last, closes, cutoff));
  }

  /** Every expected day is tiled. */
  ghost predicate AllTiled(c: seq<Nav>, cutoff: Time, pairs: seq<(Time, Time)>) {
    forall p :: p in pairs ==> Tiled(c, cutoff, p.0, p.1)
  }

  lemma {:induction false} AllTiledExactly(c: seq<Nav>, cutoff: Time, pairs: seq<(Time, Time)>, days: seq<Day>)
    requires DaysOf(c, cutoff, pairs, days)
    ensures |days| == |pairs| <==> AllTiled(c, cutoff, pairs)
    decreases |pairs|
  {
    hide Tiled, IsDay;
    if pairs != [] {
      var init, last := pairs[..|pairs| - 1], pairs[|pairs| - 1];
      assert pairs == init + [last];
      if Tiled(c, cutoff, last.0, last.1) {
        AllTiledExactly(c, cutoff, init, days[..|days| - 1]);
      } else {
        AtMostOneDayEach(c, cutoff, init, days);
      }
    }
  }

  /**
   The coverage entry is the last chain's: complete exactly when there is an expected day and each
   one is tiled, and it lists the periods of that chain that no tiled day spans.
  */
  lemma CoverageIsExact(chains: seq<Chain>, closes: Calendar, cutoff: Time, n: Nav)
    requires AllPublishable(chains) && Calendars(closes)
    ensures var coverage := ReportOf(chains, closes, cutoff).coverage;
            && (coverage.Some? <==> chains != [])
            && (coverage.Some? ==>
                  var c, pairs := chains[|chains| - 1], PairsOf(chains[|chains| - 1], closes, cutoff);
                  && coverage.value.epoch == (if c.anchor.Some? then Some(c.anchor.value.sourceId) else None)
                  && coverage.value.expected == |pairs|
                  && (coverage.value.complete <==> pairs != [] && AllTiled(c.periods, cutoff, pairs))
                  && (n in coverage.value.unaggregated <==> n in c.periods && !InTiledDay(c, closes, cutoff, n)))
  {
    if chains != [] {
      var c := chains[|chains| - 1];
      assert Publishable(c);
      AllTiledExactly(c.periods, cutoff, PairsOf(c, closes, cutoff), DaysOfChain(c, closes, cutoff));
      UnusedInChain(c, closes, cutoff, n);
      hide AllPublishable, Publishable, DaysOfChain, AllTiled, InTiledDay;
    }
  }

  lemma LastChainTelescopes(chains: seq<Chain>, closes: Calendar, cutoff: Time) returns (i: nat, j: nat)
    requires AllPublishable(chains) && chains != [] && Calendars(closes)
    requires forall m :: 0 <= m < |chains| - 1 ==> EpochOf(chains[m]) != EpochOf(chains[|chains| - 1])
    requires CoverageOf(chains[|chains| - 1], closes, cutoff).complete && NoFlows(chains[|chains| - 1].periods)
    ensures ReturnsLastOverFirst(chains, closes, cutoff, i, j)
  {
    var last := chains[|chains| - 1];
    MetricsSeeTheLastChain(chains, closes, cutoff);
    ChainPairs(last, closes, cutoff);
    hide Calendars, AllPublishable, MetricsDays;
    i, j := FullCoverageTelescopes(last.periods, cutoff, PairsOf(last, closes, cutoff),
                                   DaysOfChain(last, closes, cutoff));
  }
}
