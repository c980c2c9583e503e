/**
 The append-only store of attributed NAV periods and funding anchors, and the
 reader that partitions it into return chains.

 Clocks are compared as instants: ISO text in UTC sorts like the instant it spells.
*/
module NavStore {
  import opened Basics

  datatype Nav = Nav(strategy: string, startedAt: Time, endedAt: Time, availableAt: Time,
                     opening: real, closing: real, endFlow: real, periodReturn: real,
                     sourceId: string, sourceHash: string)

  datatype Epoch = Epoch(strategy: string, at: Time, availableAt: Time, opening: real,
                         sourceId: string, sourceHash: string)

  datatype Tables = Tables(navs: seq<Nav>, epochs: seq<Epoch>)

  datatype Outcome = Inserted | Repeated | Rejected

  predicate NavWellFormed(n: Nav) {
    && n.startedAt < n.endedAt <= n.availableAt && |n.strategy| > 0 && |n.sourceId| > 0 && IsSha256(n.sourceHash)
    && n.opening > 0.0 && n.closing >= 0.0 && n.closing - n.endFlow >= 0.0
  }

  predicate EpochWellFormed(e: Epoch) {
    && |e.strategy| > 0 && |e.sourceId| > 0 && e.availableAt >= e.at && e.opening > 0.0 && IsSha256(e.sourceHash)
  }

  /** The growth factor of a period, its end flow taken out. */
  function Factor(n: Nav): real
    requires n.opening > 0.0
  {
    (n.closing - n.endFlow) / n.opening
  }

  /** The row as stored, with its return. */
  function Stamped(n: Nav): Nav
    requires n.opening > 0.0
  {
    n.(periodReturn := Factor(n) - 1.0)
  }

  function Of(navs: seq<Nav>, strategy: string): seq<Nav> {
    if navs == [] then []
    else
      var last := navs[|navs| - 1];
      Of(navs[..|navs| - 1], strategy) + (if last.strategy == strategy then [last] else [])
  }

  function AnchorsOf(epochs: seq<Epoch>, strategy: string): seq<Epoch> {
    if epochs == [] then []
    else
      var last := epochs[|epochs| - 1];
      AnchorsOf(epochs[..|epochs| - 1], strategy) + (if last.strategy == strategy then [last] else [])
  }

  /** The row of a strategy with the latest end. */
  function LatestNav(navs: seq<Nav>, strategy: string): Option<Nav> {
    if navs == [] then None
    else
      var before, last := LatestNav(navs[..|navs| - 1], strategy), navs[|navs| - 1];
      if last.strategy == strategy && (before.None? || last.endedAt >= before.value.endedAt) then Some(last) else before
  }

  function LatestEpoch(epochs: seq<Epoch>, strategy: string): Option<Epoch> {
    if epochs == [] then None
    else
      var before, last := LatestEpoch(epochs[..|epochs| - 1], strategy), epochs[|epochs| - 1];
      if last.strategy == strategy && (before.None? || last.at >= before.value.at) then Some(last) else before
  }

  // ---------------------------------------------------------------- the two guarded inserts

  predicate Opens(e: Epoch, n: Nav) {
    n.startedAt == e.at && n.opening == e.opening
  }

  /** A period that starts from an anchor and is not known before it. */
  predicate Funds(e: Epoch, n: Nav) {
    Opens(e, n) && n.availableAt >= e.availableAt
  }

  predicate Continues(previous: Nav, n: Nav) {
    n.startedAt == previous.endedAt && n.opening == previous.closing
  }

  /** The guard of a funding anchor: no history, or an actual zero NAV after the last anchor. */
  predicate MayAnchor(previous: Option<Nav>, epoch: Option<Epoch>, e: Epoch) {
    if previous.None? then epoch.None?
    else
      && previous.value.closing == 0.0 && e.at >= previous.value.endedAt
      && (epoch.Some? ==> epoch.value.at < previous.value.endedAt)
  }

  /** The guard of a period: from the exact anchor, or continuing the last period. */
  predicate MayRecord(previous: Option<Nav>, epoch: Option<Epoch>, n: Nav) {
    if epoch.Some? && (previous.None? || previous.value.endedAt <= epoch.value.at) then
      Funds(epoch.value, n)
    else previous.Some? ==> Continues(previous.value, n)
  }

  function StartEpoch(t: Tables, e: Epoch): (Tables, Outcome) {
    if !EpochWellFormed(e) then (t, Rejected)
    else if exists x :: x in t.epochs && x.sourceId == e.sourceId then
      (t, if e in t.epochs then Repeated else Rejected)
    else if !MayAnchor(LatestNav(t.navs, e.strategy), LatestEpoch(t.epochs, e.strategy), e) then (t, Rejected)
    else if exists x :: x in t.epochs && x.strategy == e.strategy && x.at == e.at then (t, Rejected)
    else (t.(epochs := t.epochs + [e]), Inserted)
  }

  function RecordNav(t: Tables, n: Nav): (Tables, Outcome) {
    if !NavWellFormed(n) then (t, Rejected)
    else if exists x :: x in t.navs && x.sourceId == n.sourceId then
      (t, if Stamped(n) in t.navs then Repeated else Rejected)
    else if !MayRecord(LatestNav(t.navs, n.strategy), LatestEpoch(t.epochs, n.strategy), n) then (t, Rejected)
    else if exists x :: x in t.navs && x.strategy == n.strategy && x.endedAt == n.endedAt then (t, Rejected)
    else (t.(navs := t.navs + [Stamped(n)]), Inserted)
  }

  // ---------------------------------------------------------------- the invariant of one strategy

  /** What a reader relies on: ordered disjoint periods that no anchor cuts, linked or restarted at an anchor. */
  ghost predicate Linked(ns: seq<Nav>, es: seq<Epoch>) {
    && (forall i :: 0 <= i < |ns| ==> NavWellFormed(ns[i]) && ns[i] == Stamped(ns[i]))
    && (forall i, j :: 0 <= i < j < |ns| ==> ns[i].endedAt <= ns[j].startedAt)
    && (forall k, l :: 0 <= k < l < |es| ==> es[k].at < es[l].at)
    && (forall i, k :: 0 <= i < |ns| && 0 <= k < |es| ==> ns[i].endedAt <= es[k].at || es[k].at <= ns[i].startedAt)
    && (forall i :: 0 < i < |ns| ==> Connected(ns, es, i))
    && (forall i, k {:trigger FirstAfter(ns, i, es[k])} ::
          0 <= i < |ns| && 0 <= k < |es| && FirstAfter(ns, i, es[k]) ==> Funds(es[k], ns[i]))
  }

  ghost predicate Connected(ns: seq<Nav>, es: seq<Epoch>, i: nat)
    requires 0 < i < |ns|
  {
    Continues(ns[i - 1], ns[i]) || Restarted(ns, es, i)
  }

  ghost predicate Restarted(ns: seq<Nav>, es: seq<Epoch>, i: nat)
    requires 0 < i < |ns|
  {
    ns[i - 1].closing == 0.0 && exists k :: 0 <= k < |es| && Opens(es[k], ns[i])
  }

  ghost predicate FirstAfter(ns: seq<Nav>, i: nat, e: Epoch)
    requires i < |ns|
  {
    e.at <= ns[i].startedAt && (i > 0 ==> ns[i - 1].startedAt < e.at)
  }

  /** What the writers keep besides: an anchor follows a zero NAV and gets used before the next one. */
  ghost predicate Guarded(ns: seq<Nav>, es: seq<Epoch>) {
    && Linked(ns, es)
    && (forall k :: 0 <= k < |es| - 1 ==> Used(ns, es[k]))
    && (ns != [] && es != [] && ns[|ns| - 1].endedAt <= es[|es| - 1].at ==> ns[|ns| - 1].closing == 0.0)
  }

  ghost predicate Used(ns: seq<Nav>, e: Epoch) {
    exists i :: 0 <= i < |ns| && e.at <= ns[i].startedAt
  }

  ghost function Last<T>(s: seq<T>): Option<T> {
    if s == [] then None else Some(s[|s| - 1])
  }

  lemma AnchorComesLast(ns: seq<Nav>, es: seq<Epoch>, e: Epoch)
    requires Linked(ns, es) && MayAnchor(Last(ns), Last(es), e)
    ensures forall i :: 0 <= i < |ns| ==> ns[i].endedAt <= e.at && !FirstAfter(ns, i, e)
    ensures forall k :: 0 <= k < |es| ==> es[k].at < e.at
  {
    if ns != [] {
      assert forall i :: 0 <= i < |ns| ==> ns[i].endedAt <= ns[|ns| - 1].endedAt;
    }
  }

  lemma AnchorKeepsLinked(ns: seq<Nav>, es: seq<Epoch>, e: Epoch)
    requires Linked(ns, es) && MayAnchor(Last(ns), Last(es), e)
    ensures Linked(ns, es + [e])
  {
    hide Stamped, NavWellFormed, MayAnchor, Funds, Continues;
    var es' := es + [e];
    AnchorComesLast(ns, es, e);
    forall i, k | 0 <= i < |ns| && 0 <= k < |es'| && FirstAfter(ns, i, es'[k]) ensures Funds(es'[k], ns[i]) {
      assert k < |es| && es'[k] == es[k];
    }
    forall i | 0 < i < |ns| ensures Connected(ns, es', i) {
      assert Connected(ns, es, i);
      if Restarted(ns, es, i) {
        var k :| 0 <= k < |es| && Opens(es[k], ns[i]);
        assert Opens(es'[k], ns[i]);
      }
    }
  }

  lemma AnchorKeepsGuarded(ns: seq<Nav>, es: seq<Epoch>, e: Epoch)
    requires Guarded(ns, es) && MayAnchor(Last(ns), Last(es), e)
    ensures Guarded(ns, es + [e])
  {
    var es' := es + [e];
    AnchorKeepsLinked(ns, es, e);
    forall k | 0 <= k < |es'| - 1 ensures Used(ns, es'[k]) {
      hide FirstAfter, Restarted, Continues, Opens;
      if k == |es| - 1 {
        assert es[k].at <= ns[|ns| - 1].startedAt;
      } else {
        assert Used(ns, es[k]) && es'[k] == es[k];
      }
    }
  }

  lemma PeriodKeepsOrder(ns: seq<Nav>, es: seq<Epoch>, n: Nav)
    requires Guarded(ns, es) && NavWellFormed(n) && MayRecord(Last(ns), Last(es), n)
    ensures forall i :: 0 <= i < |ns| ==> ns[i].endedAt <= n.startedAt
    ensures forall k :: 0 <= k < |es| ==> es[k].at <= n.startedAt
  {
    if ns != [] {
      assert forall i :: 0 <= i < |ns| ==> ns[i].endedAt <= ns[|ns| - 1].endedAt;
    }
    if es != [] {
      assert forall k :: 0 <= k < |es| ==> es[k].at <= es[|es| - 1].at;
    }
  }

  lemma LaterAnchorsAreUsedByTheLast(ns: seq<Nav>, es: seq<Epoch>, k: nat)
    requires Guarded(ns, es) && k < |es| - 1
    ensures ns != [] && es[k].at <= ns[|ns| - 1].startedAt
  {
    assert Used(ns, es[k]);
    var i :| 0 <= i < |ns| && es[k].at <= ns[i].startedAt;
    assert i < |ns| - 1 ==> ns[i].endedAt <= ns[|ns| - 1].startedAt;
  }

  lemma PeriodFirstAfter(ns: seq<Nav>, es: seq<Epoch>, n: Nav, k: nat)
    requires Guarded(ns, es) && NavWellFormed(n) && MayRecord(Last(ns), Last(es), n)
    requires k < |es| && FirstAfter(ns + [n], |ns|, es[k])
    ensures Funds(es[k], n)
  {
    if k < |es| - 1 {
      LaterAnchorsAreUsedByTheLast(ns, es, k);
    }
  }

  lemma PeriodIsConnected(ns: seq<Nav>, es: seq<Epoch>, n: Nav)
    requires Linked(ns, es) && NavWellFormed(n) && MayRecord(Last(ns), Last(es), n)
    requires ns != [] && es != [] && ns[|ns| - 1].endedAt <= es[|es| - 1].at ==> ns[|ns| - 1].closing == 0.0
    ensures forall i :: 0 < i <= |ns| ==> Connected(ns + [n], es, i)
  {
    var ns' := ns + [n];
    forall i | 0 < i <= |ns| ensures Connected(ns', es, i) {
      if i < |ns| {
        assert Connected(ns, es, i);
      } else if es != [] && ns[|ns| - 1].endedAt <= es[|es| - 1].at {
        assert Opens(es[|es| - 1], n);
      }
    }
  }

  lemma PeriodIsFunded(ns: seq<Nav>, es: seq<Epoch>, n: Nav, i: nat, k: nat)
    requires Guarded(ns, es) && NavWellFormed(n) && MayRecord(Last(ns), Last(es), n)
    requires i <= |ns| && k < |es| && FirstAfter(ns + [n], i, es[k])
    ensures Funds(es[k], (ns + [n])[i])
  {
    if i < |ns| {
      assert FirstAfter(ns, i, es[k]);
    } else {
      PeriodFirstAfter(ns, es, n, k);
    }
  }

  lemma PeriodKeepsUsed(ns: seq<Nav>, es: seq<Epoch>, n: Nav, k: nat)
    requires k < |es| && Used(ns, es[k])
    ensures Used(ns + [n], es[k])
  {
    var i :| 0 <= i < |ns| && es[k].at <= ns[i].startedAt;
    assert (ns + [n])[i] == ns[i];
  }

  lemma PeriodKeepsGuarded(ns: seq<Nav>, es: seq<Epoch>, n: Nav)
    requires Guarded(ns, es) && NavWellFormed(n) && n == Stamped(n) && MayRecord(Last(ns), Last(es), n)
    ensures Guarded(ns + [n], es)
  {
    var ns' := ns + [n];
    PeriodKeepsOrder(ns, es, n);
    PeriodIsConnected(ns, es, n);
    forall i, k | 0 <= i < |ns'| && 0 <= k < |es| && FirstAfter(ns', i, es[k]) ensures Funds(es[k], ns'[i]) {
      PeriodIsFunded(ns, es, n, i, k);
    }
    forall k | 0 <= k < |es| - 1 ensures Used(ns', es[k]) {
      PeriodKeepsUsed(ns, es, n, k);
    }
    hide FirstAfter, Connected, Funds, Used, MayRecord, NavWellFormed, Stamped;
  }

  // ---------------------------------------------------------------- the invariant of the store

  ghost predicate Valid(t: Tables) {
    && (forall s: string :: Guarded(Of(t.navs, s), AnchorsOf(t.epochs, s)))
    && DistinctSources(t.navs) && DistinctAnchors(t.epochs)
  }

  predicate DistinctAnchors(es: seq<Epoch>) {
    forall i, j :: 0 <= i < j < |es| ==> es[i].sourceId != es[j].sourceId
  }

  predicate DistinctSources(ns: seq<Nav>) {
    forall i, j :: 0 <= i < j < |ns| ==> ns[i].sourceId != ns[j].sourceId
  }

  /** Rows of one strategy are stored in order of their end, so the latest is the last. */
  lemma {:induction false} LatestNavIsLast(navs: seq<Nav>, s: string)
    requires forall i :: 0 <= i < |Of(navs, s)| ==> NavWellFormed(Of(navs, s)[i])
    requires forall i, j :: 0 <= i < j < |Of(navs, s)| ==> Of(navs, s)[i].endedAt <= Of(navs, s)[j].startedAt
    ensures LatestNav(navs, s) == Last(Of(navs, s))
  {
    if navs != [] {
      var init := navs[..|navs| - 1];
      var before, all := Of(init, s), Of(navs, s);
      assert forall i :: 0 <= i < |before| ==> all[i] == before[i];
      LatestNavIsLast(init, s);
    }
  }

  lemma {:induction false} LatestEpochIsLast(epochs: seq<Epoch>, s: string)
    requires forall k, l ::
               0 <= k < l < |AnchorsOf(epochs, s)| ==> AnchorsOf(epochs, s)[k].at < AnchorsOf(epochs, s)[l].at
    ensures LatestEpoch(epochs, s) == Last(AnchorsOf(epochs, s))
  {
    if epochs != [] {
      var init := epochs[..|epochs| - 1];
      var before, all := AnchorsOf(init, s), AnchorsOf(epochs, s);
      assert forall k :: 0 <= k < |before| ==> all[k] == before[k];
      LatestEpochIsLast(init, s);
    }
  }

  /** Anchoring, retries included, keeps every strategy's chain. */
  lemma StartEpochKeepsValid(t: Tables, e: Epoch)
    requires Valid(t)
    ensures Valid(StartEpoch(t, e).0)
  {
    if StartEpoch(t, e).1.Inserted? {
      hide Guarded, MayAnchor, EpochWellFormed;
      var t' := StartEpoch(t, e).0;
      assert t'.epochs[..|t'.epochs| - 1] == t.epochs;
      forall s: string ensures Guarded(Of(t'.navs, s), AnchorsOf(t'.epochs, s)) {
        var ns, es := Of(t.navs, s), AnchorsOf(t.epochs, s);
        assert Guarded(ns, es);
        if s == e.strategy {
          LatestRows(t, s);
          AnchorKeepsGuarded(ns, es, e);
        } else {
          assert AnchorsOf(t'.epochs, s) == es;
        }
      }
    }
  }

  lemma LatestRows(t: Tables, s: string)
    requires Valid(t)
    ensures LatestNav(t.navs, s) == Last(Of(t.navs, s)) && LatestEpoch(t.epochs, s) == Last(AnchorsOf(t.epochs, s))
  {
    assert Guarded(Of(t.navs, s), AnchorsOf(t.epochs, s));
    LatestNavIsLast(t.navs, s);
    LatestEpochIsLast(t.epochs, s);
  }

  lemma RecordedKeepsGuarded(ns: seq<Nav>, es: seq<Epoch>, n: Nav)
    requires Guarded(ns, es) && NavWellFormed(n) && MayRecord(Last(ns), Last(es), n)
    ensures Guarded(ns + [Stamped(n)], es)
  {
    hide Guarded;
    PeriodKeepsGuarded(ns, es, Stamped(n));
  }

  /** Recording, retries included, keeps every strategy's chain. */
  lemma RecordNavKeepsValid(t: Tables, n: Nav)
    requires Valid(t)
    ensures Valid(RecordNav(t, n).0)
  {
    if RecordNav(t, n).1.Inserted? {
      var t', row := RecordNav(t, n).0, Stamped(n);
      assert t'.navs[..|t'.navs| - 1] == t.navs;
      hide Guarded, MayRecord, NavWellFormed, Stamped;
      forall s: string ensures Guarded(Of(t'.navs, s), AnchorsOf(t'.epochs, s)) {
        var ns, es := Of(t.navs, s), AnchorsOf(t.epochs, s);
        assert Guarded(ns, es);
        if s == n.strategy {
          LatestRows(t, s);
          RecordedKeepsGuarded(ns, es, n);
        } else {
          assert Of(t'.navs, s) == ns;
        }
      }
    }
  }

  datatype Operation = Anchor(e: Epoch) | Record(n: Nav)

  function Operate(t: Tables, operations: seq<Operation>): Tables {
    if operations == [] then t
    else
      var before := Operate(t, operations[..|operations| - 1]);
      match operations[|operations| - 1]
      case Anchor(e) => StartEpoch(before, e).0
      case Record(n) => RecordNav(before, n).0
  }

  /** Any series of anchors and records, refused ones and retries included, keeps every chain. */
  lemma {:induction false} EveryHistoryIsValid(operations: seq<Operation>)
    ensures Valid(Operate(Tables([], []), operations))
  {
    if operations != [] {
      var init := operations[..|operations| - 1];
      EveryHistoryIsValid(init);
      var before := Operate(Tables([], []), init);
      hide Valid, StartEpoch, RecordNav;
      match operations[|operations| - 1]
      case Anchor(e) => StartEpochKeepsValid(before, e);
      case Record(n) => RecordNavKeepsValid(before, n);
    }
  }

  class AttributedPerformanceStore {
    var navs: seq<Nav>
    var epochs: seq<Epoch>

    function Contents(): Tables
      reads this
    {
      Tables(navs, epochs)
    }

    constructor ()
      ensures navs == [] && epochs == [] && Valid(Contents())
    {
      navs, epochs := [], [];
    }

    method StartFundedEpoch(e: Epoch) returns (o: Outcome)
      requires Valid(Contents())
      modifies this
      ensures (Contents(), o) == StartEpoch(old(Contents()), e)
      ensures Valid(Contents())
    {
      StartEpochKeepsValid(Contents(), e);
      if !EpochWellFormed(e) {
        return Rejected;
      }
      if exists x :: x in epochs && x.sourceId == e.sourceId {
        return if e in epochs then Repeated else Rejected;
      }
      var previousEpoch, previous := LatestEpoch(epochs, e.strategy), LatestNav(navs, e.strategy);
      if previous.Some? {
        if previous.value.closing != 0.0 || e.at < previous.value.endedAt {
          return Rejected;
        }
        if previousEpoch.Some? && previousEpoch.value.at >= previous.value.endedAt {
          return Rejected;
        }
      } else if previousEpoch.Some? {
        return Rejected;
      }
      if exists x :: x in epochs && x.strategy == e.strategy && x.at == e.at {
        return Rejected;
      }
      epochs := epochs + [e];
      return Inserted;
    }

    method RecordPeriod(n: Nav) returns (o: Outcome)
      requires Valid(Contents())
      modifies this
      ensures (Contents(), o) == RecordNav(old(Contents()), n)
      ensures Valid(Contents())
    {
      RecordNavKeepsValid(Contents(), n);
      if !NavWellFormed(n) {
        return Rejected;
      }
      var row := Stamped(n);
      if exists x :: x in navs && x.sourceId == n.sourceId {
        return if row in navs then Repeated else Rejected;
      }
      var prior, epoch := LatestNav(navs, n.strategy), LatestEpoch(epochs, n.strategy);
      if epoch.Some? && (prior.None? || prior.value.endedAt <= epoch.value.at) {
        if n.startedAt != epoch.value.at || n.opening != epoch.value.opening {
          return Rejected;
        }
        if n.availableAt < epoch.value.availableAt {
          return Rejected;
        }
      } else if prior.Some? && (n.startedAt != prior.value.endedAt || n.opening != prior.value.closing) {
        return Rejected;
      }
      if exists x :: x in navs && x.strategy == n.strategy && x.endedAt == n.endedAt {
        return Rejected;
      }
      navs := navs + [row];
      return Inserted;
    }
  }

  // ---------------------------------------------------------------- consequences

  /** A zero closing NAV ends a chain: whatever follows opens at an anchor. */
  lemma ZeroNavEndsTheChain(ns: seq<Nav>, es: seq<Epoch>, i: nat)
    requires Linked(ns, es) && 0 < i < |ns| && ns[i - 1].closing == 0.0
    ensures exists k :: 0 <= k < |es| && Opens(es[k], ns[i])
  {
    assert ns[i].opening > 0.0 && Connected(ns, es, i);
  }

  /** The unique keys of the tables are never what rejects a guarded insert. */
  lemma PeriodKeyNeverClashes(t: Tables, n: Nav)
    requires Valid(t) && NavWellFormed(n)
    requires MayRecord(LatestNav(t.navs, n.strategy), LatestEpoch(t.epochs, n.strategy), n)
    ensures forall x :: x in Of(t.navs, n.strategy) ==> x.endedAt != n.endedAt
  {
    var ns, es := Of(t.navs, n.strategy), AnchorsOf(t.epochs, n.strategy);
    assert Guarded(ns, es);
    LatestNavIsLast(t.navs, n.strategy);
    LatestEpochIsLast(t.epochs, n.strategy);
    PeriodKeepsOrder(ns, es, n);
  }

  lemma AnchorKeyNeverClashes(t: Tables, e: Epoch)
    requires Valid(t)
    requires MayAnchor(LatestNav(t.navs, e.strategy), LatestEpoch(t.epochs, e.strategy), e)
    ensures forall x :: x in AnchorsOf(t.epochs, e.strategy) ==> x.at != e.at
  {
    var ns, es := Of(t.navs, e.strategy), AnchorsOf(t.epochs, e.strategy);
    assert Guarded(ns, es);
    LatestNavIsLast(t.navs, e.strategy);
    LatestEpochIsLast(t.epochs, e.strategy);
    AnchorComesLast(ns, es, e);
  }

  lemma {:induction false} RowIsOfStrategy(navs: seq<Nav>, n: Nav)
    requires n in navs
    ensures n in Of(navs, n.strategy)
  {
    if n in navs[..|navs| - 1] {
      RowIsOfStrategy(navs[..|navs| - 1], n);
    }
  }

  /**
   The books balance: what a row opened with, grown by its stored return, plus the money that came in
   at its end, is what it closed with.
  */
  lemma StoredReturnsReconcile(t: Tables, n: Nav)
    requires Valid(t) && n in t.navs
    ensures n.opening * (1.0 + n.periodReturn) + n.endFlow == n.closing
    ensures n.opening > 0.0 && n.periodReturn >= -1.0 && n.closing >= 0.0
    ensures n.startedAt < n.endedAt <= n.availableAt
  {
    RowIsOfStrategy(t.navs, n);
    var ns := Of(t.navs, n.strategy);
    assert Linked(ns, AnchorsOf(t.epochs, n.strategy));
    var i :| 0 <= i < |ns| && ns[i] == n;
    FactorReconciles(n);
  }

  /** Anchor k of a strategy is the snapshot period i starts from. */
  ghost predicate Snapshot(es: seq<Epoch>, k: nat, n: Nav)
    requires k < |es|
  {
    es[k].at == n.startedAt && es[k].opening == n.opening
  }

  /** A period starts when and with what the one before ended, or after a zero NAV from a snapshot. */
  ghost predicate Reconciled(ns: seq<Nav>, es: seq<Epoch>, i: nat)
    requires 0 < i < |ns|
  {
    || (ns[i].startedAt == ns[i - 1].endedAt && ns[i].opening == ns[i - 1].closing)
    || (ns[i - 1].closing == 0.0 && exists k :: 0 <= k < |es| && Snapshot(es, k, ns[i]))
  }

  /** Anchor k lies between the period before and this one. */
  ghost predicate SetBefore(ns: seq<Nav>, es: seq<Epoch>, i: nat, k: nat)
    requires i < |ns| && k < |es|
  {
    es[k].at <= ns[i].startedAt && (i > 0 ==> ns[i - 1].startedAt < es[k].at)
  }

  /**
   No NAV appears from nowhere: every period reconciles with the one before or with a snapshot after a
   zero NAV, and one with an anchor set before it starts from that anchor, known by then.
  */
  lemma PeriodsReconcile(t: Tables, s: string, i: nat)
    requires Valid(t) && i < |Of(t.navs, s)|
    ensures var ns, es := Of(t.navs, s), AnchorsOf(t.epochs, s);
            && (i > 0 ==> Reconciled(ns, es, i))
            && forall k :: 0 <= k < |es| && SetBefore(ns, es, i, k) ==>
                 Snapshot(es, k, ns[i]) && es[k].availableAt <= ns[i].availableAt
  {
    var ns, es := Of(t.navs, s), AnchorsOf(t.epochs, s);
    assert Linked(ns, es);
    hide Valid;
    if i > 0 {
      ConnectedReconciles(ns, es, i);
    }
    forall k | 0 <= k < |es| && SetBefore(ns, es, i, k)
      ensures Snapshot(es, k, ns[i]) && es[k].availableAt <= ns[i].availableAt
    {
      assert FirstAfter(ns, i, es[k]);
    }
  }

  lemma ConnectedReconciles(ns: seq<Nav>, es: seq<Epoch>, i: nat)
    requires Linked(ns, es) && 0 < i < |ns|
    ensures Reconciled(ns, es, i)
  {
    assert Connected(ns, es, i);
    if k :| 0 <= k < |es| && Opens(es[k], ns[i]) {
      assert Snapshot(es, k, ns[i]);
    }
  }

  /** What a series of operations admits is on record after it, and stays. */
  lemma {:induction false} RecordedStays(operations: seq<Operation>, n: Nav, later: seq<Operation>)
    requires RecordNav(Operate(Tables([], []), operations), n).1.Inserted?
    ensures exists x :: x in Operate(Tables([], []), operations + [Record(n)] + later).navs && SamePeriod(x, n)
  {
    var start, done := Tables([], []), operations + [Record(n)];
    if later == [] {
      assert done[..|done| - 1] == operations && done + later == done;
      assert SamePeriod(Stamped(n), n) && Stamped(n) in Operate(start, done).navs;
    } else {
      var all := done + later;
      assert all[..|all| - 1] == done + later[..|later| - 1];
      RecordedStays(operations, n, later[..|later| - 1]);
    }
  }

  lemma FactorReconciles(n: Nav)
    requires NavWellFormed(n) && n == Stamped(n)
    ensures n.opening * (1.0 + n.periodReturn) + n.endFlow == n.closing && n.periodReturn >= -1.0
  {
  }

  // ---------------------------------------------------------------- when a write is admitted

  /** The same period, whatever return it carries. */
  predicate SamePeriod(m: Nav, n: Nav) {
    m.(periodReturn := n.periodReturn) == n
  }

  /** A named period of positive length and opening, no NAV below zero before or after its flow, known once it ended. */
  ghost predicate IsPeriod(n: Nav) {
    && n.strategy != "" && n.sourceId != "" && IsSha256(n.sourceHash)
    && n.startedAt < n.endedAt && n.endedAt <= n.availableAt
    && n.opening > 0.0 && n.closing >= 0.0 && n.endFlow <= n.closing
  }

  /** A named anchor with a positive opening, known once it is set. */
  ghost predicate IsAnchor(e: Epoch) {
    e.strategy != "" && e.sourceId != "" && IsSha256(e.sourceHash) && e.at <= e.availableAt && 0.0 < e.opening
  }

  /** A period after everything its strategy has on record. */
  ghost predicate After(ns: seq<Nav>, es: seq<Epoch>, n: Nav) {
    && (forall i :: 0 <= i < |ns| ==> ns[i].endedAt <= n.startedAt)
    && (forall k :: 0 <= k < |es| ==> es[k].at <= n.startedAt)
  }

  lemma GuardIsExact(ns: seq<Nav>, es: seq<Epoch>, n: Nav)
    requires Guarded(ns, es) && NavWellFormed(n)
    ensures MayRecord(Last(ns), Last(es), n) <==> After(ns, es, n) && Guarded(ns + [Stamped(n)], es)
  {
    if MayRecord(Last(ns), Last(es), n) {
      PeriodKeepsOrder(ns, es, n);
      RecordedKeepsGuarded(ns, es, n);
    } else if After(ns, es, n) && Guarded(ns + [Stamped(n)], es) {
      GuardIsNeeded(ns, es, Stamped(n));
    }
  }

  lemma GuardIsNeeded(ns: seq<Nav>, es: seq<Epoch>, n: Nav)
    requires Guarded(ns, es) && NavWellFormed(n) && After(ns, es, n) && Guarded(ns + [n], es)
    ensures MayRecord(Last(ns), Last(es), n)
  {
    var all := ns + [n];
    if es != [] && (ns == [] || ns[|ns| - 1].endedAt <= es[|es| - 1].at) {
      assert FirstAfter(all, |ns|, es[|es| - 1]);
    } else if ns != [] {
      assert Connected(all, es, |ns|);
    }
  }

  /**
   A period is inserted exactly when it is well formed, of a new source, after everything on record,
   and leaves a chain the invariant admits; it is a retry exactly when it is on record.
  */
  lemma PeriodsAdmittedExactly(t: Tables, n: Nav)
    requires Valid(t)
    ensures var ns, es := Of(t.navs, n.strategy), AnchorsOf(t.epochs, n.strategy);
            RecordNav(t, n).1 == Inserted <==>
              && IsPeriod(n) && (forall x :: x in t.navs ==> x.sourceId != n.sourceId)
              && After(ns, es, n) && Guarded(ns + [Stamped(n)], es)
    ensures RecordNav(t, n).1 == Repeated <==> IsPeriod(n) && exists x :: x in t.navs && SamePeriod(x, n)
    ensures if RecordNav(t, n).1 == Inserted
            then
              && RecordNav(t, n).0.epochs == t.epochs
              && exists x :: SamePeriod(x, n) && RecordNav(t, n).0.navs == t.navs + [x]
            else RecordNav(t, n).0 == t
  {
    var ns, es := Of(t.navs, n.strategy), AnchorsOf(t.epochs, n.strategy);
    assert Guarded(ns, es) && (IsPeriod(n) <==> NavWellFormed(n));
    LatestRows(t, n.strategy);
    if NavWellFormed(n) {
      GuardIsExact(ns, es, n);
      StampedIsOnRecord(t, n);
      assert SamePeriod(Stamped(n), n);
      if MayRecord(Last(ns), Last(es), n) {
        PeriodKeyIsNew(t, n);
      }
    }
    hide Valid, Guarded, MayRecord, After, NavWellFormed, IsPeriod, Of, AnchorsOf;
  }

  lemma PeriodKeyIsNew(t: Tables, n: Nav)
    requires Valid(t) && NavWellFormed(n)
    requires MayRecord(LatestNav(t.navs, n.strategy), LatestEpoch(t.epochs, n.strategy), n)
    ensures forall x :: x in t.navs && x.strategy == n.strategy ==> x.endedAt != n.endedAt
  {
    PeriodKeyNeverClashes(t, n);
    forall x | x in t.navs && x.strategy == n.strategy ensures x.endedAt != n.endedAt {
      RowIsOfStrategy(t.navs, x);
    }
  }

  lemma StampedIsOnRecord(t: Tables, n: Nav)
    requires Valid(t) && NavWellFormed(n)
    ensures Stamped(n) in t.navs <==> exists x :: x in t.navs && SamePeriod(x, n)
  {
    assert SamePeriod(Stamped(n), n);
    forall x | x in t.navs && SamePeriod(x, n) ensures x == Stamped(n) {
      RowIsOfStrategy(t.navs, x);
      assert Linked(Of(t.navs, x.strategy), AnchorsOf(t.epochs, x.strategy));
    }
  }

  lemma {:induction false} AnchorIsOfStrategy(epochs: seq<Epoch>, e: Epoch)
    requires e in epochs
    ensures e in AnchorsOf(epochs, e.strategy)
  {
    if e in epochs[..|epochs| - 1] {
      AnchorIsOfStrategy(epochs[..|epochs| - 1], e);
    }
  }

  lemma AnchorGuardIsExact(ns: seq<Nav>, es: seq<Epoch>, e: Epoch)
    requires Guarded(ns, es)
    ensures MayAnchor(Last(ns), Last(es), e) <==>
            (forall i :: 0 <= i < |ns| ==> ns[i].endedAt <= e.at) && Guarded(ns, es + [e])
  {
    if MayAnchor(Last(ns), Last(es), e) {
      AnchorComesLast(ns, es, e);
      AnchorKeepsGuarded(ns, es, e);
    } else if (forall i :: 0 <= i < |ns| ==> ns[i].endedAt <= e.at) && Guarded(ns, es + [e]) {
      AnchorGuardIsNeeded(ns, es, e);
    }
  }

  lemma AnchorGuardIsNeeded(ns: seq<Nav>, es: seq<Epoch>, e: Epoch)
    requires Guarded(ns, es) && Guarded(ns, es + [e]) && forall i :: 0 <= i < |ns| ==> ns[i].endedAt <= e.at
    ensures MayAnchor(Last(ns), Last(es), e)
  {
    var all := es + [e];
    if es != [] {
      assert all[|es| - 1] == es[|es| - 1];
      LaterAnchorsAreUsedByTheLast(ns, all, |es| - 1);
    }
  }

  /**
   An anchor is inserted exactly when it is well formed, of a new source, after every period on record,
   and leaves a chain the invariant admits; it is a retry exactly when it is on record.
  */
  lemma AnchorsAdmittedExactly(t: Tables, e: Epoch)
    requires Valid(t)
    ensures var ns, es := Of(t.navs, e.strategy), AnchorsOf(t.epochs, e.strategy);
            StartEpoch(t, e).1 == Inserted <==>
              && IsAnchor(e) && (forall x :: x in t.epochs ==> x.sourceId != e.sourceId)
              && (forall i :: 0 <= i < |ns| ==> ns[i].endedAt <= e.at) && Guarded(ns, es + [e])
    ensures StartEpoch(t, e).1 == Repeated <==> IsAnchor(e) && e in t.epochs
    ensures StartEpoch(t, e).0 == if StartEpoch(t, e).1 == Inserted then Tables(t.navs, t.epochs + [e]) else t
  {
    var ns, es := Of(t.navs, e.strategy), AnchorsOf(t.epochs, e.strategy);
    assert Guarded(ns, es) && (IsAnchor(e) <==> EpochWellFormed(e));
    LatestRows(t, e.strategy);
    AnchorGuardIsExact(ns, es, e);
    if MayAnchor(Last(ns), Last(es), e) {
      AnchorKeyNeverClashes(t, e);
      forall x | x in t.epochs && x.strategy == e.strategy ensures x.at != e.at {
        AnchorIsOfStrategy(t.epochs, x);
      }
    }
    hide Valid, Guarded, MayAnchor, EpochWellFormed, IsAnchor, Of, AnchorsOf;
  }
}
