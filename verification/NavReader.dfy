/**
 The reader of the NAV store at a cutoff: it takes the rows visible then, cuts
 them at the visible anchors and refuses a chain that is not contiguous.

 The main theorem says exactly when it accepts: every visible period follows a
 visible anchor, or a visible period it continues, or nothing visible at all.
*/
module NavReader {
  import opened Basics
  import opened NavStore

  datatype Chain = Chain(periods: seq<Nav>, anchor: Option<Epoch>)

  predicate Visible(n: Nav, cutoff: Time) {
    n.endedAt <= cutoff && n.availableAt <= cutoff
  }

  predicate VisibleAnchor(e: Epoch, cutoff: Time) {
    e.at <= cutoff && e.availableAt <= cutoff
  }

  /** The visible rows of one strategy. Stores keep them in order of their end. */
  function Seen(ns: seq<Nav>, cutoff: Time): seq<Nav> {
    if ns == [] then []
    else
      var last := ns[|ns| - 1];
      Seen(ns[..|ns| - 1], cutoff) + (if Visible(last, cutoff) then [last] else [])
  }

  function SeenAnchors(es: seq<Epoch>, cutoff: Time): seq<Epoch> {
    if es == [] then []
    else
      var last := es[|es| - 1];
      SeenAnchors(es[..|es| - 1], cutoff) + (if VisibleAnchor(last, cutoff) then [last] else [])
  }

  /** A query sees exactly the rows over and known by its cutoff, the cutoff itself included. */
  lemma {:induction false} SeenExactly(ns: seq<Nav>, cutoff: Time, n: Nav)
    ensures n in Seen(ns, cutoff) <==> n in ns && n.endedAt <= cutoff && n.availableAt <= cutoff
  {
    if ns != [] {
      var init, last := ns[..|ns| - 1], ns[|ns| - 1];
      SeenExactly(init, cutoff, n);
      assert ns == init + [last];
    }
  }

  lemma {:induction false} SeenAnchorsExactly(es: seq<Epoch>, cutoff: Time, e: Epoch)
    ensures e in SeenAnchors(es, cutoff) <==> e in es && e.at <= cutoff && e.availableAt <= cutoff
  {
    if es != [] {
      var init, last := es[..|es| - 1], es[|es| - 1];
      SeenAnchorsExactly(init, cutoff, e);
      assert es == init + [last];
    }
  }

  // ---------------------------------------------------------------- partition and check

  /** Chain 0 lies before every anchor, chain k from anchor k - 1 to the next. */
  predicate InSegment(starts: seq<Epoch>, k: nat, n: Nav)
    requires k <= |starts|
  {
    && (k == 0 || starts[k - 1].at <= n.startedAt)
    && (k == |starts| || n.startedAt < starts[k].at)
  }

  function Segment(h: seq<Nav>, starts: seq<Epoch>, k: nat): seq<Nav>
    requires k <= |starts|
  {
    if h == [] then []
    else
      var last := h[|h| - 1];
      Segment(h[..|h| - 1], starts, k) + (if InSegment(starts, k, last) then [last] else [])
  }

  predicate CrossesNext(starts: seq<Epoch>, k: nat, n: Nav)
    requires k <= |starts|
  {
    0 < k < |starts| && n.endedAt > starts[k].at
  }

  predicate Contiguous(c: seq<Nav>) {
    forall i :: 0 < i < |c| ==> Joins(c, i)
  }

  predicate Joins(c: seq<Nav>, i: nat)
    requires 0 < i < |c|
  {
    Continues(c[i - 1], c[i])
  }

  function AnchorOf(starts: seq<Epoch>, k: nat): Option<Epoch>
    requires k <= |starts|
  {
    if k == 0 then None else Some(starts[k - 1])
  }

  predicate SegmentAccepted(h: seq<Nav>, starts: seq<Epoch>, k: nat)
    requires k <= |starts|
  {
    ChainAccepted(Segment(h, starts, k), starts, k)
  }

  predicate ChainAccepted(c: seq<Nav>, starts: seq<Epoch>, k: nat)
    requires k <= |starts|
  {
    && (forall i :: 0 <= i < |c| ==> !CrossesNext(starts, k, c[i]))
    && (k > 0 && c != [] ==> Opens(starts[k - 1], c[0]))
    && Contiguous(c)
  }

  predicate Accepted(h: seq<Nav>, starts: seq<Epoch>) {
    forall k :: 0 <= k <= |starts| ==> SegmentAccepted(h, starts, k)
  }

  /** A chain that starts from its anchor, continues without a gap, and is over before the next anchor. */
  ghost predicate Unbroken(c: seq<Nav>, starts: seq<Epoch>, k: nat)
    requires k <= |starts|
  {
    && (0 < k && c != [] ==> c[0].startedAt == starts[k - 1].at && c[0].opening == starts[k - 1].opening)
    && (forall i :: 0 < i < |c| ==> FollowsOn(c, i))
    && (0 < k < |starts| ==> forall n :: n in c ==> n.endedAt <= starts[k].at)
  }

  ghost predicate FollowsOn(c: seq<Nav>, i: nat)
    requires 0 < i < |c|
  {
    c[i].startedAt == c[i - 1].endedAt && c[i].opening == c[i - 1].closing
  }

  /** The reader accepts exactly unbroken chains; what lies before the first anchor may cross it. */
  lemma AcceptedExactly(h: seq<Nav>, starts: seq<Epoch>)
    ensures Accepted(h, starts) <==>
              forall k :: 0 <= k <= |starts| ==> SegmentUnbroken(h, starts, k)
  {
    forall k | 0 <= k <= |starts| ensures SegmentAccepted(h, starts, k) <==> SegmentUnbroken(h, starts, k) {
      UnbrokenExactly(Segment(h, starts, k), starts, k);
    }
  }

  ghost predicate SegmentUnbroken(h: seq<Nav>, starts: seq<Epoch>, k: nat)
    requires k <= |starts|
  {
    Unbroken(Segment(h, starts, k), starts, k)
  }

  lemma UnbrokenExactly(c: seq<Nav>, starts: seq<Epoch>, k: nat)
    requires k <= |starts|
    ensures ChainAccepted(c, starts, k) <==> Unbroken(c, starts, k)
  {
    assert Contiguous(c) <==> forall i :: 0 < i < |c| ==> FollowsOn(c, i) by {
      forall i | 0 < i < |c| ensures Joins(c, i) <==> FollowsOn(c, i) {
      }
    }
    hide FollowsOn, Joins;
    assert (forall i :: 0 <= i < |c| ==> !CrossesNext(starts, k, c[i])) <==>
           (0 < k < |starts| ==> forall n :: n in c ==> n.endedAt <= starts[k].at) by {
      assert forall i :: 0 <= i < |c| ==> c[i] in c;
    }
  }

  function Chains(h: seq<Nav>, starts: seq<Epoch>, n: nat): seq<Chain>
    requires n <= |starts| + 1
  {
    if n == 0 then []
    else
      var c := Segment(h, starts, n - 1);
      Chains(h, starts, n - 1) + (if n == 1 && c == [] then [] else [Chain(c, AnchorOf(starts, n - 1))])
  }

  method CheckChain(c: seq<Nav>, anchor: Option<Epoch>) returns (ok: bool)
    ensures ok <==> (anchor.Some? && c != [] ==> Opens(anchor.value, c[0])) && Contiguous(c)
  {
    if anchor.Some? && c != [] && (c[0].startedAt != anchor.value.at || c[0].opening != anchor.value.opening) {
      return false;
    }
    var i := 1;
    while i < |c|
      invariant forall j :: 0 < j < i && j < |c| ==> Joins(c, j)
    {
      if c[i].startedAt != c[i - 1].endedAt || c[i].opening != c[i - 1].closing {
        assert !Joins(c, i);
        return false;
      }
      i := i + 1;
    }
    return true;
  }

  method Take(h: seq<Nav>, starts: seq<Epoch>, k: nat) returns (c: seq<Nav>)
    requires k <= |starts|
    ensures c == Segment(h, starts, k)
  {
    c := [];
    for i := 0 to |h|
      invariant c == Segment(h[..i], starts, k)
    {
      assert h[..i + 1][..i] == h[..i];
      if (k == 0 || starts[k - 1].at <= h[i].startedAt) && (k == |starts| || h[i].startedAt < starts[k].at) {
        c := c + [h[i]];
      }
    }
    assert h[..|h|] == h;
  }

  /** The partition with its three consistency errors. */
  method Partition(h: seq<Nav>, starts: seq<Epoch>) returns (r: Option<seq<Chain>>)
    ensures r.Some? <==> Accepted(h, starts)
    ensures r.Some? ==> r.value == Chains(h, starts, |starts| + 1)
  {
    var chains := [];
    for k := 0 to |starts| + 1
      invariant chains == Chains(h, starts, k)
      invariant forall j, i :: 0 <= j < k && 0 <= i < |Segment(h, starts, j)| ==>
                  !CrossesNext(starts, j, Segment(h, starts, j)[i])
    {
      var c := Take(h, starts, k);
      if exists n :: n in c && CrossesNext(starts, k, n) {
        var n :| n in c && CrossesNext(starts, k, n);
        var i :| 0 <= i < |c| && c[i] == n;
        assert !SegmentAccepted(h, starts, k);
        return None;
      }
      if k > 0 || c != [] {
        chains := chains + [Chain(c, AnchorOf(starts, k))];
      }
    }
    for k := 0 to |starts| + 1
      invariant forall j :: 0 <= j < k ==> SegmentAccepted(h, starts, j)
    {
      var c := Take(h, starts, k);
      var ok := CheckChain(c, AnchorOf(starts, k));
      if !ok {
        assert !SegmentAccepted(h, starts, k);
        return None;
      }
    }
    return Some(chains);
  }

  // ---------------------------------------------------------------- one period at a time

  /** How many anchors a period starts at or after. */
  function SegmentIndex(starts: seq<Epoch>, n: Nav): (k: nat)
    ensures k <= |starts|
  {
    if starts == [] then 0
    else if starts[|starts| - 1].at <= n.startedAt then |starts|
    else SegmentIndex(starts[..|starts| - 1], n)
  }

  ghost predicate Ascending(starts: seq<Epoch>) {
    forall k, l :: 0 <= k < l < |starts| ==> starts[k].at < starts[l].at
  }

  lemma {:induction false} SegmentIndexIsTheSegment(starts: seq<Epoch>, n: Nav, k: nat)
    requires Ascending(starts) && k <= |starts|
    ensures InSegment(starts, k, n) <==> k == SegmentIndex(starts, n)
  {
    if starts != [] {
      var init := starts[..|starts| - 1];
      if starts[|starts| - 1].at <= n.startedAt {
        assert k < |starts| ==> starts[k].at <= starts[|starts| - 1].at;
      } else if k < |starts| {
        SegmentIndexIsTheSegment(init, n, k);
      }
    }
  }

  predicate Follows(before: Option<Nav>, starts: seq<Epoch>, n: Nav) {
    var k := SegmentIndex(starts, n);
    && !CrossesNext(starts, k, n)
    && if k > 0 && (before.None? || before.value.startedAt < starts[k - 1].at) then Opens(starts[k - 1], n)
       else before.Some? ==> Continues(before.value, n)
  }

  ghost predicate InOrder(h: seq<Nav>) {
    forall i, j :: 0 <= i < j < |h| ==> h[i].startedAt < h[j].startedAt
  }

  lemma {:induction false} EmptySegment(h: seq<Nav>, starts: seq<Epoch>, k: nat)
    requires k <= |starts| && forall x :: x in h ==> !InSegment(starts, k, x)
    ensures Segment(h, starts, k) == []
  {
    if h != [] {
      EmptySegment(h[..|h| - 1], starts, k);
    }
  }

  lemma InOrderInit(h: seq<Nav>, n: Nav)
    requires InOrder(h + [n])
    ensures InOrder(h) && forall x :: x in h ==> x.startedAt <= h[|h| - 1].startedAt < n.startedAt
  {
    var all := h + [n];
    assert forall i :: 0 <= i < |h| ==> all[i] == h[i];
    assert all[|h|] == n;
  }

  /** The segment a new last period falls in: it holds the last period, or nothing yet. */
  lemma OwnSegment(h: seq<Nav>, starts: seq<Epoch>, n: Nav)
    requires Ascending(starts) && InOrder(h + [n])
    ensures var k := SegmentIndex(starts, n);
            var c := Segment(h, starts, k);
            if h == [] || (k > 0 && h[|h| - 1].startedAt < starts[k - 1].at) then c == []
            else c != [] && Last(c) == Last(h)
  {
    var k := SegmentIndex(starts, n);
    SegmentIndexIsTheSegment(starts, n, k);
    hide SegmentIndex, Ascending;
    if h != [] {
      InOrderInit(h, n);
      hide InOrder;
      var last := h[|h| - 1];
      if k > 0 && last.startedAt < starts[k - 1].at {
        EmptySegment(h, starts, k);
      } else {
        assert last in h && InSegment(starts, k, last);
      }
    }
  }

  lemma OtherSegmentsStay(h: seq<Nav>, starts: seq<Epoch>, n: Nav, k: nat)
    requires Ascending(starts) && k <= |starts|
    ensures Segment(h + [n], starts, k) == Segment(h, starts, k) + (if k == SegmentIndex(starts, n) then [n] else [])
  {
    SegmentIndexIsTheSegment(starts, n, k);
    assert (h + [n])[..|h|] == h;
  }

  lemma ContiguousAppend(c: seq<Nav>, n: Nav)
    ensures Contiguous(c + [n]) <==> Contiguous(c) && (c != [] ==> Continues(c[|c| - 1], n))
  {
    var c' := c + [n];
    assert forall i :: 0 <= i < |c| ==> c'[i] == c[i];
    if Contiguous(c') {
      forall i | 0 < i < |c| ensures Joins(c, i) {
        assert Joins(c', i);
      }
      assert c != [] ==> Joins(c', |c|);
    }
    if Contiguous(c) && (c != [] ==> Continues(c[|c| - 1], n)) {
      forall i | 0 < i < |c'| ensures Joins(c', i) {
        assert i < |c| ==> Joins(c, i);
      }
    }
  }

  lemma ChainAcceptedAppend(c: seq<Nav>, starts: seq<Epoch>, k: nat, n: Nav)
    requires k <= |starts|
    ensures ChainAccepted(c + [n], starts, k) <==>
              && ChainAccepted(c, starts, k)
              && !CrossesNext(starts, k, n)
              && if c == [] then k > 0 ==> Opens(starts[k - 1], n) else Continues(c[|c| - 1], n)
  {
    hide Opens, Continues, Contiguous, CrossesNext;
    var c' := c + [n];
    ContiguousAppend(c, n);
    assert forall i :: 0 <= i < |c| ==> c'[i] == c[i];
    assert c'[|c|] == n;
  }

  lemma OwnSegmentAccepted(h: seq<Nav>, starts: seq<Epoch>, n: Nav)
    requires Ascending(starts) && InOrder(h + [n])
    ensures var k := SegmentIndex(starts, n);
            SegmentAccepted(h + [n], starts, k) <==> SegmentAccepted(h, starts, k) && Follows(Last(h), starts, n)
  {
    hide ChainAccepted, Opens, Continues, CrossesNext, Segment, SegmentIndex, InOrder, Ascending;
    var k := SegmentIndex(starts, n);
    var c := Segment(h, starts, k);
    OtherSegmentsStay(h, starts, n, k);
    OwnSegment(h, starts, n);
    ChainAcceptedAppend(c, starts, k, n);
  }

  /** Adding a period to the visible history adds one local check. */
  lemma AcceptedAppend(h: seq<Nav>, starts: seq<Epoch>, n: Nav)
    requires Ascending(starts) && InOrder(h + [n])
    ensures Accepted(h + [n], starts) <==> Accepted(h, starts) && Follows(Last(h), starts, n)
  {
    var own := SegmentIndex(starts, n);
    OwnSegmentAccepted(h, starts, n);
    forall k | 0 <= k <= |starts| && k != own
      ensures SegmentAccepted(h + [n], starts, k) <==> SegmentAccepted(h, starts, k)
    {
      OtherSegmentsStay(h, starts, n, k);
      assert Segment(h + [n], starts, k) == Segment(h, starts, k);
    }
  }

  // ---------------------------------------------------------------- when the reader accepts

  ghost predicate AnchorBegins(ns: seq<Nav>, starts: seq<Epoch>, i: nat)
    requires i < |ns|
  {
    exists k :: 0 <= k < |starts| && FirstAfter(ns, i, starts[k])
  }

  ghost predicate NothingBefore(ns: seq<Nav>, starts: seq<Epoch>, cutoff: Time, i: nat)
    requires i < |ns|
  {
    && (forall k :: 0 <= k < |starts| ==> ns[i].startedAt < starts[k].at)
    && (forall j :: 0 <= j < i ==> !Visible(ns[j], cutoff))
  }

  /**
   A visible period is readable when a visible anchor begins it, the period before
   it is visible and still funded, or nothing visible precedes it.
  */
  ghost predicate Readable(ns: seq<Nav>, starts: seq<Epoch>, cutoff: Time, i: nat)
    requires i < |ns|
  {
    || i == 0
    || AnchorBegins(ns, starts, i)
    || (Visible(ns[i - 1], cutoff) && ns[i - 1].closing != 0.0)
    || NothingBefore(ns, starts, cutoff, i)
  }

  lemma {:induction false} SeenAnchorsAreAnchors(es: seq<Epoch>, cutoff: Time)
    requires Ascending(es)
    ensures Ascending(SeenAnchors(es, cutoff))
    ensures forall e :: e in SeenAnchors(es, cutoff) <==> e in es && VisibleAnchor(e, cutoff)
  {
    if es != [] {
      var init, last := es[..|es| - 1], es[|es| - 1];
      SeenAnchorsAreAnchors(init, cutoff);
      assert es == init + [last];
      var s := SeenAnchors(init, cutoff);
      forall k | 0 <= k < |s| ensures s[k].at < last.at {
        assert s[k] in init;
      }
    }
  }

  lemma {:induction false} SeenMembers(ns: seq<Nav>, cutoff: Time)
    ensures forall n :: n in Seen(ns, cutoff) <==> n in ns && Visible(n, cutoff)
  {
    if ns != [] {
      SeenMembers(ns[..|ns| - 1], cutoff);
      assert ns == ns[..|ns| - 1] + [ns[|ns| - 1]];
    }
  }

  ghost predicate LastVisible(ns: seq<Nav>, cutoff: Time, j: nat) {
    j < |ns| && Visible(ns[j], cutoff) && forall l :: j < l < |ns| ==> !Visible(ns[l], cutoff)
  }

  /** The last visible row is the last one whose index is visible. */
  lemma {:induction false} SeenLast(ns: seq<Nav>, cutoff: Time) returns (j: nat)
    ensures Seen(ns, cutoff) != [] ==> LastVisible(ns, cutoff, j) && Last(Seen(ns, cutoff)) == Some(ns[j])
    ensures Seen(ns, cutoff) == [] ==> forall j :: 0 <= j < |ns| ==> !Visible(ns[j], cutoff)
  {
    j := 0;
    if ns != [] {
      var init := ns[..|ns| - 1];
      j := SeenLast(init, cutoff);
      assert forall l :: 0 <= l < |init| ==> ns[l] == init[l];
      if Visible(ns[|init|], cutoff) {
        j := |init|;
      }
    }
  }

  lemma {:induction false} SeenInOrder(ns: seq<Nav>, cutoff: Time)
    requires InOrder(ns)
    ensures InOrder(Seen(ns, cutoff))
  {
    if ns != [] {
      var init, last := ns[..|ns| - 1], ns[|ns| - 1];
      SeenInOrder(init, cutoff);
      SeenMembers(init, cutoff);
      var s := Seen(init, cutoff);
      forall i | 0 <= i < |s| ensures s[i].startedAt < last.startedAt {
        assert s[i] in init;
      }
    }
  }

  /** The anchor a period is measured from: the last visible one at or before its start. */
  lemma {:induction false} LatestStart(starts: seq<Epoch>, n: Nav)
    requires Ascending(starts)
    ensures forall k :: 0 <= k < SegmentIndex(starts, n) ==> starts[k].at <= n.startedAt
    ensures forall k :: SegmentIndex(starts, n) <= k < |starts| ==> n.startedAt < starts[k].at
  {
    if starts != [] && n.startedAt < starts[|starts| - 1].at {
      LatestStart(starts[..|starts| - 1], n);
    }
  }

  lemma NeverCrosses(ns: seq<Nav>, es: seq<Epoch>, starts: seq<Epoch>, i: nat)
    requires Linked(ns, es) && Ascending(starts) && i < |ns| && forall e :: e in starts ==> e in es
    ensures !CrossesNext(starts, SegmentIndex(starts, ns[i]), ns[i])
  {
    var k := SegmentIndex(starts, ns[i]);
    LatestStart(starts, ns[i]);
    if 0 < k < |starts| {
      assert starts[k] in es;
    }
  }

  lemma AnchoredIsReadable(ns: seq<Nav>, es: seq<Epoch>, starts: seq<Epoch>, cutoff: Time, i: nat, k: nat)
    requires Linked(ns, es) && Ascending(starts) && i < |ns| && forall e :: e in starts ==> e in es
    requires k == SegmentIndex(starts, ns[i]) && 0 < k
    requires forall j :: 0 <= j < i && Visible(ns[j], cutoff) ==> ns[j].startedAt < starts[k - 1].at
    ensures Opens(starts[k - 1], ns[i]) <==> Readable(ns, starts, cutoff, i)
  {
    LatestStart(starts, ns[i]);
    OpensIffFirst(ns, es, starts[k - 1], i);
    hide Linked, SegmentIndex, Opens;
    if AnchorBegins(ns, starts, i) {
      var l :| 0 <= l < |starts| && FirstAfter(ns, i, starts[l]);
      assert starts[l].at <= starts[k - 1].at;
    }
  }

  /** An anchor opens a period exactly when the period is the first at or after it. */
  lemma OpensIffFirst(ns: seq<Nav>, es: seq<Epoch>, a: Epoch, i: nat)
    requires Linked(ns, es) && i < |ns| && a in es && a.at <= ns[i].startedAt
    ensures Opens(a, ns[i]) <==> FirstAfter(ns, i, a)
  {
    var k :| 0 <= k < |es| && es[k] == a;
    assert FirstAfter(ns, i, es[k]) ==> Funds(es[k], ns[i]);
    assert i > 0 ==> ns[i - 1].endedAt <= ns[i].startedAt;
  }

  lemma FollowingIsReadable(ns: seq<Nav>, es: seq<Epoch>, starts: seq<Epoch>, cutoff: Time, i: nat, j: nat)
    requires Linked(ns, es) && Ascending(starts) && j < i < |ns| && LastVisible(ns[..i], cutoff, j)
    requires var k := SegmentIndex(starts, ns[i]); k > 0 ==> starts[k - 1].at <= ns[j].startedAt
    ensures Continues(ns[j], ns[i]) <==> Readable(ns, starts, cutoff, i)
  {
    LatestStart(starts, ns[i]);
    assert ns[i - 1].endedAt <= ns[i].startedAt;
    assert j < i - 1 ==> ns[j].endedAt <= ns[i - 1].startedAt && !Visible(ns[i - 1], cutoff) by {
      assert ns[..i][i - 1] == ns[i - 1];
    }
    assert ns[..i][j] == ns[j];
    assert !AnchorBegins(ns, starts, i);
    assert !NothingBefore(ns, starts, cutoff, i);
    assert Connected(ns, es, i);
    assert ns[i].opening > 0.0;
  }

  lemma NothingBeforeIsReadable(ns: seq<Nav>, starts: seq<Epoch>, cutoff: Time, i: nat)
    requires i < |ns| && Ascending(starts) && SegmentIndex(starts, ns[i]) == 0
    requires forall j :: 0 <= j < i ==> !Visible(ns[j], cutoff)
    ensures Readable(ns, starts, cutoff, i)
  {
    LatestStart(starts, ns[i]);
    assert NothingBefore(ns, starts, cutoff, i);
  }

  lemma FollowsIsReadable(ns: seq<Nav>, es: seq<Epoch>, starts: seq<Epoch>, cutoff: Time, i: nat)
    requires Linked(ns, es) && Ascending(starts) && i < |ns| && forall e :: e in starts ==> e in es
    ensures Follows(Last(Seen(ns[..i], cutoff)), starts, ns[i]) <==> Readable(ns, starts, cutoff, i)
  {
    hide Readable, Opens, Continues, CrossesNext, SegmentIndex, Visible;
    var k := SegmentIndex(starts, ns[i]);
    NeverCrosses(ns, es, starts, i);
    var j := SeenLast(ns[..i], cutoff);
    if Seen(ns[..i], cutoff) == [] {
      assert forall l :: 0 <= l < i ==> ns[..i][l] == ns[l];
      if k > 0 {
        AnchoredIsReadable(ns, es, starts, cutoff, i, k);
      } else {
        NothingBeforeIsReadable(ns, starts, cutoff, i);
      }
    } else if k > 0 && ns[j].startedAt < starts[k - 1].at {
      assert forall l :: 0 <= l < i ==> ns[..i][l] == ns[l];
      assert forall l :: 0 <= l < j ==> ns[l].endedAt <= ns[j].startedAt;
      AnchoredIsReadable(ns, es, starts, cutoff, i, k);
    } else {
      FollowingIsReadable(ns, es, starts, cutoff, i, j);
    }
  }

  ghost predicate AllReadable(ns: seq<Nav>, starts: seq<Epoch>, cutoff: Time, m: nat)
    requires m <= |ns|
  {
    forall i :: 0 <= i < m && Visible(ns[i], cutoff) ==> Readable(ns, starts, cutoff, i)
  }

  lemma PrefixInOrder(ns: seq<Nav>, es: seq<Epoch>, cutoff: Time, m: nat)
    requires Linked(ns, es) && m <= |ns|
    ensures InOrder(Seen(ns[..m], cutoff))
  {
    hide Seen, Continues, Restarted, FirstAfter;
    assert InOrder(ns[..m]);
    SeenInOrder(ns[..m], cutoff);
  }

  lemma {:induction false} AcceptsPrefix(ns: seq<Nav>, es: seq<Epoch>, starts: seq<Epoch>, cutoff: Time, m: nat)
    requires Linked(ns, es) && Ascending(starts) && m <= |ns| && forall e :: e in starts ==> e in es
    ensures Accepted(Seen(ns[..m], cutoff), starts) <==> AllReadable(ns, starts, cutoff, m)
  {
    hide Linked, Accepted, Readable, Follows;
    if m > 0 {
      AcceptsPrefix(ns, es, starts, cutoff, m - 1);
      assert ns[..m][..m - 1] == ns[..m - 1];
      if Visible(ns[m - 1], cutoff) {
        var before := Seen(ns[..m - 1], cutoff);
        assert Seen(ns[..m], cutoff) == before + [ns[m - 1]];
        PrefixInOrder(ns, es, cutoff, m);
        AcceptedAppend(before, starts, ns[m - 1]);
        FollowsIsReadable(ns, es, starts, cutoff, m - 1);
      } else {
        assert Seen(ns[..m], cutoff) == Seen(ns[..m - 1], cutoff);
      }
    } else {
      AcceptsNothing(starts);
    }
  }

  lemma AcceptsNothing(starts: seq<Epoch>)
    ensures Accepted([], starts)
  {
  }

  /** The reader accepts a strategy at a cutoff exactly when every visible period is readable. */
  lemma ReaderAcceptsExactly(ns: seq<Nav>, es: seq<Epoch>, cutoff: Time)
    requires Linked(ns, es)
    ensures Accepted(Seen(ns, cutoff), SeenAnchors(es, cutoff)) <==>
            AllReadable(ns, SeenAnchors(es, cutoff), cutoff, |ns|)
  {
    SeenAnchorsAreAnchors(es, cutoff);
    AcceptsPrefix(ns, es, SeenAnchors(es, cutoff), cutoff, |ns|);
    assert ns[..|ns|] == ns;
  }

  /** Enough for every cutoff: periods become available in the order they were recorded. */
  ghost predicate AvailableInOrder(ns: seq<Nav>) {
    forall i :: 0 < i < |ns| ==> ns[i - 1].availableAt <= ns[i].availableAt
  }

  lemma ReadableWhenPredecessorVisible(ns: seq<Nav>, es: seq<Epoch>, cutoff: Time, i: nat)
    requires Linked(ns, es) && i < |ns| && Visible(ns[i], cutoff) && (i > 0 ==> Visible(ns[i - 1], cutoff))
    ensures Readable(ns, SeenAnchors(es, cutoff), cutoff, i)
  {
    var starts := SeenAnchors(es, cutoff);
    if i > 0 && ns[i - 1].closing == 0.0 {
      assert ns[i].opening > 0.0;
      assert Connected(ns, es, i);
      var k :| 0 <= k < |es| && Opens(es[k], ns[i]);
      assert ns[i - 1].endedAt <= ns[i].startedAt;
      assert FirstAfter(ns, i, es[k]);
      SeenAnchorsAreAnchors(es, cutoff);
      assert es[k] in starts;
      var l :| 0 <= l < |starts| && starts[l] == es[k];
      assert FirstAfter(ns, i, starts[l]);
    }
  }

  /** With availability in order no cutoff makes the reader fail. */
  lemma OrderedAvailabilityIsAlwaysReadable(t: Tables, s: string, cutoff: Time)
    requires Valid(t) && AvailableInOrder(Of(t.navs, s))
    ensures Accepted(Seen(Of(t.navs, s), cutoff), SeenAnchors(AnchorsOf(t.epochs, s), cutoff))
  {
    var ns, es := Of(t.navs, s), AnchorsOf(t.epochs, s);
    assert Guarded(ns, es);
    forall i | 0 <= i < |ns| && Visible(ns[i], cutoff) ensures Readable(ns, SeenAnchors(es, cutoff), cutoff, i) {
      assert i > 0 ==> ns[i - 1].endedAt <= ns[i].startedAt && ns[i - 1].availableAt <= ns[i].availableAt;
      ReadableWhenPredecessorVisible(ns, es, cutoff, i);
    }
    ReaderAcceptsExactly(ns, es, cutoff);
  }

  /** A cutoff past every recorded clock is always readable. */
  lemma CompleteHistoryIsReadable(t: Tables, s: string, cutoff: Time)
    requires Valid(t) && forall n :: n in Of(t.navs, s) ==> Visible(n, cutoff)
    ensures Accepted(Seen(Of(t.navs, s), cutoff), SeenAnchors(AnchorsOf(t.epochs, s), cutoff))
  {
    var ns, es := Of(t.navs, s), AnchorsOf(t.epochs, s);
    assert Guarded(ns, es);
    forall i | 0 <= i < |ns| && Visible(ns[i], cutoff) ensures Readable(ns, SeenAnchors(es, cutoff), cutoff, i) {
      assert i > 0 ==> ns[i - 1] in ns;
      ReadableWhenPredecessorVisible(ns, es, cutoff, i);
    }
    ReaderAcceptsExactly(ns, es, cutoff);
  }

  /** An anchor, a period it funds and the period after it. */
  ghost predicate Linear(e: Epoch, first: Nav, second: Nav) {
    && EpochWellFormed(e) && NavWellFormed(first) && NavWellFormed(second)
    && first.strategy == e.strategy && second.strategy == e.strategy && first.sourceId != second.sourceId
    && Funds(e, first) && Continues(first, second)
  }

  lemma WritersAdmit(e: Epoch, first: Nav, second: Nav)
    requires Linear(e, first, second)
    ensures StartEpoch(Tables([], []), e) == (Tables([], [e]), Inserted)
    ensures RecordNav(Tables([], [e]), first) == (Tables([Stamped(first)], [e]), Inserted)
    ensures RecordNav(Tables([Stamped(first)], [e]), second) ==
            (Tables([Stamped(first), Stamped(second)], [e]), Inserted)
  {
    hide IsSha256, Factor;
    var row := Stamped(first);
    assert [] + [e] == [e] && [] + [row] == [row] && [row] + [Stamped(second)] == [row, Stamped(second)];
    assert LatestEpoch([e], e.strategy) == Some(e) by {
      assert [e][..0] == [];
    }
    assert LatestNav([row], e.strategy) == Some(row) by {
      assert [row][..0] == [];
    }
    assert row in [row] && e in [e];
  }

  lemma AdmittedIsValid(e: Epoch, first: Nav, second: Nav)
    requires Linear(e, first, second)
    ensures Valid(Tables([Stamped(first), Stamped(second)], [e]))
  {
    var t0 := Tables([], []);
    assert Valid(t0);
    WritersAdmit(e, first, second);
    hide Valid, StartEpoch, RecordNav, Linear;
    StartEpochKeepsValid(t0, e);
    RecordNavKeepsValid(Tables([], [e]), first);
    RecordNavKeepsValid(Tables([Stamped(first)], [e]), second);
  }

  lemma RowsOfOneStrategy(e: Epoch, a: Nav, b: Nav)
    requires a.strategy == e.strategy && b.strategy == e.strategy
    ensures Of([a, b], e.strategy) == [a, b] && AnchorsOf([e], e.strategy) == [e]
  {
    assert [a][..0] == [] && [e][..0] == [] && [a, b][..1] == [a];
    assert Of([a], e.strategy) == [a];
  }

  lemma HiddenPredecessor(ns: seq<Nav>, starts: seq<Epoch>, cutoff: Time)
    requires |ns| == 2 && !Visible(ns[0], cutoff) && ns[0].startedAt <= ns[1].startedAt
    requires starts != [] && forall k :: 0 <= k < |starts| ==> starts[k].at <= ns[0].startedAt
    ensures !Readable(ns, starts, cutoff, 1)
  {
    assert starts[0].at <= ns[1].startedAt;
  }

  /** The writers admit periods that become available out of order, and then a read between the two clocks fails. */
  lemma LateEvidenceBlocksAnEarlierRead(e: Epoch, late: Nav, prompt: Nav, cutoff: Time)
    requires Linear(e, late, prompt) && VisibleAnchor(e, cutoff) && Visible(prompt, cutoff) && !Visible(late, cutoff)
    ensures var ns, es := [Stamped(late), Stamped(prompt)], [e];
            Valid(Tables(ns, es)) && Of(ns, e.strategy) == ns && AnchorsOf(es, e.strategy) == es
            && !Accepted(Seen(ns, cutoff), SeenAnchors(es, cutoff))
  {
    var ns, es := [Stamped(late), Stamped(prompt)], [e];
    AdmittedIsValid(e, late, prompt);
    RowsOfOneStrategy(e, ns[0], ns[1]);
    assert Guarded(Of(ns, e.strategy), AnchorsOf(es, e.strategy));
    ReaderAcceptsExactly(ns, es, cutoff);
    SeenAnchorsAreAnchors(es, cutoff);
    var starts := SeenAnchors(es, cutoff);
    hide Valid, Linked, Accepted, Seen, SeenAnchors, NavWellFormed, EpochWellFormed, IsSha256, Of, AnchorsOf;
    assert starts != [] by {
      assert es[0] in starts;
    }
    forall k | 0 <= k < |starts| ensures starts[k] == e {
      assert starts[k] in es;
    }
    Earlier(e, late, prompt);
    HiddenPredecessor(ns, starts, cutoff);
    assert Visible(ns[1], cutoff) && !Readable(ns, starts, cutoff, 1);
  }

  lemma Earlier(e: Epoch, first: Nav, second: Nav)
    requires Linear(e, first, second)
    ensures e.at == first.startedAt < second.startedAt
  {
  }
}
