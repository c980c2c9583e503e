/**
 Certified desk memory: the bounded projection of earlier receipts, and the export
 that re-verifies a decision together with everything it remembers.

 Hashing, stored authorities and the length of an encoded entry are arbitrary
 functions. An encoded list is its entries between brackets, separated by commas.
*/
module DeskMemory {
  import opened Basics

  type Hash = nat

  datatype Entry = Entry(decision: Hash, proof: Hash, asOf: Time, availableAt: Time, action: nat, reasoning: string)

  datatype Receipt = Receipt(decision: Hash, instrument: nat, action: nat, reasoning: string, asOf: Time,
                             startedAt: Time, completedAt: Time, availableAt: Time,
                             context: seq<Entry>, references: seq<(Hash, Hash)>)

  datatype Stored = Stored(proof: Hash, receipt: Receipt)

  type Store = map<Hash, Stored>

  /** Content hash, encoded length of an entry, and the checks against the other stores. */
  datatype Authorities = Authorities(hash: Receipt -> Hash, length: Entry -> nat, authentic: Receipt -> bool,
                                     current: Receipt -> bool)

  const LIMIT: nat := 2000

  // ---------------------------------------------------------------- the projection

  function EntryOf(a: Authorities, r: Receipt): Entry {
    Entry(r.decision, a.hash(r), r.asOf, r.availableAt, r.action,
          if |r.reasoning| <= 500 then r.reasoning else r.reasoning[..500])
  }

  function Entries(a: Authorities, rs: seq<Receipt>): seq<Entry> {
    seq(|rs|, i requires 0 <= i < |rs| => EntryOf(a, rs[i]))
  }

  function Lengths(a: Authorities, es: seq<Entry>): nat {
    if es == [] then 0 else a.length(es[0]) + Lengths(a, es[1..])
  }

  /** Length of the encoded list. */
  function Encoded(a: Authorities, es: seq<Entry>): nat {
    2 + Lengths(a, es) + if es == [] then 0 else |es| - 1
  }

  /** The encoded list itself: the entries between brackets, separated by commas. */
  ghost function Bracketed(text: Entry -> string, es: seq<Entry>): string {
    "[" + Joined(text, es) + "]"
  }

  ghost function Joined(text: Entry -> string, es: seq<Entry>): string {
    if es == [] then ""
    else if |es| == 1 then text(es[0])
    else Joined(text, es[..|es| - 1]) + "," + text(es[|es| - 1])
  }

  lemma {:induction false} LengthsAppend(a: Authorities, es: seq<Entry>, e: Entry)
    ensures Lengths(a, es + [e]) == Lengths(a, es) + a.length(e)
  {
    if es == [] {
      assert es + [e] == [e] && [e][1..] == [];
    } else {
      assert (es + [e])[1..] == es[1..] + [e];
      LengthsAppend(a, es[1..], e);
    }
  }

  lemma {:induction false} JoinedLength(a: Authorities, text: Entry -> string, es: seq<Entry>)
    requires forall e :: |text(e)| == a.length(e)
    ensures |Joined(text, es)| == Lengths(a, es) + if es == [] then 0 else |es| - 1
  {
    if |es| == 1 {
      assert es[1..] == [];
    } else if es != [] {
      var init, last := es[..|es| - 1], es[|es| - 1];
      JoinedLength(a, text, init);
      LengthsAppend(a, init, last);
      assert es == init + [last];
    }
  }

  /** However an entry is written, the length the limit bounds is that of the whole encoded list. */
  lemma EncodedIsLength(a: Authorities, text: Entry -> string, es: seq<Entry>)
    requires forall e :: |text(e)| == a.length(e)
    ensures Encoded(a, es) == |Bracketed(text, es)|
  {
    JoinedLength(a, text, es);
  }

  /** Where the longest suffix within the limit starts. */
  ghost predicate StartsProjection(a: Authorities, rs: seq<Receipt>, k: nat) {
    && k <= |rs|
    && (k < |rs| ==> Encoded(a, Entries(a, rs[k..])) <= LIMIT)
    && (forall j :: 0 <= j < k ==> Encoded(a, Entries(a, rs[j..])) > LIMIT)
  }

  function References(es: seq<Entry>): seq<(Hash, Hash)> {
    seq(|es|, i requires 0 <= i < |es| => (es[i].decision, es[i].proof))
  }

  lemma LongerIsLonger(a: Authorities, e: Entry, es: seq<Entry>)
    ensures Encoded(a, es) <= Encoded(a, [e] + es)
  {
    assert ([e] + es)[1..] == es;
  }

  lemma {:induction false} SuffixesShrink(a: Authorities, rs: seq<Receipt>, i: nat, j: nat)
    requires i <= j <= |rs|
    ensures Encoded(a, Entries(a, rs[j..])) <= Encoded(a, Entries(a, rs[i..]))
    decreases j - i
  {
    if i < j {
      SuffixesShrink(a, rs, i + 1, j);
      assert Entries(a, rs[i..]) == [EntryOf(a, rs[i])] + Entries(a, rs[i + 1..]);
      LongerIsLonger(a, EntryOf(a, rs[i]), Entries(a, rs[i + 1..]));
    }
  }

  /** The entries of the longest suffix that fits. */
  ghost predicate IsProjection(a: Authorities, rs: seq<Receipt>, es: seq<Entry>) {
    |es| <= |rs| && StartsProjection(a, rs, |rs| - |es|) && es == Entries(a, rs[|rs| - |es|..])
  }

  /** Taking receipts from the last one back while they fit. */
  method Project(a: Authorities, rs: seq<Receipt>) returns (es: seq<Entry>)
    ensures IsProjection(a, rs, es)
  {
    es := [];
    var i := |rs|;
    while i > 0
      invariant 0 <= i <= |rs| && es == Entries(a, rs[i..])
      invariant i < |rs| ==> Encoded(a, es) <= LIMIT
    {
      var entry := EntryOf(a, rs[i - 1]);
      assert Entries(a, rs[i - 1..]) == [entry] + es;
      if Encoded(a, [entry] + es) > LIMIT {
        forall j | 0 <= j < i ensures Encoded(a, Entries(a, rs[j..])) > LIMIT {
          SuffixesShrink(a, rs, j, i - 1);
        }
        return;
      }
      es := [entry] + es;
      i := i - 1;
    }
  }

  lemma ProjectionIsUnique(a: Authorities, rs: seq<Receipt>, k: nat, l: nat)
    requires StartsProjection(a, rs, k) && StartsProjection(a, rs, l)
    ensures k == l
  {
  }

  /** The projection is a fixed point: projecting the receipts it kept returns the same entries. */
  lemma ProjectionIsFixed(a: Authorities, rs: seq<Receipt>, es: seq<Entry>, again: seq<Entry>)
    requires IsProjection(a, rs, es) && IsProjection(a, rs[|rs| - |es|..], again)
    ensures again == es
  {
    var kept := rs[|rs| - |es|..];
    assert kept[0..] == kept;
    ProjectionIsUnique(a, kept, 0, |kept| - |again|);
  }

  // ---------------------------------------------------------------- the export

  predicate ClocksAgree(r: Receipt) {
    r.startedAt <= r.completedAt <= r.availableAt && r.asOf <= r.availableAt
  }

  /** What a stored receipt must satisfy on its own at a cutoff. */
  predicate Genuine(a: Authorities, store: Store, id: Hash, cutoff: Time)
    requires id in store
  {
    var r := store[id].receipt;
    && r.decision == id && a.hash(r) == store[id].proof && ClocksAgree(r)
    && r.availableAt <= cutoff && r.asOf <= cutoff && a.authentic(r)
  }

  /** What a remembered receipt must satisfy for the decision that refers to it. */
  predicate Remembered(a: Authorities, r: Receipt, reference: (Hash, Hash), value: Receipt) {
    a.hash(value) == reference.1 && value.instrument == r.instrument && a.current(value)
  }

  /** The memory a decision was shown is the projection of exactly the receipts it refers to. */
  predicate MemoryMatches(a: Authorities, r: Receipt, prior: seq<Receipt>) {
    && (prior != [] ==> Encoded(a, Entries(a, prior)) <= LIMIT)
    && r.context == Entries(a, prior) && r.references == References(Entries(a, prior))
  }

  function Export(a: Authorities, store: Store, id: Hash, cutoff: Time, ancestors: set<Hash>): Option<Receipt>
    decreases |store.Keys - ancestors|, 1, 0
  {
    if id in ancestors || id !in store || !Genuine(a, store, id, cutoff) then None
    else
      Fewer(store, id, ancestors);
      var r := store[id].receipt;
      var prior := ExportAll(a, store, r, r.references, ancestors + {id});
      if prior.None? || !MemoryMatches(a, r, prior.value) then None else Some(r)
  }

  function ExportAll(a: Authorities, store: Store, r: Receipt, references: seq<(Hash, Hash)>,
                     ancestors: set<Hash>): Option<seq<Receipt>>
    decreases |store.Keys - ancestors|, 2, |references|
  {
    if references == [] then Some([])
    else
      var last := references[|references| - 1];
      var before := ExportAll(a, store, r, references[..|references| - 1], ancestors);
      if before.None? then None
      else
        var value := Export(a, store, last.0, r.asOf, ancestors);
        if value.None? || !Remembered(a, r, last, value.value) then None else Some(before.value + [value.value])
  }

  lemma Fewer(store: Store, id: Hash, ancestors: set<Hash>)
    requires id in store && id !in ancestors
    ensures |store.Keys - (ancestors + {id})| < |store.Keys - ancestors|
  {
    assert store.Keys - (ancestors + {id}) == (store.Keys - ancestors) - {id};
  }

  /** The recursive walk. It ends on every finite store: an ancestor is never entered again. */
  method ExportReceipt(a: Authorities, store: Store, id: Hash, cutoff: Time, ancestors: set<Hash>)
    returns (result: Option<Receipt>)
    ensures result == Export(a, store, id, cutoff, ancestors)
    decreases |store.Keys - ancestors|, 0
  {
    hide Genuine, Remembered, MemoryMatches, StartsProjection, Encoded, ExportAll;
    if id in ancestors {
      return None;
    }
    if id !in store || !Genuine(a, store, id, cutoff) {
      return None;
    }
    Fewer(store, id, ancestors);
    var r := store[id].receipt;
    var prior := ExportReferences(a, store, r, ancestors + {id});
    if prior.None? {
      return None;
    }
    ExportAllLength(a, store, r, r.references, ancestors + {id});
    var entries := Project(a, prior.value);
    KeepsAll(a, r, prior.value, entries, |prior.value| - |entries|);
    if entries != r.context || r.references != References(entries) {
      return None;
    }
    return Some(r);
  }

  /** The loop over the references of one receipt. */
  method ExportReferences(a: Authorities, store: Store, r: Receipt, ancestors: set<Hash>)
    returns (prior: Option<seq<Receipt>>)
    ensures prior == ExportAll(a, store, r, r.references, ancestors)
    decreases |store.Keys - ancestors|, 1
  {
    hide Export, Remembered;
    var values := [];
    for i := 0 to |r.references|
      invariant ExportAll(a, store, r, r.references[..i], ancestors) == Some(values)
    {
      assert r.references[..i + 1][..i] == r.references[..i];
      var value := ExportReceipt(a, store, r.references[i].0, r.asOf, ancestors);
      if value.None? || !Remembered(a, r, r.references[i], value.value) {
        FailureRemains(a, store, r, r.references, ancestors, i + 1);
        return None;
      }
      values := values + [value.value];
    }
    assert r.references[..|r.references|] == r.references;
    return Some(values);
  }

  /** The projection is compared with the context and the references: both agree only if it kept every receipt. */
  lemma KeepsAll(a: Authorities, r: Receipt, prior: seq<Receipt>, entries: seq<Entry>, k: nat)
    requires StartsProjection(a, prior, k) && entries == Entries(a, prior[k..]) && |prior| == |r.references|
    ensures MemoryMatches(a, r, prior) <==> entries == r.context && r.references == References(entries)
  {
    assert prior[0..] == prior;
    if entries == r.context && r.references == References(entries) {
      assert |References(entries)| == |prior| - k;
    }
    if MemoryMatches(a, r, prior) && prior != [] {
      assert k == 0;
    }
  }

  lemma {:induction false} FailureRemains(a: Authorities, store: Store, r: Receipt, references: seq<(Hash, Hash)>,
                                          ancestors: set<Hash>, i: nat)
    requires i <= |references| && ExportAll(a, store, r, references[..i], ancestors).None?
    ensures ExportAll(a, store, r, references, ancestors).None?
    decreases |references|
  {
    if i < |references| {
      assert references[..|references| - 1][..i] == references[..i];
      FailureRemains(a, store, r, references[..|references| - 1], ancestors, i);
    } else {
      assert references[..i] == references;
    }
  }

  lemma {:induction false} ExportAllLength(a: Authorities, store: Store, r: Receipt, references: seq<(Hash, Hash)>,
                                           ancestors: set<Hash>)
    requires ExportAll(a, store, r, references, ancestors).Some?
    ensures |ExportAll(a, store, r, references, ancestors).value| == |references|
  {
    if references != [] {
      ExportAllLength(a, store, r, references[..|references| - 1], ancestors);
    }
  }

  // ---------------------------------------------------------------- what a successful export means

  /** A walk along memory references. */
  ghost predicate IsWalk(store: Store, id: Hash, p: seq<Hash>) {
    && p != [] && p[0] == id
    && forall i :: 0 < i < |p| ==> Refers(store, p[i - 1], p[i])
  }

  ghost predicate Refers(store: Store, from: Hash, to: Hash) {
    from in store && exists k :: 0 <= k < |store[from].receipt.references| && store[from].receipt.references[k].0 == to
  }

  /** The receipts a decision refers to, as stored. */
  ghost predicate Holds(store: Store, references: seq<(Hash, Hash)>) {
    forall k :: 0 <= k < |references| ==> references[k].0 in store
  }

  ghost function Prior(store: Store, references: seq<(Hash, Hash)>): seq<Receipt>
    requires Holds(store, references)
  {
    seq(|references|, k requires 0 <= k < |references| => store[references[k].0].receipt)
  }

  ghost predicate SoundMemory(a: Authorities, store: Store, r: Receipt) {
    && Holds(store, r.references)
    && (forall k :: 0 <= k < |r.references| ==> Remembered(a, r, r.references[k], store[r.references[k].0].receipt))
    && MemoryMatches(a, r, Prior(store, r.references))
  }

  /** The last receipt of a walk is new on it, genuine at the clock of the decision before it, and soundly remembers. */
  ghost predicate SoundEnd(a: Authorities, store: Store, p: seq<Hash>, cutoff: Time, ancestors: set<Hash>)
    requires p != []
  {
    var n := |p| - 1;
    && p[n] in store && p[n] !in ancestors && p[n] !in p[..n]
    && (n > 0 ==> p[n - 1] in store)
    && Genuine(a, store, p[n], if n == 0 then cutoff else store[p[n - 1]].receipt.asOf)
    && SoundMemory(a, store, store[p[n]].receipt)
  }

  /** A stored receipt that can be certified at a clock. */
  ghost predicate Certifiable(a: Authorities, id: Hash, s: Stored, clock: Time) {
    var r := s.receipt;
    && r.decision == id && a.hash(r) == s.proof && a.authentic(r)
    && r.startedAt <= r.completedAt && r.completedAt <= r.availableAt && r.asOf <= r.availableAt <= clock
  }

  /** What a decision was shown of a receipt: identity, clocks, action, and at most 500 characters of its reasoning. */
  ghost predicate Shows(a: Authorities, e: Entry, value: Receipt) {
    && e.decision == value.decision && e.proof == a.hash(value) && e.action == value.action
    && e.asOf == value.asOf && e.availableAt == value.availableAt
    && e.reasoning <= value.reasoning && |e.reasoning| == if |value.reasoning| < 500 then |value.reasoning| else 500
  }

  /** Reference k of a decision and the entry beside it are those of a current receipt of its instrument. */
  ghost predicate Recalls(a: Authorities, r: Receipt, k: nat, value: Receipt)
    requires k < |r.references| == |r.context|
  {
    && a.current(value) && value.instrument == r.instrument
    && r.references[k] == (value.decision, a.hash(value)) && Shows(a, r.context[k], value)
  }

  ghost predicate RecallsAll(a: Authorities, store: Store, r: Receipt) {
    && |r.context| == |r.references|
    && (forall k :: 0 <= k < |r.references| ==>
          r.references[k].0 in store && Recalls(a, r, k, store[r.references[k].0].receipt))
    && (r.references != [] ==> Encoded(a, r.context) <= 2000)
  }

  lemma EntryShows(a: Authorities, e: Entry, value: Receipt)
    ensures e == EntryOf(a, value) <==> Shows(a, e, value)
  {
    if Shows(a, e, value) {
      assert e.reasoning == value.reasoning[..|e.reasoning|];
    }
  }

  lemma MemoryIsRecalled(a: Authorities, store: Store, r: Receipt)
    ensures SoundMemory(a, store, r) <==> RecallsAll(a, store, r)
  {
    forall e, value ensures e == EntryOf(a, value) <==> Shows(a, e, value) {
      EntryShows(a, e, value);
    }
    hide EntryOf, Shows, Encoded;
    if Holds(store, r.references) {
      var prior := Prior(store, r.references);
      if SoundMemory(a, store, r) {
        forall k | 0 <= k < |r.references| ensures Recalls(a, r, k, store[r.references[k].0].receipt) {
          assert r.context[k] == EntryOf(a, prior[k]);
          assert References(Entries(a, prior))[k] == (EntryOf(a, prior[k]).decision, EntryOf(a, prior[k]).proof);
          ReferenceIs(a, prior[k]);
        }
      }
      if RecallsAll(a, store, r) {
        forall k | 0 <= k < |r.references|
          ensures r.context[k] == Entries(a, prior)[k] && r.references[k] == References(Entries(a, prior))[k]
          ensures Remembered(a, r, r.references[k], prior[k])
        {
          assert Recalls(a, r, k, prior[k]);
          ReferenceIs(a, prior[k]);
        }
        assert r.context == Entries(a, prior) && r.references == References(Entries(a, prior));
      }
    }
  }

  lemma ReferenceIs(a: Authorities, value: Receipt)
    ensures EntryOf(a, value).decision == value.decision && EntryOf(a, value).proof == a.hash(value)
  {
  }

  /** The end of a walk in full: a new receipt, certifiable at its clock, that recalls exactly what it refers to. */
  lemma SoundEndExactly(a: Authorities, store: Store, p: seq<Hash>, cutoff: Time, ancestors: set<Hash>)
    requires p != []
    ensures SoundEnd(a, store, p, cutoff, ancestors) <==>
              var n := |p| - 1;
              && p[n] in store && p[n] !in ancestors && p[n] !in p[..n] && (n > 0 ==> p[n - 1] in store)
              && Certifiable(a, p[n], store[p[n]], if n == 0 then cutoff else store[p[n - 1]].receipt.asOf)
              && RecallsAll(a, store, store[p[n]].receipt)
  {
    var n := |p| - 1;
    if p[n] in store {
      MemoryIsRecalled(a, store, store[p[n]].receipt);
    }
    hide SoundMemory, RecallsAll;
  }

  lemma ExportReturnsStored(a: Authorities, store: Store, id: Hash, cutoff: Time, ancestors: set<Hash>)
    requires Export(a, store, id, cutoff, ancestors).Some?
    ensures id in store && Export(a, store, id, cutoff, ancestors).value == store[id].receipt
  {
  }

  /** All references of a list export exactly when each one does. */
  lemma {:induction false} ExportAllExactly(a: Authorities, store: Store, r: Receipt, references: seq<(Hash, Hash)>,
                                            ancestors: set<Hash>)
    ensures ExportAll(a, store, r, references, ancestors).Some? <==>
              forall k :: 0 <= k < |references| ==> Exports(a, store, r, references[k], ancestors)
    ensures ExportAll(a, store, r, references, ancestors).Some? ==>
              Holds(store, references)
                && ExportAll(a, store, r, references, ancestors).value == Prior(store, references)
  {
    hide Export, Remembered, Genuine;
    if references != [] {
      var init, last := references[..|references| - 1], references[|references| - 1];
      ExportAllExactly(a, store, r, init, ancestors);
      assert forall k :: 0 <= k < |init| ==> init[k] == references[k];
      if Export(a, store, last.0, r.asOf, ancestors).Some? {
        ExportReturnsStored(a, store, last.0, r.asOf, ancestors);
      }
      if ExportAll(a, store, r, references, ancestors).Some? {
        assert Prior(store, references) == Prior(store, init) + [store[last.0].receipt];
      }
    }
  }

  ghost predicate Exports(a: Authorities, store: Store, r: Receipt, reference: (Hash, Hash), ancestors: set<Hash>) {
    var value := Export(a, store, reference.0, r.asOf, ancestors);
    value.Some? && Remembered(a, r, reference, value.value)
  }

  /** One level of the walk. */
  lemma ExportExactly(a: Authorities, store: Store, id: Hash, cutoff: Time, ancestors: set<Hash>)
    ensures Export(a, store, id, cutoff, ancestors).Some? <==>
              && id !in ancestors && id in store && Genuine(a, store, id, cutoff)
              && SoundMemory(a, store, store[id].receipt)
              && forall k :: 0 <= k < |store[id].receipt.references| ==>
                   Export(a, store, store[id].receipt.references[k].0, store[id].receipt.asOf, ancestors + {id}).Some?
  {
    if id !in ancestors && id in store && Genuine(a, store, id, cutoff) {
      var r := store[id].receipt;
      ExportAllExactly(a, store, r, r.references, ancestors + {id});
      hide Genuine, Remembered, MemoryMatches;
      forall k | 0 <= k < |r.references| && Export(a, store, r.references[k].0, r.asOf, ancestors + {id}).Some?
        ensures r.references[k].0 in store
        ensures Exports(a, store, r, r.references[k], ancestors + {id})
                <==> Remembered(a, r, r.references[k], store[r.references[k].0].receipt)
      {
        ExportReturnsStored(a, store, r.references[k].0, r.asOf, ancestors + {id});
      }
    }
  }

  lemma {:induction false} ExportMeansSoundWalks(a: Authorities, store: Store, id: Hash, cutoff: Time,
                                                 ancestors: set<Hash>, p: seq<Hash>)
    requires Export(a, store, id, cutoff, ancestors).Some? && IsWalk(store, id, p)
    ensures SoundEnd(a, store, p, cutoff, ancestors)
    decreases |p|
  {
    ExportExactly(a, store, id, cutoff, ancestors);
    hide Export, Genuine, SoundMemory;
    if |p| > 1 {
      var r := store[id].receipt;
      assert Refers(store, p[0], p[1]);
      var k :| 0 <= k < |r.references| && r.references[k].0 == p[1];
      WalkTail(store, id, p);
      ExportMeansSoundWalks(a, store, p[1], r.asOf, ancestors + {id}, p[1..]);
      SoundTail(a, store, p, cutoff, ancestors);
    }
  }

  lemma WalkTail(store: Store, id: Hash, p: seq<Hash>)
    requires IsWalk(store, id, p) && |p| > 1
    ensures IsWalk(store, p[1], p[1..])
  {
    var q := p[1..];
    forall i | 0 < i < |q| ensures Refers(store, q[i - 1], q[i]) {
      assert Refers(store, p[i], p[i + 1]);
    }
  }

  lemma WalkCons(store: Store, id: Hash, to: Hash, q: seq<Hash>)
    requires IsWalk(store, to, q) && Refers(store, id, to)
    ensures IsWalk(store, id, [id] + q)
  {
    var p := [id] + q;
    forall i | 0 < i < |p| ensures Refers(store, p[i - 1], p[i]) {
      assert i > 1 ==> Refers(store, q[i - 2], q[i - 1]);
    }
  }

  /** The end of a walk is sound from its first step on and from its second alike. */
  lemma SoundTail(a: Authorities, store: Store, p: seq<Hash>, cutoff: Time, ancestors: set<Hash>)
    requires |p| > 1 && p[0] in store
    ensures SoundEnd(a, store, p, cutoff, ancestors) <==>
            SoundEnd(a, store, p[1..], store[p[0]].receipt.asOf, ancestors + {p[0]})
  {
    hide Genuine, SoundMemory;
    var q, n := p[1..], |p| - 1;
    assert q[n - 1] == p[n] && p[..n] == [p[0]] + q[..n - 1];
  }

  lemma {:induction false} SoundWalksMeanExport(a: Authorities, store: Store, id: Hash, cutoff: Time,
                                                ancestors: set<Hash>)
    requires forall p :: IsWalk(store, id, p) ==> SoundEnd(a, store, p, cutoff, ancestors)
    ensures Export(a, store, id, cutoff, ancestors).Some?
    decreases |store.Keys - ancestors|
  {
    hide Export, Genuine, SoundMemory;
    assert IsWalk(store, id, [id]);
    assert SoundEnd(a, store, [id], cutoff, ancestors);
    Fewer(store, id, ancestors);
    var r := store[id].receipt;
    forall k | 0 <= k < |r.references| ensures Export(a, store, r.references[k].0, r.asOf, ancestors + {id}).Some? {
      var to := r.references[k].0;
      assert Refers(store, id, to);
      forall q | IsWalk(store, to, q) ensures SoundEnd(a, store, q, r.asOf, ancestors + {id}) {
        WalkCons(store, id, to, q);
        assert ([id] + q)[1..] == q;
        SoundTail(a, store, [id] + q, cutoff, ancestors);
      }
      SoundWalksMeanExport(a, store, to, r.asOf, ancestors + {id});
    }
    ExportExactly(a, store, id, cutoff, ancestors);
  }

  /** A decision exports exactly when every walk along its memory ends soundly: no cycle, no gap, no receipt from the
   * future. */
  lemma ExportIffEveryWalkIsSound(a: Authorities, store: Store, id: Hash, cutoff: Time)
    ensures Export(a, store, id, cutoff, {}).Some? <==>
              forall p :: IsWalk(store, id, p) ==> SoundEnd(a, store, p, cutoff, {})
  {
    if Export(a, store, id, cutoff, {}).Some? {
      forall p | IsWalk(store, id, p) ensures SoundEnd(a, store, p, cutoff, {}) {
        ExportMeansSoundWalks(a, store, id, cutoff, {}, p);
      }
    }
    if forall p :: IsWalk(store, id, p) ==> SoundEnd(a, store, p, cutoff, {}) {
      SoundWalksMeanExport(a, store, id, cutoff, {});
    }
  }

  /** The last step of a sound walk: what is remembered against the decision that refers to it. */
  lemma LastStep(a: Authorities, store: Store, id: Hash, cutoff: Time, p: seq<Hash>)
    requires Export(a, store, id, cutoff, {}).Some? && IsWalk(store, id, p) && |p| > 1
    ensures var n := |p| - 1;
            && p[n] in store && p[n - 1] in store && p[n] !in p[..n]
            && store[p[n]].receipt.instrument == store[p[n - 1]].receipt.instrument
            && store[p[n]].receipt.availableAt <= store[p[n - 1]].receipt.asOf
            && store[p[n]].receipt.asOf <= store[p[n]].receipt.availableAt
    ensures IsWalk(store, id, p[..|p| - 1])
  {
    var n := |p| - 1;
    ExportMeansSoundWalks(a, store, id, cutoff, {}, p);
    WalkInit(store, id, p);
    ExportMeansSoundWalks(a, store, id, cutoff, {}, p[..n]);
    hide Export;
    assert Refers(store, p[n - 1], p[n]);
    var r := store[p[n - 1]].receipt;
    var k :| 0 <= k < |r.references| && r.references[k].0 == p[n];
    assert Remembered(a, r, r.references[k], store[p[n]].receipt);
  }

  lemma WalkInit(store: Store, id: Hash, p: seq<Hash>)
    requires IsWalk(store, id, p) && |p| > 1
    ensures IsWalk(store, id, p[..|p| - 1])
  {
    var init := p[..|p| - 1];
    forall i | 0 < i < |init| ensures Refers(store, init[i - 1], init[i]) {
      assert Refers(store, p[i - 1], p[i]);
    }
  }

  /** Everything an exported decision remembers, at any depth, is of its instrument and was available at every clock on
   * the way. */
  lemma {:induction false} MemoryIsCausal(a: Authorities, store: Store, id: Hash, cutoff: Time, p: seq<Hash>)
    requires Export(a, store, id, cutoff, {}).Some? && IsWalk(store, id, p)
    ensures forall i :: 0 <= i < |p| ==> p[i] in store && store[p[i]].receipt.instrument == store[id].receipt.instrument
                                         && store[p[i]].receipt.asOf <= store[p[i]].receipt.availableAt <= cutoff
    ensures forall i, j ::
              0 <= i < j < |p| ==> p[i] != p[j] && store[p[j]].receipt.availableAt <= store[p[i]].receipt.asOf
    decreases |p|
  {
    var n := |p| - 1;
    if n == 0 {
      ExportExactly(a, store, id, cutoff, {});
    } else {
      var init := p[..n];
      LastStep(a, store, id, cutoff, p);
      MemoryIsCausal(a, store, id, cutoff, init);
      hide Export, IsWalk;
      forall i | 0 <= i < n
        ensures p[i] != p[n] && p[i] in store && store[p[n]].receipt.availableAt <= store[p[i]].receipt.asOf
      {
        assert init[i] == p[i] && init[n - 1] == p[n - 1];
        assert i < n - 1 ==> store[init[n - 1]].receipt.availableAt <= store[init[i]].receipt.asOf;
      }
    }
  }
}
