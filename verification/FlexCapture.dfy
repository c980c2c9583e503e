/**
 The capture of a Flex report: the writer's bounded polling protocol, and the
 independent reader that must accept the directory it leaves.

 The network, the clocks and XML are arbitrary functions. Receipt files are listed
 in the order of their names, which carry a two-digit request number.
*/
module FlexCapture {
  import opened Basics
  import opened FlexReport

  type Raw = nat
  type Digest = nat

  datatype Operation = SendRequest | GetStatement

  datatype FileName = FileName(index: nat, operation: Operation)

  /** The error code of a response: none, one that means not ready yet, another, or not four digits. */
  datatype Code = NoCode | NotReady(number: nat) | Refused(number: nat) | Unreadable

  /** What both sides read of a well-formed response. */
  datatype Document = Document(root: Element, code: Code, success: bool, reference: Option<nat>)

  /** Parsing, hashing, and the reader's limits on nodes and depth. */
  datatype Xml = Xml(parse: Raw -> Option<Document>, digest: Raw -> Digest, within: Raw -> bool)

  datatype Receipt = Receipt(operation: Operation, startedAt: Time, availableAt: Time, status: int, rawFile: FileName,
                             rawHash: Digest, queryHash: Digest)

  datatype Manifest = Manifest(directory: nat, report: FileName, statements: nat, requests: nat)

  datatype Resume = Resume(source: nat, acknowledgement: Digest)

  datatype Directory = Directory(raws: map<FileName, Raw>, receipts: seq<(FileName, Receipt)>, resume: Option<Resume>,
                                 manifest: Option<Manifest>)

  /** What the network does with one request. */
  datatype Answer = Failed | Answer(startedAt: Time, availableAt: Time, status: int, raw: Raw)

  const ACK: FileName := FileName(1, SendRequest)

  const EMPTY_DIRECTORY: Directory := Directory(map[], [], None, None)

  // ---------------------------------------------------------------- resuming the latest generation

  datatype Candidate = Candidate(started: Time, available: Time, name: nat, reference: nat, hash: Digest,
                                 completed: bool, query: Digest)

  predicate Acknowledges(d: Document) {
    d.root.tag == FlexStatementResponse && d.success && d.code == NoCode && d.reference.Some?
  }

  function ReceiptOf(d: Directory, name: FileName): (r: Option<Receipt>)
    ensures r.None? <==> forall i :: 0 <= i < |d.receipts| ==> d.receipts[i].0 != name
    ensures r.Some? ==> exists i :: 0 <= i < |d.receipts| && d.receipts[i] == (name, r.value)
  {
    if exists i :: 0 <= i < |d.receipts| && d.receipts[i].0 == name then
      var i := FirstNamed(d.receipts, name);
      Some(d.receipts[i].1)
    else None
  }

  function FirstNamed(rs: seq<(FileName, Receipt)>, name: FileName): (i: nat)
    requires exists i :: 0 <= i < |rs| && rs[i].0 == name
    ensures i < |rs| && rs[i].0 == name
  {
    if rs[0].0 == name then 0 else
      assert exists i :: 0 <= i < |rs[1..]| && rs[1..][i].0 == name by {
        var i :| 0 <= i < |rs| && rs[i].0 == name;
        assert rs[1..][i - 1].0 == name;
      }
      1 + FirstNamed(rs[1..], name)
  }

  /** A generation of its own: an original acknowledgement with a matching receipt. */
  predicate Generation(x: Xml, d: Directory) {
    && ACK in d.raws && ReceiptOf(d, ACK).Some?
    && var r, raw := ReceiptOf(d, ACK).value, d.raws[ACK];
    && r.operation == SendRequest && r.status == 200 && r.rawFile == ACK && r.rawHash == x.digest(raw)
    && r.startedAt <= r.availableAt
    && x.parse(raw).Some? && Acknowledges(x.parse(raw).value)
  }

  function CandidateOf(x: Xml, name: nat, d: Directory): Candidate
    requires Generation(x, d)
  {
    var r := ReceiptOf(d, ACK).value;
    Candidate(r.startedAt, r.availableAt, name, x.parse(d.raws[ACK]).value.reference.value, r.rawHash, d.manifest.Some?,
              r.queryHash)
  }

  function Insert(c: Candidate, cs: seq<Candidate>): seq<Candidate> {
    if cs == [] || c.started <= cs[0].started then [c] + cs else [cs[0]] + Insert(c, cs[1..])
  }

  /** In order of their start; equal starts keep their order. */
  function Sorted(cs: seq<Candidate>): seq<Candidate> {
    if cs == [] then [] else Insert(cs[0], Sorted(cs[1..]))
  }

  ghost predicate InOrder(cs: seq<Candidate>) {
    forall i, j :: 0 <= i < j < |cs| ==> cs[i].started <= cs[j].started
  }

  lemma {:induction false} InsertPermutes(c: Candidate, cs: seq<Candidate>)
    ensures multiset(Insert(c, cs)) == multiset(cs) + multiset{c}
  {
    if cs != [] && c.started > cs[0].started {
      InsertPermutes(c, cs[1..]);
      assert cs == [cs[0]] + cs[1..];
    }
  }

  lemma {:induction false} InsertOrders(c: Candidate, cs: seq<Candidate>)
    requires InOrder(cs)
    ensures InOrder(Insert(c, cs))
  {
    if cs != [] && c.started > cs[0].started {
      InsertOrders(c, cs[1..]);
      InsertPermutes(c, cs[1..]);
      var rest := Insert(c, cs[1..]);
      hide Insert;
      forall i | 0 <= i < |rest| ensures cs[0].started <= rest[i].started {
        assert rest[i] in multiset(rest);
        assert rest[i] in cs[1..] || rest[i] == c;
      }
    }
  }

  lemma {:induction false} SortedSorts(cs: seq<Candidate>)
    ensures InOrder(Sorted(cs)) && multiset(Sorted(cs)) == multiset(cs)
  {
    if cs != [] {
      SortedSorts(cs[1..]);
      InsertOrders(cs[0], Sorted(cs[1..]));
      InsertPermutes(cs[0], Sorted(cs[1..]));
      assert cs == [cs[0]] + cs[1..];
    }
  }

  /** The acquisition order of two generations is certain. */
  predicate Apart(older: Candidate, newer: Candidate) {
    older.started != newer.started && older.available < newer.started
  }

  predicate AdjacentApart(cs: seq<Candidate>, k: nat)
    requires 0 < k < |cs|
  {
    Apart(cs[k - 1], cs[k])
  }

  ghost predicate AllApart(cs: seq<Candidate>) {
    forall i, j :: 0 <= i < j < |cs| ==> cs[i].started < cs[j].started && cs[i].available < cs[j].started
  }

  ghost predicate Intervals(cs: seq<Candidate>) {
    forall c :: c in cs ==> c.started <= c.available
  }

  lemma {:induction false} NeighboursSuffice(cs: seq<Candidate>, i: nat, j: nat)
    requires Intervals(cs) && i < j < |cs| && forall k :: 0 < k < |cs| ==> AdjacentApart(cs, k)
    ensures Apart(cs[i], cs[j])
  {
    assert AdjacentApart(cs, j);
    if i < j - 1 {
      NeighboursSuffice(cs, i, j - 1);
      assert cs[j - 1] in cs;
    }
  }

  /** The newest generation, if acquisition order is certain, it is of this query and not yet downloaded. */
  method Latest(cs: seq<Candidate>, query: Digest) returns (r: Option<Candidate>)
    requires Intervals(cs)
    ensures r.Some? <==> cs != [] && AllApart(Sorted(cs)) && |Sorted(cs)| == |cs|
                         && Sorted(cs)[|cs| - 1].query == query && !Sorted(cs)[|cs| - 1].completed
    ensures r.Some? ==> r.value in cs && r.value.query == query && !r.value.completed
    ensures r.Some? ==> forall c :: c in cs && c != r.value ==> c.available < r.value.started
  {
    var sorted := Sorted(cs);
    SortedMembers(cs);
    if cs == [] {
      return None;
    }
    for i := 1 to |sorted|
      invariant forall k :: 0 < k < i ==> AdjacentApart(sorted, k)
    {
      if sorted[i - 1].started == sorted[i].started || sorted[i - 1].available >= sorted[i].started {
        assert !AllApart(sorted) by {
          assert !Apart(sorted[i - 1], sorted[i]);
        }
        return None;
      }
    }
    forall i, j | 0 <= i < j < |sorted| ensures Apart(sorted[i], sorted[j]) {
      NeighboursSuffice(sorted, i, j);
    }
    var last := sorted[|sorted| - 1];
    if last.query != query || last.completed {
      return None;
    }
    forall c | c in cs && c != last ensures c.available < last.started {
      assert c in sorted;
      var i :| 0 <= i < |sorted| && sorted[i] == c;
      assert Apart(sorted[i], sorted[|sorted| - 1]);
    }
    return Some(last);
  }

  lemma SortedMembers(cs: seq<Candidate>)
    ensures |Sorted(cs)| == |cs| && forall c :: c in Sorted(cs) <==> c in cs
  {
    SortedSorts(cs);
    assert |Sorted(cs)| == |multiset(Sorted(cs))| == |multiset(cs)|;
    forall c ensures c in Sorted(cs) <==> c in cs {
      assert c in Sorted(cs) <==> c in multiset(Sorted(cs));
      assert c in cs <==> c in multiset(cs);
    }
  }

  // ---------------------------------------------------------------- the writer

  /** File of the i-th request of a fresh or resumed capture. */
  function Name(i: nat, resumed: bool): FileName {
    FileName(i, if i == 1 && !resumed then SendRequest else GetStatement)
  }

  function ReceiptFor(x: Xml, query: Digest, a: Answer, name: FileName): Receipt
    requires a.Answer?
  {
    Receipt(name.operation, a.startedAt, a.availableAt, a.status, name, x.digest(a.raw), query)
  }

  function StatementsOf(container: Element): nat {
    if container.tag == FlexStatements then CountTag(container.children, FlexStatement) else 0
  }

  /** All FlexStatement elements two steps below the root. */
  function CountStatements(children: seq<Element>): nat {
    if children == [] then 0 else CountStatements(children[..|children| - 1]) + StatementsOf(children[|children| - 1])
  }

  /** The i-th request was answered, parsed and filed. */
  ghost predicate Filed(x: Xml, query: Digest, a: Answer, d: Directory, i: nat, resumed: bool)
    requires 1 <= i <= |d.receipts|
  {
    && a.Answer? && a.status == 200 && x.parse(a.raw).Some?
    && d.receipts[i - 1] == (Name(i, resumed), ReceiptFor(x, query, a, Name(i, resumed)))
    && Name(i, resumed) in d.raws && d.raws[Name(i, resumed)] == a.raw
  }

  ghost predicate AllFiled(x: Xml, query: Digest, answers: nat -> Answer, d: Directory, resumed: bool) {
    forall i :: 1 <= i <= |d.receipts| ==> Filed(x, query, answers(i), d, i, resumed)
  }

  ghost predicate Waits(x: Xml, a: Answer) {
    a.Answer? && x.parse(a.raw).Some? && x.parse(a.raw).value.code.NotReady?
  }

  /** What every finished capture looks like. */
  ghost predicate Finished(x: Xml, query: Digest, answers: nat -> Answer, here: nat, d: Directory,
                           source: Option<Candidate>) {
    var n, resumed := |d.receipts|, source.Some?;
    && (if resumed then 1 else 2) <= n <= 9
    && AllFiled(x, query, answers, d, resumed)
    && answers(n).Answer? && x.parse(answers(n).raw).Some?
    && (!resumed ==> Opens(x, answers(1)))
    && (forall i :: (if resumed then 1 else 2) <= i < n ==> Waits(x, answers(i)))
    && var report := x.parse(answers(n).raw).value;
    && report.code == NoCode && report.root.tag == FlexQueryResponse && CountStatements(report.root.children) > 0
    && d.resume == (if resumed then Some(Resume(source.value.name, source.value.hash)) else None)
    && d.manifest == Some(Manifest(here, Name(n, resumed), CountStatements(report.root.children), n))
  }

  /** A request that comes back as a well-formed response. */
  ghost predicate Answered(x: Xml, a: Answer) {
    a.Answer? && a.status == 200 && x.parse(a.raw).Some?
  }

  /** An answer that opens a generation: a success without an error code that gives a reference. */
  ghost predicate Opens(x: Xml, a: Answer) {
    && Answered(x, a)
    && var d := x.parse(a.raw).value;
    d.root.tag == FlexStatementResponse && d.success && d.code == NoCode && d.reference != None
  }

  /** The number of the request that poll p sends. */
  function RequestOf(p: nat, resumed: bool): nat {
    if resumed then p + 1 else p + 2
  }

  ghost predicate StillWaiting(x: Xml, a: Answer) {
    Answered(x, a) && x.parse(a.raw).value.code.NotReady?
  }

  ghost predicate IsReport(x: Xml, a: Answer) {
    && Answered(x, a)
    && var d := x.parse(a.raw).value;
    d.code == NoCode && d.root.tag == FlexQueryResponse && CountStatements(d.root.children) > 0
  }

  /** Poll p brings the report, after polls that were in time and told to wait. */
  ghost predicate FinishesAt(x: Xml, answers: nat -> Answer, inTime: nat -> bool, resumed: bool, p: nat) {
    && (forall q :: 0 <= q <= p ==> inTime(q))
    && (forall q :: 0 <= q < p ==> StillWaiting(x, answers(RequestOf(q, resumed))))
    && IsReport(x, answers(RequestOf(p, resumed)))
  }

  /** When polling finishes: the generation is acknowledged or resumed, and one of eight polls brings the report. */
  ghost predicate Finishes(x: Xml, answers: nat -> Answer, inTime: nat -> bool, resumed: bool) {
    && (!resumed ==> Opens(x, answers(1)))
    && exists p :: 0 <= p < 8 && FinishesAt(x, answers, inTime, resumed, p)
  }

  class FlexFetch {
    const x: Xml
    const query: Digest
    const answers: nat -> Answer
    var d: Directory

    constructor (x: Xml, query: Digest, answers: nat -> Answer)
      ensures this.x == x && this.query == query && this.answers == answers && d == EMPTY_DIRECTORY
    {
      this.x, this.query, this.answers := x, query, answers;
      d := EMPTY_DIRECTORY;
    }

    /** One request: the body and its receipt are filed before the status is judged. */
    method Request(operation: Operation) returns (document: Option<Document>)
      requires forall name :: name in d.raws ==> name.index <= |d.receipts|
      modifies this`d
      ensures forall name :: name in d.raws ==> name.index <= |d.receipts|
      ensures var n, name, a := |old(d).receipts| + 1, FileName(|old(d).receipts| + 1, operation),
                                answers(|old(d).receipts| + 1);
              && (document.Some? <==> a.Answer? && a.status == 200 && x.parse(a.raw).Some?)
              && (document.Some? ==> document == x.parse(a.raw))
              && (a.Answer? ==> d == old(d).(raws := old(d).raws[name := a.raw],
                                             receipts := old(d).receipts + [(name, ReceiptFor(x, query, a, name))]))
              && (a.Failed? ==> d == old(d))
    {
      var a := answers(|d.receipts| + 1);
      if a.Failed? {
        return None;
      }
      var name := FileName(|d.receipts| + 1, operation);
      d := d.(raws := d.raws[name := a.raw], receipts := d.receipts + [(name, ReceiptFor(x, query, a, name))]);
      if a.status != 200 {
        return None;
      }
      return x.parse(a.raw);
    }

    /** One generation request, then at most eight retrievals while the deadline allows. */
    method Fetch(here: nat, source: Option<Candidate>, inTime: nat -> bool) returns (r: Option<Manifest>)
      requires d == EMPTY_DIRECTORY
      modifies this`d
      ensures r == d.manifest
      ensures r.Some? <==> Finishes(x, answers, inTime, source.Some?)
      ensures r.Some? ==> Finished(x, query, answers, here, d, source)
    {
      hide Polling, Finished, FinishesAt;
      if source.Some? {
        d := d.(resume := Some(Resume(source.value.name, source.value.hash)));
      } else {
        var ack := Request(SendRequest);
        if ack.None? || !Acknowledges(ack.value) {
          return None;
        }
      }
      PollingStarts(x, query, answers, d, source);
      r := Poll(here, source, inTime);
    }

    method Poll(here: nat, source: Option<Candidate>, inTime: nat -> bool) returns (r: Option<Manifest>)
      requires Polling(x, query, answers, d, source, 0)
      modifies this`d
      ensures r == d.manifest
      ensures r.Some? <==> Finishes(x, answers, inTime, source.Some?)
      ensures r.Some? ==> Finished(x, query, answers, here, d, source)
    {
      hide Polling, Finished, Finishes, FinishesAt, CountStatements, Acknowledges;
      for poll := 0 to 8
        invariant Polling(x, query, answers, d, source, poll)
        invariant forall q :: 0 <= q < poll ==> inTime(q)
      {
        PollingSoFar(x, query, answers, d, source, poll);
        if !inTime(poll) {
          Unfinished(x, answers, inTime, source.Some?, poll);
          return None;
        }
        ghost var before := d;
        var response := Request(GetStatement);
        if response.None? {
          Unfinished(x, answers, inTime, source.Some?, poll);
          return None;
        }
        var code, root := response.value.code, response.value.root;
        if code.NotReady? {
          PollWaits(x, query, answers, before, d, source, poll);
          continue;
        }
        if code != NoCode || root.tag != FlexQueryResponse || CountStatements(root.children) == 0 {
          Unfinished(x, answers, inTime, source.Some?, poll);
          return None;
        }
        ghost var after := d;
        var name := FileName(|d.receipts|, GetStatement);
        d := d.(manifest := Some(Manifest(here, name, CountStatements(root.children), |d.receipts|)));
        PollReports(x, query, answers, before, after, source, poll, here);
        PollingFinishes(x, query, answers, before, source, inTime, poll);
        return d.manifest;
      }
      PollingSoFar(x, query, answers, d, source, 8);
      Unfinished(x, answers, inTime, source.Some?, 8);
      return None;
    }
  }

  /** Before poll p: everything is filed, acknowledged or resumed, and every answer so far said to wait. */
  ghost predicate Polling(x: Xml, query: Digest, answers: nat -> Answer, d: Directory, source: Option<Candidate>,
                          p: nat) {
    var resumed := source.Some?;
    && |d.receipts| + 1 == RequestOf(p, resumed)
    && (forall name :: name in d.raws ==> name.index <= |d.receipts|)
    && d.manifest == None && d.resume == (if resumed then Some(Resume(source.value.name, source.value.hash)) else None)
    && AllFiled(x, query, answers, d, resumed)
    && (!resumed ==> Opens(x, answers(1)))
    && forall q :: 0 <= q < p ==> StillWaiting(x, answers(RequestOf(q, resumed)))
  }

  lemma PollingStarts(x: Xml, query: Digest, answers: nat -> Answer, d: Directory, source: Option<Candidate>)
    requires source.Some? ==> d == EMPTY_DIRECTORY.(resume := Some(Resume(source.value.name, source.value.hash)))
    requires source.None? ==>
               && Answered(x, answers(1)) && Acknowledges(x.parse(answers(1).raw).value)
               && d == EMPTY_DIRECTORY.(raws := EMPTY_DIRECTORY.raws[ACK := answers(1).raw],
                                        receipts := EMPTY_DIRECTORY.receipts
                                                    + [(ACK, ReceiptFor(x, query, answers(1), ACK))])
    ensures Polling(x, query, answers, d, source, 0)
  {
  }

  lemma PollingSoFar(x: Xml, query: Digest, answers: nat -> Answer, d: Directory, source: Option<Candidate>, p: nat)
    requires Polling(x, query, answers, d, source, p)
    ensures |d.receipts| + 1 == RequestOf(p, source.Some?) && d.manifest == None
    ensures forall name :: name in d.raws ==> name.index <= |d.receipts|
    ensures forall q :: 0 <= q < p ==> StillWaiting(x, answers(RequestOf(q, source.Some?)))
  {
    hide AllFiled, Acknowledges;
  }

  /** What a retrieval adds to the directory. */
  ghost predicate Adds(x: Xml, query: Digest, a: Answer, before: Directory, after: Directory) {
    && Answered(x, a)
    && var name := FileName(|before.receipts| + 1, GetStatement);
    after == before.(raws := before.raws[name := a.raw],
                     receipts := before.receipts + [(name, ReceiptFor(x, query, a, name))])
  }

  lemma PollWaits(x: Xml, query: Digest, answers: nat -> Answer, before: Directory, after: Directory,
                  source: Option<Candidate>, p: nat)
    requires Polling(x, query, answers, before, source, p)
             && Adds(x, query, answers(|before.receipts| + 1), before, after)
    requires StillWaiting(x, answers(|before.receipts| + 1))
    ensures Polling(x, query, answers, after, source, p + 1)
  {
    OneMoreFiled(x, query, answers, before, after, source.Some?);
    hide AllFiled, Acknowledges;
  }

  lemma PollReports(x: Xml, query: Digest, answers: nat -> Answer, before: Directory, after: Directory,
                    source: Option<Candidate>, p: nat, here: nat)
    requires p < 8 && Polling(x, query, answers, before, source, p)
             && Adds(x, query, answers(|before.receipts| + 1), before, after)
    requires IsReport(x, answers(|before.receipts| + 1))
    ensures var n := |after.receipts|;
            var statements := CountStatements(x.parse(answers(n).raw).value.root.children);
            Finished(x, query, answers, here,
                     after.(manifest := Some(Manifest(here, FileName(n, GetStatement), statements, n))), source)
  {
    hide Acknowledges, CountStatements;
    OneMoreFiled(x, query, answers, before, after, source.Some?);
    var n, first := |after.receipts|, if source.Some? then 1 else 2;
    forall i | first <= i < n ensures Waits(x, answers(i)) {
      assert StillWaiting(x, answers(RequestOf(i - first, source.Some?)));
    }
    var statements := CountStatements(x.parse(answers(n).raw).value.root.children);
    var done := after.(manifest := Some(Manifest(here, FileName(n, GetStatement), statements, n)));
    assert AllFiled(x, query, answers, done, source.Some?) by {
      forall i | 1 <= i <= n ensures Filed(x, query, answers(i), done, i, source.Some?) {
        assert Filed(x, query, answers(i), after, i, source.Some?);
      }
    }
    hide AllFiled;
  }

  lemma PollingFinishes(x: Xml, query: Digest, answers: nat -> Answer, d: Directory, source: Option<Candidate>,
                        inTime: nat -> bool, p: nat)
    requires p < 8 && Polling(x, query, answers, d, source, p) && IsReport(x, answers(|d.receipts| + 1))
    requires forall q :: 0 <= q <= p ==> inTime(q)
    ensures Finishes(x, answers, inTime, source.Some?)
  {
    hide AllFiled, Acknowledges, IsReport;
    assert FinishesAt(x, answers, inTime, source.Some?, p);
  }

  /** Nothing finishes when every poll before n waits and poll n, if there is one, is late or brings neither report nor
   * wait. */
  lemma Unfinished(x: Xml, answers: nat -> Answer, inTime: nat -> bool, resumed: bool, n: nat)
    requires forall q :: 0 <= q < n ==> StillWaiting(x, answers(RequestOf(q, resumed)))
    requires var a := answers(RequestOf(n, resumed)); n >= 8 || !inTime(n) || (!IsReport(x, a) && !StillWaiting(x, a))
    ensures !Finishes(x, answers, inTime, resumed)
  {
    forall p | 0 <= p < 8 ensures !FinishesAt(x, answers, inTime, resumed, p) {
      if p < n {
        assert StillWaiting(x, answers(RequestOf(p, resumed)));
      }
    }
  }

  lemma OneMoreFiled(x: Xml, query: Digest, answers: nat -> Answer, before: Directory, after: Directory, resumed: bool)
    requires AllFiled(x, query, answers, before, resumed) && (resumed || before.receipts != [])
    requires forall name :: name in before.raws ==> name.index <= |before.receipts|
    requires var n := |before.receipts| + 1;
             var a, name := answers(n), FileName(n, GetStatement);
             && a.Answer? && a.status == 200 && x.parse(a.raw).Some?
             && after == before.(raws := before.raws[name := a.raw],
                                 receipts := before.receipts + [(name, ReceiptFor(x, query, a, name))])
    ensures AllFiled(x, query, answers, after, resumed)
  {
    forall i | 1 <= i <= |after.receipts| ensures Filed(x, query, answers(i), after, i, resumed) {
      if i <= |before.receipts| {
        assert Filed(x, query, answers(i), before, i, resumed);
      }
    }
  }

  // ---------------------------------------------------------------- the reader

  /** Receipt i is where its number says, and its body is intact. */
  predicate ReceiptFits(x: Xml, d: Directory, i: nat)
    requires i < |d.receipts|
  {
    var (name, r) := d.receipts[i];
    && r.rawFile == FileName(i + 1, r.operation) && name == r.rawFile && r.status == 200
    && r.rawFile in d.raws && x.digest(d.raws[r.rawFile]) == r.rawHash
  }

  /** It was received in order, before the cutoff, for the same query. */
  predicate ClockFits(d: Directory, i: nat, asOf: Time)
    requires i < |d.receipts|
  {
    var r := d.receipts[i].1;
    && r.startedAt <= r.availableAt <= asOf
    && (i > 0 ==> d.receipts[i - 1].1.availableAt <= r.startedAt && d.receipts[i - 1].1.queryHash == r.queryHash)
  }

  predicate IsResumed(d: Directory) {
    forall i :: 0 <= i < |d.receipts| ==> d.receipts[i].1.operation == GetStatement
  }

  predicate IsFresh(d: Directory) {
    && d.receipts != [] && d.receipts[0].1.operation == SendRequest
    && forall i :: 0 < i < |d.receipts| ==> d.receipts[i].1.operation == GetStatement
  }

  /** The acknowledgement a resumed capture inherits. */
  predicate SourceFits(x: Xml, here: nat, d: Directory, base: map<nat, Directory>)
    requires d.receipts != []
  {
    && d.resume.Some? && d.resume.value.source != here && d.resume.value.source in base
    && var s := base[d.resume.value.source];
    && ACK in s.raws && ReceiptOf(s, ACK).Some?
    && var r, digest := ReceiptOf(s, ACK).value, x.digest(s.raws[ACK]);
    && d.resume.value.acknowledgement == digest && r.rawHash == digest && r.queryHash == d.receipts[0].1.queryHash
    && r.operation == SendRequest && r.rawFile == ACK && r.status == 200
    && r.startedAt <= r.availableAt <= d.receipts[0].1.startedAt
  }

  predicate AckReads(x: Xml, raw: Raw) {
    x.within(raw) && x.parse(raw).Some? && Acknowledges(x.parse(raw).value)
  }

  predicate AckFits(x: Xml, here: nat, d: Directory, base: map<nat, Directory>)
    requires d.receipts != []
  {
    if IsResumed(d) then SourceFits(x, here, d, base) && AckReads(x, base[d.resume.value.source].raws[ACK])
    else IsFresh(d) && ACK in d.raws && AckReads(x, d.raws[ACK])
  }

  predicate PendingFits(x: Xml, d: Directory, i: nat)
    requires i < |d.receipts|
  {
    var (name, r) := d.receipts[i];
    && name in d.raws
    && var raw := d.raws[name];
    r.operation == GetStatement ==>
      && x.within(raw) && x.parse(raw).Some?
      && x.parse(raw).value.root.tag == FlexStatementResponse && x.parse(raw).value.code.NotReady?
  }

  predicate ReportFits(x: Xml, d: Directory)
    requires d.receipts != [] && d.manifest.Some?
  {
    var name := d.receipts[|d.receipts| - 1].0;
    && name == d.manifest.value.report && name in d.raws
    && var raw := d.raws[name];
    && x.within(raw) && x.parse(raw).Some? && Fits(x.parse(raw).value.root, None)
    && d.manifest.value.statements == |x.parse(raw).value.root.children[0].children|
  }

  predicate ManifestFits(here: nat, d: Directory) {
    && d.manifest.Some? && d.manifest.value.report.operation == GetStatement
    && d.manifest.value.directory == here && d.manifest.value.requests == |d.receipts| && 1 <= |d.receipts| <= 9
  }

  ghost predicate Readable(x: Xml, here: nat, d: Directory, base: map<nat, Directory>, asOf: Time) {
    && ManifestFits(here, d)
    && (forall i :: 0 <= i < |d.receipts| ==> ReceiptFits(x, d, i) && ClockFits(d, i, asOf))
    && AckFits(x, here, d, base)
    && (forall i :: 0 <= i < |d.receipts| - 1 ==> PendingFits(x, d, i))
    && ReportFits(x, d)
  }

  /** The reader accepts exactly the readable directories and returns their report. */
  method Read(x: Xml, here: nat, d: Directory, base: map<nat, Directory>, asOf: Time)
    returns (r: Option<seq<Statement>>)
    ensures r.Some? <==> Readable(x, here, d, base, asOf)
    ensures r.Some? ==> Keeps(r.value, x.parse(d.raws[d.manifest.value.report]).value.root, None)
  {
    if !ManifestFits(here, d) {
      return None;
    }
    var previous: Option<Receipt> := None;
    for i := 0 to |d.receipts|
      invariant forall j :: 0 <= j < i ==> ReceiptFits(x, d, j) && ClockFits(d, j, asOf)
      invariant previous == if i == 0 then None else Some(d.receipts[i - 1].1)
    {
      var (name, receipt) := d.receipts[i];
      if receipt.rawFile != FileName(i + 1, receipt.operation) || name != receipt.rawFile || receipt.status != 200 {
        assert !ReceiptFits(x, d, i);
        return None;
      }
      if receipt.rawFile !in d.raws || x.digest(d.raws[receipt.rawFile]) != receipt.rawHash {
        assert !ReceiptFits(x, d, i);
        return None;
      }
      if receipt.startedAt > receipt.availableAt || receipt.availableAt > asOf
         || (previous.Some?
             && (receipt.startedAt < previous.value.availableAt || receipt.queryHash != previous.value.queryHash)) {
        assert !ClockFits(d, i, asOf);
        return None;
      }
      previous := Some(receipt);
    }
    if !AckFits(x, here, d, base) {
      return None;
    }
    var name := d.manifest.value.report;
    if name != d.receipts[|d.receipts| - 1].0 {
      return None;
    }
    for i := 0 to |d.receipts| - 1
      invariant forall j :: 0 <= j < i ==> PendingFits(x, d, j)
    {
      assert ReceiptFits(x, d, i);
      if !PendingFits(x, d, i) {
        return None;
      }
    }
    assert ReceiptFits(x, d, |d.receipts| - 1);
    var raw := d.raws[name];
    if !x.within(raw) || x.parse(raw).None? {
      return None;
    }
    r := ParseReport(x.parse(raw).value.root, None);
    if r.Some? && d.manifest.value.statements != |r.value| {
      return None;
    }
  }

  // ---------------------------------------------------------------- writer and reader agree

  /** The clock never runs back, and the cutoff is not before the last answer. */
  ghost predicate OnTime(answers: nat -> Answer, i: nat, n: nat, asOf: Time) {
    && answers(i).Answer? && answers(i).startedAt <= answers(i).availableAt <= asOf
    && (i < n ==> answers(i + 1).Answer? && answers(i).availableAt <= answers(i + 1).startedAt)
  }

  ghost predicate TaggedResponse(x: Xml, a: Answer) {
    a.Answer? && x.within(a.raw) && x.parse(a.raw).Some? && x.parse(a.raw).value.root.tag == FlexStatementResponse
  }

  /** What the reader demands of the broker and the clock beyond what the writer checks. */
  ghost predicate WellServed(x: Xml, answers: nat -> Answer, here: nat, n: nat, source: Option<Candidate>,
                             base: map<nat, Directory>, asOf: Time) {
    && (forall i :: 1 <= i <= n ==> OnTime(answers, i, n, asOf))
    && (forall i :: (if source.Some? then 1 else 2) <= i < n ==> TaggedResponse(x, answers(i)))
    && (if source.None? then answers(1).Answer? && x.within(answers(1).raw)
        else && source.value.name != here && source.value.name in base && ACK in base[source.value.name].raws
             && answers(1).Answer? && source.value.available <= answers(1).startedAt
             && x.within(base[source.value.name].raws[ACK]))
    && answers(n).Answer? && x.within(answers(n).raw)
    && x.parse(answers(n).raw).Some? && Fits(x.parse(answers(n).raw).value.root, None)
  }

  /** A source the writer may resume: one of its siblings' generations, for the same query. */
  ghost predicate GenuineSource(x: Xml, query: Digest, source: Option<Candidate>, base: map<nat, Directory>) {
    source.Some? ==>
      && source.value.name in base && Generation(x, base[source.value.name])
      && source.value == CandidateOf(x, source.value.name, base[source.value.name]) && source.value.query == query
  }

  lemma CountAgrees(root: Element)
    requires Fits(root, None)
    ensures CountStatements(root.children) == |root.children[0].children|
  {
    var container := root.children[0];
    assert root.children[..0] == [];
    forall i | 0 <= i < |container.children| ensures container.children[i].tag == FlexStatement {
      assert StatementFits(container.children[i], None);
    }
    AllOfOneTag(container.children, FlexStatement);
  }

  lemma FiledFits(x: Xml, query: Digest, answers: nat -> Answer, d: Directory, resumed: bool, i: nat)
    requires AllFiled(x, query, answers, d, resumed) && i < |d.receipts|
    ensures ReceiptFits(x, d, i)
    ensures d.receipts[i].1.operation == Name(i + 1, resumed).operation && d.receipts[i].1.queryHash == query
    ensures d.receipts[i].0 == Name(i + 1, resumed) && d.receipts[i].0 in d.raws
    ensures answers(i + 1).Answer? && d.raws[d.receipts[i].0] == answers(i + 1).raw
    ensures d.receipts[i].1.startedAt == answers(i + 1).startedAt
            && d.receipts[i].1.availableAt == answers(i + 1).availableAt
  {
    assert Filed(x, query, answers(i + 1), d, i + 1, resumed);
  }

  lemma ClocksAgree(x: Xml, query: Digest, answers: nat -> Answer, d: Directory, resumed: bool, asOf: Time)
    requires AllFiled(x, query, answers, d, resumed)
    ensures (forall i :: 0 <= i < |d.receipts| ==> ClockFits(d, i, asOf))
       <==> forall i :: 1 <= i <= |d.receipts| ==> OnTime(answers, i, |d.receipts|, asOf)
  {
    var n := |d.receipts|;
    forall i | 0 <= i < n
      ensures d.receipts[i].1.startedAt == answers(i + 1).startedAt
              && d.receipts[i].1.availableAt == answers(i + 1).availableAt
      ensures answers(i + 1).Answer? && d.receipts[i].1.queryHash == query
    {
      FiledFits(x, query, answers, d, resumed, i);
    }
    if forall i :: 0 <= i < n ==> ClockFits(d, i, asOf) {
      forall i | 1 <= i <= n ensures OnTime(answers, i, n, asOf) {
        assert ClockFits(d, i - 1, asOf);
        assert i < n ==> ClockFits(d, i, asOf);
      }
    }
    if forall i :: 1 <= i <= n ==> OnTime(answers, i, n, asOf) {
      forall i | 0 <= i < n ensures ClockFits(d, i, asOf) {
        assert OnTime(answers, i + 1, n, asOf);
        assert i > 0 ==> OnTime(answers, i, n, asOf);
      }
    }
  }

  lemma PendingAgrees(x: Xml, query: Digest, answers: nat -> Answer, here: nat, d: Directory, source: Option<Candidate>)
    requires Finished(x, query, answers, here, d, source)
    ensures (forall i :: 0 <= i < |d.receipts| - 1 ==> PendingFits(x, d, i))
       <==> forall i :: (if source.Some? then 1 else 2) <= i < |d.receipts| ==> TaggedResponse(x, answers(i))
  {
    var n, first := |d.receipts|, if source.Some? then 1 else 2;
    forall i | 0 <= i < n - 1 ensures PendingFits(x, d, i) <==> (first <= i + 1 ==> TaggedResponse(x, answers(i + 1))) {
      FiledFits(x, query, answers, d, source.Some?, i);
      if first <= i + 1 {
        assert Waits(x, answers(i + 1));
      }
    }
    if forall i :: 0 <= i < n - 1 ==> PendingFits(x, d, i) {
      forall i | first <= i < n ensures TaggedResponse(x, answers(i)) {
        assert PendingFits(x, d, i - 1);
      }
    }
  }

  lemma AckAgrees(x: Xml, query: Digest, answers: nat -> Answer, here: nat, d: Directory, source: Option<Candidate>,
                  base: map<nat, Directory>)
    requires Finished(x, query, answers, here, d, source) && GenuineSource(x, query, source, base)
    ensures AckFits(x, here, d, base) <==>
              if source.None? then x.within(answers(1).raw)
              else && source.value.name != here && source.value.available <= answers(1).startedAt
                   && x.within(base[source.value.name].raws[ACK])
  {
    var n, resumed := |d.receipts|, source.Some?;
    forall i | 0 <= i < n ensures d.receipts[i].1.operation == Name(i + 1, resumed).operation {
      FiledFits(x, query, answers, d, resumed, i);
    }
    FiledFits(x, query, answers, d, resumed, 0);
    assert d.receipts[0].1.operation == Name(1, resumed).operation;
    if resumed {
      assert IsResumed(d);
    } else {
      assert !IsResumed(d) && IsFresh(d);
    }
  }

  /**
   A finished capture is readable exactly when the clock did not run back, the
   waiting answers were tagged as such, bodies are within limits and the report
   parses; for a resumed one, also that its source is another, earlier generation.
  */
  lemma WriterAndReaderAgree(x: Xml, query: Digest, answers: nat -> Answer, here: nat, d: Directory,
                             source: Option<Candidate>, base: map<nat, Directory>, asOf: Time)
    requires Finished(x, query, answers, here, d, source) && GenuineSource(x, query, source, base)
    ensures Readable(x, here, d, base, asOf) <==> WellServed(x, answers, here, |d.receipts|, source, base, asOf)
  {
    var n, resumed := |d.receipts|, source.Some?;
    forall i | 0 <= i < n ensures ReceiptFits(x, d, i) {
      FiledFits(x, query, answers, d, resumed, i);
    }
    ClocksAgree(x, query, answers, d, resumed, asOf);
    PendingAgrees(x, query, answers, here, d, source);
    AckAgrees(x, query, answers, here, d, source, base);
    ReportAgrees(x, query, answers, here, d, source);
    AckServed(x, query, answers, here, d, source, base);
    hide AckFits, ReceiptFits, ClockFits, OnTime, TaggedResponse, PendingFits, ReportFits, Fits, Finished, Generation,
         GenuineSource;
  }

  lemma ReportAgrees(x: Xml, query: Digest, answers: nat -> Answer, here: nat, d: Directory, source: Option<Candidate>)
    requires Finished(x, query, answers, here, d, source)
    ensures ManifestFits(here, d)
    ensures answers(|d.receipts|).Answer? && x.parse(answers(|d.receipts|).raw).Some?
    ensures var raw := answers(|d.receipts|).raw;
            ReportFits(x, d) <==> x.within(raw) && Fits(x.parse(raw).value.root, None)
  {
    FiledFits(x, query, answers, d, source.Some?, |d.receipts| - 1);
    var report := x.parse(answers(|d.receipts|).raw).value;
    if Fits(report.root, None) {
      CountAgrees(report.root);
    }
    hide Fits, AllFiled;
  }

  lemma AckServed(x: Xml, query: Digest, answers: nat -> Answer, here: nat, d: Directory, source: Option<Candidate>,
                  base: map<nat, Directory>)
    requires Finished(x, query, answers, here, d, source) && GenuineSource(x, query, source, base)
    ensures answers(1).Answer?
    ensures source.Some? ==> source.value.name in base && ACK in base[source.value.name].raws
  {
    FiledFits(x, query, answers, d, source.Some?, 0);
  }

  // ---------------------------------------------------------------- the reader accepts captures only

  /** A report that parses has no room for an error code: its root holds the statements alone. */
  ghost predicate Coherent(x: Xml) {
    forall raw :: x.parse(raw).Some? && Fits(x.parse(raw).value.root, None) ==> x.parse(raw).value.code == NoCode
  }

  /** The answers a directory says it received. */
  ghost function AnswersIn(d: Directory): nat -> Answer {
    (i: nat) =>
      if 1 <= i <= |d.receipts| && d.receipts[i - 1].0 in d.raws then
        var (name, r) := d.receipts[i - 1];
        Answer(r.startedAt, r.availableAt, r.status, d.raws[name])
      else Failed
  }

  /** A resumed directory names a generation among its siblings. */
  ghost predicate ResumesGeneration(x: Xml, d: Directory, base: map<nat, Directory>) {
    IsResumed(d) ==>
      d.resume.Some? && d.resume.value.source in base && Generation(x, base[d.resume.value.source])
  }

  /** The generation a directory says it resumes. */
  ghost function SourceIn(x: Xml, d: Directory, base: map<nat, Directory>): Option<Candidate>
    requires ResumesGeneration(x, d, base)
  {
    if IsResumed(d) then Some(CandidateOf(x, d.resume.value.source, base[d.resume.value.source])) else None
  }

  /** A fresh capture has no resume record; the reader does not look for one. */
  ghost function Seen(d: Directory): Directory {
    d.(resume := if IsResumed(d) then d.resume else None)
  }

  lemma SourceIsGenuine(x: Xml, here: nat, d: Directory, base: map<nat, Directory>, asOf: Time)
    requires Readable(x, here, d, base, asOf) && IsResumed(d)
    ensures d.resume.Some? && d.resume.value.source in base && Generation(x, base[d.resume.value.source])
    ensures var c := CandidateOf(x, d.resume.value.source, base[d.resume.value.source]);
            && c.query == d.receipts[0].1.queryHash && d.resume.value == Resume(c.name, c.hash)
            && c.name != here && c.available <= d.receipts[0].1.startedAt
            && x.within(base[c.name].raws[ACK])
  {
    hide ReceiptFits, ClockFits, PendingFits, ReportFits;
  }

  lemma {:induction false} OneQuery(d: Directory, asOf: Time, i: nat)
    requires i < |d.receipts| && forall j :: 0 <= j < |d.receipts| ==> ClockFits(d, j, asOf)
    ensures d.receipts[i].1.queryHash == d.receipts[0].1.queryHash
  {
    if i > 0 {
      OneQuery(d, asOf, i - 1);
      assert ClockFits(d, i, asOf);
    }
  }

  lemma OperationIs(x: Xml, here: nat, d: Directory, base: map<nat, Directory>, asOf: Time, i: nat)
    requires Readable(x, here, d, base, asOf) && i < |d.receipts|
    ensures d.receipts[i].1.operation == Name(i + 1, IsResumed(d)).operation
    ensures d.receipts[i].0 == Name(i + 1, IsResumed(d)) && d.receipts[i].0 in d.raws
  {
    assert ReceiptFits(x, d, i);
  }

  /** The receipts of a readable directory are filed answers. */
  lemma ReadableIsFiled(x: Xml, here: nat, d: Directory, base: map<nat, Directory>, asOf: Time)
    requires Readable(x, here, d, base, asOf)
    ensures AllFiled(x, d.receipts[0].1.queryHash, AnswersIn(d), Seen(d), IsResumed(d))
  {
    var answers, n := AnswersIn(d), |d.receipts|;
    forall i | 1 <= i <= n
      ensures Filed(x, d.receipts[0].1.queryHash, answers(i), Seen(d), i, IsResumed(d))
    {
      OperationIs(x, here, d, base, asOf, i - 1);
      OneQuery(d, asOf, i - 1);
      assert ReceiptFits(x, d, i - 1);
      if i < n {
        assert PendingFits(x, d, i - 1);
      }
      hide ClockFits, PendingFits, Fits;
    }
  }

  lemma ReadableIsFinished(x: Xml, here: nat, d: Directory, base: map<nat, Directory>, asOf: Time)
    requires Coherent(x) && Readable(x, here, d, base, asOf)
    requires ResumesGeneration(x, d, base)
    requires var source := SourceIn(x, d, base);
             source.Some? ==> d.resume == Some(Resume(source.value.name, source.value.hash))
    ensures Finished(x, d.receipts[0].1.queryHash, AnswersIn(d), here, Seen(d), SourceIn(x, d, base))
  {
    var answers, n, source := AnswersIn(d), |d.receipts|, SourceIn(x, d, base);
    ReadableIsFiled(x, here, d, base, asOf);
    OperationIs(x, here, d, base, asOf, n - 1);
    var report := x.parse(d.raws[d.receipts[n - 1].0]).value;
    CountAgrees(report.root);
    forall i | (if source.Some? then 1 else 2) <= i < n ensures Waits(x, answers(i)) {
      OperationIs(x, here, d, base, asOf, i - 1);
      assert PendingFits(x, d, i - 1);
    }
    OperationIs(x, here, d, base, asOf, 0);
    assert ReceiptFits(x, d, 0);
    hide ClockFits, AllFiled, CountStatements;
  }

  lemma ReadableIsServed(x: Xml, here: nat, d: Directory, base: map<nat, Directory>, asOf: Time)
    requires d.receipts != [] && Readable(x, here, d, base, asOf)
    requires ResumesGeneration(x, d, base)
    requires Finished(x, d.receipts[0].1.queryHash, AnswersIn(d), here, Seen(d), SourceIn(x, d, base))
    requires GenuineSource(x, d.receipts[0].1.queryHash, SourceIn(x, d, base), base)
    requires Readable(x, here, Seen(d), base, asOf)
    ensures WellServed(x, AnswersIn(d), here, |d.receipts|, SourceIn(x, d, base), base, asOf)
  {
    hide Readable, Finished, WellServed, GenuineSource;
    WriterAndReaderAgree(x, d.receipts[0].1.queryHash, AnswersIn(d), here, Seen(d), SourceIn(x, d, base), base, asOf);
  }

  /** What the reader looks at does not include a resume record beside a fresh capture. */
  lemma SeenReadsAlike(x: Xml, here: nat, d: Directory, base: map<nat, Directory>, asOf: Time)
    ensures Readable(x, here, Seen(d), base, asOf) <==> Readable(x, here, d, base, asOf)
  {
    var e := Seen(d);
    assert IsResumed(e) <==> IsResumed(d);
    forall i | 0 <= i < |d.receipts|
      ensures ReceiptFits(x, e, i) == ReceiptFits(x, d, i) && ClockFits(e, i, asOf) == ClockFits(d, i, asOf)
      ensures PendingFits(x, e, i) == PendingFits(x, d, i)
    {
    }
    assert |d.receipts| > 0 ==> AckFits(x, here, e, base) == AckFits(x, here, d, base) by {
      hide AckReads;
    }
    assert |d.receipts| > 0 && d.manifest.Some? ==> ReportFits(x, e) == ReportFits(x, d);
    hide ReceiptFits, ClockFits, PendingFits, AckFits, ReportFits, IsResumed;
  }

  /** Some writer, some answers and some generation leave this directory, served as the reader demands. */
  ghost predicate Written(x: Xml, here: nat, d: Directory, base: map<nat, Directory>, asOf: Time) {
    exists query, answers, source ::
      && Finished(x, query, answers, here, d, source) && GenuineSource(x, query, source, base)
      && WellServed(x, answers, here, |d.receipts|, source, base, asOf)
  }

  /**
   The reader accepts exactly what a finished capture leaves: whatever it accepts could have been
   written by polling a broker that answered in order, and every such capture is accepted.
  */
  lemma ReaderAcceptsExactlyCaptures(x: Xml, here: nat, d: Directory, base: map<nat, Directory>, asOf: Time)
    requires Coherent(x)
    ensures Readable(x, here, d, base, asOf) <==> Written(x, here, Seen(d), base, asOf)
  {
    hide Readable, Finished, WellServed, GenuineSource, Seen, IsResumed, Generation;
    SeenReadsAlike(x, here, d, base, asOf);
    if Readable(x, here, d, base, asOf) {
      ReadableIsWritten(x, here, d, base, asOf);
    }
    if Written(x, here, Seen(d), base, asOf) {
      var query, answers, source :|
        && Finished(x, query, answers, here, Seen(d), source) && GenuineSource(x, query, source, base)
        && WellServed(x, answers, here, |Seen(d).receipts|, source, base, asOf);
      WriterAndReaderAgree(x, query, answers, here, Seen(d), source, base, asOf);
    }
  }

  lemma ReadableIsWritten(x: Xml, here: nat, d: Directory, base: map<nat, Directory>, asOf: Time)
    requires Coherent(x) && Readable(x, here, d, base, asOf)
    ensures Written(x, here, Seen(d), base, asOf)
  {
    if IsResumed(d) {
      SourceIsGenuine(x, here, d, base, asOf);
    }
    hide Readable, Finished, WellServed, Generation;
    var query, answers, source := d.receipts[0].1.queryHash, AnswersIn(d), SourceIn(x, d, base);
    ReadableIsFinished(x, here, d, base, asOf);
    SeenReadsAlike(x, here, d, base, asOf);
    ReadableIsServed(x, here, d, base, asOf);
    assert |Seen(d).receipts| == |d.receipts|;
  }

  // ---------------------------------------------------------------- counting statements

  /** The FlexStatement elements two steps below a root, by child numbers. */
  ghost function StatementPlaces(children: seq<Element>, n: nat): set<(nat, nat)>
    requires n <= |children|
  {
    set i: nat, j: nat | i < n && children[i].tag == FlexStatements && j < |children[i].children|
               && children[i].children[j].tag == FlexStatement :: (i, j)
  }

  /** What the writer counts. */
  lemma {:induction false} CountsEveryStatement(children: seq<Element>, n: nat)
    requires n <= |children|
    ensures CountStatements(children[..n]) == |StatementPlaces(children, n)|
  {
    if n == 0 {
      assert StatementPlaces(children, 0) == {};
    } else {
      CountsEveryStatement(children, n - 1);
      assert children[..n][..n - 1] == children[..n - 1];
      var c := children[n - 1];
      var found: set<nat> := if c.tag == FlexStatements then Tagged(c.children, FlexStatement, |c.children|) else {};
      CountIsSize(c.children, FlexStatement, |c.children|);
      assert c.children[..|c.children|] == c.children;
      SameSize(found, n - 1);
      PlacesGrow(children, n, found);
    }
  }

  ghost function Row(found: set<nat>, i: nat): set<(nat, nat)> {
    set j | j in found :: (i, j)
  }

  lemma PlacesGrow(children: seq<Element>, n: nat, found: set<nat>)
    requires 0 < n <= |children|
    requires var c := children[n - 1];
             found == if c.tag == FlexStatements then Tagged(c.children, FlexStatement, |c.children|) else {}
    ensures |StatementPlaces(children, n)| == |StatementPlaces(children, n - 1)| + |Row(found, n - 1)|
  {
    var before, row := StatementPlaces(children, n - 1), Row(found, n - 1);
    forall p ensures p in StatementPlaces(children, n) <==> p in before + row {
      assert p in row <==> p.0 == n - 1 && p.1 in found;
    }
    assert StatementPlaces(children, n) == before + row;
    assert before !! row;
  }

  lemma {:induction false} SameSize(found: set<nat>, i: nat)
    ensures |Row(found, i)| == |found|
    decreases |found|
  {
    if found != {} {
      var k :| k in found;
      SameSize(found - {k}, i);
      assert Row(found, i) == Row(found - {k}, i) + {(i, k)};
    }
  }
}
