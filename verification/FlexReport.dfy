/**
 Parsing a Flex activity report: the tree it accepts, the rows it keeps and the
 positional pointer each row is given.

 Of an element's attributes only what decides acceptance is modelled.
*/
module FlexReport {
  import opened Basics

  datatype Tag = FlexQueryResponse | FlexStatements | FlexStatement | FlexStatementResponse | Named(name: string)

  datatype Account = Absent | Blank | Account(name: string)

  datatype Count = Unstated | Stated(n: nat) | Malformed

  datatype Attributes = Attributes(account: Account, fromDay: Option<int>, toDay: Option<int>, count: Count,
                                   summary: bool, numeric: bool, text: string)

  datatype Element = Element(tag: Tag, attributes: Attributes, children: seq<Element>)

  /** /FlexQueryResponse/FlexStatements/FlexStatement[statement]/section/row[position] */
  datatype Pointer = Pointer(statement: nat, section: Tag, row: Tag, position: nat)

  datatype FlexRow = FlexRow(pointer: Pointer, attributes: Attributes)

  datatype Section = Section(name: Tag, rows: seq<FlexRow>)

  datatype Statement = Statement(account: string, started: int, ended: int, sections: seq<Section>)

  // ---------------------------------------------------------------- what is accepted

  predicate IsDash(a: Account) {
    a == Account(['-'])
  }

  /** A record without children, of the statement's account, with well-formed numbers. */
  predicate RowFits(row: Element, account: string) {
    && row.children == []
    && (row.attributes.account.Account? ==>
          row.attributes.account.name == account || (row.attributes.summary && IsDash(row.attributes.account)))
    && row.attributes.numeric
  }

  predicate SectionFits(section: Element, account: string) {
    forall k :: 0 <= k < |section.children| ==> RowFits(section.children[k], account)
  }

  predicate DistinctTags(children: seq<Element>) {
    forall i, j :: 0 <= i < j < |children| ==> children[i].tag != children[j].tag
  }

  predicate StatementFits(s: Element, expected: Option<string>) {
    && s.tag == FlexStatement && s.attributes.account.Account? && s.attributes.account.name != []
    && (expected.Some? ==> s.attributes.account.name == expected.value)
    && s.attributes.fromDay.Some? && s.attributes.toDay.Some? && s.attributes.fromDay.value <= s.attributes.toDay.value
    && DistinctTags(s.children)
    && forall j :: 0 <= j < |s.children| ==> SectionFits(s.children[j], s.attributes.account.name)
  }

  predicate ContainerFits(root: Element) {
    && root.tag == FlexQueryResponse
    && |root.children| == 1 && root.children[0].tag == FlexStatements && root.children[0].children != []
    && match root.children[0].attributes.count
       case Unstated => true
       case Stated(n) => n == |root.children[0].children|
       case Malformed => false
  }

  predicate Fits(root: Element, expected: Option<string>) {
    ContainerFits(root)
      && forall i :: 0 <= i < |root.children[0].children| ==> StatementFits(root.children[0].children[i], expected)
  }

  // ---------------------------------------------------------------- what is kept

  function CountTag(children: seq<Element>, tag: Tag): nat {
    if children == [] then 0
    else CountTag(children[..|children| - 1], tag) + if children[|children| - 1].tag == tag then 1 else 0
  }

  /** The position of child k among the children of its tag. */
  function Position(children: seq<Element>, k: nat): nat
    requires k < |children|
  {
    CountTag(children[..k + 1], children[k].tag)
  }

  function RowOf(statement: nat, section: Element, k: nat): FlexRow
    requires k < |section.children|
  {
    FlexRow(Pointer(statement, section.tag, section.children[k].tag, Position(section.children, k)),
            section.children[k].attributes)
  }

  function SectionOf(statement: nat, section: Element): Section {
    Section(section.tag,
            seq(|section.children|, k requires 0 <= k < |section.children| => RowOf(statement, section, k)))
  }

  function StatementOf(i: nat, s: Element): Statement
    requires s.attributes.account.Account? && s.attributes.fromDay.Some? && s.attributes.toDay.Some?
  {
    Statement(s.attributes.account.name, s.attributes.fromDay.value, s.attributes.toDay.value,
              seq(|s.children|, j requires 0 <= j < |s.children| => SectionOf(i, s.children[j])))
  }

  ghost predicate Keeps(statements: seq<Statement>, root: Element, expected: Option<string>) {
    && Fits(root, expected)
    && |statements| == |root.children[0].children|
    && forall i :: 0 <= i < |statements| ==> statements[i] == StatementOf(i + 1, root.children[0].children[i])
  }

  lemma CountNothing()
    ensures forall tag :: CountTag([], tag) == 0
  {
  }

  lemma CountOneMore(children: seq<Element>, k: nat)
    requires k < |children|
    ensures forall tag ::
              CountTag(children[..k + 1], tag) == CountTag(children[..k], tag) + if children[k].tag == tag then 1 else 0
  {
    assert children[..k + 1][..k] == children[..k];
  }

  /** The rows of one section, with a running counter per tag. */
  method ParseSection(statement: nat, section: Element, account: string) returns (r: Option<Section>)
    ensures r.Some? <==> SectionFits(section, account)
    ensures r.Some? ==> r.value == SectionOf(statement, section)
  {
    hide RowFits, CountTag;
    var rows: seq<FlexRow> := [];
    var positions: map<Tag, nat> := map[];
    CountNothing();
    for k := 0 to |section.children|
      invariant forall j :: 0 <= j < k ==> RowFits(section.children[j], account)
      invariant |rows| == k && forall j :: 0 <= j < k ==> rows[j] == RowOf(statement, section, j)
      invariant forall tag :: CountTag(section.children[..k], tag) == if tag in positions then positions[tag] else 0
    {
      var row := section.children[k];
      CountOneMore(section.children, k);
      positions := positions[row.tag := (if row.tag in positions then positions[row.tag] else 0) + 1];
      if !RowFits(row, account) {
        return None;
      }
      rows := rows + [FlexRow(Pointer(statement, section.tag, row.tag, positions[row.tag]), row.attributes)];
    }
    assert section.children[..|section.children|] == section.children;
    return Some(Section(section.tag, rows));
  }

  method ParseStatement(i: nat, s: Element, expected: Option<string>) returns (r: Option<Statement>)
    ensures r.Some? <==> StatementFits(s, expected)
    ensures r.Some? ==> r.value == StatementOf(i, s)
  {
    if s.tag != FlexStatement || !s.attributes.account.Account? || s.attributes.account.name == [] {
      return None;
    }
    var account := s.attributes.account.name;
    if expected.Some? && account != expected.value {
      return None;
    }
    if s.attributes.fromDay.None? || s.attributes.toDay.None? || s.attributes.fromDay.value > s.attributes.toDay.value {
      return None;
    }
    var sections: seq<Section>, names: set<Tag> := [], {};
    for j := 0 to |s.children|
      invariant DistinctTags(s.children[..j])
      invariant forall tag :: tag in names <==> exists k :: 0 <= k < j && s.children[k].tag == tag
      invariant forall k :: 0 <= k < j ==> SectionFits(s.children[k], account)
      invariant |sections| == j && forall k :: 0 <= k < j ==> sections[k] == SectionOf(i, s.children[k])
    {
      if s.children[j].tag in names {
        var k :| 0 <= k < j && s.children[k].tag == s.children[j].tag;
        assert !DistinctTags(s.children);
        return None;
      }
      names := names + {s.children[j].tag};
      var section := ParseSection(i, s.children[j], account);
      if section.None? {
        return None;
      }
      sections := sections + [section.value];
    }
    assert s.children[..|s.children|] == s.children;
    return Some(Statement(account, s.attributes.fromDay.value, s.attributes.toDay.value, sections));
  }

  /** The parser accepts exactly the fitting trees and keeps every row with its pointer. */
  method ParseReport(root: Element, expected: Option<string>) returns (r: Option<seq<Statement>>)
    ensures r.Some? <==> Fits(root, expected)
    ensures r.Some? ==> Keeps(r.value, root, expected)
  {
    if !ContainerFits(root) {
      return None;
    }
    var elements := root.children[0].children;
    var statements: seq<Statement> := [];
    for i := 0 to |elements|
      invariant forall k :: 0 <= k < i ==> StatementFits(elements[k], expected)
      invariant |statements| == i && forall k :: 0 <= k < i ==> statements[k] == StatementOf(k + 1, elements[k])
    {
      var statement := ParseStatement(i + 1, elements[i], expected);
      if statement.None? {
        return None;
      }
      statements := statements + [statement.value];
    }
    return Some(statements);
  }

  // ---------------------------------------------------------------- what acceptance means

  /** A row belongs to the account of its statement: it names that account or none, or is a summary of all. */
  ghost predicate BelongsTo(row: Element, account: Account) {
    || row.attributes.account in {Absent, Blank, account}
    || (row.attributes.summary && row.attributes.account == Account("-"))
  }

  /** The report is accepted exactly when its one container holds as many statements as it states, and these hold. */
  lemma AcceptsExactly(root: Element, expected: Option<string>)
    ensures Fits(root, expected) <==>
              && root.tag == FlexQueryResponse && |root.children| == 1
              && var container := root.children[0];
              && container.tag == FlexStatements && container.children != []
              && container.attributes.count in {Unstated, Stated(|container.children|)}
              && forall s :: s in container.children ==> IdentityFits(s, expected) && RecordsFit(s)
  {
    if ContainerFits(root) {
      var statements := root.children[0].children;
      forall i | 0 <= i < |statements|
        ensures StatementFits(statements[i], expected) <==>
                IdentityFits(statements[i], expected) && RecordsFit(statements[i])
      {
        StatementFitsExactly(statements[i], expected);
      }
      hide IdentityFits, RecordsFit, StatementFits;
      assert forall i :: 0 <= i < |statements| ==> statements[i] in statements;
    }
  }

  /** A statement names its account, the expected one if there is one, and an interval. */
  ghost predicate IdentityFits(s: Element, expected: Option<string>) {
    && s.tag == FlexStatement
    && (exists name ::
          s.attributes.account == Account(name) && name != "" && (expected == None || expected == Some(name)))
    && exists a, b :: s.attributes.fromDay == Some(a) && s.attributes.toDay == Some(b) && a <= b
  }

  /** No section comes twice, and every record is a leaf with well-formed numbers of the statement's account. */
  ghost predicate RecordsFit(s: Element) {
    && (forall j, l :: 0 <= j < |s.children| && 0 <= l < |s.children| ==>
          (s.children[j].tag == s.children[l].tag <==> j == l))
    && (forall section, row :: section in s.children && row in section.children ==>
          row.children == [] && row.attributes.numeric && BelongsTo(row, s.attributes.account))
  }

  lemma StatementFitsExactly(s: Element, expected: Option<string>)
    ensures StatementFits(s, expected) <==> IdentityFits(s, expected) && RecordsFit(s)
  {
    if s.attributes.account.Account? {
      RecordsFitExactly(s, s.attributes.account.name);
    }
    hide SectionFits, DistinctTags, RecordsFit;
  }

  lemma RecordsFitExactly(s: Element, account: string)
    requires s.attributes.account == Account(account)
    ensures RecordsFit(s) <==>
            DistinctTags(s.children) && forall j :: 0 <= j < |s.children| ==> SectionFits(s.children[j], account)
  {
    forall section ensures SectionFits(section, account) <==>
                           forall row :: row in section.children ==>
                             row.children == [] && row.attributes.numeric && BelongsTo(row, Account(account))
    {
      SectionFitsExactly(section, account);
    }
    hide SectionFits, BelongsTo;
    assert forall j :: 0 <= j < |s.children| ==> s.children[j] in s.children;
  }

  lemma SectionFitsExactly(section: Element, account: string)
    ensures SectionFits(section, account) <==>
            forall row :: row in section.children ==>
              row.children == [] && row.attributes.numeric && BelongsTo(row, Account(account))
  {
    forall row ensures RowFits(row, account) <==>
                       row.children == [] && row.attributes.numeric && BelongsTo(row, Account(account))
    {
      assert IsDash(row.attributes.account) <==> row.attributes.account == Account("-");
    }
    hide RowFits, BelongsTo;
    assert forall k :: 0 <= k < |section.children| ==> section.children[k] in section.children;
  }

  /** What is kept of a statement is what its element says: account, interval, and each record's attributes in place. */
  lemma StatementsAreKept(statements: seq<Statement>, root: Element, expected: Option<string>, i: nat, j: nat, k: nat)
    requires Keeps(statements, root, expected) && i < |statements|
    ensures |statements| == |root.children[0].children|
    ensures var s, kept := root.children[0].children[i], statements[i];
            && s.attributes.account == Account(kept.account)
            && s.attributes.fromDay == Some(kept.started) && s.attributes.toDay == Some(kept.ended)
            && kept.started <= kept.ended && |kept.sections| == |s.children|
            && (j < |s.children| ==>
                  && kept.sections[j].name == s.children[j].tag
                  && |kept.sections[j].rows| == |s.children[j].children|
                  && (k < |s.children[j].children| ==>
                        kept.sections[j].rows[k].attributes == s.children[j].children[k].attributes))
  {
    assert StatementFits(root.children[0].children[i], expected);
  }

  // ---------------------------------------------------------------- resolving a pointer

  /** The children of a tag among the first k. */
  ghost function Tagged(children: seq<Element>, tag: Tag, k: nat): set<nat>
    requires k <= |children|
  {
    set m: nat | m < k && HasTag(children, tag, m)
  }

  ghost predicate HasTag(children: seq<Element>, tag: Tag, m: nat) {
    m < |children| && children[m].tag == tag
  }

  /** Child i is the n-th child of its tag: the predicate of a positional step. */
  ghost predicate IsNth(children: seq<Element>, tag: Tag, n: nat, i: nat) {
    i < |children| && children[i].tag == tag && |Tagged(children, tag, i + 1)| == n
  }

  lemma {:induction false} CountIsSize(children: seq<Element>, tag: Tag, k: nat)
    requires k <= |children|
    ensures CountTag(children[..k], tag) == |Tagged(children, tag, k)|
  {
    if k > 0 {
      CountIsSize(children, tag, k - 1);
      assert children[..k][..k - 1] == children[..k - 1];
      TaggedGrows(children, tag, k);
      hide Tagged;
    } else {
      assert Tagged(children, tag, 0) == {};
    }
  }

  lemma TaggedGrows(children: seq<Element>, tag: Tag, k: nat)
    requires 0 < k <= |children|
    ensures |Tagged(children, tag, k)| == |Tagged(children, tag, k - 1)| + if HasTag(children, tag, k - 1) then 1 else 0
  {
    hide HasTag;
    var more: set<nat> := if HasTag(children, tag, k - 1) then {k - 1} else {};
    assert Tagged(children, tag, k) == Tagged(children, tag, k - 1) + more;
    assert Tagged(children, tag, k - 1) !! more;
  }

  /** A node four steps below the root, by child numbers. */
  datatype Location = Location(container: nat, statement: nat, section: nat, row: nat)

  /** Evaluating the pointer as an absolute path from the root. */
  ghost predicate Resolves(root: Element, p: Pointer, at: Location) {
    && root.tag == FlexQueryResponse
    && at.container < |root.children| && root.children[at.container].tag == FlexStatements
    && IsNth(root.children[at.container].children, FlexStatement, p.statement, at.statement)
    && var s := root.children[at.container].children[at.statement];
    && at.section < |s.children| && s.children[at.section].tag == p.section
    && IsNth(s.children[at.section].children, p.row, p.position, at.row)
  }

  lemma {:induction false} CountGrows(children: seq<Element>, tag: Tag, i: nat, j: nat)
    requires i <= j <= |children|
    ensures CountTag(children[..i], tag) <= CountTag(children[..j], tag)
    decreases j
  {
    if i < j {
      CountGrows(children, tag, i, j - 1);
      assert children[..j][..j - 1] == children[..j - 1];
    }
  }

  lemma CountPasses(children: seq<Element>, k: nat)
    requires k < |children|
    ensures Position(children, k) == CountTag(children[..k], children[k].tag) + 1
  {
    assert children[..k + 1][..k] == children[..k];
  }

  /** A tag and a position pick at most one child. */
  lemma NthIsUnique(children: seq<Element>, tag: Tag, n: nat, i: nat, j: nat)
    requires IsNth(children, tag, n, i) && IsNth(children, tag, n, j)
    ensures i == j
  {
    CountPasses(children, i);
    CountPasses(children, j);
    CountIsSize(children, tag, i + 1);
    CountIsSize(children, tag, j + 1);
    if i < j {
      CountGrows(children, tag, i + 1, j);
    } else if j < i {
      CountGrows(children, tag, j + 1, i);
    }
  }

  lemma {:induction false} AllOfOneTag(children: seq<Element>, tag: Tag)
    requires forall i :: 0 <= i < |children| ==> children[i].tag == tag
    ensures CountTag(children, tag) == |children|
  {
    if children != [] {
      AllOfOneTag(children[..|children| - 1], tag);
    }
  }

  /** Every pointer the parser emits resolves to the row it was emitted for, and to nothing else. */
  lemma PointersResolve(root: Element, expected: Option<string>, i: nat, j: nat, k: nat, at: Location)
    requires Fits(root, expected) && i < |root.children[0].children|
    requires j < |root.children[0].children[i].children| && k < |root.children[0].children[i].children[j].children|
    ensures Resolves(root, RowOf(i + 1, root.children[0].children[i].children[j], k).pointer, at) <==>
            at == Location(0, i, j, k)
  {
    var statements := root.children[0].children;
    var s := statements[i];
    var p := RowOf(i + 1, s.children[j], k).pointer;
    assert StatementFits(s, expected);
    StatementNumber(statements, expected, i);
    CountIsSize(s.children[j].children, p.row, k + 1);
    if Resolves(root, p, at) {
      assert at.container == 0;
      NthIsUnique(statements, FlexStatement, i + 1, at.statement, i);
      assert at.section == j;
      NthIsUnique(s.children[j].children, p.row, p.position, at.row, k);
    }
  }

  lemma StatementNumber(statements: seq<Element>, expected: Option<string>, i: nat)
    requires i < |statements| && forall n :: 0 <= n < |statements| ==> StatementFits(statements[n], expected)
    ensures IsNth(statements, FlexStatement, i + 1, i)
  {
    AllOfOneTag(statements[..i + 1], FlexStatement);
    CountIsSize(statements, FlexStatement, i + 1);
  }

  /** No two rows of a report share a pointer. */
  lemma PointersAreDistinct(root: Element, expected: Option<string>, i: nat, j: nat, k: nat, l: nat, m: nat, n: nat)
    requires Fits(root, expected) && i < |root.children[0].children| && l < |root.children[0].children|
    requires j < |root.children[0].children[i].children| && k < |root.children[0].children[i].children[j].children|
    requires m < |root.children[0].children[l].children| && n < |root.children[0].children[l].children[m].children|
    requires RowOf(i + 1, root.children[0].children[i].children[j], k).pointer
          == RowOf(l + 1, root.children[0].children[l].children[m], n).pointer
    ensures i == l && j == m && k == n
  {
    PointersResolve(root, expected, i, j, k, Location(0, i, j, k));
    PointersResolve(root, expected, l, m, n, Location(0, i, j, k));
  }

  // ---------------------------------------------------------------- the pointer as text

  function NameOf(t: Tag): string {
    match t
    case FlexQueryResponse => "FlexQueryResponse"
    case FlexStatements => "FlexStatements"
    case FlexStatement => "FlexStatement"
    case FlexStatementResponse => "FlexStatementResponse"
    case Named(name) => name
  }

  /** A tag name that is one step of a path: no namespace in braces, no separator. A reserved name is its own
   * constructor. */
  predicate Plain(t: Tag) {
    && '/' !in NameOf(t) && '[' !in NameOf(t) && '{' !in NameOf(t)
    && (t.Named? ==> t.name != NameOf(FlexQueryResponse) && t.name != NameOf(FlexStatements)
                     && t.name != NameOf(FlexStatement) && t.name != NameOf(FlexStatementResponse))
  }

  function Digit(n: nat): char
    requires n < 10
  {
    '0' + n as char
  }

  function Decimal(n: nat): (s: string)
    ensures s != [] && (|s| == 1 <==> n < 10) && forall c :: c in s ==> '0' <= c <= '9'
  {
    if n < 10 then [Digit(n)] else Decimal(n / 10) + [Digit(n % 10)]
  }

  const HEAD: string := "/FlexQueryResponse/FlexStatements/FlexStatement["

  /** The text the parser writes. */
  function Text(p: Pointer): string {
    HEAD + (Decimal(p.statement) + [']']
            + (['/'] + (NameOf(p.section) + ['/'] + (NameOf(p.row) + ['['] + (Decimal(p.position) + [']'])))))
  }

  lemma {:induction false} DecimalIsInjective(m: nat, n: nat)
    requires Decimal(m) == Decimal(n)
    ensures m == n
  {
    if m >= 10 && n >= 10 {
      var x, y := Decimal(m / 10), Decimal(n / 10);
      assert (x + [Digit(m % 10)])[..|x|] == x && (y + [Digit(n % 10)])[..|y|] == y;
      DecimalIsInjective(m / 10, n / 10);
      assert Decimal(m)[|x|] == Digit(m % 10) && Decimal(n)[|y|] == Digit(n % 10);
    } else if m < 10 && n < 10 {
      assert Decimal(m)[0] == Digit(m) && Decimal(n)[0] == Digit(n);
    }
  }

  lemma NoEarlierCut(c: char, x: string, y: string, u: string, v: string)
    requires c !in y && x + [c] + u == y + [c] + v
    ensures |y| <= |x|
  {
    assert (x + [c] + u)[|x|] == c;
    assert forall i :: 0 <= i < |y| ==> (y + [c] + v)[i] in y;
  }

  /** The first separator cuts a text in one way. */
  lemma CutAt(c: char, x: string, y: string, u: string, v: string)
    requires c !in x && c !in y && x + [c] + u == y + [c] + v
    ensures x == y && u == v
  {
    var s, t := x + [c] + u, y + [c] + v;
    NoEarlierCut(c, x, y, u, v);
    NoEarlierCut(c, y, x, v, u);
    assert s[..|x|] == x && t[..|y|] == y && s[|x| + 1..] == u && t[|y| + 1..] == v;
  }

  lemma CutHead(head: string, u: string, v: string)
    requires head + u == head + v
    ensures u == v
  {
    assert (head + u)[|head|..] == u && (head + v)[|head|..] == v;
  }

  lemma NamesAreInjective(s: Tag, t: Tag)
    requires Plain(s) && Plain(t) && NameOf(s) == NameOf(t)
    ensures s == t
  {
    assert |NameOf(FlexQueryResponse)| == 17 && |NameOf(FlexStatements)| == 14;
    assert |NameOf(FlexStatement)| == 13 && |NameOf(FlexStatementResponse)| == 21;
  }

  /** Over plain tag names the text determines the pointer. */
  lemma TextIsInjective(p: Pointer, q: Pointer)
    requires Plain(p.section) && Plain(p.row) && Plain(q.section) && Plain(q.row) && Text(p) == Text(q)
    ensures p == q
  {
    hide NameOf, Decimal;
    var a, b := Decimal(p.position) + [']'], Decimal(q.position) + [']'];
    var u, v := NameOf(p.row) + ['['] + a, NameOf(q.row) + ['['] + b;
    var x, y := NameOf(p.section) + ['/'] + u, NameOf(q.section) + ['/'] + v;
    CutHead(HEAD, Decimal(p.statement) + [']'] + (['/'] + x), Decimal(q.statement) + [']'] + (['/'] + y));
    CutAt(']', Decimal(p.statement), Decimal(q.statement), ['/'] + x, ['/'] + y);
    DecimalIsInjective(p.statement, q.statement);
    CutHead(['/'], x, y);
    CutAt('/', NameOf(p.section), NameOf(q.section), u, v);
    NamesAreInjective(p.section, q.section);
    CutAt('[', NameOf(p.row), NameOf(q.row), a, b);
    NamesAreInjective(p.row, q.row);
    assert a == Decimal(p.position) + [']'] + [] && b == Decimal(q.position) + [']'] + [];
    CutAt(']', Decimal(p.position), Decimal(q.position), [], []);
    DecimalIsInjective(p.position, q.position);
  }

  /** No two rows with plain tag names are printed the same. */
  lemma TextsAreDistinct(root: Element, expected: Option<string>, i: nat, j: nat, k: nat, l: nat, m: nat, n: nat)
    requires Fits(root, expected) && i < |root.children[0].children| && l < |root.children[0].children|
    requires j < |root.children[0].children[i].children| && k < |root.children[0].children[i].children[j].children|
    requires m < |root.children[0].children[l].children| && n < |root.children[0].children[l].children[m].children|
    requires var s, t := root.children[0].children[i].children[j], root.children[0].children[l].children[m];
             && Plain(s.tag) && Plain(t.tag) && Plain(s.children[k].tag) && Plain(t.children[n].tag)
             && Text(RowOf(i + 1, s, k).pointer) == Text(RowOf(l + 1, t, n).pointer)
    ensures i == l && j == m && k == n
  {
    TextIsInjective(RowOf(i + 1, root.children[0].children[i].children[j], k).pointer,
                    RowOf(l + 1, root.children[0].children[l].children[m], n).pointer);
    PointersAreDistinct(root, expected, i, j, k, l, m, n);
  }
}
