/** `scrape_jobs`: the page, once parsed, is a sequence of tables; every data row whose text
    mentions one of the keywords and that carries a link becomes a job posting. */
module Scrape {
  import opened Wrappers
  import opened Text
  import opened Seqs

  /** An `<a>` element inside a row; `href` is its href attribute when it has one. */
  datatype Anchor = Anchor(href: Option<string>)

  /** `td` cells are data cells, `th` cells header cells. */
  datatype CellKind = Data | Header

  /** A cell: its kind, its text nodes in document order (as the parser gives them, unstripped)
      and the anchors inside it in document order. */
  datatype Cell = Cell(kind: CellKind, texts: seq<string>, anchors: seq<Anchor>)

  /** A `<tr>` element and its cells. */
  datatype Row = Row(cells: seq<Cell>)

  /** A `<table>` is its rows; the parsed page is its tables, in document order. */
  type Table = seq<Row>
  type Document = seq<Table>

  /** A job posting: the identifier used for deduplication, the display text and the link. */
  datatype Job = Job(id: string, text: string, url: string)

  /** What the HTTP request gave back: a transport failure (timeout, refused connection, ...)
      or a response with its status code and its parsed body. */
  datatype FetchOutcome = RequestFailed | Response(status: int, document: Document)

  /** The interest terms, all lower case. */
  const KEYWORDS: seq<string> := ["sde-1", "2026 batch", "software engineer i", "graduate engineer trainee", "intern"]

  /** `raise_for_status()` raises for the client and server error codes, 400 to 599. */
  predicate RaisesForStatus(status: int) {
    400 <= status < 600
  }

  /** The text nodes `get_text(strip=True)` keeps: each one stripped, the empty ones dropped,
      the order kept. */
  function KeptStrings(texts: seq<string>): seq<string> {
    if texts == [] then []
    else
      var t := Strip(texts[0]);
      (if t == "" then [] else [t]) + KeptStrings(texts[1..])
  }

  /** At most one string per text node, each non-empty and without whitespace at either end. */
  lemma {:induction false} KeptStringsSpec(texts: seq<string>)
    ensures |KeptStrings(texts)| <= |texts|
    ensures forall s :: s in KeptStrings(texts) ==> s != "" && !IsSpace(s[0]) && !IsSpace(s[|s| - 1])
    decreases |texts|
  {
    if texts != [] {
      StripSpec(texts[0]);
      KeptStringsSpec(texts[1..]);
    }
  }

  /** The strings of a row's text, cell after cell. */
  function RowStrings(cells: seq<Cell>): seq<string> {
    if cells == [] then [] else KeptStrings(cells[0].texts) + RowStrings(cells[1..])
  }

  /** The anchors of a row, cell after cell. */
  function RowAnchors(cells: seq<Cell>): seq<Anchor> {
    if cells == [] then [] else cells[0].anchors + RowAnchors(cells[1..])
  }

  /** `row.get_text(sep, strip=True)`. */
  function GetText(row: Row, sep: string): string {
    Join(sep, RowStrings(row.cells))
  }

  /** The text the keyword filter searches: `row.get_text(" ", strip=True).lower()`. */
  function SearchText(row: Row): string {
    Lower(GetText(row, " "))
  }

  /** The text a posting displays: `row.get_text(" | ", strip=True)`. */
  function DisplayText(row: Row): string {
    GetText(row, " | ")
  }

  /** `row.find_all("td")` is non-empty. */
  predicate HasDataCell(row: Row) {
    exists i :: 0 <= i < |row.cells| && row.cells[i].kind == Data
  }

  /** The position of the first anchor that has an href (`|anchors|` when there is none). */
  function FirstHrefIndex(anchors: seq<Anchor>): (r: nat)
    ensures r <= |anchors|
    ensures forall k :: 0 <= k < r ==> anchors[k].href.None?
    ensures r < |anchors| ==> anchors[r].href.Some?
  {
    if anchors == [] || anchors[0].href.Some? then 0
    else 1 + FirstHrefIndex(anchors[1..])
  }

  /** The href of `row.find("a", href=True)`. A found tag is always truthy, so an empty href
      still counts as a link. */
  function FirstLink(row: Row): Option<string> {
    var anchors := RowAnchors(row.cells);
    var i := FirstHrefIndex(anchors);
    if i < |anchors| then anchors[i].href else None
  }

  /** `any(keyword in text for keyword in keywords)`. */
  predicate MatchesKeyword(text: string, keywords: seq<string>) {
    exists i :: 0 <= i < |keywords| && Contains(text, keywords[i])
  }

  /** A row yields a posting: it has a data cell, its text mentions a keyword and it has a link. */
  predicate Qualifies(keywords: seq<string>, row: Row) {
    HasDataCell(row) && MatchesKeyword(SearchText(row), keywords) && FirstLink(row).Some?
  }

  /** The posting a qualifying row yields: the link is both its identifier and its url. */
  function JobOf(keywords: seq<string>, row: Row): Job
    requires Qualifies(keywords, row)
  {
    var href := FirstLink(row).value;
    Job(href, DisplayText(row), href)
  }

  /** What one row contributes to the result: its posting or nothing. */
  function RowJobs(keywords: seq<string>, row: Row): seq<Job> {
    if Qualifies(keywords, row) then [JobOf(keywords, row)] else []
  }

  /** `RowJobs` for the given keywords, as a function value. */
  function RowJobsFor(keywords: seq<string>): Row -> seq<Job> {
    row => RowJobs(keywords, row)
  }

  /** The postings of one table, row after row. */
  function TableJobs(keywords: seq<string>, rows: seq<Row>): seq<Job> {
    FlatMap(RowJobsFor(keywords), rows)
  }

  /** `TableJobs` for the given keywords, as a function value. */
  function TableJobsFor(keywords: seq<string>): Table -> seq<Job> {
    rows => TableJobs(keywords, rows)
  }

  /** The postings of a parsed page, table after table. */
  function ExtractJobs(keywords: seq<string>, doc: Document): seq<Job> {
    FlatMap(TableJobsFor(keywords), doc)
  }

  /** The candidates of one run: none when the request fails or the status is an error. */
  function Candidates(outcome: FetchOutcome): seq<Job> {
    match outcome
    case RequestFailed => []
    case Response(status, doc) => if RaisesForStatus(status) then [] else ExtractJobs(KEYWORDS, doc)
  }

  /** `scrape_jobs`: nothing when the request fails or the status is an error, otherwise the
      postings of the page's rows. */
  method ScrapeJobs(outcome: FetchOutcome) returns (found: seq<Job>)
    ensures found == Candidates(outcome)
  {
    if outcome.RequestFailed? || RaisesForStatus(outcome.status) {
      return [];
    }
    found := ScanTables(KEYWORDS, outcome.document);
  }

  /** The loop of `scrape_jobs`: walks the tables and their rows in document order and appends the
      posting of every qualifying row. */
  method ScanTables(keywords: seq<string>, tables: Document) returns (found: seq<Job>)
    ensures found == ExtractJobs(keywords, tables)
  {
    found := [];
    var t := 0;
    while t < |tables|
      invariant 0 <= t <= |tables|
      invariant found == ExtractJobs(keywords, tables[..t])
    {
      var rows := tables[t];
      ghost var prefix := found;
      var r := 0;
      while r < |rows|
        invariant 0 <= r <= |rows|
        invariant found == prefix + TableJobs(keywords, rows[..r])
      {
        var row := rows[r];
        var posting: seq<Job> := [];
        if HasDataCell(row) {
          var rowText := SearchText(row);
          if MatchesKeyword(rowText, keywords) {
            var link := FirstLink(row);
            if link.Some? {
              var jobUrl := link.value;
              posting := [Job(jobUrl, DisplayText(row), jobUrl)];
            }
          }
        }
        assert posting == RowJobs(keywords, row);
        TableJobsSnoc(keywords, rows, r);
        Reassociate(prefix, TableJobs(keywords, rows[..r]), posting);
        found := found + posting;
        r := r + 1;
      }
      assert rows[..|rows|] == rows;
      ExtractJobsSnoc(keywords, tables, t);
      t := t + 1;
    }
    assert tables[..t] == tables;
  }

  /** Extending the rows seen so far by one row adds that row's contribution. */
  lemma TableJobsSnoc(keywords: seq<string>, rows: seq<Row>, r: nat)
    requires r < |rows|
    ensures TableJobs(keywords, rows[..r + 1]) == TableJobs(keywords, rows[..r]) + RowJobs(keywords, rows[r])
  {
    FlatMapSnoc(RowJobsFor(keywords), rows, r);
  }

  /** Extending the tables seen so far by one table adds that table's postings. */
  lemma ExtractJobsSnoc(keywords: seq<string>, tables: Document, t: nat)
    requires t < |tables|
    ensures ExtractJobs(keywords, tables[..t + 1]) ==
      ExtractJobs(keywords, tables[..t]) + TableJobs(keywords, tables[t])
  {
    FlatMapSnoc(TableJobsFor(keywords), tables, t);
  }

  /** A row yields a posting exactly when it has a `td` cell, its lower-cased text contains one of
      the keywords as a substring and it has a link; the posting's id and url are that link and its
      text is the row's " | "-joined text. */
  lemma RowJobsSpec(keywords: seq<string>, row: Row)
    ensures |RowJobs(keywords, row)| <= 1
    ensures RowJobs(keywords, row) != [] <==>
      && HasDataCell(row)
      && (exists k :: k in keywords && exists i :: OccursAt(k, SearchText(row), i))
      && FirstLink(row).Some?
    ensures RowJobs(keywords, row) != [] ==>
      RowJobs(keywords, row)[0] == Job(FirstLink(row).value, DisplayText(row), FirstLink(row).value)
  {
    var text := SearchText(row);
    forall k | k in keywords
      ensures Contains(text, k) <==> exists i :: OccursAt(k, text, i)
    {
      ContainsIffOccurs(text, k);
    }
    assert MatchesKeyword(text, keywords) <==> exists k :: k in keywords && Contains(text, k);
  }

  /** The link a row yields is the href of its first anchor that has one. */
  lemma FirstLinkSpec(row: Row)
    ensures FirstLink(row).None? <==>
      forall k :: 0 <= k < |RowAnchors(row.cells)| ==> RowAnchors(row.cells)[k].href.None?
    ensures FirstLink(row).Some? ==>
      exists i :: 0 <= i < |RowAnchors(row.cells)| && RowAnchors(row.cells)[i].href == FirstLink(row)
        && forall k :: 0 <= k < i ==> RowAnchors(row.cells)[k].href.None?
  {
  }

  /** The postings of a table, split around row `r`. */
  lemma TableJobsSplit(keywords: seq<string>, rows: seq<Row>, r: nat)
    requires r < |rows|
    ensures TableJobs(keywords, rows) ==
      TableJobs(keywords, rows[..r]) + RowJobs(keywords, rows[r]) + TableJobs(keywords, rows[r + 1..])
  {
    FlatMapSplit(RowJobsFor(keywords), rows, r);
  }

  /** Document order: the contribution of row `r` of table `t` comes after those of every earlier
      row of the same table and of every earlier table, and before all later ones. */
  lemma ExtractJobsOrder(keywords: seq<string>, doc: Document, t: nat, r: nat)
    requires t < |doc| && r < |doc[t]|
    ensures ExtractJobs(keywords, doc) ==
      ExtractJobs(keywords, doc[..t]) + TableJobs(keywords, doc[t][..r]) + RowJobs(keywords, doc[t][r])
      + TableJobs(keywords, doc[t][r + 1..]) + ExtractJobs(keywords, doc[t + 1..])
  {
    FlatMapSplit(TableJobsFor(keywords), doc, t);
    TableJobsSplit(keywords, doc[t], r);
    Regroup(ExtractJobs(keywords, doc[..t]), TableJobs(keywords, doc[t][..r]), RowJobs(keywords, doc[t][r]),
            TableJobs(keywords, doc[t][r + 1..]), ExtractJobs(keywords, doc[t + 1..]));
  }

  /** Every extracted posting comes from a qualifying row of the page. */
  lemma ExtractJobsSound(keywords: seq<string>, doc: Document, j: Job)
    requires j in ExtractJobs(keywords, doc)
    ensures exists t, r ::
      0 <= t < |doc| && 0 <= r < |doc[t]| && Qualifies(keywords, doc[t][r]) && j == JobOf(keywords, doc[t][r])
  {
    var t := FlatMapSound(TableJobsFor(keywords), doc, j);
    var r := FlatMapSound(RowJobsFor(keywords), doc[t], j);
    assert j in RowJobs(keywords, doc[t][r]);
  }

  /** Every qualifying row of the page contributes its posting. */
  lemma ExtractJobsComplete(keywords: seq<string>, doc: Document, t: nat, r: nat)
    requires t < |doc| && r < |doc[t]| && Qualifies(keywords, doc[t][r])
    ensures JobOf(keywords, doc[t][r]) in ExtractJobs(keywords, doc)
  {
    ExtractJobsOrder(keywords, doc, t, r);
  }

  /** Rows with no `td` cell never contribute: removing one leaves the table's postings unchanged. */
  lemma HeaderRowIgnored(keywords: seq<string>, a: seq<Row>, h: Row, b: seq<Row>)
    requires !HasDataCell(h)
    ensures TableJobs(keywords, a + [h] + b) == TableJobs(keywords, a + b)
  {
    var rows := a + [h] + b;
    TableJobsSplit(keywords, rows, |a|);
    assert rows[..|a|] == a && rows[|a|] == h && rows[|a| + 1..] == b;
    assert RowJobs(keywords, h) == [];
    assert TableJobs(keywords, a) + [] == TableJobs(keywords, a);
    FlatMapAppend(RowJobsFor(keywords), a, b);
  }
}
