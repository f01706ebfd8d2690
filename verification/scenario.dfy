/** A worked run: one table holding a header row and a row that advertises an SDE-1 opening with an
    apply link, fetched successfully with nothing processed before, then fetched again. */
module Scenario {
  import opened Wrappers
  import opened Text
  import opened Seqs
  import opened Scrape
  import opened Dedup
  import opened Notify
  import opened Runner

  const ApplyLink: string := "https://x/1"
  const Company: string := "Acme"
  const Label: string := "Apply"
  const Level: string := "SDE-1"
  const Role: string := Level + " New Grad"

  /** `<tr><th>Company</th><th>Role</th></tr>` */
  const HeaderRow: Row := Row([Cell(Header, ["Company"], []), Cell(Header, ["Role"], [])])

  /** `<tr><td>Acme</td><td><a href="https://x/1">Apply</a> SDE-1 New Grad</td></tr>`: the second
      cell's text nodes are the anchor's text and the text after it. */
  const ApplyRow: Row :=
    Row([Cell(Data, [Company], []), Cell(Data, [Label, [' '] + Role], [Anchor(Some(ApplyLink))])])

  const Page: Document := [[HeaderRow, ApplyRow]]

  /** The posting the apply row yields: its link, and its text nodes joined by " | ". */
  const Posting: Job := Job(ApplyLink, Company + " | " + Label + " | " + Role, ApplyLink)

  /** A non-empty string with no whitespace at either end. */
  predicate Clean(t: string) {
    t != [] && !IsSpace(t[0]) && !IsSpace(t[|t| - 1])
  }

  /** Stripping a clean string with one whitespace character in front gives the string. */
  lemma StripSpaced(c: char, t: string)
    requires IsSpace(c) && Clean(t)
    ensures Strip([c] + t) == t
  {
    StripUnchanged(t);
    assert ([c] + t)[1..] == t;
  }

  /** The text of a row of two cells: the first cell's kept strings, then the second's. */
  lemma RowStringsTwo(c0: Cell, c1: Cell)
    ensures RowStrings([c0, c1]) == KeptStrings(c0.texts) + KeptStrings(c1.texts)
  {
    assert [c0, c1][1..] == [c1];
    assert [c1][1..] == [];
    assert RowStrings([c1]) == KeptStrings(c1.texts) + [];
  }

  /** The anchors of a row of two cells. */
  lemma RowAnchorsTwo(c0: Cell, c1: Cell)
    ensures RowAnchors([c0, c1]) == c0.anchors + c1.anchors
  {
    assert [c0, c1][1..] == [c1];
    assert [c1][1..] == [];
    assert RowAnchors([c1]) == c1.anchors + [];
  }

  /** `get_text` keeps a single text node that strips to something. */
  lemma KeptOne(t: string)
    requires Strip(t) != ""
    ensures KeptStrings([t]) == [Strip(t)]
  {
    assert [t][1..] == [];
  }

  /** `get_text` treats two text nodes one after the other. */
  lemma KeptTwo(t: string, u: string)
    ensures KeptStrings([t, u]) == KeptStrings([t]) + KeptStrings([u])
  {
    assert [t, u][1..] == [u];
    assert [t][1..] == [];
  }

  /** A row shaped like the apply row: a cell with one clean text node, then a cell with a clean
      text node followed by one starting with a whitespace character. */
  lemma TwoCellStrings(a: string, b: string, c: char, r: string, anchors: seq<Anchor>)
    requires Clean(a) && Clean(b) && Clean(r) && IsSpace(c)
    ensures RowStrings([Cell(Data, [a], []), Cell(Data, [b, [c] + r], anchors)]) == [a, b, r]
  {
    StripUnchanged(a);
    StripUnchanged(b);
    StripSpaced(c, r);
    KeptOne(a);
    KeptOne(b);
    KeptOne([c] + r);
    KeptTwo(b, [c] + r);
    RowStringsTwo(Cell(Data, [a], []), Cell(Data, [b, [c] + r], anchors));
  }

  /** Joining three strings. */
  lemma JoinThree(sep: string, a: string, b: string, c: string)
    ensures Join(sep, [a, b, c]) == a + sep + b + sep + c
  {
    assert [a, b, c][..2] == [a, b];
    assert [a, b][..1] == [a];
    assert Join(sep, [a, b]) == a + sep + b;
  }

  /** Lower-casing works character by character. */
  lemma LowerAppend(x: string, y: string)
    ensures Lower(x + y) == Lower(x) + Lower(y)
  {
  }

  /** The searched text of a row whose strings are `a`, `b` and `p + q`. */
  lemma SearchTextOf(row: Row, a: string, b: string, p: string, q: string)
    requires RowStrings(row.cells) == [a, b, p + q]
    ensures SearchText(row) == Lower(a + " " + b + " ") + Lower(p) + Lower(q)
  {
    JoinThree(" ", a, b, p + q);
    Reassociate(a + " " + b + " ", p, q);
    LowerAppend(a + " " + b + " " + p, q);
    LowerAppend(a + " " + b + " ", p);
  }

  /** A keyword placed between two strings is found. */
  lemma FoundBetween(x: string, k: string, y: string)
    ensures Contains(x + k + y, k)
  {
    assert (x + k + y)[|x|..|x| + |k|] == k;
    assert OccursAt(k, x + k + y, |x|);
    ContainsIffOccurs(x + k + y, k);
  }

  /** A row that qualifies yields the posting of its first link and display text. */
  lemma QualifyingRow(keywords: seq<string>, row: Row, k: nat, link: string)
    requires HasDataCell(row) && k < |keywords| && Contains(SearchText(row), keywords[k])
    requires FirstLink(row) == Some(link)
    ensures RowJobs(keywords, row) == [Job(link, DisplayText(row), link)]
  {
  }

  /** The stripped text nodes of the apply row. */
  lemma ApplyRowStrings()
    ensures RowStrings(ApplyRow.cells) == [Company, Label, Role]
  {
    assert Clean(Company) && Clean(Label) && Clean(Role) && IsSpace(' ');
    TwoCellStrings(Company, Label, ' ', Role, [Anchor(Some(ApplyLink))]);
  }

  /** The level lower-cased is the first keyword. */
  lemma LowerLevel()
    ensures Lower(Level) == KEYWORDS[0]
  {
    assert Lower(Level) == "sde-1";
  }

  /** The apply row's lower-cased text contains "sde-1". */
  lemma ApplyRowMatches()
    ensures Contains(SearchText(ApplyRow), KEYWORDS[0])
  {
    ApplyRowStrings();
    SearchTextOf(ApplyRow, Company, Label, Level, " New Grad");
    LowerLevel();
    FoundBetween(Lower(Company + " " + Label + " "), Lower(Level), Lower(" New Grad"));
  }

  /** The apply row's first link. */
  lemma ApplyRowLink()
    ensures FirstLink(ApplyRow) == Some(ApplyLink)
  {
    RowAnchorsTwo(ApplyRow.cells[0], ApplyRow.cells[1]);
    assert [] + [Anchor(Some(ApplyLink))] == [Anchor(Some(ApplyLink))];
  }

  /** The apply row yields the posting; the header row, having no `td` cell, yields nothing. */
  lemma RowsOfPage()
    ensures RowJobs(KEYWORDS, HeaderRow) == []
    ensures RowJobs(KEYWORDS, ApplyRow) == [Posting]
  {
    assert !HasDataCell(HeaderRow);
    assert HasDataCell(ApplyRow) by {
      assert ApplyRow.cells[0].kind == Data;
    }
    ApplyRowMatches();
    ApplyRowLink();
    QualifyingRow(KEYWORDS, ApplyRow, 0, ApplyLink);
    ApplyRowStrings();
    JoinThree(" | ", Company, Label, Role);
  }

  /** A successful fetch of the page yields exactly the one posting. */
  lemma PageCandidates(status: int)
    requires !RaisesForStatus(status)
    ensures Candidates(Response(status, Page)) == [Posting]
  {
    RowsOfPage();
    FlatMapAppend(RowJobsFor(KEYWORDS), [HeaderRow], [ApplyRow]);
    FlatMapSingle(RowJobsFor(KEYWORDS), HeaderRow);
    FlatMapSingle(RowJobsFor(KEYWORDS), ApplyRow);
    assert [HeaderRow] + [ApplyRow] == Page[0];
    FlatMapSingle(TableJobsFor(KEYWORDS), Page[0]);
  }

  /** Two runs on the page, the second on the file the first wrote: the first finds the posting,
      calls `send_email` with it and writes its link; the second finds nothing, sends nothing and
      leaves the file alone. */
  method TwoRuns(config: Credentials, today: string) returns (first: RunReport, second: RunReport)
    ensures first.newJobs == [Posting] && first.notified && first.saved && first.store == Stored([ApplyLink])
    ensures first.email.Some? <==> CredentialsPresent(config)
    ensures second.newJobs == [] && !second.notified && second.email.None? && !second.saved
    ensures second.store == Stored([ApplyLink])
  {
    var outcome := Response(200, Page);
    PageCandidates(200);
    assert Elems([]) == {};
    assert Ids([Posting]) == [ApplyLink];
    first := Run(Missing, outcome, config, today);
    assert Elems([ApplyLink]) == {ApplyLink};
    second := Run(first.store, outcome, config, today);
  }
}
