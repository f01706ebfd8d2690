/** `send_email`: the credential gate, the subject line and the HTML body listing the new postings.
    The SMTP session itself is outside the model; the result is the message handed to it. */
module Notify {
  import opened Wrappers
  import opened Scrape
  import opened Seqs

  /** The three settings read from the environment; `None` when the variable is unset. */
  datatype Credentials = Credentials(sender: Option<string>, receiver: Option<string>, password: Option<string>)

  /** The message that would be submitted: From, To, Subject and the HTML body. */
  datatype Message = Message(sender: string, receiver: string, subject: string, body: string)

  /** Python truthiness of an optional string: unset and empty both count as missing. */
  predicate Truthy(v: Option<string>) {
    v.Some? && v.value != ""
  }

  /** `all([sender_email, receiver_email, password])`. */
  predicate CredentialsPresent(c: Credentials) {
    Truthy(c.sender) && Truthy(c.receiver) && Truthy(c.password)
  }

  /** The fixed pieces of the body: the text before the list, the text after it, and the three
      pieces each list item is made of around a posting's url and text. */
  datatype Markup = Markup(header: string, footer: string, itemOpen: string, linkClose: string, itemClose: string)

  /** The pieces `send_email` uses. */
  const HTML: Markup := Markup("<h2>New Job Openings Found Today:</h2><ul>", "</ul>", "<li><a href='", "'>", "</a></li>")

  /** The strings one after the other, as repeated `+=` leaves them. */
  function Concat(parts: seq<string>): string {
    if parts == [] then "" else Concat(parts[..|parts| - 1]) + parts[|parts| - 1]
  }

  /** The list item of one posting: its url as the link target, its text as the label. */
  function Entry(m: Markup, job: Job): string {
    Concat([m.itemOpen, job.url, m.linkClose, job.text, m.itemClose])
  }

  /** `Entry` for the given markup, as a function value. */
  function EntryFor(m: Markup): Job -> string {
    job => Entry(m, job)
  }

  /** The list items of the postings, in order. */
  function Entries(m: Markup, jobs: seq<Job>): string {
    FlatMap(EntryFor(m), jobs)
  }

  /** The whole body. */
  function Render(m: Markup, jobs: seq<Job>): string {
    m.header + Entries(m, jobs) + m.footer
  }

  /** The HTML body `send_email` builds. */
  function Body(jobs: seq<Job>): string {
    Render(HTML, jobs)
  }

  /** The decimal digits of a count, as an f-string renders it. */
  function Decimal(n: nat): (r: string)
    ensures |r| >= 1 && forall i :: 0 <= i < |r| ==> '0' <= r[i] <= '9'
  {
    var digit := ('0' as int + n % 10) as char;
    if n < 10 then [digit] else Decimal(n / 10) + [digit]
  }

  /** The number a string of decimal digits denotes. */
  function DigitsValue(s: string): int {
    if s == [] then 0 else 10 * DigitsValue(s[..|s| - 1]) + (s[|s| - 1] as int - '0' as int)
  }

  /** Reading the rendered count back gives the count, and it has no leading zero. */
  lemma {:induction false} DecimalValue(n: nat)
    ensures DigitsValue(Decimal(n)) == n
    ensures |Decimal(n)| > 1 ==> Decimal(n)[0] != '0'
  {
    var digit := ('0' as int + n % 10) as char;
    if n >= 10 {
      DecimalValue(n / 10);
      var s := Decimal(n / 10) + [digit];
      assert s[..|s| - 1] == Decimal(n / 10);
    }
  }

  /** The subject line; `today` stands for `datetime.now().strftime('%Y-%m-%d')`. */
  function Subject(count: nat, today: string): string {
    "Job Job Alert: " + Decimal(count) + " New Openings Found (" + today + ")"
  }

  /** `send_email`: returns before building anything when a credential is missing; otherwise
      builds the body item by item and returns the message handed to the mail server. */
  method SendEmail(config: Credentials, newJobs: seq<Job>, today: string) returns (sent: Option<Message>)
    ensures sent.None? <==> !CredentialsPresent(config)
    ensures sent.Some? ==> sent.value.sender == config.sender.value && sent.value.receiver == config.receiver.value
    ensures sent.Some? ==> sent.value.subject == Subject(|newJobs|, today)
    ensures sent.Some? ==> sent.value.body == Body(newJobs)
  {
    if !CredentialsPresent(config) {
      return None;
    }
    var subject := Subject(|newJobs|, today);
    var body := HTML.header;
    for i := 0 to |newJobs|
      invariant body == HTML.header + Entries(HTML, newJobs[..i])
    {
      FlatMapSnoc(EntryFor(HTML), newJobs, i);
      Reassociate(HTML.header, Entries(HTML, newJobs[..i]), Entry(HTML, newJobs[i]));
      body := body + Entry(HTML, newJobs[i]);
    }
    assert newJobs[..|newJobs|] == newJobs;
    body := body + HTML.footer;
    sent := Some(Message(config.sender.value, config.receiver.value, subject, body));
  }

  lemma ConcatSingle(x: string)
    ensures Concat([x]) == x
  {
    assert [x][..0] == [];
    assert Concat([]) + x == x;
  }

  lemma ConcatFive(a: string, b: string, c: string, d: string, e: string)
    ensures Concat([a, b, c, d, e]) == a + b + c + d + e
  {
    ConcatSingle(a);
    assert [a, b][..1] == [a];
    assert Concat([a, b]) == a + b;
    assert [a, b, c][..2] == [a, b];
    assert Concat([a, b, c]) == a + b + c;
    assert [a, b, c, d][..3] == [a, b, c];
    assert Concat([a, b, c, d]) == a + b + c + d;
    assert [a, b, c, d, e][..4] == [a, b, c, d];
  }

  /** The items followed by the closing text, taken from the front. */
  lemma EntriesFront(m: Markup, jobs: seq<Job>)
    requires jobs != []
    ensures Entries(m, jobs) + m.footer == Entry(m, jobs[0]) + (Entries(m, jobs[1..]) + m.footer)
  {
    FlatMapSplit(EntryFor(m), jobs, 0);
    assert jobs[..0] == [];
    Reassociate(Entry(m, jobs[0]), Entries(m, jobs[1..]), m.footer);
  }

  /** Structure of the body: the fixed header, then the item of posting `k` right after the items of
      the postings before it, and the closing tag at the end. */
  lemma BodyEntryAt(jobs: seq<Job>, k: nat)
    requires k < |jobs|
    ensures var start := |HTML.header| + |Entries(HTML, jobs[..k])|;
      && Body(jobs)[..|HTML.header|] == HTML.header
      && start + |Entry(HTML, jobs[k])| <= |Body(jobs)| - |HTML.footer|
      && Body(jobs)[start..start + |Entry(HTML, jobs[k])|] == Entry(HTML, jobs[k])
      && Body(jobs)[|Body(jobs)| - |HTML.footer|..] == HTML.footer
  {
    RenderEntryAt(HTML, jobs, k);
  }

  lemma RenderEntryAt(m: Markup, jobs: seq<Job>, k: nat)
    requires k < |jobs|
    ensures var start := |m.header| + |Entries(m, jobs[..k])|;
      && Render(m, jobs)[..|m.header|] == m.header
      && start + |Entry(m, jobs[k])| <= |Render(m, jobs)| - |m.footer|
      && Render(m, jobs)[start..start + |Entry(m, jobs[k])|] == Entry(m, jobs[k])
      && Render(m, jobs)[|Render(m, jobs)| - |m.footer|..] == m.footer
  {
    FlatMapSplit(EntryFor(m), jobs, k);
    var before, item, after := Entries(m, jobs[..k]), Entry(m, jobs[k]), Entries(m, jobs[k + 1..]);
    Regroup(m.header, before, item, after, m.footer);
    PiecesAt(m.header, before, item, after, m.footer);
  }

  /** Where the pieces of a five-piece string sit. */
  lemma PiecesAt(a: string, b: string, c: string, d: string, e: string)
    ensures var s := a + b + c + d + e;
      && s[..|a|] == a
      && s[|a| + |b|..|a| + |b| + |c|] == c
      && s[|s| - |e|..] == e
  {
    var s := a + b + c + d + e;
    assert s[..|a|] == a;
    assert s[|a| + |b|..|a| + |b| + |c|] == c;
    assert s[|s| - |e|..] == e;
  }

  /** The (url, text) pair an item shows. */
  datatype Link = Link(url: string, text: string)

  /** The pairs the body should show, one per posting, in order. */
  function Links(jobs: seq<Job>): seq<Link> {
    seq(|jobs|, i requires 0 <= i < |jobs| => Link(jobs[i].url, jobs[i].text))
  }

  lemma LinksFront(jobs: seq<Job>)
    requires jobs != []
    ensures Links(jobs) == [Link(jobs[0].url, jobs[0].text)] + Links(jobs[1..])
  {
  }

  /** The longest prefix of `s` without the character `c`. */
  function TakeUntil(s: string, c: char): (r: string)
    ensures |r| <= |s| && r == s[..|r|] && c !in r
    ensures |r| < |s| ==> s[|r|] == c
  {
    if s == [] || s[0] == c then "" else [s[0]] + TakeUntil(s[1..], c)
  }

  /** `s` begins with `p`. */
  predicate StartsWith(s: string, p: string) {
    |p| <= |s| && s[..|p|] == p
  }

  /** Pieces the body can be read back with: the url ends at the first character of the piece
      after it, the text likewise, and the closing text is not mistaken for an item. */
  predicate Readable(m: Markup) {
    m.linkClose != [] && m.itemClose != [] && !StartsWith(m.footer, m.itemOpen)
  }

  /** Reads one item from the front of `s`: its pair and what follows the item. */
  function ParseItem(m: Markup, s: string): (r: Option<(Link, string)>)
    requires Readable(m)
    ensures r.Some? ==> |r.value.1| < |s|
  {
    if !StartsWith(s, m.itemOpen) || m.itemOpen == [] then None
    else
      var afterOpen := s[|m.itemOpen|..];
      var url := TakeUntil(afterOpen, m.linkClose[0]);
      var afterUrl := afterOpen[|url|..];
      if !StartsWith(afterUrl, m.linkClose) then None
      else
        var afterLink := afterUrl[|m.linkClose|..];
        var text := TakeUntil(afterLink, m.itemClose[0]);
        var afterText := afterLink[|text|..];
        if !StartsWith(afterText, m.itemClose) then None
        else Some((Link(url, text), afterText[|m.itemClose|..]))
  }

  /** Reads the items back from what follows the header, up to the closing text. */
  function ParseEntries(m: Markup, s: string): Option<seq<Link>>
    requires Readable(m)
    decreases |s|
  {
    match ParseItem(m, s)
    case Some((link, rest)) =>
      (match ParseEntries(m, rest)
       case None => None
       case Some(links) => Some([link] + links))
    case None => if s == m.footer then Some([]) else None
  }

  /** Reads a body back into the (url, text) pairs it lists. */
  function ParseRender(m: Markup, s: string): Option<seq<Link>>
    requires Readable(m)
  {
    if !StartsWith(s, m.header) then None else ParseEntries(m, s[|m.header|..])
  }

  /** Neither the url nor the text contains the character that ends it in the markup. */
  predicate Unambiguous(m: Markup, job: Job)
    requires Readable(m)
  {
    m.linkClose[0] !in job.url && m.itemClose[0] !in job.text
  }

  lemma {:induction false} TakeUntilPrefix(u: string, v: string, c: char)
    requires c !in u && v != [] && v[0] == c
    ensures TakeUntil(u + v, c) == u
    decreases |u|
  {
    if u == [] {
      assert u + v == v;
    } else {
      assert (u + v)[0] == u[0];
      assert (u + v)[1..] == u[1..] + v;
      TakeUntilPrefix(u[1..], v, c);
    }
  }

  lemma DropPrefix(p: string, q: string)
    ensures StartsWith(p + q, p) && (p + q)[|p|..] == q
  {
  }

  /** An item followed by anything reads back as the posting's pair, leaving what follows. */
  lemma ParseItemEntry(m: Markup, job: Job, rest: string)
    requires Readable(m) && m.itemOpen != [] && Unambiguous(m, job)
    ensures ParseItem(m, Entry(m, job) + rest) == Some((Link(job.url, job.text), rest))
  {
    ConcatFive(m.itemOpen, job.url, m.linkClose, job.text, m.itemClose);
    var afterLink := job.text + (m.itemClose + rest);
    var afterUrl := m.linkClose + afterLink;
    var afterOpen := job.url + afterUrl;
    assert Entry(m, job) + rest == m.itemOpen + afterOpen;
    DropPrefix(m.itemOpen, afterOpen);
    TakeUntilPrefix(job.url, afterUrl, m.linkClose[0]);
    DropPrefix(job.url, afterUrl);
    DropPrefix(m.linkClose, afterLink);
    TakeUntilPrefix(job.text, m.itemClose + rest, m.itemClose[0]);
    DropPrefix(job.text, m.itemClose + rest);
    DropPrefix(m.itemClose, rest);
  }

  /** The items of the postings followed by the closing text read back as their pairs. */
  lemma {:induction false} EntriesRoundTrip(m: Markup, jobs: seq<Job>)
    requires Readable(m) && m.itemOpen != []
    requires forall j :: j in jobs ==> Unambiguous(m, j)
    ensures ParseEntries(m, Entries(m, jobs) + m.footer) == Some(Links(jobs))
    decreases |jobs|
  {
    if jobs == [] {
      assert Entries(m, jobs) + m.footer == m.footer;
      assert Links(jobs) == [];
    } else {
      EntriesRoundTrip(m, jobs[1..]);
      assert jobs[0] in jobs;
      EntriesFront(m, jobs);
      EntriesRoundTripStep(m, jobs[0], Entries(m, jobs[1..]) + m.footer, Links(jobs[1..]));
      LinksFront(jobs);
    }
  }

  /** One more posting in front of items that read back. */
  lemma EntriesRoundTripStep(m: Markup, job: Job, tail: string, links: seq<Link>)
    requires Readable(m) && m.itemOpen != [] && Unambiguous(m, job)
    requires ParseEntries(m, tail) == Some(links)
    ensures ParseEntries(m, Entry(m, job) + tail) == Some([Link(job.url, job.text)] + links)
  {
    ParseItemEntry(m, job, tail);
    ParseEntriesCons(m, Entry(m, job) + tail, Link(job.url, job.text), tail, links);
  }

  /** An item that reads back, followed by items that read back. */
  lemma ParseEntriesCons(m: Markup, s: string, link: Link, rest: string, links: seq<Link>)
    requires Readable(m)
    requires ParseItem(m, s) == Some((link, rest)) && ParseEntries(m, rest) == Some(links)
    ensures ParseEntries(m, s) == Some([link] + links)
  {
  }

  /** A rendered body reads back as the postings' pairs, in order. */
  lemma RenderRoundTrip(m: Markup, jobs: seq<Job>)
    requires Readable(m) && m.itemOpen != []
    requires forall j :: j in jobs ==> Unambiguous(m, j)
    ensures ParseRender(m, Render(m, jobs)) == Some(Links(jobs))
  {
    var s := Render(m, jobs);
    assert s == m.header + (Entries(m, jobs) + m.footer);
    DropPrefix(m.header, Entries(m, jobs) + m.footer);
    EntriesRoundTrip(m, jobs);
  }

  /** The body `send_email` builds lists exactly one item per posting, in order, built from that
      posting's url and text: when no url contains a quote and no text a `<` (nothing is escaped),
      reading it back yields the postings' (url, text) pairs. */
  lemma BodyRoundTrip(jobs: seq<Job>)
    requires forall j :: j in jobs ==> '\'' !in j.url && '<' !in j.text
    ensures Readable(HTML) && ParseRender(HTML, Body(jobs)) == Some(Links(jobs))
  {
    assert HTML.linkClose[0] == '\'' && HTML.itemClose[0] == '<';
    assert |HTML.footer| < |HTML.itemOpen|;
    RenderRoundTrip(HTML, jobs);
  }
}
