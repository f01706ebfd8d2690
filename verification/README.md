# JobBot, modelled in Dafny

JobBot is a single-run job alert script (`main.py`). One run:

1. Loads the list of posting ids it has already reported from `processed_jobs.json`.
2. Fetches a job-board page and walks every `<tr>` of every `<table>` on it.
3. Turns each qualifying row into a posting `{id, text, url}`. A row qualifies when it has a `<td>`, its lower-cased text contains one of five keywords, and it has an `<a href>`. Both the id and the url are that link.
4. Keeps the postings whose id has not been seen before. Each new id is recorded at once, so a repeat later in the same run is skipped.
5. Only when something is new: emails an HTML list of the new postings and writes the extended id list back.

The model follows the code's own shape:

- **`Text`** (`text.dfy`): Python's `str.strip` (whitespace), `str.lower`, `str.join` and the substring test `k in s`.
- **`Seqs`** (`seqs.dfy`): a generic flat-map with the lemmas that split and extend it.
- **`Scrape`** (`scrape.dfy`):
  - The parsed page, as tables of rows of cells. Each cell has its text nodes and its anchors.
  - The row filter.
  - `scrape_jobs`, as a method whose nested loops walk tables and rows. It is proved equal to a specification function of the page.
  - Lemmas about which rows contribute, and in what order.
- **`Dedup`** (`dedup.dfy`):
  - The loop of `main` that keeps a list and a set of processed ids in step. It is proved against a recursive specification, `NewJobs`.
  - Lemmas: new ids are unseen and distinct, the new postings are the first occurrences in candidate order, every candidate id ends up recorded, and a second pass finds nothing.
- **`Notify`** (`notify.dfy`):
  - `send_email`, as a method: the credential gate, the subject line, and the body built item by item in a loop.
  - Lemmas locate each posting's list item in the body.
  - A parser reads the list back and recovers every (url, text) pair in order.
- **`Runner`** (`runner.dfy`):
  - `main`, as a method over the file's content before the run and the fetch outcome.
  - Run-level lemmas: what the file holds afterwards, idempotence, the fetch-failure path, distinctness, and a lost file re-reporting everything.
- **`Scenario`** (`scenario.dfy`): a concrete page with a header row and one SDE-1 row, run twice.

Points of the code's behaviour the model keeps:

- **Empty ids:** an `<a href="">` yields a posting whose id is the empty string; nothing checks that ids are non-empty (main.py:72-76).
- **Fetch failure:** a failed fetch does not end the run. `scrape_jobs` returns `[]` (main.py:39-41) and `main` goes on (main.py:122-138). `Runner.FetchFailureChangesNothing` shows that nothing is new, nothing is sent and the file is untouched.
- **Error kinds:** every fetch error becomes "no candidates" (main.py:39-41). The model's `Candidates` does the same.
- **File writes:** `save_processed_jobs` overwrites the file directly (main.py:28-31), with no write-then-rename step.

## Model

| member | source | states |
|---|---|---|
| Text.StripSpec | main.py:67 | `strip=True` removes exactly the leading and trailing whitespace. What is left is a slice of the input, the removed characters are all whitespace, and the result neither starts nor ends with whitespace. |
| Text.TrimStartSpec | main.py:67 | Trimming the front drops only whitespace and stops at the first non-whitespace character. |
| Text.TrimEndSpec | main.py:67 | Trimming the back drops only whitespace and stops at the last non-whitespace character. |
| Text.ContainsIffOccurs | main.py:70 | `keyword in row_text` holds exactly when the keyword occurs at some position of the text. |
| Scrape.KeptStringsSpec | main.py:67 | `get_text(strip=True)` keeps at most one string per text node. Each kept string is non-empty and has no whitespace at either end. |
| Scrape.FirstHrefIndex | main.py:72 | The position found is that of the first anchor with an href attribute. No earlier anchor has one. |
| Scrape.FirstLinkSpec | main.py:72-74 | `row.find("a", href=True)` is empty exactly when no anchor of the row has an href. Otherwise it is the href of the first anchor, in document order, that has one. |
| Scrape.RowJobsSpec | main.py:60-82 | A row yields at most one posting. It yields one exactly when it has a `td` cell, some keyword occurs in its lower-cased space-joined text, and it has a link. The posting's id and url are both that link, and its text is the row's text nodes joined by a spaced vertical bar. |
| Scrape.ScanTables | main.py:55-82 | The nested loops over tables and rows return exactly the postings of the qualifying rows, in document order (`ExtractJobs`). |
| Scrape.ScrapeJobs | main.py:33-85 | A failed request or a 4xx/5xx status yields no postings. Otherwise the result is the extraction with the five configured keywords. |
| Scrape.TableJobsSplit | main.py:58-59 | A table's postings are those of the rows before row `r`, then row `r`'s own, then those of the rows after it. |
| Scrape.ExtractJobsOrder | main.py:55-59 | Document order: a row's posting comes after the postings of every earlier row and table, and before all later ones. |
| Scrape.ExtractJobsSound | main.py:55-82 | Every extracted posting is the posting of some qualifying row of the page. |
| Scrape.ExtractJobsComplete | main.py:55-82 | Every qualifying row of the page contributes its posting. |
| Scrape.HeaderRowIgnored | main.py:60-62 | A row without a `td` cell, such as a header row, contributes nothing wherever it stands in a table. |
| Dedup.NewJobs | main.py:127-129 | The postings classified as new are candidates whose id was not seen. There are no more of them than there are candidates. |
| Dedup.NewJobsCons | main.py:127-131 | One step of the pass: a candidate with a seen id is skipped. Otherwise it is kept and its id becomes seen for the rest of the pass. |
| Dedup.DedupStep | main.py:127-131 | One loop iteration keeps the list and the set in step. The postings kept so far, followed by those still to come, remain the whole result. |
| Dedup.Deduplicate | main.py:124-131 | The loop yields `NewJobs` of the loaded ids. The updated list is the loaded list followed by the new ids, in order. Its set of ids is the loaded ids together with every candidate id. |
| Dedup.NewJobsDistinct | main.py:128-131 | No two new postings share an id. |
| Dedup.NewJobsSubsequence | main.py:127-129 | The new postings are the candidates with some left out, in the same order. |
| Dedup.NewJobsAreFirstOccurrences | main.py:127-131 | Every new posting is the first candidate carrying its id, so a repeat later in the same run is never new. |
| Dedup.UnseenIdsAreNew | main.py:127-131 | For every candidate id not seen before, its first candidate is among the new postings. |
| Dedup.NewJobsCoverCandidates | main.py:127-131 | After the pass, every candidate id is seen: the seen ids plus the new ids equal the seen ids plus all candidate ids. |
| Dedup.NothingNewWhenAllSeen | main.py:127-129 | When every candidate id was seen before, nothing is new. |
| Dedup.DedupIdempotent | main.py:124-131 | A second pass over the same candidates, with the list the first pass produced, finds nothing new. |
| Dedup.DedupKeepsDistinct | main.py:124-131 | A list of ids without repeats stays without repeats after the new ids are appended. |
| Notify.SendEmail | main.py:87-105 | Returns nothing exactly when a credential is unset or empty; in that case no body is built. Otherwise the message goes from the sender to the receiver, with the counted, dated subject and the body of list items in posting order. |
| Notify.DecimalValue | main.py:100 | The count in the subject line reads back as the number of new postings, with no leading zero. |
| Notify.BodyEntryAt | main.py:102-105 | The body starts with the heading and ends with `</ul>`. The k-th posting's `<li>` item sits right after the items of the postings before it. |
| Notify.ParseItemEntry | main.py:104 | A list item parses back into its posting's url and text, with the rest of the body left over. |
| Notify.EntriesRoundTrip | main.py:103-105 | The list items, followed by `</ul>`, parse back into every posting's (url, text) pair, in order. |
| Notify.RenderRoundTrip | main.py:102-105 | Any body with this layout parses back into the postings' (url, text) pairs, one per posting, in order. |
| Notify.BodyRoundTrip | main.py:102-105 | The body `send_email` builds has one list item per new posting, recoverable in order, when no url contains `'` and no text contains `<`. |
| Runner.Run | main.py:120-138 | The new postings are the fresh candidates. `send_email` is called exactly when there are any. A message exists exactly when it was called and the credentials are present, and it carries the new postings. `save_processed_jobs` is called exactly when something is new, and the file is then rewritten with the loaded list extended by the new ids; otherwise it is left as it was. |
| Runner.RunExtendsList | main.py:121-136 | The list after a run is the list before it followed by the new ids. Nothing is removed or reordered. |
| Runner.SecondRunFindsNothing | main.py:121-138 | Running again on the same page after a run finds nothing new and leaves the file as it was. |
| Runner.RunRecordsCandidates | main.py:121-136 | The recorded ids only grow. After a run every candidate's id is recorded, whether or not the file was rewritten. |
| Runner.FetchFailureChangesNothing | main.py:36-41 | A failed request or an error status leaves no candidates and nothing new, so the file is not touched. |
| Runner.RunKeepsDistinct | main.py:121-136 | A file without repeated ids stays without repeated ids. |
| Runner.LostStoreRenotifies | main.py:18-26 | A missing or undecodable file reads as empty. Every candidate id's first posting is then new again, and the file is replaced by the new ids alone. |
| Scenario.RowsOfPage | main.py:60-82 | On the concrete page, the header row yields nothing and the SDE-1 row yields its posting. The posting's id is the apply link and its text is the three strings Acme, Apply and SDE-1 New Grad joined by spaced vertical bars. |
| Scenario.PageCandidates | main.py:33-82 | A successful fetch of the concrete page yields exactly that one posting. |
| Scenario.TwoRuns | main.py:120-138 | On the concrete page, the first run reports the posting, saves, and writes its link. The second run finds nothing, sends nothing, does not save and leaves the file as the first run wrote it. |

## Left out

- Fetching `TARGET_URL` with `requests` (the URL, the 10-second timeout, the transport) is not modelled. The fetch is a `FetchOutcome` parameter: a failed request, or a status code and the parsed page.
- HTML parsing by BeautifulSoup is not modelled. The page is given already parsed, as tables of rows of cells.
  - Rows of nested tables, which the recursive `find_all` visits twice, are not represented.
  - Neither is text standing directly inside a `<tr>` outside any cell.
  - Nor is an `<a href>` standing directly inside a `<tr>` outside any cell, which `row.find("a", href=True)` would find; a row's anchors are only those inside its cells.
- `str.lower` is modelled for ASCII letters only.
- Whitespace for `strip` covers the ASCII and Latin-1 whitespace characters. Other Unicode spaces are not treated as whitespace.
- Reading and writing `processed_jobs.json` are not modelled.
  - The file content before the run is a `StoreFile` value: missing, undecodable, or a list of ids.
  - The write is the returned `StoreFile`.
  - JSON that decodes to something other than a list of strings is not represented, nor are write errors or the `indent=4` layout.
  - Read errors are not represented. A file that cannot be opened, or whose bytes are not valid text in the locale encoding, makes `get_processed_jobs` raise and `main` stop before scraping. Only `json.JSONDecodeError` is caught, so `Undecodable` stands for readable text that is not valid JSON.
- The MIME message, the SMTP session (login, send, quit) and its caught exceptions are not modelled. `SendEmail` returns the message that would be handed to the server.
- Environment variables and the clock are not read. The credentials are a `Credentials` parameter, and `datetime.now().strftime('%Y-%m-%d')` is the `today` parameter.
- Log lines (`print`) are not modelled.
- Notify.BodyRoundTrip: requires that no url contains `'` and no text contains `<`, because the body escapes nothing. With such characters the item boundaries are ambiguous.
- Dedup.DedupKeepsDistinct: requires the loaded list to be free of repeats, because the code does not check the file it loads.
- Runner.RunKeepsDistinct: requires the loaded list to be free of repeats, for the same reason.
