/** `main`: load the processed ids, scrape, keep the postings whose id is new, and only when there
    are some, send the email and write the extended list back. The file is a value passed in and
    handed back; reading and writing it are outside the model. */
module Runner {
  import opened Wrappers
  import opened Scrape
  import opened Dedup
  import opened Notify

  /** What is on disk under `processed_jobs.json` before a run: no file, a readable text file that
      is not valid JSON, or a JSON list of ids. */
  datatype StoreFile = Missing | Undecodable | Stored(ids: seq<string>)

  /** `get_processed_jobs`: a missing file and one whose text is not valid JSON both read as the
      empty list. */
  function LoadProcessed(store: StoreFile): seq<string> {
    if store.Stored? then store.ids else []
  }

  /** What one run did: the postings it found new, whether `send_email` was called, the message
      handed to the mail server (if the credentials let it get that far), whether
      `save_processed_jobs` was called, and the file afterwards. */
  datatype RunReport = RunReport(newJobs: seq<Job>, notified: bool, email: Option<Message>, saved: bool, store: StoreFile)

  /** The postings a run finds new. */
  function FreshJobs(store: StoreFile, outcome: FetchOutcome): seq<Job> {
    NewJobs(Candidates(outcome), Elems(LoadProcessed(store)))
  }

  /** The file after a run: rewritten with the loaded list extended by the new ids when there are
      new postings, left as it was otherwise. */
  function NextStore(store: StoreFile, outcome: FetchOutcome): StoreFile {
    var added := FreshJobs(store, outcome);
    if added == [] then store else Stored(LoadProcessed(store) + Ids(added))
  }

  /** `main`. `today` stands for the date the subject line carries. */
  method Run(store: StoreFile, outcome: FetchOutcome, config: Credentials, today: string) returns (report: RunReport)
    ensures report.newJobs == FreshJobs(store, outcome)
    ensures report.notified <==> report.newJobs != []
    ensures report.email.Some? <==> report.notified && CredentialsPresent(config)
    ensures report.email.Some? ==>
      report.email.value ==
        Message(config.sender.value, config.receiver.value, Subject(|report.newJobs|, today), Body(report.newJobs))
    ensures report.saved <==> report.newJobs != []
    ensures report.store == NextStore(store, outcome)
  {
    var processed := LoadProcessed(store);
    var allJobs := ScrapeJobs(outcome);
    var newJobs, updated := Deduplicate(allJobs, processed);
    var email: Option<Message> := None;
    var written := store;
    if newJobs != [] {
      email := SendEmail(config, newJobs, today);
      written := Stored(updated);
    }
    report := RunReport(newJobs, newJobs != [], email, newJobs != [], written);
  }

  /** The list after a run is the list before it followed by the ids of the new postings, in order;
      nothing is removed or reordered. */
  lemma {:induction false} RunExtendsList(store: StoreFile, outcome: FetchOutcome)
    ensures LoadProcessed(NextStore(store, outcome)) == LoadProcessed(store) + Ids(FreshJobs(store, outcome))
  {
    if FreshJobs(store, outcome) == [] {
      assert Ids([]) == [];
      assert LoadProcessed(store) + [] == LoadProcessed(store);
    }
  }

  /** A second run on the same page finds nothing new and leaves the file as the first run left it. */
  lemma SecondRunFindsNothing(store: StoreFile, outcome: FetchOutcome)
    ensures FreshJobs(NextStore(store, outcome), outcome) == []
    ensures NextStore(NextStore(store, outcome), outcome) == NextStore(store, outcome)
  {
    var loaded := LoadProcessed(store);
    RunExtendsList(store, outcome);
    DedupIdempotent(Candidates(outcome), loaded);
  }

  /** The ids recorded only grow, and after a run every candidate's id is among them, whether or not
      the file was rewritten. */
  lemma RunRecordsCandidates(store: StoreFile, outcome: FetchOutcome)
    ensures Elems(LoadProcessed(store)) <= Elems(LoadProcessed(NextStore(store, outcome)))
    ensures Elems(Ids(Candidates(outcome))) <= Elems(LoadProcessed(NextStore(store, outcome)))
  {
    var loaded := LoadProcessed(store);
    var added := FreshJobs(store, outcome);
    RunExtendsList(store, outcome);
    ElemsAppend(loaded, Ids(added));
    NewJobsCoverCandidates(Candidates(outcome), Elems(loaded));
  }

  /** When the request fails or the status is an error, there are no candidates, nothing is new,
      no email is sent and the file is left as it was. */
  lemma FetchFailureChangesNothing(store: StoreFile, outcome: FetchOutcome)
    requires outcome.RequestFailed? || RaisesForStatus(outcome.status)
    ensures Candidates(outcome) == [] && FreshJobs(store, outcome) == []
    ensures NextStore(store, outcome) == store
  {
  }

  /** A list without repeated ids stays without repeated ids. */
  lemma RunKeepsDistinct(store: StoreFile, outcome: FetchOutcome)
    requires Distinct(LoadProcessed(store))
    ensures Distinct(LoadProcessed(NextStore(store, outcome)))
  {
    RunExtendsList(store, outcome);
    DedupKeepsDistinct(Candidates(outcome), LoadProcessed(store));
  }

  /** A missing or undecodable file forgets every earlier run: the first posting of every candidate
      id is new again, and the file is replaced by their ids alone. */
  lemma LostStoreRenotifies(store: StoreFile, outcome: FetchOutcome, id: string)
    requires !store.Stored?
    requires id in Elems(Ids(Candidates(outcome)))
    ensures FirstWithId(Candidates(outcome), id).Some?
    ensures FirstWithId(Candidates(outcome), id).value in FreshJobs(store, outcome)
    ensures NextStore(store, outcome) == Stored(Ids(FreshJobs(store, outcome)))
  {
    UnseenIdsAreNew(Candidates(outcome), {}, id);
    assert Elems([]) == {};
  }
}
