/** The deduplication pass of `main`: each candidate whose id has not been processed yet is new,
    and its id is recorded at once, so a later candidate with the same id in the same run is not. */
module Dedup {
  import opened Wrappers
  import opened Scrape

  /** The ids of the given postings, in order. */
  function Ids(jobs: seq<Job>): seq<string> {
    seq(|jobs|, i requires 0 <= i < |jobs| => jobs[i].id)
  }

  /** `set(ids)`. */
  function Elems(ids: seq<string>): set<string> {
    set x | x in ids
  }

  /** No id appears twice. */
  predicate Distinct(ids: seq<string>) {
    forall i, j :: 0 <= i < j < |ids| ==> ids[i] != ids[j]
  }

  /** The postings the pass classifies as new, given the ids seen so far: the first posting of
      every id that has not been seen, in candidate order. */
  function NewJobs(jobs: seq<Job>, seen: set<string>): (r: seq<Job>)
    ensures |r| <= |jobs|
    ensures forall j :: j in r ==> j in jobs && j.id !in seen
  {
    if jobs == [] then []
    else if jobs[0].id in seen then NewJobs(jobs[1..], seen)
    else [jobs[0]] + NewJobs(jobs[1..], seen + {jobs[0].id})
  }

  /** The first posting with the given id, if any. */
  function FirstWithId(jobs: seq<Job>, id: string): Option<Job> {
    if jobs == [] then None
    else if jobs[0].id == id then Some(jobs[0])
    else FirstWithId(jobs[1..], id)
  }

  /** `xs` is `ys` with some elements left out, the order kept. */
  ghost predicate SubsequenceOf<T>(xs: seq<T>, ys: seq<T>)
    decreases |ys|
  {
    if xs == [] then true
    else if ys == [] then false
    else (xs[0] == ys[0] && SubsequenceOf(xs[1..], ys[1..])) || SubsequenceOf(xs, ys[1..])
  }

  /** The loop of `main` over the scraped postings. `processed` is the loaded list of ids; the
      set built from it serves the membership test and grows with the list. */
  method Deduplicate(allJobs: seq<Job>, processed: seq<string>) returns (newJobs: seq<Job>, updated: seq<string>)
    ensures newJobs == NewJobs(allJobs, Elems(processed))
    ensures updated == processed + Ids(newJobs)
    ensures Elems(updated) == Elems(processed) + Elems(Ids(allJobs))
  {
    ghost var target := NewJobs(allJobs, Elems(processed));
    newJobs := [];
    updated := processed;
    var processedSet := Elems(processed);
    var i := 0;
    while i < |allJobs|
      invariant 0 <= i <= |allJobs|
      invariant updated == processed + Ids(newJobs)
      invariant processedSet == Elems(updated)
      invariant newJobs + NewJobs(allJobs[i..], processedSet) == target
    {
      var job := allJobs[i];
      assert allJobs[i..] == [job] + allJobs[i + 1..];
      DedupStep(processed, newJobs, updated, processedSet, job, allJobs[i + 1..], target);
      if job.id !in processedSet {
        newJobs := newJobs + [job];
        updated := updated + [job.id];
        processedSet := processedSet + {job.id};
      }
      i := i + 1;
    }
    NewJobsCoverCandidates(allJobs, Elems(processed));
    ElemsAppend(processed, Ids(newJobs));
  }

  /** One iteration of the pass keeps the loop's invariants: the list and the set stay in step, and
      the new postings so far followed by those still to come are the whole result. */
  lemma DedupStep(processed: seq<string>, newJobs: seq<Job>, updated: seq<string>, seen: set<string>,
                  job: Job, rest: seq<Job>, target: seq<Job>)
    requires updated == processed + Ids(newJobs)
    requires seen == Elems(updated)
    requires newJobs + NewJobs([job] + rest, seen) == target
    ensures job.id in seen ==> newJobs + NewJobs(rest, seen) == target
    ensures job.id !in seen ==>
      && updated + [job.id] == processed + Ids(newJobs + [job])
      && seen + {job.id} == Elems(updated + [job.id])
      && (newJobs + [job]) + NewJobs(rest, seen + {job.id}) == target
  {
    NewJobsCons(job, rest, seen);
    if job.id !in seen {
      var tail := NewJobs(rest, seen + {job.id});
      assert newJobs + ([job] + tail) == (newJobs + [job]) + tail;
      RecordId(processed, newJobs, updated, job);
    }
  }

  /** Recording a new posting's id extends both the list and the set by that id. */
  lemma RecordId(processed: seq<string>, newJobs: seq<Job>, updated: seq<string>, job: Job)
    requires updated == processed + Ids(newJobs)
    ensures updated + [job.id] == processed + Ids(newJobs + [job])
    ensures Elems(updated) + {job.id} == Elems(updated + [job.id])
  {
    IdsAppend(newJobs, [job]);
    assert Ids([job]) == [job.id];
    ElemsAppend(updated, [job.id]);
    assert Elems([job.id]) == {job.id};
  }

  lemma IdsAppend(a: seq<Job>, b: seq<Job>)
    ensures Ids(a + b) == Ids(a) + Ids(b)
  {
  }

  lemma ElemsAppend(a: seq<string>, b: seq<string>)
    ensures Elems(a + b) == Elems(a) + Elems(b)
  {
  }

  /** One step of the pass: the first candidate is new exactly when its id is unseen. */
  lemma NewJobsCons(job: Job, rest: seq<Job>, seen: set<string>)
    ensures NewJobs([job] + rest, seen) ==
      if job.id in seen then NewJobs(rest, seen) else [job] + NewJobs(rest, seen + {job.id})
  {
    assert ([job] + rest)[1..] == rest;
  }

  /** No two new postings share an id. */
  lemma {:induction false} NewJobsDistinct(jobs: seq<Job>, seen: set<string>)
    ensures Distinct(Ids(NewJobs(jobs, seen)))
    decreases |jobs|
  {
    if jobs != [] {
      if jobs[0].id in seen {
        NewJobsDistinct(jobs[1..], seen);
      } else {
        var tail := NewJobs(jobs[1..], seen + {jobs[0].id});
        NewJobsDistinct(jobs[1..], seen + {jobs[0].id});
        IdsAppend([jobs[0]], tail);
        assert forall k :: 0 <= k < |tail| ==> tail[k] in tail;
      }
    }
  }

  /** The new postings are the candidates with some left out, in candidate order. */
  lemma {:induction false} NewJobsSubsequence(jobs: seq<Job>, seen: set<string>)
    ensures SubsequenceOf(NewJobs(jobs, seen), jobs)
    decreases |jobs|
  {
    if jobs != [] {
      var r := NewJobs(jobs, seen);
      if jobs[0].id in seen {
        NewJobsSubsequence(jobs[1..], seen);
        if r != [] {
          assert SubsequenceOf(r, jobs[1..]);
        }
      } else {
        NewJobsSubsequence(jobs[1..], seen + {jobs[0].id});
        assert r[0] == jobs[0] && r[1..] == NewJobs(jobs[1..], seen + {jobs[0].id});
      }
    }
  }

  /** Each new posting is the first candidate carrying its id. */
  lemma {:induction false} NewJobsAreFirstOccurrences(jobs: seq<Job>, seen: set<string>, j: Job)
    requires j in NewJobs(jobs, seen)
    ensures FirstWithId(jobs, j.id) == Some(j)
    decreases |jobs|
  {
    if jobs[0].id in seen {
      NewJobsAreFirstOccurrences(jobs[1..], seen, j);
    } else if j != jobs[0] {
      assert j in NewJobs(jobs[1..], seen + {jobs[0].id});
      NewJobsAreFirstOccurrences(jobs[1..], seen + {jobs[0].id}, j);
    }
  }

  /** Every candidate id that had not been seen has its first posting among the new ones. */
  lemma {:induction false} UnseenIdsAreNew(jobs: seq<Job>, seen: set<string>, id: string)
    requires id in Elems(Ids(jobs)) && id !in seen
    ensures FirstWithId(jobs, id).Some? && FirstWithId(jobs, id).value in NewJobs(jobs, seen)
    decreases |jobs|
  {
    if jobs[0].id != id {
      assert id in Elems(Ids(jobs[1..])) by {
        var k :| 0 <= k < |jobs| && Ids(jobs)[k] == id;
        assert k != 0 && Ids(jobs[1..])[k - 1] == id;
      }
      if jobs[0].id in seen {
        UnseenIdsAreNew(jobs[1..], seen, id);
      } else {
        UnseenIdsAreNew(jobs[1..], seen + {jobs[0].id}, id);
      }
    }
  }

  /** After the pass every candidate id is recorded: the seen ids plus the new ones are exactly the
      seen ids plus all candidate ids. */
  lemma {:induction false} NewJobsCoverCandidates(jobs: seq<Job>, seen: set<string>)
    ensures seen + Elems(Ids(NewJobs(jobs, seen))) == seen + Elems(Ids(jobs))
    decreases |jobs|
  {
    if jobs != [] {
      var h := jobs[0].id;
      assert Ids(jobs) == [h] + Ids(jobs[1..]);
      ElemsAppend([h], Ids(jobs[1..]));
      assert Elems([h]) == {h};
      if h in seen {
        NewJobsCoverCandidates(jobs[1..], seen);
      } else {
        var tail := NewJobs(jobs[1..], seen + {h});
        assert NewJobs(jobs, seen) == [jobs[0]] + tail;
        assert Ids([jobs[0]]) == [h];
        assert Elems([h]) == {h};
        NewJobsCoverCandidates(jobs[1..], seen + {h});
        IdsAppend([jobs[0]], tail);
        ElemsAppend([h], Ids(tail));
        calc {
          seen + Elems(Ids(NewJobs(jobs, seen)));
          seen + ({h} + Elems(Ids(tail)));
          (seen + {h}) + Elems(Ids(tail));
          (seen + {h}) + Elems(Ids(jobs[1..]));
          seen + Elems(Ids(jobs));
        }
      }
    }
  }

  /** When every candidate id has been seen, nothing is new. */
  lemma {:induction false} NothingNewWhenAllSeen(jobs: seq<Job>, seen: set<string>)
    requires Elems(Ids(jobs)) <= seen
    ensures NewJobs(jobs, seen) == []
    decreases |jobs|
  {
    if jobs != [] {
      assert jobs[0].id == Ids(jobs)[0];
      assert Elems(Ids(jobs[1..])) <= Elems(Ids(jobs)) by {
        forall x | x in Elems(Ids(jobs[1..])) ensures x in Elems(Ids(jobs)) {
          var k :| 0 <= k < |jobs| - 1 && Ids(jobs[1..])[k] == x;
          assert Ids(jobs)[k + 1] == x;
        }
      }
      NothingNewWhenAllSeen(jobs[1..], seen);
    }
  }

  /** Running the pass again on the same candidates with the updated list finds nothing new. */
  lemma DedupIdempotent(jobs: seq<Job>, processed: seq<string>)
    ensures NewJobs(jobs, Elems(processed + Ids(NewJobs(jobs, Elems(processed))))) == []
  {
    var added := Ids(NewJobs(jobs, Elems(processed)));
    NewJobsCoverCandidates(jobs, Elems(processed));
    assert Elems(processed + added) == Elems(processed) + Elems(added);
    NothingNewWhenAllSeen(jobs, Elems(processed + added));
  }

  /** A list of ids without duplicates stays without duplicates after the pass. */
  lemma DedupKeepsDistinct(jobs: seq<Job>, processed: seq<string>)
    requires Distinct(processed)
    ensures Distinct(processed + Ids(NewJobs(jobs, Elems(processed))))
  {
    var added := Ids(NewJobs(jobs, Elems(processed)));
    NewJobsDistinct(jobs, Elems(processed));
    var all := processed + added;
    forall i, j | 0 <= i < j < |all| ensures all[i] != all[j] {
      if j >= |processed| {
        var nj := NewJobs(jobs, Elems(processed))[j - |processed|];
        assert nj in NewJobs(jobs, Elems(processed));
        if i < |processed| {
          assert all[i] in Elems(processed);
        }
      }
    }
  }
}
