/**
  The end-to-end run on a grid with a single posting whose apply anchor is
  missing, against an empty store and with both credentials set: the posting
  is scraped once, matches, is new, its key is stored, and the digest
  announces one job and shows its fields with the apply link as "N/A".
*/
module Scenario {
  import opened Text
  import opened Grid
  import opened GridWalk
  import opened Matching
  import opened SeenStore
  import opened Digest
  import opened Pipeline
  import opened Seqs

  /**
    A bounded surface whose first two passes mount the row `id` and nothing
    else; what later passes mount does not matter, since the walk stops after
    the second.
  */
  ghost predicate SingleRow(sf: Surface, id: string) {
    && id != []
    && Bounded(sf)
    && sf.visible(0) == [Some(id)]
    && sf.visible(1) == [Some(id)]
  }

  /** A pass over a single row read is one visit. */
  lemma ScanOne(sf: Surface, row: Option<string>, st: State)
    ensures Scan(sf, [row], st, false)
      == (Visit(sf, st, row), UsableId(row) && row.value !in st.processed)
  {
    assert [row][1..] == [];
  }

  /** Visiting a usable id the state has not processed adds it and its record. */
  lemma VisitNew(sf: Surface, st: State, id: string)
    requires id != [] && id !in st.processed
    ensures Visit(sf, st, Some(id)) == State(st.processed + {id}, st.records + [Assemble(sf, id)])
  {
  }

  /** The first pass finds the row and keeps its record. */
  lemma SingleRowFirstPass(sf: Surface, id: string)
    requires id != [] && sf.visible(0) == [Some(id)]
    ensures Reached(sf, 1) == State({id}, [Assemble(sf, id)])
    ensures FoundNew(sf, 0)
  {
    var job := Assemble(sf, id);
    var after := Visit(sf, Start, Some(id));
    assert Reached(sf, 1) == Scan(sf, sf.visible(0), Start, false).0;
    ScanOne(sf, Some(id), Start);
    assert Reached(sf, 1) == after;
    VisitNew(sf, Start, id);
    assert after == State({id}, [job]) by {
      assert {} + {id} == {id};
      assert [] + [job] == [job];
    }
  }

  /** The second pass sees the same row again and finds nothing. */
  lemma SingleRowSecondPass(sf: Surface, id: string)
    requires id != [] && sf.visible(0) == [Some(id)] && sf.visible(1) == [Some(id)]
    ensures Reached(sf, 2) == State({id}, [Assemble(sf, id)])
    ensures !FoundNew(sf, 1)
  {
    SingleRowFirstPass(sf, id);
    ScanOne(sf, Some(id), State({id}, [Assemble(sf, id)]));
  }

  /** The walk stops after its second pass and keeps one record. */
  lemma SingleRowWalk(sf: Surface, id: string)
    requires SingleRow(sf, id)
    ensures Bounded(sf)
    ensures Walk(sf, 0) == 1
    ensures Scrape(sf) == [Assemble(sf, id)]
  {
    SingleRowFirstPass(sf, id);
    SingleRowSecondPass(sf, id);
  }

  /** Against the empty store, a single job is new and its key becomes the store's only line. */
  lemma EmptyStoreTakesOne(job: Job)
    ensures GetNewJobs([], [job]) == ([job], Key(job) + "\n")
  {
    assert SeenKeys([]) == {};
    SelectAllKept([job], Unseen([]));
    assert GetNewJobs([], [job]).0 == [job];
    assert [job][1..] == [];
    assert KeyLines([job]) == Key(job) + "\n" + [];
    assert [] + (Key(job) + "\n" + []) == Key(job) + "\n";
  }

  /** The digest of one job whose link defaulted: one job announced, its fields shown, "N/A" as the link. */
  lemma OneJobDigest(job: Job, email: string, password: string)
    requires job.applyLink == NotAvailable
    requires email != [] && password != []
    ensures var o := Compose([job], Some(email), Some(password));
      && o == Send(email, email, Subject(1), Body([job]))
      && SubjectCount(o.subject) == Some(1)
      && (Printable(job) ==>
            ParseBody(o.body) == Some([Entry(job.title, job.company, job.location, job.salary, NotAvailable)]))
  {
    assert Entries([job]) == [EntryOf(job)];
  }

  /**
    The whole run on a single matching row whose apply anchor is missing:
    exactly that record is reported and stored, and the digest goes from
    the sender to itself, announces one job, and shows the record's fields
    with "N/A" as the link.
  */
  lemma SingleRowEndToEnd(sf: Surface, id: string, email: string, password: string)
    requires SingleRow(sf, id)
    requires sf.link(id) == NoHref
    requires Matches(Assemble(sf, id))
    requires email != [] && password != []
    ensures Bounded(sf)
    ensures var r := RunOnce(sf, [], Some(email), Some(password));
      var job := Assemble(sf, id);
      && r.reported == [job]
      && r.store == Key(job) + "\n"
      && r.outcome == Send(email, email, Subject(1), Body([job]))
      && SubjectCount(r.outcome.subject) == Some(1)
      && (Printable(job) ==>
            ParseBody(r.outcome.body) == Some([Entry(job.title, job.company, job.location, job.salary, NotAvailable)]))
  {
    SingleRowWalk(sf, id);
    var job := Assemble(sf, id);
    assert FilterForMatches(Scrape(sf)) == [job] by {
      SelectAllKept([job], Matches);
    }
    EmptyStoreTakesOne(job);
    var r := RunOnce(sf, [], Some(email), Some(password));
    assert r.reported == [job] && r.store == Key(job) + "\n";
    assert r.outcome == Compose([job], Some(email), Some(password));
    OneJobDigest(job, email, password);
  }
}
