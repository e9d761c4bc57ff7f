/**
  One run of the script: scrape the grid, keep the matching postings, keep
  those not reported before (recording them in the store), and compose the
  digest. The store text and the credentials are inputs; the updated store
  and the outcome of the email step are the results.
*/
module Pipeline {
  import opened Text
  import opened Grid
  import opened GridWalk
  import opened Matching
  import opened SeenStore
  import opened Digest
  import opened Seqs

  datatype Run = Run(reported: seq<Job>, store: string, outcome: Outcome)

  /** A scraped record is reported when it matches and its key is not in the store. */
  function Reportable(store: string): Job -> bool {
    j => Matches(j) && IsNew(store, j)
  }

  /**
    The main block: scrape, filter, diff against the store, compose. The
    reported jobs are the scraped records that are reportable, in scraped
    order and with their repetitions, so the subject counts every copy.
  */
  function RunOnce(sf: Surface, store: string, email: Option<string>, password: Option<string>): (r: Run)
    requires Bounded(sf)
    ensures forall j :: j in r.reported <==> j in Scrape(sf) && Matches(j) && IsNew(store, j)
    ensures r.reported == Select(Scrape(sf), Reportable(store))
    ensures forall j :: multiset(r.reported)[j] == if Matches(j) && IsNew(store, j) then multiset(Scrape(sf))[j] else 0
    ensures |r.store| >= |store| && r.store[..|store|] == store
    ensures r.outcome.Send? <==> r.reported != [] && Present(email) && Present(password)
    ensures r.outcome.Send? ==> SubjectCount(r.outcome.subject) == Some(|r.reported|)
  {
    var all := Scrape(sf);
    var matches := FilterForMatches(all);
    var diff := GetNewJobs(store, matches);
    SelectSelect(all, Matches, Unseen(store), Reportable(store));
    SelectCounts(all, Reportable(store));
    Run(diff.0, diff.1, Compose(diff.0, email, password))
  }

  /** Every reported job is a well-formed scraped record. */
  lemma ReportedWellFormed(sf: Surface, store: string, email: Option<string>, password: Option<string>)
    requires Bounded(sf)
    ensures forall j :: j in RunOnce(sf, store, email, password).reported ==> WellFormed(j)
  {
    var all := Scrape(sf);
    assert forall j :: j in all ==> WellFormed(j);
  }

  /**
    Running again on the same grid with the store the first run left sends
    nothing: every job the first run could report is now in the store.
  */
  lemma SecondRunSendsNothing(sf: Surface, store: string, email: Option<string>, password: Option<string>)
    requires Bounded(sf)
    requires Terminated(store)
    requires forall j :: j in Scrape(sf) ==> SingleLine(Key(j)) && NoReturn(Key(j))
    ensures var first := RunOnce(sf, store, email, password);
      && RunOnce(sf, first.store, email, password).reported == []
      && RunOnce(sf, first.store, email, password).outcome == Skipped(NoNewJobs)
  {
    var all := Scrape(sf);
    var matches := FilterForMatches(all);
    assert forall j :: j in all ==> WellFormed(j);
    SecondCallFindsNothing(store, matches);
  }
}
