/**
  The allow-list filter `filter_for_matches`: keep, in order, the records whose
  graduation time and hire time both appear in fixed lists of wanted values.
  Membership is exact string equality; "N/A" is in both lists, so a record
  whose two fields were blank is kept.
*/
module Matching {
  import opened Text
  import opened Grid
  import opened Seqs

  const WantedGradTimes: seq<string> := ["2027-December", "2028", "2028-Spring", "2028-Summer", "N/A", "2027-Winter"]
  const WantedHireTimes: seq<string> := ["2026-Summer", "Summer", "2026-May", "2026-June", "2026-July", "N/A"]

  /** Both the graduation time and the hire time are wanted values. */
  predicate Matches(job: Job) {
    job.gradTime in WantedGradTimes && job.hireTime in WantedHireTimes
  }

  /** The matching records, in input order. */
  function FilterForMatches(jobs: seq<Job>): (r: seq<Job>)
    ensures |r| <= |jobs|
    ensures forall j :: j in r <==> j in jobs && Matches(j)
  {
    Select(jobs, Matches)
  }

  /** Each matching record keeps its multiplicity and every other record disappears. */
  lemma FilterCounts(jobs: seq<Job>, j: Job)
    ensures multiset(FilterForMatches(jobs))[j] == if Matches(j) then multiset(jobs)[j] else 0
  {
    SelectCount(jobs, Matches, j);
  }

  /** Filtering a concatenation filters each part: the relative order of kept records is preserved. */
  lemma FilterConcat(a: seq<Job>, b: seq<Job>)
    ensures FilterForMatches(a + b) == FilterForMatches(a) + FilterForMatches(b)
  {
    SelectConcat(a, b, Matches);
  }

  /** A single record is kept exactly when it matches. */
  lemma FilterSingle(j: Job)
    ensures FilterForMatches([j]) == if Matches(j) then [j] else []
  {
    assert [j][1..] == [];
  }

  /** Filtering twice is filtering once. */
  lemma FilterIdempotent(jobs: seq<Job>)
    ensures FilterForMatches(FilterForMatches(jobs)) == FilterForMatches(jobs)
  {
    SelectIdempotent(jobs, Matches);
  }

  /** A record whose graduation and hire cells were both blank carries "N/A" in both, and is kept. */
  lemma FilterAcceptsBlankTimes(sf: Surface, row: string)
    requires AllSpace(sf.cell(row, GradTimeColumn)) && AllSpace(sf.cell(row, HireTimeColumn))
    ensures Matches(Assemble(sf, row))
  {
    assert WantedGradTimes[4] == NotAvailable;
    assert WantedHireTimes[5] == NotAvailable;
  }

  /** Listed values are accepted as they are; any other spelling, here a lower-case season, is rejected. */
  lemma FilterIsExactMembership(j: Job)
    requires j.gradTime == "2028" && j.hireTime == "Summer"
    ensures Matches(j)
    ensures !Matches(j.(hireTime := "summer"))
  {
    assert WantedGradTimes[1] == "2028";
    assert WantedHireTimes[1] == "Summer";
    assert "summer"[0] != "Summer"[0];
  }
}
