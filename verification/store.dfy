/**
  The seen-job store of `get_new_jobs`.

  The store is the text of the seen-jobs file. Reading it yields one entry per
  line with surrounding whitespace stripped; a job is new when its key
  `title-company` is not among those entries. All new jobs of a batch are
  returned (the entries are not updated while the batch is scanned) and their
  keys are appended to the text, one per line.
*/
module SeenStore {
  import opened Text
  import opened Grid
  import opened Seqs

  /** The key a job is remembered by: its title, a hyphen, its company. */
  function Key(job: Job): string {
    job.title + "-" + job.company
  }

  /**
    The lines of `t` without their terminators, as iterating over a text file
    yields them: a final newline does not open an empty last line.
  */
  function Lines(t: string): seq<string>
    decreases |t|
  {
    if t == [] then []
    else
      var n := FirstIndex(t, '\n');
      [t[..n]] + (if n == |t| then [] else Lines(t[n + 1..]))
  }

  /** The text is empty or ends with a newline, as every text this module writes does. */
  predicate Terminated(t: string) {
    t == [] || t[|t| - 1] == '\n'
  }

  /** The entries of the store: every line, stripped, so no entry has surrounding whitespace. */
  function SeenKeys(t: string): (r: set<string>)
    ensures forall k :: k in r ==> Trimmed(k)
  {
    set l | l in Lines(t) :: Strip(l)
  }

  /** The keys of a list of jobs, in order. */
  function Keys(jobs: seq<Job>): (r: seq<string>)
    ensures |r| == |jobs|
    ensures forall i :: 0 <= i < |jobs| ==> r[i] == Key(jobs[i])
  {
    if jobs == [] then [] else [Key(jobs[0])] + Keys(jobs[1..])
  }

  /** The text appended for a list of jobs: each key followed by a newline. */
  function KeyLines(jobs: seq<Job>): (r: string)
    ensures Terminated(r)
    ensures r == [] <==> jobs == []
  {
    if jobs == [] then [] else Key(jobs[0]) + "\n" + KeyLines(jobs[1..])
  }

  /** The text appended for a concatenation is the texts appended for each part. */
  lemma {:induction false} KeyLinesConcat(a: seq<Job>, b: seq<Job>)
    ensures KeyLines(a + b) == KeyLines(a) + KeyLines(b)
  {
    if a == [] {
      assert a + b == b;
    } else {
      assert (a + b)[0] == a[0];
      assert (a + b)[1..] == a[1..] + b;
      KeyLinesConcat(a[1..], b);
      SeqAssoc(Key(a[0]) + "\n", KeyLines(a[1..]), KeyLines(b));
    }
  }

  /** Whether a job's key is absent from the store. */
  predicate IsNew(t: string, job: Job) {
    Key(job) !in SeenKeys(t)
  }

  /** The test `get_new_jobs` applies to each job of the batch. */
  function Unseen(t: string): Job -> bool {
    j => IsNew(t, j)
  }

  /**
    `get_new_jobs`: the jobs whose key is not yet in the store, in input
    order and with repetitions, and the store with their keys appended.
  */
  function GetNewJobs(t: string, jobs: seq<Job>): (r: (seq<Job>, string))
    ensures forall j :: j in r.0 <==> j in jobs && Key(j) !in SeenKeys(t)
    ensures |r.0| <= |jobs|
    ensures |r.1| >= |t| && r.1[..|t|] == t
  {
    var unseen := Select(jobs, Unseen(t));
    (unseen, t + KeyLines(unseen))
  }

  /**
    Diffing a concatenated batch against one store is diffing each part
    against that store: the entries are not updated while the batch is
    scanned, so the returned jobs and the appended keys come part by part.
  */
  lemma GetNewJobsConcat(t: string, a: seq<Job>, b: seq<Job>)
    ensures GetNewJobs(t, a + b).0 == GetNewJobs(t, a).0 + GetNewJobs(t, b).0
    ensures GetNewJobs(t, a + b).1 == GetNewJobs(t, a).1 + KeyLines(GetNewJobs(t, b).0)
  {
    var ua, ub := Select(a, Unseen(t)), Select(b, Unseen(t));
    SelectConcat(a, b, Unseen(t));
    KeyLinesConcat(ua, ub);
    SeqAssoc(t, KeyLines(ua), KeyLines(ub));
  }

  /** A key that contains no line break. */
  predicate SingleLine(s: string) {
    forall i :: 0 <= i < |s| ==> s[i] != '\n'
  }

  /**
    A key without a carriage return. Reading a file in text mode also ends a
    line at a lone `\r`, which `Lines` does not; for keys without one the two
    splittings of the appended text agree.
  */
  predicate NoReturn(s: string) {
    forall i :: 0 <= i < |s| ==> s[i] != '\r'
  }

  /** A text whose first line is terminated: that line, then the lines of what follows the newline. */
  lemma LinesCons(t: string, n: nat)
    requires n == FirstIndex(t, '\n') && n < |t|
    ensures Lines(t) == [t[..n]] + Lines(t[n + 1..])
  {
  }

  /** A non-empty terminated text holds a newline. */
  lemma TerminatedHasNewline(t: string)
    requires Terminated(t) && t != []
    ensures FirstIndex(t, '\n') < |t|
  {
  }

  /** What follows any position of a terminated text is terminated. */
  lemma TerminatedRest(t: string, n: nat)
    requires Terminated(t) && n < |t|
    ensures Terminated(t[n + 1..])
  {
    if n + 1 < |t| {
      assert t[n + 1..][|t| - n - 2] == t[|t| - 1];
    }
  }

  /** Appending to a terminated text appends lines. */
  lemma {:induction false} LinesAppend(a: string, b: string)
    requires Terminated(a)
    ensures Lines(a + b) == Lines(a) + Lines(b)
    decreases |a|
  {
    if a == [] {
      assert a + b == b;
    } else {
      TerminatedHasNewline(a);
      var n := FirstIndex(a, '\n');
      var tail := a[n + 1..];
      LinesCons(a, n);
      assert Lines(a + b) == [a[..n]] + Lines(tail + b) by {
        FirstIndexPrefix(a, b, '\n');
        LinesCons(a + b, n);
        SlicesOfAppend(a, b, n);
      }
      TerminatedRest(a, n);
      LinesAppend(tail, b);
      SeqAssoc([a[..n]], Lines(tail), Lines(b));
    }
  }

  /** A single-line key followed by a newline reads back as exactly that line. */
  lemma {:induction false} LinesOfOneLine(k: string)
    requires SingleLine(k)
    ensures Lines(k + "\n") == [k]
  {
    var t := k + "\n";
    FirstIndexAfter(k, "\n", '\n');
    assert t[..|k|] == k;
    assert t[|k| + 1..] == [];
  }

  /** The appended text reads back as the keys, one per line. */
  lemma {:induction false} LinesOfKeyLines(jobs: seq<Job>)
    requires forall j :: j in jobs ==> SingleLine(Key(j))
    ensures Lines(KeyLines(jobs)) == Keys(jobs)
  {
    if jobs != [] {
      var head := Key(jobs[0]) + "\n";
      LinesOfKeyLines(jobs[1..]);
      LinesOfOneLine(Key(jobs[0]));
      LinesAppend(head, KeyLines(jobs[1..]));
    }
  }

  /**
    The store update: the old lines are kept and the lines appended are
    exactly the keys of the returned jobs, in order.
  */
  lemma StoreUpdate(t: string, jobs: seq<Job>)
    requires Terminated(t)
    requires forall j :: j in jobs ==> SingleLine(Key(j))
    ensures var r := GetNewJobs(t, jobs);
      && Terminated(r.1)
      && Lines(r.1) == Lines(t) + Keys(r.0)
  {
    var unseen := Select(jobs, Unseen(t));
    assert GetNewJobs(t, jobs) == (unseen, t + KeyLines(unseen));
    assert forall j :: j in unseen ==> SingleLine(Key(j));
    LinesOfKeyLines(unseen);
    LinesAppend(t, KeyLines(unseen));
  }

  /** The returned jobs keep their multiplicity in the batch; jobs whose key is seen are dropped entirely. */
  lemma NewJobsCount(t: string, jobs: seq<Job>, j: Job)
    ensures multiset(GetNewJobs(t, jobs).0)[j] == if IsNew(t, j) then multiset(jobs)[j] else 0
  {
    SelectCount(jobs, Unseen(t), j);
  }

  /** Whether a job is returned depends only on its key: jobs with equal title and company share their fate. */
  lemma SameKeySameFate(t: string, jobs: seq<Job>, a: Job, b: Job)
    requires a in jobs && b in jobs && Key(a) == Key(b)
    ensures a in GetNewJobs(t, jobs).0 <==> b in GetNewJobs(t, jobs).0
  {
  }

  /** A batch holding the same unseen job twice returns it twice: the entries are not updated during the scan. */
  lemma DuplicatesInBatchKept(t: string, j: Job)
    requires IsNew(t, j)
    ensures GetNewJobs(t, [j, j]).0 == [j, j]
  {
    SelectAllKept([j, j], Unseen(t));
  }

  /** The key of a scraped record has no surrounding whitespace, so stripping its stored line gives it back. */
  lemma WellFormedKeyTrimmed(job: Job)
    requires WellFormed(job)
    ensures Trimmed(Key(job)) && Key(job) != []
    ensures Strip(Key(job)) == Key(job)
  {
    var k := Key(job);
    assert k[0] == job.title[0];
    assert k[|k| - 1] == job.company[|job.company| - 1];
    StripTrimmed(k);
  }

  /** Entries are never lost: lines added after the old ones leave the old entries in place. */
  lemma {:induction false} SeenKeysKept(t: string, t': string, added: seq<string>)
    requires Lines(t') == Lines(t) + added
    ensures SeenKeys(t) <= SeenKeys(t')
  {
    forall l | l in Lines(t)
      ensures l in Lines(t')
    {
    }
  }

  /** After the update, the store holds every entry it held before and the key of every returned job. */
  lemma {:induction false} UpdateRecordsKeys(t: string, jobs: seq<Job>)
    requires Terminated(t)
    requires forall j :: j in jobs ==> SingleLine(Key(j))
    ensures var r := GetNewJobs(t, jobs);
      && SeenKeys(t) <= SeenKeys(r.1)
      && forall j :: j in r.0 ==> Key(j) in Lines(r.1)
  {
    var r := GetNewJobs(t, jobs);
    StoreUpdate(t, jobs);
    var before := Lines(t);
    var keys := Keys(r.0);
    SeenKeysKept(t, r.1, keys);
    forall j | j in r.0
      ensures Key(j) in Lines(r.1)
    {
      var i :| 0 <= i < |r.0| && r.0[i] == j;
      assert (before + keys)[|before| + i] == keys[i];
    }
  }

  /** After the update, every job of the batch has its key in the store. */
  lemma {:induction false} AllSeenAfterUpdate(t: string, jobs: seq<Job>)
    requires Terminated(t)
    requires forall j :: j in jobs ==> WellFormed(j) && SingleLine(Key(j))
    requires forall j :: j in jobs ==> NoReturn(Key(j))
    ensures forall j :: j in jobs ==> Key(j) in SeenKeys(GetNewJobs(t, jobs).1)
  {
    var r := GetNewJobs(t, jobs);
    UpdateRecordsKeys(t, jobs);
    forall j | j in jobs
      ensures Key(j) in SeenKeys(r.1)
    {
      WellFormedKeyTrimmed(j);
    }
  }

  /** Running the diff again on the same batch against the updated store finds nothing new. */
  lemma SecondCallFindsNothing(t: string, jobs: seq<Job>)
    requires Terminated(t)
    requires forall j :: j in jobs ==> WellFormed(j) && SingleLine(Key(j))
    requires forall j :: j in jobs ==> NoReturn(Key(j))
    ensures GetNewJobs(GetNewJobs(t, jobs).1, jobs).0 == []
  {
    var t' := GetNewJobs(t, jobs).1;
    AllSeenAfterUpdate(t, jobs);
    assert forall i :: 0 <= i < |jobs| ==> jobs[i] in jobs;
    SelectNoneKept(jobs, Unseen(t'));
  }

  /** No line of a text holds a line break. */
  lemma {:induction false} LinesAreSingleLine(t: string)
    ensures forall l :: l in Lines(t) ==> SingleLine(l)
    decreases |t|
  {
    if t != [] {
      var n := FirstIndex(t, '\n');
      var first := t[..n];
      assert SingleLine(first) by {
        assert forall i :: 0 <= i < n ==> first[i] == t[i];
      }
      var rest := if n == |t| then [] else Lines(t[n + 1..]);
      if n < |t| {
        LinesAreSingleLine(t[n + 1..]);
      }
      assert Lines(t) == [first] + rest;
      forall l | l in Lines(t)
        ensures SingleLine(l)
      {
        if l != first {
          assert l in rest;
        }
      }
    }
  }

  /** Stripping keeps a single-line string single-line. */
  lemma StripSingleLine(s: string)
    requires SingleLine(s)
    ensures SingleLine(Strip(s))
  {
    var i := LeadingSpace(s);
    if i < |s| {
      var j := |s| - TrailingSpace(s);
      var r := Strip(s);
      assert r == s[i..j];
      assert forall k :: 0 <= k < |r| ==> r[k] == s[i + k];
    }
  }

  /**
    Every entry of a store is single-line, so a job whose key holds a line
    break (a title or company cell spanning lines) is new against every store
    and is reported on every run.
  */
  lemma {:induction false} MultiLineKeyNeverSeen(t: string, j: Job)
    requires !SingleLine(Key(j))
    ensures IsNew(t, j)
    ensures GetNewJobs(t, [j]).0 == [j]
  {
    LinesAreSingleLine(t);
    forall l | l in Lines(t)
      ensures Strip(l) != Key(j)
    {
      StripSingleLine(l);
    }
    SelectAllKept([j], Unseen(t));
  }
}
