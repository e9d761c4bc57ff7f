/**
  The vertical grid walk of `scrape_internship`.

  Each pass reads the row ids mounted on the surface, handles the ones not
  handled before (in mounted order), and stops on the first pass that finds
  no new id; otherwise it scrolls one viewport down and starts the next pass.
  The walk state is the set of processed ids and the records assembled so far.

  `Reached(sf, n)` is the state after `n` passes. `Reference(sf, seen)` is an
  independent description of a state: the usable ids among all row reads
  seen, and one record per id in order of first appearance. After any number
  of passes the two agree, and the walk stops at the first pass that shows no
  id unseen before.
*/
module GridWalk {
  import opened Text
  import opened Grid
  import opened Seqs

  datatype State = State(processed: set<string>, records: seq<Job>)

  const Start: State := State({}, [])

  /** A usable row id: present and non-empty (the `not row_id` test). */
  predicate UsableId(row: Option<string>) {
    row.Some? && row.value != []
  }

  /** The id a row read contributes: its value when usable, nothing otherwise. */
  function IdOf(row: Option<string>): set<string> {
    if UsableId(row) then {row.value} else {}
  }

  /** The usable ids among a list of row reads. */
  function Ids(rows: seq<Option<string>>): set<string> {
    if rows == [] then {} else Ids(rows[..|rows| - 1]) + IdOf(rows[|rows| - 1])
  }

  lemma {:induction false} IdsAppend(a: seq<Option<string>>, b: seq<Option<string>>)
    ensures Ids(a + b) == Ids(a) + Ids(b)
    decreases |b|
  {
    if b == [] {
      assert a + b == a;
    } else {
      var init := b[..|b| - 1];
      assert (a + b)[..|a + b| - 1] == a + init;
      IdsAppend(a, init);
    }
  }

  lemma {:induction false} IdsCons(row: Option<string>, rest: seq<Option<string>>)
    ensures Ids([row] + rest) == IdOf(row) + Ids(rest)
  {
    IdsAppend([row], rest);
    assert [row][..0] == [];
  }

  predicate Distinct(ids: seq<string>) {
    forall i, j :: 0 <= i < j < |ids| ==> ids[i] != ids[j]
  }

  /** The usable ids of `rows`, each once, in order of first appearance. */
  function FirstSeen(rows: seq<Option<string>>): seq<string> {
    if rows == [] then []
    else
      var init := rows[..|rows| - 1];
      var last := rows[|rows| - 1];
      var earlier := FirstSeen(init);
      if UsableId(last) && last.value !in Ids(init) then earlier + [last.value] else earlier
  }

  /** `FirstSeen` lists every usable id exactly once. */
  lemma {:induction false} FirstSeenExact(rows: seq<Option<string>>)
    ensures Distinct(FirstSeen(rows))
    ensures forall id :: id in FirstSeen(rows) <==> id in Ids(rows)
  {
    if rows != [] {
      var init := rows[..|rows| - 1];
      var last := rows[|rows| - 1];
      FirstSeenExact(init);
    }
  }

  /** The records of a list of row ids, position for position. */
  function AssembleAll(sf: Surface, ids: seq<string>): seq<Job> {
    Map(ids, Record(sf))
  }

  /** The record of a row id on surface `sf`, as a function of the id. */
  function Record(sf: Surface): string -> Job {
    row => Assemble(sf, row)
  }

  /**
    Reference description of the state after observing exactly the row reads
    `seen`: every usable id seen, and one record per id in first-seen order.
  */
  function Reference(sf: Surface, seen: seq<Option<string>>): State {
    State(Ids(seen), AssembleAll(sf, FirstSeen(seen)))
  }

  /** The row reads of passes `0 .. n-1`, in order. */
  function Seen(sf: Surface, n: nat): seq<Option<string>> {
    if n == 0 then [] else Seen(sf, n - 1) + sf.visible(n - 1)
  }

  /** The state after running the first `n` passes unconditionally. */
  function Reached(sf: Surface, n: nat): State {
    if n == 0 then Start else Scan(sf, sf.visible(n - 1), Reached(sf, n - 1), false).0
  }

  /** The surface mounts only ids of its finite universe. */
  ghost predicate Bounded(sf: Surface) {
    forall p: nat :: Ids(sf.visible(p)) <= sf.universe
  }

  /** Pass `k` mounts no id that the passes before it had not already shown. */
  predicate NothingNew(sf: Surface, k: nat) {
    Ids(sf.visible(k)) <= Ids(Seen(sf, k))
  }

  /**
    Handle one row read: skip it when its id is missing, empty or already
    processed. The processed set gains the read's usable id, and a record is
    appended exactly when that id was new.
  */
  function Visit(sf: Surface, st: State, row: Option<string>): (r: State)
    ensures r.processed == st.processed + IdOf(row)
    ensures r.processed == st.processed ==> r.records == st.records
    ensures r.processed != st.processed ==> row.Some? && r.records == st.records + [Assemble(sf, row.value)]
  {
    if UsableId(row) && row.value !in st.processed then
      State(st.processed + {row.value}, st.records + [Assemble(sf, row.value)])
    else st
  }

  /**
    One pass over the mounted rows, in order. `found` is the pass's
    `new_rows_found` flag; it ends up set exactly when the pass processed a new id.
  */
  function Scan(sf: Surface, rows: seq<Option<string>>, st: State, found: bool): (r: (State, bool))
    ensures st.processed <= r.0.processed
    ensures st.records <= r.0.records
    ensures found ==> r.1
    decreases |rows|
  {
    if rows == [] then (st, found)
    else
      var isNew := UsableId(rows[0]) && rows[0].value !in st.processed;
      var next := Visit(sf, st, rows[0]);
      var r := Scan(sf, rows[1..], next, found || isNew);
      r
  }

  /** A pass adds exactly the usable ids it reads to the processed set. */
  lemma {:induction false} ScanProcesses(sf: Surface, rows: seq<Option<string>>, st: State, found: bool)
    ensures Scan(sf, rows, st, found).0.processed == st.processed + Ids(rows)
    decreases |rows|
  {
    if rows != [] {
      assert rows == [rows[0]] + rows[1..];
      IdsCons(rows[0], rows[1..]);
      var isNew := UsableId(rows[0]) && rows[0].value !in st.processed;
      ScanProcesses(sf, rows[1..], Visit(sf, st, rows[0]), found || isNew);
    }
  }

  /** A pass raises its flag exactly when the processed set grew, and adds one record per new id. */
  lemma {:induction false} ScanFlagsGrowth(sf: Surface, rows: seq<Option<string>>, st: State, found: bool)
    ensures var r := Scan(sf, rows, st, found);
      && st.processed <= r.0.processed
      && (r.1 <==> found || r.0.processed != st.processed)
      && |r.0.records| - |st.records| == |r.0.processed| - |st.processed|
    decreases |rows|
  {
    if rows != [] {
      var isNew := UsableId(rows[0]) && rows[0].value !in st.processed;
      var next := Visit(sf, st, rows[0]);
      ScanFlagsGrowth(sf, rows[1..], next, found || isNew);
    }
  }

  lemma {:induction false} IdsSnoc(seen: seq<Option<string>>, row: Option<string>)
    ensures Ids(seen + [row]) == Ids(seen) + IdOf(row)
  {
    var rows := seen + [row];
    assert rows[..|rows| - 1] == seen;
  }

  lemma {:induction false} FirstSeenSnoc(seen: seq<Option<string>>, row: Option<string>)
    ensures FirstSeen(seen + [row])
      == if UsableId(row) && row.value !in Ids(seen) then FirstSeen(seen) + [row.value] else FirstSeen(seen)
  {
    var rows := seen + [row];
    assert rows[..|rows| - 1] == seen;
    assert rows[|rows| - 1] == row;
  }

  lemma {:induction false} AssembleAllSnoc(sf: Surface, ids: seq<string>, id: string)
    ensures AssembleAll(sf, ids + [id]) == AssembleAll(sf, ids) + [Assemble(sf, id)]
  {
    MapSnoc(ids, id, Record(sf));
  }

  /** Appending one row read to what was observed moves the reference state by one `Visit`. */
  lemma {:induction false} ReferenceStep(sf: Surface, seen: seq<Option<string>>, row: Option<string>)
    ensures Reference(sf, seen + [row]) == Visit(sf, Reference(sf, seen), row)
  {
    IdsSnoc(seen, row);
    FirstSeenSnoc(seen, row);
    var st := Reference(sf, seen);
    if UsableId(row) && row.value !in Ids(seen) {
      AssembleAllSnoc(sf, FirstSeen(seen), row.value);
      assert Visit(sf, st, row) == State(st.processed + {row.value}, st.records + [Assemble(sf, row.value)]);
    } else {
      assert Ids(seen + [row]) == Ids(seen);
      assert FirstSeen(seen + [row]) == FirstSeen(seen);
      assert Visit(sf, st, row) == st;
    }
  }

  /** A pass started from the reference state of `seen` ends in the reference state of `seen` followed by the pass's reads. */
  lemma {:induction false} ScanFromReference(sf: Surface, seen: seq<Option<string>>, rows: seq<Option<string>>, found: bool)
    ensures Scan(sf, rows, Reference(sf, seen), found).0 == Reference(sf, seen + rows)
    decreases |rows|
  {
    if rows == [] {
      assert seen + rows == seen;
    } else {
      var st := Reference(sf, seen);
      var isNew := UsableId(rows[0]) && rows[0].value !in st.processed;
      var longer := seen + [rows[0]];
      ReferenceStep(sf, seen, rows[0]);
      ScanFromReference(sf, longer, rows[1..], found || isNew);
      assert longer + rows[1..] == seen + rows;
    }
  }

  /** After `n` passes the walk state is the reference state of everything those passes read. */
  lemma {:induction false} ReachedIsReference(sf: Surface, n: nat)
    ensures Reached(sf, n) == Reference(sf, Seen(sf, n))
  {
    if n > 0 {
      ReachedIsReference(sf, n - 1);
      ScanFromReference(sf, Seen(sf, n - 1), sf.visible(n - 1), false);
    }
  }

  lemma {:induction false} StrictSubsetSmaller(a: set<string>, b: set<string>)
    requires a < b
    ensures |a| < |b|
  {
    var x :| x in b && x !in a;
    assert x in b - a;
    assert b == a + (b - a);
    assert a * (b - a) == {};
  }

  lemma {:induction false} SubsetNotLarger(a: set<string>, b: set<string>)
    requires a <= b
    ensures |a| <= |b|
  {
    assert b == a + (b - a);
    assert a * (b - a) == {};
  }

  /** A pass never leaves the universe, and a pass that finds something leaves fewer ids unprocessed. */
  lemma {:induction false} PassShrinks(sf: Surface, pass: nat, st: State)
    requires Bounded(sf)
    requires st.processed <= sf.universe
    ensures var step := Scan(sf, sf.visible(pass), st, false);
      && st.processed <= step.0.processed <= sf.universe
      && (step.1 ==> |sf.universe - step.0.processed| < |sf.universe - st.processed|)
  {
    var step := Scan(sf, sf.visible(pass), st, false);
    ScanProcesses(sf, sf.visible(pass), st, false);
    ScanFlagsGrowth(sf, sf.visible(pass), st, false);
    assert Ids(sf.visible(pass)) <= sf.universe;
    if step.1 {
      StrictSubsetSmaller(sf.universe - step.0.processed, sf.universe - st.processed);
    }
  }

  /** Passes only ever process ids of the universe. */
  lemma {:induction false} ReachedInUniverse(sf: Surface, n: nat)
    requires Bounded(sf)
    ensures Reached(sf, n).processed <= sf.universe
  {
    if n > 0 {
      ReachedInUniverse(sf, n - 1);
      PassShrinks(sf, n - 1, Reached(sf, n - 1));
    }
  }

  /** Whether pass `pass`, run on the state the earlier passes left, processed a new id. */
  function FoundNew(sf: Surface, pass: nat): bool {
    Scan(sf, sf.visible(pass), Reached(sf, pass), false).1
  }

  /**
    The walk from pass `pass` onwards: run passes until one finds no new id,
    and return the index of that last pass. The state after the walk is
    `Reached(sf, last + 1)`.
  */
  function Walk(sf: Surface, pass: nat): (last: nat)
    requires Bounded(sf)
    ensures pass <= last
    ensures !FoundNew(sf, last)
    ensures forall k :: pass <= k < last ==> FoundNew(sf, k)
    decreases |sf.universe - Reached(sf, pass).processed|
  {
    ReachedInUniverse(sf, pass);
    PassShrinks(sf, pass, Reached(sf, pass));
    if !FoundNew(sf, pass) then pass
    else Walk(sf, pass + 1)
  }

  /** A pass finds something new exactly when it mounts an id no earlier pass showed. */
  lemma {:induction false} FoundNewIff(sf: Surface, pass: nat)
    ensures FoundNew(sf, pass) <==> !NothingNew(sf, pass)
  {
    ReachedIsReference(sf, pass);
    ScanProcesses(sf, sf.visible(pass), Reached(sf, pass), false);
    ScanFlagsGrowth(sf, sf.visible(pass), Reached(sf, pass), false);
  }

  /** The walk stops at the first pass that mounts no id unseen before, and not earlier. */
  lemma {:induction false} WalkStopsAtFirstEmptyPass(sf: Surface, pass: nat)
    requires Bounded(sf)
    ensures NothingNew(sf, Walk(sf, pass))
    ensures forall k :: pass <= k < Walk(sf, pass) ==> !NothingNew(sf, k)
  {
    var last := Walk(sf, pass);
    FoundNewIff(sf, last);
    forall k | pass <= k < last
      ensures !NothingNew(sf, k)
    {
      FoundNewIff(sf, k);
    }
  }

  /** The number of passes is bounded by the number of possible ids. */
  lemma {:induction false} WalkBound(sf: Surface, pass: nat)
    requires Bounded(sf)
    ensures Walk(sf, pass) <= pass + |sf.universe - Reached(sf, pass).processed|
    decreases |sf.universe - Reached(sf, pass).processed|
  {
    ReachedInUniverse(sf, pass);
    PassShrinks(sf, pass, Reached(sf, pass));
    if FoundNew(sf, pass) {
      WalkBound(sf, pass + 1);
    }
  }

  /** `scrape_internship` with the browser replaced by the surface: the records in first-seen order. */
  function Scrape(sf: Surface): (r: seq<Job>)
    requires Bounded(sf)
    ensures |r| <= |sf.universe|
    ensures forall i :: 0 <= i < |r| ==> WellFormed(r[i])
  {
    var n := Walk(sf, 0) + 1;
    ReachedInUniverse(sf, n);
    SubsetNotLarger(Reached(sf, n).processed, sf.universe);
    ScrapeCount(sf, n);
    RecordsWellFormed(sf, n);
    Reached(sf, n).records
  }

  /** After any number of passes there is exactly one record per processed id. */
  lemma {:induction false} ScrapeCount(sf: Surface, n: nat)
    ensures |Reached(sf, n).records| == |Reached(sf, n).processed|
  {
    ReachedIsReference(sf, n);
    ReferenceCount(sf, Seen(sf, n));
  }

  /** The reference state holds one record per id. */
  lemma ReferenceCount(sf: Surface, seen: seq<Option<string>>)
    ensures |Reference(sf, seen).records| == |Reference(sf, seen).processed|
  {
    var ids := FirstSeen(seen);
    FirstSeenExact(seen);
    DistinctCard(ids);
    assert Ids(seen) == set id | id in ids;
  }

  /** Every record the walk keeps is well formed. */
  lemma {:induction false} RecordsWellFormed(sf: Surface, n: nat)
    ensures forall i :: 0 <= i < |Reached(sf, n).records| ==> WellFormed(Reached(sf, n).records[i])
  {
    ReachedIsReference(sf, n);
    var ids := FirstSeen(Seen(sf, n));
    var records := AssembleAll(sf, ids);
    assert forall i :: 0 <= i < |records| ==> records[i] == Assemble(sf, ids[i]);
  }

  /** A list without repetitions has as many elements as its set of elements. */
  lemma {:induction false} DistinctCard(ids: seq<string>)
    requires Distinct(ids)
    ensures |set id | id in ids| == |ids|
  {
    if ids != [] {
      var init := ids[..|ids| - 1];
      DistinctCard(init);
      assert ids == init + [ids[|ids| - 1]];
      assert (set id | id in ids) == (set id | id in init) + {ids[|ids| - 1]};
    }
  }

  /**
    Each row is handled once: the records are those of the ids the walk saw,
    one per id, in order of first appearance, and the walk performs at most
    one pass more than there are possible ids.
  */
  lemma {:induction false} ScrapeHandlesEachRowOnce(sf: Surface)
    requires Bounded(sf)
    ensures Walk(sf, 0) <= |sf.universe|
    ensures Scrape(sf) == AssembleAll(sf, FirstSeen(Seen(sf, Walk(sf, 0) + 1)))
    ensures Distinct(FirstSeen(Seen(sf, Walk(sf, 0) + 1)))
  {
    WalkBound(sf, 0);
    ReachedIsReference(sf, Walk(sf, 0) + 1);
    FirstSeenExact(Seen(sf, Walk(sf, 0) + 1));
  }

  /**
    When the passes up to the last one together showed every id of the
    universe, there is one record per id, however many rows a pass mounts.
  */
  lemma {:induction false} ScrapeComplete(sf: Surface)
    requires Bounded(sf)
    requires Ids(Seen(sf, Walk(sf, 0) + 1)) == sf.universe
    ensures |Scrape(sf)| == |sf.universe|
  {
    var n := Walk(sf, 0) + 1;
    ScrapeCount(sf, n);
    ReachedIsReference(sf, n);
  }
}
