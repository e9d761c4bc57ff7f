/**
  The composition part of `send_email`: the two early exits, the subject that
  reports how many jobs are new, and the HTML body with one block per job.
  The message itself is returned as a value instead of being sent.

  The composition is checked against decoders: the count is read back from
  the subject, and the body is parsed back into the fields it shows.
*/
module Digest {
  import opened Text
  import opened Grid
  import opened Seqs

  /** A credential counts as set when it exists and is non-empty (the `not sender_email` test). */
  predicate Present(o: Option<string>) {
    o.Some? && o.value != []
  }

  datatype SkipReason = NoNewJobs | NoCredentials

  /** What `send_email` does: nothing, for a reason, or send one message from the sender to itself. */
  datatype Outcome =
    | Skipped(reason: SkipReason)
    | Send(sender: string, recipient: string, subject: string, body: string)

  // ---------------------------------------------------------------------------
  // The subject: the job count in decimal

  predicate IsDigit(c: char) {
    '0' <= c <= '9'
  }

  predicate AllDigits(s: string) {
    forall i :: 0 <= i < |s| ==> IsDigit(s[i])
  }

  function DigitChar(d: nat): (c: char)
    requires d < 10
    ensures IsDigit(c) && c as int - '0' as int == d
  {
    ('0' as int + d) as char
  }

  /** The decimal spelling of `n`, as Python's `str` of an integer writes it. */
  function Digits(n: nat): (r: string)
    ensures r != [] && AllDigits(r)
    ensures |r| > 1 ==> r[0] != '0'
  {
    if n < 10 then [DigitChar(n)]
    else
      var init := Digits(n / 10);
      assert forall i :: 0 <= i < |init| ==> (init + [DigitChar(n % 10)])[i] == init[i];
      init + [DigitChar(n % 10)]
  }

  /** The number a string of decimal digits denotes. */
  function DecimalValue(s: string): nat
    requires AllDigits(s)
  {
    if s == [] then 0
    else 10 * DecimalValue(s[..|s| - 1]) + (s[|s| - 1] as int - '0' as int)
  }

  /** Reading the digits back gives the number. */
  lemma {:induction false} DigitsRoundTrip(n: nat)
    ensures DecimalValue(Digits(n)) == n
  {
    if n >= 10 {
      DigitsRoundTrip(n / 10);
      var r := Digits(n);
      assert r[..|r| - 1] == Digits(n / 10);
    }
  }

  const SubjectPrefix: string := "Found "
  const SubjectSuffix: string := " new internships that match your description!"

  /** The subject line for `count` new jobs. */
  function Subject(count: nat): string {
    SubjectPrefix + Digits(count) + SubjectSuffix
  }

  /** The job count a subject line reports, if it has the subject's shape. */
  function SubjectCount(s: string): Option<nat> {
    if |s| < |SubjectPrefix| + |SubjectSuffix| then None
    else
      var mid := s[|SubjectPrefix|..|s| - |SubjectSuffix|];
      if s[..|SubjectPrefix|] == SubjectPrefix && s[|s| - |SubjectSuffix|..] == SubjectSuffix && AllDigits(mid)
      then Some(DecimalValue(mid))
      else None
  }

  /** The subject reports exactly the number of jobs it was made for. */
  lemma SubjectRoundTrip(count: nat)
    ensures SubjectCount(Subject(count)) == Some(count)
  {
    var d := Digits(count);
    var s := Subject(count);
    assert s[..|SubjectPrefix|] == SubjectPrefix;
    assert s[|s| - |SubjectSuffix|..] == SubjectSuffix;
    assert s[|SubjectPrefix|..|s| - |SubjectSuffix|] == d;
    DigitsRoundTrip(count);
  }

  /** Different counts give different subjects. */
  lemma SubjectInjective(a: nat, b: nat)
    requires Subject(a) == Subject(b)
    ensures a == b
  {
    SubjectRoundTrip(a);
    SubjectRoundTrip(b);
  }

  // ---------------------------------------------------------------------------
  // The body

  const Opening: string := "<html><body>"
  const Header: string := "<h2>Here are the new internships that match your criteria:</h2>"
  const Closing: string := "</body></html>"

  const TitleTag: string := "<p><b>Title:</b> "
  const CompanyTag: string := "<br><b>Company:</b> "
  const LocationTag: string := "<br><b>Location:</b> "
  const SalaryTag: string := "<br><b>Salary:</b> "
  const LinkTag: string := "<br><a href=\""
  const LinkEnd: string := "\"><b>Apply Here</b></a></p><hr>"

  /** The labels of a block, each introducing one field. */
  const BlockTags: seq<string> := [TitleTag, CompanyTag, LocationTag, SalaryTag, LinkTag]

  /** The character that ends each field: the `<` opening the next label, or the quote closing the link. */
  const FieldEnds: seq<char> := ['<', '<', '<', '<', '"']

  /** The fields a block shows, in the order it shows them. */
  function Shown(job: Job): seq<string> {
    [job.title, job.company, job.location, job.salary, job.applyLink]
  }

  /** Each label followed by its field, then `rest`. */
  function Labelled(tags: seq<string>, fields: seq<string>, rest: string): string
    requires |tags| == |fields|
  {
    if tags == [] then rest else tags[0] + (fields[0] + Labelled(tags[1..], fields[1..], rest))
  }

  /** The block of one job followed by `rest`; the fields are inserted without escaping. */
  function BlockThen(job: Job, rest: string): string {
    Labelled(BlockTags, Shown(job), LinkEnd + rest)
  }

  /** The block of one job: title, company, location, salary, and the apply link as an anchor. */
  function Block(job: Job): string {
    BlockThen(job, [])
  }

  /** The blocks of the jobs, in order. */
  function Blocks(jobs: seq<Job>): string {
    if jobs == [] then [] else Block(jobs[0]) + Blocks(jobs[1..])
  }

  /** The whole HTML body. */
  function Body(jobs: seq<Job>): string {
    Opening + Header + Blocks(jobs) + Closing
  }

  /** Blocks of a concatenation are the concatenated blocks: one block per job, in input order. */
  lemma {:induction false} BlocksConcat(a: seq<Job>, b: seq<Job>)
    ensures Blocks(a + b) == Blocks(a) + Blocks(b)
  {
    if a == [] {
      assert a + b == b;
    } else {
      assert (a + b)[0] == a[0];
      assert (a + b)[1..] == a[1..] + b;
      BlocksConcat(a[1..], b);
    }
  }

  /** The fields a block shows. */
  datatype Entry = Entry(title: string, company: string, location: string, salary: string, link: string)

  function EntryOf(job: Job): Entry {
    Entry(job.title, job.company, job.location, job.salary, job.applyLink)
  }

  function Entries(jobs: seq<Job>): seq<Entry> {
    seq(|jobs|, i requires 0 <= i < |jobs| => EntryOf(jobs[i]))
  }

  predicate Lacks(s: string, c: char) {
    forall i :: 0 <= i < |s| ==> s[i] != c
  }

  /** A job whose block reads back unambiguously: no field holds the character that ends it. */
  predicate Printable(job: Job) {
    forall i :: 0 <= i < |FieldEnds| ==> Lacks(Shown(job)[i], FieldEnds[i])
  }

  /** `s` without the leading literal `lit`, if it starts with it. */
  function Expect(s: string, lit: string): (r: Option<string>)
    ensures r.Some? ==> |r.value| + |lit| == |s|
  {
    if |lit| <= |s| && s[..|lit|] == lit then Some(s[|lit|..]) else None
  }

  /** `s` split before the first `stop`. */
  function Field(s: string, stop: char): (r: (string, string))
    ensures r.0 + r.1 == s
    ensures Lacks(r.0, stop)
    ensures r.1 == [] || r.1[0] == stop
  {
    var n := FirstIndex(s, stop);
    (s[..n], s[n..])
  }

  /** Read labelled fields from the head of `s`: each label, then the field up to its end character. */
  function ParseLabelled(s: string, tags: seq<string>, ends: seq<char>): (r: Option<(seq<string>, string)>)
    requires |tags| == |ends|
    ensures r.Some? ==> |r.value.0| == |tags| && |r.value.1| <= |s|
    ensures r.Some? && tags != [] && tags[0] != [] ==> |r.value.1| < |s|
    decreases |tags|
  {
    if tags == [] then Some(([], s))
    else
      var a := Expect(s, tags[0]);
      if a.None? then None
      else
        var f := Field(a.value, ends[0]);
        var more := ParseLabelled(f.1, tags[1..], ends[1..]);
        if more.None? then None else Some(([f.0] + more.value.0, more.value.1))
  }

  /** Parse one block at the head of `s`, returning the fields it shows and what follows it. */
  function ParseBlock(s: string): (r: Option<(Entry, string)>)
    ensures r.Some? ==> |r.value.1| < |s|
  {
    var p := ParseLabelled(s, BlockTags, FieldEnds);
    if p.None? then None
    else
      var e := Expect(p.value.1, LinkEnd);
      if e.None? then None
      else
        var f := p.value.0;
        Some((Entry(f[0], f[1], f[2], f[3], f[4]), e.value))
  }

  /** Parse blocks for as long as they are there. */
  function ParseBlocks(s: string): (seq<Entry>, string)
    decreases |s|
  {
    var b := ParseBlock(s);
    if b.None? then ([], s)
    else
      var more := ParseBlocks(b.value.1);
      ([b.value.0] + more.0, more.1)
  }

  /** Read the fields of every block back from a body. */
  function ParseBody(s: string): Option<seq<Entry>> {
    var inner := Expect(s, Opening + Header);
    if inner.None? then None
    else
      var blocks := ParseBlocks(inner.value);
      if blocks.1 == Closing then Some(blocks.0) else None
  }

  lemma ExpectLiteral(lit: string, s: string)
    ensures Expect(lit + s, lit) == Some(s)
  {
    assert (lit + s)[..|lit|] == lit;
    assert (lit + s)[|lit|..] == s;
  }

  lemma FieldBefore(f: string, rest: string, stop: char)
    requires Lacks(f, stop) && rest != [] && rest[0] == stop
    ensures Field(f + rest, stop) == (f, rest)
  {
    FirstIndexAfter(f, rest, stop);
    assert (f + rest)[..|f|] == f;
    assert (f + rest)[|f|..] == rest;
  }

  /** The first character of labelled text is that of its first label, or of `rest` when there are no labels. */
  lemma LabelledHead(tags: seq<string>, fields: seq<string>, rest: string)
    requires |tags| == |fields|
    requires tags != [] ==> tags[0] != []
    requires tags == [] ==> rest != []
    ensures Labelled(tags, fields, rest) != []
    ensures Labelled(tags, fields, rest)[0] == if tags == [] then rest[0] else tags[0][0]
  {
  }

  /**
    Labelled fields read back unchanged provided no field holds its end
    character and that character opens whatever follows the field.
  */
  lemma {:induction false} ParseLabelledRoundTrip(tags: seq<string>, ends: seq<char>, fields: seq<string>, rest: string)
    requires |tags| == |ends| == |fields|
    requires forall i :: 0 <= i < |fields| ==> Lacks(fields[i], ends[i])
    requires forall i :: 0 < i < |tags| ==> tags[i] != [] && tags[i][0] == ends[i - 1]
    requires tags != [] ==> rest != [] && rest[0] == ends[|tags| - 1]
    ensures ParseLabelled(Labelled(tags, fields, rest), tags, ends) == Some((fields, rest))
    decreases |tags|
  {
    if tags != [] {
      var after := Labelled(tags[1..], fields[1..], rest);
      LabelledHead(tags[1..], fields[1..], rest);
      ExpectLiteral(tags[0], fields[0] + after);
      FieldBefore(fields[0], after, ends[0]);
      ParseLabelledRoundTrip(tags[1..], ends[1..], fields[1..], rest);
      assert [fields[0]] + fields[1..] == fields;
    }
  }

  /** A block followed by anything parses back to the job's fields and that remainder. */
  lemma ParseBlockRoundTrip(job: Job, rest: string)
    requires Printable(job)
    ensures ParseBlock(BlockThen(job, rest)) == Some((EntryOf(job), rest))
  {
    assert forall i :: 0 < i < |BlockTags| ==> BlockTags[i] != [] && BlockTags[i][0] == FieldEnds[i - 1];
    ParseLabelledRoundTrip(BlockTags, FieldEnds, Shown(job), LinkEnd + rest);
    ExpectLiteral(LinkEnd, rest);
  }

  /** Adding text after a block adds it after the block's closing markup. */
  lemma {:induction false} LabelledFollowed(tags: seq<string>, fields: seq<string>, rest: string, more: string)
    requires |tags| == |fields|
    ensures Labelled(tags, fields, rest + more) == Labelled(tags, fields, rest) + more
    decreases |tags|
  {
    if tags != [] {
      var inner := Labelled(tags[1..], fields[1..], rest);
      LabelledFollowed(tags[1..], fields[1..], rest, more);
      Regroup(tags[0], fields[0], inner, more);
    }
  }

  /** Regrouping a concatenation of four strings. */
  lemma Regroup(a: string, b: string, c: string, d: string)
    ensures a + (b + (c + d)) == (a + (b + c)) + d
  {
  }

  lemma BlockThenIsBlockFollowed(job: Job, rest: string)
    ensures BlockThen(job, rest) == Block(job) + rest
  {
    LabelledFollowed(BlockTags, Shown(job), LinkEnd, rest);
    assert LinkEnd + [] == LinkEnd;
  }

  /** The closing tags do not open a block. */
  lemma ClosingIsNoBlock()
    ensures Expect(Closing, TitleTag) == None
  {
  }

  /** Unfolding `ParseBlocks` once on text that opens with a well-formed block. */
  lemma ParseBlocksStep(s: string, e: Entry, rest: string)
    requires ParseBlock(s) == Some((e, rest))
    ensures ParseBlocks(s) == ([e] + ParseBlocks(rest).0, ParseBlocks(rest).1)
  {
  }

  /** Text that does not open with the title tag holds no block. */
  lemma ParseBlocksStop(s: string)
    requires Expect(s, TitleTag) == None
    ensures ParseBlocks(s) == ([], s)
  {
  }

  /** The blocks of a non-empty list, followed by text, are the first job's block followed by the rest. */
  lemma BlocksCons(jobs: seq<Job>, rest: string)
    requires jobs != []
    ensures Blocks(jobs) + rest == BlockThen(jobs[0], Blocks(jobs[1..]) + rest)
  {
    var tail := Blocks(jobs[1..]);
    BlockThenIsBlockFollowed(jobs[0], tail + rest);
    SeqAssoc(Block(jobs[0]), tail, rest);
  }

  /** The entries of a non-empty list are the first job's entry followed by the rest. */
  lemma EntriesCons(jobs: seq<Job>)
    requires jobs != []
    ensures Entries(jobs) == [EntryOf(jobs[0])] + Entries(jobs[1..])
  {
  }

  /** A printable job's block in front of text that parses to some blocks adds that job's entry in front. */
  lemma ParseBlocksCons(job: Job, tail: string, entries: seq<Entry>, rest: string)
    requires Printable(job)
    requires ParseBlocks(tail) == (entries, rest)
    ensures ParseBlocks(BlockThen(job, tail)) == ([EntryOf(job)] + entries, rest)
  {
    ParseBlockRoundTrip(job, tail);
    ParseBlocksStep(BlockThen(job, tail), EntryOf(job), tail);
  }

  /** The blocks of printable jobs, followed by text that is not a block, parse back to the jobs' fields in order. */
  lemma {:induction false} ParseBlocksRoundTrip(jobs: seq<Job>, rest: string)
    requires forall j :: j in jobs ==> Printable(j)
    requires Expect(rest, TitleTag) == None
    ensures ParseBlocks(Blocks(jobs) + rest) == (Entries(jobs), rest)
  {
    if jobs == [] {
      assert Blocks(jobs) + rest == rest;
      assert Entries(jobs) == [];
      ParseBlocksStop(rest);
    } else {
      var tail := Blocks(jobs[1..]) + rest;
      assert jobs[0] in jobs;
      assert forall j :: j in jobs[1..] ==> j in jobs;
      ParseBlocksRoundTrip(jobs[1..], rest);
      ParseBlocksCons(jobs[0], tail, Entries(jobs[1..]), rest);
      BlocksCons(jobs, rest);
      EntriesCons(jobs);
    }
  }

  /** The body of printable jobs parses back to exactly their fields, one entry per job, in order. */
  lemma BodyRoundTrip(jobs: seq<Job>)
    requires forall j :: j in jobs ==> Printable(j)
    ensures ParseBody(Body(jobs)) == Some(Entries(jobs))
  {
    assert Body(jobs) == (Opening + Header) + (Blocks(jobs) + Closing);
    ExpectLiteral(Opening + Header, Blocks(jobs) + Closing);
    ClosingIsNoBlock();
    ParseBlocksRoundTrip(jobs, Closing);
  }

  /** The body reads back as the jobs' fields whenever every job is printable. */
  lemma BodyReadsBack(jobs: seq<Job>)
    ensures (forall j :: j in jobs ==> Printable(j)) ==> ParseBody(Body(jobs)) == Some(Entries(jobs))
  {
    if forall j :: j in jobs ==> Printable(j) {
      BodyRoundTrip(jobs);
    }
  }

  // ---------------------------------------------------------------------------
  // The composition

  /**
    `send_email` up to the hand-over to SMTP: stop when there are no new jobs,
    then stop when either credential is missing or empty, and otherwise send
    the digest from the sender's address to itself.
  */
  function Compose(jobs: seq<Job>, email: Option<string>, password: Option<string>): (r: Outcome)
    ensures jobs == [] ==> r == Skipped(NoNewJobs)
    ensures jobs != [] && !(Present(email) && Present(password)) ==> r == Skipped(NoCredentials)
    ensures r.Send? <==> jobs != [] && Present(email) && Present(password)
    ensures r.Send? ==> r.sender == email.value && r.recipient == r.sender
    ensures r.Send? ==> SubjectCount(r.subject) == Some(|jobs|)
    ensures r.Send? && (forall j :: j in jobs ==> Printable(j)) ==> ParseBody(r.body) == Some(Entries(jobs))
  {
    if jobs == [] then Skipped(NoNewJobs)
    else if !Present(email) || !Present(password) then Skipped(NoCredentials)
    else
      SubjectRoundTrip(|jobs|);
      BodyReadsBack(jobs);
      Send(email.value, email.value, Subject(|jobs|), Body(jobs))
  }
}
