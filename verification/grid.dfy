/**
  The job-posting record and the rendering surface it is read from.

  The browser is replaced by an oracle: which row ids are mounted on each
  vertical pass, the text of a cell of a row, and the outcome of reading the
  row's apply hyperlink. Scrolling, settle delays and the two-pane layout are
  not modelled; a cell read is assumed to return the cell's content.
*/
module Grid {
  import opened Text

  /** One scraped posting, with every field already normalised. */
  datatype Job = Job(
    title: string,
    applyLink: string,
    date: string,
    location: string,
    company: string,
    hireTime: string,
    gradTime: string,
    salary: string,
    qualifications: string)

  /** Outcome of reading the `href` of the apply anchor in column 2. */
  datatype LinkRead =
    | Href(url: string)   // the attribute's value, possibly empty
    | NoHref              // the anchor exists but carries no `href`
    | TimedOut            // no anchor appeared within the short timeout

  /**
    The grid as the walker observes it. `visible(p)` is the list of
    `data-rowid` attributes of the left-pane rows mounted on pass `p` (None
    when the attribute is absent); `cell(id, c)` is the inner text of column
    `c` of row `id`; `link(id)` reads the apply anchor. `universe` is the
    finite set of row ids the surface can ever mount; it is used only to bound
    the walk.
  */
  datatype Surface = Surface(
    visible: nat -> seq<Option<string>>,
    cell: (string, nat) -> string,
    link: string -> LinkRead,
    universe: set<string>)

  const TitleColumn: nat := 0
  const DateColumn: nat := 1
  const ApplyColumn: nat := 2
  const LocationColumn: nat := 4
  const CompanyColumn: nat := 5
  const HireTimeColumn: nat := 6
  const GradTimeColumn: nat := 7
  const SalaryColumn: nat := 10
  const QualificationsColumn: nat := 11

  /** The columns whose text becomes a field of the record. */
  predicate IsTextColumn(column: nat) {
    || column == TitleColumn || column == DateColumn || column == LocationColumn
    || column == CompanyColumn || column == HireTimeColumn || column == GradTimeColumn
    || column == SalaryColumn || column == QualificationsColumn
  }

  /** The field of a record that holds the text of grid column `column`, if any. */
  function FieldAt(job: Job, column: nat): Option<string> {
    if column == TitleColumn then Some(job.title)
    else if column == DateColumn then Some(job.date)
    else if column == LocationColumn then Some(job.location)
    else if column == CompanyColumn then Some(job.company)
    else if column == HireTimeColumn then Some(job.hireTime)
    else if column == GradTimeColumn then Some(job.gradTime)
    else if column == SalaryColumn then Some(job.salary)
    else if column == QualificationsColumn then Some(job.qualifications)
    else None
  }

  /** A field as the walker stores it: non-empty, without surrounding whitespace. */
  predicate NormalField(s: string) {
    s != [] && Trimmed(s)
  }

  /** Every text field normalised and an apply link present. */
  predicate WellFormed(job: Job) {
    && NormalField(job.title)
    && NormalField(job.date)
    && NormalField(job.location)
    && NormalField(job.company)
    && NormalField(job.hireTime)
    && NormalField(job.gradTime)
    && NormalField(job.salary)
    && NormalField(job.qualifications)
    && job.applyLink != []
  }

  /** The apply link: the `href` when it is a non-empty string, the sentinel otherwise. */
  function ApplyLink(read: LinkRead): (r: string)
    ensures r != []
    ensures read.Href? && read.url != [] ==> r == read.url
    ensures !(read.Href? && read.url != []) ==> r == NotAvailable
  {
    match read
    case Href(url) => if url == [] then NotAvailable else url
    case NoHref => NotAvailable
    case TimedOut => NotAvailable
  }

  /** The record built for row `row`: each text column normalised, the apply link defaulted. */
  function Assemble(sf: Surface, row: string): (r: Job)
    ensures WellFormed(r)
    ensures r.applyLink == ApplyLink(sf.link(row))
  {
    Job(
      title := Normalize(sf.cell(row, TitleColumn)),
      applyLink := ApplyLink(sf.link(row)),
      date := Normalize(sf.cell(row, DateColumn)),
      location := Normalize(sf.cell(row, LocationColumn)),
      company := Normalize(sf.cell(row, CompanyColumn)),
      hireTime := Normalize(sf.cell(row, HireTimeColumn)),
      gradTime := Normalize(sf.cell(row, GradTimeColumn)),
      salary := Normalize(sf.cell(row, SalaryColumn)),
      qualifications := Normalize(sf.cell(row, QualificationsColumn)))
  }

  /** Each text column lands, normalised, in its own field. */
  lemma AssembleFields(sf: Surface, row: string)
    ensures forall c :: IsTextColumn(c) ==> FieldAt(Assemble(sf, row), c) == Some(Normalize(sf.cell(row, c)))
  {
    var job := Assemble(sf, row);
    forall c | IsTextColumn(c)
      ensures FieldAt(job, c) == Some(Normalize(sf.cell(row, c)))
    {
      if c == TitleColumn {
        assert job.title == Normalize(sf.cell(row, TitleColumn));
      } else if c == DateColumn {
        assert job.date == Normalize(sf.cell(row, DateColumn));
      } else if c == LocationColumn {
        assert job.location == Normalize(sf.cell(row, LocationColumn));
      } else if c == CompanyColumn {
        assert job.company == Normalize(sf.cell(row, CompanyColumn));
      } else if c == HireTimeColumn {
        assert job.hireTime == Normalize(sf.cell(row, HireTimeColumn));
      } else if c == GradTimeColumn {
        assert job.gradTime == Normalize(sf.cell(row, GradTimeColumn));
      } else if c == SalaryColumn {
        assert job.salary == Normalize(sf.cell(row, SalaryColumn));
      } else {
        assert job.qualifications == Normalize(sf.cell(row, QualificationsColumn));
      }
    }
  }

  /**
    No other column is read: two surfaces that agree on the text columns and
    on the apply link of a row give that row the same record, whatever the
    other columns hold.
  */
  lemma AssembleFrame(sf1: Surface, sf2: Surface, row: string)
    requires forall c :: IsTextColumn(c) ==> sf1.cell(row, c) == sf2.cell(row, c)
    requires sf1.link(row) == sf2.link(row)
    ensures Assemble(sf1, row) == Assemble(sf2, row)
  {
    assert && IsTextColumn(TitleColumn) && IsTextColumn(DateColumn)
           && IsTextColumn(LocationColumn) && IsTextColumn(CompanyColumn)
           && IsTextColumn(HireTimeColumn) && IsTextColumn(GradTimeColumn)
           && IsTextColumn(SalaryColumn) && IsTextColumn(QualificationsColumn);
  }

  /** Normalise every text field of a record again. */
  function Renormalize(job: Job): Job {
    job.(title := Normalize(job.title), date := Normalize(job.date),
         location := Normalize(job.location), company := Normalize(job.company),
         hireTime := Normalize(job.hireTime), gradTime := Normalize(job.gradTime),
         salary := Normalize(job.salary), qualifications := Normalize(job.qualifications))
  }

  /** Normalising the fields of an assembled record a second time changes nothing. */
  lemma RenormalizeAssembled(sf: Surface, row: string)
    ensures Renormalize(Assemble(sf, row)) == Assemble(sf, row)
  {
    var j := Assemble(sf, row);
    NormalizeFixedPoint(j.title);
    NormalizeFixedPoint(j.date);
    NormalizeFixedPoint(j.location);
    NormalizeFixedPoint(j.company);
    NormalizeFixedPoint(j.hireTime);
    NormalizeFixedPoint(j.gradTime);
    NormalizeFixedPoint(j.salary);
    NormalizeFixedPoint(j.qualifications);
  }

  /** A row whose apply anchor is missing or times out still yields a record, with link "N/A". */
  lemma MissingLinkDefaults(sf: Surface, row: string)
    requires sf.link(row) == NoHref || sf.link(row) == TimedOut || sf.link(row) == Href("")
    ensures Assemble(sf, row).applyLink == NotAvailable
    ensures forall c :: IsTextColumn(c) ==> FieldAt(Assemble(sf, row), c) == Some(Normalize(sf.cell(row, c)))
  {
    AssembleFields(sf, row);
  }

  /** Unlike the text fields, the apply link is kept verbatim: surrounding blanks survive. */
  lemma ApplyLinkNotStripped()
    ensures ApplyLink(Href(" x")) == " x"
    ensures Normalize(" x") == "x"
  {
    assert " x" == " " + "x" + "";
    assert AllSpace(" ");
    StripUnique(" ", "x", "");
  }
}
