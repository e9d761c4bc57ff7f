# Internship scraper: a Dafny model

This project models the core of `main.py`, a script that finds new internship
postings that fit a student and emails them. One run of the script does four
things:

1. It walks a virtualised two-pane grid (`scrape_internship`). In each pass it
   reads the row ids that are mounted and handles each id not handled before.
   Handling a row reads its cells into a record. Every text field is stripped,
   and an empty field becomes `"N/A"`. The walk stops at the first pass that
   finds no new id.
2. It keeps the records whose graduation time and hire time are both in fixed
   allow-lists (`filter_for_matches`).
3. It keeps the records whose key `title-company` is not yet among the
   stripped lines of the seen-jobs file, and appends their keys to that file
   (`get_new_jobs`).
4. It composes a digest email (`send_email`). No email is composed when there
   is nothing new or a credential is missing. Otherwise the subject gives the
   number of jobs, and the HTML body has one block per job.

The browser becomes a `Surface` value with these parts:

- the row ids mounted on each pass;
- the text of each cell;
- the outcome of reading the apply link;
- a finite universe of possible ids, which bounds the walk.

The seen-jobs file becomes its text. The credentials become optional strings.
The email becomes a returned `Outcome`.

Modules, one file each:

- `Text` (`text.dfy`): `Option`, Python's `str.strip()` and its whitespace
  set, the `"N/A"` normalisation, and `FirstIndex`.
- `Seqs` (`seqs.dfy`): order-preserving selection, which the filter and the
  seen-key diff share.
- `Grid` (`grid.dfy`): the record, the surface, the column map, and record
  assembly.
- `GridWalk` (`walk.dfy`): the pass-by-pass walk. It has an independent
  reference description of the walk's state, and a termination measure that
  counts the ids of the universe not yet processed.
- `Matching` (`matching.dfy`): the allow-list filter.
- `SeenStore` (`store.dfy`): line splitting of the store text, the key, the
  diff, and the append.
- `Digest` (`digest.dfy`): the early exits, the subject and the body, plus
  decoders that read the count and the fields back.
- `Pipeline` (`pipeline.dfy`): the main block, scrape then filter then diff
  then compose.
- `Scenario` (`scenario.dfy`): a whole run on a one-row grid.

Three behaviours of the code worth noting:

- The apply link is not stripped (main.py:66). Only the text cells are.
- An empty `href` also becomes `"N/A"` (main.py:48).
- The seen set holds the stripped lines of the file (main.py:110), not the raw
  keys.

## Model

| member | source | states |
|---|---|---|
| Text.Strip | main.py:65-73 | `str.strip()` yields a string with no whitespace at either end. It is no longer than the input, and it is empty exactly when the input is all whitespace. |
| Text.StripUnique | main.py:65-73 | Stripping whitespace runs `p` and `q` off `p + t + q`, where `t` is non-empty and trimmed, gives back exactly `t`. |
| Text.StripDecompose | main.py:65-73 | Stripping removes only whitespace: the input is the result with an all-whitespace run on each side. |
| Text.StripIdempotent | main.py:65-73 | Stripping twice is the same as stripping once. |
| Text.Normalize | main.py:65-73 | `cell.strip() or "N/A"` is never empty and has no surrounding whitespace. It is the stripped cell when the cell is not all whitespace, and `"N/A"` otherwise. |
| Text.NormalizeIdempotent | main.py:65-73 | Normalising a normalised field changes nothing. |
| Text.NormalizeFixedPoint | main.py:65-73 | The values normalisation leaves unchanged are exactly the non-empty trimmed strings. |
| Text.FirstIndex | main.py:110 | Gives the index of the first occurrence of a character, or the length when there is none. Everything before that index differs from the character. |
| Seqs.Select | main.py:96-102 | Selection keeps exactly the elements the test accepts, and the result is never longer than the input. |
| Seqs.SelectCount | main.py:96-102 | An accepted element keeps its multiplicity, and a rejected one does not appear. |
| Seqs.SelectConcat | main.py:96-102 | Selection distributes over concatenation, so the input order is kept. |
| Seqs.SelectIdempotent | main.py:96-102 | Selecting twice with the same test is the same as selecting once. |
| Seqs.SelectSelect | main.py:168-169 | Selecting with one test and then with another is the same as selecting once with their conjunction. The filter followed by the diff is therefore one order-preserving selection. |
| Grid.ApplyLink | main.py:44-50 | The link is the `href` when it is present and non-empty. It is `"N/A"` when the `href` is missing, empty, or the read timed out. |
| Grid.Assemble | main.py:37-73 | An assembled record is well formed: every text field is non-empty and trimmed, and the link is non-empty. The link follows the apply-link rule. |
| Grid.AssembleFields | main.py:52-73 | Each text column (0, 1, 4, 5, 6, 7, 10, 11) lands, normalised, in its own field. |
| Grid.AssembleFrame | main.py:37-73 | No other column is read into the record: two surfaces that agree on a row's text columns and apply link give that row the same record. |
| Grid.RenormalizeAssembled | main.py:64-73 | Normalising the fields of an assembled record again changes nothing. |
| Grid.MissingLinkDefaults | main.py:44-50 | With no `href`, an empty one, or a timeout, the record still has every text field populated, and its link is `"N/A"`. |
| Grid.ApplyLinkNotStripped | main.py:66 | Unlike a text field, the link keeps its surrounding blanks. |
| GridWalk.Visit | main.py:28-74 | Handling one row read adds its usable id to the processed set. A record is appended exactly when that id was new, and it is the record of that row. |
| GridWalk.Scan | main.py:24-34 | A pass only grows the processed set and only appends records. A flag raised before the pass stays raised. The exact set added is stated by `ScanProcesses`, and the flag's meaning by `ScanFlagsGrowth`. |
| GridWalk.Reached | main.py:21-85 | The walk state after `n` passes. Its contract is carried by `ReachedIsReference`: it equals the reference state of everything those passes read. |
| GridWalk.FirstSeenExact | main.py:27-34 | The first-seen list of ids holds every usable id that was read, once each. |
| GridWalk.ScanProcesses | main.py:27-34 | A pass adds exactly the usable ids it reads to the processed set. |
| GridWalk.ScanFlagsGrowth | main.py:25-34 | A pass raises `new_rows_found` exactly when the processed set grew, and it adds one record per new id. |
| GridWalk.ReferenceStep | main.py:27-74 | Handling one more row read moves the reference state by exactly one step. |
| GridWalk.ScanFromReference | main.py:27-74 | A pass started from the reference state of the reads so far ends in the reference state of those reads followed by the pass's reads. |
| GridWalk.ReachedIsReference | main.py:21-85 | After `n` passes, the processed set is the set of usable ids read, and the records are those of the ids in order of first appearance. |
| GridWalk.PassShrinks | main.py:22-34 | A pass stays within the universe. A pass that finds a new id leaves strictly fewer ids unprocessed. |
| GridWalk.Walk | main.py:22-85 | The walk terminates. It returns the first pass, from the given one on, that found no new id; every pass before it found one. |
| GridWalk.FoundNewIff | main.py:25-34 | A pass finds something new exactly when it mounts an id that no earlier pass showed. |
| GridWalk.WalkStopsAtFirstEmptyPass | main.py:77-85 | The walk stops at the first pass that shows no unseen id, and at no earlier pass. |
| GridWalk.WalkBound | main.py:22-85 | The number of passes is at most one more than the number of ids not yet processed. |
| GridWalk.Scrape | main.py:19-88 | The result has no more records than there are possible ids, and every record is well formed. |
| GridWalk.ScrapeCount | main.py:21-64 | There is exactly one record per processed id. |
| GridWalk.RecordsWellFormed | main.py:64-73 | Every record the walk keeps is well formed. |
| GridWalk.ScrapeHandlesEachRowOnce | main.py:21-88 | The records are those of the ids read, each id once, in first-seen order. There are at most `|universe| + 1` passes. |
| GridWalk.ScrapeComplete | main.py:22-88 | When the passes together showed every id of the universe, there are exactly `|universe|` records. |
| Matching.Matches | main.py:97-100 | The per-record test of the filter. Its contract is carried by `FilterSingle` and `FilterIsExactMembership`: exact, case-sensitive membership of both fields in the two lists. |
| Matching.FilterForMatches | main.py:91-102 | A record is kept exactly when it is in the input and both its graduation time and its hire time are allowed. |
| Matching.FilterCounts | main.py:96-102 | A matching record keeps its multiplicity, and any other record disappears. |
| Matching.FilterConcat | main.py:96-102 | The filter preserves the relative order of the records it keeps. |
| Matching.FilterSingle | main.py:97-101 | A single record is kept exactly when both of its fields match. |
| Matching.FilterIdempotent | main.py:91-102 | Filtering twice is the same as filtering once. |
| Matching.FilterAcceptsBlankTimes | main.py:93-94 | A record whose graduation and hire cells were blank carries `"N/A"` in both fields and is kept. |
| Matching.FilterIsExactMembership | main.py:93-100 | Grad `"2028"` with hire `"Summer"` is accepted. Changing the hire time to `"summer"` is rejected. |
| SeenStore.Key | main.py:113 | The key `title-company` of a job. Its contract is carried by `SameKeySameFate` and `WellFormedKeyTrimmed`: only the title and company matter, and the key of a scraped record is trimmed. |
| SeenStore.Lines | main.py:109-110 | The lines of the file, as iterating over it yields them. Its contract is carried by `LinesAppend` and `LinesAreSingleLine`. |
| SeenStore.SeenKeys | main.py:110 | The set of stripped lines. No entry has surrounding whitespace. |
| SeenStore.KeyLines | main.py:116-119 | The text appended for the new jobs is empty exactly when there are none, and otherwise ends with a newline. `LinesOfKeyLines` states how it reads back. |
| SeenStore.KeyLinesConcat | main.py:117-119 | The text appended for a concatenated list is the texts appended for each part, in order. |
| SeenStore.GetNewJobsConcat | main.py:105-120 | Diffing a concatenated batch against one store returns the new jobs of each part, in order, and appends their keys part by part, because the seen set is not updated during the scan. |
| SeenStore.GetNewJobs | main.py:105-120 | Returns exactly the jobs whose key is not among the store's stripped lines, and no more jobs than it was given. It only appends to the store. |
| SeenStore.LinesAppend | main.py:109-110 | The lines of a newline-terminated text followed by more text are the lines of each part. |
| SeenStore.LinesOfKeyLines | main.py:116-119 | When every key is single-line, the appended text reads back as exactly the keys, one per line. |
| SeenStore.StoreUpdate | main.py:116-119 | For a store text that is empty or ends with a newline, and single-line keys: the old lines are kept, and the lines appended are exactly the keys of the returned jobs, in order. |
| SeenStore.NewJobsCount | main.py:111-115 | A returned job keeps its multiplicity in the batch. A job whose key is seen is dropped. |
| SeenStore.SameKeySameFate | main.py:113-114 | Jobs with equal title and company share their fate, whatever their other fields are. |
| SeenStore.DuplicatesInBatchKept | main.py:110-115 | An unseen job given twice in one batch is returned twice, because the seen set is not updated during the scan. |
| SeenStore.WellFormedKeyTrimmed | main.py:113 | The key of a scraped record has no surrounding whitespace, so stripping its line gives it back. |
| SeenStore.SeenKeysKept | main.py:116-119 | Appending lines never removes an entry. |
| SeenStore.UpdateRecordsKeys | main.py:116-119 | For a store text that is empty or ends with a newline, and single-line keys: after the update, the store keeps its old entries and holds the key of every returned job as a line. |
| SeenStore.AllSeenAfterUpdate | main.py:109-119 | For a store text that is empty or ends with a newline, and well-formed jobs whose keys hold neither `\n` nor `\r`: after the update, every job of the batch has its key in the store. |
| SeenStore.SecondCallFindsNothing | main.py:105-120 | Under the same conditions, the diff run again on the same batch against the updated store returns nothing. |
| SeenStore.LinesAreSingleLine | main.py:110 | No line read from the store contains a line break. |
| SeenStore.MultiLineKeyNeverSeen | main.py:110-119 | A job whose key contains a line break is new against every store. |
| Digest.Digits | main.py:135 | The decimal spelling of the count is non-empty, all digits, and has no leading zero. |
| Digest.Present | main.py:131 | A credential counts as set when it exists and is non-empty. Its contract is carried by `Compose`, which skips with `NoCredentials` otherwise. |
| Digest.Subject | main.py:135 | The subject line for a count. Its contract is carried by `SubjectRoundTrip` and `SubjectInjective`. |
| Digest.DigitsRoundTrip | main.py:135 | Reading the digits back gives the count. |
| Digest.SubjectRoundTrip | main.py:135 | The count read back from the subject is the number of jobs. |
| Digest.SubjectInjective | main.py:135 | Different counts give different subjects. |
| Digest.Block | main.py:141-146 | The block of one job. Its contract is carried by `ParseBlockRoundTrip`: it reads back as the job's shown fields. |
| Digest.Body | main.py:138-147 | The whole HTML body. Its contract is carried by `BodyRoundTrip`: for printable jobs it reads back as their fields, in order. |
| Digest.BlocksConcat | main.py:140-146 | The body has one block per job, in input order. |
| Digest.ParseLabelledRoundTrip | main.py:141-146 | Label and field pairs read back unchanged, provided no field holds the character that ends it. |
| Digest.ParseBlockRoundTrip | main.py:141-146 | A job's block reads back as its title, company, location, salary and verbatim link. |
| Digest.ParseBlocksRoundTrip | main.py:140-146 | The blocks read back as the jobs' fields, in order. |
| Digest.BodyRoundTrip | main.py:138-147 | The whole body of printable jobs reads back as exactly their fields, one entry per job, in order. |
| Digest.Compose | main.py:123-147 | Nothing is sent when there are no jobs, or when either credential is missing or empty. Otherwise one message goes from the sender to itself; its subject reports the job count and its body reads back as the jobs. |
| Pipeline.RunOnce | main.py:166-170 | The jobs reported are the scraped records that match and are not yet in the store, in scraped order: each such record keeps its multiplicity, and every other record is absent. The store is only appended to. A digest is sent exactly when something is reported and both credentials are set, and its subject counts every reported copy. |
| Pipeline.ReportedWellFormed | main.py:166-170 | Every reported job is a well-formed scraped record. |
| Pipeline.SecondRunSendsNothing | main.py:166-170 | For a store text that is empty or ends with a newline, and scraped keys holding neither `\n` nor `\r`: a second run on the same grid, with the store the first run left, reports nothing and sends nothing. |
| Scenario.SingleRowWalk | main.py:22-85 | On a grid whose only row stays mounted, the walk stops after its second pass with that row's record. |
| Scenario.EmptyStoreTakesOne | main.py:105-120 | Against an empty store, one job is new and its key becomes the store's only line. |
| Scenario.OneJobDigest | main.py:123-147 | One job whose link defaulted gives a digest from the sender to itself. The digest announces one job, and its body reads back as the job's fields with `"N/A"` as the link. |
| Scenario.SingleRowEndToEnd | main.py:166-170 | On a single matching row with no apply anchor, that record alone is reported and stored. The digest announces one job and shows the record's fields, with `"N/A"` as the link. |

## Left out

- The browser is not modelled:
  - launching it, loading the page, and the initial row wait, which is fatal on timeout (main.py:8-17, 87);
  - the horizontal and vertical scroll calls and the fixed settle delays (main.py:40-41, 58-59, 84-85).

  The surface is an oracle. A cell read is assumed to return the cell's content whatever the scroll position.
- Row-id recycling: the cell oracle depends only on the row id, not on the pass. A surface that reuses an id for another logical row is therefore not modelled. The walk's completeness is stated against the ids the surface shows, not against logical rows.
- Termination rests on the surface drawing its ids from a finite universe (`Bounded`). The script itself loops for as long as the page keeps showing new ids.
- The filesystem: the file's existence check and creation (main.py:107-108). A missing file is the empty text.
- Text-mode newline translation: lines are split only at `\n`. A lone `\r` is not treated as a line break.
- The environment, the `EmailMessage` MIME structure (including the plain-text alternative), and the SMTP login and send (main.py:128-129, 149-161): the credentials are parameters, and the send is the returned `Send` outcome.
- Every `print` call.
- HTML escaping: the fields are inserted verbatim, as in the source. The body reads back only for jobs with no `<` in a text field and no `"` in the link (`Printable`). Other jobs still get a body, but it is not claimed to be unambiguous.
- Key injectivity: `title + "-" + company` is not injective, and no property relies on it.
- SeenStore.AllSeenAfterUpdate: this and the second-call properties assume the keys contain neither `\n` nor `\r` and the store text ends with a newline. `MultiLineKeyNeverSeen` shows that a key containing a line break is never seen, so such a job is reported on every run.
