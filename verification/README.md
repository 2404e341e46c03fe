# Audit ledger of the "Auditoría Mundial" counting form

The form is a one-page Streamlit app. An operator scans or types a product
code. The app finds the code in a catalog sheet, which lists work order
(`ov`), code, description and expected quantity. The operator enters how
many pieces were found, and the app records the count in a session ledger
(`historial`). It refuses any count that would push a code past its
expected quantity, and shows progress as a mascot that fills up.

This project models the logic of that page as pure Dafny functions over
immutable values. The session state is an explicit value that each
transition takes in and gives back. It proves:

- the over-count guard keeps every code's counted total within the
  expected quantity of its first catalog line, over any sequence of
  operator actions;
- as a consequence, for a catalog whose quantities are whole non-negative
  numbers, the progress percentage never exceeds 100.

Modules:

- `Wrappers`: the `Option` type.
- `Text`: Python's `str.strip()` (with its full whitespace set),
  `str.lower()`, the substring test `p in s` and `str(n)` for whole
  numbers.
- `Catalog`: the sheet as a table of cells, with its loading and column
  resolution:
  - headers are stripped and lower-cased;
  - the code column becomes stripped text;
  - the description and quantity columns are the first headers containing
    `desc` and `cant`.

  It also holds the typed catalog lines and the lookup of a scanned code,
  which takes the first line whose code equals the stripped input.
- `Ledger`: ledger entries `{codigo, descripcion, piezas, ov}`, with:
  - appending an entry;
  - the already-audited count of a code (`ya_auditado`);
  - the session total (`total_a`).
- `Audit`: the state machine. It holds:
  - the product panel;
  - the over-count guard, which decides what the form offers: nothing, the
    "CANTIDAD EXCEDIDA" error, or the confirm button;
  - the session and its transitions (scan, confirm, reset);
  - the soundness invariant and its preservation.
- `Progress`: the progress percentage `avance`, its clamp to [0, 100] for
  the mascot, the clip inset, and the proof that a sound ledger's progress
  lies in [0, 100].
- `Summary`: the report table. It groups the ledger by (code, description,
  work order) and sums the pieces of each group.
- `Scenario`: worked sessions over concrete catalogs.

Three points about the code's behaviour:

- The already-audited count is keyed by the code alone, not by
  (code, work order). A scan always selects the first catalog line with
  that code, so every entry for a code carries that line's work order.
- The expected total (`total_e`) sums every catalog line whose work order
  occurs anywhere in the ledger. It is not limited to one selected work
  order.
- Progress is not monotone. Counting a piece for a new work order enlarges
  the expected total, and progress can fall: `Scenario.ProgressCanFall`
  goes from 100 % to 55 %.

## Model

| member | source | states |
|---|---|---|
| Text.Strip | app.py:114 | the result has no whitespace at either end, and the input's leading whitespace plus the result fit within the input |
| Text.StripInfix | app.py:114 | the result is the infix of the input that starts right after its leading whitespace |
| Text.StripCutFront | app.py:114 | everything cut from the front of the input is whitespace in Python's sense |
| Text.StripCutBack | app.py:114 | everything cut from the back of the input is whitespace in Python's sense |
| Text.StripIdempotent | app.py:97 | stripping an already stripped code changes nothing |
| Text.StripPadding | app.py:114 | whitespace added around a scanned code does not change what it strips to |
| Text.Contains | app.py:110-111 | the empty pattern occurs in every header, and no pattern longer than the header occurs in it |
| Text.ContainsAt | app.py:110-111 | the substring test holds exactly when some suffix of the header starts with the pattern |
| Text.Lower | app.py:96 | the result has the input's length, each character is the lower-cased input character, and no ASCII capital is left |
| Text.LowerIdempotent | app.py:96 | lower-casing twice is the same as lower-casing once |
| Text.DecimalRoundTrip | app.py:97 | `str()` of a numeric code cell gives digits that read back as the same number |
| Catalog.NormalizeHeader | app.py:96 | a cleaned header is the stripped raw header lower-cased character by character: it has the stripped header's length, no whitespace at either end and no ASCII capital |
| Catalog.NormalizeHeadersIdempotent | app.py:96 | cleaning an already cleaned header line changes nothing |
| Catalog.CellText | app.py:97 | `astype(str)` keeps a text cell as it is and turns a number into decimal digits that read back as that number |
| Catalog.CleanRow | app.py:97 | the cell under "codigo" becomes the stripped text of the cell, and every other cell is kept |
| Catalog.Load | app.py:93-99 | loading yields data exactly when one cleaned header is "codigo"; the headers are then cleaned, every row keeps one cell per header, and each row is the raw row with its code cell cleaned |
| Catalog.CleanRowsIdempotent | app.py:97 | cleaning the code column of already cleaned rows changes nothing |
| Catalog.LoadIdempotent | app.py:96-97 | loading an already loaded sheet gives it back unchanged |
| Catalog.IndexOf | app.py:108-109 | finds a column exactly when some header equals the name, and the one found is the first such header |
| Catalog.FirstContaining | app.py:110-111 | finds a header exactly when some header contains the pattern, and the one found is the first that does |
| Catalog.Resolve | app.py:108-111 | code and work-order columns are found by exact name, the description and quantity columns are the first headers containing "desc" and "cant", and each of those names a single column |
| Catalog.Open | app.py:104-111 | a catalog exists exactly when the sheet loads; it has one line per sheet row, and line i holds row i's cells in the resolved work-order, code, description and quantity columns |
| Catalog.OpenCodesStripped | app.py:97 | every code in an opened catalog is stripped, so a stripped scan can equal it |
| Catalog.OpenLoaded | app.py:92-99 | opening an already loaded sheet gives the same catalog as opening the downloaded one |
| Catalog.FirstMatch | app.py:117-120 | finds a line exactly when some line carries the code, and the one found is the first that does |
| Catalog.Lookup | app.py:114-120 | a scan selects a line exactly when the stripped input is non-empty and some line's code equals it; the selected line is the first such line |
| Catalog.LookupIgnoresPadding | app.py:114-117 | surrounding whitespace in the scanned code does not change the selected line |
| Ledger.Register | app.py:82-85 | registering grows the ledger by exactly one entry with the given code, description, pieces and work order, and keeps every earlier entry |
| Ledger.Audited | app.py:132 | no code's already-audited count exceeds the session total |
| Ledger.AuditedCovers | app.py:132 | each entry for a code contributes its whole pieces to that code's count, and a code no entry carries has count 0 |
| Ledger.Counted | app.py:151 | the session total is 0 for an empty ledger; the per-entry bound is Ledger.CountedCovers |
| Ledger.CountedConcat | app.py:151 | the session total of two ledgers laid end to end is the sum of their totals |
| Ledger.CountedCovers | app.py:151 | each entry's pieces are at most the session total, and when every entry holds at least one piece the total is at least the number of entries |
| Ledger.Only | app.py:132 | the entries for a code are exactly the ledger's entries carrying it, each kept as many times as it occurs |
| Ledger.AuditedIsSumOfOnly | app.py:132 | the already-audited count of a code is the sum of pieces over exactly the entries carrying that code |
| Ledger.AuditedRegister | app.py:132 | a new entry raises its own code's count by its pieces, leaves every other code's count alone, and raises the session total by its pieces |
| Ledger.AuditedIgnoresOthers | app.py:132 | entries for other codes, whatever their work order, leave a code's count unchanged |
| Ledger.CountAudited | app.py:132 | a single front-to-back pass over the ledger computes the already-audited count |
| Audit.Limit | app.py:131 | for a code the catalog has, the expected quantity is that of the first line carrying the code |
| Audit.OpenPanel | app.py:116-136 | a panel opens exactly when the scan selects a line; it shows the selected line, the first carrying the stripped code, with its expected quantity and the pieces already counted for the code |
| Audit.Decide | app.py:138-144 | confirm is offered exactly when the code selects a line and the counted pieces plus the new quantity stay within the expected quantity; otherwise an over-count error or no panel is shown; the offered entry carries the stripped code, the new quantity, and the line's description and work order; the error and the confirm button come with the very panel the scan opens |
| Audit.Step | app.py:140-144 | an accepted confirm appends exactly the offered entry and clears the scanner; a refused confirm leaves the session unchanged; reset empties the ledger |
| Audit.OfferedRecorded | app.py:138-144 | every offered entry has at least one piece, a known code, and the description and work order of that code's first line |
| Audit.ConfirmSound | app.py:138-144 | registering the entry the guard offers keeps a sound ledger sound |
| Audit.ConfirmWithinLimits | app.py:140-144 | registering the entry the guard offers keeps every code's count within its expected quantity |
| Audit.RegisterRecorded | app.py:82-85 | appending an entry the guard could have let through keeps every entry one the guard could have let through |
| Audit.StepSound | app.py:140-144 | every transition keeps the ledger sound: no code counted past its expected quantity, and every entry has at least one piece |
| Audit.RunSound | app.py:140-144 | any sequence of actions keeps a sound ledger sound |
| Audit.NeverOverCounted | app.py:132-144 | from a fresh page, whatever the operator does, every code's count stays within the expected quantity of its first line, and every entry has at least one piece |
| Audit.UnknownCodeChangesNothing | app.py:116-120 | a code that selects no line opens no panel, and confirming leaves the session unchanged |
| Progress.Ovs | app.py:149 | every entry's work order is in the set, and every member of the set is some entry's work order |
| Progress.Expected | app.py:150 | the expected total is 0 when no work order is touched and at least the quantity of every line of a touched work order |
| Progress.ExpectedGrows | app.py:149-150 | touching more work orders never lowers the expected total |
| Progress.ExpectedCovers | app.py:150 | every line of a touched work order adds its whole quantity to the expected total, and with no line of a touched work order the total is 0 |
| Progress.Percent | app.py:152 | the percentage is non-negative, 0 for a zero whole, and otherwise such that it percent of the whole is the part |
| Progress.Avance | app.py:149-152 | progress is non-negative; it is 0 when nothing is expected, and otherwise progress percent of the expected total is the counted total |
| Progress.LineWithinExpected | app.py:131-150 | in a sound ledger a line is charged no more than its quantity, and only when some entry carries its work order |
| Progress.AttributedWithinExpected | app.py:131-150 | in a sound ledger the pieces charged to any prefix of the catalog are at most what that prefix adds to the expected total |
| Progress.CountedWithinExpected | app.py:149-151 | in a sound ledger, the total counted is at most the expected total of the touched work orders |
| Progress.AvanceAtMost100 | app.py:149-152 | the progress of a sound ledger lies in [0, 100] |
| Progress.RunAvanceBounded | app.py:148-152 | from a fresh page, whatever the operator does, progress lies in [0, 100] |
| Progress.Fill | app.py:67 | the fill level lies in [0, 100]; it equals the input inside that range, 0 below it and 100 above it |
| Progress.Inset | app.py:68 | the clip inset lies in [0, 100] and is the complement of the fill level |
| Progress.FillShowsAvance | app.py:67-68 | for a sound ledger the clamp changes nothing, and the inset is 100 minus the progress |
| Progress.AvanceComplete | app.py:152 | progress is exactly 100 once the counted total reaches a non-zero expected total |
| Progress.AvanceAfterReset | app.py:166-167 | after a reset no work order is touched and progress is 0 |
| Summary.Add | app.py:158 | folding an entry keeps keys distinct and every existing line's key in place, adds its key, raises the total by its pieces, and raises exactly the line with its key by its pieces, appending that line when new |
| Summary.Summarize | app.py:158 | the report has one line per distinct (code, description, work order) key in the ledger, no key twice, and each line's pieces are the sum over its key |
| Summary.SummaryPreservesTotal | app.py:158 | the report's pieces add up to the ledger's total |
| Scenario.AcceptSix | app.py:138-144 | with one line A1 expecting 10, a count of 6 on an empty ledger is accepted, recorded as one entry, and the scanner is cleared |
| Scenario.RefuseFive | app.py:140-141 | with 6 already counted, a further 5 (11 > 10) is refused, and the ledger and scanner are unchanged |
| Scenario.AcceptFour | app.py:140-144 | with 6 already counted, a further 4 is accepted and the code's count reaches exactly 10 |
| Scenario.ScenarioProgress | app.py:149-152 | in that session progress reads 60 after six pieces and 100 after ten |
| Scenario.ProgressCanFall | app.py:149-152 | one piece for a second work order takes progress from 100 down to 55 |

## Left out

- Page rendering, widgets, CSS, toasts, `st.rerun` and the session-state
  plumbing. These are user interface. The session is the explicit
  `Audit.Session` value. A button press is the `Confirm` action; it carries
  the quantity shown in the number widget, which never goes below 1.
- Fetching the CSV over HTTP and the five-minute cache. These are network
  I/O and timers. The downloaded sheet is the input `Catalog.Table`, and a
  failed download is a load that yields no data.
- The confirm button's callback runs with the values captured when the page
  was drawn. With one operator the ledger cannot change between drawing and
  clicking, so the model checks the guard and records the entry in one
  step.
- Mascot and product images: file-existence checks, base64 encoding and
  HTML building. These are filesystem work and presentation.
- The Excel export and the download button. A foreign library does the
  serialisation; the model stops at the grouped report.
- The one-decimal formatting of the percentage. The model keeps progress as
  an exact `real`, where the source uses a float.
- Catalog.Open: a sheet that loads must have exactly one column named
  "ov", headers containing "desc" and "cant" whose first such header names
  a single column, and a number in every quantity cell. Sheets without
  these are excluded by precondition. The source fails on them, but not
  always at once:
  - no header containing "desc" or "cant" fails at app.py:110-111, right
    after loading;
  - no "ov" column still lets lookup and the panel work; the page fails at
    `item[col_ov]` (app.py:144) once a count passes the guard;
  - a repeated "ov" column makes `item[col_ov]` a series, stored as the
    entry's work order; the work-order steps at app.py:149-150 fail on the
    rerun after the first registration;
  - a repeated quantity header makes `item[col_cant]` a series, which
    `int()` rejects at app.py:131 when the line is scanned;
  - a repeated description header makes `item[col_desc]` a series, stored
    as the entry's description; the grouping at app.py:158 fails on it;
  - a text quantity cell that `int()` accepts, such as "10", passes the
    guard at app.py:131, but the sum at app.py:150 then joins text, and the
    comparison at app.py:152 fails after the first registration;
  - a text quantity cell that `int()` rejects, such as "diez", fails at
    app.py:131 as soon as its line is scanned.
- Catalog.Cell: quantity cells are whole non-negative numbers, so the model
  excludes sheets with negative, fractional or missing quantities. The
  source does not crash on the first two:
  - `int()` at app.py:131 truncates a fractional quantity for the guard,
    while app.py:150 sums it whole;
  - a negative quantity makes the guard refuse every count of that code,
    yet it lowers the expected total at app.py:150.
  Missing cells (pandas NaN) and floating-point cells are not modelled.
  Pandas renaming of identical raw headers happens before the model's
  input.
- Progress.AvanceAtMost100 and Progress.RunAvanceBounded hold only because
  quantities are non-negative. With a line of 10 and a line of -3 in the
  same work order, ten counted pieces give 10 / 7, that is 142.9 %.
- Text.LowerChar: only ASCII and Latin-1 capitals are lower-cased. Python
  lower-cases every Unicode capital.
- Summary.SummaryPreservesTotal: holds only because the model has no
  missing cells. In the source, an entry whose description or work-order
  cell is blank carries NaN. The grouping at app.py:158 drops NaN keys by
  default, so those pieces are in the session total (app.py:151) but
  missing from the report and the Excel export.
- Summary.Summarize: the report lines appear in order of first occurrence.
  Pandas sorts groups by key, which changes only the order of the
  displayed rows.
- Progress.Avance: the source computes progress only when the ledger is
  non-empty. The model defines it on the empty ledger too, where it is 0.
- A catalog reload in the middle of a session is not modelled. Every
  property is stated against one fixed catalog.
