/** The product catalog: the sheet downloaded as CSV, its header clean-up, the
    resolution of the description and quantity columns, the typed rows the
    form works with, and the lookup of a scanned code. */
module Catalog {
  import opened Wrappers
  import opened Text

  /** One cell of the sheet as pandas reads it: text, or a whole non-negative
      number. */
  datatype Cell = Str(s: string) | Count(n: nat)

  /** The sheet: its header line and its data rows. */
  datatype Table = Table(headers: seq<string>, rows: seq<seq<Cell>>)

  /** Every row has one cell per header, as in a data frame. */
  predicate Rectangular(t: Table) {
    forall i :: 0 <= i < |t.rows| ==> |t.rows[i]| == |t.headers|
  }

  /** One header after `str.strip().str.lower()`. */
  function NormalizeHeader(h: string): (r: string)
    ensures IsStripped(r)
    ensures |r| == |Strip(h)| <= |h|
    ensures forall i :: 0 <= i < |r| ==> r[i] == LowerChar(Strip(h)[i])
    ensures forall i :: 0 <= i < |r| ==> !('A' <= r[i] <= 'Z')
  {
    LowerKeepsStripped(Strip(h));
    Lower(Strip(h))
  }

  /** A normalised header is its own normal form. */
  lemma NormalizeHeaderIdempotent(h: string)
    ensures NormalizeHeader(NormalizeHeader(h)) == NormalizeHeader(h)
  {
    var n := NormalizeHeader(h);
    StripStripped(n);
    LowerIdempotent(Strip(h));
  }

  /** The header line after clean-up, one entry per header. */
  function NormalizeHeaders(hs: seq<string>): (r: seq<string>)
    ensures |r| == |hs|
    ensures forall i :: 0 <= i < |hs| ==> r[i] == NormalizeHeader(hs[i])
  {
    seq(|hs|, i requires 0 <= i < |hs| => NormalizeHeader(hs[i]))
  }

  /** Cleaning up a header line that is already clean changes nothing. */
  lemma NormalizeHeadersIdempotent(hs: seq<string>)
    ensures NormalizeHeaders(NormalizeHeaders(hs)) == NormalizeHeaders(hs)
  {
    forall i | 0 <= i < |hs|
      ensures NormalizeHeaders(NormalizeHeaders(hs))[i] == NormalizeHeaders(hs)[i]
    {
      NormalizeHeaderIdempotent(hs[i]);
    }
  }

  /** How many headers are exactly `name`. */
  function Occurrences(hs: seq<string>, name: string): (n: nat)
    ensures n <= |hs|
    ensures n == 0 <==> name !in hs
  {
    if |hs| == 0 then 0
    else Occurrences(hs[..|hs| - 1], name) + (if hs[|hs| - 1] == name then 1 else 0)
  }

  /** The position of the first header exactly equal to `name`, if any. */
  function IndexOf(hs: seq<string>, name: string): (r: Option<nat>)
    ensures r.Some? <==> name in hs
    ensures r.Some? ==> r.value < |hs| && hs[r.value] == name
    ensures r.Some? ==> forall j :: 0 <= j < r.value ==> hs[j] != name
  {
    if |hs| == 0 then None
    else if hs[0] == name then Some(0)
    else match IndexOf(hs[1..], name)
      case None => None
      case Some(k) => Some(k + 1)
  }

  /** The position of the first header containing `pat`, the rule by which the
      description ("desc") and quantity ("cant") columns are found. */
  function FirstContaining(hs: seq<string>, pat: string): (r: Option<nat>)
    ensures r.Some? <==> exists i :: 0 <= i < |hs| && Contains(hs[i], pat)
    ensures r.Some? ==> r.value < |hs| && Contains(hs[r.value], pat)
    ensures r.Some? ==> forall j :: 0 <= j < r.value ==> !Contains(hs[j], pat)
  {
    if |hs| == 0 then None
    else if Contains(hs[0], pat) then Some(0)
    else match FirstContaining(hs[1..], pat)
      case None => None
      case Some(k) => Some(k + 1)
  }

  /** `astype(str)` of a cell: text stays as it is, and a number becomes its
      decimal digits, which read back as the number. */
  function CellText(c: Cell): (r: string)
    ensures c.Str? ==> r == c.s
    ensures c.Count? ==> |r| >= 1 && forall i :: 0 <= i < |r| ==> '0' <= r[i] <= '9'
    ensures c.Count? ==> DigitsValue(r) == c.n
  {
    match c
    case Str(s) => s
    case Count(n) => DecimalRoundTrip(n); Decimal(n)
  }

  /** The code column of a row after `astype(str).str.strip()`; the other
      cells as they were. */
  function CleanRow(hs: seq<string>, row: seq<Cell>): (r: seq<Cell>)
    requires |row| == |hs|
    ensures |r| == |row|
    ensures forall j :: 0 <= j < |row| ==>
              r[j] == (if hs[j] == "codigo" then Str(Strip(CellText(row[j]))) else row[j])
  {
    seq(|row|, j requires 0 <= j < |row| =>
      if hs[j] == "codigo" then Str(Strip(CellText(row[j]))) else row[j])
  }

  /** Every row with its code column cleaned. */
  function CleanRows(hs: seq<string>, rows: seq<seq<Cell>>): (r: seq<seq<Cell>>)
    requires forall i :: 0 <= i < |rows| ==> |rows[i]| == |hs|
    ensures |r| == |rows|
    ensures forall i :: 0 <= i < |rows| ==> r[i] == CleanRow(hs, rows[i]) && |r[i]| == |hs|
  {
    seq(|rows|, i requires 0 <= i < |rows| => CleanRow(hs, rows[i]))
  }

  /** Loading the sheet: headers are stripped and lower-cased and the code
      column is turned into stripped text. Without exactly one column named
      "codigo" the code column cannot be cleaned, and the load yields no
      data. */
  function Load(t: Table): (r: Option<Table>)
    requires Rectangular(t)
    ensures r.Some? <==> Occurrences(NormalizeHeaders(t.headers), "codigo") == 1
    ensures r.Some? ==> Rectangular(r.value)
    ensures r.Some? ==> r.value.headers == NormalizeHeaders(t.headers) && |r.value.rows| == |t.rows|
    ensures r.Some? ==> forall i :: 0 <= i < |t.rows| ==> r.value.rows[i] == CleanRow(r.value.headers, t.rows[i])
  {
    var hs := NormalizeHeaders(t.headers);
    if Occurrences(hs, "codigo") != 1 then None
    else Some(Table(hs, CleanRows(hs, t.rows)))
  }

  /** Cleaning the code column of an already cleaned row changes nothing. */
  lemma CleanRowIdempotent(hs: seq<string>, row: seq<Cell>)
    requires |row| == |hs|
    ensures CleanRow(hs, CleanRow(hs, row)) == CleanRow(hs, row)
  {
    var c := CleanRow(hs, row);
    forall j | 0 <= j < |row|
      ensures CleanRow(hs, c)[j] == c[j]
    {
      if hs[j] == "codigo" {
        StripIdempotent(CellText(row[j]));
      }
    }
  }

  /** Cleaning the code column of already cleaned rows changes nothing. */
  lemma CleanRowsIdempotent(hs: seq<string>, rows: seq<seq<Cell>>)
    requires forall i :: 0 <= i < |rows| ==> |rows[i]| == |hs|
    ensures CleanRows(hs, CleanRows(hs, rows)) == CleanRows(hs, rows)
  {
    var c := CleanRows(hs, rows);
    forall i | 0 <= i < |rows|
      ensures CleanRows(hs, c)[i] == c[i]
    {
      CleanRowIdempotent(hs, rows[i]);
    }
  }

  /** Loading an already loaded sheet gives it back unchanged. */
  lemma LoadIdempotent(t: Table)
    requires Rectangular(t)
    requires Occurrences(NormalizeHeaders(t.headers), "codigo") == 1
    ensures Load(Load(t).value) == Load(t)
  {
    var hs := NormalizeHeaders(t.headers);
    NormalizeHeadersIdempotent(t.headers);
    CleanRowsIdempotent(hs, t.rows);
    assert Load(t).value == Table(hs, CleanRows(hs, t.rows));
  }

  /** The column positions the form reads. */
  datatype Columns = Columns(codigo: nat, ov: nat, desc: nat, cant: nat)

  /** A cleaned header line from which every column can be resolved: one
      "codigo" column, one "ov" (work order) column, and some header
      containing "desc" and some containing "cant". The first header
      containing each must name a single column: a repeated name makes the
      form read two cells where it expects one. */
  predicate Resolvable(hs: seq<string>) {
    && Occurrences(hs, "codigo") == 1
    && Occurrences(hs, "ov") == 1
    && FirstContaining(hs, "desc").Some?
    && Occurrences(hs, hs[FirstContaining(hs, "desc").value]) == 1
    && FirstContaining(hs, "cant").Some?
    && Occurrences(hs, hs[FirstContaining(hs, "cant").value]) == 1
  }

  /** Column resolution: code and work order by exact name, description and
      quantity as the first header containing "desc" and "cant". */
  function Resolve(hs: seq<string>): (c: Columns)
    requires Resolvable(hs)
    ensures c.codigo < |hs| && hs[c.codigo] == "codigo"
    ensures c.ov < |hs| && hs[c.ov] == "ov"
    ensures c.desc < |hs| && Contains(hs[c.desc], "desc")
    ensures forall j :: 0 <= j < c.desc ==> !Contains(hs[j], "desc")
    ensures c.cant < |hs| && Contains(hs[c.cant], "cant")
    ensures forall j :: 0 <= j < c.cant ==> !Contains(hs[j], "cant")
    ensures Occurrences(hs, hs[c.desc]) == 1 && Occurrences(hs, hs[c.cant]) == 1
  {
    Columns(IndexOf(hs, "codigo").value, IndexOf(hs, "ov").value,
            FirstContaining(hs, "desc").value, FirstContaining(hs, "cant").value)
  }

  /** One catalog line: work order, stripped code, description and expected
      quantity. */
  datatype Row = Row(ov: Cell, codigo: string, desc: Cell, cant: nat)

  /** A sheet whose columns `c` lie within every row, whose code cells are
      text and whose quantity cells are numbers. */
  predicate Typed(t: Table, c: Columns) {
    && Rectangular(t)
    && c.codigo < |t.headers| && c.ov < |t.headers| && c.desc < |t.headers| && c.cant < |t.headers|
    && (forall i :: 0 <= i < |t.rows| ==> t.rows[i][c.codigo].Str?)
    && (forall i :: 0 <= i < |t.rows| ==> t.rows[i][c.cant].Count?)
  }

  /** `cat` holds, line by line, the cells of the sheet's rows in the columns
      `c`. */
  predicate ReadOff(t: Table, c: Columns, cat: seq<Row>)
    requires Typed(t, c)
  {
    && |cat| == |t.rows|
    && forall i :: 0 <= i < |cat| ==>
         && cat[i].ov == t.rows[i][c.ov] && cat[i].desc == t.rows[i][c.desc]
         && Str(cat[i].codigo) == t.rows[i][c.codigo] && Count(cat[i].cant) == t.rows[i][c.cant]
  }

  /** The catalog lines read off a typed sheet, in sheet order. */
  function Rows(t: Table, c: Columns): (r: seq<Row>)
    requires Typed(t, c)
    ensures ReadOff(t, c, r)
  {
    seq(|t.rows|, i requires 0 <= i < |t.rows| =>
      Row(t.rows[i][c.ov], t.rows[i][c.codigo].s, t.rows[i][c.desc], t.rows[i][c.cant].n))
  }

  /** A loaded sheet the form can work with: its columns resolve and its
      quantity cells are numbers. */
  predicate Usable(u: Table) {
    && Rectangular(u)
    && Resolvable(u.headers)
    && (forall i :: 0 <= i < |u.rows| ==> u.rows[i][Resolve(u.headers).cant].Count?)
  }

  /** After loading, every cell of the code column is stripped text. */
  lemma LoadedCodes(t: Table, c: nat)
    requires Rectangular(t)
    requires Load(t).Some?
    requires c < |t.headers| && Load(t).value.headers[c] == "codigo"
    ensures forall i :: 0 <= i < |t.rows| ==>
              Load(t).value.rows[i][c].Str? && IsStripped(Load(t).value.rows[i][c].s)
  {
    var u := Load(t).value;
    forall i | 0 <= i < |t.rows|
      ensures u.rows[i][c].Str? && IsStripped(u.rows[i][c].s)
    {
      assert u.rows[i][c] == Str(Strip(CellText(t.rows[i][c])));
    }
  }

  /** A loaded, usable sheet is typed in the columns it resolves to. */
  lemma LoadedTyped(t: Table, u: Table, c: Columns)
    requires Rectangular(t)
    requires Load(t) == Some(u) && Usable(u) && c == Resolve(u.headers)
    ensures Typed(u, c)
  {
    LoadedCodes(t, c.codigo);
  }

  /** The catalog of a downloaded sheet, or no data when the sheet cannot be
      loaded. Line `i` holds the cells of row `i` of the loaded sheet in the
      resolved work-order, code, description and quantity columns. A sheet
      that loads but has no header containing "desc" or "cant" fails as
      soon as it is loaded. One without exactly one "ov" column, with a
      repeated description or quantity header, or with a non-numeric
      quantity cell fails later: once its line is scanned, or once a count
      is registered. Such sheets are excluded here. */
  function Open(t: Table): (r: Option<seq<Row>>)
    requires Rectangular(t)
    requires Load(t).Some? ==> Usable(Load(t).value)
    ensures r.Some? <==> Load(t).Some?
    ensures r.Some? ==> |r.value| == |t.rows|
    ensures r.Some? ==>
              && Typed(Load(t).value, Resolve(Load(t).value.headers))
              && ReadOff(Load(t).value, Resolve(Load(t).value.headers), r.value)
  {
    match Load(t)
    case None => None
    case Some(u) =>
      var c := Resolve(u.headers);
      LoadedTyped(t, u, c);
      Some(Rows(u, c))
  }

  /** Every code in an opened catalog is stripped, so it can equal a
      stripped scan. */
  lemma OpenCodesStripped(t: Table)
    requires Rectangular(t)
    requires Load(t).Some? && Usable(Load(t).value)
    ensures forall i :: 0 <= i < |Open(t).value| ==> IsStripped(Open(t).value[i].codigo)
  {
    var u := Load(t).value;
    var c := Resolve(u.headers);
    LoadedCodes(t, c.codigo);
    forall i | 0 <= i < |Open(t).value|
      ensures IsStripped(Open(t).value[i].codigo)
    {
      assert Str(Open(t).value[i].codigo) == u.rows[i][c.codigo];
    }
  }

  /** Opening an already loaded sheet gives the same catalog as opening the
      downloaded one. */
  lemma OpenLoaded(t: Table)
    requires Rectangular(t)
    requires Load(t).Some? && Usable(Load(t).value)
    ensures Rectangular(Load(t).value)
    ensures Load(Load(t).value) == Load(t)
    ensures Open(Load(t).value) == Open(t)
  {
    LoadIdempotent(t);
  }

  /** The first catalog line at or after `from` whose code is `code`. */
  function FirstMatchFrom(cat: seq<Row>, code: string, from: nat): (r: Option<nat>)
    requires from <= |cat|
    ensures r.Some? <==> exists i :: from <= i < |cat| && cat[i].codigo == code
    ensures r.Some? ==> from <= r.value < |cat| && cat[r.value].codigo == code
    ensures r.Some? ==> forall j :: from <= j < r.value ==> cat[j].codigo != code
    decreases |cat| - from
  {
    if from == |cat| then None
    else if cat[from].codigo == code then Some(from)
    else FirstMatchFrom(cat, code, from + 1)
  }

  /** The first catalog line whose code is exactly `code`. */
  function FirstMatch(cat: seq<Row>, code: string): (r: Option<nat>)
    ensures r.Some? <==> exists i :: 0 <= i < |cat| && cat[i].codigo == code
    ensures r.Some? ==> r.value < |cat| && cat[r.value].codigo == code
    ensures r.Some? ==> forall j :: 0 <= j < r.value ==> cat[j].codigo != code
  {
    FirstMatchFrom(cat, code, 0)
  }

  /** The line a scanned code selects: the code is stripped; an empty code
      selects nothing, otherwise the first line whose code equals it. */
  function Lookup(cat: seq<Row>, input: string): (r: Option<nat>)
    ensures r.Some? <==> Strip(input) != "" && exists i :: 0 <= i < |cat| && cat[i].codigo == Strip(input)
    ensures r.Some? ==> r.value < |cat| && cat[r.value].codigo == Strip(input)
    ensures r.Some? ==> forall j :: 0 <= j < r.value ==> cat[j].codigo != Strip(input)
  {
    var key := Strip(input);
    if key == "" then None else FirstMatch(cat, key)
  }

  /** Surrounding whitespace in the scanned code does not change the line it
      selects. */
  lemma LookupIgnoresPadding(cat: seq<Row>, input: string, pad: string, pad': string)
    requires AllSpace(pad) && AllSpace(pad')
    ensures Lookup(cat, pad + input + pad') == Lookup(cat, input)
  {
    StripPadding(input, pad, pad');
  }
}
