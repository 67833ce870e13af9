/**
 * The converter's core: from a parsed spreadsheet sheet (an ordered header
 * list and rows of string-or-missing cells) to the filtered, projected and
 * cleaned records plus the summary that `excel_to_json_bytes` returns.
 *
 * `Transform` states the result declaratively, from the input alone;
 * `ExcelToJson` follows the source step by step (the alias loop, then the
 * successive rebindings of the local table `df`) and is proved to agree with it.
 */
module Sheet {
  import opened Wrappers
  import opened Text

  /** A cell as read with `dtype=str`: a string, or pandas' missing value. */
  type Cell = Option<string>

  /** One spreadsheet row, from header to cell. */
  type Row = map<string, Cell>

  /** The parsed sheet: headers in column order and the rows below them. */
  datatype Table = Table(headers: seq<string>, rows: seq<Row>)

  /** Every row has a cell for exactly the sheet's headers. */
  ghost predicate WellFormed(t: Table) {
    RowsOver(t.rows, t.headers)
  }

  /** An output cell: a string, a number from `pd.to_numeric`, or missing (NaN). */
  datatype Value = Str(s: string) | Num(n: real) | Null

  /** One key/value pair of an output record, keys in column order. */
  datatype Field = Field(key: string, value: Value)

  type Record = seq<Field>

  datatype Meta = Meta(
    totalProducts: nat,
    existenceSi: nat,
    sheetName: string,
    filteredRecords: nat,
    existenceColumn: string)

  /** The `{"meta": ..., "data": [...]}` object. */
  datatype Conversion = Conversion(meta: Meta, data: seq<Record>)

  /** `pd.to_numeric` on one string: a number, or None where it coerces to NaN. */
  type Parser = string -> Option<real>

  /** The existence-column aliases, highest priority first. */
  const Candidates: seq<string> := ["EXISTENTE", "EXISTENCIAS", "EXISTENCIA", "EXISTE"]

  /** The required columns in declaration order (the keys of `columnas`). */
  const Required: seq<string> :=
    ["EXISTENCIAS", "STOCK", "CODIGO", "CATEGORIA", "NOMBRE CONTIFICO", "PRECIO", "DESCRIPCION", "ENLACE WEB"]

  const Existencias := "EXISTENCIAS"
  const Stock := "STOCK"
  const Precio := "PRECIO"
  const NombreContifico := "NOMBRE CONTIFICO"
  const NotFound := "(no encontrada)"
  const MissingPrefix := "Faltan columnas en el Excel: "

  // ---------------------------------------------------------------------------
  // Detecting the existence column
  // ---------------------------------------------------------------------------

  /** The lookup key of a header: `c.strip().lower()`. */
  function Key(h: string): string {
    Lower(Strip(h))
  }

  /** Index of the last header whose key is `k`, or -1 when there is none. */
  function LastKeyIndex(hs: seq<string>, k: string): (i: int)
    ensures -1 <= i < |hs|
    ensures i >= 0 ==> Key(hs[i]) == k
    ensures forall j :: i < j < |hs| ==> Key(hs[j]) != k
  {
    if hs == [] then -1
    else if Key(hs[|hs| - 1]) == k then |hs| - 1
    else LastKeyIndex(hs[..|hs| - 1], k)
  }

  /**
   * `{c.strip().lower(): c for c in df.columns}`: built left to right, so a
   * later header overwrites an earlier one with the same key.
   */
  function ColMap(hs: seq<string>): (m: map<string, string>)
    ensures forall k :: k in m <==> LastKeyIndex(hs, k) >= 0
    ensures forall k :: k in m ==> m[k] == hs[LastKeyIndex(hs, k)]
  {
    if hs == [] then map[]
    else ColMap(hs[..|hs| - 1])[Key(hs[|hs| - 1]) := hs[|hs| - 1]]
  }

  /** The first alias, in list order, whose lower-case form is a key of `colmap`. */
  function FirstMatch(aliases: seq<string>, colmap: map<string, string>): (r: Option<string>)
    ensures r.None? <==> forall j :: 0 <= j < |aliases| ==> Lower(aliases[j]) !in colmap
    ensures r.Some? ==>
      exists j :: && 0 <= j < |aliases|
                  && Lower(aliases[j]) in colmap && r.value == colmap[Lower(aliases[j])]
                  && forall j' :: 0 <= j' < j ==> Lower(aliases[j']) !in colmap
  {
    if aliases == [] then None
    else if Lower(aliases[0]) in colmap then Some(colmap[Lower(aliases[0])])
    else
      var r := FirstMatch(aliases[1..], colmap);
      assert forall j :: 1 <= j < |aliases| ==> aliases[j] == aliases[1..][j - 1];
      r
  }

  /** The lower-case key the alias at position `j` is looked up with. */
  function AliasKey(j: int): string
    requires 0 <= j < |Candidates|
  {
    Lower(Candidates[j])
  }

  /** Some header's `strip().lower()` is `k`. */
  ghost predicate HasKey(hs: seq<string>, k: string) {
    LastKeyIndex(hs, k) >= 0
  }

  /**
   * The detected existence column: the original header of the first alias
   * whose key some header has.
   */
  function Detect(hs: seq<string>): (r: Option<string>)
    ensures r.Some? ==> r.value in hs
  {
    FirstMatch(Candidates, ColMap(hs))
  }

  /** Nothing is detected exactly when no header's key is an alias key. */
  lemma DetectNone(hs: seq<string>)
    ensures Detect(hs).None? <==> forall j :: 0 <= j < |Candidates| ==> !HasKey(hs, AliasKey(j))
  {
    var m := ColMap(hs);
    forall j | 0 <= j < |Candidates|
      ensures Lower(Candidates[j]) in m <==> HasKey(hs, AliasKey(j))
    {
      assert AliasKey(j) == Lower(Candidates[j]);
    }
  }

  /**
   * Priority: the detected header has the key of alias `j`, no alias before
   * `j` matches any header, and of several headers with that key it is the last.
   */
  lemma DetectPriority(hs: seq<string>)
    requires Detect(hs).Some?
    ensures exists j :: && 0 <= j < |Candidates| && HasKey(hs, AliasKey(j))
                        && Detect(hs).value == hs[LastKeyIndex(hs, AliasKey(j))]
                        && forall j' :: 0 <= j' < j ==> !HasKey(hs, AliasKey(j'))
  {
    var m := ColMap(hs);
    var j :| && 0 <= j < |Candidates|
             && Lower(Candidates[j]) in m && Detect(hs).value == m[Lower(Candidates[j])]
             && forall j' :: 0 <= j' < j ==> Lower(Candidates[j']) !in m;
    assert AliasKey(j) == Lower(Candidates[j]);
    forall j' | 0 <= j' < j
      ensures !HasKey(hs, AliasKey(j'))
    {
      assert AliasKey(j') == Lower(Candidates[j']);
    }
    assert HasKey(hs, AliasKey(j)) && Detect(hs).value == hs[LastKeyIndex(hs, AliasKey(j))];
  }

  /** The detected header is never the empty string, so Python's `if existence_col:` is "was one detected". */
  lemma DetectNotEmpty(hs: seq<string>)
    requires Detect(hs).Some?
    ensures Detect(hs).value != ""
  {
    var m := ColMap(hs);
    var j :| && 0 <= j < |Candidates|
             && Lower(Candidates[j]) in m && Detect(hs).value == m[Lower(Candidates[j])];
    assert |Lower(Candidates[j])| == |Candidates[j]| > 0;
    assert Key("") == "";
  }

  /** If `EXISTENCIAS` itself is a header, some alias is always detected. */
  lemma ExistenciasHeaderIsDetected(hs: seq<string>)
    requires Existencias in hs
    ensures Detect(hs).Some?
  {
    var i :| 0 <= i < |hs| && hs[i] == Existencias;
    StripTrimmed(Existencias);
    assert Key(hs[i]) == AliasKey(1);
    assert HasKey(hs, AliasKey(1));
  }

  // ---------------------------------------------------------------------------
  // Filtering on the existence column
  // ---------------------------------------------------------------------------

  /** `str(cell)`: the missing value prints as "nan". */
  function AsText(c: Cell): string {
    if c.Some? then c.value else "nan"
  }

  /** `.astype(str).str.strip().str.upper().str.replace('Í', 'I')` on one cell. */
  function Normalise(c: Cell): string {
    FoldAccentedI(Upper(Strip(AsText(c))))
  }

  /** The cell counts as "in stock". */
  predicate IsSi(c: Cell) {
    Normalise(c) == "SI"
  }

  /** The normalised form of a string cell is the character-wise image of its stripped text. */
  lemma NormaliseAt(c: Cell, k: int)
    requires 0 <= k < |Strip(AsText(c))|
    ensures |Normalise(c)| == |Strip(AsText(c))|
    ensures Normalise(c)[k] == NormaliseChar(Strip(AsText(c))[k])
  {
  }

  /** One character of `upper()` followed by the replacement of accented I. */
  function NormaliseChar(ch: char): char {
    if UpperChar(ch) == '\U{CD}' then 'I' else UpperChar(ch)
  }

  /** A missing cell is read as "nan" and never passes. */
  lemma MissingIsNotSi(c: Cell)
    requires c.None?
    ensures !IsSi(c)
  {
    StripTrimmed("nan");
    NormaliseAt(c, 0);
  }

  lemma TwoCharSi(c: Cell)
    requires c.Some? && |Strip(c.value)| == 2
    ensures IsSi(c) <==>
      Strip(c.value)[0] in {'s', 'S', '\U{17F}'} && Strip(c.value)[1] in {'i', 'I', '\U{ED}', '\U{CD}', '\U{131}'}
  {
    NormaliseAt(c, 0);
    NormaliseAt(c, 1);
    var n := Normalise(c);
    assert n == "SI" <==> n[0] == 'S' && n[1] == 'I';
  }

  lemma OtherLengthNotSi(c: Cell)
    requires c.Some? && |Strip(c.value)| != 2
    ensures !IsSi(c)
  {
    if |Strip(AsText(c))| > 0 {
      NormaliseAt(c, 0);
    }
  }

  /**
   * Exactly the cells "si" / "sí" in any letter case, with any surrounding
   * whitespace, pass, together with the spellings using the long s and the
   * dotless i, which `upper` maps to S and I; a missing cell never does.
   */
  lemma IsSiExactly(c: Cell)
    ensures IsSi(c) <==>
      && c.Some?
      && |Strip(c.value)| == 2
      && Strip(c.value)[0] in {'s', 'S', '\U{17F}'}
      && Strip(c.value)[1] in {'i', 'I', '\U{ED}', '\U{CD}', '\U{131}'}
  {
    if c.None? {
      MissingIsNotSi(c);
    } else if |Strip(c.value)| == 2 {
      TwoCharSi(c);
    } else {
      OtherLengthNotSi(c);
    }
  }

  /** The elements of `xs` that pass `keep`, in their order. */
  function Filter(xs: seq<Row>, keep: Row -> bool): (kept: seq<Row>)
    ensures |kept| <= |xs|
  {
    if xs == [] then [] else (if keep(xs[0]) then [xs[0]] else []) + Filter(xs[1..], keep)
  }

  /** An element survives exactly when it is in `xs` and passes. */
  lemma {:induction false} FilterMembers(xs: seq<Row>, keep: Row -> bool)
    ensures forall x :: x in Filter(xs, keep) <==> x in xs && keep(x)
  {
    if xs != [] {
      FilterMembers(xs[1..], keep);
      assert forall x :: x in xs <==> x == xs[0] || x in xs[1..];
    }
  }

  /** Filtering distributes over concatenation: survivors keep their relative order. */
  lemma {:induction false} FilterAppend(a: seq<Row>, b: seq<Row>, keep: Row -> bool)
    ensures Filter(a + b, keep) == Filter(a, keep) + Filter(b, keep)
  {
    if a == [] {
      assert a + b == b;
    } else {
      var ab := a + b;
      assert ab[0] == a[0] && ab[1..] == a[1..] + b;
      FilterAppend(a[1..], b, keep);
      var head := if keep(a[0]) then [a[0]] else [];
      calc == {
        Filter(ab, keep);
        head + Filter(ab[1..], keep);
        head + (Filter(a[1..], keep) + Filter(b, keep));
        (head + Filter(a[1..], keep)) + Filter(b, keep);
      }
    }
  }

  /** A boolean series: one flag per element. */
  function Mask(xs: seq<Row>, keep: Row -> bool): seq<bool> {
    seq(|xs|, k requires 0 <= k < |xs| => keep(xs[k]))
  }

  /** `mask.sum()`. */
  function CountTrue(mask: seq<bool>): nat {
    if mask == [] then 0 else (if mask[0] then 1 else 0) + CountTrue(mask[1..])
  }

  /** `df[mask]`: the rows whose flag is set. */
  function Select(xs: seq<Row>, mask: seq<bool>): seq<Row>
    requires |mask| == |xs|
  {
    if xs == [] then [] else (if mask[0] then [xs[0]] else []) + Select(xs[1..], mask[1..])
  }

  /** Selecting with the mask is the filter, and the mask's sum is the survivor count. */
  lemma {:induction false} SelectByMask(xs: seq<Row>, keep: Row -> bool)
    ensures Select(xs, Mask(xs, keep)) == Filter(xs, keep)
    ensures CountTrue(Mask(xs, keep)) == |Filter(xs, keep)|
  {
    if xs != [] {
      assert Mask(xs, keep)[1..] == Mask(xs[1..], keep);
      SelectByMask(xs[1..], keep);
    }
  }

  /** `norm.eq('SI')` on one row. */
  function Passes(col: string): Row -> bool {
    r => IsSi(At(r, col))
  }

  /** `df[mask_si]` as a specification: the rows whose existence cell reads `SI`, in their order. */
  function KeepExisting(rows: seq<Row>, col: string): seq<Row> {
    Filter(rows, Passes(col))
  }

  /** The survivors are exactly the rows whose existence cell reads `SI`. */
  lemma KeepExistingMembers(rows: seq<Row>, col: string)
    ensures forall r :: r in KeepExisting(rows, col) <==> r in rows && IsSi(At(r, col))
  {
    assert KeepExisting(rows, col) == Filter(rows, Passes(col));
    FilterMembers(rows, Passes(col));
  }


  /** Filtering two blocks of rows filters each and keeps them in order. */
  lemma KeepExistingAppend(a: seq<Row>, b: seq<Row>, col: string)
    ensures KeepExisting(a + b, col) == KeepExisting(a, col) + KeepExisting(b, col)
  {
    FilterAppend(a, b, Passes(col));
  }

  // ---------------------------------------------------------------------------
  // Required columns
  // ---------------------------------------------------------------------------

  /** `a` is `b` with some elements left out, order kept. */
  ghost predicate IsSubsequence(a: seq<string>, b: seq<string>)
    decreases |b|
  {
    a == [] || (b != [] && ((a[0] == b[0] && IsSubsequence(a[1..], b[1..])) || IsSubsequence(a, b[1..])))
  }

  /** `[c for c in cols if c in hs]`. */
  function Present(cols: seq<string>, hs: seq<string>): (r: seq<string>)
    ensures forall c :: c in r <==> c in cols && c in hs
    ensures IsSubsequence(r, cols)
  {
    if cols == [] then []
    else
      var rest := Present(cols[1..], hs);
      assert forall c :: c in cols <==> c == cols[0] || c in cols[1..];
      if cols[0] in hs then
        assert ([cols[0]] + rest)[1..] == rest;
        [cols[0]] + rest
      else rest
  }

  /** `[c for c in cols if c not in hs]`. */
  function Absent(cols: seq<string>, hs: seq<string>): (r: seq<string>)
    ensures forall c :: c in r <==> c in cols && c !in hs
    ensures IsSubsequence(r, cols)
  {
    if cols == [] then []
    else
      var rest := Absent(cols[1..], hs);
      assert forall c :: c in cols <==> c == cols[0] || c in cols[1..];
      if cols[0] !in hs then
        assert ([cols[0]] + rest)[1..] == rest;
        [cols[0]] + rest
      else rest
  }

  /** `Present` keeps each column that is a header as often as it is listed. */
  lemma {:induction false} PresentCounts(cols: seq<string>, hs: seq<string>)
    ensures forall c :: multiset(Present(cols, hs))[c] == if c in hs then multiset(cols)[c] else 0
  {
    if cols != [] {
      PresentCounts(cols[1..], hs);
      assert cols == [cols[0]] + cols[1..];
    }
  }

  /** `Absent` keeps each column that is not a header as often as it is listed. */
  lemma {:induction false} AbsentCounts(cols: seq<string>, hs: seq<string>)
    ensures forall c :: multiset(Absent(cols, hs))[c] == if c !in hs then multiset(cols)[c] else 0
  {
    if cols != [] {
      AbsentCounts(cols[1..], hs);
      assert cols == [cols[0]] + cols[1..];
    }
  }

  /** `faltantes`: the required columns that are not exact headers. */
  function MissingColumns(hs: seq<string>): seq<string> {
    Absent(Required, hs)
  }

  function MissingColumnsMessage(missing: seq<string>): string {
    MissingPrefix + Join(missing, ", ")
  }

  /** The headers after `EXISTENCIAS` has been synthesised when needed. */
  function WithExistencias(hs: seq<string>, col: Option<string>): (r: seq<string>)
    ensures forall c :: c in r <==> c in hs || (c == Existencias && col.Some?)
  {
    if Existencias !in hs && col.Some? then
      assert forall c :: c in hs + [Existencias] <==> c in hs || c == Existencias;
      hs + [Existencias]
    else hs
  }

  /** `cols_out`: the required columns present after synthesis, in declaration order. */
  function OutputColumns(hs: seq<string>, col: Option<string>): seq<string> {
    Present(Required, WithExistencias(hs, col))
  }

  /** The input column an output column is read from. */
  function SourceColumn(c: string, hs: seq<string>, col: Option<string>): string {
    if c == Existencias && c !in hs && col.Some? then col.value else c
  }

  // ---------------------------------------------------------------------------
  // Cell values
  // ---------------------------------------------------------------------------

  /** A text cell as a value of the output table. */
  function Lift(c: Cell): Value {
    if c.Some? then Str(c.value) else Null
  }

  /** `pd.to_numeric(..., errors='coerce')` on one cell. */
  function ToNumeric(v: Value, parse: Parser): Value {
    match v
    case Str(s) => (match parse(s) case Some(n) => Num(n) case None => Null)
    case Num(n) => Num(n)
    case Null => Null
  }

  /**
   * `.astype(str).str.strip()` on one cell. Only text columns reach it: a
   * number is left as it is.
   */
  function StripText(v: Value): Value {
    match v
    case Str(s) => Str(Strip(s))
    case Null => Str(Strip("nan"))
    case Num(n) => Num(n)
  }

  /** What an output column holds for an input cell. */
  function CellOut(c: string, cell: Cell, parse: Parser): Value {
    if c == Stock || c == Precio then
      (match cell
       case None => Null
       case Some(s) => (match parse(s) case Some(n) => Num(n) case None => Null))
    else if c == NombreContifico then Str(Strip(AsText(cell)))
    else Lift(cell)
  }

  /** The output record of one surviving row. */
  function OutRecord(row: Row, cols: seq<string>, hs: seq<string>, col: Option<string>, parse: Parser): Record
    requires forall c :: c in cols ==> SourceColumn(c, hs, col) in row
  {
    seq(|cols|, i requires 0 <= i < |cols| =>
      Field(cols[i], CellOut(cols[i], row[SourceColumn(cols[i], hs, col)], parse)))
  }

  /** The rows that survive the existence filter (all rows when no column is detected). */
  function Survivors(t: Table): (s: seq<Row>)
    requires WellFormed(t)
  {
    var col := Detect(t.headers);
    if col.Some? then KeepExisting(t.rows, col.value) else t.rows
  }

  /** Every surviving row has the input column behind each output column. */
  lemma SourcesPresent(t: Table)
    requires WellFormed(t)
    ensures forall k, c :: 0 <= k < |Survivors(t)| && c in OutputColumns(t.headers, Detect(t.headers)) ==>
      SourceColumn(c, t.headers, Detect(t.headers)) in Survivors(t)[k]
  {
    var col := Detect(t.headers);
    if col.Some? {
      KeepExistingMembers(t.rows, col.value);
    }
    forall k, c | 0 <= k < |Survivors(t)| && c in OutputColumns(t.headers, col)
      ensures SourceColumn(c, t.headers, col) in Survivors(t)[k]
    {
      var r := Survivors(t)[k];
      assert r in Survivors(t);
      assert r in t.rows;
      assert c in WithExistencias(t.headers, col);
      if c in t.headers {
        assert SourceColumn(c, t.headers, col) == c;
      } else {
        assert c == Existencias && col.Some?;
        assert col.value in t.headers;
      }
    }
  }

  /** The call raises `MissingColumnsMessage(missing)`. */
  predicate Raises(missing: seq<string>, col: Option<string>) {
    |missing| > 0 && !(Existencias in missing && col.Some?)
  }

  /** The records of a conversion that does not raise: one per survivor. */
  function Records(t: Table, parse: Parser): (recs: seq<Record>)
    requires WellFormed(t)
    ensures |recs| == |Survivors(t)|
  {
    var col := Detect(t.headers);
    var survivors := Survivors(t);
    var cols := OutputColumns(t.headers, col);
    SourcesPresent(t);
    seq(|survivors|, k requires 0 <= k < |survivors| => OutRecord(survivors[k], cols, t.headers, col, parse))
  }

  /** The whole conversion, stated from the input sheet alone. */
  function Transform(t: Table, sheetName: string, parse: Parser): Result<Conversion, string>
    requires WellFormed(t)
  {
    var col := Detect(t.headers);
    var missing := MissingColumns(t.headers);
    if Raises(missing, col) then Failure(MissingColumnsMessage(missing))
    else
      var survivors := Survivors(t);
      var meta := Meta(
        |t.rows|,
        if col.Some? then |survivors| else 0,
        sheetName,
        |survivors|,
        if col.Some? then col.value else NotFound);
      Success(Conversion(meta, Records(t, parse)))
  }

  // ---------------------------------------------------------------------------
  // What a conversion promises
  // ---------------------------------------------------------------------------

  /**
   * The call raises exactly when some required column is not an exact header
   * and the escape hatch does not apply: the hatch applies when `EXISTENCIAS`
   * is among the missing and an alias was detected, however many other
   * columns are missing too. The message lists the missing columns in
   * declaration order.
   */
  lemma TransformRaises(t: Table, sheetName: string, parse: Parser)
    requires WellFormed(t)
    ensures Transform(t, sheetName, parse).Failure? <==>
      MissingColumns(t.headers) != [] && (Existencias in t.headers || Detect(t.headers).None?)
    ensures Transform(t, sheetName, parse).Failure? ==>
      Transform(t, sheetName, parse).error == MissingPrefix + Join(MissingColumns(t.headers), ", ")
  {
    var missing := MissingColumns(t.headers);
    assert Existencias in Required;
    assert Existencias in missing <==> Existencias !in t.headers;
  }

  /** With no existence column detected the call always raises, since `EXISTENCIAS` is then missing. */
  lemma SuccessMeansDetected(t: Table, sheetName: string, parse: Parser)
    requires WellFormed(t)
    requires Transform(t, sheetName, parse).Success?
    ensures Detect(t.headers).Some?
  {
    if Existencias in t.headers {
      ExistenciasHeaderIsDetected(t.headers);
    } else {
      assert Existencias in Required;
      assert Existencias in MissingColumns(t.headers);
    }
  }

  /**
   * The escape hatch: when `EXISTENCIAS` is not a header but an alias was
   * detected, the call succeeds however many other required columns are
   * missing, and only the required columns that are present are emitted.
   */
  lemma AliasSuffices(t: Table, sheetName: string, parse: Parser)
    requires WellFormed(t)
    requires Existencias !in t.headers && Detect(t.headers).Some?
    ensures Transform(t, sheetName, parse).Success?
    ensures forall c :: c in OutputColumns(t.headers, Detect(t.headers)) <==>
      c == Existencias || (c in Required && c in t.headers)
  {
    TransformRaises(t, sheetName, parse);
    assert Existencias in Required;
  }

  /**
   * The summary: the row count before filtering, the survivor count (which is
   * also the number of records and at most the row count), the sheet name as
   * given, and the detected header.
   */
  lemma TransformMeta(t: Table, sheetName: string, parse: Parser)
    requires WellFormed(t)
    requires Transform(t, sheetName, parse).Success?
    ensures var c := Transform(t, sheetName, parse).value;
      && c.meta.totalProducts == |t.rows|
      && c.meta.existenceSi == c.meta.filteredRecords == |c.data| <= |t.rows|
      && c.meta.sheetName == sheetName
      && |c.data| == |Survivors(t)|
      && Detect(t.headers).Some?
      && c.meta.existenceColumn == Detect(t.headers).value
      && c.meta.existenceColumn in t.headers
  {
    SuccessMeansDetected(t, sheetName, parse);
  }

  /** Record `k` is the output record of survivor `k`. */
  lemma RecordOfSurvivor(t: Table, parse: Parser, k: int)
    requires WellFormed(t) && 0 <= k < |Survivors(t)|
    ensures forall c :: c in OutputColumns(t.headers, Detect(t.headers)) ==>
      SourceColumn(c, t.headers, Detect(t.headers)) in Survivors(t)[k]
    ensures Records(t, parse)[k] ==
      OutRecord(Survivors(t)[k], OutputColumns(t.headers, Detect(t.headers)), t.headers, Detect(t.headers), parse)
  {
    SourcesPresent(t);
    assert Survivors(t)[k] in Survivors(t);
  }

  /** An output record has one field per output column, keyed by it, in order. */
  lemma OutRecordKeys(row: Row, cols: seq<string>, hs: seq<string>, col: Option<string>, parse: Parser)
    requires forall c :: c in cols ==> SourceColumn(c, hs, col) in row
    ensures |OutRecord(row, cols, hs, col, parse)| == |cols|
    ensures forall i :: 0 <= i < |cols| ==> OutRecord(row, cols, hs, col, parse)[i].key == cols[i]
  {
  }

  /** Field `i` of an output record: its key, and its value by column. */
  lemma FieldOf(row: Row, cols: seq<string>, hs: seq<string>, col: Option<string>, parse: Parser, i: int)
    requires forall c :: c in cols ==> SourceColumn(c, hs, col) in row
    requires 0 <= i < |cols|
    ensures var f := OutRecord(row, cols, hs, col, parse)[i];
      && f.key == cols[i]
      && (f.key in row || (f.key == Existencias && f.key !in hs && col.Some? && col.value in row))
      && (f.key == Stock || f.key == Precio ==>
            f.value == (if At(row, f.key).Some? && parse(At(row, f.key).value).Some?
                        then Num(parse(At(row, f.key).value).value) else Null))
      && (f.key == NombreContifico ==> f.value == Str(Strip(AsText(At(row, f.key)))))
      && (f.key == Existencias && Existencias in hs ==> f.value == Lift(At(row, Existencias)))
      && (f.key == Existencias && Existencias !in hs && col.Some? ==> f.value == Lift(At(row, col.value)))
      && (f.key !in {Stock, Precio, NombreContifico, Existencias} ==> f.value == Lift(At(row, f.key)))
  {
    assert cols[i] in cols;
  }

  /**
   * Every record has the same keys: the required columns present after
   * synthesis, in declaration order and not renamed; `EXISTENCIAS` is always
   * among them.
   */
  lemma TransformKeys(t: Table, sheetName: string, parse: Parser)
    requires WellFormed(t)
    requires Transform(t, sheetName, parse).Success?
    ensures var cols := OutputColumns(t.headers, Detect(t.headers));
      var data := Transform(t, sheetName, parse).value.data;
      && (forall c :: c in cols <==> c in Required && (c in t.headers || c == Existencias))
      && IsSubsequence(cols, Required)
      && forall k :: 0 <= k < |data| ==>
           |data[k]| == |cols| && forall i :: 0 <= i < |cols| ==> data[k][i].key == cols[i]
  {
    SuccessMeansDetected(t, sheetName, parse);
    var cols := OutputColumns(t.headers, Detect(t.headers));
    var data: seq<Record> := Transform(t, sheetName, parse).value.data;
    assert data == Records(t, parse);
    forall k | 0 <= k < |data|
      ensures |data[k]| == |cols| && forall i :: 0 <= i < |cols| ==> data[k][i].key == cols[i]
    {
      RecordOfSurvivor(t, parse, k);
      OutRecordKeys(Survivors(t)[k], cols, t.headers, Detect(t.headers), parse);
    }
  }

  /** The cell of `row` in column `c`, reading an absent column as missing. */
  function At(row: Row, c: string): Cell {
    if c in row then row[c] else None
  }

  /**
   * Record `k` comes from survivor `k`. Only three columns change: `STOCK` and
   * `PRECIO` become a number or missing, `NOMBRE CONTIFICO` its stripped text
   * ("nan" for a missing cell). `EXISTENCIAS` is the raw cell of the detected
   * column when it was synthesised, its own cell otherwise. Every other cell
   * passes through.
   */
  lemma TransformCells(t: Table, sheetName: string, parse: Parser, k: int, i: int)
    requires WellFormed(t)
    requires Transform(t, sheetName, parse).Success?
    requires 0 <= k < |Survivors(t)|
    requires 0 <= i < |OutputColumns(t.headers, Detect(t.headers))|
    ensures var f := Transform(t, sheetName, parse).value.data[k][i];
      var row := Survivors(t)[k];
      && Detect(t.headers).Some?
      && (f.key in row || (f.key == Existencias && Detect(t.headers).value in row))
      && (f.key == Stock || f.key == Precio ==>
            f.value == (if At(row, f.key).Some? && parse(At(row, f.key).value).Some?
                        then Num(parse(At(row, f.key).value).value) else Null))
      && (f.key == NombreContifico ==> f.value == Str(Strip(AsText(At(row, f.key)))))
      && (f.key == Existencias && Existencias in t.headers ==> f.value == Lift(At(row, Existencias)))
      && (f.key == Existencias && Existencias !in t.headers ==>
            f.value == Lift(At(row, Detect(t.headers).value)))
      && (f.key !in {Stock, Precio, NombreContifico, Existencias} ==> f.value == Lift(At(row, f.key)))
  {
    SuccessMeansDetected(t, sheetName, parse);
    RecordOfSurvivor(t, parse, k);
    FieldOf(Survivors(t)[k], OutputColumns(t.headers, Detect(t.headers)), t.headers, Detect(t.headers), parse, i);
  }

  // ---------------------------------------------------------------------------
  // The pandas operations the step-by-step version uses
  // ---------------------------------------------------------------------------

  /** An intermediate table after projection: rows from column to value. */
  type Frame = seq<map<string, Value>>

  /** `df.assign(EXISTENCIAS=df[col])`. */
  function AssignExistencias(rows: seq<Row>, col: string): seq<Row>
    requires forall r :: r in rows ==> col in r
  {
    seq(|rows|, k requires 0 <= k < |rows| => rows[k][Existencias := rows[k][col]])
  }

  /** `df[cols].copy()`. */
  function Project(rows: seq<Row>, cols: seq<string>): Frame
    requires forall r, c :: r in rows && c in cols ==> c in r
  {
    seq(|rows|, k requires 0 <= k < |rows| => map c | c in cols :: Lift(rows[k][c]))
  }

  /** `df[c] = pd.to_numeric(df[c], errors='coerce')`. */
  function CoerceColumn(frame: Frame, c: string, parse: Parser): Frame
    requires forall r :: r in frame ==> c in r
  {
    seq(|frame|, k requires 0 <= k < |frame| => frame[k][c := ToNumeric(frame[k][c], parse)])
  }

  /** `df[c] = df[c].astype(str).str.strip()`. */
  function StripColumn(frame: Frame, c: string): Frame
    requires forall r :: r in frame ==> c in r
  {
    seq(|frame|, k requires 0 <= k < |frame| => frame[k][c := StripText(frame[k][c])])
  }

  /** `df.to_dict(orient="records")`. */
  function ToRecords(frame: Frame, cols: seq<string>): seq<Record>
    requires forall r, c :: r in frame && c in cols ==> c in r
  {
    seq(|frame|, k requires 0 <= k < |frame| =>
      seq(|cols|, i requires 0 <= i < |cols| => Field(cols[i], frame[k][cols[i]])))
  }

  /** Column `c` of a frame cell once the clean-ups named in `done` have run. */
  function Cleaned(c: string, cell: Cell, parse: Parser, done: set<string>): Value {
    if (c == Stock || c == Precio) && c in done then ToNumeric(Lift(cell), parse)
    else if c == NombreContifico && c in done then StripText(Lift(cell))
    else Lift(cell)
  }

  /** Every row has every one of `cols`. */
  ghost predicate HasColumns(rows: seq<Row>, cols: seq<string>) {
    forall r, c :: r in rows && c in cols ==> c in r
  }

  /** The frame holds, column by column, the cleaned cells of `rows`. */
  ghost predicate FrameOf(frame: Frame, rows: seq<Row>, cols: seq<string>, parse: Parser, done: set<string>)
    requires HasColumns(rows, cols)
  {
    && |frame| == |rows|
    && forall k, c :: 0 <= k < |frame| && c in cols ==>
         c in frame[k] && frame[k][c] == Cleaned(c, rows[k][c], parse, done)
  }

  lemma ProjectIsFrame(rows: seq<Row>, cols: seq<string>, parse: Parser)
    requires HasColumns(rows, cols)
    ensures FrameOf(Project(rows, cols), rows, cols, parse, {})
  {
  }

  lemma CoerceKeepsFrame(frame: Frame, rows: seq<Row>, cols: seq<string>, parse: Parser, done: set<string>, c: string)
    requires HasColumns(rows, cols) && FrameOf(frame, rows, cols, parse, done)
    requires c in cols && (c == Stock || c == Precio) && c !in done
    ensures forall r :: r in frame ==> c in r
    ensures FrameOf(CoerceColumn(frame, c, parse), rows, cols, parse, done + {c})
  {
    assert forall r :: r in frame ==> c in r;
  }

  lemma StripKeepsFrame(frame: Frame, rows: seq<Row>, cols: seq<string>, parse: Parser, done: set<string>)
    requires HasColumns(rows, cols) && FrameOf(frame, rows, cols, parse, done)
    requires NombreContifico in cols && NombreContifico !in done
    ensures forall r :: r in frame ==> NombreContifico in r
    ensures FrameOf(StripColumn(frame, NombreContifico), rows, cols, parse, done + {NombreContifico})
  {
    assert forall r :: r in frame ==> NombreContifico in r;
  }

  /** Once every clean-up has run, each frame cell is what `CellOut` promises. */
  lemma CleanedIsCellOut(c: string, cell: Cell, parse: Parser, done: set<string>)
    requires c == Stock || c == Precio || c == NombreContifico ==> c in done
    ensures Cleaned(c, cell, parse, done) == CellOut(c, cell, parse)
  {
  }

  /**
   * Turning the fully cleaned frame into records gives, row by row, the
   * declarative `OutRecord` of the row it came from.
   */
  lemma FrameRecords(frame: Frame, df: seq<Row>, rows: seq<Row>, hs: seq<string>, col: Option<string>,
                     columns: seq<string>, cols: seq<string>, parse: Parser, done: set<string>)
    requires HasColumns(df, cols) && FrameOf(frame, df, cols, parse, done)
    requires SourcedFrom(df, rows, hs, col, columns) && forall c :: c in cols ==> c in columns
    requires forall c :: c in cols && (c == Stock || c == Precio || c == NombreContifico) ==> c in done
    ensures forall r, c :: r in frame && c in cols ==> c in r
    ensures |ToRecords(frame, cols)| == |rows|
    ensures forall k :: 0 <= k < |rows| ==>
      (forall c :: c in cols ==> SourceColumn(c, hs, col) in rows[k]) &&
      ToRecords(frame, cols)[k] == OutRecord(rows[k], cols, hs, col, parse)
  {
    forall r, c | r in frame && c in cols ensures c in r {
      var k :| 0 <= k < |frame| && frame[k] == r;
    }
    var records := ToRecords(frame, cols);
    forall k | 0 <= k < |rows|
      ensures records[k] == OutRecord(rows[k], cols, hs, col, parse)
    {
      var expected := OutRecord(rows[k], cols, hs, col, parse);
      forall i | 0 <= i < |cols| ensures records[k][i] == expected[i] {
        var c := cols[i];
        assert c in cols;
        assert records[k][i] == Field(c, frame[k][c]);
        assert frame[k][c] == Cleaned(c, df[k][c], parse, done);
        assert df[k][c] == rows[k][SourceColumn(c, hs, col)];
        CleanedIsCellOut(c, df[k][c], parse, done);
      }
    }
  }

  /** The rows of `rows` carry exactly the headers `hs`. */
  ghost predicate RowsOver(rows: seq<Row>, hs: seq<string>) {
    forall r, h :: r in rows ==> (h in r <==> h in hs)
  }

  /** Row `k` of `df` holds, in each of `columns`, the cell of `rows[k]` it is read from. */
  ghost predicate SourcedFrom(df: seq<Row>, rows: seq<Row>, hs: seq<string>, col: Option<string>, columns: seq<string>) {
    && |df| == |rows|
    && forall k, c :: 0 <= k < |df| && c in columns ==>
         && c in df[k] && SourceColumn(c, hs, col) in rows[k]
         && df[k][c] == rows[k][SourceColumn(c, hs, col)]
  }

  lemma AssignIsSourced(rows: seq<Row>, hs: seq<string>, col: Option<string>)
    requires RowsOver(rows, hs) && col.Some? && col.value in hs && Existencias !in hs
    ensures forall r :: r in rows ==> col.value in r
    ensures SourcedFrom(AssignExistencias(rows, col.value), rows, hs, col, hs + [Existencias])
  {
    assert forall k :: 0 <= k < |rows| ==> rows[k] in rows;
  }

  lemma RowsAreSourced(rows: seq<Row>, hs: seq<string>, col: Option<string>)
    requires RowsOver(rows, hs) && !(Existencias !in hs && col.Some?)
    ensures SourcedFrom(rows, rows, hs, col, hs)
  {
    assert forall k :: 0 <= k < |rows| ==> rows[k] in rows;
  }

  /** Rows sourced over `columns` have every column of a sub-list of them. */
  lemma SourcedHasColumns(df: seq<Row>, rows: seq<Row>, hs: seq<string>, col: Option<string>,
                          columns: seq<string>, cols: seq<string>)
    requires SourcedFrom(df, rows, hs, col, columns) && forall c :: c in cols ==> c in columns
    ensures HasColumns(df, cols)
  {
    forall r, c | r in df && c in cols ensures c in r {
      var k :| 0 <= k < |df| && df[k] == r;
    }
  }

  /**
   * Lines 62-64: when `EXISTENCIAS` is not a header but a column was
   * detected, add it as a copy of the detected column.
   */
  method AddExistencias(rows: seq<Row>, hs: seq<string>, col: Option<string>)
    returns (df: seq<Row>, columns: seq<string>)
    requires RowsOver(rows, hs)
    requires col.Some? ==> col.value in hs && col.value != ""
    ensures columns == WithExistencias(hs, col)
    ensures SourcedFrom(df, rows, hs, col, columns)
  {
    df := rows;
    columns := hs;
    if Existencias !in columns && col.Some? && col.value != "" {
      AssignIsSourced(rows, hs, col);
      df := AssignExistencias(df, col.value);
      columns := columns + [Existencias];
    } else {
      RowsAreSourced(rows, hs, col);
    }
  }

  /**
   * Lines 67-78: keep the columns `cols`, coerce `STOCK` and `PRECIO` to
   * numbers and strip `NOMBRE CONTIFICO`, each only when it is kept.
   */
  method CleanColumns(df: seq<Row>, cols: seq<string>, parse: Parser)
    returns (frame: Frame, ghost done: set<string>)
    requires HasColumns(df, cols)
    ensures FrameOf(frame, df, cols, parse, done)
    ensures forall c :: c in cols && (c == Stock || c == Precio || c == NombreContifico) ==> c in done
  {
    frame := Project(df, cols);
    done := {};
    ProjectIsFrame(df, cols, parse);
    if Stock in cols {
      CoerceKeepsFrame(frame, df, cols, parse, done, Stock);
      frame := CoerceColumn(frame, Stock, parse);
      done := done + {Stock};
    }
    if Precio in cols {
      CoerceKeepsFrame(frame, df, cols, parse, done, Precio);
      frame := CoerceColumn(frame, Precio, parse);
      done := done + {Precio};
    }
    if NombreContifico in cols {
      StripKeepsFrame(frame, df, cols, parse, done);
      frame := StripColumn(frame, NombreContifico);
      done := done + {NombreContifico};
    }
  }

  /**
   * Lines 62-80 of `excel_to_json_bytes`, on the filtered rows: synthesise
   * `EXISTENCIAS` from the detected column when it is not a header, keep the
   * required columns in declaration order, coerce `STOCK` and `PRECIO`, strip
   * `NOMBRE CONTIFICO`, and turn the rows into records.
   */
  method ShapeRecords(rows: seq<Row>, hs: seq<string>, col: Option<string>, parse: Parser)
    returns (records: seq<Record>)
    requires RowsOver(rows, hs)
    requires col.Some? ==> col.value in hs && col.value != ""
    ensures |records| == |rows|
    ensures forall k :: 0 <= k < |rows| ==>
      (forall c :: c in OutputColumns(hs, col) ==> SourceColumn(c, hs, col) in rows[k]) &&
      records[k] == OutRecord(rows[k], OutputColumns(hs, col), hs, col, parse)
  {
    var df, columns := AddExistencias(rows, hs, col);
    var colsOut := Present(Required, columns);
    SourcedHasColumns(df, rows, hs, col, columns, colsOut);
    var frame, done := CleanColumns(df, colsOut, parse);
    FrameRecords(frame, df, rows, hs, col, columns, colsOut, parse, done);
    records := ToRecords(frame, colsOut);
  }

  /**
   * Lines 33-43: flag the rows whose existence cell normalises to `SI`, count
   * them, and keep only those rows.
   */
  method FilterExisting(rows: seq<Row>, col: string) returns (kept: seq<Row>, count: int)
    ensures kept == KeepExisting(rows, col)
    ensures forall r :: r in kept <==> r in rows && IsSi(At(r, col))
    ensures count == |kept|
  {
    var mask := Mask(rows, Passes(col));
    count := CountTrue(mask);
    kept := Select(rows, mask);
    SelectByMask(rows, Passes(col));
    KeepExistingMembers(rows, col);
  }

  /** Records built row by row from the survivors are the declarative records. */
  lemma RecordsOfSurvivors(t: Table, parse: Parser, recs: seq<Record>)
    requires WellFormed(t)
    requires |recs| == |Survivors(t)|
    requires forall k :: 0 <= k < |recs| ==>
      (forall c :: c in OutputColumns(t.headers, Detect(t.headers)) ==>
         SourceColumn(c, t.headers, Detect(t.headers)) in Survivors(t)[k]) &&
      recs[k] == OutRecord(Survivors(t)[k], OutputColumns(t.headers, Detect(t.headers)), t.headers, Detect(t.headers), parse)
    ensures recs == Records(t, parse)
  {
    forall k | 0 <= k < |recs| ensures recs[k] == Records(t, parse)[k] {
      RecordOfSurvivor(t, parse, k);
    }
  }

  /**
   * Lines 20-27: try the aliases in order against `{c.strip().lower(): c}`
   * and stop at the first that matches.
   */
  method DetectExistence(hs: seq<string>) returns (existenceCol: Option<string>)
    ensures existenceCol == Detect(hs)
  {
    var colmap := ColMap(hs);
    existenceCol := None;
    var i := 0;
    while i < |Candidates|
      invariant 0 <= i <= |Candidates|
      invariant existenceCol.None?
      invariant FirstMatch(Candidates[i..], colmap) == FirstMatch(Candidates, colmap)
    {
      var key := Lower(Candidates[i]);
      if key in colmap {
        existenceCol := Some(colmap[key]);
        break;
      }
      assert Candidates[i..][1..] == Candidates[i + 1..];
      i := i + 1;
    }
  }

  /**
   * `excel_to_json_bytes` after the sheet has been read: detect the existence
   * column, filter, check the required columns, then shape the records and
   * build the summary.
   */
  method ExcelToJson(sheet: Table, sheetName: string, parse: Parser) returns (r: Result<Conversion, string>)
    requires WellFormed(sheet)
    ensures r == Transform(sheet, sheetName, parse)
  {
    var existenceCol := DetectExistence(sheet.headers);
    if existenceCol.Some? {
      DetectNotEmpty(sheet.headers);
    }
    var detected := existenceCol.Some? && existenceCol.value != "";  // `if existence_col:`

    var df := sheet.rows;
    var total := |df|;
    var existenceSi := 0;
    if detected {
      df, existenceSi := FilterExisting(df, existenceCol.value);
    }
    assert df == Survivors(sheet);
    assert RowsOver(df, sheet.headers);

    var missing := Absent(Required, sheet.headers);
    if |missing| > 0 {
      if !(Existencias in missing && detected && existenceCol.value != Existencias) {
        r := Failure(MissingColumnsMessage(missing));
        return;
      }
    }

    var records := ShapeRecords(df, sheet.headers, existenceCol, parse);
    RecordsOfSurvivors(sheet, parse, records);
    var meta := Meta(total, existenceSi, sheetName, |records|, if detected then existenceCol.value else NotFound);
    r := Success(Conversion(meta, records));
  }

}
