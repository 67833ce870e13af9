# Want_JSON converter core in Dafny

Want_JSON is a small web front end. It turns one sheet of an Excel product
list into a JSON document, `{"meta": {...}, "data": [...]}`. This project
models the part of `main.py` that decides what that document holds.

- **`Sheet`** (`sheet.dfy`): `excel_to_json_bytes` after the sheet has been
  read. It covers these steps:
  - detect the existence column among the aliases `EXISTENTE`,
    `EXISTENCIAS`, `EXISTENCIA` and `EXISTE` (the header's `strip().lower()`
    is matched; aliases are tried in order; of several headers with the same
    key, the last wins);
  - keep the rows whose existence cell normalises to `SI`;
  - check the required columns and raise `Faltan columnas en el Excel: ...`;
  - synthesise `EXISTENCIAS` from the detected column;
  - project onto the required columns in declaration order;
  - coerce `STOCK` and `PRECIO` to numbers;
  - strip `NOMBRE CONTIFICO`;
  - build the records and the `meta` summary.

  `Transform` states the whole result from the input sheet alone. The method
  `ExcelToJson` follows the source step by step: the alias loop, the mask,
  its sum, the successive rebindings of the local table, and the
  missing-column check written exactly as the source writes it. It is proved
  equal to `Transform`, and the properties are lemmas about `Transform`.
- **`Routes`** (`routes.dfy`): the pure parts of the web routes:
  - `safe_filename`, with POSIX `os.path.splitext` semantics, including the
    rule that leading dots of a name are not an extension;
  - the `file.filename or "salida.xlsx"` fallback of the output name. `convert`
    never reaches that fallback: an upload without a file name is falsy, so
    line 198 has already redirected;
  - the choice of the sheet in `/convert`;
  - `os.path.basename` in `/download`.
- **`Text`** (`text.dfy`): Python's `str.strip` (over the full `str.isspace`
  set), `upper`/`lower` (ASCII letters, í/Í, and the long s and dotless i that
  `upper` maps to S and I), the `replace('Í', 'I')` fold, and `join`.
- **`Wrappers`** (`wrappers.dfy`): `Option` and `Result`.

Inputs the program obtains from outside are parameters:
- the parsed sheet, as `Table(headers, rows)`: a missing cell is `None`,
  every other cell its text, as read with `dtype=str`;
- the workbook's sheet names;
- the number parser that `pd.to_numeric(errors='coerce')` applies to one
  string;
- the timestamp that `safe_filename` formats from the clock.

The escape hatch at `main.py:57-60` lets the conversion go on whenever
`EXISTENCIAS` is missing and an alias was detected. This holds however many
other required columns are missing as well. The comment on line 58 speaks of
`EXISTENCIAS` being the only missing column, but the condition does not check
that. The model follows the condition, and `Sheet.AliasSuffices` states the
behaviour.

The `columnas` table at `main.py:45-54` pairs `EXISTENCIAS` with
`EXISTENTES` and `ENLACE WEB` with `LINK IMAGEN`. The code uses only its
keys, so the records carry the original column names, unrenamed. The model
follows the code.

## Model

| member | source | states |
|---|---|---|
| Text.TrimStartSpec | main.py:21 | `lstrip` removes exactly the longest prefix of whitespace and leaves a suffix of the input |
| Text.TrimEndSpec | main.py:21 | `rstrip` removes exactly the longest suffix of whitespace and leaves a prefix of the input |
| Text.TrimStart | main.py:21 | no contract of its own; TrimStartSpec characterises it as `lstrip` |
| Text.TrimEnd | main.py:21 | no contract of its own; TrimEndSpec characterises it as `rstrip` |
| Text.IsSpace | main.py:21 | no contract of its own; `str.isspace` for one character, the whitespace that TrimStartSpec, TrimEndSpec and StripSpec cut |
| Text.Strip | main.py:21 | no contract of its own; StripSpec, StripTrimmed, StripIdempotent and StripEmpty characterise it |
| Text.StripSpec | main.py:21 | `strip` leaves a trimmed infix of the input, with only whitespace cut on either side |
| Text.StripTrimmed | main.py:37 | a string with no whitespace at either end is unchanged by `strip` |
| Text.StripIdempotent | main.py:196 | stripping twice is stripping once |
| Text.StripEmpty | main.py:196 | `strip` gives the empty string exactly when the input is all whitespace |
| Text.Upper | main.py:38 | no contract of its own; `upper` character by character, over the mapping `UpperChar` defines; NormaliseAt states its effect on a cell |
| Text.UpperChar | main.py:38 | no contract of its own; `upper` of one character over ASCII letters, í, ſ and ı; TwoCharSi and IsSiExactly state its effect on the filter |
| Text.Lower | main.py:21 | no contract of its own; `lower` character by character; the header keys built with it are characterised by LastKeyIndex, ColMap and DetectPriority |
| Text.LowerChar | main.py:21 | no contract of its own; `lower` of one character over ASCII letters and Í; the header keys built with it are characterised by LastKeyIndex, ColMap and DetectPriority |
| Text.FoldAccentedI | main.py:39 | no contract of its own; `replace('Í', 'I')` character by character; NormaliseAt states its effect on a cell |
| Text.Join | main.py:60 | no contract of its own; the `', '.join(faltantes)` of the error message that TransformRaises states |
| Sheet.LastKeyIndex | main.py:21 | finds the last header whose `strip().lower()` is the key, or reports that none has it |
| Sheet.Key | main.py:21 | no contract of its own; `c.strip().lower()`, the key that LastKeyIndex, ColMap and DetectPriority speak of |
| Sheet.ColMap | main.py:21 | the dict comprehension maps a key exactly when some header has it, and to the last such header ("last header wins") |
| Sheet.FirstMatch | main.py:22-27 | none exactly when no alias key is in the map; otherwise the value of the first alias in list order that is |
| Sheet.Detect | main.py:20-27 | the detected column is one of the sheet's own headers |
| Sheet.DetectNone | main.py:20-27 | nothing is detected exactly when no header's key equals any alias key |
| Sheet.DetectPriority | main.py:20-27 | a detected column belongs to the first alias that some header matches, and is the last header with that key |
| Sheet.DetectNotEmpty | main.py:33 | a detected column is never the empty string, so the truthiness test `if existence_col:` means "detected" |
| Sheet.ExistenciasHeaderIsDetected | main.py:20-27 | an exact `EXISTENCIAS` header always leads to some detection |
| Sheet.DetectExistence | main.py:20-27 | the alias loop with its `break` computes `Detect` |
| Sheet.NormaliseAt | main.py:34-40 | the normalised cell is, character by character, the upper-cased and Í-folded image of the stripped text |
| Sheet.AsText | main.py:36 | no contract of its own; `astype(str)` of a cell, with a missing cell printing as "nan" (MissingIsNotSi) |
| Sheet.Normalise | main.py:34-40 | no contract of its own; NormaliseAt states it character by character |
| Sheet.IsSi | main.py:41 | no contract of its own; IsSiExactly gives the exact set of cells that pass |
| Sheet.MissingIsNotSi | main.py:36 | a missing cell reads as "nan" and never passes the filter |
| Sheet.TwoCharSi | main.py:34-41 | a two-character stripped cell passes exactly when it is s, S or ſ (long s) followed by i, I, í, Í or ı (dotless i) |
| Sheet.OtherLengthNotSi | main.py:34-41 | a stripped cell of any other length never passes |
| Sheet.IsSiExactly | main.py:34-41 | a cell passes exactly when it is present and strips to "si" or "sí" in any letter case, or to a spelling with ſ for s or ı for i, which `upper` maps to S and I |
| Sheet.Filter | main.py:43 | the filtered rows are never more than the input rows |
| Sheet.FilterMembers | main.py:41-43 | a row survives exactly when it is an input row that passes |
| Sheet.FilterAppend | main.py:43 | filtering distributes over concatenation, so survivors keep their relative order |
| Sheet.SelectByMask | main.py:41-43 | selecting with the boolean mask is the filter, and the mask's sum is the number of survivors |
| Sheet.Mask | main.py:41 | no contract of its own; `norm.eq('SI')` as one flag per row; SelectByMask relates it to the filter |
| Sheet.CountTrue | main.py:42 | no contract of its own; `mask_si.sum()`, which SelectByMask proves equal to the survivor count |
| Sheet.Select | main.py:43 | no contract of its own; `df[mask_si]`, which SelectByMask proves equal to the filter |
| Sheet.Passes | main.py:41 | no contract of its own; `norm.eq('SI')` on one row; KeepExistingMembers and FilterExisting state which rows pass |
| Sheet.KeepExisting | main.py:43 | no contract of its own; `df[mask_si]` as a specification, characterised by KeepExistingMembers and KeepExistingAppend; FilterExisting is proved to compute it |
| Sheet.Survivors | main.py:33-43 | no contract of its own; the rows left after line 43, characterised by KeepExistingMembers and KeepExistingAppend; FilterExisting is proved to compute them |
| Sheet.KeepExistingMembers | main.py:33-43 | the survivors are exactly the input rows whose existence cell normalises to `SI` |
| Sheet.KeepExistingAppend | main.py:43 | the existence filter keeps row order across blocks of rows |
| Sheet.FilterExisting | main.py:33-43 | mask, sum and selection give the specified survivors, which are exactly the `SI` rows, and the count equals their number |
| Sheet.Present | main.py:67 | keeps exactly the listed columns that are headers, in list order |
| Sheet.PresentCounts | main.py:67 | each column that is a header is kept as often as it is listed, and no other column is kept |
| Sheet.Absent | main.py:56 | keeps exactly the listed columns that are not headers, in list order |
| Sheet.AbsentCounts | main.py:56 | each column that is not a header is kept as often as it is listed, and no other column is kept |
| Sheet.MissingColumns | main.py:56 | no contract of its own; `faltantes`, stated by Absent and used in TransformRaises |
| Sheet.MissingColumnsMessage | main.py:60 | no contract of its own; the error text that TransformRaises states |
| Sheet.WithExistencias | main.py:63-64 | after synthesis the columns are the headers plus `EXISTENCIAS` exactly when a column was detected |
| Sheet.OutputColumns | main.py:67 | no contract of its own; `cols_out`, characterised by TransformKeys and AliasSuffices |
| Sheet.SourceColumn | main.py:63-64 | no contract of its own; the input column behind an output column, used by SourcesPresent, FieldOf and AssignIsSourced |
| Sheet.SourcesPresent | main.py:62-68 | every surviving row holds the input column behind each output column |
| Sheet.Records | main.py:80 | one record per surviving row |
| Sheet.TransformRaises | main.py:56-60 | the call fails exactly when a required column is missing and either `EXISTENCIAS` is a header or nothing was detected; the message is the prefix followed by the missing columns joined with ", " in declaration order |
| Sheet.Raises | main.py:57-59 | no contract of its own; TransformRaises states it in terms of the headers and detection |
| Sheet.Transform | main.py:19-89 | no contract of its own; TransformRaises, AliasSuffices, TransformKeys, TransformCells and TransformMeta state it, and ExcelToJson is proved equal to it |
| Sheet.SuccessMeansDetected | main.py:56-60 | every successful call has a detected existence column |
| Sheet.AliasSuffices | main.py:57-60 | with `EXISTENCIAS` absent and an alias detected, the call succeeds whatever else is missing, and emits `EXISTENCIAS` plus the required columns that are headers |
| Sheet.TransformMeta | main.py:29-87 | the summary holds the unfiltered row count, the survivor count (equal to the record count and at most the row count), the sheet name as given, and the detected header, which is one of the sheet's headers |
| Sheet.RecordOfSurvivor | main.py:80 | record k is the output record of surviving row k |
| Sheet.OutRecord | main.py:80 | no contract of its own; one record of `to_dict(orient="records")`, stated by OutRecordKeys and FieldOf |
| Sheet.OutRecordKeys | main.py:80 | an output record has one field per output column, keyed by that column, in order |
| Sheet.FieldOf | main.py:62-80 | field i of a record is keyed by column i; `STOCK`/`PRECIO` hold the parsed number or missing; `NOMBRE CONTIFICO` holds the stripped text; a synthesised `EXISTENCIAS` holds the detected column's raw cell; every other cell is unchanged |
| Sheet.ToNumeric | main.py:72 | no contract of its own; `pd.to_numeric(errors='coerce')` on one value, whose effect FieldOf and TransformCells state |
| Sheet.StripText | main.py:78 | no contract of its own; `astype(str).str.strip()` on one value, whose effect FieldOf and TransformCells state |
| Sheet.CellOut | main.py:71-78 | no contract of its own; the value of one output cell, stated per column by FieldOf; CleanedIsCellOut ties it to the frame operations |
| Sheet.TransformKeys | main.py:66-68 | every record has the same keys: the required columns that are headers, plus `EXISTENCIAS`, in declaration order and not renamed |
| Sheet.TransformCells | main.py:62-80 | each cell of a successful result is the transform of the surviving row's cell: numbers parsed or missing, the name stripped or "nan", `EXISTENCIAS` from the detected column when synthesised, the rest passed through |
| Sheet.ProjectIsFrame | main.py:68 | projection copies each kept column of each row, with nothing cleaned yet |
| Sheet.AssignExistencias | main.py:64 | no contract of its own; `df.assign(EXISTENCIAS=df[existence_col])`, characterised by AssignIsSourced |
| Sheet.Project | main.py:68 | no contract of its own; `df[cols_out].copy()`, characterised by ProjectIsFrame |
| Sheet.CoerceColumn | main.py:71-74 | no contract of its own; one numeric overwrite, characterised by CoerceKeepsFrame |
| Sheet.StripColumn | main.py:77-78 | no contract of its own; the strip overwrite, characterised by StripKeepsFrame |
| Sheet.ToRecords | main.py:80 | no contract of its own; `to_dict(orient="records")`, characterised by FrameRecords |
| Sheet.CoerceKeepsFrame | main.py:71-74 | overwriting `STOCK` or `PRECIO` with `to_numeric` marks that column cleaned and changes no other column |
| Sheet.StripKeepsFrame | main.py:77-78 | overwriting `NOMBRE CONTIFICO` with its stripped text marks it cleaned and changes no other column |
| Sheet.CleanedIsCellOut | main.py:71-78 | once all clean-ups have run, a frame cell is the specified output value |
| Sheet.FrameRecords | main.py:80 | `to_dict(orient="records")` of the cleaned frame is, row by row, the specified output record |
| Sheet.AssignIsSourced | main.py:63-64 | `assign` adds `EXISTENCIAS` as a copy of the detected column and keeps every other column |
| Sheet.RowsAreSourced | main.py:63 | without synthesis, every column is read from itself |
| Sheet.SourcedHasColumns | main.py:67-68 | the rows carry every column that the projection keeps |
| Sheet.AddExistencias | main.py:62-64 | the table's columns become the headers plus `EXISTENCIAS` when needed, each read from its source column |
| Sheet.CleanColumns | main.py:66-78 | projects, coerces and strips, so that every kept special column has been cleaned |
| Sheet.ShapeRecords | main.py:62-80 | one record per filtered row, equal to the declarative output record of that row |
| Sheet.RecordsOfSurvivors | main.py:80 | records built row by row from the survivors are the declarative records |
| Sheet.ExcelToJson | main.py:19-89 | the step-by-step conversion returns exactly `Transform`: the same error, or the same records and summary |
| Routes.LastIndexOf | main.py:104 | finds the last occurrence of a character, or -1 when it does not occur |
| Routes.LastIndexIs | main.py:104 | an occurrence with none after it is the last one |
| Routes.LastIndexBefore | main.py:104 | when a character does not occur from k on, its last occurrence is before k |
| Routes.StemCutsAt | main.py:104 | `splitext` cuts at the last dot when the last component has a non-dot before it |
| Routes.StemCutsExtension | main.py:104 | where an extension starts, `splitext` cuts there |
| Routes.StemCutIsExtension | main.py:104 | the stem is a prefix of the input, and whenever something is cut, an extension starts at the cut |
| Routes.StemSpec | main.py:104 | `splitext(p)[0]` removes exactly the extension: a last dot in the last component, with a non-dot before it and no dot after it |
| Routes.Stem | main.py:104 | no contract of its own; `os.path.splitext(base)[0]`, characterised by StemSpec |
| Routes.StemDropsExtension | main.py:104 | `name + "." + ext` has stem `name` when `ext` has no dot or slash and the last component of `name` has a non-dot |
| Routes.StemWithoutExtension | main.py:104 | a name whose last component has no dot after its first character keeps its whole text |
| Routes.SafeFilenameShape | main.py:102-105 | the generated name is the stem of the base, "-", the timestamp, then ".json"; the stem is a prefix of the base |
| Routes.SafeFilename | main.py:102-105 | no contract of its own; SafeFilenameShape states the shape of the name |
| Routes.StemOfDefault | main.py:212 | the fallback upload name `salida.xlsx` has stem `salida` |
| Routes.OutputName | main.py:212 | `file.filename or "salida.xlsx"`: a missing or empty name gives `salida-<ts>.json`, any other name `safe_filename` of it; from `convert` only the second case occurs, since line 198 redirects uploads without a name |
| Routes.Basename | main.py:233 | the base name has no slash and is the suffix of the path that starts right after its last slash (the whole path when there is no slash, empty after a trailing slash) |
| Routes.BasenameKeepsDotDot | main.py:232-234 | a path ending in `/..` has base name `..`, so the route does not exclude it |
| Routes.ChooseSheet | main.py:196-208 | a missing or all-whitespace form value selects the first sheet, and fails with "No se encontraron hojas en el archivo." exactly when there are none; any other value is selected as a non-empty, trimmed infix of it with only whitespace cut away |
| Routes.ChooseSheetTyped | main.py:196 | a typed sheet name is trimmed, and choosing it again yields the same sheet whatever the workbook holds |
| Routes.ChooseSheetBlank | main.py:204-208 | a blank or missing form value falls back to the first sheet, or to the error |

## Left out

- Reading the workbook (`pd.read_excel`, `list_sheets` with openpyxl) is not modelled. The parsed headers and rows and the list of sheet names are inputs.
- Pandas' renaming of a repeated header (`X.1`) is not modelled: rows are maps from header to cell, so two equal headers share one cell. Non-string header labels are not modelled either.
- The Flask routes themselves are not modelled: request handling, templates, `flash`, redirects, writing the file to `/tmp`, `os.path.exists`, `send_file`, and the development server.
- JSON serialisation is not modelled. A missing output value is `Null`, standing for NaN, whatever `json.dump` then writes.
- `pd.to_numeric` is a parameter `parse`, so the model fixes only when a cell becomes missing, not which strings are numbers. Floating point is not modelled: numbers are `real`.
- `upper` covers ASCII letters, í, ſ and ı; `lower` covers ASCII letters and Í. Other Unicode case mappings are not modelled, including those that change the length of a string, such as ß to SS. No character left out upper-cases to exactly S, I or Í, and none upper-cases to SI, so the set of cells that pass the filter is unaffected. Likewise, the only characters left out whose `lower` holds an ASCII letter are the Kelvin sign (to k) and the dotted capital I (to i followed by U+0307); no alias key contains k or U+0307, so the match of headers against the aliases is exact.
- `datetime.now().strftime(...)` is not modelled. The timestamp is a parameter.
- Sheet.StripText: leaves a number unchanged where `astype(str)` would print it. Only a text column ever reaches the strip in this program.
- The default argument `sheet_name="Hoja 1"` is not modelled, because `convert` always passes a sheet name.
- Routes.SafeFilename: does not base-name the uploaded file name, as the source does not. A name containing `/` keeps its directories in the output name.
- Errors raised by pandas or openpyxl (an unreadable file, a sheet name that does not exist) are not modelled. Only the errors the program raises itself are.
