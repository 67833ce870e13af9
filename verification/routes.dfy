/**
 * The pure helpers of the web front end: the name of the generated JSON file,
 * the choice of the sheet to convert, and the base-name sanitising of the
 * download route. The timestamp and the list of sheet names, which the
 * program reads from the clock and from the workbook, are parameters.
 */
module Routes {
  import opened Wrappers
  import opened Text

  /** The last index of `c` in `s`, or -1 when `c` does not occur. */
  function LastIndexOf(s: string, c: char): (r: int)
    ensures -1 <= r < |s|
    ensures r >= 0 ==> s[r] == c
    ensures forall k :: r < k < |s| ==> s[k] != c
  {
    if |s| == 0 then -1
    else if s[|s| - 1] == c then |s| - 1
    else LastIndexOf(s[..|s| - 1], c)
  }

  predicate HasNonDot(s: string) {
    exists k :: 0 <= k < |s| && s[k] != '.'
  }

  /**
   * `p` has its extension starting at index `j`: `p[j]` is the last dot,
   * nothing after it is a dot or a slash, and the last path component holds a
   * character other than a dot before it (so leading dots do not count).
   */
  ghost predicate ExtensionAt(p: string, j: int) {
    && 0 <= j < |p| && p[j] == '.'
    && (forall k :: j < k < |p| ==> p[k] != '.' && p[k] != '/')
    && exists k :: 0 <= k < j && p[k] != '.' && forall m :: k <= m < j ==> p[m] != '/'
  }

  /** The first half of `os.path.splitext(p)` on a POSIX system. */
  function Stem(p: string): string {
    var sep := LastIndexOf(p, '/');
    var dot := LastIndexOf(p, '.');
    if dot > sep && HasNonDot(p[sep + 1..dot]) then p[..dot] else p
  }

  /** The last occurrence is the one with no occurrence after it. */
  lemma LastIndexIs(s: string, c: char, j: int)
    requires 0 <= j < |s| && s[j] == c && forall m :: j < m < |s| ==> s[m] != c
    ensures LastIndexOf(s, c) == j
  {
  }

  /** No occurrence from `k` on puts the last occurrence before `k`. */
  lemma LastIndexBefore(s: string, c: char, k: int)
    requires 0 <= k <= |s| && forall m :: k <= m < |s| ==> s[m] != c
    ensures LastIndexOf(s, c) < k
  {
  }

  /** `Stem` cuts at the last dot when the component before it has a non-dot. */
  lemma StemCutsAt(p: string, k: int, j: int)
    requires 0 <= k < j < |p| && p[k] != '.'
    requires LastIndexOf(p, '.') == j && LastIndexOf(p, '/') < k
    ensures Stem(p) == p[..j]
  {
    var sep := LastIndexOf(p, '/');
    assert p[sep + 1..j][k - sep - 1] == p[k];
  }

  /** Where an extension starts, `Stem` cuts there. */
  lemma StemCutsExtension(p: string, j: int)
    requires ExtensionAt(p, j)
    ensures Stem(p) == p[..j]
  {
    var k :| 0 <= k < j && p[k] != '.' && forall m :: k <= m < j ==> p[m] != '/';
    LastIndexIs(p, '.', j);
    LastIndexBefore(p, '/', k);
    StemCutsAt(p, k, j);
  }

  /** When `Stem` cuts anything, it cuts where an extension starts. */
  lemma StemCutIsExtension(p: string)
    ensures |Stem(p)| <= |p| && Stem(p) == p[..|Stem(p)|]
    ensures Stem(p) == p || ExtensionAt(p, |Stem(p)|)
  {
    var sep := LastIndexOf(p, '/');
    var dot := LastIndexOf(p, '.');
    if dot > sep && HasNonDot(p[sep + 1..dot]) {
      var w :| 0 <= w < |p[sep + 1..dot]| && p[sep + 1..dot][w] != '.';
      assert p[sep + 1 + w] != '.';
      assert forall m :: sep + 1 + w <= m < dot ==> p[m] != '/';
      assert ExtensionAt(p, dot);
    }
  }

  /**
   * `Stem` removes exactly the extension: it is a prefix of `p`, it cuts at
   * every index where an extension starts, and when it cuts anything it cuts
   * at such an index.
   */
  lemma StemSpec(p: string)
    ensures |Stem(p)| <= |p| && Stem(p) == p[..|Stem(p)|]
    ensures forall j :: ExtensionAt(p, j) ==> Stem(p) == p[..j]
    ensures Stem(p) == p || ExtensionAt(p, |Stem(p)|)
  {
    forall j | ExtensionAt(p, j)
      ensures Stem(p) == p[..j]
    {
      StemCutsExtension(p, j);
    }
    StemCutIsExtension(p);
  }

  /** A name with a real extension loses exactly that extension. */
  lemma StemDropsExtension(name: string, ext: string)
    requires '.' !in ext && '/' !in ext
    requires exists k :: 0 <= k < |name| && name[k] != '.' && '/' !in name[k..]
    ensures Stem(name + "." + ext) == name
  {
    var p := name + "." + ext;
    var k :| 0 <= k < |name| && name[k] != '.' && '/' !in name[k..];
    assert p[k] == name[k];
    forall m | k <= m < |name|
      ensures p[m] != '/'
    {
      assert p[m] == name[k..][m - k];
    }
    forall m | |name| < m < |p|
      ensures p[m] != '.' && p[m] != '/'
    {
      assert p[m] == ext[m - |name| - 1];
    }
    assert ExtensionAt(p, |name|);
    StemSpec(p);
    assert p[..|name|] == name;
  }

  /** A name whose last component has no dot after its first character keeps it all. */
  lemma StemWithoutExtension(p: string)
    requires forall j :: LastIndexOf(p, '/') + 1 < j < |p| ==> p[j] != '.'
    ensures Stem(p) == p
  {
    StemSpec(p);
    if Stem(p) != p {
      var j := |Stem(p)|;
      var k :| 0 <= k < j && p[k] != '.' && forall m :: k <= m < j ==> p[m] != '/';
      LastIndexBefore(p, '/', k);
      assert false;
    }
  }

  /** `safe_filename`: the base name without its extension, a dash, the timestamp, `.json`. */
  function SafeFilename(base: string, timestamp: string): string {
    Stem(base) + "-" + timestamp + ".json"
  }

  /**
   * The generated name starts with the stem of `base`, followed by the
   * timestamp, and always ends in `.json`.
   */
  lemma SafeFilenameShape(base: string, timestamp: string)
    ensures var r := SafeFilename(base, timestamp);
      && |r| == |Stem(base)| + |timestamp| + 6
      && r[..|Stem(base)|] == Stem(base) && Stem(base) == base[..|Stem(base)|]
      && r[|Stem(base)|] == '-'
      && r[|Stem(base)| + 1..|r| - 5] == timestamp
      && r[|r| - 5..] == ".json"
  {
    StemSpec(base);
    var r := SafeFilename(base, timestamp);
    assert r == Stem(base) + ("-" + timestamp + ".json");
    assert r[|r| - 5..] == ".json";
  }

  const DefaultUpload := "salida.xlsx"

  /** The name of the JSON file for an upload whose file name may be missing or empty. */
  function OutputName(filename: Option<string>, timestamp: string): (r: string)
    ensures filename.None? || filename.value == "" ==> r == "salida-" + timestamp + ".json"
    ensures filename.Some? && filename.value != "" ==> r == SafeFilename(filename.value, timestamp)
  {
    StemOfDefault();
    SafeFilename(if filename.Some? && filename.value != "" then filename.value else DefaultUpload, timestamp)
  }

  lemma StemOfDefault()
    ensures Stem(DefaultUpload) == "salida"
  {
    var p := DefaultUpload;
    assert p[6] == '.' && p[0] == 's';
    assert forall m :: 6 < m < |p| ==> p[m] != '.';
    assert forall m :: 0 <= m < |p| ==> p[m] != '/';
    LastIndexIs(p, '.', 6);
    LastIndexBefore(p, '/', 0);
    StemCutsAt(p, 0, 6);
  }


  /** `os.path.basename` on a POSIX system: the text after the last slash. */
  function Basename(p: string): (r: string)
    ensures '/' !in r
    ensures |r| <= |p| && r == p[|p| - |r|..]
    ensures '/' !in p ==> r == p
    ensures p != [] && p[|p| - 1] == '/' ==> r == []
    ensures |r| == |p| || p[|p| - |r| - 1] == '/'
  {
    p[LastIndexOf(p, '/') + 1..]
  }

  /** Base-naming keeps `..`: the download route does not exclude it. */
  lemma BasenameKeepsDotDot(p: string)
    requires |p| >= 3 && p[|p| - 3..] == "/.."
    ensures Basename(p) == ".."
  {
    assert p[|p| - 3] == '/';
  }

  const NoSheets := "No se encontraron hojas en el archivo."

  /**
   * The sheet to convert. A form value that is missing or all whitespace
   * falls back to the first sheet of the workbook, or to the error raised
   * when the workbook has none; any other value is chosen with its
   * surrounding whitespace removed.
   */
  function ChooseSheet(form: Option<string>, sheets: seq<string>): (r: Result<string, string>)
    ensures var blank := form.None? || AllSpace(form.value);
      && (r.Failure? <==> blank && |sheets| == 0)
      && (r.Failure? ==> r.error == NoSheets)
      && (blank && |sheets| > 0 ==> r == Success(sheets[0]))
      && (!blank ==> r.Success? && r.value != "" && Trimmed(r.value)
                     && exists i :: StrippedAt(form.value, i, r.value))
  {
    var typed := Strip(if form.Some? then form.value else "");
    StripSpec(if form.Some? then form.value else "");
    StripEmpty(if form.Some? then form.value else "");
    if typed != "" then Success(typed)
    else if |sheets| == 0 then Failure(NoSheets)
    else Success(sheets[0])
  }

  /**
   * A typed sheet name never carries surrounding whitespace, and choosing it
   * again selects the same sheet whatever the workbook holds.
   */
  lemma ChooseSheetTyped(form: Option<string>, sheets: seq<string>, other: seq<string>)
    requires form.Some? && Strip(form.value) != ""
    ensures ChooseSheet(form, sheets).Success?
    ensures Trimmed(ChooseSheet(form, sheets).value)
    ensures ChooseSheet(Some(ChooseSheet(form, sheets).value), other) == ChooseSheet(form, sheets)
  {
    StripSpec(form.value);
    StripIdempotent(form.value);
  }

  /** Corollary of `ChooseSheet`: a blank or missing field falls back to the first sheet, untrimmed. */
  lemma ChooseSheetBlank(form: Option<string>, sheets: seq<string>)
    requires form.None? || AllSpace(form.value)
    ensures ChooseSheet(form, sheets) == if |sheets| == 0 then Failure(NoSheets) else Success(sheets[0])
  {
    if form.Some? {
      StripSpec(form.value);
    }
  }
}
