/** File names: choosing the input file, the time-stamped copy of it, the
    reader for it, and the names of the two output workbooks. Paths are POSIX
    paths, with `/` as the only separator. */
module Files {
  import opened Wrappers
  import opened Text

  predicate NoSlash(s: string) {
    forall i :: 0 <= i < |s| ==> s[i] != '/'
  }

  predicate NoPoint(s: string) {
    forall i :: 0 <= i < |s| ==> s[i] != '.'
  }

  lemma NoSlashAppend(a: string, b: string)
    ensures NoSlash(a + b) <==> NoSlash(a) && NoSlash(b)
  {
    if NoSlash(a + b) {
      forall i | 0 <= i < |a| ensures a[i] != '/' { assert a[i] == (a + b)[i]; }
      forall i | 0 <= i < |b| ensures b[i] != '/' { assert b[i] == (a + b)[|a| + i]; }
    }
  }

  /** `os.path.basename`: everything after the last `/`. */
  function Basename(p: string): (r: string)
    ensures NoSlash(r)
    ensures |r| <= |p| && p[|p| - |r|..] == r
    ensures |r| < |p| ==> p[|p| - |r| - 1] == '/'
  {
    LastIndexOfSpec(p, '/');
    p[LastIndexOf(p, '/') + 1..]
  }

  /** `os.path.join(dir, name)` for a name that is not absolute. */
  function Join(dir: string, name: string): (r: string)
    ensures |name| > 0 && name[0] == '/' ==> r == name
  {
    if |name| > 0 && name[0] == '/' then name
    else if |dir| == 0 || dir[|dir| - 1] == '/' then dir + name
    else dir + "/" + name
  }

  /** Joining a plain name onto a directory and taking the basename gives
      the name back. */
  lemma BasenameJoin(dir: string, name: string)
    requires NoSlash(name)
    ensures Basename(Join(dir, name)) == name
  {
    var p := Join(dir, name);
    var prefix := if |dir| == 0 || dir[|dir| - 1] == '/' then dir else dir + "/";
    assert p == prefix + name;
    if |prefix| == 0 {
      LastIndexOfIs(p, '/', -1);
    } else {
      assert prefix[|prefix| - 1] == '/';
      forall k | |prefix| - 1 < k < |p| ensures p[k] != '/' { assert p[k] == name[k - |prefix|]; }
      LastIndexOfIs(p, '/', |prefix| - 1);
    }
    assert p[|prefix|..] == name;
  }

  predicate HasNonPoint(s: string) {
    exists i :: 0 <= i < |s| && s[i] != '.'
  }

  /** `os.path.splitext` of a name without `/`: the extension runs from the
      last `.` to the end, unless only points come before that `.`
      (so `.bashrc` has no extension). */
  function SplitExt(name: string): (r: (string, string))
    ensures r.0 + r.1 == name
    ensures r.1 == "" || (r.1[0] == '.' && NoPoint(r.1[1..]) && HasNonPoint(r.0))
    ensures r.1 == "" <==>
      var d := LastIndexOf(name, '.'); d < 0 || !HasNonPoint(name[..d])
  {
    var d := LastIndexOf(name, '.');
    LastIndexOfSpec(name, '.');
    if d >= 0 && HasNonPoint(name[..d]) then
      assert NoPoint(name[d..][1..]) by {
        forall i | 0 <= i < |name[d..][1..]| ensures name[d..][1..][i] != '.' {
          assert name[d..][1..][i] == name[d + 1 + i];
        }
      }
      (name[..d], name[d..])
    else
      (name, "")
  }

  /** Putting a point-free infix between the root and the extension keeps
      the extension and extends the root, provided the infix has a character
      other than a point. */
  lemma SplitExtInfix(name: string, infix: string)
    requires NoPoint(infix) && HasNonPoint(infix)
    ensures SplitExt(SplitExt(name).0 + infix + SplitExt(name).1)
         == (SplitExt(name).0 + infix, SplitExt(name).1)
  {
    var root, ext := SplitExt(name).0, SplitExt(name).1;
    var n := root + infix + ext;
    if ext == "" {
      var d := LastIndexOf(name, '.');
      LastIndexOfSpec(name, '.');
      assert n == name + infix;
      forall k | d < k < |n| ensures n[k] != '.' {
        if k >= |name| { assert n[k] == infix[k - |name|]; }
      }
      LastIndexOfIs(n, '.', d);
      if d >= 0 {
        assert n[..d] == name[..d];
      }
    } else {
      var d := |root + infix|;
      assert n[d] == '.' by { assert n[d] == ext[0]; }
      forall k | d < k < |n| ensures n[k] != '.' { assert n[k] == ext[1..][k - d - 1]; }
      LastIndexOfIs(n, '.', d);
      assert n[..d] == root + infix;
      var j :| 0 <= j < |infix| && infix[j] != '.';
      assert (root + infix)[|root| + j] == infix[j];
      assert n[d..] == ext;
    }
  }

  /** The name of the copy: `{base}_{timestamp}{ext}`. */
  function CopyName(inputPath: string, timestamp: string): string {
    var parts := SplitExt(Basename(inputPath));
    parts.0 + ("_" + timestamp) + parts.1
  }

  lemma UnderscoreInfix(timestamp: string)
    requires NoPoint(timestamp)
    ensures NoPoint("_" + timestamp) && HasNonPoint("_" + timestamp)
  {
    var infix := "_" + timestamp;
    forall i | 0 < i < |infix| ensures infix[i] != '.' {
      assert infix[i] == timestamp[i - 1];
    }
    assert infix[0] != '.';
  }

  /** The copy keeps the extension of the original and its root is the
      original root with `_timestamp` appended. */
  lemma CopyKeepsExtension(inputPath: string, timestamp: string)
    requires NoPoint(timestamp)
    ensures SplitExt(CopyName(inputPath, timestamp))
         == (SplitExt(Basename(inputPath)).0 + ("_" + timestamp), SplitExt(Basename(inputPath)).1)
  {
    UnderscoreInfix(timestamp);
    SplitExtInfix(Basename(inputPath), "_" + timestamp);
  }

  /** Which pandas reader opens a file. */
  datatype Reader = Csv | Excel

  /** `.csv` in any letter case is read as CSV, everything else as a workbook. */
  function ReaderFor(path: string): Reader {
    if EndsWith(Lower(path), ".csv") then Csv else Excel
  }

  /** An independent reading of the choice: CSV exactly when the last four
      characters, lower-cased, are `.csv`. */
  lemma ReaderForIs(path: string)
    ensures ReaderFor(path) == Csv <==> |path| >= 4 && Lower(path[|path| - 4..]) == ".csv"
  {
    if |path| >= 4 {
      assert Lower(path)[|path| - 4..] == Lower(path[|path| - 4..]);
    }
  }

  /** The choice ignores letter case. */
  lemma ReaderIgnoresCase(path: string)
    ensures ReaderFor(Lower(path)) == ReaderFor(path)
  {
    LowerIdempotent(path);
  }

  /** Any path ending in `.csv`, in any letter case, is read as CSV. */
  lemma ReaderCsvSuffix(base: string, ext: string)
    requires Lower(ext) == ".csv"
    ensures ReaderFor(base + ext) == Csv
  {
    LowerAppend(base, ext);
    EndsWithAppend(Lower(base), ".csv");
  }

  lemma ReaderUpperCsv(base: string)
    ensures ReaderFor(base + ".CSV") == Csv
  {
    ReaderCsvSuffix(base, ".CSV");
  }

  /** A path whose last character is not a `v` is read as a workbook: this
      covers `.xlsx`, `.xls` and `trades.csv.xls`. */
  lemma ReaderNotCsv(path: string)
    requires |path| > 0 && path[|path| - 1] != 'v' && path[|path| - 1] != 'V'
    ensures ReaderFor(path) == Excel
  {
    assert Lower(path)[|path| - 1] == LowerChar(path[|path| - 1]);
  }

  /** The suffixes that mark an input file, compared in lower case. */
  predicate IsInputFileName(name: string) {
    var l := Lower(name);
    EndsWith(l, "_input.xlsx") || EndsWith(l, "_input.xls") || EndsWith(l, "_input.csv")
  }

  lemma InputNameIgnoresCase(name: string)
    ensures IsInputFileName(Lower(name)) == IsInputFileName(name)
  {
    LowerIdempotent(name);
  }

  /** A directory entry: its name and whether it is a regular file. */
  datatype Entry = Entry(name: string, isFile: bool)

  predicate IsInput(e: Entry) {
    e.isFile && IsInputFileName(e.name)
  }

  /** Index of the first input file of a listing, or its length. */
  function FirstInputIndex(listing: seq<Entry>): (i: nat)
    ensures i <= |listing|
  {
    if |listing| == 0 then 0
    else if IsInput(listing[0]) then 0
    else 1 + FirstInputIndex(listing[1..])
  }

  lemma {:induction false} FirstInputIndexSpec(listing: seq<Entry>)
    ensures FirstInputIndex(listing) < |listing| ==> IsInput(listing[FirstInputIndex(listing)])
    ensures forall k :: 0 <= k < FirstInputIndex(listing) ==> !IsInput(listing[k])
  {
    if |listing| > 0 && !IsInput(listing[0]) {
      FirstInputIndexSpec(listing[1..]);
    }
  }

  /** `find_input_file`: every entry of the listing is tested in order, the
      matching paths are collected, and the first of them is returned. */
  method FindInputFile(dir: string, listing: seq<Entry>) returns (r: Option<string>)
    ensures r.None? <==> forall i :: 0 <= i < |listing| ==> !IsInput(listing[i])
    ensures r.Some? ==>
      var i := FirstInputIndex(listing);
      && i < |listing| && IsInput(listing[i])
      && (forall j :: 0 <= j < i ==> !IsInput(listing[j]))
      && r.value == Join(dir, listing[i].name)
  {
    FirstInputIndexSpec(listing);
    var found: seq<string> := [];
    var i := 0;
    while i < |listing|
      invariant 0 <= i <= |listing|
      invariant found == [] <==> forall j :: 0 <= j < i ==> !IsInput(listing[j])
      invariant found == [] ==> FirstInputIndex(listing) >= i
      invariant found != [] ==>
        FirstInputIndex(listing) < i && found[0] == Join(dir, listing[FirstInputIndex(listing)].name)
    {
      var e := listing[i];
      if e.isFile && IsInputFileName(e.name) {
        found := found + [Join(dir, e.name)];
      }
      i := i + 1;
    }
    if |found| > 0 {
      r := Some(found[0]);
    } else {
      r := None;
    }
  }

  /** A name made of any base and one of the three suffixes, in any letter
      case, is an input name. */
  lemma InputSuffixAccepted(base: string, suffix: string)
    requires Lower(suffix) in {"_input.xlsx", "_input.xls", "_input.csv"}
    ensures IsInputFileName(base + suffix)
  {
    LowerAppend(base, suffix);
    EndsWithAppend(Lower(base), Lower(suffix));
  }

  /** A name whose last character is none of `x`, `s`, `v` is not an input
      name: `n_input.xlsm` is not one. */
  lemma InputNameRejected(name: string)
    requires |name| > 0
    requires var c := LowerChar(name[|name| - 1]); c != 'x' && c != 's' && c != 'v'
    ensures !IsInputFileName(name)
  {
    assert Lower(name)[|name| - 1] == LowerChar(name[|name| - 1]);
  }

  /** The underscore is required: `input.xlsx` is not an input name. */
  lemma InputNameNeedsUnderscore()
    ensures !IsInputFileName("input.xlsx")
  {
    var l := Lower("input.xlsx");
    assert |l| == 10;
    assert l[0] == 'i';
  }

  /** The output of `datetime.now()` the names are stamped with. */
  datatype Timestamp = Timestamp(year: nat, month: nat, day: nat, hour: nat, minute: nat, second: nat)

  /** A time `datetime` can hold, with a four-digit year. */
  predicate ValidTimestamp(t: Timestamp) {
    1000 <= t.year <= 9999 && 1 <= t.month <= 12 && 1 <= t.day <= 31
    && t.hour < 24 && t.minute < 60 && t.second < 60
  }

  function FourDigits(n: nat): (r: string)
    requires n < 10000
    ensures |r| == 4 && AllDigits(r) && DigitsValue(r) == n
  {
    var hi, lo := TwoDigits(n / 100), TwoDigits(n % 100);
    DigitsValueAppend(hi, lo);
    assert Pow10(2) == 100;
    hi + lo
  }

  /** `strftime('%Y%m%d_%H%M%S')`. */
  function FormatTimestamp(t: Timestamp): (r: string)
    requires ValidTimestamp(t)
    ensures |r| == 15 && r[8] == '_'
  {
    FourDigits(t.year) + TwoDigits(t.month) + TwoDigits(t.day) + "_"
      + TwoDigits(t.hour) + TwoDigits(t.minute) + TwoDigits(t.second)
  }

  /** Reads a stamp of the form `YYYYMMDD_HHMMSS` back. */
  function ParseTimestamp(s: string): Option<Timestamp> {
    if |s| == 15 && s[8] == '_' && AllDigits(s[..8]) && AllDigits(s[9..]) then
      var date, time := s[..8], s[9..];
      Some(Timestamp(DigitsValue(date[..4]), DigitsValue(date[4..6]), DigitsValue(date[6..]),
                     DigitsValue(time[..2]), DigitsValue(time[2..4]), DigitsValue(time[4..])))
    else None
  }

  /** A formatted stamp reads back as the time it was made from, so distinct
      times give distinct stamps. */
  lemma FormatParse(t: Timestamp)
    requires ValidTimestamp(t)
    ensures ParseTimestamp(FormatTimestamp(t)) == Some(t)
  {
    var y, mo, d := FourDigits(t.year), TwoDigits(t.month), TwoDigits(t.day);
    var h, mi, se := TwoDigits(t.hour), TwoDigits(t.minute), TwoDigits(t.second);
    var s := FormatTimestamp(t);
    var date, time := y + mo + d, h + mi + se;
    assert s == date + "_" + time;
    assert s[..8] == date && s[9..] == time;
    AllDigitsAppend(y, mo);
    AllDigitsAppend(y + mo, d);
    AllDigitsAppend(h, mi);
    AllDigitsAppend(h + mi, se);
    assert date[..4] == y && date[4..6] == mo && date[6..] == d;
    assert time[..2] == h && time[2..4] == mi && time[4..] == se;
  }

  lemma StampsDistinct(t: Timestamp, u: Timestamp)
    requires ValidTimestamp(t) && ValidTimestamp(u) && t != u
    ensures FormatTimestamp(t) != FormatTimestamp(u)
  {
    FormatParse(t);
    FormatParse(u);
  }

  lemma StampHasNoPoint(t: Timestamp)
    requires ValidTimestamp(t)
    ensures NoPoint(FormatTimestamp(t)) && NoSlash(FormatTimestamp(t))
  {
    var s := FormatTimestamp(t);
    FormatParse(t);
    forall i | 0 <= i < |s| ensures s[i] != '.' && s[i] != '/' {
      if i < 8 { assert s[i] == s[..8][i]; }
      else if i > 8 { assert s[i] == s[9..][i - 9]; }
    }
  }

  /** `symbol` of the first row when the table has a `SYMBOL` column,
      `UNKNOWN` otherwise. */
  function SymbolOf(hasSymbolColumn: bool, firstSymbol: string): string {
    if hasSymbolColumn then firstSymbol else "UNKNOWN"
  }

  const ParameterSuffix: string := "_parameter.xlsx"
  const SummaryInfix: string := "SUMMARY_REPORT"
  const SummarySuffix: string := "_intra_equity.xlsx"

  /** `{symbol}_parameter.xlsx`. */
  function ParameterName(symbol: string): (r: string)
    ensures |r| == |symbol| + |ParameterSuffix|
    ensures EndsWith(r, ParameterSuffix) && r[..|symbol|] == symbol
  {
    symbol + ParameterSuffix
  }

  /** `{symbol}SUMMARY_REPORT{timestamp}_intra_equity.xlsx`. */
  function SummaryName(symbol: string, timestamp: string): (r: string)
    ensures EndsWith(r, SummarySuffix)
    ensures |r| == |symbol| + |SummaryInfix| + |timestamp| + |SummarySuffix|
    ensures r[..|symbol|] == symbol
    ensures r[|symbol|..|symbol| + |SummaryInfix|] == SummaryInfix
    ensures r[|symbol| + |SummaryInfix|..|r| - |SummarySuffix|] == timestamp
  {
    var r := symbol + SummaryInfix + timestamp + SummarySuffix;
    assert r[|symbol|..|symbol| + |SummaryInfix|] == SummaryInfix;
    assert r[|symbol| + |SummaryInfix|..|r| - |SummarySuffix|] == timestamp;
    r
  }

  /** For one symbol, reports made at different times have different names. */
  lemma SummaryNamesDistinct(symbol: string, t: Timestamp, u: Timestamp)
    requires ValidTimestamp(t) && ValidTimestamp(u) && t != u
    ensures SummaryName(symbol, FormatTimestamp(t)) != SummaryName(symbol, FormatTimestamp(u))
  {
    StampsDistinct(t, u);
  }

  /** The parameter workbook and the summary are never the same file. */
  lemma OutputsDiffer(symbol: string, timestamp: string)
    ensures ParameterName(symbol) != SummaryName(symbol, timestamp)
  {
  }
}
