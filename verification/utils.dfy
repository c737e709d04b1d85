/**
 * The loading helpers of src/utils.py: whitespace cleaning of any cell,
 * identifier normalisation, the ethnonym and stopword lists, the metadata
 * table with its `document_id` fallback, the matching of text files to
 * metadata rows, and the encoding fallback used to read the metadata file.
 *
 * Files, their bytes and the CSV parser are inputs: a file is `None` when it
 * does not exist, and decoding and parsing are oracles.
 */
module Utils {
  import opened Wrappers
  import opened Text
  import opened Sorting

  // ---------------------------------------------------------------- clean_text

  /** `clean_text` on any value: `""` for a value that is not a string. */
  function CleanCell(c: Cell): (r: string)
    ensures IsClean(r)
    ensures c.Text? ==> Words(r) == Words(c.s) && CleanText(r) == r
    ensures !c.Text? ==> r == ""
  {
    if c.Text? then CleanTextProperties(c.s); CleanText(c.s) else ""
  }

  // ---------------------------------------------------------------- first match

  /** The index of the first item that satisfies `p`, if any. */
  function FirstWhere<T>(s: seq<T>, p: T -> bool): (r: Option<nat>)
    ensures r.Some? ==> r.value < |s| && p(s[r.value]) && forall j :: 0 <= j < r.value ==> !p(s[j])
    ensures r.None? ==> forall j :: 0 <= j < |s| ==> !p(s[j])
    decreases |s|
  {
    if |s| == 0 then None
    else if p(s[0]) then Some(0)
    else
      var k := FirstWhere(s[1..], p);
      if k.Some? then Some(k.value + 1) else None
  }

  // ---------------------------------------------------------------- _normalise_identifier

  const Latin1Alnum: set<char> := {'\U{aa}', '\U{b2}', '\U{b3}', '\U{b5}', '\U{b9}', '\U{ba}', '\U{bc}', '\U{bd}', '\U{be}'}

  /** Regex `\w` on a `str`, for the characters up to U+00FF and the basic Cyrillic block. */
  predicate IsWordChar(c: char) {
    'a' <= c <= 'z' || 'A' <= c <= 'Z' || '0' <= c <= '9' || c == '_'
    || c in Latin1Alnum || ('\U{c0}' <= c <= '\U{ff}' && c != '\U{d7}' && c != '\U{f7}')
    || '\U{400}' <= c <= '\U{45f}'
  }

  /** `re.sub(r"\W+", "", s)`: the word characters of `s`, in order. */
  function KeepWordChars(s: string): (r: string)
    ensures |r| <= |s|
    ensures forall i :: 0 <= i < |r| ==> IsWordChar(r[i])
    decreases |s|
  {
    if |s| == 0 then ""
    else if IsWordChar(s[0]) then [s[0]] + KeepWordChars(s[1..])
    else KeepWordChars(s[1..])
  }

  /** An identifier as `_normalise_identifier` produces it: lower-case word characters only. */
  predicate IsIdentifier(s: string) {
    forall i :: 0 <= i < |s| ==> IsWordChar(s[i]) && LowerChar(s[i]) == s[i]
  }

  /** `_normalise_identifier` of a string (`not ""` holds, and the result is then `""` too). */
  function NormaliseIdentifier(s: string): (r: string)
    ensures IsIdentifier(r) && |r| <= |s|
  {
    Lower(KeepWordChars(s))
  }

  /** `_normalise_identifier` applied to a table cell: `None` gives `""`, NaN makes `re.sub` raise. */
  function NormaliseCell(c: Cell): (r: Result<string>)
    ensures r.Err? <==> c.NaNCell?
    ensures r.Err? ==> r.error == TypeError
    ensures c.NoneCell? || c == Text("") ==> r == Ok("")
    ensures r.Ok? ==> IsIdentifier(r.value)
  {
    match c
    case NoneCell => Ok("")
    case NaNCell => Err(TypeError)
    case Text(s) => Ok(NormaliseIdentifier(s))
  }

  lemma {:induction false} KeepWordCharsOfWordChars(s: string)
    requires forall i :: 0 <= i < |s| ==> IsWordChar(s[i])
    ensures KeepWordChars(s) == s
    decreases |s|
  {
    if |s| > 0 {
      assert IsWordChar(s[0]);
      KeepWordCharsOfWordChars(s[1..]);
      assert s == [s[0]] + s[1..];
    }
  }

  /** Normalising an identifier again changes nothing. */
  lemma NormaliseIdentifierIdempotent(s: string)
    ensures NormaliseIdentifier(NormaliseIdentifier(s)) == NormaliseIdentifier(s)
  {
    var r := NormaliseIdentifier(s);
    KeepWordCharsOfWordChars(r);
  }

  lemma {:induction false} KeepWordCharsSkips(a: string, c: char, b: string)
    requires !IsWordChar(c)
    ensures KeepWordChars(a + [c] + b) == KeepWordChars(a + b)
    decreases |a|
  {
    if |a| == 0 {
      assert a + [c] + b == [c] + b && a + b == b;
      assert ([c] + b)[1..] == b;
    } else {
      assert (a + [c] + b)[1..] == a[1..] + [c] + b;
      assert (a + b)[1..] == a[1..] + b;
      KeepWordCharsSkips(a[1..], c, b);
    }
  }

  /** Only word characters matter: inserting punctuation or a space does not change the identifier. */
  lemma NormaliseIgnoresNonWord(a: string, c: char, b: string)
    requires !IsWordChar(c)
    ensures NormaliseIdentifier(a + [c] + b) == NormaliseIdentifier(a + b)
  {
    KeepWordCharsSkips(a, c, b);
  }

  // ---------------------------------------------------------------- load_ethnonyms, load_stopwords

  /** A list entry: a non-empty lower-case line with no whitespace at either end (so its own strip, by StripKeepsTrimmed). */
  predicate IsEntry(e: string) {
    |e| > 0 && !IsSpace(e[0]) && !IsSpace(e[|e| - 1]) && IsLower(e)
  }

  /** A line of the file that holds more than whitespace. */
  predicate Filled(line: string) {
    Strip(line) != ""
  }

  /** The entry a filled line contributes. */
  function EntryOf(line: string): string {
    Lower(Strip(line))
  }

  lemma EntryOfIsEntry(line: string)
    requires Filled(line)
    ensures IsEntry(EntryOf(line))
  {
    var t := Strip(line);
    var e := Lower(t);
    assert |t| > 0 && !IsSpace(t[0]) && !IsSpace(t[|t| - 1]);
    LowerEdges(t);
    LowerIsLower(t);
  }

  /** `[line.strip().lower() for line in lines if line.strip()]`. */
  function LineEntries(lines: seq<string>): seq<string>
    decreases |lines|
  {
    if |lines| == 0 then []
    else if Filled(lines[0]) then [EntryOf(lines[0])] + LineEntries(lines[1..])
    else LineEntries(lines[1..])
  }

  /** The entries are exactly the entries of the filled lines. */
  lemma {:induction false} LineEntriesMembers(lines: seq<string>)
    ensures forall e :: e in LineEntries(lines) <==> exists l :: l in lines && Filled(l) && EntryOf(l) == e
    decreases |lines|
  {
    if |lines| > 0 {
      var rest := LineEntries(lines[1..]);
      LineEntriesMembers(lines[1..]);
      forall e ensures e in LineEntries(lines) <==> exists l :: l in lines && Filled(l) && EntryOf(l) == e {
        if e in LineEntries(lines) {
          if Filled(lines[0]) && e == EntryOf(lines[0]) {
            assert lines[0] in lines;
          } else {
            assert e in rest;
            var l :| l in lines[1..] && Filled(l) && EntryOf(l) == e;
            assert l in lines;
          }
        }
        if exists l :: l in lines && Filled(l) && EntryOf(l) == e {
          var l :| l in lines && Filled(l) && EntryOf(l) == e;
          var i :| 0 <= i < |lines| && lines[i] == l;
          if i > 0 {
            assert lines[1..][i - 1] == l;
            assert e in rest;
          }
        }
      }
    }
  }

  /** Every entry is stripped, non-empty and lower-case. */
  lemma LineEntriesAreEntries(lines: seq<string>)
    ensures forall e :: e in LineEntries(lines) ==> IsEntry(e)
  {
    LineEntriesMembers(lines);
    forall e | e in LineEntries(lines) ensures IsEntry(e) {
      var l :| l in lines && Filled(l) && EntryOf(l) == e;
      EntryOfIsEntry(l);
    }
  }

  /** `load_ethnonyms`: the sorted distinct entries of the file's lines; a missing file raises. */
  function LoadEthnonyms(file: Option<seq<string>>): (r: Result<seq<string>>)
    ensures r.Err? <==> file.None?
    ensures r.Err? ==> r.error == FileNotFound
    ensures r.Ok? ==> StrictlySorted(r.value) && forall i :: 0 <= i < |r.value| ==> IsEntry(r.value[i])
    ensures r.Ok? ==> forall e :: e in r.value <==> exists l :: l in file.value && Filled(l) && EntryOf(l) == e
  {
    if file.None? then Err(FileNotFound)
    else
      var entries := LineEntries(file.value);
      LineEntriesMembers(file.value);
      LineEntriesAreEntries(file.value);
      SortedUniqueKeeps(entries);
      Ok(SortedUnique(entries))
  }

  lemma SortedUniqueKeeps(entries: seq<string>)
    requires forall e :: e in entries ==> IsEntry(e)
    ensures forall e :: e in SortedUnique(entries) <==> e in entries
    ensures forall i :: 0 <= i < |SortedUnique(entries)| ==> IsEntry(SortedUnique(entries)[i])
  {
    var sorted := SortedUnique(entries);
    forall e ensures e in sorted <==> e in entries {
      assert e in sorted <==> e in Elems(sorted);
      assert e in entries <==> e in Elems(entries);
    }
    forall i | 0 <= i < |sorted| ensures IsEntry(sorted[i]) {
      assert sorted[i] in entries;
    }
  }

  /** `load_stopwords`: the set of entries of the file's lines; a missing file gives the empty set. */
  function LoadStopwords(file: Option<seq<string>>): (r: set<string>)
    ensures file.None? ==> r == {}
    ensures forall e :: e in r ==> IsEntry(e)
    ensures file.Some? ==> forall e :: e in r <==> exists l :: l in file.value && Filled(l) && EntryOf(l) == e
  {
    if file.None? then {}
    else
      LineEntriesMembers(file.value);
      LineEntriesAreEntries(file.value);
      Elems(LineEntries(file.value))
  }

  // ---------------------------------------------------------------- the document_id slug

  /** Python's `str(v)` for a cell. */
  function CellStr(c: Cell): string {
    match c
    case NoneCell => "None"
    case NaNCell => "nan"
    case Text(s) => s
  }

  /** `filter(None, parts)`: the non-empty parts, in order. */
  function NonEmpty(parts: seq<string>): (r: seq<string>)
    ensures |r| <= |parts|
    ensures forall i :: 0 <= i < |r| ==> r[i] != "" && r[i] in parts
    ensures forall i :: 0 <= i < |parts| && parts[i] != "" ==> parts[i] in r
    decreases |parts|
  {
    if |parts| == 0 then []
    else
      assert forall i :: 1 <= i < |parts| ==> parts[i] == parts[1..][i - 1];
      (if parts[0] == "" then [] else [parts[0]]) + NonEmpty(parts[1..])
  }

  /** `str(v).strip().replace(" ", "")`. */
  function SlugPart(c: Cell): (r: string)
    ensures ' ' !in r
  {
    ReplaceChar(Strip(CellStr(c)), ' ', "")
  }

  /** `str(y)` for the integer `int(year)` gave, or `""` when the year is null. */
  function YearPart(year: Option<int>): (r: string)
    ensures ' ' !in r && '_' !in r
    ensures year.Some? ==> r != ""
  {
    if year.Some? then
      var y := IntToString(year.value);
      assert forall i :: 0 <= i < |y| ==> y[i] == '-' || IsDigit(y[i]);
      y
    else ""
  }

  /** `"_".join(filter(None, parts))`. */
  function Slug(parts: seq<string>): (r: string)
    ensures forall c :: (forall i :: 0 <= i < |parts| ==> c !in parts[i]) && c != '_' ==> c !in r
    ensures r == "" <==> forall i :: 0 <= i < |parts| ==> parts[i] == ""
  {
    var kept := NonEmpty(parts);
    forall c | (forall i :: 0 <= i < |parts| ==> c !in parts[i]) && c != '_' ensures c !in Join("_", kept) {
      JoinAvoids(c, "_", kept);
    }
    JoinEmpty("_", kept);
    Join("_", kept)
  }

  /** Splitting a slug on `_` gives back its non-empty parts when none of them holds `_`. */
  lemma SlugSplits(parts: seq<string>)
    requires forall i :: 0 <= i < |parts| ==> '_' !in parts[i]
    requires Slug(parts) != ""
    ensures Split('_', Slug(parts)) == NonEmpty(parts)
  {
    var r := NonEmpty(parts);
    assert forall i :: 0 <= i < |r| ==> '_' !in r[i] by {
      forall i | 0 <= i < |r| ensures '_' !in r[i] {
        var j :| 0 <= j < |parts| && parts[j] == r[i];
      }
    }
    assert "_" == ['_'];
    SplitOfJoin('_', r);
  }

  /** The `document_id` built from author, year and title when the metadata names no file. */
  function DocumentIdSlug(author: Cell, year: Option<int>, title: Cell): (r: string)
    ensures ' ' !in r
  {
    var a, y, t := SlugPart(author), YearPart(year), SlugPart(title);
    var parts := [a, y, t];
    assert forall i :: 0 <= i < |parts| ==> ' ' !in parts[i];
    Slug(parts)
  }

  // ---------------------------------------------------------------- Path(p).stem

  /** The text after the last `/`: `Path(p).name` for a path without a trailing `/`. */
  function BaseName(p: string): (r: string)
    ensures '/' !in r
    ensures |r| <= |p| && r == p[|p| - |r|..]
    decreases |p|
  {
    if |p| == 0 then ""
    else if p[|p| - 1] == '/' then ""
    else
      var r := BaseName(p[..|p| - 1]);
      assert p[..|p| - 1][|p| - 1 - |r|..] == p[|p| - 1 - |r|..|p| - 1];
      r + [p[|p| - 1]]
  }

  /** The index of the last occurrence of `c` in `s`: `s.rfind(c)`, with `None` for -1. */
  function LastIndexOf(s: string, c: char): (r: Option<nat>)
    ensures r.Some? ==> r.value < |s| && s[r.value] == c && forall k :: r.value < k < |s| ==> s[k] != c
    ensures r.None? ==> forall k :: 0 <= k < |s| ==> s[k] != c
    decreases |s|
  {
    if |s| == 0 then None
    else if s[|s| - 1] == c then Some(|s| - 1)
    else
      var r := LastIndexOf(s[..|s| - 1], c);
      assert forall k :: 0 <= k < |s| - 1 ==> s[..|s| - 1][k] == s[k];
      r
  }

  /** `Path(p).stem`: the name without its last suffix, a suffix being a `.` that neither starts nor ends the name. */
  function Stem(p: string): (r: string)
    ensures '/' !in r && |r| <= |BaseName(p)|
  {
    var name := BaseName(p);
    var i := LastIndexOf(name, '.');
    if i.Some? && 0 < i.value < |name| - 1 then name[..i.value] else name
  }

  /** The stem of a `.txt` file name is the name without `.txt`. */
  lemma StemOfTxt(n: string)
    requires n != "" && '/' !in n
    ensures Stem(n + ".txt") == n
  {
    var name := n + ".txt";
    BaseNameOfPlain(name);
    assert name[|n|] == '.' && name[|n| + 1..] == "txt";
    var i := LastIndexOf(name, '.');
    assert forall k :: |n| < k < |name| ==> name[k] == name[|n| + 1..][k - |n| - 1];
    assert i.value == |n|;
    assert name[..|n|] == n;
  }

  lemma {:induction false} BaseNameOfPlain(p: string)
    requires '/' !in p
    ensures BaseName(p) == p
    decreases |p|
  {
    if |p| > 0 {
      assert p[..|p| - 1] + [p[|p| - 1]] == p;
      assert forall x :: x in p[..|p| - 1] ==> x in p;
      BaseNameOfPlain(p[..|p| - 1]);
    }
  }

  // ---------------------------------------------------------------- the year column

  /**
   * A value of the year column after `pd.to_numeric(..., errors="coerce")`:
   * NaN for anything that does not read as a number, a finite number, or an
   * infinity ("inf" reads as one).
   */
  datatype Number = NotANumber | Finite(x: real) | Infinite

  /** `pd.to_numeric` on one cell: None and NaN stay NaN; the reading of a string is the parameter `number`. */
  function ToNumeric(c: Cell, number: string -> Number): Number {
    if c.Text? then number(c.s) else NotANumber
  }

  /** `int(x)` of a finite float: truncation toward zero. */
  function Trunc(x: real): (r: int)
    ensures x >= 0.0 ==> 0.0 <= r as real <= x < r as real + 1.0
    ensures x < 0.0 ==> r as real - 1.0 < x <= r as real <= 0.0
  {
    if x >= 0.0 then x.Floor else -((-x).Floor)
  }

  /**
   * `int(v) if pd.notnull(v) else None`: NaN gives no year, an infinity
   * passes `notnull` and makes `int` raise OverflowError.
   */
  function IntYear(n: Number): (r: Result<Option<int>>)
    ensures r.Err? <==> n.Infinite?
    ensures r.Err? ==> r.error == OverflowError
    ensures r == Ok(None) <==> n.NotANumber?
    ensures n.Finite? ==> r.Ok? && r.value.Some? && r.value.value as real <= n.x + 1.0 && n.x - 1.0 <= r.value.value as real
  {
    match n
    case NotANumber => Ok(None)
    case Finite(x) => Ok(Some(Trunc(x)))
    case Infinite => Err(OverflowError)
  }

  /** A whole-number year reads back as itself. */
  lemma IntYearOfWhole(k: int)
    ensures IntYear(Finite(k as real)) == Ok(Some(k))
  {
    if k < 0 {
      assert (-(k as real)).Floor == -k;
    }
  }

  // ---------------------------------------------------------------- load_metadata

  /** The table that pandas reads from the metadata file: header and rows of cells. */
  datatype RawTable = RawTable(header: seq<string>, rows: seq<seq<Cell>>)

  /** A header as `load_metadata` renames it: stripped and lower-cased. */
  function ColumnName(h: string): string {
    Lower(Strip(h))
  }

  /** The position of the column called `name` after renaming, if any. */
  function Column(header: seq<string>, name: string): (r: Option<nat>)
    ensures r.Some? ==> r.value < |header| && ColumnName(header[r.value]) == name
    ensures r.None? ==> forall i :: 0 <= i < |header| ==> ColumnName(header[i]) != name
  {
    FirstWhere(header, h => ColumnName(h) == name)
  }

  /** `row.get(name, default)`; pandas fills the missing trailing fields of a short row with NaN. */
  function Get(header: seq<string>, row: seq<Cell>, name: string, default: Cell): (r: Cell)
    ensures Column(header, name).None? ==> r == default
    ensures Column(header, name).Some? && Column(header, name).value < |row| ==> r == row[Column(header, name).value]
    ensures Column(header, name).Some? && Column(header, name).value >= |row| ==> r == NaNCell
  {
    var c := Column(header, name);
    if c.None? then default else if c.value < |row| then row[c.value] else NaNCell
  }

  /** One of the required columns author, year and title is missing after renaming. */
  predicate MissingRequired(header: seq<string>) {
    Column(header, "author").None? || Column(header, "year").None? || Column(header, "title").None?
  }

  /** One metadata row after loading; `filename` is `None` when the table has no such column. */
  datatype MetaRow = MetaRow(author: Cell, year: Number, title: Cell, source: Cell,
                             filename: Option<Cell>, documentId: Cell, normId: string)

  datatype Metadata = Metadata(hasFilename: bool, rows: seq<MetaRow>)

  predicate ValidMetadata(m: Metadata) {
    forall i :: 0 <= i < |m.rows| ==> m.rows[i].filename.Some? == m.hasFilename
  }

  /** The year of a row, as `pd.to_numeric` leaves it. */
  function YearOf(header: seq<string>, row: seq<Cell>, number: string -> Number): Number {
    ToNumeric(Get(header, row, "year", NaNCell), number)
  }

  /**
   * The `document_id` of a row: the column itself when there is one, else the
   * stem of `str(filename)`, else the slug of author, year and title, whose
   * `int(year)` raises OverflowError for an infinite year.
   */
  function DocumentIdCell(header: seq<string>, row: seq<Cell>, number: string -> Number): (r: Result<Cell>)
    ensures Column(header, "document_id").Some? ==> r == Ok(Get(header, row, "document_id", NaNCell))
    ensures Column(header, "document_id").None? && Column(header, "filename").Some? ==>
      r == Ok(Text(Stem(CellStr(Get(header, row, "filename", NaNCell)))))
    ensures Column(header, "document_id").None? && Column(header, "filename").None? ==>
      && (r.Err? <==> YearOf(header, row, number).Infinite?)
      && (r.Err? ==> r.error == OverflowError)
      && (r.Ok? ==> r.value == Text(DocumentIdSlug(Get(header, row, "author", Text("")),
                                                   IntYear(YearOf(header, row, number)).value,
                                                   Get(header, row, "title", Text("")))))
    ensures r.Err? ==> Column(header, "document_id").None? && Column(header, "filename").None?
  {
    if Column(header, "document_id").Some? then Ok(Get(header, row, "document_id", NaNCell))
    else if Column(header, "filename").Some? then Ok(Text(Stem(CellStr(Get(header, row, "filename", NaNCell)))))
    else
      var year := IntYear(YearOf(header, row, number));
      if year.Err? then Err(year.error)
      else Ok(Text(DocumentIdSlug(Get(header, row, "author", Text("")), year.value, Get(header, row, "title", Text("")))))
  }

  /**
   * One loaded row: building the slug id can raise OverflowError, and
   * normalising a NaN `document_id` raises TypeError.
   */
  function MetaRowOf(header: seq<string>, row: seq<Cell>, number: string -> Number): (r: Result<MetaRow>)
    ensures DocumentIdCell(header, row, number).Err? ==> r == Err(OverflowError)
    ensures DocumentIdCell(header, row, number).Ok? ==>
      (r.Err? <==> DocumentIdCell(header, row, number).value.NaNCell?)
    ensures DocumentIdCell(header, row, number).Ok? && r.Err? ==> r.error == TypeError
    ensures r.Ok? ==> Ok(r.value.documentId) == DocumentIdCell(header, row, number)
    ensures r.Ok? ==> Ok(r.value.normId) == NormaliseCell(r.value.documentId)
    ensures r.Ok? ==> r.value.filename.Some? == Column(header, "filename").Some?
    ensures r.Ok? ==> r.value.source == Get(header, row, "source", Text(""))
    ensures r.Ok? ==> r.value.year == YearOf(header, row, number)
  {
    var id := DocumentIdCell(header, row, number);
    if id.Err? then Err(id.error)
    else
      var norm := NormaliseCell(id.value);
      if norm.Err? then Err(TypeError)
      else
        var filename := if Column(header, "filename").Some? then Some(Get(header, row, "filename", NaNCell)) else None;
        Ok(MetaRow(Get(header, row, "author", Text("")), YearOf(header, row, number),
                   Get(header, row, "title", Text("")), Get(header, row, "source", Text("")),
                   filename, id.value, norm.value))
  }

  /**
   * `load_metadata` once the table is read: a missing author, year or title
   * column raises ValueError; `source` defaults to `""`.
   */
  function BuildMetadata(t: RawTable, number: string -> Number): (r: Result<Metadata>)
    ensures MissingRequired(t.header) ==> r == Err(ValueError)
    ensures !MissingRequired(t.header) ==>
      (r.Err? <==> exists i :: 0 <= i < |t.rows| && MetaRowOf(t.header, t.rows[i], number).Err?)
    ensures !MissingRequired(t.header) && r.Err? ==>
      && (r.error == TypeError || r.error == OverflowError)
      && (r.error == OverflowError <==> Column(t.header, "document_id").None? && Column(t.header, "filename").None?)
    ensures r.Ok? ==> ValidMetadata(r.value) && |r.value.rows| == |t.rows|
    ensures r.Ok? ==> r.value.hasFilename == Column(t.header, "filename").Some?
    ensures r.Ok? ==> forall i :: 0 <= i < |t.rows| ==> Ok(r.value.rows[i]) == MetaRowOf(t.header, t.rows[i], number)
  {
    if MissingRequired(t.header) then Err(ValueError)
    else
      var f := row => MetaRowOf(t.header, row, number);
      var rows := MapResult(t.rows, f);
      assert forall row :: f(row) == MetaRowOf(t.header, row, number);
      if rows.Err? then
        RowErrorKind(t.header, t.rows, number, rows.error);
        Err(rows.error)
      else Ok(Metadata(Column(t.header, "filename").Some?, rows.value))
  }

  /**
   * A row fails with TypeError (a NaN id) or OverflowError (an infinite year
   * in the slug), and the slug is built only when neither id column exists.
   */
  lemma RowErrorKind(header: seq<string>, rows: seq<seq<Cell>>, number: string -> Number, e: PyError)
    requires exists i :: 0 <= i < |rows| && MetaRowOf(header, rows[i], number) == Err(e)
    ensures e == TypeError || e == OverflowError
    ensures e == OverflowError <==> Column(header, "document_id").None? && Column(header, "filename").None?
  {
    var i :| 0 <= i < |rows| && MetaRowOf(header, rows[i], number) == Err(e);
    var id := DocumentIdCell(header, rows[i], number);
    if id.Ok? {
      assert id.value.NaNCell?;
    }
  }

  // ---------------------------------------------------------------- _read_metadata_csv

  const FallbackEncodings: seq<string> := ["utf-8", "utf-8-sig", "cp1251", "windows-1252", "latin-1"]

  /** The bytes decode under `enc` and the decoded text parses as a table. */
  predicate Readable(raw: seq<bv8>, enc: string, decode: (string, seq<bv8>) -> Option<string>,
                     parse: string -> Option<RawTable>) {
    decode(enc, raw).Some? && parse(decode(enc, raw).value).Some?
  }

  /** The table of the first encoding under which the bytes decode and parse, if any. */
  function FirstReadable(raw: seq<bv8>, decode: (string, seq<bv8>) -> Option<string>,
                         parse: string -> Option<RawTable>): (r: Option<RawTable>)
    ensures r.None? <==> forall k :: 0 <= k < |FallbackEncodings| ==> !Readable(raw, FallbackEncodings[k], decode, parse)
    ensures r.Some? ==> exists k :: (0 <= k < |FallbackEncodings| && Readable(raw, FallbackEncodings[k], decode, parse)
      && r.value == parse(decode(FallbackEncodings[k], raw).value).value
      && forall j :: 0 <= j < k ==> !Readable(raw, FallbackEncodings[j], decode, parse))
  {
    var k := FirstWhere(FallbackEncodings, enc => Readable(raw, enc, decode, parse));
    if k.Some? then Some(parse(decode(FallbackEncodings[k.value], raw).value).value) else None
  }

  /** An argument given to an exception's constructor: a `str` or a bytes-like object. */
  datatype Arg = StrArg(s: string) | BytesArg(b: seq<bv8>)

  /**
   * `UnicodeDecodeError(encoding, object, start, end, reason)`: the second
   * argument must be bytes-like; given a `str` there, the constructor itself
   * raises TypeError, and that is what escapes from the `raise`.
   */
  function RaiseUnicodeDecodeError(obj: Arg): (e: PyError)
    ensures e == UnicodeDecodeError <==> obj.BytesArg?
    ensures e == TypeError <==> obj.StrArg?
  {
    if obj.BytesArg? then UnicodeDecodeError else TypeError
  }

  /**
   * The exception `_read_metadata_csv` ends with, as written: the object
   * argument is `getattr(last_error, "encoding", "utf-8")`, the name of an
   * encoding, which is a `str`.
   */
  function ReadFailure(lastEncoding: string): PyError {
    RaiseUnicodeDecodeError(StrArg(lastEncoding))
  }

  /** Whatever failed last, the final `raise` of `_read_metadata_csv` raises TypeError. */
  lemma ReadFailureIsTypeError(lastEncoding: string)
    ensures ReadFailure(lastEncoding) == TypeError && ReadFailure(lastEncoding) != UnicodeDecodeError
  {
  }

  /** The exception evidently intended: the undecodable bytes as the object argument. */
  function IntendedReadFailure(raw: seq<bv8>): (e: PyError)
    ensures e == UnicodeDecodeError
  {
    RaiseUnicodeDecodeError(BytesArg(raw))
  }

  /**
   * `_read_metadata_csv`: the encodings are tried in order and the first one
   * under which the bytes both decode and parse gives the table. When none
   * works, the `raise` at the end fails in the exception's constructor (see
   * ReadFailure), so the caller sees TypeError.
   */
  method ReadMetadataCsv(raw: seq<bv8>, decode: (string, seq<bv8>) -> Option<string>,
                         parse: string -> Option<RawTable>)
    returns (r: Result<RawTable>)
    ensures r.Err? <==> forall k :: 0 <= k < |FallbackEncodings| ==> !Readable(raw, FallbackEncodings[k], decode, parse)
    ensures r.Err? ==> r.error == TypeError
    ensures r.Ok? ==> exists k :: (0 <= k < |FallbackEncodings| && Readable(raw, FallbackEncodings[k], decode, parse)
      && r.value == parse(decode(FallbackEncodings[k], raw).value).value
      && forall j :: 0 <= j < k ==> !Readable(raw, FallbackEncodings[j], decode, parse))
    ensures r.Ok? ==> FirstReadable(raw, decode, parse) == Some(r.value)
  {
    var lastEncoding := "utf-8";
    var i := 0;
    while i < |FallbackEncodings|
      invariant 0 <= i <= |FallbackEncodings|
      invariant forall j :: 0 <= j < i ==> !Readable(raw, FallbackEncodings[j], decode, parse)
    {
      var text := decode(FallbackEncodings[i], raw);
      if text.Some? {
        var table := parse(text.value);
        if table.Some? {
          return Ok(table.value);
        }
        // a parse failure is a pandas error, which has no `encoding`
        lastEncoding := "utf-8";
      } else {
        lastEncoding := FallbackEncodings[i];
      }
      i := i + 1;
    }
    ReadFailureIsTypeError(lastEncoding);
    return Err(ReadFailure(lastEncoding));
  }

  /**
   * `load_metadata`: a missing file raises FileNotFoundError; then the first
   * readable table is built, and a file no encoding can read raises what
   * `_read_metadata_csv` raises.
   */
  method LoadMetadata(file: Option<seq<bv8>>, decode: (string, seq<bv8>) -> Option<string>,
                      parse: string -> Option<RawTable>, number: string -> Number)
    returns (r: Result<Metadata>)
    ensures file.None? ==> r == Err(FileNotFound)
    ensures file.Some? && FirstReadable(file.value, decode, parse).None? ==> r == Err(TypeError)
    ensures file.Some? && FirstReadable(file.value, decode, parse).Some? ==>
      r == BuildMetadata(FirstReadable(file.value, decode, parse).value, number)
    ensures r.Ok? ==> ValidMetadata(r.value)
  {
    if file.None? {
      return Err(FileNotFound);
    }
    var table := ReadMetadataCsv(file.value, decode, parse);
    if table.Err? {
      return Err(table.error);
    }
    r := BuildMetadata(table.value, number);
  }

  // ---------------------------------------------------------------- load_texts

  /** The metadata fields a text row takes from its matching metadata row. */
  datatype MetaFields = MetaFields(author: Cell, year: Option<int>, title: Cell, source: Cell)

  const NoMeta: MetaFields := MetaFields(Text(""), None, Text(""), Text(""))

  /** The fields a text row takes from a matched row: `int(meta["year"])` raises OverflowError for an infinite year. */
  function Fields(m: MetaRow): (r: Result<MetaFields>)
    ensures r.Err? <==> m.year.Infinite?
    ensures r.Err? ==> r.error == OverflowError
    ensures r.Ok? ==> r.value.author == m.author && r.value.title == m.title && r.value.source == m.source
    ensures r.Ok? ==> Ok(r.value.year) == IntYear(m.year)
  {
    var year := IntYear(m.year);
    if year.Err? then Err(year.error) else Ok(MetaFields(m.author, year.value, m.title, m.source))
  }

  /** `metadata["__norm_id"] == norm_id`: the row's normalised id is the normalised stem of the file name. */
  predicate IdMatches(row: MetaRow, name: string) {
    row.normId == NormaliseIdentifier(Stem(name))
  }

  /** `metadata["filename"].map(_normalise_identifier) == alt_norm` for a filename that is not NaN. */
  predicate NameMatches(row: MetaRow, name: string) {
    row.filename.Some? && NormaliseCell(row.filename.value) == Ok(NormaliseIdentifier(name))
  }

  /** Some filename of the table is NaN, which `_normalise_identifier` cannot take. */
  predicate SomeNaNFilename(m: Metadata) {
    exists i :: 0 <= i < |m.rows| && m.rows[i].filename == Some(NaNCell)
  }

  /** Row `i` is the first row matching `name` by id. */
  predicate FirstIdMatch(m: Metadata, name: string, i: int) {
    0 <= i < |m.rows| && IdMatches(m.rows[i], name) && forall j :: 0 <= j < i ==> !IdMatches(m.rows[j], name)
  }

  /** Row `i` is the first row matching `name` by filename. */
  predicate FirstNameMatch(m: Metadata, name: string, i: int) {
    0 <= i < |m.rows| && NameMatches(m.rows[i], name) && forall j :: 0 <= j < i ==> !NameMatches(m.rows[j], name)
  }

  predicate NoIdMatch(m: Metadata, name: string) {
    forall i :: 0 <= i < |m.rows| ==> !IdMatches(m.rows[i], name)
  }

  predicate NoNameMatch(m: Metadata, name: string) {
    forall i :: 0 <= i < |m.rows| ==> !NameMatches(m.rows[i], name)
  }

  /** The first row matching `name` by id, if any. */
  function FindById(m: Metadata, name: string): (k: Option<nat>)
    ensures k.Some? ==> FirstIdMatch(m, name, k.value)
    ensures k.None? ==> NoIdMatch(m, name)
  {
    FirstWhere(m.rows, (row: MetaRow) => IdMatches(row, name))
  }

  /** The first row matching `name` by filename, if any. */
  function FindByName(m: Metadata, name: string): (k: Option<nat>)
    ensures k.Some? ==> FirstNameMatch(m, name, k.value)
    ensures k.None? ==> NoNameMatch(m, name)
  {
    FirstWhere(m.rows, (row: MetaRow) => NameMatches(row, name))
  }

  lemma FirstIdMatchUnique(m: Metadata, name: string, i: int)
    requires FirstIdMatch(m, name, i)
    ensures forall j :: FirstIdMatch(m, name, j) ==> j == i
  {
  }

  lemma FirstNameMatchUnique(m: Metadata, name: string, i: int)
    requires FirstNameMatch(m, name, i)
    ensures forall j :: FirstNameMatch(m, name, j) ==> j == i
  {
  }

  /**
   * The metadata of the text file `name`: the first row whose normalised id is
   * the normalised stem, else (when the table has a filename column) the first
   * row whose normalised filename is the normalised file name, else blanks.
   * Normalising a NaN filename raises TypeError.
   */
  function MatchMetadata(m: Metadata, name: string): (r: Result<MetaFields>)
    ensures forall i :: FirstIdMatch(m, name, i) ==> r == Fields(m.rows[i])
    ensures NoIdMatch(m, name) && !m.hasFilename ==> r == Ok(NoMeta)
    ensures NoIdMatch(m, name) && m.hasFilename ==> (r == Err(TypeError) <==> SomeNaNFilename(m))
    ensures r.Err? ==> r.error == TypeError || r.error == OverflowError
    ensures r == Err(TypeError) ==> NoIdMatch(m, name) && m.hasFilename && SomeNaNFilename(m)
    ensures r == Err(OverflowError) ==> exists i :: 0 <= i < |m.rows| && m.rows[i].year.Infinite?
    ensures NoIdMatch(m, name) && m.hasFilename && !SomeNaNFilename(m) ==>
      forall i :: FirstNameMatch(m, name, i) ==> r == Fields(m.rows[i])
    ensures NoIdMatch(m, name) && NoNameMatch(m, name) && !(m.hasFilename && SomeNaNFilename(m)) ==>
      r == Ok(NoMeta)
  {
    var byId := FindById(m, name);
    if byId.Some? then
      FirstIdMatchUnique(m, name, byId.value);
      Fields(m.rows[byId.value])
    else if !m.hasFilename then Ok(NoMeta)
    else if SomeNaNFilename(m) then Err(TypeError)
    else
      var byName := FindByName(m, name);
      if byName.Some? then
        FirstNameMatchUnique(m, name, byName.value);
        Fields(m.rows[byName.value])
      else Ok(NoMeta)
  }

  /**
   * A metadata row that names the text file `n.txt` and has no `document_id`
   * column gets `n` as its id, so `load_texts` finds it by id, before any
   * filename fallback.
   */
  lemma FilenameRowMatchesById(header: seq<string>, row: seq<Cell>, number: string -> Number, n: string)
    requires Column(header, "document_id").None? && Column(header, "filename").Some?
    requires Get(header, row, "filename", NaNCell) == Text(n + ".txt")
    requires n != "" && '/' !in n
    ensures DocumentIdCell(header, row, number) == Ok(Text(n))
    ensures MetaRowOf(header, row, number).Ok? && IdMatches(MetaRowOf(header, row, number).value, n + ".txt")
  {
    StemOfTxt(n);
  }

  /** A text file as the directory listing gives it: its name and its raw contents. */
  datatype TextFile = TextFile(name: string, raw: string)

  /** One row of the texts table. */
  datatype TextRow = TextRow(documentId: string, filename: string, meta: MetaFields, rawText: string, text: string)

  /** The row `load_texts` builds for one file. */
  function TextRowOf(f: TextFile, meta: Option<Metadata>): (r: Result<TextRow>)
    ensures r.Ok? ==> r.value.documentId == Stem(f.name) && r.value.filename == f.name
    ensures r.Ok? ==> r.value.rawText == f.raw && IsClean(r.value.text) && Words(r.value.text) == Words(f.raw)
    ensures r.Ok? && meta.None? ==> r.value.meta == NoMeta
    ensures meta.Some? ==> (r.Err? <==> MatchMetadata(meta.value, f.name).Err?)
    ensures r.Ok? && meta.Some? ==> Ok(r.value.meta) == MatchMetadata(meta.value, f.name)
    ensures r.Err? ==> meta.Some? && (r.error == TypeError || r.error == OverflowError)
  {
    var fields := if meta.Some? then MatchMetadata(meta.value, f.name) else Ok(NoMeta);
    if fields.Err? then Err(fields.error)
    else
      var text := CleanCell(Text(f.raw));
      Ok(TextRow(Stem(f.name), f.name, fields.value, f.raw, text))
  }

  /** The rows `load_texts` builds for a listing: one per file, in order. */
  function TextRows(files: seq<TextFile>, meta: Option<Metadata>): (r: Result<seq<TextRow>>)
    ensures r.Ok? ==> |r.value| == |files|
    ensures r.Ok? ==> forall i :: 0 <= i < |files| ==>
      r.value[i].documentId == Stem(files[i].name) && r.value[i].filename == files[i].name
      && r.value[i].rawText == files[i].raw && IsClean(r.value[i].text)
    ensures r.Ok? && meta.Some? ==> forall i :: 0 <= i < |files| ==> Ok(r.value[i].meta) == MatchMetadata(meta.value, files[i].name)
    ensures meta.Some? ==> (r.Ok? <==> forall i :: 0 <= i < |files| ==> MatchMetadata(meta.value, files[i].name).Ok?)
    ensures meta.None? ==> r.Ok?
    ensures r.Err? ==> meta.Some? && exists i :: 0 <= i < |files| && MatchMetadata(meta.value, files[i].name) == Err(r.error)
    ensures r.Err? ==> r.error == TypeError || r.error == OverflowError
  {
    var r := MapResult(files, RowOf(meta));
    assert forall f :: RowOf(meta)(f) == TextRowOf(f, meta);
    r
  }

  function RowOf(meta: Option<Metadata>): TextFile -> Result<TextRow> {
    f => TextRowOf(f, meta)
  }

  /** The metadata table, when there is a file and it loaded. */
  function Loaded(meta: Option<Result<Metadata>>): Option<Metadata> {
    if meta.Some? && meta.value.Ok? then Some(meta.value.value) else None
  }

  /**
   * `load_texts`: a missing directory raises, and so does a metadata file that
   * fails to load; then one row per `.txt` file. `files` is the listing as
   * `sorted(glob("*.txt"))` gives it: the names of one directory, strictly
   * increasing.
   */
  method LoadTexts(dirExists: bool, files: seq<TextFile>, meta: Option<Result<Metadata>>)
    returns (r: Result<seq<TextRow>>)
    requires forall i, j :: 0 <= i < j < |files| ==> StrLt(files[i].name, files[j].name)
    ensures !dirExists ==> r == Err(FileNotFound)
    ensures dirExists && meta.Some? && meta.value.Err? ==> r == Err(meta.value.error)
    ensures dirExists && (meta.None? || meta.value.Ok?) ==> r == TextRows(files, Loaded(meta))
    ensures r.Ok? ==> forall i, j :: 0 <= i < j < |r.value| ==> StrLt(r.value[i].filename, r.value[j].filename)
  {
    if !dirExists {
      return Err(FileNotFound);
    }
    if meta.Some? && meta.value.Err? {
      return Err(meta.value.error);
    }
    r := MapLoop(files, RowOf(Loaded(meta)));
  }
}
