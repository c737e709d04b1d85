/**
 * The metadata generator of scripts/generate_metadata_from_filenames.py: it
 * reads author, year and title off every text file named
 * `author_YYYY_title.txt` and writes them, one row per file, under the
 * header `author,year,title,source`.
 */
module MetadataScript {
  import opened Wrappers
  import opened Text
  import opened Sorting
  import opened Utils

  // ---------------------------------------------------------------- the file name pattern

  /**
   * The author characters of the pattern as written: ASCII letters and digits,
   * the apostrophe, '-', '.', and the three characters 'â', '€' and '™' --
   * the UTF-8 bytes of the typographic apostrophe U+2019 read as cp1252.
   */
  predicate AuthorCharAsWritten(c: char) {
    || 'A' <= c <= 'Z' || 'a' <= c <= 'z' || '0' <= c <= '9'
    || c == '\'' || c == '\U{e2}' || c == '\U{20ac}' || c == '\U{2122}' || c == '-' || c == '.'
  }

  /** The author characters the pattern is meant to allow: the class as written plus the typographic apostrophe U+2019. */
  predicate AuthorCharIntended(c: char) {
    AuthorCharAsWritten(c) || c == '\U{2019}'
  }

  /**
   * An author class of the shape the pattern relies on: it never allows '_',
   * which ends the author group, and holds no whitespace.
   */
  predicate AuthorClass(ok: char -> bool) {
    !ok('_') && forall c :: ok(c) ==> !IsSpace(c)
  }

  /** Both the written and the intended class have that shape. */
  lemma AuthorClasses()
    ensures AuthorClass(AuthorCharAsWritten) && AuthorClass(AuthorCharIntended)
  {
  }

  /** The length of the longest prefix of `s` made of characters `ok` allows. */
  function AuthorRun(s: string, ok: char -> bool): (k: nat)
    ensures k <= |s| && (forall i :: 0 <= i < k ==> ok(s[i])) && (k < |s| ==> !ok(s[k]))
    decreases |s|
  {
    if |s| > 0 && ok(s[0]) then
      var k := 1 + AuthorRun(s[1..], ok);
      assert forall i :: 1 <= i < |s| ==> s[i] == s[1..][i - 1];
      k
    else 0
  }

  predicate AllDigits(s: string) {
    forall i :: 0 <= i < |s| ==> IsDigit(s[i])
  }

  /**
   * What `(.+)$` takes from the end of a string: `.` never matches a newline,
   * and `$` also matches just before one final newline.
   */
  function TitleGroup(rest: string): (r: Option<string>)
    ensures r.Some? ==> |r.value| > 0 && '\n' !in r.value && (rest == r.value || rest == r.value + "\n")
  {
    var body := if |rest| > 0 && rest[|rest| - 1] == '\n' then rest[..|rest| - 1] else rest;
    assert |rest| > 0 && rest[|rest| - 1] == '\n' ==> rest == body + "\n";
    if |body| > 0 && '\n' !in body then Some(body) else None
  }

  datatype Entry = Entry(author: string, year: string, title: string, source: string)

  /**
   * The three groups of `^([class]+)_(\d{4})_(.+)$` for the author class `ok`,
   * which never allows '_', so the author group is the longest run of allowed
   * characters and must be followed by '_', four digits and '_'.
   */
  function Groups(stem: string, ok: char -> bool): (r: Option<(string, string, string)>)
    requires !ok('_')
    ensures r.Some? ==>
      && |r.value.0| > 0 && (forall i :: 0 <= i < |r.value.0| ==> ok(r.value.0[i]))
      && |r.value.1| == 4 && AllDigits(r.value.1)
  {
    var k := AuthorRun(stem, ok);
    if k == 0 || |stem| < k + 6 || stem[k] != '_' || !AllDigits(stem[k + 1..k + 5]) || stem[k + 5] != '_' then None
    else
      var t := TitleGroup(stem[k + 6..]);
      if t.None? then None else Some((stem[..k], stem[k + 1..k + 5], t.value))
  }

  /** `s.replace("_", " ").strip()` */
  function Tidy(s: string): string {
    Strip(ReplaceChar(s, '_', " "))
  }

  /**
   * `parse_filename`: the author and the title with underscores turned into
   * spaces and stripped, the year as its four digits, and no source.
   */
  function Parse(stem: string, ok: char -> bool): Option<Entry>
    requires !ok('_')
  {
    match Groups(stem, ok)
    case None => None
    case Some(g) => Some(Entry(Tidy(g.0), g.1, Tidy(g.2), ""))
  }

  /** `parse_filename` as written: the pattern of line 21. */
  function ParseFilename(stem: string): Option<Entry> {
    Parse(stem, AuthorCharAsWritten)
  }

  /** `parse_filename` with the intended pattern. */
  function ParseFilenameIntended(stem: string): Option<Entry> {
    Parse(stem, AuthorCharIntended)
  }

  /** A non-empty author made of the characters `ok` allows. */
  predicate AuthorText(a: string, ok: char -> bool) {
    |a| > 0 && forall i :: 0 <= i < |a| ==> ok(a[i])
  }

  lemma {:induction false} ReplaceCharAbsent(s: string, from: char, to: string)
    requires from !in s
    ensures ReplaceChar(s, from, to) == s
    decreases |s|
  {
    if |s| > 0 {
      ReplaceCharAbsent(s[1..], from, to);
      assert s == [s[0]] + s[1..];
    }
  }

  /** A tidied string has no underscore and no whitespace at either end. */
  lemma TidyMeaning(s: string)
    ensures '_' !in Tidy(s)
    ensures |Tidy(s)| == 0 || (!IsSpace(Tidy(s)[0]) && !IsSpace(Tidy(s)[|Tidy(s)| - 1]))
  {
    StripKeepsOut(ReplaceChar(s, '_', " "), '_');
  }

  /** A string without underscores and without whitespace at either end is already tidy. */
  lemma TidyKeeps(s: string)
    requires '_' !in s && (|s| == 0 || (!IsSpace(s[0]) && !IsSpace(s[|s| - 1])))
    ensures Tidy(s) == s
  {
    ReplaceCharAbsent(s, '_', " ");
    StripKeepsTrimmed(s);
  }

  /** An author is tidy already. */
  lemma AuthorUnchanged(a: string, ok: char -> bool)
    requires AuthorClass(ok) && AuthorText(a, ok)
    ensures Tidy(a) == a
  {
    assert '_' !in a by {
      forall i | 0 <= i < |a| ensures a[i] != '_' {
        assert ok(a[i]);
      }
    }
    assert ok(a[0]) && ok(a[|a| - 1]);
    TidyKeeps(a);
  }

  /**
   * For an author class of that shape, a stem made of an author, '_', four
   * digits, '_' and a rest parses exactly when the rest is a title the
   * pattern takes, and then gives back that author and year, and the title
   * with its underscores turned into spaces.
   */
  lemma ParseOfParts(a: string, y: string, raw: string, ok: char -> bool)
    requires AuthorClass(ok) && AuthorText(a, ok) && |y| == 4 && AllDigits(y)
    ensures Parse(a + "_" + y + "_" + raw, ok) ==
      match TitleGroup(raw)
      case None => None
      case Some(t) => Some(Entry(a, y, Tidy(t), ""))
  {
    var stem := a + "_" + y + "_" + raw;
    var k := |a|;
    assert stem[..k] == a;
    assert forall i :: 0 <= i < k ==> stem[i] == a[i];
    assert stem[k] == '_';
    assert AuthorRun(stem, ok) == k;
    assert stem[k + 1..k + 5] == y;
    assert stem[k + 5] == '_';
    assert stem[k + 6..] == raw;
    AuthorUnchanged(a, ok);
  }

  /**
   * Whatever parses has that form: a non-empty author of allowed characters,
   * '_', exactly four digits, '_', then a title without underscores and
   * without whitespace at either end.
   */
  lemma ParseShape(stem: string, ok: char -> bool)
    requires AuthorClass(ok)
    ensures var r := Parse(stem, ok);
      r.Some? ==>
        && AuthorText(r.value.author, ok) && |r.value.year| == 4 && AllDigits(r.value.year)
        && '_' !in r.value.title
        && (|r.value.title| == 0 || (!IsSpace(r.value.title[0]) && !IsSpace(r.value.title[|r.value.title| - 1])))
        && r.value.source == ""
  {
    var g := Groups(stem, ok);
    if g.Some? {
      AuthorUnchanged(g.value.0, ok);
      TidyMeaning(g.value.2);
    }
  }

  /** An author, a year and a clean title written as a file name parse back to themselves. */
  lemma ParseRoundTrip(a: string, y: string, title: string, ok: char -> bool)
    requires AuthorClass(ok) && AuthorText(a, ok) && |y| == 4 && AllDigits(y)
    requires |title| > 0 && '_' !in title && '\n' !in title && !IsSpace(title[0]) && !IsSpace(title[|title| - 1])
    ensures Parse(a + "_" + y + "_" + title, ok) == Some(Entry(a, y, title, ""))
  {
    assert TitleGroup(title) == Some(title) by {
      assert title[|title| - 1] != '\n';
    }
    assert Tidy(title) == title by {
      TidyKeeps(title);
    }
    ParseOfParts(a, y, title, ok);
  }

  /** The script as written reads an author with 'â' off a file name. */
  lemma CircumflexAuthorParses()
    ensures ParseFilename("C\U{e2}mara_1900_Travels") == Some(Entry("C\U{e2}mara", "1900", "Travels", ""))
  {
    var a, y, t := "C\U{e2}mara", "1900", "Travels";
    assert AuthorText(a, AuthorCharAsWritten) by {
      forall i | 0 <= i < |a| ensures AuthorCharAsWritten(a[i]) {
      }
    }
    assert AllDigits(y) by {
      forall i | 0 <= i < |y| ensures IsDigit(y[i]) {
      }
    }
    assert '_' !in t && '\n' !in t by {
      forall i | 0 <= i < |t| ensures t[i] != '_' && t[i] != '\n' {
      }
    }
    assert "C\U{e2}mara_1900_Travels" == a + "_" + y + "_" + t;
    AuthorClasses();
    ParseRoundTrip(a, y, t, AuthorCharAsWritten);
  }

  /** A file name whose author is spelled with the typographic apostrophe. */
  const ApostropheStem := "O\U{2019}Brien_1900_Travels"

  /** As written, the pattern refuses an author spelled with the typographic apostrophe. */
  lemma TypographicApostropheRefused()
    ensures ParseFilename(ApostropheStem) == None
  {
    var s := ApostropheStem;
    assert !AuthorCharAsWritten(s[1]);
    assert AuthorRun(s[1..], AuthorCharAsWritten) == 0;
    assert AuthorRun(s, AuthorCharAsWritten) == 1;
    assert s[1] != '_';
  }

  /** The intended class accepts that author, and the name parses back to its parts. */
  lemma TypographicApostropheAccepted()
    ensures ParseFilenameIntended(ApostropheStem) == Some(Entry("O\U{2019}Brien", "1900", "Travels", ""))
  {
    var a, y, t := "O\U{2019}Brien", "1900", "Travels";
    assert AuthorText(a, AuthorCharIntended) by {
      forall i | 0 <= i < |a| ensures AuthorCharIntended(a[i]) {
      }
    }
    assert AllDigits(y) by {
      forall i | 0 <= i < |y| ensures IsDigit(y[i]) {
      }
    }
    assert '_' !in t && '\n' !in t by {
      forall i | 0 <= i < |t| ensures t[i] != '_' && t[i] != '\n' {
      }
    }
    assert ApostropheStem == a + "_" + y + "_" + t;
    AuthorClasses();
    ParseRoundTrip(a, y, t, AuthorCharIntended);
  }

  /** The intended class only adds to the written one: whatever the script parses, it parses the same way. */
  lemma IntendedExtendsAsWritten(stem: string)
    ensures ParseFilename(stem).Some? ==> ParseFilenameIntended(stem) == ParseFilename(stem)
  {
    var g := Groups(stem, AuthorCharAsWritten);
    if g.Some? {
      var k := AuthorRun(stem, AuthorCharAsWritten);
      assert k < |stem| && stem[k] == '_';
      AuthorRunSame(stem, k);
      assert Groups(stem, AuthorCharIntended) == g;
    }
  }

  lemma {:induction false} AuthorRunSame(stem: string, k: nat)
    requires k < |stem| && stem[k] == '_' && forall i :: 0 <= i < k ==> AuthorCharAsWritten(stem[i])
    ensures AuthorRun(stem, AuthorCharIntended) == k && AuthorRun(stem, AuthorCharAsWritten) == k
    decreases k
  {
    if k > 0 {
      AuthorRunSame(stem[1..], k - 1);
    }
  }

  // ---------------------------------------------------------------- rows and the written file

  /** `MetadataEntry.to_csv_row` */
  function ToCsvRow(e: Entry): (row: seq<string>)
    ensures |row| == 4
  {
    [e.author, e.year, e.title, e.source]
  }

  function FromCsvRow(row: seq<string>): Entry
    requires |row| == 4
  {
    Entry(row[0], row[1], row[2], row[3])
  }

  const Header: seq<string> := ["author", "year", "title", "source"]

  /** `write_metadata`: the header, then one row per entry, in order. */
  method WriteMetadata(entries: seq<Entry>) returns (rows: seq<seq<string>>)
    ensures |rows| == |entries| + 1 && rows[0] == Header
    ensures forall i :: 0 <= i < |entries| ==> rows[i + 1] == ToCsvRow(entries[i])
  {
    rows := [Header];
    for i := 0 to |entries|
      invariant |rows| == i + 1 && rows[0] == Header
      invariant forall j :: 0 <= j < i ==> rows[j + 1] == ToCsvRow(entries[j])
    {
      rows := rows + [ToCsvRow(entries[i])];
    }
  }

  /** Reading the rows after the header gives the entries back. */
  lemma WrittenRowsReadBack(entries: seq<Entry>, rows: seq<seq<string>>)
    requires |rows| == |entries| + 1
    requires forall i :: 0 <= i < |entries| ==> rows[i + 1] == ToCsvRow(entries[i])
    ensures forall i :: 0 <= i < |entries| ==> |rows[i + 1]| == 4 && FromCsvRow(rows[i + 1]) == entries[i]
  {
  }

  // ---------------------------------------------------------------- main

  /** The values `f` gives for the items of `xs`, skipping the items it gives nothing for, in order. */
  function Collect<A, B>(xs: seq<A>, f: A -> Option<B>): seq<B>
    decreases |xs|
  {
    if |xs| == 0 then []
    else
      var n := |xs| - 1;
      var e := f(xs[n]);
      Collect(xs[..n], f) + (if e.Some? then [e.value] else [])
  }

  /** A value is collected exactly when `f` gives it for some item; there are no more values than items. */
  lemma {:induction false} CollectMeaning<A, B>(xs: seq<A>, f: A -> Option<B>)
    ensures forall e :: e in Collect(xs, f) <==> exists i :: 0 <= i < |xs| && f(xs[i]) == Some(e)
    ensures |Collect(xs, f)| <= |xs|
    decreases |xs|
  {
    if |xs| > 0 {
      var n := |xs| - 1;
      CollectMeaning(xs[..n], f);
      forall e ensures e in Collect(xs, f) <==> exists i :: 0 <= i < |xs| && f(xs[i]) == Some(e) {
        if e in Collect(xs[..n], f) {
          var i :| 0 <= i < n && f(xs[..n][i]) == Some(e);
          assert xs[i] == xs[..n][i];
        }
        if exists i :: 0 <= i < |xs| && f(xs[i]) == Some(e) {
          var i :| 0 <= i < |xs| && f(xs[i]) == Some(e);
          if i < n {
            assert xs[..n][i] == xs[i];
          }
        }
      }
    }
  }

  /** Collecting one more item appends its value, if it has one. */
  lemma CollectStep<A, B>(xs: seq<A>, i: nat, f: A -> Option<B>)
    requires i < |xs|
    ensures Collect(xs[..i + 1], f) == Collect(xs[..i], f) + (if f(xs[i]).Some? then [f(xs[i]).value] else [])
  {
    assert xs[..i + 1][..i] == xs[..i];
  }

  /** The entry of a `.txt` file name, if its stem parses. */
  function EntryOfName(name: string): Option<Entry> {
    ParseFilename(Stem(name))
  }

  /** The entries of the parsable stems among `names`, in order. */
  function Entries(names: seq<string>): seq<Entry> {
    Collect(names, EntryOfName)
  }

  /**
   * `main`: a missing text directory is an error; otherwise the `.txt` names,
   * sorted, are parsed in order, and the file is written only when some entry
   * was collected. `txtNames` are the names the directory listing yields.
   */
  method GenerateMetadata(dirExists: bool, txtNames: seq<string>) returns (r: Result<Option<seq<seq<string>>>>)
    ensures !dirExists ==> r == Err(FileNotFound)
    ensures dirExists ==> r.Ok? && (r.value.None? <==> |Entries(SortedUnique(txtNames))| == 0)
    ensures dirExists && r.value.Some? ==>
      var entries := Entries(SortedUnique(txtNames));
      && |r.value.value| == |entries| + 1 && r.value.value[0] == Header
      && forall i :: 0 <= i < |entries| ==> r.value.value[i + 1] == ToCsvRow(entries[i])
  {
    if !dirExists {
      return Err(FileNotFound);
    }
    var names := SortedUnique(txtNames);
    var entries: seq<Entry> := [];
    for i := 0 to |names|
      invariant entries == Entries(names[..i])
    {
      var entry := ParseFilename(Stem(names[i]));
      CollectStep(names, i, EntryOfName);
      if entry.Some? {
        entries := entries + [entry.value];
      }
    }
    assert names[..|names|] == names;
    if |entries| == 0 {
      return Ok(None);
    }
    var rows := WriteMetadata(entries);
    r := Ok(Some(rows));
  }
}
