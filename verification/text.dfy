/**
 * String primitives with Python's meaning: whitespace as `str.isspace` (which
 * is also what `\s` matches in a `str` regex), `strip`, `split()`, `join`,
 * `lower` and substring containment, and the decimal rendering of integers.
 */
module Text {

  /**
   * Python's `str.isspace` for one character: U+0009-U+000D, U+001C-U+001F,
   * space, U+0085, U+00A0, U+1680, U+2000-U+200A, U+2028, U+2029, U+202F,
   * U+205F and U+3000.
   */
  predicate IsSpace(c: char) {
    if c < '\U{80}' then c == ' ' || '\t' <= c <= '\r' || '\U{1c}' <= c <= '\U{1f}'
    else if c < '\U{2000}' then c == '\U{85}' || c == '\U{a0}' || c == '\U{1680}'
    else c <= '\U{200a}' || c == '\U{2028}' || c == '\U{2029}' || c == '\U{202f}' || c == '\U{205f}' || c == '\U{3000}'
  }

  /** A non-empty run of characters none of which is whitespace. */
  predicate IsWord(w: string) {
    |w| > 0 && forall i :: 0 <= i < |w| ==> !IsSpace(w[i])
  }

  predicate NoSpace(s: string) {
    forall i :: 0 <= i < |s| ==> !IsSpace(s[i])
  }

  predicate AllSpace(s: string) {
    forall i :: 0 <= i < |s| ==> IsSpace(s[i])
  }

  /**
   * `str.lower` on one character, for the ASCII, Latin-1 and basic Cyrillic
   * capitals (U+0041-U+005A, U+00C0-U+00DE but not U+00D7, U+0400-U+042F).
   */
  function LowerChar(c: char): char {
    if 'A' <= c <= 'Z' || ('\U{c0}' <= c <= '\U{de}' && c != '\U{d7}') || '\U{410}' <= c <= '\U{42f}' then
      (c as int + 32) as char
    else if '\U{400}' <= c <= '\U{40f}' then
      (c as int + 80) as char
    else c
  }

  /** `str.lower`, one character at a time (see LowerChar for the letters covered). */
  function Lower(s: string): (r: string)
    ensures |r| == |s|
    ensures forall i :: 0 <= i < |s| ==> r[i] == LowerChar(s[i])
  {
    seq(|s|, i requires 0 <= i < |s| => LowerChar(s[i]))
  }

  /** No capital that LowerChar would change. */
  predicate IsLower(s: string) {
    forall i :: 0 <= i < |s| ==> LowerChar(s[i]) == s[i]
  }

  lemma LowerIsLower(s: string)
    ensures IsLower(Lower(s)) && Lower(Lower(s)) == Lower(s)
  {
  }

  /** Lower-casing keeps a string's ends non-space. */
  lemma LowerEdges(s: string)
    requires |s| > 0 && !IsSpace(s[0]) && !IsSpace(s[|s| - 1])
    ensures !IsSpace(Lower(s)[0]) && !IsSpace(Lower(s)[|s| - 1])
  {
    LowerCharKeepsSpace(s[0]);
    LowerCharKeepsSpace(s[|s| - 1]);
  }

  lemma LowerCharKeepsSpace(c: char)
    ensures IsSpace(LowerChar(c)) <==> IsSpace(c)
  {
  }

  lemma LowerKeepsSpaces(s: string)
    ensures forall i :: 0 <= i < |s| ==> (IsSpace(Lower(s)[i]) <==> IsSpace(s[i]))
  {
  }

  /** A word lower-cased is still a word, and a lower-case one. */
  lemma LowerWord(w: string)
    requires IsWord(w)
    ensures IsWord(Lower(w)) && IsLower(Lower(w))
  {
    LowerIsLower(w);
    forall i | 0 <= i < |w|
      ensures !IsSpace(Lower(w)[i])
    {
      LowerCharKeepsSpace(w[i]);
    }
  }

  // ---------------------------------------------------------------- strip

  function TrimStart(s: string): (r: string)
    ensures |r| <= |s| && r == s[|s| - |r|..]
    ensures |r| > 0 ==> !IsSpace(r[0])
    ensures AllSpace(s[..|s| - |r|])
    decreases |s|
  {
    if |s| > 0 && IsSpace(s[0]) then TrimStart(s[1..]) else s
  }

  function TrimEnd(s: string): (r: string)
    ensures |r| <= |s| && r == s[..|r|]
    ensures |r| > 0 ==> !IsSpace(r[|r| - 1])
    ensures AllSpace(s[|r|..])
    decreases |s|
  {
    if |s| > 0 && IsSpace(s[|s| - 1]) then TrimEnd(s[..|s| - 1]) else s
  }

  /** `str.strip()` with no argument. */
  function Strip(s: string): (r: string)
    ensures |r| == 0 || (!IsSpace(r[0]) && !IsSpace(r[|r| - 1]))
  {
    TrimEnd(TrimStart(s))
  }

  lemma {:induction false} TrimStartEdge(a: string, t: string)
    requires AllSpace(a)
    requires |t| == 0 || !IsSpace(t[0])
    ensures TrimStart(a + t) == t
    decreases |a|
  {
    if |a| > 0 {
      assert (a + t)[1..] == a[1..] + t;
      TrimStartEdge(a[1..], t);
    } else {
      assert a + t == t;
    }
  }

  lemma {:induction false} TrimEndEdge(t: string, b: string)
    requires AllSpace(b)
    requires |t| == 0 || !IsSpace(t[|t| - 1])
    ensures TrimEnd(t + b) == t
    decreases |b|
  {
    if |b| > 0 {
      assert (t + b)[..|t + b| - 1] == t + b[..|b| - 1];
      TrimEndEdge(t, b[..|b| - 1]);
    } else {
      assert t + b == t;
    }
  }

  /** Stripping removes exactly the whitespace framing a string whose ends are not whitespace. */
  lemma StripFramed(a: string, t: string, b: string)
    requires AllSpace(a) && AllSpace(b)
    requires |t| > 0 && !IsSpace(t[0]) && !IsSpace(t[|t| - 1])
    ensures Strip(a + t + b) == t
  {
    assert a + t + b == a + (t + b);
    TrimStartEdge(a, t + b);
    TrimEndEdge(t, b);
  }

  lemma StripAllSpace(a: string)
    requires AllSpace(a)
    ensures Strip(a) == ""
  {
    assert a + "" == a;
    TrimStartEdge(a, "");
  }

  /** A string whose ends are not whitespace is its own strip. */
  /** Stripping only removes characters. */
  lemma StripKeepsOut(s: string, c: char)
    requires c !in s
    ensures c !in Strip(s)
  {
    var t := TrimStart(s);
    forall i | 0 <= i < |t| ensures t[i] != c {
      assert t[i] == s[|s| - |t| + i];
    }
    var r := TrimEnd(t);
    forall i | 0 <= i < |r| ensures r[i] != c {
      assert r[i] == t[i];
    }
  }

  lemma StripKeepsTrimmed(t: string)
    requires |t| == 0 || (!IsSpace(t[0]) && !IsSpace(t[|t| - 1]))
    ensures Strip(t) == t
  {
    if |t| > 0 {
      assert "" + t + "" == t;
      StripFramed("", t, "");
    }
  }

  // ---------------------------------------------------------------- split

  /** The longest prefix of `s` that holds no whitespace. */
  function Run(s: string): (w: string)
    ensures |w| <= |s| && w == s[..|w|] && NoSpace(w)
    ensures |w| < |s| ==> IsSpace(s[|w|])
    ensures |s| > 0 && !IsSpace(s[0]) ==> |w| > 0
    decreases |s|
  {
    if |s| == 0 || IsSpace(s[0]) then [] else [s[0]] + Run(s[1..])
  }

  /** `str.split()` with no argument: the maximal runs of non-whitespace characters. */
  function Words(s: string): (ws: seq<string>)
    ensures forall i :: 0 <= i < |ws| ==> IsWord(ws[i])
    decreases |s|
  {
    if |s| == 0 then []
    else if IsSpace(s[0]) then Words(s[1..])
    else
      var w := Run(s);
      [w] + Words(s[|w|..])
  }

  /** `sep.join(xs)`. */
  function Join(sep: string, xs: seq<string>): string {
    if |xs| == 0 then "" else if |xs| == 1 then xs[0] else xs[0] + sep + Join(sep, xs[1..])
  }

  lemma {:induction false} JoinAppend(sep: string, xs: seq<string>, x: string)
    requires |xs| > 0
    ensures Join(sep, xs + [x]) == Join(sep, xs) + sep + x
    decreases |xs|
  {
    if |xs| == 1 {
      assert xs + [x] == [xs[0], x];
    } else {
      assert (xs + [x])[1..] == xs[1..] + [x];
      JoinAppend(sep, xs[1..], x);
    }
  }

  lemma {:induction false} JoinConcat(sep: string, xs: seq<string>, ys: seq<string>)
    requires |xs| > 0 && |ys| > 0
    ensures Join(sep, xs + ys) == Join(sep, xs) + sep + Join(sep, ys)
    decreases |xs|
  {
    if |xs| == 1 {
      assert (xs + ys)[1..] == ys;
    } else {
      assert (xs + ys)[1..] == xs[1..] + ys;
      JoinConcat(sep, xs[1..], ys);
    }
  }

  /** A character found in neither the separator nor any piece is not in the join. */
  lemma {:induction false} JoinAvoids(c: char, sep: string, xs: seq<string>)
    requires c !in sep && forall i :: 0 <= i < |xs| ==> c !in xs[i]
    ensures c !in Join(sep, xs)
    decreases |xs|
  {
    if |xs| > 1 {
      JoinAvoids(c, sep, xs[1..]);
    }
  }

  lemma JoinEmpty(sep: string, xs: seq<string>)
    requires |sep| > 0
    ensures Join(sep, xs) == "" <==> (|xs| == 0 || (|xs| == 1 && xs[0] == ""))
  {
    if |xs| > 1 {
      assert |Join(sep, xs)| >= |sep|;
    }
  }

  /** A join of words with one space starts and ends with a word character. */
  lemma {:induction false} JoinWordsEdges(ws: seq<string>)
    requires |ws| > 0 && forall i :: 0 <= i < |ws| ==> IsWord(ws[i])
    ensures var j := Join(" ", ws); |j| > 0 && !IsSpace(j[0]) && !IsSpace(j[|j| - 1])
    decreases |ws|
  {
    assert IsWord(ws[0]);
    if |ws| > 1 {
      JoinWordsEdges(ws[1..]);
    }
  }

  lemma {:induction false} RunOfWord(w: string, t: string)
    requires IsWord(w) && (|t| == 0 || IsSpace(t[0]))
    ensures Run(w + t) == w
    decreases |w|
  {
    assert !IsSpace(w[0]);
    if |w| > 1 {
      assert (w + t)[1..] == w[1..] + t;
      RunOfWord(w[1..], t);
    } else {
      assert (w + t)[1..] == t;
    }
  }

  /** Splitting a single-space join of words gives the words back. */
  lemma {:induction false} WordsOfJoin(ws: seq<string>)
    requires forall i :: 0 <= i < |ws| ==> IsWord(ws[i])
    ensures Words(Join(" ", ws)) == ws
    decreases |ws|
  {
    if |ws| == 1 {
      var w := ws[0];
      RunOfWord(w, "");
      assert w + "" == w;
      assert w[|w|..] == "";
    } else if |ws| > 1 {
      var w, rest := ws[0], Join(" ", ws[1..]);
      JoinWordsEdges(ws[1..]);
      var s := w + " " + rest;
      assert s == w + (" " + rest);
      RunOfWord(w, " " + rest);
      assert s[|w|..] == " " + rest;
      assert (" " + rest)[1..] == rest;
      WordsOfJoin(ws[1..]);
    }
  }

  /** `s.split(sep)` for a one-character separator: never empty, `"".split(sep) == [""]`. */
  function Split(sep: char, s: string): (r: seq<string>)
    ensures |r| > 0
    decreases |s|
  {
    if |s| == 0 then [""]
    else
      var rest := Split(sep, s[1..]);
      if s[0] == sep then [""] + rest else [[s[0]] + rest[0]] + rest[1..]
  }

  /** Joining the pieces of a split with the separator gives the string back. */
  lemma {:induction false} JoinOfSplit(sep: char, s: string)
    ensures Join([sep], Split(sep, s)) == s
    decreases |s|
  {
    if |s| > 0 {
      var rest := Split(sep, s[1..]);
      JoinOfSplit(sep, s[1..]);
      assert s == [s[0]] + s[1..];
      if s[0] != sep && |rest| > 1 {
        assert ([[s[0]] + rest[0]] + rest[1..])[1..] == rest[1..];
      }
    }
  }

  lemma {:induction false} SplitOfPiece(sep: char, w: string, t: string)
    requires sep !in w
    ensures Split(sep, w + t) == [w + Split(sep, t)[0]] + Split(sep, t)[1..]
    decreases |w|
  {
    if |w| > 0 {
      assert (w + t)[1..] == w[1..] + t;
      SplitOfPiece(sep, w[1..], t);
      assert [w[0]] + (w[1..] + Split(sep, t)[0]) == w + Split(sep, t)[0];
    } else {
      var r := Split(sep, t);
      assert w + t == t && w + r[0] == r[0];
      assert r == [r[0]] + r[1..];
    }
  }

  /** Splitting a join gives the pieces back when no piece holds the separator. */
  lemma {:induction false} SplitOfJoin(sep: char, xs: seq<string>)
    requires |xs| > 0 && forall i :: 0 <= i < |xs| ==> sep !in xs[i]
    ensures Split(sep, Join([sep], xs)) == xs
    decreases |xs|
  {
    if |xs| == 1 {
      SplitOfPiece(sep, xs[0], "");
      assert xs[0] + "" == xs[0];
    } else {
      var rest := Join([sep], xs[1..]);
      SplitOfJoin(sep, xs[1..]);
      assert xs[0] + [sep] + rest == xs[0] + ([sep] + rest);
      SplitOfPiece(sep, xs[0], [sep] + rest);
      assert ([sep] + rest)[1..] == rest;
      assert Split(sep, [sep] + rest) == [""] + xs[1..];
      assert xs[0] + "" == xs[0];
      assert xs == [xs[0]] + xs[1..];
    }
  }

  // ---------------------------------------------------------------- clean_text

  /** `re.sub(r"\s+", " ", s)`: every maximal whitespace run becomes one space. */
  function Collapse(s: string): string
    decreases |s|
  {
    if |s| == 0 then ""
    else if IsSpace(s[0]) then " " + Collapse(TrimStart(s))
    else [s[0]] + Collapse(s[1..])
  }

  /** `clean_text` on a string (src/utils.py:51-54): collapse whitespace runs, then strip. */
  function CleanText(s: string): string {
    Strip(Collapse(s))
  }

  /** One space when `s` ends in whitespace, else nothing. */
  function Trail(s: string): string {
    if |s| > 0 && IsSpace(s[|s| - 1]) then " " else ""
  }

  lemma {:induction false} CollapseWord(s: string)
    requires |s| > 0 && !IsSpace(s[0])
    ensures Collapse(s) == Run(s) + Collapse(s[|Run(s)|..])
    decreases |s|
  {
    var c, t := s[0], s[1..];
    assert Collapse(s) == [c] + Collapse(t);
    if |t| > 0 && !IsSpace(t[0]) {
      CollapseWord(t);
      var w := Run(t);
      assert Run(s) == [c] + w;
      assert t[|w|..] == s[|Run(s)|..];
      Reassociate3([c], w, Collapse(t[|w|..]));
    } else {
      assert Run(s) == [c];
    }
  }

  lemma {:induction false} WordsSkipAll(s: string)
    ensures Words(s) == Words(TrimStart(s))
    decreases |s|
  {
    if |s| > 0 && IsSpace(s[0]) {
      WordsSkipAll(s[1..]);
    }
  }

  lemma WordsOfWordStart(s: string)
    requires |s| > 0 && !IsSpace(s[0])
    ensures Words(s) == [Run(s)] + Words(s[|Run(s)|..])
  {
  }

  lemma TrailOfSuffix(s: string, k: nat)
    requires k < |s|
    ensures Trail(s[k..]) == Trail(s)
  {
    assert s[k..][|s[k..]| - 1] == s[|s| - 1];
  }

  /** A non-empty run of whitespace collapses to one space and holds no word. */
  lemma OnlySpaces(rest: string)
    requires |rest| > 0 && IsSpace(rest[0]) && |TrimStart(rest)| == 0
    ensures Collapse(rest) == " " && Words(rest) == [] && Trail(rest) == " "
  {
    assert Collapse(rest) == " " + Collapse(TrimStart(rest));
    WordsSkipAll(rest);
    assert AllSpace(rest[..|rest|]);
    assert rest[..|rest|][|rest| - 1] == rest[|rest| - 1];
  }

  /** A word followed by nothing but whitespace. */
  lemma WordThenSpaces(s: string)
    requires |s| > 0 && !IsSpace(s[0]) && |Run(s)| < |s|
    requires |TrimStart(s[|Run(s)|..])| == 0
    ensures Collapse(s) == Run(s) + " " && Words(s) == [Run(s)] && Trail(s) == " "
  {
    var rest := s[|Run(s)|..];
    CollapseWord(s);
    WordsOfWordStart(s);
    OnlySpaces(rest);
    TrailOfSuffix(s, |Run(s)|);
  }

  /** A word, a whitespace run, and a remainder `t` that starts with a word. */
  lemma WordThenGap(s: string)
    requires |s| > 0 && !IsSpace(s[0]) && |Run(s)| < |s|
    requires |TrimStart(s[|Run(s)|..])| > 0
    ensures var t := TrimStart(s[|Run(s)|..]);
      && Collapse(s) == Run(s) + " " + Collapse(t)
      && Words(s) == [Run(s)] + Words(t)
      && Trail(s) == Trail(t)
      && |t| < |s| && !IsSpace(t[0])
      && |Words(t)| > 0
  {
    WordThenGapCollapse(s);
    WordThenGapWords(s);
    var rest := s[|Run(s)|..];
    TrailOfSuffix(s, |Run(s)|);
    TrailOfSuffix(rest, |rest| - |TrimStart(rest)|);
  }

  lemma WordThenGapCollapse(s: string)
    requires |s| > 0 && !IsSpace(s[0]) && |Run(s)| < |s|
    ensures Collapse(s) == Run(s) + " " + Collapse(TrimStart(s[|Run(s)|..]))
  {
    var w := Run(s);
    var rest := s[|w|..];
    CollapseWord(s);
    assert Collapse(rest) == " " + Collapse(TrimStart(rest));
    Reassociate3(w, " ", Collapse(TrimStart(rest)));
  }

  lemma WordThenGapWords(s: string)
    requires |s| > 0 && !IsSpace(s[0]) && |Run(s)| < |s|
    requires |TrimStart(s[|Run(s)|..])| > 0
    ensures Words(s) == [Run(s)] + Words(TrimStart(s[|Run(s)|..]))
    ensures |Words(TrimStart(s[|Run(s)|..]))| > 0
  {
    var rest := s[|Run(s)|..];
    WordsOfWordStart(s);
    WordsSkipAll(rest);
    WordsOfWordStart(TrimStart(rest));
  }

  lemma Reassociate3(a: string, b: string, c: string)
    ensures a + (b + c) == a + b + c
  {
  }

  lemma Reassociate(a: string, b: string, c: string, d: string)
    ensures a + b + (c + d) == (a + b + c) + d
  {
  }

  /**
   * On a string that starts with a non-space, collapsing gives the single-space
   * join of its words, followed by one space exactly when it ends in whitespace.
   */
  lemma {:induction false} CollapseAsJoin(s: string)
    requires |s| > 0 && !IsSpace(s[0])
    ensures Collapse(s) == Join(" ", Words(s)) + Trail(s)
    decreases |s|
  {
    var w := Run(s);
    if |w| == |s| {
      CollapseWord(s);
      WordsOfWordStart(s);
      assert s == w;
    } else if |TrimStart(s[|w|..])| == 0 {
      WordThenSpaces(s);
    } else {
      var t := TrimStart(s[|w|..]);
      WordThenGap(s);
      CollapseAsJoin(t);
      JoinConcat(" ", [w], Words(t));
      assert Join(" ", [w]) == w;
      Reassociate(w, " ", Join(" ", Words(t)), Trail(t));
    }
  }

  lemma CleanFromWordStart(s: string)
    requires |s| > 0 && !IsSpace(s[0])
    ensures CleanText(s) == Join(" ", Words(s))
  {
    var ws := Words(s);
    CollapseAsJoin(s);
    WordsOfWordStart(s);
    assert |ws| > 0;
    TrailIsSpace(s);
    StripJoinTrail(ws, Trail(s));
  }

  lemma TrailIsSpace(s: string)
    ensures AllSpace(Trail(s))
  {
  }

  lemma StripJoinTrail(ws: seq<string>, tail: string)
    requires |ws| > 0 && forall i :: 0 <= i < |ws| ==> IsWord(ws[i])
    requires AllSpace(tail)
    ensures Strip(Join(" ", ws) + tail) == Join(" ", ws)
  {
    JoinWordsEdges(ws);
    StripTrailing(Join(" ", ws), tail);
  }

  /** Stripping a string that starts with a non-space removes exactly its trailing whitespace. */
  lemma StripTrailing(t: string, b: string)
    requires |t| > 0 && !IsSpace(t[0]) && !IsSpace(t[|t| - 1])
    requires AllSpace(b)
    ensures Strip(t + b) == t
  {
    assert (t + b)[0] == t[0];
    assert TrimStart(t + b) == t + b;
    TrimEndEdge(t, b);
  }

  /** A string of whitespace only cleans to the empty string and has no words. */
  lemma CleanAllSpace(s: string)
    requires |s| > 0 && IsSpace(s[0]) && |TrimStart(s)| == 0
    ensures CleanText(s) == "" && Words(s) == []
  {
    OnlySpaces(s);
    StripAllSpace(" ");
  }

  lemma CollapseSpaceThenWord(s: string)
    requires |s| > 0 && IsSpace(s[0]) && |TrimStart(s)| > 0
    ensures Collapse(s) == " " + Join(" ", Words(s)) + Trail(TrimStart(s))
    ensures |Words(s)| > 0
  {
    var t := TrimStart(s);
    WordsSkipAll(s);
    assert Collapse(s) == " " + Collapse(t);
    CollapseAsJoin(t);
    WordsOfWordStart(t);
    Reassociate3(" ", Join(" ", Words(t)), Trail(t));
  }

  /** Leading whitespace, then a word. */
  lemma CleanSpaceThenWord(s: string)
    requires |s| > 0 && IsSpace(s[0]) && |TrimStart(s)| > 0
    ensures CleanText(s) == Join(" ", Words(s))
  {
    var t := TrimStart(s);
    CollapseSpaceThenWord(s);
    JoinWordsEdges(Words(s));
    StripFramed(" ", Join(" ", Words(s)), Trail(t));
  }

  /** clean_text is the single-space join of the words of its input. */
  lemma CleanTextIsJoinOfWords(s: string)
    ensures CleanText(s) == Join(" ", Words(s))
  {
    if |s| > 0 && !IsSpace(s[0]) {
      CleanFromWordStart(s);
    } else if |s| > 0 && |TrimStart(s)| == 0 {
      CleanAllSpace(s);
    } else if |s| > 0 {
      CleanSpaceThenWord(s);
    }
  }

  /**
   * A cleaned string: no whitespace at either end, and every whitespace
   * character inside it is a single ' ' between two non-space characters.
   */
  predicate IsClean(s: string) {
    (|s| == 0 || (!IsSpace(s[0]) && !IsSpace(s[|s| - 1])))
    && forall i :: 0 <= i < |s| && IsSpace(s[i]) ==>
         s[i] == ' ' && 0 < i < |s| - 1 && !IsSpace(s[i - 1]) && !IsSpace(s[i + 1])
  }

  lemma {:induction false} JoinOfWordsIsClean(ws: seq<string>)
    requires forall i :: 0 <= i < |ws| ==> IsWord(ws[i])
    ensures IsClean(Join(" ", ws))
    decreases |ws|
  {
    if |ws| > 1 {
      JoinOfWordsIsClean(ws[1..]);
      JoinWordsEdges(ws[1..]);
      var w, rest := ws[0], Join(" ", ws[1..]);
      assert IsWord(w);
      var s := w + " " + rest;
      assert forall k :: 0 <= k < |w| ==> s[k] == w[k];
      assert forall k :: |w| < k < |s| ==> s[k] == rest[k - |w| - 1];
    } else if |ws| == 1 {
      assert IsWord(ws[0]);
    }
  }

  /** The shape src/utils.py:51-54 promises, and the idempotence of clean_text. */
  lemma CleanTextProperties(s: string)
    ensures IsClean(CleanText(s))
    ensures CleanText(CleanText(s)) == CleanText(s)
    ensures Words(CleanText(s)) == Words(s)
  {
    CleanTextIsJoinOfWords(s);
    JoinOfWordsIsClean(Words(s));
    WordsOfJoin(Words(s));
    CleanTextIsJoinOfWords(CleanText(s));
  }

  // ---------------------------------------------------------------- substrings, replace

  predicate IsPrefix(pre: string, s: string) {
    |pre| <= |s| && s[..|pre|] == pre
  }

  /** Python's `needle in hay` for strings. */
  predicate Contains(hay: string, needle: string)
    decreases |hay|
  {
    IsPrefix(needle, hay) || (|hay| > 0 && Contains(hay[1..], needle))
  }

  lemma {:induction false} ContainsNoLonger(hay: string, needle: string)
    requires Contains(hay, needle)
    ensures |needle| <= |hay|
    decreases |hay|
  {
    if !IsPrefix(needle, hay) {
      ContainsNoLonger(hay[1..], needle);
    }
  }

  /** `s.replace(old, new)` for a one-character `old`. */
  function ReplaceChar(s: string, from: char, to: string): (r: string)
    ensures from !in to ==> from !in r
    ensures |to| == 0 ==> |r| <= |s|
  {
    if |s| == 0 then "" else (if s[0] == from then to else [s[0]]) + ReplaceChar(s[1..], from, to)
  }

  // ---------------------------------------------------------------- integers

  function DigitChar(d: nat): char
    requires d < 10
  {
    ('0' as int + d) as char
  }

  predicate IsDigit(c: char) {
    '0' <= c <= '9'
  }

  /** `str(n)` for a non-negative integer. */
  function NatToString(n: nat): (r: string)
    ensures |r| > 0 && forall i :: 0 <= i < |r| ==> IsDigit(r[i])
    decreases n
  {
    if n < 10 then [DigitChar(n)] else NatToString(n / 10) + [DigitChar(n % 10)]
  }

  /** `str(i)` for any integer. */
  function IntToString(i: int): (r: string)
    ensures |r| > 0 && forall k :: 0 <= k < |r| ==> r[k] == '-' || IsDigit(r[k])
  {
    if i < 0 then "-" + NatToString(-i) else NatToString(i)
  }

  function DigitValue(c: char): nat
    requires IsDigit(c)
  {
    c as int - '0' as int
  }

  /** `int(s)` for a string of decimal digits (the empty string reads as 0). */
  function ParseNat(s: string): nat
    requires forall i :: 0 <= i < |s| ==> IsDigit(s[i])
    decreases |s|
  {
    if |s| == 0 then 0 else ParseNat(s[..|s| - 1]) * 10 + DigitValue(s[|s| - 1])
  }

  /** Reading back the decimal rendering of `n` gives `n`. */
  lemma {:induction false} ParseNatString(n: nat)
    ensures ParseNat(NatToString(n)) == n
    decreases n
  {
    if n >= 10 {
      ParseNatString(n / 10);
      var s := NatToString(n);
      assert s[..|s| - 1] == NatToString(n / 10);
    }
  }

  lemma NatToStringInjective(m: nat, n: nat)
    requires NatToString(m) == NatToString(n)
    ensures m == n
  {
    ParseNatString(m);
    ParseNatString(n);
  }

  /** A field that holds no separator is recovered from the front of a separated record. */
  lemma SeparatedFront(a: string, r: string, b: string, t: string, sep: char)
    requires sep !in a && sep !in b
    requires a + [sep] + r == b + [sep] + t
    ensures a == b && r == t
  {
    var s := a + [sep] + r;
    assert s[|a|] == sep && s[|b|] == sep;
    assert forall k :: 0 <= k < |a| ==> s[k] == a[k];
    assert forall k :: 0 <= k < |b| ==> s[k] == b[k];
    assert a == s[..|a|] && b == s[..|b|];
    assert r == s[|a| + 1..] && t == s[|b| + 1..];
  }
}
