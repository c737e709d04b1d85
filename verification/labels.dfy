/**
 * The label normalisers of main.py. `normalize_label` folds the free-text
 * semantic label the annotation model returns onto five categories, "other"
 * and "unknown"; `normalize_attitude` keeps the lower-cased first word of the
 * sentiment answer, and fails on a blank one.
 */
module Labels {
  import opened Wrappers
  import opened Text

  // ---------------------------------------------------------------- normalize_label

  /** The categories `normalize_label` looks for, in the order it tries them. */
  const Categories: seq<string> := ["ethnographic", "functional", "evaluative", "religious", "imperial"]

  const OtherLabel := "other"
  const UnknownLabel := "unknown"

  /** Every value `normalize_label` can return. */
  const LabelValues: set<string> := {"ethnographic", "functional", "evaluative", "religious", "imperial", OtherLabel, UnknownLabel}

  /** The first category, from number `k` on, that occurs in `text`. */
  function FirstCategory(text: string, k: nat): (r: Option<nat>)
    requires k <= |Categories|
    ensures r.Some? ==> k <= r.value < |Categories| && Contains(text, Categories[r.value])
    ensures r.Some? ==> forall j :: k <= j < r.value ==> !Contains(text, Categories[j])
    ensures r.None? ==> forall j :: k <= j < |Categories| ==> !Contains(text, Categories[j])
    decreases |Categories| - k
  {
    if k == |Categories| then None
    else if Contains(text, Categories[k]) then Some(k)
    else FirstCategory(text, k + 1)
  }

  /** `normalize_label`: "unknown" for a value that is not a string. */
  function NormalizeLabel(text: Cell): (r: string)
    ensures r in LabelValues
    ensures !text.Text? <==> r == UnknownLabel
  {
    match text
    case Text(s) =>
      var f := FirstCategory(Lower(s), 0);
      if f.Some? then Categories[f.value] else OtherLabel
    case _ => UnknownLabel
  }

  /**
   * A string label becomes the first category, in the order of `Categories`,
   * that its lower-cased text contains, and "other" when it contains none.
   */
  lemma NormalizeLabelOfText(s: string, i: nat)
    requires i < |Categories|
    ensures NormalizeLabel(Text(s)) == Categories[i] <==>
      Contains(Lower(s), Categories[i]) && forall j :: 0 <= j < i ==> !Contains(Lower(s), Categories[j])
    ensures NormalizeLabel(Text(s)) == OtherLabel <==> forall j :: 0 <= j < |Categories| ==> !Contains(Lower(s), Categories[j])
  {
    var f := FirstCategory(Lower(s), 0);
    if f.Some? && Categories[i] == Categories[f.value] {
      CategoriesDistinct(i, f.value);
    }
  }

  lemma CategoriesDistinct(i: nat, j: nat)
    requires i < |Categories| && j < |Categories| && Categories[i] == Categories[j]
    ensures i == j
  {
    var c := Categories;
    assert c[0][0] == 'e' && c[1][0] == 'f' && c[2][0] == 'e' && c[3][0] == 'r' && c[4][0] == 'i';
    assert |c[0]| == 12 && |c[2]| == 10;
  }

  /** A string of lower-case ASCII letters only is its own lower case. */
  predicate AsciiLower(s: string) {
    forall i :: 0 <= i < |s| ==> 'a' <= s[i] <= 'z'
  }

  lemma LowerOfAsciiLower(s: string)
    requires AsciiLower(s)
    ensures Lower(s) == s
  {
  }

  /** Two strings of the same length contain one another only when equal. */
  lemma ContainsSameLength(hay: string, needle: string)
    requires |hay| == |needle| > 0
    ensures Contains(hay, needle) <==> hay == needle
  {
    if Contains(hay, needle) && !IsPrefix(needle, hay) {
      ContainsNoLonger(hay[1..], needle);
    }
  }

  lemma ContainsItself(s: string)
    ensures Contains(s, s)
  {
    assert s[..|s|] == s;
  }

  /** The outputs of `normalize_label` are written in lower-case ASCII letters. */
  lemma LabelsAreAsciiLower()
    ensures forall i :: 0 <= i < |Categories| ==> AsciiLower(Categories[i])
    ensures AsciiLower(OtherLabel) && AsciiLower(UnknownLabel)
  {
    var c := Categories;
    assert c[0] == "ethnographic" && c[1] == "functional" && c[2] == "evaluative";
    assert c[3] == "religious" && c[4] == "imperial";
  }

  /** No category occurs in a later one, so each category normalises to itself. */
  lemma CategoryIsItsOwnLabel(i: nat)
    requires i < |Categories|
    ensures NormalizeLabel(Text(Categories[i])) == Categories[i]
  {
    var c := Categories;
    LabelsAreAsciiLower();
    LowerOfAsciiLower(c[i]);
    ContainsItself(c[i]);
    assert |c[0]| == 12 && |c[1]| == 10 && |c[2]| == 10 && |c[3]| == 9 && |c[4]| == 8;
    forall j | 0 <= j < i
      ensures !Contains(c[i], c[j])
    {
      if |c[j]| > |c[i]| {
        if Contains(c[i], c[j]) {
          ContainsNoLonger(c[i], c[j]);
        }
      } else {
        assert j == 1 && i == 2;
        assert c[1][0] != c[2][0];
        ContainsSameLength(c[2], c[1]);
      }
    }
    NormalizeLabelOfText(c[i], i);
  }

  /** A text shorter than every category falls into "other". */
  lemma ShortIsOther(s: string)
    requires |s| < 8
    ensures NormalizeLabel(Text(s)) == OtherLabel
  {
    var c := Categories;
    assert |c[0]| == 12 && |c[1]| == 10 && |c[2]| == 10 && |c[3]| == 9 && |c[4]| == 8;
    forall j | 0 <= j < |c|
      ensures !Contains(Lower(s), c[j])
    {
      if Contains(Lower(s), c[j]) {
        ContainsNoLonger(Lower(s), c[j]);
      }
    }
    NormalizeLabelOfText(s, 0);
  }

  /**
   * `normalize_label` is idempotent on the labels it produces, except that
   * "unknown", once stored as a string, normalises to "other".
   */
  lemma NormalizeLabelIdempotent(c: Cell)
    ensures var r := NormalizeLabel(c);
      r != UnknownLabel ==> NormalizeLabel(Text(r)) == r
    ensures NormalizeLabel(Text(NormalizeLabel(NoneCell))) == OtherLabel
  {
    var r := NormalizeLabel(c);
    if r == OtherLabel {
      ShortIsOther(r);
    } else if r != UnknownLabel {
      var i :| 0 <= i < |Categories| && Categories[i] == r;
      CategoryIsItsOwnLabel(i);
    }
    ShortIsOther(UnknownLabel);
  }

  // ---------------------------------------------------------------- normalize_attitude

  /**
   * `normalize_attitude`: "unknown" for a value that is not a string;
   * otherwise the lower-cased first word, and IndexError when there is none.
   * An attitude read from a string is therefore one lower-case word.
   */
  function NormalizeAttitude(text: Cell): (r: Result<string>)
    ensures !text.Text? ==> r == Ok(UnknownLabel)
    ensures r.Err? ==> r.error == IndexError
    ensures text.Text? && r.Ok? ==> IsWord(r.value) && IsLower(r.value)
  {
    match text
    case Text(s) =>
      var ws := Words(Strip(s));
      if |ws| == 0 then Err(IndexError)
      else
        LowerWord(ws[0]);
        Ok(Lower(ws[0]))
    case _ => Ok(UnknownLabel)
  }

  /** Trailing whitespace is all that `rstrip` takes from a word and what follows it. */
  lemma TrimEndAfterWord(w: string, rest: string)
    requires IsWord(w)
    ensures var t := TrimEnd(w + rest); |w| <= |t| && t == w + rest[..|t| - |w|]
  {
    var t := TrimEnd(w + rest);
    assert !IsSpace((w + rest)[|w| - 1]);
  }

  /** Leading whitespace is all that `lstrip` takes before a word. */
  lemma StripAfterBlank(a: string, w: string, rest: string)
    requires AllSpace(a) && IsWord(w)
    ensures Strip(a + w + rest) == TrimEnd(w + rest)
  {
    assert a + w + rest == a + (w + rest);
    TrimStartEdge(a, w + rest);
  }

  /** A word followed by nothing or by whitespace is the first word, however much is trimmed off the end. */
  lemma FirstWordOfTrimmed(w: string, rest: string)
    requires IsWord(w) && (|rest| == 0 || IsSpace(rest[0]))
    ensures |Words(TrimEnd(w + rest))| > 0 && Words(TrimEnd(w + rest))[0] == w
  {
    TrimEndAfterWord(w, rest);
    var t := TrimEnd(w + rest);
    var u := rest[..|t| - |w|];
    if |u| > 0 {
      assert u[0] == rest[0];
    }
    RunOfWord(w, u);
    WordsOfWordStart(t);
  }

  /** The attitude of a text is its first whitespace-delimited word, lower-cased, whatever follows it. */
  lemma AttitudeFirstWord(a: string, w: string, rest: string)
    requires AllSpace(a) && IsWord(w) && (|rest| == 0 || IsSpace(rest[0]))
    ensures NormalizeAttitude(Text(a + w + rest)) == Ok(Lower(w))
  {
    StripAfterBlank(a, w, rest);
    FirstWordOfTrimmed(w, rest);
  }

  /** A text that is not blank is some whitespace, a first word, and nothing or whitespace after it. */
  lemma FirstWordSplit(s: string) returns (a: string, w: string, rest: string)
    requires !AllSpace(s)
    ensures s == a + w + rest && AllSpace(a) && IsWord(w) && (|rest| == 0 || IsSpace(rest[0]))
  {
    var t := TrimStart(s);
    var k := |s| - |t|;
    if |t| == 0 {
      assert false;
    }
    var n := |Run(t)|;
    a, w, rest := s[..k], s[k..k + n], s[k + n..];
    assert w == Run(t);
    assert s == a + w + rest;
    if |rest| > 0 {
      assert rest[0] == t[n];
    }
  }

  /** A blank text has no first word: `normalize_attitude` raises IndexError exactly then. */
  lemma AttitudeBlank(s: string)
    ensures NormalizeAttitude(Text(s)).Err? <==> AllSpace(s)
  {
    if AllSpace(s) {
      StripAllSpace(s);
    } else {
      var a, w, rest := FirstWordSplit(s);
      AttitudeFirstWord(a, w, rest);
    }
  }
}
