/**
 * The lexical analysis of the contexts table (src/linguistic_analysis.py).
 * For each context it counts the adjective and verb lemmas of the tagged
 * text, collects the place names it mentions, and emits one collocation
 * record per counted token; the features become three new columns, looked
 * up by `context_id`, and the records are summed per group for export.
 *
 * The tagger is a parameter `nlp` that maps a context to its tokens and
 * entities; the SHA-256 hash is a parameter `hash`.
 */
module Lexical {
  import opened Wrappers
  import opened Text
  import opened Sorting
  import opened Utils
  import opened Counters

  datatype Token = Token(isAlpha: bool, lemmaForm: string, pos: string)
  datatype Entity = Entity(text: string, kind: string)
  datatype Doc = Doc(tokens: seq<Token>, ents: seq<Entity>)

  /** The columns of a context row that the analysis reads. */
  datatype LexRow = LexRow(contextId: Cell, context: string, ethnonymNormalised: Cell, ethnonym: Cell,
                           author: Cell, year: Option<int>)

  const Adj := "ADJ"
  const Verb := "VERB"
  const Gpe := "GPE"

  // ---------------------------------------------------------------- tokens

  /** The lemma a token contributes: alphabetic, lower-cased, non-empty and not a stopword. */
  function CountedLemma(t: Token, stopwords: set<string>): Option<string> {
    if !t.isAlpha then None
    else
      var l := Lower(t.lemmaForm);
      if |l| == 0 || l in stopwords then None else Some(l)
  }

  /** A token counted for part of speech `pos`, with lemma `l`. */
  predicate CountedAs(t: Token, stopwords: set<string>, pos: string, l: string) {
    t.pos == pos && CountedLemma(t, stopwords) == Some(l)
  }

  /** The lemmas counted for part of speech `pos`, in token order. */
  function Lemmas(tokens: seq<Token>, stopwords: set<string>, pos: string): seq<string>
    decreases |tokens|
  {
    if |tokens| == 0 then []
    else
      var n := |tokens| - 1;
      var l := CountedLemma(tokens[n], stopwords);
      Lemmas(tokens[..n], stopwords, pos) + (if tokens[n].pos == pos && l.Some? then [l.value] else [])
  }

  /**
   * A lemma is counted exactly when some token of that part of speech is
   * alphabetic and lower-cases to it, and it is neither empty nor a stopword.
   */
  lemma {:induction false} LemmasFiltered(tokens: seq<Token>, stopwords: set<string>, pos: string)
    ensures forall l :: l in Lemmas(tokens, stopwords, pos) <==>
      exists i :: 0 <= i < |tokens| && CountedAs(tokens[i], stopwords, pos, l)
    decreases |tokens|
  {
    if |tokens| > 0 {
      var n := |tokens| - 1;
      LemmasFiltered(tokens[..n], stopwords, pos);
      forall l ensures l in Lemmas(tokens, stopwords, pos) <==>
        exists i :: 0 <= i < |tokens| && CountedAs(tokens[i], stopwords, pos, l)
      {
        if l in Lemmas(tokens[..n], stopwords, pos) {
          var i :| 0 <= i < n && CountedAs(tokens[..n][i], stopwords, pos, l);
          assert tokens[i] == tokens[..n][i];
        }
        if exists i :: 0 <= i < |tokens| && CountedAs(tokens[i], stopwords, pos, l) {
          var i :| 0 <= i < |tokens| && CountedAs(tokens[i], stopwords, pos, l);
          if i < n {
            assert tokens[..n][i] == tokens[i];
          }
        }
      }
    }
  }

  /** Every counted lemma is non-empty, lower-case and not a stopword. */
  lemma LemmasClean(tokens: seq<Token>, stopwords: set<string>, pos: string)
    ensures forall l :: l in Lemmas(tokens, stopwords, pos) ==> |l| > 0 && l !in stopwords && IsLower(l)
  {
    LemmasFiltered(tokens, stopwords, pos);
    forall l | l in Lemmas(tokens, stopwords, pos) ensures |l| > 0 && l !in stopwords && IsLower(l) {
      var i :| 0 <= i < |tokens| && CountedAs(tokens[i], stopwords, pos, l);
      LowerIsLower(tokens[i].lemmaForm);
    }
  }

  lemma LemmasSnoc(tokens: seq<Token>, i: nat, stopwords: set<string>, pos: string)
    requires i < |tokens|
    ensures var l := CountedLemma(tokens[i], stopwords);
      Lemmas(tokens[..i + 1], stopwords, pos) ==
      Lemmas(tokens[..i], stopwords, pos) + (if tokens[i].pos == pos && l.Some? then [l.value] else [])
  {
    assert tokens[..i + 1][..i] == tokens[..i];
  }

  /** The texts of the entities labelled GPE, in order. */
  function GpeTexts(ents: seq<Entity>): seq<string>
    decreases |ents|
  {
    if |ents| == 0 then []
    else
      var n := |ents| - 1;
      GpeTexts(ents[..n]) + (if ents[n].kind == Gpe then [ents[n].text] else [])
  }

  lemma {:induction false} GpeTextsExact(ents: seq<Entity>)
    ensures Elems(GpeTexts(ents)) == set i | 0 <= i < |ents| && ents[i].kind == Gpe :: ents[i].text
    decreases |ents|
  {
    if |ents| > 0 {
      var n := |ents| - 1;
      GpeTextsExact(ents[..n]);
      var before := set i | 0 <= i < n && ents[..n][i].kind == Gpe :: ents[..n][i].text;
      var all := set i | 0 <= i < |ents| && ents[i].kind == Gpe :: ents[i].text;
      assert all == before + (if ents[n].kind == Gpe then {ents[n].text} else {}) by {
        forall x | x in all ensures x in before || (ents[n].kind == Gpe && x == ents[n].text) {
          var i :| 0 <= i < |ents| && ents[i].kind == Gpe && ents[i].text == x;
          if i < n {
            assert ents[..n][i] == ents[i];
          }
        }
        forall x | x in before ensures x in all {
          var i :| 0 <= i < n && ents[..n][i].kind == Gpe && ents[..n][i].text == x;
          assert ents[i] == ents[..n][i];
        }
      }
    }
  }

  lemma GpeTextsSnoc(ents: seq<Entity>, i: nat)
    requires i < |ents|
    ensures GpeTexts(ents[..i + 1]) == GpeTexts(ents[..i]) + (if ents[i].kind == Gpe then [ents[i].text] else [])
  {
    assert ents[..i + 1][..i] == ents[..i];
  }

  // ---------------------------------------------------------------- per-row features

  /** The `adjectives`, `verbs` and `toponyms` cells of one row. */
  datatype Features = Features(adjectives: Counter<string>, verbs: Counter<string>, toponyms: seq<string>)

  /** The cells of a row whose `context_id` has no entry: three empty lists. */
  const NoFeatures := Features([], [], [])

  /** The features of one tagged context. */
  function RowFeatures(doc: Doc, stopwords: set<string>): Features {
    Features(MostCommon(Tally(Lemmas(doc.tokens, stopwords, Adj))),
             MostCommon(Tally(Lemmas(doc.tokens, stopwords, Verb))),
             SortedUnique(GpeTexts(doc.ents)))
  }

  /**
   * The adjective and verb lists have non-increasing counts, one entry per
   * lemma, each with its number of counted tokens, summing to the number of
   * counted tokens of that part of speech; the toponyms are sorted, without
   * duplicates, and are exactly the texts of the GPE entities.
   */
  lemma RowFeaturesMeaning(doc: Doc, stopwords: set<string>)
    ensures var f := RowFeatures(doc, stopwords);
      && NonIncreasing(f.adjectives) && Distinct(f.adjectives)
      && Counts(f.adjectives, Lemmas(doc.tokens, stopwords, Adj))
      && NonIncreasing(f.verbs) && Distinct(f.verbs)
      && Counts(f.verbs, Lemmas(doc.tokens, stopwords, Verb))
      && StrictlySorted(f.toponyms)
      && Elems(f.toponyms) == set i | 0 <= i < |doc.ents| && doc.ents[i].kind == Gpe :: doc.ents[i].text
  {
    MostCommonOfTally(Lemmas(doc.tokens, stopwords, Adj));
    MostCommonOfTally(Lemmas(doc.tokens, stopwords, Verb));
    GpeTextsExact(doc.ents);
  }

  // ---------------------------------------------------------------- collocation records

  /** One collocation record; every record counts 1. */
  datatype Collocation = Collocation(contextId: string, lemmaForm: string, pos: string, ethnonym: string,
                                     author: Cell, year: Option<int>)

  /** `str(ethnonym_normalised or ethnonym).lower()` */
  function EthnonymOf(r: LexRow): string {
    Lower(CellStr(if Truthy(r.ethnonymNormalised) then r.ethnonymNormalised else r.ethnonym))
  }

  /** The records of one row: one per counted ADJ or VERB token, in token order. */
  function RowCollocations(key: string, ethnonym: string, author: Cell, year: Option<int>,
                           tokens: seq<Token>, stopwords: set<string>): seq<Collocation>
    decreases |tokens|
  {
    if |tokens| == 0 then []
    else
      var n := |tokens| - 1;
      var l := CountedLemma(tokens[n], stopwords);
      RowCollocations(key, ethnonym, author, year, tokens[..n], stopwords) +
        (if l.Some? && (tokens[n].pos == Adj || tokens[n].pos == Verb)
         then [Collocation(key, l.value, tokens[n].pos, ethnonym, author, year)] else [])
  }

  /** The lemmas of the records with part of speech `pos`, in order. */
  function LemmasOfPos(recs: seq<Collocation>, pos: string): seq<string>
    decreases |recs|
  {
    if |recs| == 0 then []
    else
      var n := |recs| - 1;
      LemmasOfPos(recs[..n], pos) + (if recs[n].pos == pos then [recs[n].lemmaForm] else [])
  }

  lemma LemmasOfPosAppend(a: seq<Collocation>, b: seq<Collocation>, pos: string)
    requires |b| <= 1
    ensures LemmasOfPos(a + b, pos) == LemmasOfPos(a, pos) + LemmasOfPos(b, pos)
  {
    if |b| == 1 {
      assert (a + b)[..|a|] == a;
    } else {
      assert a + b == a;
    }
  }

  /**
   * A row's records are one per counted token of the two parts of speech: the
   * ADJ records carry exactly the counted adjective lemmas, the VERB records
   * the counted verb lemmas, and every record carries the row's key,
   * ethnonym, author and year.
   */
  lemma {:induction false} RowCollocationsMeaning(key: string, ethnonym: string, author: Cell, year: Option<int>,
                                                  tokens: seq<Token>, stopwords: set<string>)
    ensures var recs := RowCollocations(key, ethnonym, author, year, tokens, stopwords);
      && LemmasOfPos(recs, Adj) == Lemmas(tokens, stopwords, Adj)
      && LemmasOfPos(recs, Verb) == Lemmas(tokens, stopwords, Verb)
      && (forall r :: r in recs ==>
            (r.contextId == key && r.ethnonym == ethnonym && r.author == author && r.year == year
             && (r.pos == Adj || r.pos == Verb)))
    decreases |tokens|
  {
    if |tokens| > 0 {
      var n := |tokens| - 1;
      RowCollocationsMeaning(key, ethnonym, author, year, tokens[..n], stopwords);
      var l := CountedLemma(tokens[n], stopwords);
      var last := if l.Some? && (tokens[n].pos == Adj || tokens[n].pos == Verb)
        then [Collocation(key, l.value, tokens[n].pos, ethnonym, author, year)] else [];
      var prev := RowCollocations(key, ethnonym, author, year, tokens[..n], stopwords);
      LemmasOfPosAppend(prev, last, Adj);
      LemmasOfPosAppend(prev, last, Verb);
      if |last| == 1 {
        assert LemmasOfPos(last, Adj) == LemmasOfPos([], Adj) + (if last[0].pos == Adj then [last[0].lemmaForm] else []);
        assert LemmasOfPos(last, Verb) == LemmasOfPos([], Verb) + (if last[0].pos == Verb then [last[0].lemmaForm] else []);
      }
    }
  }

  lemma RowCollocationsSnoc(key: string, ethnonym: string, author: Cell, year: Option<int>,
                            tokens: seq<Token>, i: nat, stopwords: set<string>)
    requires i < |tokens|
    ensures var l := CountedLemma(tokens[i], stopwords);
      RowCollocations(key, ethnonym, author, year, tokens[..i + 1], stopwords) ==
      RowCollocations(key, ethnonym, author, year, tokens[..i], stopwords) +
        (if l.Some? && (tokens[i].pos == Adj || tokens[i].pos == Verb)
         then [Collocation(key, l.value, tokens[i].pos, ethnonym, author, year)] else [])
  {
    assert tokens[..i + 1][..i] == tokens[..i];
  }

  /** One more token bumps the counter of its part of speech by its lemma, when it is counted, and nothing else. */
  lemma TallyStep(tokens: seq<Token>, i: nat, stopwords: set<string>, pos: string)
    requires i < |tokens|
    ensures var l := CountedLemma(tokens[i], stopwords);
      Tally(Lemmas(tokens[..i + 1], stopwords, pos)) ==
      if tokens[i].pos == pos && l.Some? then Bump(Tally(Lemmas(tokens[..i], stopwords, pos)), l.value)
      else Tally(Lemmas(tokens[..i], stopwords, pos))
  {
    LemmasSnoc(tokens, i, stopwords, pos);
    var xs := Lemmas(tokens[..i], stopwords, pos);
    var l := CountedLemma(tokens[i], stopwords);
    if tokens[i].pos == pos && l.Some? {
      assert (xs + [l.value])[..|xs|] == xs;
    } else {
      assert xs + [] == xs;
    }
  }

  /**
   * The body of the loop over rows: count the row's tokens and collect its
   * entities, in one pass each.
   */
  method AnalyzeRow(row: LexRow, key: string, doc: Doc, stopwords: set<string>)
    returns (f: Features, recs: seq<Collocation>)
    ensures f == RowFeatures(doc, stopwords)
    ensures recs == RowCollocations(key, EthnonymOf(row), row.author, row.year, doc.tokens, stopwords)
  {
    var ethnonym := EthnonymOf(row);
    assert |Adj| != |Verb|;
    var adjectives: Counter<string> := [];
    var verbs: Counter<string> := [];
    var places: seq<string> := [];
    recs := [];
    for i := 0 to |doc.tokens|
      invariant adjectives == Tally(Lemmas(doc.tokens[..i], stopwords, Adj))
      invariant verbs == Tally(Lemmas(doc.tokens[..i], stopwords, Verb))
      invariant recs == RowCollocations(key, ethnonym, row.author, row.year, doc.tokens[..i], stopwords)
    {
      var t := doc.tokens[i];
      TallyStep(doc.tokens, i, stopwords, Adj);
      TallyStep(doc.tokens, i, stopwords, Verb);
      RowCollocationsSnoc(key, ethnonym, row.author, row.year, doc.tokens, i, stopwords);
      // the alphabetic test, lower-casing and stopword test, in that order
      var form := CountedLemma(t, stopwords);
      if form.None? {
        continue;
      }
      if t.pos == Adj {
        adjectives := Bump(adjectives, form.value);
        recs := recs + [Collocation(key, form.value, Adj, ethnonym, row.author, row.year)];
      } else if t.pos == Verb {
        verbs := Bump(verbs, form.value);
        recs := recs + [Collocation(key, form.value, Verb, ethnonym, row.author, row.year)];
      }
    }
    for j := 0 to |doc.ents|
      invariant places == GpeTexts(doc.ents[..j])
    {
      GpeTextsSnoc(doc.ents, j);
      if doc.ents[j].kind == Gpe {
        places := places + [doc.ents[j].text];
      }
    }
    assert doc.tokens[..|doc.tokens|] == doc.tokens;
    assert doc.ents[..|doc.ents|] == doc.ents;
    f := Features(MostCommon(adjectives), MostCommon(verbs), SortedUnique(places));
  }

  // ---------------------------------------------------------------- context keys

  /** `_normalise_context_id`: a string id is kept; anything else becomes the hash of the context. */
  function RowKey(r: LexRow, hash: string -> string): string {
    if r.contextId.Text? then r.contextId.s else hash(r.context)
  }

  /** The key the row loop files features under: `context_id or hash_text(context)`. */
  function LoopKey(r: LexRow, hash: string -> string): Cell {
    if Truthy(r.contextId) then r.contextId else Text(hash(r.context))
  }

  /**
   * The two keys agree except for a NaN id, which the loop keeps and the
   * column replaces by the hash, and an empty id, which the loop replaces by
   * the hash and the column keeps.
   */
  lemma LoopKeyAgrees(r: LexRow, hash: string -> string)
    ensures LoopKey(r, hash) == Text(RowKey(r, hash)) <==>
      r.contextId != NaNCell && (r.contextId == Text("") ==> hash(r.context) == "")
  {
  }

  /** The key of every row, in row order. */
  function RowKeys(rows: seq<LexRow>, hash: string -> string): (r: seq<string>)
    ensures |r| == |rows| && forall i :: 0 <= i < |rows| ==> r[i] == RowKey(rows[i], hash)
  {
    seq(|rows|, i requires 0 <= i < |rows| => RowKey(rows[i], hash))
  }

  function LoopKeys(rows: seq<LexRow>, hash: string -> string): (r: seq<Cell>)
    ensures |r| == |rows| && forall i :: 0 <= i < |rows| ==> r[i] == LoopKey(rows[i], hash)
  {
    seq(|rows|, i requires 0 <= i < |rows| => LoopKey(rows[i], hash))
  }

  /** The features of every row, in row order. */
  function AllFeatures(rows: seq<LexRow>, nlp: string -> Doc, stopwords: set<string>): (r: seq<Features>)
    ensures |r| == |rows| && forall i :: 0 <= i < |rows| ==> r[i] == RowFeatures(nlp(rows[i].context), stopwords)
  {
    seq(|rows|, i requires 0 <= i < |rows| => RowFeatures(nlp(rows[i].context), stopwords))
  }

  // ---------------------------------------------------------------- the feature maps

  /** A dictionary filled by `m[keys[i]] = vals[i]` for each `i` in order. */
  function Keyed<K, V>(keys: seq<K>, vals: seq<V>): map<K, V>
    requires |keys| == |vals|
    decreases |keys|
  {
    if |keys| == 0 then map[]
    else
      var n := |keys| - 1;
      Keyed(keys[..n], vals[..n])[keys[n] := vals[n]]
  }

  /**
   * The dictionary holds exactly the keys written, and a key holds the value
   * of its last write.
   */
  lemma {:induction false} KeyedLastWins<K, V>(keys: seq<K>, vals: seq<V>, i: nat)
    requires |keys| == |vals| && i < |keys|
    requires forall j :: i < j < |keys| ==> keys[j] != keys[i]
    ensures keys[i] in Keyed(keys, vals) && Keyed(keys, vals)[keys[i]] == vals[i]
    decreases |keys|
  {
    var n := |keys| - 1;
    if i < n {
      KeyedLastWins(keys[..n], vals[..n], i);
    }
  }

  lemma {:induction false} KeyedKeys<K, V>(keys: seq<K>, vals: seq<V>)
    requires |keys| == |vals|
    ensures forall k :: k in Keyed(keys, vals) <==> k in keys
    decreases |keys|
  {
    if |keys| > 0 {
      var n := |keys| - 1;
      KeyedKeys(keys[..n], vals[..n]);
      assert keys == keys[..n] + [keys[n]];
    }
  }

  /** The features filed under each row key, as the row loop leaves them. */
  function FeatureTable(rows: seq<LexRow>, nlp: string -> Doc, stopwords: set<string>, hash: string -> string)
    : map<string, Features>
  {
    Keyed(RowKeys(rows, hash), AllFeatures(rows, nlp, stopwords))
  }

  /** `map.get(cid, [])` for the three maps at once. */
  function Lookup<K>(m: map<K, Features>, k: K): Features {
    if k in m then m[k] else NoFeatures
  }

  /** The three new columns: each row looks up its normalised `context_id`. */
  function Columns(rows: seq<LexRow>, m: map<string, Features>, hash: string -> string): (r: seq<Features>)
    ensures |r| == |rows| && forall i :: 0 <= i < |rows| ==> r[i] == Lookup(m, RowKey(rows[i], hash))
  {
    seq(|rows|, i requires 0 <= i < |rows| => Lookup(m, RowKey(rows[i], hash)))
  }

  /** The table with `context_id` replaced by its normalised value. */
  function WithIds(rows: seq<LexRow>, hash: string -> string): (r: seq<LexRow>)
    ensures |r| == |rows| && forall i :: 0 <= i < |rows| ==> r[i] == rows[i].(contextId := Text(RowKey(rows[i], hash)))
  {
    seq(|rows|, i requires 0 <= i < |rows| => rows[i].(contextId := Text(RowKey(rows[i], hash))))
  }

  /**
   * Every id becomes a string; a string id is kept, so a row's key survives
   * the rewrite and a second rewrite changes nothing.
   */
  lemma WithIdsKeepsKeys(rows: seq<LexRow>, hash: string -> string)
    ensures forall i :: 0 <= i < |rows| ==> RowKey(WithIds(rows, hash)[i], hash) == RowKey(rows[i], hash)
    ensures forall i :: 0 <= i < |rows| && rows[i].contextId.Text? ==> WithIds(rows, hash)[i] == rows[i]
    ensures WithIds(WithIds(rows, hash), hash) == WithIds(rows, hash)
  {
  }

  /**
   * Every row of the analysed table finds an entry under its key, and a row
   * whose key no later row shares gets the features of its own context.
   */
  lemma ColumnsOwnFeatures(rows: seq<LexRow>, nlp: string -> Doc, stopwords: set<string>, hash: string -> string, i: nat)
    requires i < |rows|
    ensures RowKey(rows[i], hash) in FeatureTable(rows, nlp, stopwords, hash)
    ensures (forall j :: i < j < |rows| ==> RowKey(rows[j], hash) != RowKey(rows[i], hash)) ==>
      Columns(rows, FeatureTable(rows, nlp, stopwords, hash), hash)[i] == RowFeatures(nlp(rows[i].context), stopwords)
  {
    var keys := RowKeys(rows, hash);
    var vals := AllFeatures(rows, nlp, stopwords);
    KeyedKeys(keys, vals);
    assert keys[i] in keys;
    if forall j :: i < j < |rows| ==> RowKey(rows[j], hash) != RowKey(rows[i], hash) {
      KeyedLastWins(keys, vals, i);
    }
  }

  // ---------------------------------------------------------------- as written: two different keys

  /** The columns as the source assigns them: the maps are filled under `LoopKey`, read under `RowKey`. */
  function AsWrittenColumns(rows: seq<LexRow>, nlp: string -> Doc, stopwords: set<string>, hash: string -> string)
    : (r: seq<Features>)
    ensures |r| == |rows|
  {
    var m := Keyed(LoopKeys(rows, hash), AllFeatures(rows, nlp, stopwords));
    seq(|rows|, i requires 0 <= i < |rows| => Lookup(m, Text(RowKey(rows[i], hash))))
  }

  /**
   * A context whose id is NaN (an empty id cell read back from a CSV file)
   * loses its features: they are filed under NaN and looked up under the
   * hash of the context. One adjective is enough to see it.
   */
  lemma AsWrittenDropsNaNId(hash: string -> string)
    ensures var rows := [LexRow(NaNCell, "x", NoneCell, NoneCell, NoneCell, None)];
      var nlp := (c: string) => Doc([Token(true, "brave", Adj)], []);
      && AsWrittenColumns(rows, nlp, {}, hash)[0] == NoFeatures
      && RowFeatures(nlp("x"), {}) != NoFeatures
      && Columns(rows, FeatureTable(rows, nlp, {}, hash), hash)[0] == RowFeatures(nlp("x"), {})
  {
    var rows := [LexRow(NaNCell, "x", NoneCell, NoneCell, NoneCell, None)];
    var nlp := (c: string) => Doc([Token(true, "brave", Adj)], []);
    var keys := LoopKeys(rows, hash);
    var vals := AllFeatures(rows, nlp, {});
    KeyedKeys(keys, vals);
    assert keys == [NaNCell];
    var toks := nlp("x").tokens;
    assert CountedLemma(toks[0], {}) == Some(Lower("brave"));
    assert Lemmas(toks, {}, Adj) == Lemmas(toks[..0], {}, Adj) + [Lower("brave")];
    var c := Tally(Lemmas(toks, {}, Adj));
    assert |c| > 0;
    assert c[0] in multiset(MostCommon(c));
    ColumnsOwnFeatures(rows, nlp, {}, hash, 0);
  }

  // ---------------------------------------------------------------- collocation export

  /** The records of every row, in row order, under the normalised row key. */
  function Collocations(rows: seq<LexRow>, nlp: string -> Doc, stopwords: set<string>, hash: string -> string)
    : seq<Collocation>
    decreases |rows|
  {
    if |rows| == 0 then []
    else
      var n := |rows| - 1;
      var r := rows[n];
      Collocations(rows[..n], nlp, stopwords, hash) +
        RowCollocations(RowKey(r, hash), EthnonymOf(r), r.author, r.year, nlp(r.context).tokens, stopwords)
  }

  /** (context_id, lemma, pos, ethnonym, author, year) */
  type GroupKey = (string, string, string, string, string, int)

  /** The group keys of the records the `groupby` keeps: it drops those whose author or year is missing. */
  function GroupKeys(recs: seq<Collocation>): seq<GroupKey>
    decreases |recs|
  {
    if |recs| == 0 then []
    else
      var n := |recs| - 1;
      var r := recs[n];
      GroupKeys(recs[..n]) +
        (if r.author.Text? && r.year.Some?
         then [(r.contextId, r.lemmaForm, r.pos, r.ethnonym, r.author.s, r.year.value)] else [])
  }

  /**
   * The export order: year, author, ethnonym and part of speech ascending,
   * then count descending (the `sort_values` keys); rows tied on all of these
   * keep the order the `groupby` gave them, which is by context_id and then
   * lemma. A stable sort of the group-ordered rows by the `sort_values` keys
   * is one sort by this order.
   */
  predicate Before(a: (GroupKey, nat), b: (GroupKey, nat)) {
    var x := a.0;
    var y := b.0;
    if x.5 != y.5 then x.5 < y.5
    else if x.4 != y.4 then StrLe(x.4, y.4)
    else if x.3 != y.3 then StrLe(x.3, y.3)
    else if x.2 != y.2 then StrLe(x.2, y.2)
    else if a.1 != b.1 then a.1 > b.1
    else if x.0 != y.0 then StrLe(x.0, y.0)
    else StrLe(x.1, y.1)
  }

  /** Transitivity and antisymmetry of the string order, for three strings. */
  lemma StrOrder(x: string, y: string, z: string)
    ensures StrLe(x, y) && StrLe(y, z) ==> StrLe(x, z)
    ensures StrLe(x, y) && StrLe(y, x) ==> x == y
    ensures StrLe(y, z) && StrLe(z, y) ==> y == z
    ensures StrLe(x, y) || StrLe(y, x)
  {
    if StrLe(x, y) && StrLe(y, z) {
      StrLeTransitive(x, y, z);
    }
    if StrLe(x, y) && StrLe(y, x) {
      StrLeAntisymmetric(x, y);
    }
    if StrLe(y, z) && StrLe(z, y) {
      StrLeAntisymmetric(y, z);
    }
    StrLeTotal(x, y);
  }

  lemma BeforeTransitive(a: (GroupKey, nat), b: (GroupKey, nat), c: (GroupKey, nat))
    requires Before(a, b) && Before(b, c)
    ensures Before(a, c)
  {
    StrOrder(a.0.4, b.0.4, c.0.4);
    StrOrder(a.0.3, b.0.3, c.0.3);
    StrOrder(a.0.2, b.0.2, c.0.2);
    StrOrder(a.0.0, b.0.0, c.0.0);
    StrOrder(a.0.1, b.0.1, c.0.1);
  }

  /** Two rows each before the other agree on the whole group key and on the count. */
  lemma BeforeAntisymmetric(a: (GroupKey, nat), b: (GroupKey, nat))
    requires Before(a, b) && Before(b, a)
    ensures a == b
  {
    StrOrder(a.0.4, b.0.4, b.0.4);
    StrOrder(a.0.3, b.0.3, b.0.3);
    StrOrder(a.0.2, b.0.2, b.0.2);
    StrOrder(a.0.0, b.0.0, b.0.0);
    StrOrder(a.0.1, b.0.1, b.0.1);
  }

  lemma BeforeTotalPreorder()
    ensures TotalPreorder(Before)
  {
    forall a: (GroupKey, nat), b: (GroupKey, nat) ensures Before(a, b) || Before(b, a) {
      StrOrder(a.0.4, b.0.4, b.0.4);
      StrOrder(a.0.3, b.0.3, b.0.3);
      StrOrder(a.0.2, b.0.2, b.0.2);
      StrOrder(a.0.0, b.0.0, b.0.0);
      StrOrder(a.0.1, b.0.1, b.0.1);
    }
    forall a: (GroupKey, nat), b: (GroupKey, nat), c: (GroupKey, nat) | Before(a, b) && Before(b, c)
      ensures Before(a, c)
    {
      BeforeTransitive(a, b, c);
    }
  }

  /** `groupby(...).agg({"count": "sum"}).sort_values(...)`: one row per group with its count, in export order. */
  function Aggregate(recs: seq<Collocation>): Counter<GroupKey> {
    SortBy(Tally(GroupKeys(recs)), Before)
  }

  /** The file written, if any: nothing at all when no record was produced. */
  function Export(recs: seq<Collocation>): Option<Counter<GroupKey>> {
    if |recs| == 0 then None else Some(Aggregate(recs))
  }

  /**
   * The exported rows are in export order, hold each group once, and each
   * holds the number of kept records of its group; the groups are exactly
   * those of the kept records and the counts add up to their number. No two
   * rows tie, so the order of the file is fixed.
   */
  lemma AggregateMeaning(recs: seq<Collocation>)
    ensures var a := Aggregate(recs);
      SortedBy(a, Before) && Distinct(a) && Counts(a, GroupKeys(recs))
    ensures var a := Aggregate(recs);
      forall i, j :: 0 <= i < j < |a| ==> !Before(a[j], a[i])
  {
    var a := Aggregate(recs);
    SortedCounts(GroupKeys(recs), Before);
    BeforeTotalPreorder();
    SortBySorted(Tally(GroupKeys(recs)), Before);
    forall i, j | 0 <= i < j < |a| ensures !Before(a[j], a[i]) {
      assert a[i].0 != a[j].0;
      if Before(a[j], a[i]) {
        BeforeAntisymmetric(a[i], a[j]);
      }
    }
  }

  // ---------------------------------------------------------------- as written: the export's key

  /** Each record paired with the key it carries. */
  function WithKey(key: Cell, recs: seq<Collocation>): (r: seq<(Cell, Collocation)>)
    ensures |r| == |recs| && forall i :: 0 <= i < |recs| ==> r[i] == (key, recs[i])
  {
    seq(|recs|, i requires 0 <= i < |recs| => (key, recs[i]))
  }

  /**
   * The records as the source builds them: each carries the loop's key
   * `context_id or hash_text(context)`, which stays NaN for a NaN id.
   */
  function AsWrittenRecords(rows: seq<LexRow>, nlp: string -> Doc, stopwords: set<string>, hash: string -> string)
    : seq<(Cell, Collocation)>
    decreases |rows|
  {
    if |rows| == 0 then []
    else
      var n := |rows| - 1;
      var r := rows[n];
      var key := LoopKey(r, hash);
      AsWrittenRecords(rows[..n], nlp, stopwords, hash) +
        WithKey(key, RowCollocations(CellStr(key), EthnonymOf(r), r.author, r.year, nlp(r.context).tokens, stopwords))
  }

  /** The records the `groupby` can see: its default `dropna` drops every record whose key is NaN. */
  function StringKeyed(recs: seq<(Cell, Collocation)>): (r: seq<Collocation>)
    ensures |r| <= |recs|
    decreases |recs|
  {
    if |recs| == 0 then []
    else
      var n := |recs| - 1;
      StringKeyed(recs[..n]) + (if recs[n].0.Text? then [recs[n].1] else [])
  }

  /** The file written as the source writes it: whenever a record exists, the aggregate of those with a string key. */
  function AsWrittenExport(rows: seq<LexRow>, nlp: string -> Doc, stopwords: set<string>, hash: string -> string)
    : Option<Counter<GroupKey>>
  {
    var recs := AsWrittenRecords(rows, nlp, stopwords, hash);
    if |recs| == 0 then None else Some(Aggregate(StringKeyed(recs)))
  }

  /**
   * A context with a NaN id, an author, a year and one adjective: as written,
   * its record is dropped and the file holds no row at all; under the row key
   * of `_normalise_context_id` the record is exported.
   */
  lemma AsWrittenExportDropsNaNId(row: LexRow, nlp: string -> Doc, hash: string -> string)
    requires row.contextId == NaNCell && row.author.Text? && row.year.Some?
    requires nlp(row.context).tokens == [Token(true, "brave", Adj)]
    ensures AsWrittenExport([row], nlp, {}, hash) == Some([])
    ensures Export(Collocations([row], nlp, {}, hash)).Some?
    ensures |Export(Collocations([row], nlp, {}, hash)).value| == 1
  {
    var e := EthnonymOf(row);
    SingleRow(row, nlp, {}, hash);
    OneAdjective(RowKey(row, hash), e, row.author, row.year);
    OneAdjective(CellStr(NaNCell), e, row.author, row.year);
    var asWritten := AsWrittenRecords([row], nlp, {}, hash);
    assert |asWritten| == 1 && asWritten[0].0 == NaNCell;
    assert asWritten[..0] == [];
    assert StringKeyed(asWritten) == [];
    AggregateNone();
    AggregateOne(Collocation(RowKey(row, hash), Lower("brave"), Adj, e, row.author, row.year));
  }

  /**
   * A context whose id is the empty string: as written, its records carry the
   * hash of the context; under the row key they carry the empty id.
   */
  lemma AsWrittenEmptyIdUnderHash(row: LexRow, nlp: string -> Doc, stopwords: set<string>, hash: string -> string)
    requires row.contextId == Text("")
    ensures forall p :: p in AsWrittenRecords([row], nlp, stopwords, hash) ==> p.0 == Text(hash(row.context)) && p.1.contextId == hash(row.context)
    ensures forall c :: c in Collocations([row], nlp, stopwords, hash) ==> c.contextId == ""
  {
    SingleRow(row, nlp, stopwords, hash);
    var tokens := nlp(row.context).tokens;
    RowCollocationsMeaning(hash(row.context), EthnonymOf(row), row.author, row.year, tokens, stopwords);
    RowCollocationsMeaning("", EthnonymOf(row), row.author, row.year, tokens, stopwords);
    var recs := RowCollocations(hash(row.context), EthnonymOf(row), row.author, row.year, tokens, stopwords);
    forall p | p in AsWrittenRecords([row], nlp, stopwords, hash)
      ensures p.0 == Text(hash(row.context)) && p.1.contextId == hash(row.context)
    {
      var i :| 0 <= i < |recs| && p == (Text(hash(row.context)), recs[i]);
      assert recs[i] in recs;
    }
  }

  /** The records of a one-row table, under either key. */
  lemma SingleRow(row: LexRow, nlp: string -> Doc, stopwords: set<string>, hash: string -> string)
    ensures var key := LoopKey(row, hash);
      var tokens := nlp(row.context).tokens;
      && Collocations([row], nlp, stopwords, hash) == RowCollocations(RowKey(row, hash), EthnonymOf(row), row.author, row.year, tokens, stopwords)
      && AsWrittenRecords([row], nlp, stopwords, hash) ==
         WithKey(key, RowCollocations(CellStr(key), EthnonymOf(row), row.author, row.year, tokens, stopwords))
  {
    assert [row][..0] == [];
  }

  /** One alphabetic adjective gives one record. */
  lemma OneAdjective(key: string, e: string, author: Cell, year: Option<int>)
    ensures RowCollocations(key, e, author, year, [Token(true, "brave", Adj)], {}) ==
      [Collocation(key, Lower("brave"), Adj, e, author, year)]
  {
    var toks := [Token(true, "brave", Adj)];
    assert toks[..0] == [];
    assert CountedLemma(toks[0], {}) == Some(Lower("brave"));
  }

  lemma AggregateNone()
    ensures Aggregate([]) == []
  {
    assert GroupKeys([]) == [];
    assert multiset(Aggregate([])) == multiset(Tally<GroupKey>([]));
  }

  /** A single record with an author and a year is one exported row. */
  lemma AggregateOne(c: Collocation)
    requires c.author.Text? && c.year.Some?
    ensures |Aggregate([c])| == 1
  {
    assert [c][..0] == [];
    assert GroupKeys([]) == [];
    var g := GroupKeys([c]);
    assert g == [(c.contextId, c.lemmaForm, c.pos, c.ethnonym, c.author.s, c.year.value)];
    assert g[..0] == [];
    assert Tally(g) == Bump([], g[0]);
    assert IndexOf([], g[0]) == None;
    assert |multiset(Aggregate([c]))| == |multiset(Tally(g))|;
  }

  // ---------------------------------------------------------------- the table

  /** The contexts table: its rows, and the three feature columns once they are added. */
  class ContextTable {
    var rows: seq<LexRow>
    var features: Option<seq<Features>>

    constructor (rows: seq<LexRow>)
      ensures this.rows == rows && features == None
    {
      this.rows := rows;
      features := None;
    }
  }

  /** One more row files its features under its key and appends its records. */
  lemma RowStep(rows: seq<LexRow>, i: nat, nlp: string -> Doc, stopwords: set<string>, hash: string -> string)
    requires i < |rows|
    ensures var r := rows[i];
      && Keyed(RowKeys(rows[..i + 1], hash), AllFeatures(rows[..i + 1], nlp, stopwords)) ==
         Keyed(RowKeys(rows[..i], hash), AllFeatures(rows[..i], nlp, stopwords))[RowKey(r, hash) := RowFeatures(nlp(r.context), stopwords)]
      && Collocations(rows[..i + 1], nlp, stopwords, hash) ==
         Collocations(rows[..i], nlp, stopwords, hash) +
         RowCollocations(RowKey(r, hash), EthnonymOf(r), r.author, r.year, nlp(r.context).tokens, stopwords)
  {
    assert rows[..i + 1][..i] == rows[..i];
    assert RowKeys(rows[..i + 1], hash)[..i] == RowKeys(rows[..i], hash);
    assert AllFeatures(rows[..i + 1], nlp, stopwords)[..i] == AllFeatures(rows[..i], nlp, stopwords);
  }

  /**
   * `analyze_contexts`: an empty table is left as it is; otherwise each row's
   * features are filed under its key, the ids are normalised, the three
   * columns are added, and the collocation records are aggregated for export.
   */
  method AnalyzeContexts(table: ContextTable, nlp: string -> Doc, stopwordsFile: Option<seq<string>>,
                         hash: string -> string)
    returns (written: Option<Counter<GroupKey>>)
    modifies table
    ensures |old(table.rows)| == 0 ==> table.rows == old(table.rows) && table.features == old(table.features) && written == None
    ensures |old(table.rows)| > 0 ==>
      var stopwords := LoadStopwords(stopwordsFile);
      && table.rows == WithIds(old(table.rows), hash)
      && table.features == Some(Columns(old(table.rows), FeatureTable(old(table.rows), nlp, stopwords, hash), hash))
      && written == Export(Collocations(old(table.rows), nlp, stopwords, hash))
  {
    var rows := table.rows;
    if |rows| == 0 {
      return None;
    }
    var stopwords := LoadStopwords(stopwordsFile);
    var records: seq<Collocation> := [];
    var features: map<string, Features> := map[];
    for i := 0 to |rows|
      invariant features == Keyed(RowKeys(rows[..i], hash), AllFeatures(rows[..i], nlp, stopwords))
      invariant records == Collocations(rows[..i], nlp, stopwords, hash)
    {
      var row := rows[i];
      var key := RowKey(row, hash);
      var f, recs := AnalyzeRow(row, key, nlp(row.context), stopwords);
      RowStep(rows, i, nlp, stopwords, hash);
      features := features[key := f];
      records := records + recs;
    }
    assert rows[..|rows|] == rows;
    written := if |records| > 0 then Some(Aggregate(records)) else None;
    table.rows := WithIds(rows, hash);
    table.features := Some(Columns(rows, features, hash));
  }
}
