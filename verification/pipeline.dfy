/**
 * The driver of main.py between extraction and analysis: `clean_contexts`,
 * which tidies the context text of every extracted row and keeps the rows
 * long enough to annotate, and the annotation stage of `main`, which asks the
 * model for a semantic label, an attitude and a summary of every context,
 * translates all three, and only then normalises the label and the attitude.
 */
module Pipeline {
  import opened Wrappers
  import opened Text
  import opened Annotation
  import opened Labels
  import opened Extract
  import opened Rerun

  // ---------------------------------------------------------------- clean_contexts

  /** The fewest words a context may have and still be annotated. */
  const MinWords := 20

  /** A row after `clean_contexts`: the record with its cleaned context, and its `word_count`. */
  datatype Counted = Counted(record: ContextRecord, wordCount: nat)

  /** One row of `clean_contexts`: whitespace runs become one space, the ends are stripped, the words counted. */
  function CleanRecord(r: ContextRecord): Counted {
    var t := CleanText(r.context);
    Counted(r.(context := t), |Words(t)|)
  }

  function Cleaned(records: seq<ContextRecord>): (rows: seq<Counted>)
    ensures |rows| == |records| && forall i :: 0 <= i < |records| ==> rows[i] == CleanRecord(records[i])
  {
    seq(|records|, i requires 0 <= i < |records| => CleanRecord(records[i]))
  }

  /** `df[df["word_count"] >= 20]`: the rows with at least 20 words, in order. */
  function LongEnough(rows: seq<Counted>): seq<Counted>
    decreases |rows|
  {
    if |rows| == 0 then []
    else
      var n := |rows| - 1;
      LongEnough(rows[..n]) + (if rows[n].wordCount >= MinWords then [rows[n]] else [])
  }

  /** A cleaned row has a clean context with as many words as before, and nothing else of the record changes. */
  lemma CleanRecordMeaning(r: ContextRecord)
    ensures var c := CleanRecord(r);
      && IsClean(c.record.context)
      && Words(c.record.context) == Words(r.context)
      && c.wordCount == |Words(r.context)|
      && c.record.(context := r.context) == r
  {
    CleanTextProperties(r.context);
  }

  /** Cleaning a cleaned row changes nothing. */
  lemma CleanRecordIdempotent(r: ContextRecord)
    ensures CleanRecord(CleanRecord(r).record) == CleanRecord(r)
  {
    CleanTextProperties(r.context);
  }

  /** The filter keeps exactly the rows with at least 20 words, and no more rows than it is given. */
  lemma {:induction false} LongEnoughMeaning(rows: seq<Counted>)
    ensures forall c :: c in LongEnough(rows) <==> c in rows && c.wordCount >= MinWords
    ensures |LongEnough(rows)| <= |rows|
    decreases |rows|
  {
    if |rows| > 0 {
      var n := |rows| - 1;
      LongEnoughMeaning(rows[..n]);
      assert rows == rows[..n] + [rows[n]];
    }
  }

  /** The filter keeps the order of the rows: filtering a concatenation concatenates the filtered parts. */
  lemma {:induction false} LongEnoughConcat(a: seq<Counted>, b: seq<Counted>)
    ensures LongEnough(a + b) == LongEnough(a) + LongEnough(b)
    decreases |b|
  {
    if |b| == 0 {
      assert a + b == a;
    } else {
      var n := |b| - 1;
      LongEnoughConcat(a, b[..n]);
      assert (a + b)[..|a + b| - 1] == a + b[..n];
      var last := if b[n].wordCount >= MinWords then [b[n]] else [];
      assert LongEnough(a) + LongEnough(b[..n]) + last == LongEnough(a) + (LongEnough(b[..n]) + last);
    }
  }

  /** Rows that all have enough words pass the filter unchanged. */
  lemma {:induction false} LongEnoughAll(rows: seq<Counted>)
    requires forall i :: 0 <= i < |rows| ==> rows[i].wordCount >= MinWords
    ensures LongEnough(rows) == rows
    decreases |rows|
  {
    if |rows| > 0 {
      var n := |rows| - 1;
      LongEnoughAll(rows[..n]);
      assert rows[..n] + [rows[n]] == rows;
    }
  }

  /** The records of some rows. */
  function Records(rows: seq<Counted>): (rs: seq<ContextRecord>)
    ensures |rs| == |rows| && forall i :: 0 <= i < |rows| ==> rs[i] == rows[i].record
  {
    seq(|rows|, i requires 0 <= i < |rows| => rows[i].record)
  }

  /** A row `clean_contexts` produced is its own cleaning. */
  lemma CleanedIsFixed(records: seq<ContextRecord>, c: Counted)
    requires c in Cleaned(records)
    ensures CleanRecord(c.record) == c
  {
    var j :| 0 <= j < |records| && Cleaned(records)[j] == c;
    CleanRecordIdempotent(records[j]);
  }

  lemma CleanedOfFixed(rows: seq<Counted>)
    requires forall i :: 0 <= i < |rows| ==> CleanRecord(rows[i].record) == rows[i]
    ensures Cleaned(Records(rows)) == rows
  {
  }

  /** `clean_contexts` of its own output keeps every row and changes none. */
  lemma CleanContextsIdempotent(records: seq<ContextRecord>)
    ensures var kept := LongEnough(Cleaned(records));
      LongEnough(Cleaned(Records(kept))) == kept
  {
    var kept := LongEnough(Cleaned(records));
    LongEnoughMeaning(Cleaned(records));
    forall i | 0 <= i < |kept|
      ensures CleanRecord(kept[i].record) == kept[i] && kept[i].wordCount >= MinWords
    {
      assert kept[i] in kept;
      CleanedIsFixed(records, kept[i]);
    }
    CleanedOfFixed(kept);
    LongEnoughAll(kept);
  }

  /** The `word_count` column: `len(x.split())` of every context. */
  function WordCounts(records: seq<ContextRecord>): (counts: seq<nat>)
    ensures |counts| == |records| && forall i :: 0 <= i < |records| ==> counts[i] == |Words(records[i].context)|
  {
    seq(|records|, i requires 0 <= i < |records| => |Words(records[i].context)|)
  }

  /** The contexts table that `main` passes from step to step; `clean_contexts` changes it in place. */
  class ContextsFrame {
    var records: seq<ContextRecord>
    /** The `word_count` column, absent until `clean_contexts` adds it. */
    var wordCounts: Option<seq<nat>>

    constructor (records0: seq<ContextRecord>)
      ensures records == records0 && wordCounts == None
    {
      records := records0;
      wordCounts := None;
    }

    /**
     * `clean_contexts`: every context of the table is cleaned and the word
     * counts are added to it; the rows with at least 20 words come back, in
     * order.
     */
    method CleanContexts() returns (kept: seq<Counted>)
      modifies this
      ensures records == Records(Cleaned(old(records)))
      ensures wordCounts == Some(WordCounts(records))
      ensures kept == LongEnough(Cleaned(old(records)))
    {
      var rows := Cleaned(records);
      records := Records(rows);
      wordCounts := Some(WordCounts(records));
      kept := LongEnough(rows);
    }
  }

  /** A kept row is a cleaned input row with at least 20 words in its raw context, and every such row is kept. */
  lemma CleanContextsKeeps(records: seq<ContextRecord>, c: Counted)
    ensures c in LongEnough(Cleaned(records)) <==>
      exists i :: 0 <= i < |records| && c == CleanRecord(records[i]) && |Words(records[i].context)| >= MinWords
  {
    LongEnoughMeaning(Cleaned(records));
    if c in LongEnough(Cleaned(records)) {
      var i :| 0 <= i < |records| && Cleaned(records)[i] == c;
      CleanRecordMeaning(records[i]);
    }
    if i :| 0 <= i < |records| && c == CleanRecord(records[i]) && |Words(records[i].context)| >= MinWords {
      CleanRecordMeaning(records[i]);
      assert Cleaned(records)[i] == c;
    }
  }

  // ---------------------------------------------------------------- annotation

  /** Every value is what the cache answers for `task` on the matching text. */
  predicate AllServed(log: seq<CacheLine>, md5: string -> string, task: string, texts: seq<string>, vs: seq<string>) {
    |vs| == |texts| && forall i :: 0 <= i < |texts| ==> Served(log, md5, task, Text(texts[i]), vs[i])
  }

  /** Every value is what `translate_to_russian` gives for the matching text. */
  predicate AllTranslated(log: seq<CacheLine>, md5: string -> string, texts: seq<string>, vs: seq<string>) {
    |vs| == |texts| && forall i :: 0 <= i < |texts| ==> Translation(log, md5, Text(texts[i]), vs[i])
  }

  lemma AllServedGrows(log1: seq<CacheLine>, log2: seq<CacheLine>, md5: string -> string, task: string, texts: seq<string>, vs: seq<string>)
    requires log1 <= log2 && AllServed(log1, md5, task, texts, vs)
    ensures AllServed(log2, md5, task, texts, vs)
  {
    forall i | 0 <= i < |texts| ensures Served(log2, md5, task, Text(texts[i]), vs[i]) {
      ServedGrows(log1, log2, md5, task, Text(texts[i]), vs[i]);
    }
  }

  lemma AllTranslatedGrows(log1: seq<CacheLine>, log2: seq<CacheLine>, md5: string -> string, texts: seq<string>, vs: seq<string>)
    requires log1 <= log2 && AllTranslated(log1, md5, texts, vs)
    ensures AllTranslated(log2, md5, texts, vs)
  {
    forall i | 0 <= i < |texts| ensures Translation(log2, md5, Text(texts[i]), vs[i]) {
      if !NoTranslation(Text(texts[i])) {
        ServedGrows(log1, log2, md5, "translate", Text(texts[i]), vs[i]);
      }
    }
  }

  lemma AllServedSnoc(log1: seq<CacheLine>, log2: seq<CacheLine>, md5: string -> string, task: string,
                      texts: seq<string>, vs: seq<string>, t: string, v: string)
    requires log1 <= log2 && AllServed(log1, md5, task, texts, vs) && Served(log2, md5, task, Text(t), v)
    ensures AllServed(log2, md5, task, texts + [t], vs + [v])
  {
    AllServedGrows(log1, log2, md5, task, texts, vs);
  }

  lemma AllTranslatedSnoc(log1: seq<CacheLine>, log2: seq<CacheLine>, md5: string -> string,
                          texts: seq<string>, vs: seq<string>, t: string, v: string)
    requires log1 <= log2 && AllTranslated(log1, md5, texts, vs) && Translation(log2, md5, Text(t), v)
    ensures AllTranslated(log2, md5, texts + [t], vs + [v])
  {
    AllTranslatedGrows(log1, log2, md5, texts, vs);
  }

  /** The translation of the next text extends the translations of the texts before it. */
  lemma AllTranslatedNext(log1: seq<CacheLine>, log2: seq<CacheLine>, md5: string -> string,
                          texts: seq<string>, vs: seq<string>, v: string)
    requires |vs| < |texts| && log1 <= log2
    requires AllTranslated(log1, md5, texts[..|vs|], vs) && Translation(log2, md5, Text(texts[|vs|]), v)
    ensures AllTranslated(log2, md5, texts[..|vs| + 1], vs + [v])
  {
    assert texts[..|vs| + 1] == texts[..|vs|] + [texts[|vs|]];
    AllTranslatedSnoc(log1, log2, md5, texts[..|vs|], vs, texts[|vs|], v);
  }

  /** `contexts["context"].progress_apply(f)` for the annotation `f` of a column: one request per row, in order. */
  method AnnotateColumn(client: Client, column: Column, texts: seq<string>) returns (r: Result<seq<string>>)
    modifies client
    ensures old(client.log) <= client.log
    ensures r.Ok? ==> AllServed(client.log, client.md5, TaskOf(column), texts, r.value)
    ensures r.Err? ==> r.error == AttributeError
  {
    var out: seq<string> := [];
    for i := 0 to |texts|
      invariant old(client.log) <= client.log
      invariant AllServed(client.log, client.md5, TaskOf(column), texts[..i], out)
    {
      ghost var before := client.log;
      var v := Annotate(client, column, Text(texts[i]));
      if v.Err? {
        return Err(v.error);
      }
      assert texts[..i + 1] == texts[..i] + [texts[i]];
      AllServedSnoc(before, client.log, client.md5, TaskOf(column), texts[..i], out, texts[i], v.value);
      out := out + [v.value];
    }
    assert texts[..|texts|] == texts;
    return Ok(out);
  }

  /** One row of `column.progress_apply(translate_to_russian)`: the translation of the next text. */
  method TranslateNext(client: Client, texts: seq<string>, done: seq<string>) returns (r: Result<seq<string>>)
    modifies client
    requires |done| < |texts| && AllTranslated(client.log, client.md5, texts[..|done|], done)
    ensures old(client.log) <= client.log
    ensures r.Ok? ==> AllTranslated(client.log, client.md5, texts[..|done| + 1], r.value)
    ensures r.Err? ==> r.error == AttributeError
  {
    var i := |done|;
    var v := Translate(client, Text(texts[i]));
    if v.Err? {
      return Err(v.error);
    }
    AllTranslatedNext(old(client.log), client.log, client.md5, texts, done, v.value);
    return Ok(done + [v.value]);
  }

  /** `column.progress_apply(translate_to_russian)`: one translation per row, in order. */
  method TranslateColumn(client: Client, texts: seq<string>) returns (r: Result<seq<string>>)
    modifies client
    ensures old(client.log) <= client.log
    ensures r.Ok? ==> AllTranslated(client.log, client.md5, texts, r.value)
    ensures r.Err? ==> r.error == AttributeError
  {
    var out: seq<string> := [];
    for i := 0 to |texts|
      invariant old(client.log) <= client.log
      invariant AllTranslated(client.log, client.md5, texts[..i], out)
    {
      var next := TranslateNext(client, texts, out);
      if next.Err? {
        return next;
      }
      out := next.value;
    }
    assert texts[..|texts|] == texts;
    return Ok(out);
  }

  /** A cleaned row with the six columns `main` adds to it. */
  datatype Enriched = Enriched(
    row: Counted, semanticLabel: string, attitude: string, summaryEn: string,
    summaryRu: string, attitudeRu: string, semanticLabelRu: string)

  /**
   * What `main` leaves in a row: the label and the attitude are the
   * normalised forms of the answers the cache gives for the context, and
   * their Russian columns translate those answers as they came, before
   * normalisation; the summary and its translation are stored as they came.
   */
  ghost predicate Annotated(log: seq<CacheLine>, md5: string -> string, e: Enriched) {
    var context := Text(e.row.record.context);
    && (exists rawLabel :: Served(log, md5, "classify", context, rawLabel) &&
          e.semanticLabel == NormalizeLabel(Text(rawLabel)) && Translation(log, md5, Text(rawLabel), e.semanticLabelRu))
    && (exists attitude :: Served(log, md5, "sentiment", context, attitude) &&
          NormalizeAttitude(Text(attitude)) == Ok(e.attitude) && Translation(log, md5, Text(attitude), e.attitudeRu))
    && Served(log, md5, "summary", context, e.summaryEn)
    && Translation(log, md5, Text(e.summaryEn), e.summaryRu)
  }

  /** The `context` column of some rows. */
  function ContextsOf(rows: seq<Counted>): (texts: seq<string>)
    ensures |texts| == |rows| && forall i :: 0 <= i < |rows| ==> texts[i] == rows[i].record.context
  {
    seq(|rows|, i requires 0 <= i < |rows| => rows[i].record.context)
  }

  /** `normalize_attitude` of one raw answer. */
  function AttitudeOf(s: string): Result<string> {
    NormalizeAttitude(Text(s))
  }

  /** The six columns of `main`, row by row, with the label normalised. */
  function Enrich(rows: seq<Counted>, labels: seq<string>, attitudes: seq<string>, summaries: seq<string>,
                  summariesRu: seq<string>, attitudesRu: seq<string>, labelsRu: seq<string>): (out: seq<Enriched>)
    requires |labels| == |attitudes| == |summaries| == |summariesRu| == |attitudesRu| == |labelsRu| == |rows|
    ensures |out| == |rows|
  {
    seq(|rows|, i requires 0 <= i < |rows| =>
      Enriched(rows[i], NormalizeLabel(Text(labels[i])), attitudes[i], summaries[i],
               summariesRu[i], attitudesRu[i], labelsRu[i]))
  }

  /** Once every column is answered, every enriched row is annotated as `main` promises. */
  lemma EnrichAnnotated(log: seq<CacheLine>, md5: string -> string, rows: seq<Counted>, labels: seq<string>,
                        attitudes: seq<string>, normalised: seq<string>, summaries: seq<string>,
                        summariesRu: seq<string>, attitudesRu: seq<string>, labelsRu: seq<string>)
    requires AllServed(log, md5, "classify", ContextsOf(rows), labels)
    requires AllServed(log, md5, "sentiment", ContextsOf(rows), attitudes)
    requires AllServed(log, md5, "summary", ContextsOf(rows), summaries)
    requires AllTranslated(log, md5, summaries, summariesRu)
    requires AllTranslated(log, md5, attitudes, attitudesRu)
    requires AllTranslated(log, md5, labels, labelsRu)
    requires MapResult(attitudes, AttitudeOf) == Ok(normalised)
    ensures var out := Enrich(rows, labels, normalised, summaries, summariesRu, attitudesRu, labelsRu);
      forall i :: 0 <= i < |rows| ==> out[i].row == rows[i] && Annotated(log, md5, out[i])
  {
    var out := Enrich(rows, labels, normalised, summaries, summariesRu, attitudesRu, labelsRu);
    forall i | 0 <= i < |rows| ensures out[i].row == rows[i] && Annotated(log, md5, out[i]) {
      assert AttitudeOf(attitudes[i]) == Ok(normalised[i]);
      assert Served(log, md5, "classify", Text(rows[i].record.context), labels[i]);
      assert Served(log, md5, "sentiment", Text(rows[i].record.context), attitudes[i]);
    }
  }

  /** `normalize_attitude` fails only on a blank answer, and then with IndexError. */
  lemma AttitudeFailure(log: seq<CacheLine>, md5: string -> string, rows: seq<Counted>, attitudes: seq<string>, e: PyError)
    requires AllServed(log, md5, "sentiment", ContextsOf(rows), attitudes)
    requires MapResult(attitudes, AttitudeOf) == Err(e)
    ensures e == IndexError
    ensures exists i, a :: 0 <= i < |rows| && Served(log, md5, "sentiment", Text(rows[i].record.context), a) && AllSpace(a)
  {
    var i :| 0 <= i < |attitudes| && AttitudeOf(attitudes[i]) == Err(e);
    AttitudeBlank(attitudes[i]);
    assert Served(log, md5, "sentiment", Text(rows[i].record.context), attitudes[i]);
  }

  /** The cache answers the three English columns of every context. */
  predicate EnglishServed(log: seq<CacheLine>, md5: string -> string, contexts: seq<string>,
                          english: (seq<string>, seq<string>, seq<string>)) {
    && AllServed(log, md5, "classify", contexts, english.0)
    && AllServed(log, md5, "sentiment", contexts, english.1)
    && AllServed(log, md5, "summary", contexts, english.2)
  }

  lemma EnglishServedGrows(log1: seq<CacheLine>, log2: seq<CacheLine>, md5: string -> string, contexts: seq<string>,
                           english: (seq<string>, seq<string>, seq<string>))
    requires log1 <= log2 && EnglishServed(log1, md5, contexts, english)
    ensures EnglishServed(log2, md5, contexts, english)
  {
    AllServedGrows(log1, log2, md5, "classify", contexts, english.0);
    AllServedGrows(log1, log2, md5, "sentiment", contexts, english.1);
    AllServedGrows(log1, log2, md5, "summary", contexts, english.2);
  }

  /** The three English columns of `main`: the semantic labels, then the attitudes, then the summaries. */
  method EnglishColumns(client: Client, contexts: seq<string>) returns (r: Result<(seq<string>, seq<string>, seq<string>)>)
    modifies client
    ensures old(client.log) <= client.log
    ensures r.Ok? ==> EnglishServed(client.log, client.md5, contexts, r.value)
    ensures r.Err? ==> r.error == AttributeError
  {
    var labels := AnnotateColumn(client, Semantic, contexts);
    if labels.Err? { return Err(labels.error); }
    ghost var log1 := client.log;
    var attitudes := AnnotateColumn(client, Attitude, contexts);
    if attitudes.Err? { return Err(attitudes.error); }
    ghost var log2 := client.log;
    var summaries := AnnotateColumn(client, Summary, contexts);
    if summaries.Err? { return Err(summaries.error); }
    AllServedGrows(log1, client.log, client.md5, "classify", contexts, labels.value);
    AllServedGrows(log2, client.log, client.md5, "sentiment", contexts, attitudes.value);
    return Ok((labels.value, attitudes.value, summaries.value));
  }

  /** The three Russian columns, from the English answers as they came: the summaries, then the attitudes, then the labels. */
  method RussianColumns(client: Client, english: (seq<string>, seq<string>, seq<string>))
    returns (r: Result<(seq<string>, seq<string>, seq<string>)>)
    modifies client
    ensures old(client.log) <= client.log
    ensures r.Ok? ==>
      && AllTranslated(client.log, client.md5, english.2, r.value.0)
      && AllTranslated(client.log, client.md5, english.1, r.value.1)
      && AllTranslated(client.log, client.md5, english.0, r.value.2)
    ensures r.Err? ==> r.error == AttributeError
  {
    var summariesRu := TranslateColumn(client, english.2);
    if summariesRu.Err? { return Err(summariesRu.error); }
    ghost var log1 := client.log;
    var attitudesRu := TranslateColumn(client, english.1);
    if attitudesRu.Err? { return Err(attitudesRu.error); }
    ghost var log2 := client.log;
    var labelsRu := TranslateColumn(client, english.0);
    if labelsRu.Err? { return Err(labelsRu.error); }
    AllTranslatedGrows(log1, client.log, client.md5, english.2, summariesRu.value);
    AllTranslatedGrows(log2, client.log, client.md5, english.1, attitudesRu.value);
    return Ok((summariesRu.value, attitudesRu.value, labelsRu.value));
  }

  /**
   * The annotation stage of `main`: classify, detect the sentiment of and
   * summarise every context; translate the summaries, the raw attitudes and
   * the raw labels; then normalise the labels and the attitudes. A blank
   * attitude makes `normalize_attitude` raise IndexError.
   */
  method AnnotateContexts(client: Client, rows: seq<Counted>) returns (r: Result<seq<Enriched>>)
    modifies client
    ensures old(client.log) <= client.log
    ensures r.Ok? ==> (|r.value| == |rows| &&
      forall i :: 0 <= i < |rows| ==> r.value[i].row == rows[i] && Annotated(client.log, client.md5, r.value[i]))
    ensures r.Err? ==> r.error in {AttributeError, IndexError}
    ensures r == Err(IndexError) ==> exists i, a :: 0 <= i < |rows| && Served(client.log, client.md5, "sentiment", Text(rows[i].record.context), a) && AllSpace(a)
  {
    var contexts := ContextsOf(rows);
    var english := EnglishColumns(client, contexts);
    if english.Err? { return Err(english.error); }
    ghost var log1 := client.log;
    var russian := RussianColumns(client, english.value);
    if russian.Err? { return Err(russian.error); }
    EnglishServedGrows(log1, client.log, client.md5, contexts, english.value);
    var labels, attitudes, summaries := english.value.0, english.value.1, english.value.2;
    var normalised := MapResult(attitudes, AttitudeOf);
    if normalised.Err? {
      AttitudeFailure(client.log, client.md5, rows, attitudes, normalised.error);
      return Err(normalised.error);
    }
    EnrichAnnotated(client.log, client.md5, rows, labels, attitudes, normalised.value, summaries,
                    russian.value.0, russian.value.1, russian.value.2);
    return Ok(Enrich(rows, labels, normalised.value, summaries, russian.value.0, russian.value.1, russian.value.2));
  }

  /**
   * `main` from the extracted contexts to the annotated table: nothing when
   * there are no contexts or none survives `clean_contexts`.
   */
  method RunMain(client: Client, frame: ContextsFrame) returns (r: Result<Option<seq<Enriched>>>)
    modifies client, frame
    ensures old(client.log) <= client.log
    ensures |old(frame.records)| == 0 ==> r == Ok(None) && client.log == old(client.log)
    ensures r.Err? ==> r.error in {AttributeError, IndexError}
    ensures r == Ok(None) ==> LongEnough(Cleaned(old(frame.records))) == [] && client.log == old(client.log)
    ensures r.Ok? && r.value.Some? ==>
      var kept := LongEnough(Cleaned(old(frame.records)));
      (|r.value.value| == |kept| &&
       forall i :: 0 <= i < |kept| ==> r.value.value[i].row == kept[i] && Annotated(client.log, client.md5, r.value.value[i]))
  {
    if |frame.records| == 0 {
      return Ok(None);
    }
    var kept := frame.CleanContexts();
    if |kept| == 0 {
      return Ok(None);
    }
    var annotated := AnnotateContexts(client, kept);
    if annotated.Err? {
      return Err(annotated.error);
    }
    return Ok(Some(annotated.value));
  }
}
