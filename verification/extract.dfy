/**
 * `extract_ethnic_contexts` (src/extract_contexts.py): for every document,
 * every sentence and every ethnonym match in it, one context record holding
 * the sentence window around the match, clipped to the document's edges.
 *
 * Sentence splitting (`tokenize_sentences`), the matches of the compiled
 * pattern in one sentence (`pattern.finditer`) and SHA-256 (`hash_text`) are
 * inputs: `sentencesOf`, `matchesIn` and `hash`. A match is given by the text
 * it covers; the pattern's group 1 covers the same text, because the `\b`
 * around it is zero-width.
 */
module Extract {
  import opened Wrappers
  import opened Text
  import opened Utils

  /** `CONTEXT_WINDOW`: the default number of sentences on each side. */
  const ContextWindow: nat := 3

  // ---------------------------------------------------------------- the pattern

  function MapStrings(xs: seq<string>, f: string -> string): (r: seq<string>)
    ensures |r| == |xs| && forall i :: 0 <= i < |xs| ==> r[i] == f(xs[i])
  {
    seq(|xs|, i requires 0 <= i < |xs| => f(xs[i]))
  }

  /**
   * The source of the pattern `_compile_ethnonym_pattern` compiles (with
   * `re.IGNORECASE`): the escaped terms as alternatives of group 1, between
   * word boundaries. With no terms the group is empty, and the pattern
   * `\b()\b` then matches the empty string at every word boundary.
   */
  function PatternSource(terms: seq<string>, escape: string -> string): (r: string)
    ensures |terms| == 0 ==> r == "\\b()\\b"
    ensures IsPrefix("\\b(", r) && r[|r| - 3..] == ")\\b"
  {
    "\\b(" + Join("|", MapStrings(terms, escape)) + ")\\b"
  }

  /** The alternatives of the group are exactly the escaped terms, when no escaped term holds a bare `|`. */
  lemma PatternAlternatives(terms: seq<string>, escape: string -> string)
    requires |terms| > 0 && forall i :: 0 <= i < |terms| ==> '|' !in escape(terms[i])
    ensures var r := PatternSource(terms, escape);
      Split('|', r[3..|r| - 3]) == MapStrings(terms, escape)
  {
    var r := PatternSource(terms, escape);
    var group := Join("|", MapStrings(terms, escape));
    assert r[3..|r| - 3] == group;
    assert "|" == ['|'];
    SplitOfJoin('|', MapStrings(terms, escape));
  }

  // ---------------------------------------------------------------- one record

  /** `max(idx - window, 0)`. */
  function WindowStart(idx: nat, window: nat): nat {
    if idx >= window then idx - window else 0
  }

  /** `min(idx + window + 1, n)`. */
  function WindowStop(idx: nat, window: nat, n: nat): nat {
    if idx + window + 1 <= n then idx + window + 1 else n
  }

  /** The window is clipped to the document and always holds the target sentence. */
  lemma WindowBounds(idx: nat, window: nat, n: nat)
    requires idx < n
    ensures 0 <= WindowStart(idx, window) <= idx < WindowStop(idx, window, n) <= n
    ensures WindowStop(idx, window, n) - WindowStart(idx, window) <= 2 * window + 1
    ensures WindowStart(idx, window) == idx <==> (idx == 0 || window == 0)
  {
  }

  /** The text hashed into `context_id`: `f"{document_id}|{sentence_idx}|{match}|{context}"`. */
  function IdSource(documentId: string, idx: nat, m: string, context: string): string {
    documentId + "|" + NatToString(idx) + "|" + m + "|" + context
  }

  /** One row of the contexts table. */
  datatype ContextRecord = ContextRecord(
    contextId: string,
    documentId: string,
    filename: string,
    meta: MetaFields,
    ethnonym: string,
    ethnonymNormalised: string,
    sentenceIndex: nat,
    occurrenceIndex: nat,
    targetSentence: string,
    context: string,
    preContext: string,
    postContext: string,
    contextSentenceCount: nat)

  /** The record for the match `m` in sentence `idx` of `doc`, the `occurrence`-th match of the document. */
  function MakeRecord(doc: TextRow, sentences: seq<string>, idx: nat, m: string, occurrence: nat,
                      window: nat, hash: string -> string): (r: ContextRecord)
    requires idx < |sentences|
    ensures var start, stop := WindowStart(idx, window), WindowStop(idx, window, |sentences|);
      && start <= idx < stop <= |sentences|
      && r.contextSentenceCount == stop - start <= 2 * window + 1
      && r.context == Join(" ", sentences[start..stop])
      && r.preContext == Join(" ", sentences[start..idx])
      && r.postContext == Join(" ", sentences[idx + 1..stop])
    ensures r.targetSentence == sentences[idx] && r.sentenceIndex == idx && r.occurrenceIndex == occurrence
    ensures r.ethnonym == m && r.ethnonymNormalised == Lower(m)
    ensures r.documentId == doc.documentId && r.filename == doc.filename && r.meta == doc.meta
    ensures r.contextId == hash(IdSource(doc.documentId, idx, m, r.context))
  {
    WindowBounds(idx, window, |sentences|);
    var start, stop := WindowStart(idx, window), WindowStop(idx, window, |sentences|);
    var context := Join(" ", sentences[start..stop]);
    ContextRecord(
      hash(IdSource(doc.documentId, idx, m, context)),
      doc.documentId, doc.filename, doc.meta, m, Lower(m), idx, occurrence, sentences[idx],
      context, Join(" ", sentences[start..idx]), Join(" ", sentences[idx + 1..stop]), stop - start)
  }

  /** With non-empty sentences, the text before the target is empty exactly at the document's start or with a zero window. */
  lemma PreContextEmpty(doc: TextRow, sentences: seq<string>, idx: nat, m: string, occurrence: nat,
                        window: nat, hash: string -> string)
    requires idx < |sentences| && forall i :: 0 <= i < |sentences| ==> sentences[i] != ""
    ensures MakeRecord(doc, sentences, idx, m, occurrence, window, hash).preContext == "" <==> (idx == 0 || window == 0)
    ensures MakeRecord(doc, sentences, idx, m, occurrence, window, hash).postContext == "" <==> (idx == |sentences| - 1 || window == 0)
  {
    var start, stop := WindowStart(idx, window), WindowStop(idx, window, |sentences|);
    WindowBounds(idx, window, |sentences|);
    JoinEmpty(" ", sentences[start..idx]);
    JoinEmpty(" ", sentences[idx + 1..stop]);
  }

  /** Joining a slice around one item: the items before it, the item, the items after it, with single spaces between. */
  lemma JoinAround(xs: seq<string>, start: nat, idx: nat, stop: nat)
    requires start <= idx < stop <= |xs|
    ensures Join(" ", xs[start..stop]) == (if start == idx then "" else Join(" ", xs[start..idx]) + " ")
      + xs[idx] + (if stop == idx + 1 then "" else " " + Join(" ", xs[idx + 1..stop]))
  {
    var pre, mid, post := xs[start..idx], [xs[idx]], xs[idx + 1..stop];
    assert xs[start..stop] == pre + mid + post;
    var tail := Join(" ", mid + post);
    if |post| > 0 {
      JoinConcat(" ", mid, post);
      assert tail == xs[idx] + " " + Join(" ", post);
    } else {
      assert mid + post == mid;
    }
    if |pre| > 0 {
      assert pre + mid + post == pre + (mid + post);
      JoinConcat(" ", pre, mid + post);
    } else {
      assert pre + mid + post == mid + post;
    }
  }

  /** The context is the text before the target, the target and the text after it, joined by single spaces. */
  lemma ContextIsPreTargetPost(doc: TextRow, sentences: seq<string>, idx: nat, m: string, occurrence: nat,
                               window: nat, hash: string -> string)
    requires idx < |sentences|
    ensures var r := MakeRecord(doc, sentences, idx, m, occurrence, window, hash);
      r.context == (if WindowStart(idx, window) == idx then "" else r.preContext + " ")
        + r.targetSentence
        + (if WindowStop(idx, window, |sentences|) == idx + 1 then "" else " " + r.postContext)
  {
    WindowBounds(idx, window, |sentences|);
    JoinAround(sentences, WindowStart(idx, window), idx, WindowStop(idx, window, |sentences|));
  }

  /** `context_id` is a function of document id, sentence index, matched text and context, and, when neither id nor match holds `|`, it tells all four apart. */
  lemma ContextIdSource(d1: string, i1: nat, m1: string, c1: string, d2: string, i2: nat, m2: string, c2: string)
    requires '|' !in d1 && '|' !in d2 && '|' !in m1 && '|' !in m2
    ensures IdSource(d1, i1, m1, c1) == IdSource(d2, i2, m2, c2) <==> (d1 == d2 && i1 == i2 && m1 == m2 && c1 == c2)
  {
    if IdSource(d1, i1, m1, c1) == IdSource(d2, i2, m2, c2) {
      var n1, n2 := NatToString(i1), NatToString(i2);
      assert '|' !in n1 && '|' !in n2;
      var t1, t2 := n1 + "|" + m1 + "|" + c1, n2 + "|" + m2 + "|" + c2;
      assert IdSource(d1, i1, m1, c1) == d1 + ['|'] + t1;
      assert IdSource(d2, i2, m2, c2) == d2 + ['|'] + t2;
      SeparatedFront(d1, t1, d2, t2, '|');
      assert t1 == n1 + ['|'] + (m1 + "|" + c1) && t2 == n2 + ['|'] + (m2 + "|" + c2);
      SeparatedFront(n1, m1 + "|" + c1, n2, m2 + "|" + c2, '|');
      NatToStringInjective(i1, i2);
      assert m1 + "|" + c1 == m1 + ['|'] + c1 && m2 + "|" + c2 == m2 + ['|'] + c2;
      SeparatedFront(m1, c1, m2, c2, '|');
    }
  }

  // ---------------------------------------------------------------- the matches of a document

  /** A match: the index of its sentence and the text it covers. */
  datatype Hit = Hit(sentence: nat, text: string)

  function SentenceHits(idx: nat, ms: seq<string>): (r: seq<Hit>)
    ensures |r| == |ms| && forall j :: 0 <= j < |ms| ==> r[j] == Hit(idx, ms[j])
  {
    seq(|ms|, j requires 0 <= j < |ms| => Hit(idx, ms[j]))
  }

  /** The matches of the first `i` sentences, in sentence order and, within a sentence, in match order. */
  function HitsUpTo(sentences: seq<string>, matchesIn: string -> seq<string>, i: nat): (r: seq<Hit>)
    requires i <= |sentences|
    ensures forall k :: 0 <= k < |r| ==> r[k].sentence < i
    decreases i
  {
    if i == 0 then []
    else HitsUpTo(sentences, matchesIn, i - 1) + SentenceHits(i - 1, matchesIn(sentences[i - 1]))
  }

  /** The number of matches in the first `i` sentences. */
  function MatchCount(sentences: seq<string>, matchesIn: string -> seq<string>, i: nat): nat
    requires i <= |sentences|
  {
    if i == 0 then 0 else MatchCount(sentences, matchesIn, i - 1) + |matchesIn(sentences[i - 1])|
  }

  lemma {:induction false} HitsCount(sentences: seq<string>, matchesIn: string -> seq<string>, i: nat)
    requires i <= |sentences|
    ensures |HitsUpTo(sentences, matchesIn, i)| == MatchCount(sentences, matchesIn, i)
    decreases i
  {
    if i > 0 {
      HitsCount(sentences, matchesIn, i - 1);
    }
  }

  /** An earlier prefix of sentences contributes a prefix of the matches. */
  lemma {:induction false} HitsPrefix(sentences: seq<string>, matchesIn: string -> seq<string>, i: nat, n: nat)
    requires i <= n <= |sentences|
    ensures |HitsUpTo(sentences, matchesIn, i)| <= |HitsUpTo(sentences, matchesIn, n)|
    ensures HitsUpTo(sentences, matchesIn, i) == HitsUpTo(sentences, matchesIn, n)[..|HitsUpTo(sentences, matchesIn, i)|]
    decreases n
  {
    if i < n {
      HitsPrefix(sentences, matchesIn, i, n - 1);
      var h, h1 := HitsUpTo(sentences, matchesIn, i), HitsUpTo(sentences, matchesIn, n - 1);
      assert HitsUpTo(sentences, matchesIn, n) == h1 + SentenceHits(n - 1, matchesIn(sentences[n - 1]));
      assert HitsUpTo(sentences, matchesIn, n)[..|h|] == h1[..|h|];
    }
  }

  /**
   * Every match gets its own place: the `j`-th match of sentence `i` is hit
   * number `MatchCount(i) + j` of the document, so each match yields exactly
   * one record and the records follow sentence order, then match order.
   */
  lemma HitPosition(sentences: seq<string>, matchesIn: string -> seq<string>, i: nat, j: nat)
    requires i < |sentences| && j < |matchesIn(sentences[i])|
    ensures var hits := HitsUpTo(sentences, matchesIn, |sentences|);
      MatchCount(sentences, matchesIn, i) + j < |hits|
      && hits[MatchCount(sentences, matchesIn, i) + j] == Hit(i, matchesIn(sentences[i])[j])
  {
    var hits := HitsUpTo(sentences, matchesIn, |sentences|);
    HitsCount(sentences, matchesIn, i);
    HitsPrefix(sentences, matchesIn, i + 1, |sentences|);
    var before := HitsUpTo(sentences, matchesIn, i);
    var upto := HitsUpTo(sentences, matchesIn, i + 1);
    var here := SentenceHits(i, matchesIn(sentences[i]));
    assert upto == before + here;
    assert upto[|before| + j] == here[j];
    assert hits[|before| + j] == upto[|before| + j];
  }

  /** In sentence order. */
  predicate SentenceOrdered(hits: seq<Hit>) {
    forall k1, k2 :: 0 <= k1 < k2 < |hits| ==> hits[k1].sentence <= hits[k2].sentence
  }

  /** Hits never go back to an earlier sentence. */
  lemma {:induction false} HitsOrdered(sentences: seq<string>, matchesIn: string -> seq<string>, i: nat)
    requires i <= |sentences|
    ensures SentenceOrdered(HitsUpTo(sentences, matchesIn, i))
    decreases i
  {
    if i > 0 {
      HitsOrdered(sentences, matchesIn, i - 1);
      var a := HitsUpTo(sentences, matchesIn, i - 1);
      var b := SentenceHits(i - 1, matchesIn(sentences[i - 1]));
      var ab: seq<Hit> := a + b;
      forall k1, k2 | 0 <= k1 < k2 < |ab| ensures ab[k1].sentence <= ab[k2].sentence {
        if k2 < |a| {
          assert ab[k1] == a[k1] && ab[k2] == a[k2];
        } else if k1 < |a| {
          assert ab[k1] == a[k1] && a[k1].sentence < i - 1;
          assert ab[k2] == b[k2 - |a|] && b[k2 - |a|].sentence == i - 1;
        } else {
          assert ab[k1] == b[k1 - |a|] && ab[k2] == b[k2 - |a|];
        }
      }
    }
  }

  predicate MatchesOfSentences(hits: seq<Hit>, sentences: seq<string>, matchesIn: string -> seq<string>) {
    forall k :: 0 <= k < |hits| ==> hits[k].sentence < |sentences| && hits[k].text in matchesIn(sentences[hits[k].sentence])
  }

  /** Every hit is a match of its own sentence. */
  lemma {:induction false} HitsAreMatches(sentences: seq<string>, matchesIn: string -> seq<string>, i: nat)
    requires i <= |sentences|
    ensures MatchesOfSentences(HitsUpTo(sentences, matchesIn, i), sentences, matchesIn)
    decreases i
  {
    if i > 0 {
      HitsAreMatches(sentences, matchesIn, i - 1);
      var a := HitsUpTo(sentences, matchesIn, i - 1);
      var b := SentenceHits(i - 1, matchesIn(sentences[i - 1]));
      var ab: seq<Hit> := a + b;
      forall k | 0 <= k < |ab| ensures ab[k].sentence < |sentences| && ab[k].text in matchesIn(sentences[ab[k].sentence]) {
        if k < |a| {
          assert ab[k] == a[k];
        } else {
          assert ab[k] == b[k - |a|];
        }
      }
    }
  }

  // ---------------------------------------------------------------- the records of a document

  predicate HitsIn(hits: seq<Hit>, n: nat) {
    forall k :: 0 <= k < |hits| ==> hits[k].sentence < n
  }

  /** The records of a document's matches, numbered from 1 in order. */
  function DocRecords(doc: TextRow, sentences: seq<string>, hits: seq<Hit>, window: nat, hash: string -> string): (r: seq<ContextRecord>)
    requires HitsIn(hits, |sentences|)
    ensures |r| == |hits|
    ensures forall k :: 0 <= k < |hits| ==>
      r[k] == MakeRecord(doc, sentences, hits[k].sentence, hits[k].text, k + 1, window, hash)
  {
    seq(|hits|, k requires 0 <= k < |hits| => MakeRecord(doc, sentences, hits[k].sentence, hits[k].text, k + 1, window, hash))
  }

  /** The records of the matches `ms` of sentence `idx`, numbered on from `before`. */
  function SentenceRecords(doc: TextRow, sentences: seq<string>, idx: nat, ms: seq<string>, before: nat,
                           window: nat, hash: string -> string): (r: seq<ContextRecord>)
    requires idx < |sentences|
    ensures |r| == |ms|
    ensures forall j :: 0 <= j < |ms| ==> r[j] == MakeRecord(doc, sentences, idx, ms[j], before + j + 1, window, hash)
  {
    seq(|ms|, j requires 0 <= j < |ms| => MakeRecord(doc, sentences, idx, ms[j], before + j + 1, window, hash))
  }

  /** The records of one more sentence's matches follow the records so far. */
  lemma DocRecordsAppend(doc: TextRow, sentences: seq<string>, hits: seq<Hit>, idx: nat, ms: seq<string>,
                         window: nat, hash: string -> string)
    requires HitsIn(hits, |sentences|) && idx < |sentences|
    ensures HitsIn(hits + SentenceHits(idx, ms), |sentences|)
    ensures DocRecords(doc, sentences, hits + SentenceHits(idx, ms), window, hash)
      == DocRecords(doc, sentences, hits, window, hash) + SentenceRecords(doc, sentences, idx, ms, |hits|, window, hash)
  {
    var more := SentenceHits(idx, ms);
    var all: seq<Hit> := hits + more;
    assert forall k :: 0 <= k < |hits| ==> all[k] == hits[k];
    assert forall j :: 0 <= j < |ms| ==> all[|hits| + j] == Hit(idx, ms[j]);
  }

  /** The records of the first `idx + 1` sentences: those of the first `idx`, then those of sentence `idx`. */
  lemma DocRecordsStep(doc: TextRow, sentences: seq<string>, matchesIn: string -> seq<string>, idx: nat,
                       window: nat, hash: string -> string)
    requires idx < |sentences|
    ensures |HitsUpTo(sentences, matchesIn, idx + 1)| == |HitsUpTo(sentences, matchesIn, idx)| + |matchesIn(sentences[idx])|
    ensures DocRecords(doc, sentences, HitsUpTo(sentences, matchesIn, idx + 1), window, hash)
      == DocRecords(doc, sentences, HitsUpTo(sentences, matchesIn, idx), window, hash)
         + SentenceRecords(doc, sentences, idx, matchesIn(sentences[idx]), |HitsUpTo(sentences, matchesIn, idx)|, window, hash)
  {
    DocRecordsAppend(doc, sentences, HitsUpTo(sentences, matchesIn, idx), idx, matchesIn(sentences[idx]), window, hash);
  }

  /** The records `extract_ethnic_contexts` emits for one document. */
  function DocContexts(doc: TextRow, window: nat, sentencesOf: string -> seq<string>,
                       matchesIn: string -> seq<string>, hash: string -> string): (r: seq<ContextRecord>)
    ensures |r| == MatchCount(sentencesOf(doc.text), matchesIn, |sentencesOf(doc.text)|)
  {
    var sentences := sentencesOf(doc.text);
    HitsCount(sentences, matchesIn, |sentences|);
    DocRecords(doc, sentences, HitsUpTo(sentences, matchesIn, |sentences|), window, hash)
  }

  /** The records of all documents, document after document. */
  function Contexts(docs: seq<TextRow>, window: nat, sentencesOf: string -> seq<string>,
                    matchesIn: string -> seq<string>, hash: string -> string): seq<ContextRecord>
    decreases |docs|
  {
    if |docs| == 0 then []
    else
      var last := docs[|docs| - 1];
      Contexts(docs[..|docs| - 1], window, sentencesOf, matchesIn, hash) + DocContexts(last, window, sentencesOf, matchesIn, hash)
  }

  /**
   * Within a document the occurrence index counts the matches from 1, and two
   * matches of the same sentence share the context but not the index; when they
   * cover the same text they share the `context_id` as well.
   */
  lemma DocContextsNumbering(doc: TextRow, window: nat, sentencesOf: string -> seq<string>,
                             matchesIn: string -> seq<string>, hash: string -> string)
    ensures var r := DocContexts(doc, window, sentencesOf, matchesIn, hash);
      forall k :: 0 <= k < |r| ==> r[k].occurrenceIndex == k + 1
    ensures var r := DocContexts(doc, window, sentencesOf, matchesIn, hash);
      forall k1, k2 :: 0 <= k1 < k2 < |r| && r[k1].sentenceIndex == r[k2].sentenceIndex ==>
        r[k1].context == r[k2].context && r[k1].occurrenceIndex < r[k2].occurrenceIndex
        && (r[k1].ethnonym == r[k2].ethnonym ==> r[k1].contextId == r[k2].contextId)
  {
  }

  /**
   * Record number `MatchCount(i) + j` of a document is the record of the `j`-th
   * match of sentence `i`, with that number as its occurrence index.
   */
  lemma DocContextsPosition(doc: TextRow, window: nat, sentencesOf: string -> seq<string>,
                            matchesIn: string -> seq<string>, hash: string -> string, i: nat, j: nat)
    requires i < |sentencesOf(doc.text)| && j < |matchesIn(sentencesOf(doc.text)[i])|
    ensures var s := sentencesOf(doc.text);
      var r := DocContexts(doc, window, sentencesOf, matchesIn, hash);
      var k := MatchCount(s, matchesIn, i) + j;
      k < |r| && r[k] == MakeRecord(doc, s, i, matchesIn(s[i])[j], k + 1, window, hash)
  {
    var s := sentencesOf(doc.text);
    var hits := HitsUpTo(s, matchesIn, |s|);
    var k := MatchCount(s, matchesIn, i) + j;
    HitPosition(s, matchesIn, i, j);
    assert hits[k] == Hit(i, matchesIn(s[i])[j]);
    assert DocContexts(doc, window, sentencesOf, matchesIn, hash) == DocRecords(doc, s, hits, window, hash);
  }

  /** Records come only from matches: each record's ethnonym is a match of its target sentence, and the records follow sentence order. */
  lemma DocContextsFromMatches(doc: TextRow, window: nat, sentencesOf: string -> seq<string>,
                               matchesIn: string -> seq<string>, hash: string -> string)
    ensures var s := sentencesOf(doc.text);
      var r := DocContexts(doc, window, sentencesOf, matchesIn, hash);
      forall k :: 0 <= k < |r| ==> r[k].sentenceIndex < |s| && r[k].ethnonym in matchesIn(s[r[k].sentenceIndex])
    ensures var r := DocContexts(doc, window, sentencesOf, matchesIn, hash);
      forall k1, k2 :: 0 <= k1 < k2 < |r| ==> r[k1].sentenceIndex <= r[k2].sentenceIndex
  {
    var s := sentencesOf(doc.text);
    var hits := HitsUpTo(s, matchesIn, |s|);
    var r := DocContexts(doc, window, sentencesOf, matchesIn, hash);
    HitsAreMatches(s, matchesIn, |s|);
    HitsOrdered(s, matchesIn, |s|);
    assert forall k :: 0 <= k < |r| ==> r[k].sentenceIndex == hits[k].sentence && r[k].ethnonym == hits[k].text;
  }

  // ---------------------------------------------------------------- the loop

  /** The inner loop of `extract_ethnic_contexts`: one record per match of sentence `idx`, the counter going up by one each time. */
  method SentenceContexts(doc: TextRow, sentences: seq<string>, idx: nat, matches: seq<string>, window: nat,
                          hash: string -> string, records0: seq<ContextRecord>, counter0: nat)
    returns (records: seq<ContextRecord>, occurrenceCounter: nat)
    requires idx < |sentences|
    ensures occurrenceCounter == counter0 + |matches|
    ensures records == records0 + SentenceRecords(doc, sentences, idx, matches, counter0, window, hash)
  {
    records, occurrenceCounter := records0, counter0;
    var j := 0;
    while j < |matches|
      invariant j <= |matches|
      invariant occurrenceCounter == counter0 + j
      invariant records == records0 + SentenceRecords(doc, sentences, idx, matches[..j], counter0, window, hash)
    {
      occurrenceCounter := occurrenceCounter + 1;
      var record := MakeRecord(doc, sentences, idx, matches[j], occurrenceCounter, window, hash);
      assert SentenceRecords(doc, sentences, idx, matches[..j + 1], counter0, window, hash)
        == SentenceRecords(doc, sentences, idx, matches[..j], counter0, window, hash) + [record];
      records := records + [record];
      j := j + 1;
    }
    assert matches[..j] == matches;
  }

  /** The body of the document loop of `extract_ethnic_contexts`: the counter restarts at 0 for each document. */
  method DocumentContexts(doc: TextRow, window: nat, sentencesOf: string -> seq<string>,
                          matchesIn: string -> seq<string>, hash: string -> string)
    returns (records: seq<ContextRecord>)
    ensures records == DocContexts(doc, window, sentencesOf, matchesIn, hash)
  {
    var sentences := sentencesOf(doc.text);
    var occurrenceCounter := 0;
    records := [];
    var idx := 0;
    while idx < |sentences|
      invariant idx <= |sentences|
      invariant occurrenceCounter == |HitsUpTo(sentences, matchesIn, idx)|
      invariant records == DocRecords(doc, sentences, HitsUpTo(sentences, matchesIn, idx), window, hash)
    {
      var matches := matchesIn(sentences[idx]);
      DocRecordsStep(doc, sentences, matchesIn, idx, window, hash);
      records, occurrenceCounter := SentenceContexts(doc, sentences, idx, matches, window, hash, records, occurrenceCounter);
      idx := idx + 1;
    }
  }

  /** `extract_ethnic_contexts` without the CSV export: the records of every document, in table order. */
  method ExtractContexts(texts: seq<TextRow>, window: nat, sentencesOf: string -> seq<string>,
                         matchesIn: string -> seq<string>, hash: string -> string)
    returns (records: seq<ContextRecord>)
    ensures records == Contexts(texts, window, sentencesOf, matchesIn, hash)
    ensures |texts| == 0 ==> records == []
  {
    if |texts| == 0 {
      return [];
    }
    records := [];
    var d := 0;
    while d < |texts|
      invariant d <= |texts|
      invariant records == Contexts(texts[..d], window, sentencesOf, matchesIn, hash)
    {
      var docRecords := DocumentContexts(texts[d], window, sentencesOf, matchesIn, hash);
      assert texts[..d + 1][..d] == texts[..d];
      records := records + docRecords;
      d := d + 1;
    }
    assert texts[..d] == texts;
  }
}
