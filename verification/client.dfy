/**
 * The cached DeepSeek client of src/deepseek_module.py: an append-only JSONL
 * cache scanned from the top for the first record with the request's key, a
 * bounded retry loop around the remote call, and the task wrappers built on
 * `_cached_request`.
 *
 * The cache file is the field `log`, one entry per line. The remote API is the
 * oracle `server`, giving the outcome of the n-th request made by the client;
 * `attempts` counts the requests and `sleeps` the pauses between them. MD5 and
 * the prompt wording are the uninterpreted `md5` and `prompt`.
 */
module Annotation {
  import opened Wrappers
  import opened Text
  import opened Utils

  // ---------------------------------------------------------------- the cache file

  /** One line of the cache as `_cached_get` sees it after `line.strip()` and `json.loads`. */
  datatype CacheLine =
    | Blank                                                  // nothing but whitespace: skipped
    | Undecodable                                            // not JSON: skipped
    | NonObject                                              // JSON but not an object: `.get` raises AttributeError
    | Record(key: Option<string>, response: Option<string>)  // an object; `None` for a missing or null field

  /** What scanning the cache for a key finds. */
  datatype Lookup = Missing | Found(response: Option<string>) | Raises

  /** The first line, from the top, that decides the lookup of `key`. */
  function Find(log: seq<CacheLine>, key: string): (r: Lookup)
    decreases |log|
  {
    if |log| == 0 then Missing
    else match log[0]
      case Blank => Find(log[1..], key)
      case Undecodable => Find(log[1..], key)
      case NonObject => Raises
      case Record(k, resp) => if k == Some(key) then Found(resp) else Find(log[1..], key)
  }

  /** A line that the scan for `key` passes over. */
  predicate Skipped(line: CacheLine, key: string) {
    line.Blank? || line.Undecodable? || (line.Record? && line.key != Some(key))
  }

  /** The lookup finds the first record with the key, after lines that are all skipped, and only then. */
  lemma {:induction false} FindFirst(log: seq<CacheLine>, key: string, v: Option<string>)
    ensures Find(log, key) == Found(v) <==>
      exists i :: 0 <= i < |log| && log[i] == Record(Some(key), v) && forall j :: 0 <= j < i ==> Skipped(log[j], key)
    decreases |log|
  {
    if |log| > 0 {
      FindFirst(log[1..], key, v);
      if Find(log, key) == Found(v) && !Skipped(log[0], key) {
        assert log[0] == Record(Some(key), v);
      } else if Find(log, key) == Found(v) {
        var i :| 0 <= i < |log[1..]| && log[1..][i] == Record(Some(key), v) && forall j :: 0 <= j < i ==> Skipped(log[1..][j], key);
        assert log[i + 1] == Record(Some(key), v);
        assert forall j :: 0 < j < i + 1 ==> log[j] == log[1..][j - 1];
      }
      if exists i :: 0 <= i < |log| && log[i] == Record(Some(key), v) && forall j :: 0 <= j < i ==> Skipped(log[j], key) {
        var i :| 0 <= i < |log| && log[i] == Record(Some(key), v) && forall j :: 0 <= j < i ==> Skipped(log[j], key);
        if i > 0 {
          assert log[1..][i - 1] == Record(Some(key), v);
          assert forall j :: 0 <= j < i - 1 ==> log[1..][j] == log[j + 1];
        }
      }
    }
  }

  /** The lookup misses exactly when every line is skipped. */
  lemma {:induction false} FindMissing(log: seq<CacheLine>, key: string)
    ensures Find(log, key) == Missing <==> forall j :: 0 <= j < |log| ==> Skipped(log[j], key)
    decreases |log|
  {
    if |log| > 0 {
      FindMissing(log[1..], key);
      assert forall j :: 0 < j < |log| ==> log[j] == log[1..][j - 1];
    }
  }

  /** Appending never changes a lookup that the earlier lines already decide. */
  lemma {:induction false} FindAppend(log: seq<CacheLine>, more: seq<CacheLine>, key: string)
    requires Find(log, key) != Missing
    ensures Find(log + more, key) == Find(log, key)
    decreases |log|
  {
    assert (log + more)[0] == log[0];
    if Skipped(log[0], key) {
      assert (log + more)[1..] == log[1..] + more;
      FindAppend(log[1..], more, key);
    }
  }

  /** After a miss, an appended record is what the next lookup of its key finds. */
  lemma {:induction false} FindAfterMiss(log: seq<CacheLine>, key: string, v: string)
    requires Find(log, key) == Missing
    ensures Find(log + [Record(Some(key), Some(v))], key) == Found(Some(v))
    decreases |log|
  {
    if |log| == 0 {
      assert log + [Record(Some(key), Some(v))] == [Record(Some(key), Some(v))];
    } else {
      assert (log + [Record(Some(key), Some(v))])[1..] == log[1..] + [Record(Some(key), Some(v))];
      FindAfterMiss(log[1..], key, v);
    }
  }

  /** `_cached_get`'s result: the response found, `None` for a miss, or the AttributeError the scan raises. */
  function GetResult(l: Lookup): Result<Option<string>> {
    match l
    case Missing => Ok(None)
    case Found(resp) => Ok(resp)
    case Raises => Err(AttributeError)
  }

  /**
   * The cache answers `key` with `v`: a lookup finds `v`, or it finds a record
   * whose response is null, in which case every request with that key goes to
   * the API again. Appending lines keeps this true (FindAppend).
   */
  predicate Answers(log: seq<CacheLine>, key: string, v: string) {
    Find(log, key) == Found(Some(v)) || Find(log, key) == Found(None)
  }

  // ---------------------------------------------------------------- keys

  /** `_hash_key`: the MD5 of `task + text`, with nothing between the two. */
  function HashKey(md5: string -> string, task: string, text: string): string {
    md5(task + text)
  }

  /** The key depends on the concatenation only: moving characters between task and text keeps it. */
  lemma HashKeyOfConcat(md5: string -> string, task1: string, text1: string, task2: string, text2: string)
    requires task1 + text1 == task2 + text2
    ensures HashKey(md5, task1, text1) == HashKey(md5, task2, text2)
  {
  }

  /** `text or ""` in `_cached_request`; NaN is truthy and makes `task + text` raise TypeError. */
  function KeyText(text: Cell): Result<string> {
    match text
    case NoneCell => Ok("")
    case NaNCell => Err(TypeError)
    case Text(s) => Ok(s)
  }

  /** The text `interpret_cached` keys its request by: the title, the hint and at most 800 characters of the sample. */
  function InterpretPayload(title: string, hint: string, sample: string): (r: string)
    ensures |r| <= |title| + |hint| + 802
  {
    title + "|" + hint + "|" + sample[..if |sample| < 800 then |sample| else 800]
  }

  /** Samples that agree on their first 800 characters give `interpret_cached` the same key. */
  lemma InterpretKeyIgnoresTail(md5: string -> string, title: string, hint: string, s1: string, s2: string)
    requires |s1| >= 800 && |s2| >= 800 && s1[..800] == s2[..800]
    ensures HashKey(md5, "interpret-visual", InterpretPayload(title, hint, s1))
         == HashKey(md5, "interpret-visual", InterpretPayload(title, hint, s2))
  {
  }

  // ---------------------------------------------------------------- the retry loop

  /** What `_call_deepseek` got back from one request. */
  datatype Attempt =
    | Answered(content: string)  // status 200 and a `choices[0].message.content` string
    | HttpError(status: int)     // any other status
    | Raised                     // the request or the JSON decoding raised

  /** `requests.post` for the client's `k`-th request, as the oracle `server` answers it. */
  function Post(server: (nat, string) -> Attempt, k: nat, prompt: string): Attempt {
    server(k, prompt)
  }

  /** The stripped content of a 200; nothing for any other attempt. */
  function Reply(a: Attempt): string {
    if a.Answered? then Strip(a.content) else ""
  }

  /** An attempt that `_call_deepseek` returns from: a 200 whose stripped content is not empty. */
  predicate Good(a: Attempt) {
    Reply(a) != ""
  }

  /** The result of the retry loop, the requests it made and the pauses it took. */
  datatype CallOutcome = CallOutcome(result: string, used: nat, slept: nat)

  const Unavailable := "unavailable"

  /** Which of the client's requests with `prompt` got a good answer. */
  function GoodAt(server: (nat, string) -> Attempt, prompt: string): nat -> bool {
    (j: nat) => Good(Post(server, j, prompt))
  }

  /** The first of the `n` requests from the `start`-th that is `good`, if any. */
  function FirstGood(good: nat -> bool, start: nat, n: nat): (r: Option<nat>)
    ensures r.Some? ==> start <= r.value < start + n && good(r.value)
    ensures forall j :: start <= j < start + n && (r.None? || j < r.value) ==> !good(j)
    decreases n
  {
    if n == 0 then None
    else if good(start) then Some(start)
    else FirstGood(good, start + 1, n - 1)
  }

  /** After `k` requests that were not good, a good one is the first. */
  lemma FirstGoodFound(good: nat -> bool, start: nat, n: nat, k: nat)
    requires k < n && FirstGood(good, start, k).None? && good(start + k)
    ensures FirstGood(good, start, n) == Some(start + k)
  {
  }

  /** One more request that is not good keeps the run going. */
  lemma FirstGoodMiss(good: nat -> bool, start: nat, k: nat)
    requires FirstGood(good, start, k).None? && !good(start + k)
    ensures FirstGood(good, start, k + 1).None?
  {
  }

  /**
   * `n` attempts starting with the client's `start`-th request: it stops at the
   * first good answer and returns it stripped, and pauses after every attempt
   * that was not one; after `n` failures it gives up with "unavailable".
   */
  function Tries(server: (nat, string) -> Attempt, start: nat, prompt: string, n: nat): CallOutcome {
    match FirstGood(GoodAt(server, prompt), start, n)
    case Some(i) => CallOutcome(Reply(Post(server, i, prompt)), i - start + 1, i - start)
    case None => CallOutcome(Unavailable, n, n)
  }

  /** `_call_deepseek`: no key means no request at all. */
  function Call(apiKey: Option<string>, server: (nat, string) -> Attempt, start: nat, prompt: string, retries: int): (o: CallOutcome)
    ensures apiKey.None? || apiKey == Some("") ==> o == CallOutcome(Unavailable, 0, 0)
    ensures o.used <= if retries > 0 then retries else 0
  {
    if apiKey.None? || apiKey.value == "" then CallOutcome(Unavailable, 0, 0)
    else Tries(server, start, prompt, if retries > 0 then retries else 0)
  }

  /** The result of the call is the sentinel or a non-empty stripped answer. */
  lemma CallResult(apiKey: Option<string>, server: (nat, string) -> Attempt, start: nat, prompt: string, retries: int)
    ensures var r := Call(apiKey, server, start, prompt, retries).result;
      r == Unavailable || (r != "" && Strip(r) == r)
  {
    var n: nat := if retries > 0 then retries else 0;
    var f := FirstGood(GoodAt(server, prompt), start, n);
    if apiKey.Some? && apiKey.value != "" && f.Some? {
      StripKeepsTrimmed(Reply(Post(server, f.value, prompt)));
    }
  }

  /**
   * `_call_deepseek`: at most `retries` requests from the client's `start`-th,
   * the first good answer wins, and every attempt that fails is followed by a pause. `used` and
   * `slept` count the requests sent and the `time.sleep` calls made.
   */
  method CallDeepseek(apiKey: Option<string>, server: (nat, string) -> Attempt, start: nat, p: string, retries: int)
    returns (r: string, used: nat, slept: nat)
    ensures Call(apiKey, server, start, p, retries) == CallOutcome(r, used, slept)
  {
    if apiKey.None? || apiKey.value == "" {
      return Unavailable, 0, 0;
    }
    ghost var n: nat := if retries > 0 then retries else 0;
    var attempt := 0;
    while attempt < retries
      invariant 0 <= attempt <= n
      invariant FirstGood(GoodAt(server, p), start, attempt).None?
    {
      var outcome := Post(server, start + attempt, p);
      if outcome.Answered? {
        var result := Strip(outcome.content);
        assert result == Reply(outcome);
        if result != "" {
          FirstGoodFound(GoodAt(server, p), start, n, attempt);
          return result, attempt + 1, attempt;
        }
      }
      FirstGoodMiss(GoodAt(server, p), start, attempt);
      attempt := attempt + 1;
    }
    return Unavailable, attempt, attempt;
  }

  /** The default `retries` of `_call_deepseek`. */
  const Retries := 3

  // ---------------------------------------------------------------- the client

  class Client {
    /** The lines of the cache file, oldest first. */
    var log: seq<CacheLine>
    /** Requests sent to the API so far. */
    var attempts: nat
    /** `time.sleep(delay)` calls so far. */
    var sleeps: nat
    /** The key `_load_api_key` finds, if any. */
    const apiKey: Option<string>
    const md5: string -> string
    /** The prompt of a task for a text (the wording is not modelled). */
    const prompt: (string, string) -> string
    /** The outcome of the client's n-th request with a given prompt. */
    const server: (nat, string) -> Attempt

    constructor (log0: seq<CacheLine>, apiKey: Option<string>, md5: string -> string,
                 prompt: (string, string) -> string, server: (nat, string) -> Attempt)
      ensures log == log0 && attempts == 0 && sleeps == 0
      ensures this.apiKey == apiKey && this.md5 == md5 && this.prompt == prompt && this.server == server
    {
      log := log0;
      attempts := 0;
      sleeps := 0;
      this.apiKey := apiKey;
      this.md5 := md5;
      this.prompt := prompt;
      this.server := server;
    }

    /** `_cached_get`: scan from the top; the first record with the key answers. */
    method CachedGet(key: string) returns (r: Result<Option<string>>)
      ensures r == GetResult(Find(log, key))
    {
      var i := 0;
      while i < |log|
        invariant i <= |log|
        invariant Find(log, key) == Find(log[i..], key)
      {
        assert log[i..][1..] == log[i + 1..];
        match log[i] {
          case Blank =>
          case Undecodable =>
          case NonObject =>
            return Err(AttributeError);
          case Record(k, resp) =>
            if k == Some(key) {
              return Ok(resp);
            }
        }
        i := i + 1;
      }
      return Ok(None);
    }

    /** `_cached_set`: append one record at the end. */
    method CachedSet(key: string, resp: string)
      modifies this
      ensures log == old(log) + [Record(Some(key), Some(resp))]
      ensures attempts == old(attempts) && sleeps == old(sleeps)
    {
      log := log + [Record(Some(key), Some(resp))];
    }

    /**
     * `_cached_request`: a hit returns the stored response with no request and
     * no write; otherwise one call of the retry loop and one appended record,
     * whatever the call returned.
     */
    method CachedRequest(task: string, text: Cell, p: string) returns (r: Result<string>)
      modifies this
      ensures text.NaNCell? ==> r == Err(TypeError) && log == old(log) && attempts == old(attempts) && sleeps == old(sleeps)
      ensures !text.NaNCell? ==>
        var key := HashKey(md5, task, KeyText(text).value);
        match Find(old(log), key)
        case Raises => r == Err(AttributeError) && log == old(log) && attempts == old(attempts) && sleeps == old(sleeps)
        case Found(Some(v)) => r == Ok(v) && log == old(log) && attempts == old(attempts) && sleeps == old(sleeps)
        case _ =>
          && r.Ok? && log == old(log) + [Record(Some(key), Some(r.value))]
          && attempts >= old(attempts) && sleeps >= old(sleeps)
          && Call(apiKey, server, old(attempts), p, Retries) == CallOutcome(r.value, attempts - old(attempts), sleeps - old(sleeps))
      ensures r.Ok? ==> Answers(log, HashKey(md5, task, KeyText(text).value), r.value)
      ensures old(log) <= log
    {
      var t := KeyText(text);
      if t.Err? {
        return Err(t.error);
      }
      var key := HashKey(md5, task, t.value);
      var cached := CachedGet(key);
      if cached.Err? {
        return Err(cached.error);
      }
      if cached.value.Some? {
        return Ok(cached.value.value);
      }
      var result, used, slept := CallDeepseek(apiKey, server, attempts, p, Retries);
      attempts, sleeps := attempts + used, sleeps + slept;
      if Find(log, key) == Missing {
        FindAfterMiss(log, key, result);
      } else {
        FindAppend(log, [Record(Some(key), Some(result))], key);
      }
      CachedSet(key, result);
      return Ok(result);
    }

    /** A request that missed is answered from the cache the next time: no request, no write, same answer. */
    method RequestTwice(task: string, text: Cell, p: string) returns (r1: Result<string>, r2: Result<string>)
      modifies this
      requires !text.NaNCell? && Find(log, HashKey(md5, task, KeyText(text).value)) == Missing
      ensures r1.Ok? && r2 == r1
      ensures log == old(log) + [Record(Some(HashKey(md5, task, KeyText(text).value)), Some(r1.value))]
      ensures attempts == old(attempts) + Call(apiKey, server, old(attempts), p, Retries).used
    {
      r1 := CachedRequest(task, text, p);
      FindAfterMiss(old(log), HashKey(md5, task, KeyText(text).value), r1.value);
      r2 := CachedRequest(task, text, p);
    }

    /** `classify_context`. */
    method ClassifyContext(text: Cell) returns (r: Result<string>)
      modifies this
      ensures text.NaNCell? <==> r == Err(TypeError)
      ensures r.Ok? ==> Answers(log, HashKey(md5, "classify", KeyText(text).value), r.value)
      ensures r.Err? ==> r.error in {TypeError, AttributeError}
      ensures old(log) <= log
    {
      r := CachedRequest("classify", text, prompt("classify", CellStr(text)));
    }

    /** `detect_sentiment`. */
    method DetectSentiment(text: Cell) returns (r: Result<string>)
      modifies this
      ensures text.NaNCell? <==> r == Err(TypeError)
      ensures r.Ok? ==> Answers(log, HashKey(md5, "sentiment", KeyText(text).value), r.value)
      ensures r.Err? ==> r.error in {TypeError, AttributeError}
      ensures old(log) <= log
    {
      r := CachedRequest("sentiment", text, prompt("sentiment", CellStr(text)));
    }

    /** `summarize_context`. */
    method SummarizeContext(text: Cell) returns (r: Result<string>)
      modifies this
      ensures text.NaNCell? <==> r == Err(TypeError)
      ensures r.Ok? ==> Answers(log, HashKey(md5, "summary", KeyText(text).value), r.value)
      ensures r.Err? ==> r.error in {TypeError, AttributeError}
      ensures old(log) <= log
    {
      r := CachedRequest("summary", text, prompt("summary", CellStr(text)));
    }

    /**
     * `translate_to_russian`: an empty or missing text, or one that reads
     * "unavailable" or "none", gives "нет данных" without the cache or the API.
     */
    method TranslateToRussian(text: Cell) returns (r: Result<string>)
      modifies this
      ensures NoTranslation(text) ==> r == Ok(NoData) && log == old(log) && attempts == old(attempts) && sleeps == old(sleeps)
      ensures text.NaNCell? <==> r == Err(TypeError)
      ensures !NoTranslation(text) && r.Ok? ==> Answers(log, HashKey(md5, "translate", KeyText(text).value), r.value)
      ensures r.Err? ==> r.error in {TypeError, AttributeError}
      ensures old(log) <= log
    {
      if NoTranslation(text) {
        return Ok(NoData);
      }
      r := CachedRequest("translate", text, prompt("translate", CellStr(text)));
    }

    /** `interpret_table`: keyed by `f"{title}:{sample}"`. */
    method InterpretTable(title: string, sample: string) returns (r: Result<string>)
      modifies this
      ensures r.Ok? ==> Answers(log, HashKey(md5, "interpret-table", title + ":" + sample), r.value)
      ensures r.Err? ==> r.error == AttributeError
      ensures old(log) <= log
    {
      r := CachedRequest("interpret-table", Text(title + ":" + sample), prompt("interpret-table", title + ":" + sample));
    }

    /** `interpret_cached`: keyed by the title, the hint and the first 800 characters of the sample. */
    method InterpretCached(title: string, hint: string, sample: string) returns (r: Result<string>)
      modifies this
      ensures r.Ok? ==> Answers(log, HashKey(md5, "interpret-visual", InterpretPayload(title, hint, sample)), r.value)
      ensures r.Err? ==> r.error == AttributeError
      ensures old(log) <= log
    {
      var payload := InterpretPayload(title, hint, sample);
      r := CachedRequest("interpret-visual", Text(payload), prompt("interpret-visual", payload));
    }

    /** `request_commentary`: the prompt is both the text keyed and the text sent. */
    method RequestCommentary(p: string, task: string) returns (r: Result<string>)
      modifies this
      ensures r.Ok? ==> Answers(log, HashKey(md5, task, p), r.value)
      ensures r.Err? ==> r.error == AttributeError
      ensures old(log) <= log
    {
      r := CachedRequest(task, Text(p), p);
    }
  }

  const NoData := "нет данных"

  /** The texts `translate_to_russian` refuses, once trimmed and lower-cased. */
  const Refused: set<string> := {Unavailable, "none"}

  /** The guard of `translate_to_russian`: `not text`, or `str(text).strip().lower()` is "unavailable" or "none". */
  predicate NoTranslation(text: Cell) {
    text.NoneCell? || text == Text("") || Lower(Strip(CellStr(text))) in Refused
  }
}
