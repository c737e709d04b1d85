# A verified model of the Kalmyk-image analysis pipeline

This Dafny project models the core of a digital-humanities pipeline. The
pipeline studies how travellers' and ethnographers' texts describe the
Kalmyks. It has these stages:

- **Loading** (`src/utils.py`). The texts directory and its metadata CSV are
  loaded. Whitespace is cleaned, and identifiers are normalised so that a
  file's stem can be matched with its metadata row. The ethnonym and
  stopword lists are read.
- **Extraction** (`src/extract_contexts.py`). Every match of an ethnonym in a
  sentence yields one context record. The record holds a window of sentences
  around the match, an id hashed from its parts, and the occurrence number of
  the match within its document.
- **Annotation** (`src/deepseek_module.py`). A context is classified, given
  an attitude and summarised, and the results are translated into Russian.
  Each request goes through an append-only JSONL cache, and then through a
  retry loop with pauses.
- **The driver** (`main.py`). It cleans the contexts, keeps those of at least
  20 words, annotates them, and normalises the label and attitude answers.
- **The re-run script** (`rerun_deepseek.py`). It adds any missing annotation
  columns and re-annotates every row that has a missing, blank or
  "unavailable" cell.
- **Lexical analysis** (`src/linguistic_analysis.py`). It counts the
  adjective and verb lemmas and the place names of each context. It adds them
  as columns keyed by `context_id`, and sums the collocation records per
  group for export.
- **The PIRO table** (`src/piro_table.py`). PIRO stands for Place, Identity,
  Representation and Otherness.
- **The metadata generator** (`scripts/generate_metadata_from_filenames.py`).
  It parses `Author_YYYY_Title.txt` file names into a metadata CSV.

## How the model is organised

- `wrappers.dfy` holds the shared types: `Option`, `Result` and the Python
  exceptions the pipeline raises, `Cell` for a table value (None, NaN or a
  string), and `MapResult`, which maps a list and stops at the first
  exception.
- `text.dfy` holds the string operations the pipeline relies on. They are
  `str.strip`, `str.split`, `sep.join`, `re.sub(r"\s+", " ", ·)`, `str.lower`
  on the Latin-1 and basic Cyrillic capitals, `str(n)` and `int(s)`.
- `sorting.dfy` holds Python's string order, `sorted(set(xs))` and a stable
  `sorted(key=…)`.
- `counter.dfy` holds `collections.Counter` and its `most_common()`.
- The other files follow the source files. `utils.dfy` models
  `src/utils.py`, and so on.

The outside world is represented by parameters:

- the tagger, the sentence tokenizer and the ethnonym regex;
- the MD5 and SHA-256 hashes;
- the text decoders;
- the existence of files;
- the HTTP server, as an oracle giving the outcome of the client's n-th
  request.

Code that changes state is modelled as classes:

- the cache client, whose log, request count and pause count grow;
- the contexts table of the re-run script;
- the data frames that `clean_contexts` and `analyze_contexts` change in
  place.

## Model

| member | source | states |
|---|---|---|
| Text.CleanTextProperties | src/utils.py:44-54 | `clean_text` gives a clean string: no whitespace at either end, and every inner whitespace is one space between two words. It has the same words as its input, and cleaning again changes nothing. |
| Text.CleanTextIsJoinOfWords | src/utils.py:51-54 | Collapsing whitespace runs and stripping is exactly the single-space join of the input's words. |
| Text.WordsOfJoin | main.py:34 | Splitting a single-space join of words gives the words back, so the word count of a cleaned context is its number of words. |
| Text.SplitOfJoin | src/piro_table.py:21 | Splitting a separator join gives the pieces back when no piece holds the separator. |
| Utils.CleanCell | src/utils.py:44-54 | A value that is not a string cleans to `""`. A string cleans to a clean string with the same words, which is its own cleaning. |
| Utils.NormaliseIdentifier | src/utils.py:57-64 | The identifier holds only lower-case word characters and is never longer than its input. |
| Utils.NormaliseIdentifierIdempotent | src/utils.py:57-64 | Normalising an identifier a second time changes nothing. |
| Utils.NormaliseIgnoresNonWord | src/utils.py:64 | Inserting a non-word character anywhere (a space, punctuation) leaves the identifier unchanged. |
| Utils.NormaliseCell | src/utils.py:57-64 | None and `""` give `""`. NaN raises TypeError, and it is the only cell that raises. Otherwise the result is an identifier. |
| Utils.LoadEthnonyms | src/utils.py:249-261 | A missing file raises FileNotFoundError. Otherwise the result is strictly sorted, so it has no duplicates. Each entry is stripped, non-empty and lower-case. An entry is present exactly when some non-blank line strips and lower-cases to it. |
| Utils.LoadStopwords | src/utils.py:264-277 | A missing file gives the empty set. Otherwise a word is in the set exactly when some non-blank line strips and lower-cases to it. |
| Utils.LineEntriesMembers | src/utils.py:256-260 | The entries of the list comprehension are exactly the stripped, lower-cased, non-blank lines. |
| Utils.Slug | src/utils.py:128-141 | The slug is empty exactly when every part is. Apart from `_`, it holds no character that no part holds. |
| Utils.SlugSplits | src/utils.py:128-141 | Splitting a non-empty slug at `_` gives back its non-empty parts, in order, when no part holds `_`. |
| Utils.DocumentIdSlug | src/utils.py:128-141 | A document id built from author, an integer year or none, and title contains no space. |
| Utils.Stem | src/utils.py:123-126 | `Path(p).stem` has no `/` and is no longer than the file name. |
| Utils.StemOfTxt | src/utils.py:184-187 | The stem of `name.txt` is `name`. |
| Utils.Get | src/utils.py:119-120 | A missing column gives the default. A column beyond the end of a short row gives NaN. Otherwise the result is the row's own cell. |
| Utils.Trunc | src/utils.py:135 | `int()` of a finite float truncates toward zero: the result lies between zero and the number, less than one away from it. |
| Utils.IntYear | src/utils.py:204 | A year that `pd.to_numeric` left NaN gives no year and no error. An infinite year passes `pd.notnull`, and `int()` raises OverflowError; this is the only failure. A finite year gives an integer less than one away from it. |
| Utils.IntYearOfWhole | src/utils.py:204 | A whole-number year reads back as that integer. |
| Utils.DocumentIdCell | src/utils.py:119-141 | The `document_id` column wins when there is one. Without it, a `filename` column gives the stem of `str(filename)`. Without either, the id is the slug of author, integer year and title, and the row raises OverflowError exactly when its year is infinite. No other case fails. |
| Utils.FilenameRowMatchesById | src/utils.py:122-126 | A row whose filename is `n.txt`, in a table without `document_id`, gets the id `n`. It loads without error, and the text file `n.txt` finds it by id. |
| Utils.MetaRowOf | src/utils.py:119-143 | A row whose slug raises OverflowError fails with it. Otherwise the row fails, with TypeError, exactly when its document id is NaN. A row that loads keeps that id with its normalised form and the year as `pd.to_numeric` read it. The `source` defaults to `""`, and a filename is present exactly when the column is. |
| Utils.BuildMetadata | src/utils.py:109-144 | A missing author, year or title column raises ValueError, which comes first. Otherwise the table fails exactly when one of its rows does. The error is OverflowError when neither `document_id` nor `filename` is a column, and TypeError otherwise. On success there is one row per table row, each built as above. |
| Utils.RowErrorKind | src/utils.py:119-143 | A failing row raises TypeError or OverflowError, and OverflowError exactly when the id is the slug. |
| Utils.FirstReadable | src/utils.py:73-83 | The table of the first encoding, in the fallback order, under which the bytes both decode and parse. There is none exactly when no encoding works. |
| Utils.RaiseUnicodeDecodeError | src/utils.py:84-90 | Constructing UnicodeDecodeError gives that exception only for a bytes-like object argument. A `str` argument gives TypeError. |
| Utils.ReadFailureIsTypeError | src/utils.py:84-90 | As written, the final `raise` passes an encoding name, a `str`, as the object, so it raises TypeError whatever failed last. |
| Utils.IntendedReadFailure | src/utils.py:84-90 | With the undecodable bytes as the object argument, the error is UnicodeDecodeError. |
| Utils.ReadMetadataCsv | src/utils.py:67-90 | The first encoding under which the bytes decode and parse gives the table, which is the FirstReadable table. When no encoding works, the caller sees TypeError. |
| Utils.LoadMetadata | src/utils.py:93-144 | A missing file raises FileNotFoundError. An unreadable file raises TypeError. Otherwise the result is BuildMetadata of the first readable table, with its ValueError, TypeError and OverflowError cases, and a loaded table is well-formed. |
| Utils.Fields | src/utils.py:200-206 | The fields of a matched row keep its author, title and source. Its year is `int(year)`, or none for NaN, and an infinite year raises OverflowError. |
| Utils.MatchMetadata | src/utils.py:190-207 | When some row's normalised id equals the normalised stem, the first such row's fields are used. Otherwise, with a filename column, a NaN filename anywhere raises TypeError. With no NaN filename, the first row whose normalised filename is the normalised file name is used. With no match of either kind, there is no metadata. A used row with an infinite year raises OverflowError, and no other failure occurs. |
| Utils.TextRowOf | src/utils.py:183-219 | The row keeps the file name, the stem as its document id and the raw text. Its text is a clean string with the same words as the raw text. Without metadata, the row has none. With metadata, the row fails exactly when the match fails, with its TypeError or OverflowError, and it otherwise carries the matched fields. |
| Utils.LoadTexts | src/utils.py:147-240 | A missing directory raises FileNotFoundError. A metadata file that fails to load raises its own error. Otherwise the files of the sorted listing give one row each, in order, and the rows' file names are strictly increasing. A match that fails makes the whole load fail with its error. |
| Extract.PatternSource | src/extract_contexts.py:24-27 | The pattern is `\b(` … `)\b`. With no terms it is `\b()\b`. |
| Extract.PatternAlternatives | src/extract_contexts.py:24-27 | The alternatives of the group are exactly the escaped terms, in order, when no escaped term holds a bare `\|`. |
| Extract.WindowBounds | src/extract_contexts.py:73-75 | The window is clipped to the document and always holds the target sentence. It has at most 2·window+1 sentences. It starts at the target exactly at the first sentence or with a zero window. |
| Extract.MakeRecord | src/extract_contexts.py:73-103 | The record's target is the sentence at its index, and its ethnonym is the matched text with its lower-cased form. It keeps the document's id, file name and metadata. Its context is the window's sentences joined by spaces, and its id is the hash of document id, sentence index, match and context. |
| Extract.PreContextEmpty | src/extract_contexts.py:76-77 | With non-empty sentences, the pre-context is empty exactly at the first sentence or with a zero window. The post-context is empty exactly at the last sentence or with a zero window. |
| Extract.ContextIsPreTargetPost | src/extract_contexts.py:76-79 | The context is the pre-context, the target sentence and the post-context, joined by single spaces, where the empty parts are left out. |
| Extract.ContextIdSource | src/extract_contexts.py:80-82 | When neither the document id nor the match holds `\|`, two hashed texts are equal exactly when their four parts are equal. |
| Extract.HitPosition | src/extract_contexts.py:66-72 | The j-th match of sentence i is hit number MatchCount(i)+j of the document. |
| Extract.HitsOrdered | src/extract_contexts.py:67-71 | Hits never go back to an earlier sentence. |
| Extract.HitsAreMatches | src/extract_contexts.py:67-71 | Every hit is a match of its own sentence. |
| Extract.DocContextsNumbering | src/extract_contexts.py:66-72 | Within a document, the occurrence index counts the matches from 1. Two matches of one sentence share the context but not the index. |
| Extract.DocContextsPosition | src/extract_contexts.py:64-103 | Record number MatchCount(i)+j of a document is the record of the j-th match of sentence i, with that number as its occurrence index. |
| Extract.DocContextsFromMatches | src/extract_contexts.py:67-103 | Each record's ethnonym is a match of its target sentence, and the records follow sentence order. |
| Extract.SentenceContexts | src/extract_contexts.py:71-103 | The inner loop appends one record per match of the sentence, and the counter goes up by the number of matches. |
| Extract.DocumentContexts | src/extract_contexts.py:64-103 | The document loop body emits exactly the document's records, with the counter restarted at 0. |
| Extract.ExtractContexts | src/extract_contexts.py:30-105 | The records of every document, document after document. No texts give no records. |
| Annotation.HashKeyOfConcat | src/deepseek_module.py:34-35 | The key depends only on `task + text`. |
| Annotation.FindFirst | src/deepseek_module.py:38-56 | A lookup finds a value exactly when a record with the key follows only lines that are skipped. |
| Annotation.FindMissing | src/deepseek_module.py:38-56 | A lookup misses exactly when every line is skipped. |
| Annotation.FindAppend | src/deepseek_module.py:38-62 | Appending lines never changes a lookup that the earlier lines already decide. |
| Annotation.FindAfterMiss | src/deepseek_module.py:38-62 | After a miss, an appended record is what the next lookup of its key finds. |
| Annotation.InterpretKeyIgnoresTail | src/deepseek_module.py:179-191 | Two samples that agree on their first 800 characters give `interpret_cached` the same key. |
| Annotation.CallResult | src/deepseek_module.py:82-119 | The retry loop returns "unavailable", or a non-empty stripped answer. |
| Annotation.CallDeepseek | src/deepseek_module.py:82-119 | Without a key there is no request. Otherwise there are at most `retries` requests, and the first good answer wins. There is a pause after every attempt that fails, the last one included. A request that raises counts as a failed attempt. |
| Annotation.Client.CachedGet | src/deepseek_module.py:38-56 | The result is the first record with the key from the top, a miss, or the AttributeError that a non-object line raises. |
| Annotation.Client.CachedSet | src/deepseek_module.py:59-62 | One record is appended at the end, and nothing else changes. |
| Annotation.Client.CachedRequest | src/deepseek_module.py:122-129 | A NaN text raises TypeError and changes nothing. On a hit with a stored response, that response is returned with no request and no write. When there is no record for the key, or the first record has a null response, there is one call of the retry loop and one appended record, and the answer is the API's. The cache never loses a record. |
| Annotation.Client.RequestTwice | src/deepseek_module.py:122-129 | A request that missed is answered from the cache the next time, with no request, no write and the same answer. |
| Annotation.Client.ClassifyContext | src/deepseek_module.py:135-141 | TypeError exactly for NaN. An answer is what the cache answers for "classify" on the text. |
| Annotation.Client.DetectSentiment | src/deepseek_module.py:144-149 | The same, for the "sentiment" task. |
| Annotation.Client.SummarizeContext | src/deepseek_module.py:152-157 | The same, for the "summary" task. |
| Annotation.Client.TranslateToRussian | src/deepseek_module.py:160-165 | A missing, empty, "unavailable" or "none" text gives "нет данных" and touches neither the cache nor the API. NaN raises TypeError. Any other answer is the cached translation. |
| Annotation.Client.InterpretTable | src/deepseek_module.py:168-176 | The answer is what the cache answers for "interpret-table" on `title:sample`. |
| Annotation.Client.InterpretCached | src/deepseek_module.py:179-191 | The answer is what the cache answers for "interpret-visual" on the title, the hint and the first 800 characters of the sample. |
| Annotation.Client.RequestCommentary | src/deepseek_module.py:194-195 | The prompt is both the text keyed and the text sent. |
| Rerun.NeedsUpdateIgnoresPadding | rerun_deepseek.py:25-32 | Surrounding whitespace never changes whether a cell needs an update. |
| Rerun.NeedsUpdateTrimmed | rerun_deepseek.py:25-32 | A trimmed non-empty text needs an update exactly when it reads "unavailable" in any case. |
| Rerun.NeedsUpdateOfReply | rerun_deepseek.py:25-32 | A reply of the retry loop needs an update exactly when it is the sentinel "unavailable". |
| Rerun.NeedsUpdateAfterCall | rerun_deepseek.py:25-32 | What the retry loop returns stays settled, unless the loop gave up. |
| Rerun.ContextsTable.EnsureColumn | rerun_deepseek.py:44-48 | A missing column is added with its default to every row, and every row is marked. Otherwise every row is marked by `_needs_update`. The table keeps its shape. |
| Rerun.ContextsTable.Prepare | rerun_deepseek.py:57-71 | The six calls ensure all annotation columns. Their masks, zipped, are the flags read off the original rows. |
| Rerun.FlagsInSteps | rerun_deepseek.py:57-71 | The mask of each `_ensure_column` call, taken on the table the earlier calls left, equals the mask taken on the original rows. |
| Rerun.UnflaggedPrepared | rerun_deepseek.py:64-71 | A row without any flag already has all six columns, so preparing it changes nothing. |
| Rerun.FlaggedZero | rerun_deepseek.py:72-75 | The count of rows to update is zero exactly when no row is flagged. |
| Rerun.UpdateRow | rerun_deepseek.py:79-95 | One iteration re-annotates each flagged English cell from the context. It re-translates each Russian cell whose own flag or whose source flag is set, reading the new English cell. Every other cell is kept. |
| Rerun.RowUpdatedUnflagged | rerun_deepseek.py:64-79 | A row outside `to_update` is left exactly as it was. |
| Rerun.ContextsTable.UpdateFlagged | rerun_deepseek.py:79-95 | When the loop completes, every row is one update of its prepared self. The cache only grows. |
| Rerun.AllUpdated | rerun_deepseek.py:64-95 | Once the loop has visited every row, each row is one update of its prepared self. |
| Rerun.ResolveContextsPath | rerun_deepseek.py:35-41 | The first existing candidate is chosen. FileNotFoundError is raised exactly when neither exists. |
| Rerun.Written | rerun_deepseek.py:97-99 | The table is written back to the file read, and also to the canonical file when that was not the one read. |
| Rerun.RerunDeepseek | rerun_deepseek.py:51-102 | A missing file raises FileNotFoundError, and a missing `context` column raises ValueError, both before any change. Nothing is written exactly when no row is flagged. Otherwise every row is updated and the files written are as above. |
| Labels.NormalizeLabel | main.py:43-50 | The result is one of the five categories, "other" or "unknown". It is "unknown" exactly for a value that is not a string. |
| Labels.NormalizeLabelOfText | main.py:46-50 | A string gets the first category, in list order, that its lower-cased text contains. It gets "other" exactly when it contains none. |
| Labels.CategoryIsItsOwnLabel | main.py:47-49 | No category occurs in a later one, so each category normalises to itself. |
| Labels.ShortIsOther | main.py:47-50 | A text shorter than every category is "other". |
| Labels.NormalizeLabelIdempotent | main.py:43-50 | Normalising a produced label again changes it only when "unknown" is stored as a string, which becomes "other". |
| Labels.NormalizeAttitude | main.py:53-56 | A value that is not a string gives "unknown". A string gives its lower-cased first word, or raises IndexError when it has none, so an attitude read from a string is one lower-case word. |
| Labels.AttitudeFirstWord | main.py:56 | The attitude of whitespace, a word and anything after is that word, lower-cased. |
| Labels.AttitudeBlank | main.py:56 | IndexError is raised exactly when the text is blank. |
| Pipeline.CleanRecordMeaning | main.py:33-34 | A cleaned row has a clean context with as many words as before, and its word count is that number. Nothing else in the record changes. |
| Pipeline.LongEnoughMeaning | main.py:35 | The filter keeps exactly the rows with at least 20 words, and never more rows than it is given. |
| Pipeline.LongEnoughConcat | main.py:35 | The filter keeps the order of the rows. |
| Pipeline.ContextsFrame.CleanContexts | main.py:32-40 | The table's contexts are cleaned in place and the word counts added. The rows with at least 20 words come back, in order. |
| Pipeline.CleanContextsKeeps | main.py:32-40 | A row is kept exactly when it is the cleaning of an input row whose raw context has at least 20 words. |
| Pipeline.CleanContextsIdempotent | main.py:32-40 | Cleaning the output again keeps every row and changes none. |
| Pipeline.AnnotateColumn | main.py:83-88 | One answer per row, in order. Every answer is what the cache gives for the column's task on that row's context. |
| Pipeline.TranslateColumn | main.py:91-98 | One translation per row, in order. Each is what `translate_to_russian` gives for that row's text. |
| Pipeline.EnrichAnnotated | main.py:83-101 | Once every column is answered, each enriched row holds the normalised label and attitude of the cached answers, and their translations before normalisation. It also holds the summary and its translation. |
| Pipeline.AttitudeFailure | main.py:101 | The attitude step fails only with IndexError, and only when some cached attitude answer is blank. |
| Pipeline.AnnotateContexts | main.py:83-101 | On success, there is one annotated row per kept row, each with the columns above. A failure is an AttributeError from the cache, or an IndexError on a blank attitude. |
| Pipeline.RunMain | main.py:72-101 | No contexts, or none surviving the filter, stop with no request. Otherwise each kept row comes back annotated. |
| Counters.TallyCounts | src/linguistic_analysis.py:96 | A counter fed a list holds each item once, with its number of occurrences, and the counts add up to the length of the list. |
| Counters.MostCommonOfTally | src/linguistic_analysis.py:126-127 | `most_common()` lists the same entries with counts that never increase along the list. |
| Sorting.SortedUnique | src/utils.py:261 | `sorted(set(xs))` is strictly sorted and holds exactly the items of `xs`. |
| Sorting.SortBySorted | src/linguistic_analysis.py:140 | Sorting by a total preorder gives a sorted list. |
| Lexical.LemmasFiltered | src/linguistic_analysis.py:89-94 | A lemma is counted exactly when some token of that part of speech is alphabetic and lower-cases to it, and it is neither empty nor a stopword. |
| Lexical.LemmasClean | src/linguistic_analysis.py:89-94 | Every counted lemma is non-empty, lower-case and not a stopword. |
| Lexical.GpeTextsExact | src/linguistic_analysis.py:122-124 | The place list holds exactly the texts of the GPE entities, in order. |
| Lexical.RowFeaturesMeaning | src/linguistic_analysis.py:89-128 | The adjective and verb lists have non-increasing counts and one entry per lemma, each with its number of counted tokens. The places are the distinct GPE texts, sorted. |
| Lexical.RowCollocationsMeaning | src/linguistic_analysis.py:95-120 | A row yields one record per counted ADJ or VERB token, in token order, each carrying its lemma and part of speech. |
| Lexical.AnalyzeRow | src/linguistic_analysis.py:80-128 | One pass over the tokens and one over the entities give the row's features and its records. |
| Lexical.LoopKeyAgrees | src/linguistic_analysis.py:42-45 | The loop's key and `_normalise_context_id` agree, except for a NaN id or an empty id. |
| Lexical.KeyedLastWins | src/linguistic_analysis.py:126-128 | The dictionary holds exactly the keys written, and a key holds the value of its last write. |
| Lexical.WithIdsKeepsKeys | src/linguistic_analysis.py:150 | Every id becomes a string, a string id is kept, and a second rewrite changes nothing. |
| Lexical.ColumnsOwnFeatures | src/linguistic_analysis.py:150-159 | Every row finds an entry under its key. A row whose key no later row shares gets its own features. |
| Lexical.AsWrittenDropsNaNId | src/linguistic_analysis.py:80 | As written, a context with a NaN id gets empty feature columns, although its features are not empty. |
| Lexical.AsWrittenExportDropsNaNId | src/linguistic_analysis.py:80-141 | As written, the records of a context with a NaN id carry NaN, which the `groupby` drops, so the file has no row. Under the row key, the record is exported. |
| Lexical.AsWrittenEmptyIdUnderHash | src/linguistic_analysis.py:80-120 | As written, the records of a context whose id is `""` carry the hash of the context. Under the row key, they carry `""`. |
| Lexical.AggregateMeaning | src/linguistic_analysis.py:133-141 | The export is sorted by year, author, ethnonym and part of speech, then by count descending. Ties keep the order of the `groupby`, by context id and then lemma, so no two rows tie. Each group appears once, with the number of its kept records. |
| Lexical.AnalyzeContexts | src/linguistic_analysis.py:48-161 | With the corrected key of line 80: an empty table is returned as it is, with no export. Otherwise the ids are normalised, the three columns are the features filed under each key, and the export is the aggregate of all records, or nothing when there are none. The export is in the order Lexical.AggregateMeaning states, ties included. |
| Piro.StringifyList | src/piro_table.py:19-22 | A single value stringifies to `""` exactly when it is None or `""`. |
| Piro.KeptItemsMeaning | src/piro_table.py:21 | The kept items are exactly the texts of the truthy items, and none of them is empty. |
| Piro.StringifyListEmpty | src/piro_table.py:21 | A list stringifies to `""` exactly when none of its items is truthy. |
| Piro.StringifyListRoundTrip | src/piro_table.py:21 | When no item holds `;`, splitting the string at `;` and dropping the space after each separator gives the kept items back. |
| Piro.Identity | src/piro_table.py:56 | The identity is the normalised ethnonym when it is truthy, else the ethnonym. |
| Piro.MakePiroTable | src/piro_table.py:25-73 | There is no table exactly when the input is empty. Otherwise there is one record per row, in order. |
| Piro.PlaceEmpty | src/piro_table.py:55 | A row without place names, or without the column, has an empty Place. |
| MetadataScript.Groups | scripts/generate_metadata_from_filenames.py:21 | A match has a non-empty author made of allowed characters and a four-digit year. |
| MetadataScript.AuthorClasses | scripts/generate_metadata_from_filenames.py:21 | The author class as written excludes `_` and whitespace, and so does the intended class. |
| MetadataScript.TidyMeaning | scripts/generate_metadata_from_filenames.py:41-42 | A tidied string has no underscore and no whitespace at either end. |
| MetadataScript.ParseShape | scripts/generate_metadata_from_filenames.py:35-43 | For any author class without `_` or whitespace, including the one written at line 21: a parsed entry has an allowed author, a four-digit year, a title without underscores or whitespace at either end, and an empty source. |
| MetadataScript.ParseOfParts | scripts/generate_metadata_from_filenames.py:35-43 | For any such class: the stem `author_YYYY_rest` parses exactly when the pattern takes the rest as a title, and then gives that author, year and tidied title. |
| MetadataScript.ParseRoundTrip | scripts/generate_metadata_from_filenames.py:35-43 | For any such class: an author, a year and a clean title written as a file name parse back to themselves. |
| MetadataScript.CircumflexAuthorParses | scripts/generate_metadata_from_filenames.py:21 | The pattern as written reads the author `Câmara` off `Câmara_1900_Travels`. |
| MetadataScript.TypographicApostropheRefused | scripts/generate_metadata_from_filenames.py:21 | As written, the pattern refuses an author spelled with the typographic apostrophe. |
| MetadataScript.TypographicApostropheAccepted | scripts/generate_metadata_from_filenames.py:21 | The intended class, the written one plus `’`, accepts that author, and the name parses back to its parts. |
| MetadataScript.IntendedExtendsAsWritten | scripts/generate_metadata_from_filenames.py:21 | Whatever the pattern as written parses, the intended pattern parses to the same entry. |
| MetadataScript.WriteMetadata | scripts/generate_metadata_from_filenames.py:59-66 | The header comes first, then one row per entry, in order. |
| MetadataScript.WrittenRowsReadBack | scripts/generate_metadata_from_filenames.py:31-32 | Reading the rows after the header gives the entries back. |
| MetadataScript.CollectMeaning | scripts/generate_metadata_from_filenames.py:70-74 | An entry is collected exactly when some name parses to it, and there are no more entries than names. |
| MetadataScript.GenerateMetadata | scripts/generate_metadata_from_filenames.py:69-78 | A missing directory is an error. Nothing is written exactly when no sorted name parses with the pattern as written. Otherwise the header and the parsed entries are written, in name order. |

## Left out

- File and network I/O are not modelled. Reading and writing CSV, JSONL and
  Excel files, directory listings, `mkdir`, logging and progress bars are
  absent. Files appear as their lines, bytes or rows, and their existence as
  a parameter.
- The backup copy of `metadata.csv` (`backup_metadata`) is not modelled,
  because it only copies a file.
- The HTTP API is an oracle `server` that gives the outcome of the client's
  n-th request. `time.sleep` is counted, not timed. `_load_api_key` is the
  client's `apiKey` parameter, and the prompt wording is a parameter.
- The MD5, SHA-256, `re.escape`, the ethnonym regex matcher, the NLTK
  sentence tokenizer and the spaCy tagger are parameters. The model proves
  what the pipeline does with their results, not what they compute.
  `ensure_nltk_resources`, `_ensure_cache_dir`, `parse_args` and
  `configure_logging` are not modelled.
- Text.Lower covers only the ASCII, Latin-1 and basic Cyrillic capitals,
  because Python's full Unicode case table is out of scope. Utils.IsWordChar
  (`\w`) covers the characters up to U+00FF and the basic Cyrillic block, and
  `\d` is ASCII digits.
- Pandas is modelled only where its behaviour decides a result: NaN cells,
  `row.get`, short rows, and the NaN keys that `groupby` drops. Data frames
  are sequences of records, and column dtypes are not modelled.
- `main`'s steps after annotation are each modelled in their own module:
  `analyze_contexts` in Lexical, `make_piro_table` in Piro. Pipeline.RunMain
  stops at the annotated table, and does not model `create_visuals`,
  `generate_report` or the `summary.json`/`summary.txt` statistics.
  Pipeline.RunMain also starts from the extracted contexts. Loading the
  texts, the early exit on an empty corpus, and the extraction are modelled
  separately by Utils.LoadTexts and Extract.ExtractContexts.
- How `pd.to_numeric` reads a year string is the parameter `number` of
  Utils.BuildMetadata and Utils.LoadMetadata, because the model does not
  re-implement pandas' number parser. A string it cannot read becomes NaN,
  because of `errors="coerce"`, so the year never raises ValueError.
- Extract.ExtractContexts takes the window as a `nat`. A negative window,
  whose clipped bounds Python would read as counted from the end of the
  list, is not modelled, because no caller passes any window but the
  default of 3.
- The three dictionaries of `analyze_contexts` are one map from key to a
  `Features` value, because they are always written together under the same
  key.
- MetadataScript.GenerateMetadata reads the listing through
  `sorted(set(names))`, because a directory never lists a name twice.
- MetadataScript.ParseShape does not state that the stem is the author, `_`,
  the year, `_` and the title. That converse direction is stated by
  MetadataScript.ParseOfParts and MetadataScript.ParseRoundTrip.

## Findings

| source | as written | input that shows it | evidently intended | confidence | as-written member | corrected member |
|---|---|---|---|---|---|---|
| src/linguistic_analysis.py:80 | The loop files a row's features and its collocation records under `row.get("context_id") or hash_text(context)`. The new columns look the features up under `_normalise_context_id` (lines 42-45, 150-159). For a NaN id, the loop keeps NaN as the key, while the lookup uses the hash of the context. The `groupby` at line 136 also drops the NaN-keyed records. | A row whose `context_id` is NaN (an empty cell read back from a CSV file) and whose context has one counted adjective. Its `adjectives` column is `[]`, and its record is missing from the collocation file. | Every row gets the features of its own context, filed and looked up under the same key. Its records are exported under that key. The corrected key also exports an id of `""` as `""`, not as the hash (Lexical.AsWrittenEmptyIdUnderHash). | high; not executed | Lexical.AsWrittenDropsNaNId, Lexical.AsWrittenExportDropsNaNId | Lexical.ColumnsOwnFeatures, Lexical.AnalyzeContexts |
| scripts/generate_metadata_from_filenames.py:21 | The author class lists `â`, `€` and `™`: the UTF-8 bytes of the typographic apostrophe, decoded as Windows-1252. The apostrophe itself is not in the class. | The stem `O’Brien_1900_Travels` does not match, so the file gets no metadata row. | The class is the written one plus the typographic apostrophe `’` (U+2019). The main model keeps the class as written. | medium; not executed | MetadataScript.TypographicApostropheRefused | MetadataScript.TypographicApostropheAccepted |
| src/utils.py:84-90 | When no encoding works, the `raise` constructs UnicodeDecodeError with `getattr(last_error, "encoding", "utf-8")` as its second argument. That argument is the object, which must be bytes-like, and an encoding name is a `str`. The constructor therefore raises TypeError. | An empty `metadata.csv`: every encoding decodes it, and `pd.read_csv` fails under each one. `load_metadata` raises TypeError. | UnicodeDecodeError is raised, naming the encodings tried. The main model keeps the TypeError as written. | medium; not executed | Utils.ReadFailureIsTypeError | Utils.IntendedReadFailure |
