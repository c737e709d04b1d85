/**
 * The incremental re-annotation of rerun_deepseek.py: the contexts table is
 * read back, the six annotation columns are checked (and added with a default
 * when absent), and only the flagged cells of the flagged rows are sent to the
 * cached DeepSeek client again; a translation is redone when its own cell or
 * its English source cell was flagged.
 *
 * The table is a `ContextsTable` object whose rows are maps from column name
 * to cell, updated in place. Reading and writing the CSV file are not
 * modelled: the table object is the file's content, and the result names the
 * paths the table would be written to.
 */
module Rerun {
  import opened Wrappers
  import opened Text
  import opened Annotation

  // ---------------------------------------------------------------- columns

  /**
   * The columns `rerun_deepseek` reads or writes, by header; every other header
   * of the table is `Other` and is carried along untouched.
   */
  datatype Column =
    | Context | Semantic | Attitude | Summary | SemanticRu | AttitudeRu | SummaryRu
    | Other(name: string)

  /** The CSV header of a column. */
  function Header(c: Column): string {
    match c
    case Context => "context"
    case Semantic => "semantic_label"
    case Attitude => "attitude"
    case Summary => "summary_en"
    case SemanticRu => "semantic_label_ru"
    case AttitudeRu => "attitude_ru"
    case SummaryRu => "summary_ru"
    case Other(name) => name
  }

  /** The columns the update loop writes. */
  const Annotated: set<Column> := {Semantic, Attitude, Summary, SemanticRu, AttitudeRu, SummaryRu}

  /** `output/contexts_full.csv`, the canonical file, then `output/contexts.csv`. */
  const ContextsFull := "output/contexts_full.csv"
  const ContextsShort := "output/contexts.csv"

  type Row = map<Column, Cell>

  // ---------------------------------------------------------------- _needs_update

  /** The texts `_needs_update` treats as missing, once trimmed and lower-cased. */
  const Stale: set<string> := {"", Unavailable}

  /** `_needs_update`: forced, missing, NaN, or blank or "unavailable" once trimmed and lower-cased. */
  predicate NeedsUpdate(v: Cell, force: bool) {
    force || v.NoneCell? || v.NaNCell? || Lower(Strip(v.s)) in Stale
  }

  /** Surrounding whitespace never changes whether a cell needs an update. */
  lemma NeedsUpdateIgnoresPadding(s: string, force: bool)
    ensures NeedsUpdate(Text(s), force) == NeedsUpdate(Text(Strip(s)), force)
  {
    var t := Strip(s);
    StripKeepsTrimmed(t);
    assert Strip(t) == t;
  }

  /** A trimmed, non-empty text needs an update exactly when it reads "unavailable" in any case. */
  lemma NeedsUpdateTrimmed(s: string)
    requires s != "" && !IsSpace(s[0]) && !IsSpace(s[|s| - 1])
    ensures NeedsUpdate(Text(s), false) <==> Lower(s) == Unavailable
  {
    StripKeepsTrimmed(s);
    assert |Lower(s)| == |s|;
  }

  /** "unavailable" is written in lower-case letters only. */
  lemma UnavailableIsLower()
    ensures IsLower(Unavailable) && Lower(Unavailable) == Unavailable
  {
    var u := Unavailable;
    assert u[0] == 'u' && u[1] == 'n' && u[2] == 'a' && u[3] == 'v' && u[4] == 'a' && u[5] == 'i'
      && u[6] == 'l' && u[7] == 'a' && u[8] == 'b' && u[9] == 'l' && u[10] == 'e';
    assert forall i :: 0 <= i < |u| ==> 'a' <= u[i] <= 'z';
  }

  /** The sentinel of the retry loop is picked up again by the next run. */
  lemma UnavailableNeedsUpdate()
    ensures NeedsUpdate(Text(Unavailable), false)
  {
    var u := Unavailable;
    UnavailableIsLower();
    assert u[0] == 'u' && u[|u| - 1] == 'e';
    StripKeepsTrimmed(u);
  }

  /** A reply of the retry loop (the sentinel, or a trimmed non-empty answer) needs an update exactly when it reads "unavailable". */
  lemma NeedsUpdateOfReply(r: string)
    requires r == Unavailable || (r != "" && Strip(r) == r)
    ensures NeedsUpdate(Text(r), false) <==> r == Unavailable || Lower(r) == Unavailable
  {
    if r == Unavailable {
      UnavailableNeedsUpdate();
    } else {
      NeedsUpdateTrimmed(r);
    }
  }

  /**
   * What the retry loop returns is settled unless the loop gave up: the
   * sentinel needs another run, a real answer only when it reads "unavailable".
   */
  lemma NeedsUpdateAfterCall(apiKey: Option<string>, server: (nat, string) -> Attempt, start: nat, prompt: string, retries: int)
    ensures var r := Call(apiKey, server, start, prompt, retries).result;
      NeedsUpdate(Text(r), false) <==> r == Unavailable || Lower(r) == Unavailable
  {
    CallResult(apiKey, server, start, prompt, retries);
    NeedsUpdateOfReply(Call(apiKey, server, start, prompt, retries).result);
  }

  // ---------------------------------------------------------------- _ensure_column

  /** The row after `_ensure_column` of `column`: unchanged when present, else the default added. */
  function Ensure(row: Row, column: Column, default: string): Row {
    if column in row then row else row[column := Text(default)]
  }

  /** The `default` each annotation column is added with. */
  function Default(c: Column): string {
    match c
    case Semantic => ""
    case Attitude => ""
    case Summary => ""
    case _ => NoData
  }

  /** The flag `_ensure_column` gives a row: every row when the column is absent, else `_needs_update` of its cell. */
  predicate Marked(row: Row, column: Column, force: bool) {
    column !in row || NeedsUpdate(row[column], force)
  }

  /** The row with the annotation columns in `done` ensured: its own cells, and the default in each of those it lacked. */
  function Partial(row: Row, done: set<Column>): Row {
    map c | c in row.Keys + done :: if c in row then row[c] else Text(Default(c))
  }

  /** Ensuring nothing leaves the row as it is. */
  lemma PartialNone(row: Row)
    ensures Partial(row, {}) == row
  {
  }

  /** `_ensure_column` with a column's own default takes the ensured set one column further. */
  lemma EnsureStep(row: Row, done: set<Column>, column: Column)
    ensures Ensure(Partial(row, done), column, Default(column)) == Partial(row, done + {column})
  {
  }

  /** A column not yet ensured is flagged on the partial row as on the original one. */
  lemma MarkedPartial(row: Row, done: set<Column>, column: Column, force: bool)
    requires column !in done
    ensures Marked(Partial(row, done), column, force) == Marked(row, column, force)
  {
  }

  /** The table after `_ensure_column`: every row ensured. */
  function EnsureAll(rows: seq<Row>, column: Column, default: string): (r: seq<Row>)
    ensures |r| == |rows|
    ensures forall i :: 0 <= i < |rows| ==> r[i] == Ensure(rows[i], column, default)
  {
    seq(|rows|, i requires 0 <= i < |rows| => Ensure(rows[i], column, default))
  }

  /** The mask `_ensure_column` returns: every row's flag for the column. */
  function MarkAll(rows: seq<Row>, column: Column, force: bool): (r: seq<bool>)
    ensures |r| == |rows|
    ensures forall i :: 0 <= i < |rows| ==> r[i] == Marked(rows[i], column, force)
  {
    seq(|rows|, i requires 0 <= i < |rows| => Marked(rows[i], column, force))
  }

  /** Every row with the columns in `done` ensured. */
  function PartialAll(rows: seq<Row>, done: set<Column>): (r: seq<Row>)
    ensures |r| == |rows|
    ensures forall i :: 0 <= i < |rows| ==> r[i] == Partial(rows[i], done)
  {
    seq(|rows|, i requires 0 <= i < |rows| => Partial(rows[i], done))
  }

  lemma PartialAllNone(rows: seq<Row>)
    ensures PartialAll(rows, {}) == rows
  {
    forall i | 0 <= i < |rows| ensures PartialAll(rows, {})[i] == rows[i] {
      PartialNone(rows[i]);
    }
  }

  /** `EnsureStep` on every row of the table. */
  lemma EnsureAllStep(rows: seq<Row>, done: set<Column>, column: Column)
    ensures EnsureAll(PartialAll(rows, done), column, Default(column)) == PartialAll(rows, done + {column})
  {
    forall i | 0 <= i < |rows| ensures EnsureAll(PartialAll(rows, done), column, Default(column))[i] == PartialAll(rows, done + {column})[i] {
      EnsureStep(rows[i], done, column);
    }
  }

  /** The mask of a column not yet ensured is read off the original rows. */
  lemma MarkAllPartial(rows: seq<Row>, done: set<Column>, column: Column, force: bool)
    requires column !in done
    ensures MarkAll(PartialAll(rows, done), column, force) == MarkAll(rows, column, force)
  {
    forall i | 0 <= i < |rows| ensures MarkAll(PartialAll(rows, done), column, force)[i] == MarkAll(rows, column, force)[i] {
      MarkedPartial(rows[i], done, column, force);
    }
  }

  /** The columns ensured after the first one, two, ... five `_ensure_column` calls of `rerun_deepseek`. */
  const D1: set<Column> := {Semantic}
  const D2: set<Column> := {Semantic, Attitude}
  const D3: set<Column> := {Semantic, Attitude, Summary}
  const D4: set<Column> := {Semantic, Attitude, Summary, SemanticRu}
  const D5: set<Column> := {Semantic, Attitude, Summary, SemanticRu, AttitudeRu}

  /** Each call adds its own column, and the sixth completes the annotated columns. */
  lemma StepsDone()
    ensures {} + {Semantic} == D1 && D1 + {Attitude} == D2 && D2 + {Summary} == D3
    ensures D3 + {SemanticRu} == D4 && D4 + {AttitudeRu} == D5 && D5 + {SummaryRu} == Annotated
  {
  }

  /** The row once the six columns are ensured, in the order of `rerun_deepseek`. */
  function Prepared(row: Row): Row {
    Partial(row, Annotated)
  }

  /** The row has all six annotation columns. */
  predicate Complete(row: Row) {
    Semantic in row && Attitude in row && Summary in row && SemanticRu in row && AttitudeRu in row && SummaryRu in row
  }

  /** The six masks of one row. */
  datatype Flags = Flags(semantic: bool, attitude: bool, summary: bool, semanticRu: bool, attitudeRu: bool, summaryRu: bool)
  {
    /** The row is in `to_update`. */
    predicate Any() {
      semantic || attitude || summary || semanticRu || attitudeRu || summaryRu
    }
  }

  /**
   * The six masks of a row. `_ensure_column` checks each column on the row as
   * the earlier calls left it, but those only add other columns, so each flag
   * is read off the row itself.
   */
  function FlagsOf(row: Row, force: bool): (f: Flags)
    ensures force ==> f == Flags(true, true, true, true, true, true)
  {
    Flags(Marked(row, Semantic, force), Marked(row, Attitude, force), Marked(row, Summary, force),
          Marked(row, SemanticRu, force), Marked(row, AttitudeRu, force), Marked(row, SummaryRu, force))
  }

  /** Preparing a row that has the six columns changes nothing. */
  lemma CompletePrepared(row: Row)
    requires Complete(row)
    ensures Prepared(row) == row
  {
  }

  /** A row without any flag already has the six columns, so preparing it changes nothing. */
  lemma UnflaggedPrepared(row: Row, force: bool)
    requires !FlagsOf(row, force).Any()
    ensures Complete(row) && Prepared(row) == row
  {
    assert Complete(row);
    CompletePrepared(row);
  }

  /** The six masks of every row. */
  function FlagsAll(rows: seq<Row>, force: bool): (r: seq<Flags>)
    ensures |r| == |rows|
    ensures forall i :: 0 <= i < |rows| ==> r[i] == FlagsOf(rows[i], force)
  {
    seq(|rows|, i requires 0 <= i < |rows| => FlagsOf(rows[i], force))
  }

  /** Every row prepared. */
  function PrepareAll(rows: seq<Row>): (r: seq<Row>)
    ensures |r| == |rows|
    ensures forall i :: 0 <= i < |rows| ==> r[i] == Prepared(rows[i])
  {
    PartialAll(rows, Annotated)
  }

  /** `int(to_update.sum())`. */
  function Flagged(flags: seq<Flags>): (r: nat)
    ensures r <= |flags|
  {
    if |flags| == 0 then 0 else Flagged(flags[..|flags| - 1]) + (if flags[|flags| - 1].Any() then 1 else 0)
  }

  /** No row is counted exactly when no row is flagged. */
  lemma {:induction false} FlaggedZero(flags: seq<Flags>)
    ensures Flagged(flags) == 0 <==> forall i :: 0 <= i < |flags| ==> !flags[i].Any()
  {
    if |flags| > 0 {
      FlaggedZero(flags[..|flags| - 1]);
      assert forall i :: 0 <= i < |flags| - 1 ==> flags[..|flags| - 1][i] == flags[i];
    }
  }

  // ---------------------------------------------------------------- what an update leaves in a row

  /** The cache answers request `task` for `text` with `v`. */
  predicate Served(log: seq<CacheLine>, md5: string -> string, task: string, text: Cell, v: string) {
    !text.NaNCell? && Answers(log, HashKey(md5, task, KeyText(text).value), v)
  }

  /** A longer cache log still answers what the shorter one did. */
  lemma ServedGrows(log1: seq<CacheLine>, log2: seq<CacheLine>, md5: string -> string, task: string, text: Cell, v: string)
    requires log1 <= log2 && Served(log1, md5, task, text, v)
    ensures Served(log2, md5, task, text, v)
  {
    var key := HashKey(md5, task, KeyText(text).value);
    FindAppend(log1, log2[|log1|..], key);
    assert log1 + log2[|log1|..] == log2;
  }

  /** The task each English column is annotated with. */
  function TaskOf(column: Column): string {
    match column
    case Semantic => "classify"
    case Attitude => "sentiment"
    case _ => "summary"
  }

  /** What `translate_to_russian` leaves for a source cell: "нет данных" for a cell it refuses, else the cached answer. */
  predicate Translation(log: seq<CacheLine>, md5: string -> string, text: Cell, v: string) {
    if NoTranslation(text) then v == NoData else Served(log, md5, "translate", text, v)
  }

  /** An English cell: the answer for the row's context when flagged, else the old cell. */
  predicate Refreshed(context: Cell, was: Cell, now: Cell, flag: bool, task: string, log: seq<CacheLine>, md5: string -> string) {
    if flag then now.Text? && Served(log, md5, task, context, now.s) else now == was
  }

  /** A Russian cell: the translation of its (updated) source cell when flagged, else the old cell. */
  predicate Retranslated(source: Cell, was: Cell, now: Cell, flag: bool, log: seq<CacheLine>, md5: string -> string) {
    if flag then now.Text? && Translation(log, md5, source, now.s) else now == was
  }

  lemma RefreshedGrows(context: Cell, was: Cell, now: Cell, flag: bool, task: string,
                       log1: seq<CacheLine>, log2: seq<CacheLine>, md5: string -> string)
    requires log1 <= log2 && Refreshed(context, was, now, flag, task, log1, md5)
    ensures Refreshed(context, was, now, flag, task, log2, md5)
  {
    if flag {
      ServedGrows(log1, log2, md5, task, context, now.s);
    }
  }

  lemma RetranslatedGrows(source: Cell, was: Cell, now: Cell, flag: bool,
                          log1: seq<CacheLine>, log2: seq<CacheLine>, md5: string -> string)
    requires log1 <= log2 && Retranslated(source, was, now, flag, log1, md5)
    ensures Retranslated(source, was, now, flag, log2, md5)
  {
    if flag && !NoTranslation(source) {
      ServedGrows(log1, log2, md5, "translate", source, now.s);
    }
  }

  /**
   * One iteration of the update loop: the same columns, every cell outside the
   * six annotation columns unchanged, each English cell refreshed iff its flag
   * is set, each Russian cell redone iff its own flag or its source's is set.
   */
  ghost predicate RowUpdated(before: Row, after: Row, f: Flags, log: seq<CacheLine>, md5: string -> string) {
    && Context in before && Complete(before) && (forall c :: c in after <==> c in before)
    && (forall c :: c in before && c !in Annotated ==> after[c] == before[c])
    && Refreshed(before[Context], before[Semantic], after[Semantic], f.semantic, "classify", log, md5)
    && Refreshed(before[Context], before[Attitude], after[Attitude], f.attitude, "sentiment", log, md5)
    && Refreshed(before[Context], before[Summary], after[Summary], f.summary, "summary", log, md5)
    && Retranslated(after[Semantic], before[SemanticRu], after[SemanticRu], f.semanticRu || f.semantic, log, md5)
    && Retranslated(after[Attitude], before[AttitudeRu], after[AttitudeRu], f.attitudeRu || f.attitude, log, md5)
    && Retranslated(after[Summary], before[SummaryRu], after[SummaryRu], f.summaryRu || f.summary, log, md5)
  }

  /** A row outside `to_update` is left exactly as it was. */
  lemma RowUpdatedUnflagged(before: Row, after: Row, f: Flags, log: seq<CacheLine>, md5: string -> string)
    requires !f.Any() && RowUpdated(before, after, f, log, md5)
    ensures after == before
  {
    forall c | c in before ensures after[c] == before[c] {
      if c !in Annotated {
      } else if c == Semantic || c == Attitude || c == Summary || c == SemanticRu || c == AttitudeRu {
      }
    }
  }

  /** A row left untouched is the update of a row without flags. */
  lemma RowKept(row: Row, f: Flags, log: seq<CacheLine>, md5: string -> string)
    requires !f.Any() && Context in row && Complete(row)
    ensures RowUpdated(row, row, f, log, md5)
  {
  }

  /** What an update establishes stays true while the cache log grows. */
  lemma RowUpdatedGrows(before: Row, after: Row, f: Flags, log1: seq<CacheLine>, log2: seq<CacheLine>, md5: string -> string)
    requires log1 <= log2 && RowUpdated(before, after, f, log1, md5)
    ensures RowUpdated(before, after, f, log2, md5)
  {
    RefreshedGrows(before[Context], before[Semantic], after[Semantic], f.semantic, "classify", log1, log2, md5);
    RefreshedGrows(before[Context], before[Attitude], after[Attitude], f.attitude, "sentiment", log1, log2, md5);
    RefreshedGrows(before[Context], before[Summary], after[Summary], f.summary, "summary", log1, log2, md5);
    RetranslatedGrows(after[Semantic], before[SemanticRu], after[SemanticRu], f.semanticRu || f.semantic, log1, log2, md5);
    RetranslatedGrows(after[Attitude], before[AttitudeRu], after[AttitudeRu], f.attitudeRu || f.attitude, log1, log2, md5);
    RetranslatedGrows(after[Summary], before[SummaryRu], after[SummaryRu], f.summaryRu || f.summary, log1, log2, md5);
  }

  /** The first `n` rows are updates of their prepared selves. */
  ghost predicate RowsUpdated(before: seq<Row>, after: seq<Row>, flags: seq<Flags>, n: nat, log: seq<CacheLine>, md5: string -> string) {
    && n <= |before| == |after| == |flags|
    && forall k :: 0 <= k < n ==> RowUpdated(before[k], after[k], flags[k], log, md5)
  }

  /**
   * The loop over `to_update` after `n` rows: those are updated, the rest are
   * as `Prepare` left them.
   */
  ghost predicate Progress(before: seq<Row>, after: seq<Row>, flags: seq<Flags>, n: nat, log: seq<CacheLine>, md5: string -> string) {
    && RowsUpdated(before, after, flags, n, log, md5)
    && forall k :: n <= k < |after| ==> after[k] == before[k]
  }

  lemma ProgressStart(rows: seq<Row>, flags: seq<Flags>, log: seq<CacheLine>, md5: string -> string)
    requires |rows| == |flags|
    ensures Progress(rows, rows, flags, 0, log, md5)
  {
  }

  /** A flagged row replaced by its update, while the cache log grew. */
  lemma ProgressUpdated(before: seq<Row>, after: seq<Row>, flags: seq<Flags>, n: nat, row: Row,
                        log1: seq<CacheLine>, log2: seq<CacheLine>, md5: string -> string)
    requires Progress(before, after, flags, n, log1, md5) && n < |before| && log1 <= log2
    requires RowUpdated(before[n], row, flags[n], log2, md5)
    ensures Progress(before, after[n := row], flags, n + 1, log2, md5)
  {
    forall k | 0 <= k < n ensures RowUpdated(before[k], after[k], flags[k], log2, md5) {
      RowUpdatedGrows(before[k], after[k], flags[k], log1, log2, md5);
    }
  }

  /** A row outside `to_update` skipped. */
  lemma ProgressKept(before: seq<Row>, after: seq<Row>, flags: seq<Flags>, n: nat, log: seq<CacheLine>, md5: string -> string)
    requires Progress(before, after, flags, n, log, md5) && n < |before|
    requires !flags[n].Any() && Context in before[n] && Complete(before[n])
    ensures Progress(before, after, flags, n + 1, log, md5)
  {
    RowKept(before[n], flags[n], log, md5);
  }

  /** Every row has exactly the given columns. */
  ghost predicate Shaped(rows: seq<Row>, columns: seq<Column>) {
    forall i, c :: 0 <= i < |rows| ==> (c in rows[i] <==> c in columns)
  }

  /** Updating rows keeps the table's columns. */
  lemma ShapedUpdated(before: seq<Row>, after: seq<Row>, flags: seq<Flags>, columns: seq<Column>,
                      log: seq<CacheLine>, md5: string -> string)
    requires Shaped(before, columns) && RowsUpdated(before, after, flags, |before|, log, md5)
    ensures Shaped(after, columns)
  {
    forall i, c | 0 <= i < |after| ensures c in after[i] <==> c in columns {
      assert RowUpdated(before[i], after[i], flags[i], log, md5);
    }
  }

  /** Prepared rows have the `context` column of the original ones and the six annotation columns. */
  lemma PreparedComplete(rows: seq<Row>)
    requires forall k :: 0 <= k < |rows| ==> Context in rows[k]
    ensures forall k :: 0 <= k < |rows| ==> Context in PrepareAll(rows)[k] && Complete(PrepareAll(rows)[k])
  {
  }

  /** When `to_update` is empty, preparing changed no row and every row counts as updated. */
  lemma NothingToUpdate(base: seq<Row>, rows: seq<Row>, flags: seq<Flags>, force: bool, log: seq<CacheLine>, md5: string -> string)
    requires forall i :: 0 <= i < |base| ==> Context in base[i]
    requires rows == PrepareAll(base) && flags == FlagsAll(base, force) && Flagged(flags) == 0
    ensures rows == base
    ensures forall i :: 0 <= i < |base| ==> !FlagsOf(base[i], force).Any()
    ensures forall i :: 0 <= i < |base| ==> RowUpdated(Prepared(base[i]), rows[i], FlagsOf(base[i], force), log, md5)
  {
    FlaggedZero(flags);
    forall i | 0 <= i < |base| ensures rows[i] == base[i] && RowUpdated(base[i], base[i], flags[i], log, md5) {
      UnflaggedPrepared(base[i], force);
      RowKept(base[i], flags[i], log, md5);
    }
  }

  /** When `to_update` is not empty, some row is flagged. */
  lemma SomethingToUpdate(base: seq<Row>, flags: seq<Flags>, force: bool)
    requires flags == FlagsAll(base, force) && Flagged(flags) != 0
    ensures exists i :: 0 <= i < |base| && FlagsOf(base[i], force).Any()
  {
    FlaggedZero(flags);
    var i :| 0 <= i < |flags| && flags[i].Any();
    assert FlagsOf(base[i], force).Any();
  }

  /** Once the loop has visited every row, each row is one update of its prepared self. */
  lemma AllUpdated(base: seq<Row>, rows0: seq<Row>, rows: seq<Row>, flags: seq<Flags>, force: bool,
                   log: seq<CacheLine>, md5: string -> string)
    requires rows0 == PrepareAll(base) && flags == FlagsAll(base, force)
    requires RowsUpdated(rows0, rows, flags, |flags|, log, md5)
    ensures |rows| == |base|
    ensures forall i :: 0 <= i < |base| ==> RowUpdated(Prepared(base[i]), rows[i], FlagsOf(base[i], force), log, md5)
  {
    forall i | 0 <= i < |base| ensures RowUpdated(Prepared(base[i]), rows[i], FlagsOf(base[i], force), log, md5) {
      assert RowUpdated(rows0[i], rows[i], flags[i], log, md5);
    }
  }

  // ---------------------------------------------------------------- the table

  /** The contexts DataFrame: its column names in order and its rows. */
  class ContextsTable {
    var columns: seq<Column>
    var rows: seq<Row>

    /** Every row has exactly the table's columns. */
    ghost predicate Valid()
      reads this
    {
      Shaped(rows, columns)
    }

    constructor (columns: seq<Column>, rows: seq<Row>)
      requires Shaped(rows, columns)
      ensures Valid() && this.columns == columns && this.rows == rows
    {
      this.columns := columns;
      this.rows := rows;
    }

    /** `_ensure_column`: mark rows by `_needs_update`, or add the column with its default and mark them all. */
    method EnsureColumn(column: Column, force: bool, default: string) returns (flags: seq<bool>)
      requires Valid()
      modifies this
      ensures Valid()
      ensures columns == if column in old(columns) then old(columns) else old(columns) + [column]
      ensures rows == EnsureAll(old(rows), column, default)
      ensures flags == MarkAll(old(rows), column, force)
    {
      var rs := rows;
      flags := MarkAll(rs, column, force);
      if column !in columns {
        columns := columns + [column];
        rows := EnsureAll(rs, column, default);
      } else {
        assert rows == EnsureAll(rs, column, default);
      }
    }

    /** The six `_ensure_column` calls of `rerun_deepseek`, their masks zipped row by row. */
    method Prepare(force: bool) returns (flags: seq<Flags>)
      requires Valid()
      modifies this
      ensures Valid()
      ensures rows == PrepareAll(old(rows))
      ensures flags == FlagsAll(old(rows), force)
    {
      ghost var base := rows;
      var semantic := EnsureColumn(Semantic, force, "");
      var attitude := EnsureColumn(Attitude, force, "");
      var summary := EnsureColumn(Summary, force, "");
      var semanticRu := EnsureColumn(SemanticRu, force, NoData);
      var attitudeRu := EnsureColumn(AttitudeRu, force, NoData);
      var summaryRu := EnsureColumn(SummaryRu, force, NoData);
      flags := Zip(semantic, attitude, summary, semanticRu, attitudeRu, summaryRu);
      PreparedInSteps(base);
      FlagsInSteps(base, force);
    }

    /**
     * The loop of `rerun_deepseek` over the rows in `to_update`: each flagged
     * row replaced by one update, the others skipped.
     */
    method UpdateFlagged(client: Client, flags: seq<Flags>) returns (r: Result<()>)
      requires Valid() && |flags| == |rows|
      requires forall k :: 0 <= k < |rows| ==> Context in rows[k] && Complete(rows[k])
      modifies this, client
      ensures old(client.log) <= client.log
      ensures r.Ok? ==> Valid() && RowsUpdated(old(rows), rows, flags, |flags|, client.log, client.md5)
    {
      ghost var rows0 := rows;
      ProgressStart(rows0, flags, client.log, client.md5);
      var i := 0;
      while i < |rows|
        invariant 0 <= i <= |rows| == |rows0| == |flags|
        invariant columns == old(columns)
        invariant Progress(rows0, rows, flags, i, client.log, client.md5)
        invariant old(client.log) <= client.log
      {
        if flags[i].Any() {
          ghost var log0 := client.log;
          var row := UpdateRow(client, rows[i], flags[i]);
          if row.Err? {
            return Err(row.error);
          }
          ProgressUpdated(rows0, rows, flags, i, row.value, log0, client.log, client.md5);
          rows := rows[i := row.value];
        } else {
          ProgressKept(rows0, rows, flags, i, client.log, client.md5);
        }
        i := i + 1;
      }
      ShapedUpdated(rows0, rows, flags, columns, client.log, client.md5);
      return Ok(());
    }
  }

  /** The six masks of `rerun_deepseek`, row by row. */
  function Zip(semantic: seq<bool>, attitude: seq<bool>, summary: seq<bool>,
               semanticRu: seq<bool>, attitudeRu: seq<bool>, summaryRu: seq<bool>): (r: seq<Flags>)
    requires |semantic| == |attitude| == |summary| == |semanticRu| == |attitudeRu| == |summaryRu|
    ensures |r| == |semantic|
    ensures forall i :: 0 <= i < |r| ==>
      r[i] == Flags(semantic[i], attitude[i], summary[i], semanticRu[i], attitudeRu[i], summaryRu[i])
  {
    seq(|semantic|, i requires 0 <= i < |semantic| =>
      Flags(semantic[i], attitude[i], summary[i], semanticRu[i], attitudeRu[i], summaryRu[i]))
  }

  /** The masks of the six columns, each read off the original rows, zip to the flags of those rows. */
  lemma ZipFlags(rows: seq<Row>, force: bool)
    ensures Zip(MarkAll(rows, Semantic, force), MarkAll(rows, Attitude, force), MarkAll(rows, Summary, force),
                MarkAll(rows, SemanticRu, force), MarkAll(rows, AttitudeRu, force), MarkAll(rows, SummaryRu, force))
            == FlagsAll(rows, force)
  {
  }

  /** The first three `_ensure_column` calls of `rerun_deepseek` ensure the English columns. */
  lemma EnglishInSteps(rows: seq<Row>)
    ensures EnsureAll(EnsureAll(EnsureAll(rows, Semantic, ""), Attitude, ""), Summary, "") == PartialAll(rows, D3)
  {
    PartialAllNone(rows);
    StepsDone();
    EnsureAllStep(rows, {}, Semantic);
    EnsureAllStep(rows, D1, Attitude);
    EnsureAllStep(rows, D2, Summary);
  }

  /** The last three calls ensure the Russian columns, which completes the preparation. */
  lemma RussianInSteps(rows: seq<Row>)
    ensures EnsureAll(EnsureAll(EnsureAll(PartialAll(rows, D3), SemanticRu, NoData), AttitudeRu, NoData), SummaryRu, NoData)
            == PrepareAll(rows)
  {
    StepsDone();
    EnsureAllStep(rows, D3, SemanticRu);
    EnsureAllStep(rows, D4, AttitudeRu);
    EnsureAllStep(rows, D5, SummaryRu);
  }

  /** The six `_ensure_column` calls, in order, prepare every row. */
  lemma PreparedInSteps(rows: seq<Row>)
    ensures EnsureAll(EnsureAll(EnsureAll(EnsureAll(EnsureAll(EnsureAll(rows,
              Semantic, ""), Attitude, ""), Summary, ""), SemanticRu, NoData), AttitudeRu, NoData), SummaryRu, NoData)
            == PrepareAll(rows)
  {
    EnglishInSteps(rows);
    RussianInSteps(rows);
  }

  /** The masks of the first three calls read the English columns of the original rows. */
  lemma EnglishMasks(rows: seq<Row>, force: bool)
    ensures MarkAll(EnsureAll(rows, Semantic, ""), Attitude, force) == MarkAll(rows, Attitude, force)
    ensures MarkAll(EnsureAll(EnsureAll(rows, Semantic, ""), Attitude, ""), Summary, force) == MarkAll(rows, Summary, force)
  {
    PartialAllNone(rows);
    StepsDone();
    EnsureAllStep(rows, {}, Semantic);
    EnsureAllStep(rows, D1, Attitude);
    MarkAllPartial(rows, D1, Attitude, force);
    MarkAllPartial(rows, D2, Summary, force);
  }

  /** The masks of the last three calls read the Russian columns of the original rows. */
  lemma RussianMasks(rows: seq<Row>, force: bool)
    ensures MarkAll(PartialAll(rows, D3), SemanticRu, force) == MarkAll(rows, SemanticRu, force)
    ensures MarkAll(EnsureAll(PartialAll(rows, D3), SemanticRu, NoData), AttitudeRu, force) == MarkAll(rows, AttitudeRu, force)
    ensures MarkAll(EnsureAll(EnsureAll(PartialAll(rows, D3), SemanticRu, NoData), AttitudeRu, NoData), SummaryRu, force)
            == MarkAll(rows, SummaryRu, force)
  {
    StepsDone();
    EnsureAllStep(rows, D3, SemanticRu);
    EnsureAllStep(rows, D4, AttitudeRu);
    MarkAllPartial(rows, D3, SemanticRu, force);
    MarkAllPartial(rows, D4, AttitudeRu, force);
    MarkAllPartial(rows, D5, SummaryRu, force);
  }

  /** The masks of the six `_ensure_column` calls, each taken on the table as the earlier calls left it, zip to the flags of the original rows. */
  lemma FlagsInSteps(rows: seq<Row>, force: bool)
    ensures var r1 := EnsureAll(rows, Semantic, "");
            var r2 := EnsureAll(r1, Attitude, "");
            var r3 := EnsureAll(r2, Summary, "");
            var r4 := EnsureAll(r3, SemanticRu, NoData);
            var r5 := EnsureAll(r4, AttitudeRu, NoData);
            Zip(MarkAll(rows, Semantic, force), MarkAll(r1, Attitude, force), MarkAll(r2, Summary, force),
                MarkAll(r3, SemanticRu, force), MarkAll(r4, AttitudeRu, force), MarkAll(r5, SummaryRu, force))
            == FlagsAll(rows, force)
  {
    EnglishInSteps(rows);
    EnglishMasks(rows, force);
    RussianMasks(rows, force);
    ZipFlags(rows, force);
  }

  // ---------------------------------------------------------------- the update loop

  /** `classify_context`, `detect_sentiment` or `summarize_context`, as the column asks. */
  method Annotate(client: Client, column: Column, text: Cell) returns (r: Result<string>)
    modifies client
    ensures old(client.log) <= client.log
    ensures text.NaNCell? <==> r == Err(TypeError)
    ensures r.Err? ==> r.error in {TypeError, AttributeError}
    ensures r.Ok? ==> Served(client.log, client.md5, TaskOf(column), text, r.value)
  {
    if column == Semantic {
      r := client.ClassifyContext(text);
    } else if column == Attitude {
      r := client.DetectSentiment(text);
    } else {
      r := client.SummarizeContext(text);
    }
  }

  /** `translate_to_russian` of a cell. */
  method Translate(client: Client, text: Cell) returns (r: Result<string>)
    modifies client
    ensures old(client.log) <= client.log
    ensures text.NaNCell? <==> r == Err(TypeError)
    ensures r.Err? ==> r.error in {TypeError, AttributeError}
    ensures r.Ok? ==> Translation(client.log, client.md5, text, r.value)
  {
    r := client.TranslateToRussian(text);
  }

  /** An English cell of one row: re-annotated from the row's context when flagged, else kept. */
  method RefreshCell(client: Client, context: Cell, was: Cell, flag: bool, column: Column) returns (r: Result<Cell>)
    modifies client
    ensures old(client.log) <= client.log
    ensures r.Ok? ==> Refreshed(context, was, r.value, flag, TaskOf(column), client.log, client.md5)
  {
    if !flag {
      return Ok(was);
    }
    var v := Annotate(client, column, context);
    if v.Err? {
      return Err(v.error);
    }
    return Ok(Text(v.value));
  }

  /** A Russian cell of one row: the translation of its source cell when flagged, else kept. */
  method TranslateCell(client: Client, source: Cell, was: Cell, flag: bool) returns (r: Result<Cell>)
    modifies client
    ensures old(client.log) <= client.log
    ensures r.Ok? ==> Retranslated(source, was, r.value, flag, client.log, client.md5)
  {
    if !flag {
      return Ok(was);
    }
    var v := Translate(client, source);
    if v.Err? {
      return Err(v.error);
    }
    return Ok(Text(v.value));
  }

  /** The English half of one iteration: `semantic_label`, `attitude`, `summary_en`, each when flagged. */
  method RefreshRow(client: Client, row: Row, f: Flags) returns (r: Result<Row>)
    requires Context in row && Complete(row)
    modifies client
    ensures old(client.log) <= client.log
    ensures r.Ok? ==> Complete(r.value)
    ensures r.Ok? ==> r.value == row[Semantic := r.value[Semantic]][Attitude := r.value[Attitude]][Summary := r.value[Summary]]
    ensures r.Ok? ==> Refreshed(row[Context], row[Semantic], r.value[Semantic], f.semantic, "classify", client.log, client.md5)
    ensures r.Ok? ==> Refreshed(row[Context], row[Attitude], r.value[Attitude], f.attitude, "sentiment", client.log, client.md5)
    ensures r.Ok? ==> Refreshed(row[Context], row[Summary], r.value[Summary], f.summary, "summary", client.log, client.md5)
  {
    var semantic := RefreshCell(client, row[Context], row[Semantic], f.semantic, Semantic);
    if semantic.Err? {
      return Err(semantic.error);
    }
    ghost var log1 := client.log;
    var attitude := RefreshCell(client, row[Context], row[Attitude], f.attitude, Attitude);
    if attitude.Err? {
      return Err(attitude.error);
    }
    ghost var log2 := client.log;
    var summary := RefreshCell(client, row[Context], row[Summary], f.summary, Summary);
    if summary.Err? {
      return Err(summary.error);
    }
    RefreshedGrows(row[Context], row[Semantic], semantic.value, f.semantic, "classify", log1, client.log, client.md5);
    RefreshedGrows(row[Context], row[Attitude], attitude.value, f.attitude, "sentiment", log2, client.log, client.md5);
    return Ok(row[Semantic := semantic.value][Attitude := attitude.value][Summary := summary.value]);
  }

  /** The Russian half of one iteration, reading the English cells as the first half left them. */
  method TranslateRow(client: Client, row: Row, f: Flags) returns (r: Result<Row>)
    requires Complete(row)
    modifies client
    ensures old(client.log) <= client.log
    ensures r.Ok? ==> Complete(r.value)
    ensures r.Ok? ==> r.value == row[SemanticRu := r.value[SemanticRu]][AttitudeRu := r.value[AttitudeRu]][SummaryRu := r.value[SummaryRu]]
    ensures r.Ok? ==> Retranslated(row[Semantic], row[SemanticRu], r.value[SemanticRu], f.semanticRu || f.semantic, client.log, client.md5)
    ensures r.Ok? ==> Retranslated(row[Attitude], row[AttitudeRu], r.value[AttitudeRu], f.attitudeRu || f.attitude, client.log, client.md5)
    ensures r.Ok? ==> Retranslated(row[Summary], row[SummaryRu], r.value[SummaryRu], f.summaryRu || f.summary, client.log, client.md5)
  {
    var semantic := TranslateCell(client, row[Semantic], row[SemanticRu], f.semanticRu || f.semantic);
    if semantic.Err? {
      return Err(semantic.error);
    }
    ghost var log1 := client.log;
    var attitude := TranslateCell(client, row[Attitude], row[AttitudeRu], f.attitudeRu || f.attitude);
    if attitude.Err? {
      return Err(attitude.error);
    }
    ghost var log2 := client.log;
    var summary := TranslateCell(client, row[Summary], row[SummaryRu], f.summaryRu || f.summary);
    if summary.Err? {
      return Err(summary.error);
    }
    RetranslatedGrows(row[Semantic], row[SemanticRu], semantic.value, f.semanticRu || f.semantic, log1, client.log, client.md5);
    RetranslatedGrows(row[Attitude], row[AttitudeRu], attitude.value, f.attitudeRu || f.attitude, log2, client.log, client.md5);
    return Ok(row[SemanticRu := semantic.value][AttitudeRu := attitude.value][SummaryRu := summary.value]);
  }

  /** The English half followed by the Russian half is one update of the row. */
  lemma HalvesUpdated(row: Row, a: Row, b: Row, f: Flags, log: seq<CacheLine>, md5: string -> string)
    requires Context in row && Complete(row) && Complete(a) && Complete(b)
    requires a == row[Semantic := a[Semantic]][Attitude := a[Attitude]][Summary := a[Summary]]
    requires b == a[SemanticRu := b[SemanticRu]][AttitudeRu := b[AttitudeRu]][SummaryRu := b[SummaryRu]]
    requires Refreshed(row[Context], row[Semantic], a[Semantic], f.semantic, "classify", log, md5)
    requires Refreshed(row[Context], row[Attitude], a[Attitude], f.attitude, "sentiment", log, md5)
    requires Refreshed(row[Context], row[Summary], a[Summary], f.summary, "summary", log, md5)
    requires Retranslated(a[Semantic], a[SemanticRu], b[SemanticRu], f.semanticRu || f.semantic, log, md5)
    requires Retranslated(a[Attitude], a[AttitudeRu], b[AttitudeRu], f.attitudeRu || f.attitude, log, md5)
    requires Retranslated(a[Summary], a[SummaryRu], b[SummaryRu], f.summaryRu || f.summary, log, md5)
    ensures RowUpdated(row, b, f, log, md5)
  {
    assert b[Semantic] == a[Semantic] && b[Attitude] == a[Attitude] && b[Summary] == a[Summary];
    assert a[SemanticRu] == row[SemanticRu] && a[AttitudeRu] == row[AttitudeRu] && a[SummaryRu] == row[SummaryRu];
  }

  /** One iteration of the update loop over a flagged row. */
  method UpdateRow(client: Client, row: Row, f: Flags) returns (r: Result<Row>)
    requires Context in row && Complete(row)
    modifies client
    ensures old(client.log) <= client.log
    ensures r.Ok? ==> RowUpdated(row, r.value, f, client.log, client.md5)
  {
    var english := RefreshRow(client, row, f);
    if english.Err? {
      return english;
    }
    ghost var log1 := client.log;
    var a := english.value;
    var russian := TranslateRow(client, a, f);
    if russian.Err? {
      return russian;
    }
    RefreshedGrows(row[Context], row[Semantic], a[Semantic], f.semantic, "classify", log1, client.log, client.md5);
    RefreshedGrows(row[Context], row[Attitude], a[Attitude], f.attitude, "sentiment", log1, client.log, client.md5);
    RefreshedGrows(row[Context], row[Summary], a[Summary], f.summary, "summary", log1, client.log, client.md5);
    HalvesUpdated(row, a, russian.value, f, client.log, client.md5);
    return russian;
  }

  /** `_resolve_contexts_path`: the first candidate that exists. */
  function ResolveContextsPath(present: string -> bool): (r: Result<string>)
    ensures r.Ok? <==> present(ContextsFull) || present(ContextsShort)
    ensures r.Ok? ==> present(r.value) && (r.value == ContextsFull || (r.value == ContextsShort && !present(ContextsFull)))
    ensures r.Err? ==> r.error == FileNotFound
  {
    if present(ContextsFull) then Ok(ContextsFull)
    else if present(ContextsShort) then Ok(ContextsShort)
    else Err(FileNotFound)
  }

  /** The files written back: the one read, and the canonical file as well when that was not it. */
  function Written(path: string): (r: seq<string>)
    ensures |r| > 0 && r[0] == path && r[|r| - 1] == ContextsFull
    ensures path == ContextsFull <==> |r| == 1
  {
    if path == ContextsFull then [path] else [path, ContextsFull]
  }

  /**
   * `rerun_deepseek`: the paths the table is written to, or the exception that
   * stops it. Without a `context` column nothing happens; when no row is
   * flagged nothing is written; otherwise every row ends up as one update of
   * its prepared self, and rows outside `to_update` are left as they were.
   */
  method RerunDeepseek(t: ContextsTable, client: Client, force: bool, present: string -> bool) returns (r: Result<seq<string>>)
    requires t.Valid()
    modifies t, client
    ensures ResolveContextsPath(present).Err? ==> r == Err(FileNotFound)
    ensures ResolveContextsPath(present).Ok? && Context !in old(t.columns) ==> r == Err(ValueError)
    ensures ResolveContextsPath(present).Err? || Context !in old(t.columns) ==> t.rows == old(t.rows) && client.log == old(client.log)
    ensures old(client.log) <= client.log
    ensures r.Ok? ==> t.Valid() && |t.rows| == |old(t.rows)|
    ensures r.Ok? ==> forall i :: 0 <= i < |t.rows| ==>
      RowUpdated(Prepared(old(t.rows)[i]), t.rows[i], FlagsOf(old(t.rows)[i], force), client.log, client.md5)
    ensures r.Ok? ==> (r.value == [] <==> forall i :: 0 <= i < |old(t.rows)| ==> !FlagsOf(old(t.rows)[i], force).Any())
    ensures r == Ok([]) ==> t.rows == old(t.rows) && client.log == old(client.log)
    ensures r.Ok? && r.value != [] ==> r.value == Written(ResolveContextsPath(present).value)
  {
    var path := ResolveContextsPath(present);
    if path.Err? {
      return Err(path.error);
    }
    if Context !in t.columns {
      return Err(ValueError);
    }
    ghost var base := t.rows;
    var flags := t.Prepare(force);
    ghost var rows0 := t.rows;
    if Flagged(flags) == 0 {
      NothingToUpdate(base, rows0, flags, force, client.log, client.md5);
      return Ok([]);
    }
    SomethingToUpdate(base, flags, force);
    PreparedComplete(base);
    var updated := t.UpdateFlagged(client, flags);
    if updated.Err? {
      return Err(updated.error);
    }
    AllUpdated(base, rows0, t.rows, flags, force, client.log, client.md5);
    return Ok(Written(path.value));
  }
}
