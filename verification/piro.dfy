/**
 * The PIRO table (Place, Identity, Representation, Otherness) of
 * src/piro_table.py: one record per enriched context, with the place names
 * flattened into one string.
 */
module Piro {
  import opened Wrappers
  import opened Text
  import opened Utils

  // ---------------------------------------------------------------- _stringify_list

  /** What `_stringify_list` may be given: a list (or tuple or set) of cells, or a single cell. */
  datatype Value = Items(items: seq<Cell>) | Scalar(c: Cell)

  /** `str(item) for item in values if item`: the text of every truthy item, in order. */
  function KeptItems(items: seq<Cell>): seq<string>
    decreases |items|
  {
    if |items| == 0 then []
    else
      var n := |items| - 1;
      KeptItems(items[..n]) + (if Truthy(items[n]) then [CellStr(items[n])] else [])
  }

  const Separator := "; "

  /**
   * `_stringify_list`: the kept items joined with "; ". A single value gives
   * its text, except None, which gives "". NaN gives "nan": the test
   * `values not in (None, float("nan"))` compares with a fresh NaN, which is
   * equal to nothing.
   */
  function StringifyList(v: Value): (r: string)
    ensures v.Scalar? ==> (r == "" <==> v.c == NoneCell || v.c == Text(""))
  {
    match v
    case Items(xs) => Join(Separator, KeptItems(xs))
    case Scalar(c) => if c.NoneCell? then "" else CellStr(c)
  }

  /** The kept items are the texts of the truthy items; none of them is empty. */
  lemma {:induction false} KeptItemsMeaning(items: seq<Cell>)
    ensures forall s :: s in KeptItems(items) ==> |s| > 0
    ensures forall s :: s in KeptItems(items) <==> exists i :: 0 <= i < |items| && Truthy(items[i]) && CellStr(items[i]) == s
    decreases |items|
  {
    if |items| > 0 {
      var n := |items| - 1;
      KeptItemsMeaning(items[..n]);
      forall s ensures s in KeptItems(items) <==> exists i :: 0 <= i < |items| && Truthy(items[i]) && CellStr(items[i]) == s {
        if s in KeptItems(items[..n]) {
          var i :| 0 <= i < n && Truthy(items[..n][i]) && CellStr(items[..n][i]) == s;
          assert items[i] == items[..n][i];
        }
        if exists i :: 0 <= i < |items| && Truthy(items[i]) && CellStr(items[i]) == s {
          var i :| 0 <= i < |items| && Truthy(items[i]) && CellStr(items[i]) == s;
          if i < n {
            assert items[..n][i] == items[i];
          }
        }
      }
    }
  }

  /** A list stringifies to "" exactly when none of its items is truthy. */
  lemma StringifyListEmpty(items: seq<Cell>)
    ensures StringifyList(Items(items)) == "" <==> forall i :: 0 <= i < |items| ==> !Truthy(items[i])
  {
    KeptItemsMeaning(items);
    var kept := KeptItems(items);
    JoinEmpty(Separator, kept);
    if |kept| > 0 {
      assert kept[0] in kept;
    }
    if i :| 0 <= i < |items| && Truthy(items[i]) {
      assert CellStr(items[i]) in kept;
    }
  }

  /** Every piece but the first gets a leading space. */
  function Spaced(xs: seq<string>): (r: seq<string>)
    ensures |r| == |xs| && forall i :: 0 <= i < |xs| ==> r[i] == " " + xs[i]
  {
    seq(|xs|, i requires 0 <= i < |xs| => " " + xs[i])
  }

  lemma {:induction false} JoinSpaced(xs: seq<string>)
    requires |xs| > 0
    ensures Join([';'], Spaced(xs)) == " " + Join(Separator, xs)
    decreases |xs|
  {
    if |xs| > 1 {
      JoinSpaced(xs[1..]);
      assert Spaced(xs)[1..] == Spaced(xs[1..]);
      assert " " + xs[0] + [';'] + (" " + Join(Separator, xs[1..])) == " " + (xs[0] + Separator + Join(Separator, xs[1..]));
    }
  }

  lemma SemicolonSpace(a: string, b: string)
    ensures a + [';'] + (" " + b) == a + Separator + b
  {
    assert [';'] + " " == Separator;
    assert a + [';'] + (" " + b) == a + ([';'] + " ") + b;
  }

  /** "; " joining is ";" joining with a space in front of every later piece. */
  lemma JoinAsSemicolons(xs: seq<string>)
    requires |xs| > 0
    ensures Join(Separator, xs) == Join([';'], [xs[0]] + Spaced(xs[1..]))
  {
    var p := [xs[0]] + Spaced(xs[1..]);
    if |xs| > 1 {
      var rest := Join(Separator, xs[1..]);
      JoinSpaced(xs[1..]);
      assert p[1..] == Spaced(xs[1..]);
      calc {
        Join([';'], p);
        p[0] + [';'] + Join([';'], p[1..]);
        xs[0] + [';'] + (" " + rest);
        { SemicolonSpace(xs[0], rest); }
        xs[0] + Separator + rest;
        Join(Separator, xs);
      }
    } else {
      assert p == xs;
    }
  }

  /** Take the pieces of a split back: drop the space in front of every piece but the first. */
  function Unspaced(pieces: seq<string>): seq<string>
    requires forall i :: 0 < i < |pieces| ==> |pieces[i]| > 0
  {
    if |pieces| == 0 then [] else [pieces[0]] + seq(|pieces| - 1, i requires 0 <= i < |pieces| - 1 => pieces[i + 1][1..])
  }

  /** Unspacing undoes spacing. */
  lemma UnspacedSpaced(xs: seq<string>)
    requires |xs| > 0
    ensures var p := [xs[0]] + Spaced(xs[1..]);
      (forall i :: 0 < i < |p| ==> |p[i]| > 0) && Unspaced(p) == xs
  {
    var p := [xs[0]] + Spaced(xs[1..]);
    var u := Unspaced(p);
    assert |u| == |xs|;
    forall i | 0 <= i < |xs| ensures u[i] == xs[i] {
      if i > 0 {
        assert p[i] == " " + xs[i];
        assert (" " + xs[i])[1..] == xs[i];
      }
    }
  }

  /**
   * When no item holds ';', the list can be read back from its string:
   * split at ';' and drop the space after each separator.
   */
  lemma StringifyListRoundTrip(items: seq<Cell>)
    requires forall i :: 0 <= i < |items| ==> ';' !in CellStr(items[i])
    requires exists i :: 0 <= i < |items| && Truthy(items[i])
    ensures var pieces := Split(';', StringifyList(Items(items)));
      (forall i :: 0 < i < |pieces| ==> |pieces[i]| > 0) && Unspaced(pieces) == KeptItems(items)
  {
    var kept := KeptItems(items);
    KeptItemsMeaning(items);
    var i :| 0 <= i < |items| && Truthy(items[i]);
    assert CellStr(items[i]) in kept;
    var parts := [kept[0]] + Spaced(kept[1..]);
    forall j | 0 <= j < |parts| ensures ';' !in parts[j] {
      if j == 0 {
        assert kept[0] in kept;
      } else {
        assert kept[j] in kept;
        assert parts[j] == " " + kept[j];
      }
    }
    JoinAsSemicolons(kept);
    SplitOfJoin(';', parts);
    UnspacedSpaced(kept);
  }

  // ---------------------------------------------------------------- make_piro_table

  /** The columns of an enriched context row that the PIRO table reads. */
  datatype EnrichedRow = EnrichedRow(
    contextId: Cell, author: Cell, year: Option<int>, title: Cell, source: Cell,
    ethnonym: Cell, ethnonymNormalised: Cell, toponyms: Option<Value>,
    semanticLabel: Cell, semanticLabelRu: Cell, attitude: Cell, attitudeRu: Cell,
    summaryEn: Cell, summaryRu: Cell, context: Cell)

  datatype PiroRecord = PiroRecord(
    contextId: Cell, author: Cell, year: Option<int>, title: Cell, source: Cell, ethnonym: Cell,
    place: string, identity: Cell, representation: Cell, representationRu: Cell,
    otherness: Cell, othernessRu: Cell, summaryEn: Cell, summaryRu: Cell, context: Cell)

  /** `ethnonym_normalised or ethnonym` */
  function Identity(r: EnrichedRow): (c: Cell)
    ensures Truthy(c) <==> Truthy(r.ethnonymNormalised) || Truthy(r.ethnonym)
    ensures Truthy(r.ethnonymNormalised) ==> c == r.ethnonymNormalised
  {
    if Truthy(r.ethnonymNormalised) then r.ethnonymNormalised else r.ethnonym
  }

  /** The place string of a row: its toponyms stringified, "" when the column is missing. */
  function Place(r: EnrichedRow): string {
    StringifyList(if r.toponyms.Some? then r.toponyms.value else Items([]))
  }

  /** The PIRO record of one row. */
  function PiroOf(r: EnrichedRow): PiroRecord {
    PiroRecord(r.contextId, r.author, r.year, r.title, r.source, r.ethnonym,
               Place(r), Identity(r), r.semanticLabel, r.semanticLabelRu,
               r.attitude, r.attitudeRu, r.summaryEn, r.summaryRu, r.context)
  }

  /**
   * `make_piro_table`: no table for an empty input (the input comes back as
   * it is); otherwise one record per row, in row order.
   */
  method MakePiroTable(rows: seq<EnrichedRow>) returns (table: Option<seq<PiroRecord>>)
    ensures table.None? <==> |rows| == 0
    ensures table.Some? ==> |table.value| == |rows| && forall i :: 0 <= i < |rows| ==> table.value[i] == PiroOf(rows[i])
  {
    if |rows| == 0 {
      return None;
    }
    var records: seq<PiroRecord> := [];
    for i := 0 to |rows|
      invariant |records| == i && forall j :: 0 <= j < i ==> records[j] == PiroOf(rows[j])
    {
      records := records + [PiroOf(rows[i])];
    }
    table := Some(records);
  }

  /** A row with no place names has an empty Place; a row without the column too. */
  lemma PlaceEmpty(r: EnrichedRow)
    requires r.toponyms.None? || (r.toponyms.Some? && r.toponyms.value.Items? &&
                                  forall i :: 0 <= i < |r.toponyms.value.items| ==> !Truthy(r.toponyms.value.items[i]))
    ensures Place(r) == ""
  {
    if r.toponyms.Some? {
      StringifyListEmpty(r.toponyms.value.items);
    } else {
      StringifyListEmpty([]);
    }
  }
}
