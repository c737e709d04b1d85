/** Small failure-carrying datatypes shared by every module of the model. */
module Wrappers {

  datatype Option<+T> = None | Some(value: T)

  /** The Python exceptions that the modelled code lets escape to its caller. */
  datatype PyError =
    | TypeError           // e.g. concatenating a str with a float NaN
    | AttributeError      // e.g. calling .get on a JSON value that is not an object
    | IndexError          // e.g. taking [0] of an empty split
    | ValueError          // e.g. a table without a required column
    | FileNotFound        // a required input file is missing
    | UnicodeDecodeError  // no candidate encoding could be used
    | OverflowError       // `int()` of an infinite float

  datatype Result<+T> = Ok(value: T) | Err(error: PyError)

  /** Apply `f` to every item in order; the first failure is the result, as a raised exception would be. */
  function MapResult<A, B>(xs: seq<A>, f: A -> Result<B>): (r: Result<seq<B>>)
    ensures r.Ok? <==> forall i :: 0 <= i < |xs| ==> f(xs[i]).Ok?
    ensures r.Ok? ==> |r.value| == |xs| && forall i :: 0 <= i < |xs| ==> f(xs[i]) == Ok(r.value[i])
    ensures r.Err? ==> exists i :: 0 <= i < |xs| && f(xs[i]) == Err(r.error) && forall j :: 0 <= j < i ==> f(xs[j]).Ok?
    decreases |xs|
  {
    if |xs| == 0 then Ok([])
    else
      var head := f(xs[0]);
      if head.Err? then Err(head.error)
      else
        var rest := MapResult(xs[1..], f);
        assert forall i :: 1 <= i < |xs| ==> xs[i] == xs[1..][i - 1];
        if rest.Err? then
          var k :| 0 <= k < |xs[1..]| && f(xs[1..][k]) == Err(rest.error) && forall j :: 0 <= j < k ==> f(xs[1..][j]).Ok?;
          assert f(xs[k + 1]) == Err(rest.error);
          Err(rest.error)
        else Ok([head.value] + rest.value)
  }

  /**
   * A value read from a pandas cell: a string, Python's None, or the float NaN
   * that pandas uses for an empty CSV field.
   */
  datatype Cell = NoneCell | NaNCell | Text(s: string)

  /** Python truthiness of a cell: NaN is truthy, the empty string is not. */
  predicate Truthy(c: Cell) {
    match c
    case NoneCell => false
    case NaNCell => true
    case Text(s) => |s| > 0
  }

  /** Mapping a concatenation: the first part's failure wins, else the second part's, else both results joined. */
  lemma {:induction false} MapResultConcat<A, B>(xs: seq<A>, ys: seq<A>, f: A -> Result<B>)
    ensures MapResult(xs + ys, f) ==
      if MapResult(xs, f).Err? then MapResult(xs, f)
      else if MapResult(ys, f).Err? then MapResult(ys, f)
      else Ok(MapResult(xs, f).value + MapResult(ys, f).value)
    decreases |xs|
  {
    if |xs| == 0 {
      assert xs + ys == ys;
      if MapResult(ys, f).Ok? {
        assert [] + MapResult(ys, f).value == MapResult(ys, f).value;
      }
    } else {
      assert (xs + ys)[0] == xs[0] && (xs + ys)[1..] == xs[1..] + ys;
      MapResultConcat(xs[1..], ys, f);
      if f(xs[0]).Ok? && MapResult(xs[1..], f).Ok? && MapResult(ys, f).Ok? {
        assert [f(xs[0]).value] + (MapResult(xs[1..], f).value + MapResult(ys, f).value)
            == [f(xs[0]).value] + MapResult(xs[1..], f).value + MapResult(ys, f).value;
      }
    }
  }

  /** One more item: a failure of the new item is the result, else its value is appended. */
  lemma MapResultSnoc<A, B>(xs: seq<A>, x: A, f: A -> Result<B>)
    requires MapResult(xs, f).Ok?
    ensures MapResult(xs + [x], f) == if f(x).Err? then Err(f(x).error) else Ok(MapResult(xs, f).value + [f(x).value])
  {
    MapResultConcat(xs, [x], f);
    assert [x][1..] == [];
    assert MapResult([x][1..], f) == Ok([]);
    if f(x).Ok? {
      assert [f(x).value] + [] == [f(x).value];
      assert MapResult([x], f) == Ok([f(x).value]);
    }
  }

  /** The first failing item decides the result for the whole list. */
  lemma MapResultStops<A, B>(xs: seq<A>, i: nat, f: A -> Result<B>)
    requires i < |xs| && MapResult(xs[..i], f).Ok? && f(xs[i]).Err?
    ensures MapResult(xs, f) == Err(f(xs[i]).error)
  {
    MapResultSnoc(xs[..i], xs[i], f);
    assert xs[..i] + [xs[i]] == xs[..i + 1];
    MapResultConcat(xs[..i + 1], xs[i + 1..], f);
    assert xs[..i + 1] + xs[i + 1..] == xs;
  }

  /** Apply `f` to every item in a loop, stopping at the first failure. */
  method MapLoop<A, B>(xs: seq<A>, f: A -> Result<B>) returns (r: Result<seq<B>>)
    ensures r == MapResult(xs, f)
  {
    var ys: seq<B> := [];
    var i := 0;
    while i < |xs|
      invariant 0 <= i <= |xs|
      invariant MapResult(xs[..i], f) == Ok(ys)
    {
      var y := f(xs[i]);
      if y.Err? {
        MapResultStops(xs, i, f);
        return Err(y.error);
      }
      MapResultSnoc(xs[..i], xs[i], f);
      assert xs[..i] + [xs[i]] == xs[..i + 1];
      ys := ys + [y.value];
      i := i + 1;
    }
    assert xs[..i] == xs;
    return Ok(ys);
  }
}
