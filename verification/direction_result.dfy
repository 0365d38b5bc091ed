/**
 * DirectionResult: the record a direction search writes into as it goes: a
 * result code, the deepest accepted depth and the data of the unit that
 * succeeded.
 */
module DirectionResults {
  import opened Wrappers

  datatype Code = Success | Failure | Interrupted | InvalidCommand

  datatype ResultError = InvalidArgument   // AssertUtils: IllegalArgumentException

  /** The larger of two depths. */
  function Max(a: int, b: int): (m: int)
    ensures m >= a && m >= b && (m == a || m == b)
  {
    if a >= b then a else b
  }

  class DirectionResult<T> {
    var code: Code
    var acceptedDepth: int
    var data: Option<T>

    /** acceptedDepth is never below -1. */
    ghost predicate Valid()
      reads this
    {
      acceptedDepth >= -1
    }

    /** A new result: the given code, no accepted depth (-1) and no data. */
    constructor(code: Code)
      ensures Valid()
      ensures this.code == code && acceptedDepth == -1 && data == None
    {
      this.code := code;
      acceptedDepth := -1;
      data := None;
    }

    method SetCode(code: Code)
      modifies this
      ensures this.code == code
      ensures acceptedDepth == old(acceptedDepth) && data == old(data)
    {
      this.code := code;
    }

    /** setAcceptedDepth: a negative depth is rejected; otherwise the depth
      * only ever rises, so it holds the largest depth set so far. */
    method SetAcceptedDepth(depth: int) returns (r: Result<(), ResultError>)
      requires Valid()
      modifies this
      ensures Valid()
      ensures r.Err? <==> depth < 0
      ensures r.Err? ==> acceptedDepth == old(acceptedDepth)
      ensures r.Ok? ==> acceptedDepth == Max(old(acceptedDepth), depth)
      ensures code == old(code) && data == old(data)
    {
      if depth < 0 {
        return Err(InvalidArgument);
      }
      if depth > acceptedDepth {
        acceptedDepth := depth;
      }
      return Ok(());
    }

    method SetData(data: Option<T>)
      modifies this
      ensures this.data == data
      ensures code == old(code) && acceptedDepth == old(acceptedDepth)
    {
      this.data := data;
    }
  }

  /** The depth after a sequence of setAcceptedDepth calls with non-negative
    * depths: the largest of them, or the start value. */
  function DepthAfter(start: int, depths: seq<nat>): int
    decreases |depths|
  {
    if |depths| == 0 then start else DepthAfter(Max(start, depths[0]), depths[1..])
  }

  /** The accepted depth only rises, and it ends at a value that was set or at the start. */
  lemma {:induction false} DepthAfterIsMaximum(start: int, depths: seq<nat>)
    ensures DepthAfter(start, depths) >= start
    ensures forall k :: 0 <= k < |depths| ==> DepthAfter(start, depths) >= depths[k]
    ensures DepthAfter(start, depths) == start || DepthAfter(start, depths) in depths
    decreases |depths|
  {
    if |depths| > 0 {
      DepthAfterIsMaximum(Max(start, depths[0]), depths[1..]);
      forall k | 1 <= k < |depths|
        ensures DepthAfter(start, depths) >= depths[k]
      {
        assert depths[1..][k - 1] == depths[k];
      }
      if DepthAfter(start, depths) != start && DepthAfter(start, depths) !in depths[1..] {
        assert DepthAfter(start, depths) == Max(start, depths[0]);
      }
    }
  }

  /** A fresh result followed by setAcceptedDepth calls holds DepthAfter(-1, depths). */
  method SetDepths<T>(result: DirectionResult<T>, depths: seq<nat>)
    requires result.Valid()
    modifies result
    ensures result.Valid()
    ensures result.acceptedDepth == DepthAfter(old(result.acceptedDepth), depths)
    ensures result.code == old(result.code) && result.data == old(result.data)
  {
    var i := 0;
    while i < |depths|
      invariant 0 <= i <= |depths|
      invariant result.Valid()
      invariant DepthAfter(old(result.acceptedDepth), depths) == DepthAfter(result.acceptedDepth, depths[i..])
      invariant result.code == old(result.code) && result.data == old(result.data)
    {
      assert depths[i..][1..] == depths[i + 1..];
      var _ := result.SetAcceptedDepth(depths[i]);
      i := i + 1;
    }
  }
}
