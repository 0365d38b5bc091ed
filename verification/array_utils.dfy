/**
 * Array copy and merge. An array of references is an `array<Option<T>>`,
 * with `None` for a null element.
 */
module ArrayUtils {
  import opened Wrappers

  datatype ArrayError =
    | InvalidArgument    // AssertUtils: an invalid index
    | IndexOutOfBounds   // thrown by System.arraycopy or an array store

  /** The shared private copyOfRange on the contents of `source`. `native` says
    * whether the component type is one of the natively supported classes
    * (primitives, their boxes and String), which take the System.arraycopy path. */
  function CopyRange<T>(s: seq<Option<T>>, offset: nat, len: nat, native: bool): (r: Result<seq<Option<T>>, ArrayError>)
    requires offset <= len <= |s|
    ensures |s| == 0 ==> r == Ok(s)
    ensures |s| > 0 && r.Ok? ==> |r.value| == len - offset
  {
    if |s| == 0 then Ok(s)
    else if native then
      // arraycopy(source, offset, copy, 0, len) into a copy of length len - offset
      if offset == 0 then Ok(s[..len]) else Err(IndexOutOfBounds)
    else if exists i :: offset <= i < len && len - offset <= i && s[i].Some? then
      // copy[i] = element for a non-null element past the end of the copy
      Err(IndexOutOfBounds)
    else
      Ok(seq(len - offset, j requires 0 <= j < len - offset => if offset <= j then s[j] else None))
  }

  /** From offset 0 both paths copy the first `len` elements. */
  lemma CopyRangeFromStart<T>(s: seq<Option<T>>, len: nat, native: bool)
    requires len <= |s|
    ensures CopyRange(s, 0, len, native) == Ok(s[..len])
  {
    if |s| > 0 && !native {
      assert CopyRange(s, 0, len, native).value == s[..len];
    }
  }

  /** The input that shows it: with offset 1 both paths fail on a two-element
    * array whose elements are non-null. */
  lemma CopyRangeFromOneFails<T>(x: T, y: T, native: bool)
    ensures CopyRange([Some(x), Some(y)], 1, 2, native) == Err(IndexOutOfBounds)
  {
    var s := [Some(x), Some(y)];
    if !native {
      assert 1 <= 1 < 2 && 2 - 1 <= 1 && s[1].Some?;
    }
  }

  /** The private copyOfRange, as written. */
  method CopyRangeImpl<T>(source: array<Option<T>>, offset: nat, len: nat, native: bool)
      returns (r: Result<array<Option<T>>, ArrayError>)
    requires offset <= len <= source.Length
    ensures r.Ok? <==> CopyRange(source[..], offset, len, native).Ok?
    ensures r.Ok? ==> r.value[..] == CopyRange(source[..], offset, len, native).value
    ensures source.Length == 0 ==> r == Ok(source)
    ensures source.Length > 0 && r.Ok? ==> fresh(r.value)
  {
    if source.Length == 0 {
      return Ok(source);
    }
    var copy := new Option<T>[len - offset](_ => None);
    if native {
      if offset != 0 {
        return Err(IndexOutOfBounds);
      }
      forall j | 0 <= j < len {
        copy[j] := source[j];
      }
      return Ok(copy);
    }
    var i := offset;
    while i < len
      invariant offset <= i <= len
      invariant forall j :: 0 <= j < len - offset ==> copy[j] == if offset <= j < i then source[j] else None
      invariant forall j :: offset <= j < i && len - offset <= j ==> source[j].None?
    {
      var element := source[i];
      if element.Some? {
        if i >= copy.Length {
          return Err(IndexOutOfBounds);
        }
        copy[i] := element;
      }
      i := i + 1;
    }
    assert !exists k :: offset <= k < len && len - offset <= k && source[k].Some?;
    assert copy[..] == CopyRange(source[..], offset, len, native).value;
    return Ok(copy);
  }

  /** copyOf: a copy of the whole array (the array itself when empty). */
  method CopyOf<T>(source: array<Option<T>>, native: bool) returns (r: array<Option<T>>)
    ensures r[..] == source[..]
    ensures source.Length == 0 ==> r == source
    ensures source.Length > 0 ==> fresh(r)
  {
    CopyRangeFromStart(source[..], source.Length, native);
    var c := CopyRangeImpl(source, 0, source.Length, native);
    r := c.value;
  }

  /** copyOfRange(source, offset): up to the end of the array. */
  method CopyOfRangeFrom<T>(source: array<Option<T>>, offset: int, native: bool)
      returns (r: Result<array<Option<T>>, ArrayError>)
    ensures !(0 <= offset <= source.Length) ==> r == Err(InvalidArgument)
    ensures 0 <= offset <= source.Length ==>
      (r.Ok? <==> CopyRange(source[..], offset, source.Length, native).Ok?) &&
      (r.Ok? ==> r.value[..] == CopyRange(source[..], offset, source.Length, native).value)
  {
    if !(0 <= offset <= source.Length) {
      return Err(InvalidArgument);
    }
    r := CopyRangeImpl(source, offset, source.Length, native);
  }

  /** copyOfRange(source, offset, len): `len` is the end index. */
  method CopyOfRange<T>(source: array<Option<T>>, offset: int, len: int, native: bool)
      returns (r: Result<array<Option<T>>, ArrayError>)
    ensures !(0 <= offset <= len <= source.Length) ==> r == Err(InvalidArgument)
    ensures 0 <= offset <= len <= source.Length ==>
      (r.Ok? <==> CopyRange(source[..], offset, len, native).Ok?) &&
      (r.Ok? ==> r.value[..] == CopyRange(source[..], offset, len, native).value)
  {
    if !(0 <= offset <= len <= source.Length) {
      return Err(InvalidArgument);
    }
    r := CopyRangeImpl(source, offset, len, native);
  }

  /** copyOfRange as evidently intended: the elements from `offset` up to `len`,
    * shifted to the start of the copy. */
  method CopyOfRangeCorrected<T>(source: array<Option<T>>, offset: int, len: int)
      returns (r: Result<array<Option<T>>, ArrayError>)
    ensures !(0 <= offset <= len <= source.Length) <==> r == Err(InvalidArgument)
    ensures r.Ok? ==> r.value[..] == source[offset..len]
  {
    if !(0 <= offset <= len <= source.Length) {
      return Err(InvalidArgument);
    }
    if source.Length == 0 {
      return Ok(source);
    }
    var copy := new Option<T>[len - offset](_ => None);
    var i := offset;
    while i < len
      invariant offset <= i <= len
      invariant forall j :: 0 <= j < i - offset ==> copy[j] == source[offset + j]
    {
      copy[i - offset] := source[i];
      i := i + 1;
    }
    assert copy[..] == source[offset..len];
    return Ok(copy);
  }

  /** merge(array1, array2, arrays...): the extras passed as varargs are added
    * to the list as one more array. */
  method Merge<T>(first: array<T>, second: array<T>, arrays: seq<T>) returns (r: array<T>)
    ensures r[..] == first[..] + second[..] + arrays
    ensures second.Length == 0 && |arrays| == 0 ==> r == first
    ensures second.Length > 0 || |arrays| > 0 ==> fresh(r)
  {
    var pieces := [first[..], second[..], arrays];
    // drop the empty arrays, counting the others
    var kept: seq<seq<T>> := [];
    var length := 0;
    var k := 0;
    while k < |pieces|
      invariant 0 <= k <= |pieces|
      invariant length == |kept|
      invariant Flatten(kept) == Flatten(pieces[..k])
    {
      FlattenAppend(pieces[..k], pieces[k]);
      assert pieces[..k + 1] == pieces[..k] + [pieces[k]];
      if |pieces[k]| > 0 {
        FlattenAppend(kept, pieces[k]);
        kept := kept + [pieces[k]];
        length := length + 1;
      } else {
        assert Flatten([pieces[k]]) == [];
      }
      k := k + 1;
    }
    assert pieces[..k] == pieces;
    assert Flatten(pieces) == first[..] + second[..] + arrays by {
      assert pieces == [first[..]] + [second[..]] + [arrays];
      FlattenAppend([first[..]], second[..]);
      FlattenAppend([first[..], second[..]], arrays);
      assert [first[..]] + [second[..]] == [first[..], second[..]];
    }
    if length == 0 {
      return first;
    }
    var all: seq<T> := [];
    var m := 0;
    while m < |kept|
      invariant 0 <= m <= |kept|
      invariant all == Flatten(kept[..m])
    {
      FlattenAppend(kept[..m], kept[m]);
      assert kept[..m + 1] == kept[..m] + [kept[m]];
      all := all + kept[m];
      m := m + 1;
    }
    assert kept[..m] == kept;
    if |all| == first.Length {
      // toArray(array1) fills array1 itself when it is large enough
      return first;
    }
    r := new T[|all|](j requires 0 <= j < |all| => all[j]);
  }

  function Flatten<T>(pieces: seq<seq<T>>): seq<T> {
    if |pieces| == 0 then [] else Flatten(pieces[..|pieces| - 1]) + pieces[|pieces| - 1]
  }

  lemma FlattenAppend<T>(pieces: seq<seq<T>>, last: seq<T>)
    ensures Flatten(pieces + [last]) == Flatten(pieces) + last
  {
    assert (pieces + [last])[..|pieces|] == pieces;
  }

  /** isEmpty. */
  predicate IsEmpty<T>(a: array<T>) {
    a.Length == 0
  }

  /** isNullOrEmpty holds exactly for null or an empty array. */
  predicate IsNullOrEmpty<T>(a: array?<T>) {
    a == null || a.Length == 0
  }

  /** isEmpty holds exactly for an array without elements, isNullOrEmpty
    * adds null, and isNotEmpty and isNotNullOrEmpty are their negations. */
  lemma EmptinessChecks<T>(a: array?<T>)
    ensures a != null ==> (IsEmpty(a) <==> a[..] == [])
    ensures IsNullOrEmpty(a) <==> a == null || IsEmpty(a)
  {
  }

  /** defaultIfEmpty. */
  function DefaultIfEmpty<T>(a: array<T>, def: array<T>): (r: array<T>)
    ensures r == if a.Length == 0 then def else a
  {
    if IsEmpty(a) then def else a
  }

  /** defaultIfNullOrEmpty: always non-null. */
  function DefaultIfNullOrEmpty<T>(a: array?<T>, def: array<T>): (r: array<T>)
    ensures IsNullOrEmpty(a) ==> r == def
    ensures !IsNullOrEmpty(a) ==> r == a
  {
    if IsNullOrEmpty(a) then def else a
  }

  /** emptyIfNull: a new empty array for null. */
  method EmptyIfNull<T>(a: array?<T>) returns (r: array<T>)
    ensures a != null ==> r == a
    ensures a == null ==> fresh(r) && r.Length == 0
  {
    if a == null {
      r := new T[0];
    } else {
      r := a;
    }
  }
}
