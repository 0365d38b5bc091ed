/**
 * The core StringJoiner: a growing buffer to which every item is appended as
 * delimiter (only when the buffer already holds something and the delimiter is
 * not empty), then prefix, then the item's text, then suffix. Prefix and suffix
 * surround each item, not the whole result.
 */
module StringJoiner {
  import opened Wrappers
  import Decimal

  const DEFAULT_INITIAL_CAPACITY: int := 64

  datatype JoinerError =
    | InvalidArgument     // AssertUtils: IllegalArgumentException
    | IndexOutOfBounds    // StringBuilder.append: IndexOutOfBoundsException

  /** The delimiter written before the next item. */
  function DelimiterFor(buffer: string, delimiter: string): (d: string)
    ensures |delimiter| > 0 ==> (d == delimiter <==> |buffer| > 0)
    ensures d == "" || d == delimiter
  {
    if |buffer| > 0 && |delimiter| > 0 then delimiter else ""
  }

  /** The buffer after one append of `text`. */
  function AppendPiece(buffer: string, delimiter: string, prefix: string, suffix: string, text: string): (r: string)
    ensures |r| >= |buffer| && r[..|buffer|] == buffer
    ensures r[|buffer|..] == DelimiterFor(buffer, delimiter) + prefix + text + suffix
  {
    var r := buffer + DelimiterFor(buffer, delimiter) + prefix + text + suffix;
    assert r[|buffer|..] == DelimiterFor(buffer, delimiter) + prefix + text + suffix;
    r
  }

  /** Appending `items` one after another, starting from `buffer`. */
  function AppendAll(buffer: string, delimiter: string, prefix: string, suffix: string, items: seq<string>): string
    decreases |items|
  {
    if items == [] then buffer
    else AppendAll(AppendPiece(buffer, delimiter, prefix, suffix, items[0]), delimiter, prefix, suffix, items[1..])
  }

  /** Appending one more item after `items`. */
  lemma {:induction false} AppendAllLast(buffer: string, delimiter: string, prefix: string, suffix: string,
                                         items: seq<string>, text: string)
    ensures AppendAll(buffer, delimiter, prefix, suffix, items + [text])
         == AppendPiece(AppendAll(buffer, delimiter, prefix, suffix, items), delimiter, prefix, suffix, text)
    decreases |items|
  {
    if items == [] {
      assert [] + [text] == [text];
    } else {
      assert (items + [text])[1..] == items[1..] + [text];
      AppendAllLast(AppendPiece(buffer, delimiter, prefix, suffix, items[0]), delimiter, prefix, suffix, items[1..], text);
    }
  }

  /** `parts` separated by `delimiter`. */
  function JoinWith(delimiter: string, parts: seq<string>): string
    decreases |parts|
  {
    if parts == [] then ""
    else if |parts| == 1 then parts[0]
    else parts[0] + delimiter + JoinWith(delimiter, parts[1..])
  }

  /** Each item surrounded by prefix and suffix. */
  function Pieces(prefix: string, suffix: string, items: seq<string>): (ps: seq<string>)
    ensures |ps| == |items| && forall i :: 0 <= i < |items| ==> ps[i] == prefix + items[i] + suffix
  {
    seq(|items|, i requires 0 <= i < |items| => prefix + items[i] + suffix)
  }

  /** Leading empty pieces leave the buffer empty, so they also get no delimiter. */
  function DropLeadingEmpty(parts: seq<string>): (r: seq<string>)
    ensures r == [] || r[0] != ""
    ensures |r| <= |parts| && r == parts[|parts| - |r|..]
    decreases |parts|
  {
    if parts == [] then []
    else if parts[0] == "" then DropLeadingEmpty(parts[1..])
    else parts
  }

  lemma {:induction false} AppendAllNonEmpty(buffer: string, delimiter: string, prefix: string, suffix: string, items: seq<string>)
    requires |buffer| > 0
    ensures AppendAll(buffer, delimiter, prefix, suffix, items)
         == buffer + JoinPrefixed(delimiter, Pieces(prefix, suffix, items))
    decreases |items|
  {
    if items != [] {
      var next := AppendPiece(buffer, delimiter, prefix, suffix, items[0]);
      AppendAllNonEmpty(next, delimiter, prefix, suffix, items[1..]);
      assert Pieces(prefix, suffix, items)[1..] == Pieces(prefix, suffix, items[1..]);
    }
  }

  /** Each part preceded by the delimiter. */
  function JoinPrefixed(delimiter: string, parts: seq<string>): string
    decreases |parts|
  {
    if parts == [] then "" else delimiter + parts[0] + JoinPrefixed(delimiter, parts[1..])
  }

  lemma {:induction false} JoinWithPrefixed(delimiter: string, parts: seq<string>)
    requires parts != []
    ensures JoinWith(delimiter, parts) == parts[0] + JoinPrefixed(delimiter, parts[1..])
    decreases |parts|
  {
    if |parts| > 1 {
      JoinWithPrefixed(delimiter, parts[1..]);
      assert parts[1..][1..] == parts[2..];
    }
  }

  /**
   * Appending `items` to a new joiner gives the surrounded items separated by
   * the delimiter, except that items whose surrounded text is empty vanish
   * while the buffer is still empty.
   */
  lemma {:induction false} AppendAllJoins(delimiter: string, prefix: string, suffix: string, items: seq<string>)
    ensures AppendAll("", delimiter, prefix, suffix, items)
         == JoinWith(delimiter, DropLeadingEmpty(Pieces(prefix, suffix, items)))
    decreases |items|
  {
    var ps := Pieces(prefix, suffix, items);
    if items != [] {
      var first := AppendPiece("", delimiter, prefix, suffix, items[0]);
      assert first == prefix + items[0] + suffix;
      assert ps[1..] == Pieces(prefix, suffix, items[1..]);
      if ps[0] == "" {
        assert first == "";
        AppendAllJoins(delimiter, prefix, suffix, items[1..]);
      } else {
        AppendAllNonEmpty(first, delimiter, prefix, suffix, items[1..]);
        JoinWithPrefixed(delimiter, ps);
      }
    }
  }

  /** With a non-empty prefix or suffix no item vanishes: the result is the ordinary join. */
  lemma PlainJoin(delimiter: string, prefix: string, suffix: string, items: seq<string>)
    requires |prefix| > 0 || |suffix| > 0
    ensures AppendAll("", delimiter, prefix, suffix, items)
         == JoinWith(delimiter, Pieces(prefix, suffix, items))
  {
    AppendAllJoins(delimiter, prefix, suffix, items);
    var ps := Pieces(prefix, suffix, items);
    if ps != [] {
      assert |ps[0]| > 0;
    }
  }

  /** Java's text for a boolean. */
  function BoolText(b: bool): string { if b then "true" else "false" }

  class Joiner {
    const delimiter: string
    const prefix: string
    const suffix: string
    var builder: string

    /** A joiner whose capacity has been checked; the capacity itself is not modelled. */
    constructor (delimiter: string, prefix: string, suffix: string)
      ensures this.delimiter == delimiter && this.prefix == prefix && this.suffix == suffix
      ensures builder == ""
    {
      this.delimiter := delimiter;
      this.prefix := prefix;
      this.suffix := suffix;
      builder := "";
    }

    /** StringJoiner(initialCapacity, delimiter, prefix, suffix): rejects a capacity below 1. */
    static method Create(initialCapacity: int, delimiter: string, prefix: string, suffix: string)
      returns (r: Result<Joiner, JoinerError>)
      ensures r.Ok? <==> initialCapacity > 0
      ensures r.Err? ==> r.error == InvalidArgument
      ensures r.Ok? ==> fresh(r.value) && r.value.builder == ""
      ensures r.Ok? ==> r.value.delimiter == delimiter && r.value.prefix == prefix && r.value.suffix == suffix
    {
      if initialCapacity <= 0 {
        return Err(InvalidArgument);
      }
      var j := new Joiner(delimiter, prefix, suffix);
      return Ok(j);
    }

    /** append(String), and equally append(StringBuffer), append(CharSequence),
      * append(char[]) and append(Object) with the item's text. */
    method Append(text: string)
      modifies this
      ensures builder == AppendPiece(old(builder), delimiter, prefix, suffix, text)
    {
      AppendDelimiter();
      AppendPrefix();
      builder := builder + text;
      AppendSuffix();
    }

    /** append(char) */
    method AppendChar(c: char)
      modifies this
      ensures builder == AppendPiece(old(builder), delimiter, prefix, suffix, [c])
    {
      Append([c]);
    }

    /** append(boolean) */
    method AppendBool(b: bool)
      modifies this
      ensures builder == AppendPiece(old(builder), delimiter, prefix, suffix, BoolText(b))
    {
      Append(BoolText(b));
    }

    /** append(int) and append(long), with the decimal text of the number. */
    method AppendInt(i: int)
      modifies this
      ensures builder == AppendPiece(old(builder), delimiter, prefix, suffix, Decimal.IntString(i))
    {
      Append(Decimal.IntString(i));
    }

    /** append(CharSequence, start, end): the index check comes before anything is written. */
    method AppendRange(cs: string, start: int, end: int) returns (r: Result<(), JoinerError>)
      modifies this
      ensures r.Ok? <==> 0 <= start <= end <= |cs|
      ensures r.Ok? ==> builder == AppendPiece(old(builder), delimiter, prefix, suffix, cs[start..end])
      ensures r.Err? ==> r.error == InvalidArgument && builder == old(builder)
    {
      if !(start >= 0 && start <= end && end <= |cs|) {
        return Err(InvalidArgument);
      }
      Append(cs[start..end]);
      return Ok(());
    }

    /** append(CharSequence, start): up to the end. */
    method AppendFrom(cs: string, start: int) returns (r: Result<(), JoinerError>)
      modifies this
      ensures r.Ok? <==> 0 <= start <= |cs|
      ensures r.Ok? ==> builder == AppendPiece(old(builder), delimiter, prefix, suffix, cs[start..])
      ensures r.Err? ==> builder == old(builder)
    {
      r := AppendRange(cs, start, |cs|);
    }

    /** append(char[], offset, len) as written: checked as if `len` were an end
      * index, then handed to StringBuilder.append, which reads it as a count. */
    method AppendChars(chars: array<char>, offset: int, len: int) returns (r: Result<(), JoinerError>)
      modifies this
      ensures (r, builder) == CharsAsWritten(old(builder), delimiter, prefix, suffix, chars[..], offset, len)
    {
      if !(offset >= 0 && offset <= len && len <= chars.Length) {
        return Err(InvalidArgument);
      }
      AppendDelimiter();
      AppendPrefix();
      if offset > chars.Length - len {
        return Err(IndexOutOfBounds);
      }
      builder := builder + chars[offset..offset + len];
      AppendSuffix();
      return Ok(());
    }

    /** append(char[], offset) as written: passes the array length as `len`. */
    method AppendCharsFrom(chars: array<char>, offset: int) returns (r: Result<(), JoinerError>)
      modifies this
      ensures (r, builder) == CharsAsWritten(old(builder), delimiter, prefix, suffix, chars[..], offset, chars.Length)
    {
      r := AppendChars(chars, offset, chars.Length);
    }

    /** append(char[], offset, end) corrected: the characters from `offset` up to `end`. */
    method AppendCharsCorrected(chars: array<char>, offset: int, end: int) returns (r: Result<(), JoinerError>)
      modifies this
      ensures r.Ok? <==> 0 <= offset <= end <= chars.Length
      ensures r.Ok? ==> builder == AppendPiece(old(builder), delimiter, prefix, suffix, chars[offset..end])
      ensures r.Err? ==> r.error == InvalidArgument && builder == old(builder)
    {
      if !(offset >= 0 && offset <= end && end <= chars.Length) {
        return Err(InvalidArgument);
      }
      Append(chars[offset..end]);
      return Ok(());
    }

    method AppendDelimiter()
      modifies this
      ensures builder == old(builder) + DelimiterFor(old(builder), delimiter)
    {
      if |builder| > 0 && |delimiter| > 0 {
        builder := builder + delimiter;
      }
    }

    method AppendPrefix()
      modifies this
      ensures builder == old(builder) + prefix
    {
      if |prefix| > 0 {
        builder := builder + prefix;
      }
    }

    method AppendSuffix()
      modifies this
      ensures builder == old(builder) + suffix
    {
      if |suffix| > 0 {
        builder := builder + suffix;
      }
    }

    /** toString: exactly the buffer. */
    function ToString(): (s: string)
      reads this
      ensures s == builder
    {
      builder
    }
  }

  /**
   * The outcome and buffer of append(char[], offset, len) as written. The check
   * accepts 0 <= offset <= len <= chars.length; the characters taken are then
   * chars[offset .. offset + len], which do not exist when offset + len exceeds
   * the length. That failure comes after the delimiter and prefix are written.
   */
  function CharsAsWritten(buffer: string, delimiter: string, prefix: string, suffix: string,
                          chars: seq<char>, offset: int, len: int): (out: (Result<(), JoinerError>, string))
    ensures !(0 <= offset <= len <= |chars|) ==> out == (Err(InvalidArgument), buffer)
    ensures 0 <= offset <= len <= |chars| && offset + len <= |chars|
            ==> out == (Ok(()), AppendPiece(buffer, delimiter, prefix, suffix, chars[offset..offset + len]))
    ensures 0 <= offset <= len <= |chars| && offset + len > |chars|
            ==> out == (Err(IndexOutOfBounds), buffer + DelimiterFor(buffer, delimiter) + prefix)
  {
    if !(0 <= offset <= len <= |chars|) then (Err(InvalidArgument), buffer)
    else if offset > |chars| - len then (Err(IndexOutOfBounds), buffer + DelimiterFor(buffer, delimiter) + prefix)
    else (Ok(()), AppendPiece(buffer, delimiter, prefix, suffix, chars[offset..offset + len]))
  }

  /** The input that shows it: append("abc", 1) passes the check with len = 3,
    * fails to take three characters from index 1, and leaves the prefix behind. */
  lemma AppendCharsFromFails()
    ensures CharsAsWritten("x", ",", "[", "]", "abc", 1, 3) == (Err(IndexOutOfBounds), "x,[")
  {
    assert DelimiterFor("x", ",") == ",";
    assert "x" + "," + "[" == "x,[";
  }
}
