/**
 * StdDirectionDetailResolver: a direction line "/name arg1 arg2 ..." becomes a
 * DirectionDetail holding the name and the arguments. The line is split with
 * Java's String.split(" "), whose fast path for a one-character separator is
 * modelled here, including the removal of trailing empty fields.
 */
module DirectionResolver {
  import opened Wrappers
  import StringUtils
  import ArrayUtils
  import StringJoiner

  datatype ResolveError =
    | InvalidDirection    // InvalidDirectionException: no "/" prefix
    | IndexOutOfBounds    // an array index or System.arraycopy out of range
    | InvalidArgument     // AssertUtils in the DirectionDetail constructor

  /** DirectionDetail: a direction name and its arguments. */
  datatype DirectionDetail = DirectionDetail(name: string, arguments: seq<string>)

  /** The DirectionDetail constructor: the name must not be blank. */
  function NewDetail(name: string, arguments: seq<string>): (r: Result<DirectionDetail, ResolveError>)
    ensures r.Ok? <==> !StringUtils.AllWhitespace(name)
    ensures r.Ok? ==> r.value.name == name && r.value.arguments == arguments
  {
    if StringUtils.AllWhitespace(name) then Err(InvalidArgument) else Ok(DirectionDetail(name, arguments))
  }

  /** Every field between the separators, empty ones included. */
  function Fields(s: string): (fs: seq<string>)
    ensures |fs| > 0
  {
    if |s| == 0 then [""]
    else if s[0] == ' ' then [""] + Fields(s[1..])
    else var rest := Fields(s[1..]); [[s[0]] + rest[0]] + rest[1..]
  }

  /** Split with limit 0 drops the empty fields at the end. */
  function DropTrailingEmpty(fs: seq<string>): (r: seq<string>)
    ensures |r| <= |fs| && r == fs[..|r|]
    ensures r == [] || r[|r| - 1] != ""
    ensures forall k :: |r| <= k < |fs| ==> fs[k] == ""
    decreases |fs|
  {
    if |fs| > 0 && fs[|fs| - 1] == "" then DropTrailingEmpty(fs[..|fs| - 1]) else fs
  }

  /** String.split(" "): the string itself when it holds no separator. */
  function Split(s: string): seq<string> {
    if ' ' !in s then [s] else DropTrailingEmpty(Fields(s))
  }

  /** No field holds the separator. */
  lemma {:induction false} FieldsHaveNoSeparator(s: string)
    ensures forall k :: 0 <= k < |Fields(s)| ==> ' ' !in Fields(s)[k]
  {
    if |s| > 0 {
      FieldsHaveNoSeparator(s[1..]);
    }
  }

  /** Joining the fields with single spaces gives back the string. */
  lemma {:induction false} FieldsJoin(s: string)
    ensures StringJoiner.JoinWith(" ", Fields(s)) == s
  {
    if |s| > 0 {
      var rest := Fields(s[1..]);
      FieldsJoin(s[1..]);
      if s[0] == ' ' {
        assert ([""] + rest)[1..] == rest;
        assert s == [' '] + s[1..];
      } else {
        var fs := [[s[0]] + rest[0]] + rest[1..];
        if |rest| == 1 {
          assert s[1..] == rest[0];
        } else {
          assert fs[1..] == rest[1..];
          StringJoiner.JoinWithPrefixed(" ", rest);
          StringJoiner.JoinWithPrefixed(" ", fs);
        }
      }
    }
  }

  /** Fields of words joined by single spaces are those words. */
  lemma {:induction false} FieldsOfJoin(words: seq<string>)
    requires |words| > 0
    requires forall k :: 0 <= k < |words| ==> ' ' !in words[k]
    ensures Fields(StringJoiner.JoinWith(" ", words)) == words
    decreases |words|
  {
    if |words| == 1 {
      FieldsOfWord(words[0]);
    } else {
      var tail := StringJoiner.JoinWith(" ", words[1..]);
      FieldsOfJoin(words[1..]);
      FieldsOfWordThen(words[0], tail);
      assert [words[0]] + words[1..] == words;
    }
  }

  lemma {:induction false} FieldsOfWord(w: string)
    requires ' ' !in w
    ensures Fields(w) == [w]
  {
    if |w| > 0 {
      FieldsOfWord(w[1..]);
      assert [w[0]] + w[1..] == w;
    }
  }

  lemma {:induction false} FieldsOfWordThen(w: string, tail: string)
    requires ' ' !in w
    ensures Fields(w + " " + tail) == [w] + Fields(tail)
  {
    if |w| == 0 {
      assert w + " " + tail == [' '] + tail;
      assert (w + " " + tail)[1..] == tail;
    } else {
      FieldsOfWordThen(w[1..], tail);
      assert (w + " " + tail)[1..] == w[1..] + " " + tail;
      assert [w[0]] + w[1..] == w;
    }
  }

  /** The arguments as a String[] of non-null elements. */
  function AsArray(ts: seq<string>): (a: seq<Option<string>>)
    ensures |a| == |ts| && forall k :: 0 <= k < |ts| ==> a[k] == Some(ts[k])
  {
    seq(|ts|, k requires 0 <= k < |ts| => Some(ts[k]))
  }

  /** The String[] back as strings. */
  function Unwrap(a: seq<Option<string>>): (ts: seq<string>)
    ensures |ts| == |a|
  {
    seq(|a|, k requires 0 <= k < |a| => if a[k].Some? then a[k].value else "")
  }

  /** resolve, as written: the arguments after the name are taken with
    * ArrayUtils.copyOfRange(arguments, 1), on the System.arraycopy path. */
  function Resolve(direction: string): (r: Result<DirectionDetail, ResolveError>)
    ensures |direction| == 0 || direction[0] != '/' ==> r == Err(InvalidDirection)
  {
    if |direction| == 0 || direction[0] != '/' then Err(InvalidDirection)
    else
      var tokens := Split(direction[1..]);
      if |tokens| == 0 then Err(IndexOutOfBounds)
      else
        var name := tokens[0];
        if |tokens| == 1 then NewDetail(name, [])
        else match ArrayUtils.CopyRange(AsArray(tokens), 1, |tokens|, true)
          case Err(_) => Err(IndexOutOfBounds)
          case Ok(copy) => NewDetail(name, Unwrap(copy))
  }

  /** A direction with any argument cannot be resolved as written. */
  lemma ResolveWithArgumentsFails(name: string, argument: string)
    requires ' ' !in name && ' ' !in argument && |argument| > 0
    ensures Resolve("/" + name + " " + argument) == Err(IndexOutOfBounds)
  {
    var line := "/" + name + " " + argument;
    assert line[1..] == StringJoiner.JoinWith(" ", [name, argument]);
    FieldsOfJoin([name, argument]);
    assert ' ' in line[1..] by { assert line[1..][|name|] == ' '; }
  }

  /** resolve as evidently intended: the arguments are the tokens after the first. */
  function ResolveCorrected(direction: string): (r: Result<DirectionDetail, ResolveError>)
    ensures |direction| == 0 || direction[0] != '/' ==> r == Err(InvalidDirection)
    ensures r.Ok? ==> [r.value.name] + r.value.arguments == Split(direction[1..])
    ensures r.Ok? && ' ' !in direction[1..] ==> r.value.arguments == []
  {
    if |direction| == 0 || direction[0] != '/' then Err(InvalidDirection)
    else
      var tokens := Split(direction[1..]);
      if |tokens| == 0 then Err(IndexOutOfBounds)
      else if |tokens| == 1 then NewDetail(tokens[0], [])
      else NewDetail(tokens[0], tokens[1..])
  }

  /** A line of separator-free, non-empty words resolves back to those words:
    * the first is the name, the rest are the arguments. */
  lemma ResolveRoundTrip(name: string, arguments: seq<string>)
    requires ' ' !in name && !StringUtils.AllWhitespace(name)
    requires forall k :: 0 <= k < |arguments| ==> ' ' !in arguments[k] && |arguments[k]| > 0
    ensures ResolveCorrected("/" + StringJoiner.JoinWith(" ", [name] + arguments)) == Ok(DirectionDetail(name, arguments))
  {
    var words := [name] + arguments;
    var line := "/" + StringJoiner.JoinWith(" ", words);
    assert line[1..] == StringJoiner.JoinWith(" ", words);
    FieldsOfJoin(words);
    if |arguments| == 0 {
      FieldsOfWord(name);
      assert StringJoiner.JoinWith(" ", words) == name;
    } else {
      StringJoiner.JoinWithPrefixed(" ", words);
      assert words[1..] == arguments;
      assert line[1..][|name|] == ' ';
      assert words[|words| - 1] != "";
    }
  }

  /** "/" and a line of spaces: the first has a blank name, the second no token at all. */
  lemma ResolveDegenerate()
    ensures ResolveCorrected("/") == Err(InvalidArgument)
    ensures ResolveCorrected("/  ") == Err(IndexOutOfBounds)
  {
    assert "/"[1..] == "";
    assert "/  "[1..] == "  ";
    assert Fields("  ") == ["", "", ""];
  }
}
