/**
 * StdDirector: the registry of directions by name. A direction line or
 * detail is dispatched to the direction registered under its name, and the
 * result's code decides between returning its data and failing with an
 * interception or an invalid-direction message that marks how far the
 * arguments were accepted.
 */
module Directors {
  import opened Wrappers
  import opened LinkedMaps
  import opened DirectionResults
  import opened Directions
  import StringUtils
  // StdDirector joins the message with the common module's StringJoiner;
  // with the delimiter " " and no prefix or suffix it behaves as this one.
  import StringJoiner
  import DirectionResolver

  datatype DirectorError =
    | InvalidDirection(message: string)                  // InvalidDirectionException
    | Intercepted                                        // InterceptedDirectionException
    | BlankName                                          // AssertUtils: a blank direction name
    | Unresolved(cause: DirectionResolver.ResolveError)  // the line could not be resolved

  function Min(a: int, b: int): int {
    if a <= b then a else b
  }

  /** The message of InvalidDirectionException: the name, the arguments
    * accepted so far appended to a StringJoiner(" "), and " <". */
  function Message(detail: DirectionResolver.DirectionDetail, acceptedDepth: int): (r: string)
    ensures |r| >= |detail.name| + 2 && r[..|detail.name|] == detail.name && r[|r| - 2..] == " <"
    ensures acceptedDepth < 0 ==> |r| == |detail.name| + 2
  {
    if acceptedDepth < 0 then detail.name + " <"
    else
      var end := Min(|detail.arguments|, acceptedDepth);
      detail.name + " " + StringJoiner.AppendAll("", " ", "", "", detail.arguments[..end]) + " <"
  }

  /** The message lists the first min(length, depth) arguments separated by
    * single spaces; empty arguments at the front leave no separator. */
  lemma MessageLists(detail: DirectionResolver.DirectionDetail, acceptedDepth: int)
    requires acceptedDepth >= 0
    ensures Message(detail, acceptedDepth)
         == detail.name + " "
            + StringJoiner.JoinWith(" ", StringJoiner.DropLeadingEmpty(detail.arguments[..Min(|detail.arguments|, acceptedDepth)]))
            + " <"
  {
    var items := detail.arguments[..Min(|detail.arguments|, acceptedDepth)];
    StringJoiner.AppendAllJoins(" ", "", "", items);
    forall k | 0 <= k < |items|
      ensures StringJoiner.Pieces("", "", items)[k] == items[k]
    {
      assert "" + items[k] + "" == items[k];
    }
    assert StringJoiner.Pieces("", "", items) == items;
  }

  /** buildInvalidDirectionExceptionMessage */
  method BuildMessage(detail: DirectionResolver.DirectionDetail, acceptedDepth: int) returns (message: string)
    ensures message == Message(detail, acceptedDepth)
  {
    if acceptedDepth < 0 {
      return detail.name + " <";
    }
    var arguments := detail.arguments;
    var end := Min(|arguments|, acceptedDepth);
    var joiner := new StringJoiner.Joiner(" ", "", "");
    for i := 0 to end
      invariant joiner.delimiter == " " && joiner.prefix == "" && joiner.suffix == ""
      invariant joiner.builder == StringJoiner.AppendAll("", " ", "", "", arguments[..i])
    {
      StringJoiner.AppendAllLast("", " ", "", "", arguments[..i], arguments[i]);
      assert arguments[..i + 1] == arguments[..i] + [arguments[i]];
      joiner.Append(arguments[i]);
    }
    return detail.name + " " + joiner.ToString() + " <";
  }

  /** processResult followed by the null-data check of execute and complete. */
  function Outcome<T>(detail: DirectionResolver.DirectionDetail, s: State<T>): (r: Result<T, DirectorError>)
    ensures r.Ok? <==> s.code == Success && s.data.Some?
    ensures r.Ok? ==> r.value == s.data.value
    ensures r == Err(Intercepted) <==> s.code == Interrupted
    ensures r.Err? && s.code != Interrupted ==> r == Err(InvalidDirection(Message(detail, s.acceptedDepth)))
  {
    match s.code
    case Success =>
      if s.data.None? then Err(InvalidDirection(Message(detail, s.acceptedDepth))) else Ok(s.data.value)
    case Interrupted => Err(Intercepted)
    case _ => Err(InvalidDirection(Message(detail, s.acceptedDepth)))
  }

  /** What execute returns for a detail whose direction has `units`. */
  function ExecuteOutcome(detail: DirectionResolver.DirectionDetail, units: seq<Node>): Result<bool, DirectorError> {
    if |detail.arguments| == 0 then Outcome(detail, Initial())
    else Outcome(detail, ExecList(units, detail.arguments, Initial()))
  }

  /** What complete returns for a detail whose direction has `units`. */
  function CompleteOutcome(detail: DirectionResolver.DirectionDetail, units: seq<Node>): Result<seq<string>, DirectorError> {
    if |detail.arguments| == 0 then Outcome(detail, Initial())
    else Outcome(detail, CompList(units, detail.arguments, Initial()))
  }

  /** A detail without arguments is invalid, with the bare name in the message. */
  lemma NoArgumentsInvalid(detail: DirectionResolver.DirectionDetail, units: seq<Node>)
    requires |detail.arguments| == 0
    ensures ExecuteOutcome(detail, units) == Err(InvalidDirection(detail.name + " <"))
    ensures CompleteOutcome(detail, units) == Err(InvalidDirection(detail.name + " <"))
  {
  }

  /** execute returns a value only as the data an accepted unit's executor
    * gave at the last argument. */
  lemma ExecuteValueFromExecutor(detail: DirectionResolver.DirectionDetail, units: seq<Node>)
    requires ExecuteOutcome(detail, units).Ok?
    ensures exists x :: (x in All(units) && x.depth == |detail.arguments| - EXECUTE_DIFF
                         && x.acceptor(detail.arguments, x.depth) && x.executor.Some?
                         && x.executor.value(detail.arguments, x.depth) == Some(ExecuteOutcome(detail, units).value))
  {
    ExecListEffect(units, detail.arguments, Initial());
  }

  /** An invalid execution names at most as many arguments as the deepest
    * accepted unit's depth. */
  lemma ExecuteMessageDepth(detail: DirectionResolver.DirectionDetail, units: seq<Node>)
    requires |detail.arguments| > 0
    requires ExecuteOutcome(detail, units).Err? && ExecuteOutcome(detail, units) != Err(Intercepted)
    ensures var s := ExecList(units, detail.arguments, Initial());
      ExecuteOutcome(detail, units) == Err(InvalidDirection(Message(detail, s.acceptedDepth)))
      && (s.acceptedDepth == -1
          || exists x :: x in All(units) && x.depth == s.acceptedDepth && x.acceptor(detail.arguments, x.depth))
  {
    ExecListEffect(units, detail.arguments, Initial());
  }

  /** DirectionDetailResolver: a line to a detail or the reason it cannot
    * be resolved. StdDirectionDetailResolver is DirectionResolver.Resolve. */
  type DetailResolver = string -> Result<DirectionResolver.DirectionDetail, DirectionResolver.ResolveError>

  class StdDirector {
    var directions: LinkedMap<string, StdDirection>
    var resolver: DetailResolver

    ghost predicate Valid()
      reads this, directions.entries.Values
    {
      directions.Valid() && forall d :: d in directions.entries.Values ==> d.Valid()
    }

    /** A director with no directions, resolving lines with `resolver`. */
    constructor(resolver: DetailResolver)
      ensures Valid() && directions == EmptyMap() && this.resolver == resolver
    {
      directions := EmptyMap();
      this.resolver := resolver;
    }

    /** setDirectionDetailResolver: only the resolver changes. */
    method SetDirectionDetailResolver(resolver: DetailResolver)
      modifies this
      ensures this.resolver == resolver && directions == old(directions)
    {
      this.resolver := resolver;
    }

    /** registerDirection: keyed by the direction's name, replacing one of the same name in its place. */
    method RegisterDirection(direction: StdDirection)
      requires Valid() && direction.Valid()
      modifies this
      ensures Valid()
      ensures directions == old(directions).Put(direction.name, direction)
    {
      directions := directions.Put(direction.name, direction);
    }

    /** unregisterDirection: a blank name is rejected; an unknown one changes nothing. */
    method UnregisterDirection(directionName: string) returns (r: Result<(), DirectorError>)
      requires Valid()
      modifies this
      ensures Valid()
      ensures r.Err? <==> StringUtils.AllWhitespace(directionName)
      ensures directions == if r.Ok? then old(directions).Remove(directionName) else old(directions)
    {
      var blank := StringUtils.IsBlank(directionName);
      if blank {
        return Err(BlankName);
      }
      directions := directions.Remove(directionName);
      return Ok(());
    }

    /** execute(DirectionDetail): an unknown name is invalid with the message
      * name + " <"; otherwise the direction's result decides. */
    method Execute(detail: DirectionResolver.DirectionDetail) returns (r: Result<bool, DirectorError>)
      requires Valid()
      ensures detail.name !in directions.entries ==> r == Err(InvalidDirection(detail.name + " <"))
      ensures detail.name in directions.entries
          ==> r == ExecuteOutcome(detail, directions.entries[detail.name].GetDirectionUnits())
    {
      var found := directions.Get(detail.name);
      if found.None? {
        var message := BuildMessage(detail, -1);
        return Err(InvalidDirection(message));
      }
      var direction := found.value;
      var executed := direction.Execute(detail.arguments);
      if executed.code == Interrupted {
        return Err(Intercepted);
      }
      if executed.code != Success || executed.data.None? {
        var message := BuildMessage(detail, executed.acceptedDepth);
        return Err(InvalidDirection(message));
      }
      return Ok(executed.data.value);
    }

    /** complete(DirectionDetail): as execute, with the completion search. */
    method Complete(detail: DirectionResolver.DirectionDetail) returns (r: Result<seq<string>, DirectorError>)
      requires Valid()
      ensures detail.name !in directions.entries ==> r == Err(InvalidDirection(detail.name + " <"))
      ensures detail.name in directions.entries
          ==> r == CompleteOutcome(detail, directions.entries[detail.name].GetDirectionUnits())
    {
      var found := directions.Get(detail.name);
      if found.None? {
        var message := BuildMessage(detail, -1);
        return Err(InvalidDirection(message));
      }
      var direction := found.value;
      var completed := direction.Complete(detail.arguments);
      if completed.code == Interrupted {
        return Err(Intercepted);
      }
      if completed.code != Success || completed.data.None? {
        var message := BuildMessage(detail, completed.acceptedDepth);
        return Err(InvalidDirection(message));
      }
      return Ok(completed.data.value);
    }

    /** execute(String): the line is resolved by the director's resolver
      * first; with StdDirectionDetailResolver every line with an argument
      * fails there (DirectionResolver.ResolveWithArgumentsFails). */
    method ExecuteLine(line: string) returns (r: Result<bool, DirectorError>)
      requires Valid()
      ensures resolver(line).Err? ==> r == Err(Unresolved(resolver(line).error))
      ensures resolver(line).Ok?
          ==> var detail := resolver(line).value;
              if detail.name in directions.entries
              then r == ExecuteOutcome(detail, directions.entries[detail.name].GetDirectionUnits())
              else r == Err(InvalidDirection(detail.name + " <"))
    {
      var resolved := resolver(line);
      if resolved.Err? {
        return Err(Unresolved(resolved.error));
      }
      r := Execute(resolved.value);
    }

    /** complete(String): the line is resolved by the director's resolver
      * first, as in ExecuteLine. */
    method CompleteLine(line: string) returns (r: Result<seq<string>, DirectorError>)
      requires Valid()
      ensures resolver(line).Err? ==> r == Err(Unresolved(resolver(line).error))
      ensures resolver(line).Ok?
          ==> var detail := resolver(line).value;
              if detail.name in directions.entries
              then r == CompleteOutcome(detail, directions.entries[detail.name].GetDirectionUnits())
              else r == Err(InvalidDirection(detail.name + " <"))
    {
      var resolved := resolver(line);
      if resolved.Err? {
        return Err(Unresolved(resolved.error));
      }
      r := Complete(resolved.value);
    }
  }
}
