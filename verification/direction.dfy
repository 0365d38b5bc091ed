/**
 * StdDirection: a named direction holding its top-level units by name, and
 * the depth-matched search that runs a direction's arguments against them.
 *
 * The search walks the units in insertion order. A unit at depth d looks at
 * argument d. It is skipped when it is too deep for the arguments, can be
 * intercepted (the result turns INTERRUPTED and the search moves on), and
 * otherwise is asked to accept. An accepted unit raises the accepted depth.
 * At the last argument (execute) or the one before it (complete) it acts and
 * the search ends with SUCCESS. Otherwise the search descends into its
 * children.
 *
 * The search runs over a snapshot of the unit tree (Node). Each node holds the
 * depth that getDepth gives for the live unit, and the callbacks in effect.
 */
module Directions {
  import opened Wrappers
  import opened LinkedMaps
  import opened DirectionResults
  import StringUtils

  /** ActionInterceptor.DirectionAction */
  datatype Action = Accept | Execute | Complete

  /** A unit as the search sees it: its name, the depth getDepth gives it,
    * its callbacks, and its children in insertion order. `acceptor` and
    * `provider` are those in effect: the unit's own, or the defaults
    * ArgumentAcceptor.DEFAULT and ExampleListProvider.DEFAULT, which are not
    * part of this model. A callback is given the arguments and the unit's
    * depth; the argument at that depth is `arguments[depth]`. */
  datatype Node = Node(
    name: string,
    depth: nat,
    interceptor: Option<(Action, seq<string>, nat) -> bool>,
    acceptor: (seq<string>, nat) -> bool,
    executor: Option<(seq<string>, nat) -> Option<bool>>,
    provider: (seq<string>, nat) -> seq<string>,
    completer: Option<(seq<string>, seq<string>, nat) -> seq<string>>,
    children: seq<Node>)

  /** The state of a DirectionResult, as a value. */
  datatype State<T> = State(code: Code, acceptedDepth: int, data: Option<T>)

  const EXECUTE_DIFF: nat := 1
  const COMPLETE_DIFF: nat := 2

  function Snapshot<T>(r: DirectionResult<T>): State<T>
    reads r
  {
    State(r.code, r.acceptedDepth, r.data)
  }

  /** A fresh result, as execute and complete create it. */
  function Initial<T>(): State<T> {
    State(InvalidCommand, -1, None)
  }

  function Size(n: Node): nat
    decreases n, 1
  {
    1 + SizeOf(n.children)
  }

  function SizeOf(units: seq<Node>): nat
    decreases units, 0
  {
    if |units| == 0 then 0 else Size(units[0]) + SizeOf(units[1..])
  }

  lemma {:induction false} SizeOfElement(units: seq<Node>, i: nat)
    requires i < |units|
    ensures Size(units[i]) <= SizeOf(units)
  {
    if i > 0 {
      SizeOfElement(units[1..], i - 1);
      assert units[1..][i - 1] == units[i];
    }
  }

  /** Every unit of the forest, each before its children and its children before its later siblings. */
  ghost function All(units: seq<Node>): seq<Node>
    decreases SizeOf(units)
  {
    if |units| == 0 then []
    else
      assert SizeOf(units) == 1 + SizeOf(units[0].children) + SizeOf(units[1..]);
      [units[0]] + All(units[0].children) + All(units[1..])
  }

  /** ActionInterceptor.DEFAULT intercepts nothing. */
  function Intercepts(n: Node, action: Action, args: seq<string>): bool {
    match n.interceptor
    case None => false
    case Some(intercept) => intercept(action, args, n.depth)
  }

  // ----- execute -----

  /** One unit of doExecute: the new state, and whether the search returns. */
  function ExecNode(n: Node, args: seq<string>, o: State<bool>): (State<bool>, bool)
    decreases Size(n), 0
  {
    if n.depth > |args| - EXECUTE_DIFF then (o, false)
    else if Intercepts(n, Accept, args) then (o.(code := Interrupted), false)
    else if !n.acceptor(args, n.depth) then (o, false)
    else
      var accepted := o.(acceptedDepth := Max(o.acceptedDepth, n.depth));
      if |args| - n.depth == EXECUTE_DIFF then
        if Intercepts(n, Execute, args) then (accepted.(code := Interrupted), false)
        else if n.executor.None? then (accepted, false)
        else (accepted.(data := n.executor.value(args, n.depth), code := Success), true)
      else if |n.children| == 0 then (accepted, false)
      else
        var after := ExecList(n.children, args, accepted);
        (after, after.code == Success)
  }

  /** doExecute over a list of units: the state after it returns. */
  function ExecList(units: seq<Node>, args: seq<string>, o: State<bool>): State<bool>
    decreases SizeOf(units), 1
  {
    if |units| == 0 then o
    else
      var (r, stop) := ExecNode(units[0], args, o);
      if stop then r else ExecList(units[1..], args, r)
  }

  /** What an execute search can do to the result: the accepted depth only
    * rises, and to the depth of an accepted unit; the code only turns
    * INTERRUPTED or SUCCESS; the data is only set on SUCCESS, and then by the
    * executor of an accepted unit at the last argument. */
  ghost predicate ExecEffect(units: seq<Node>, args: seq<string>, o: State<bool>, r: State<bool>) {
    && r.acceptedDepth >= o.acceptedDepth
    && (r.acceptedDepth == o.acceptedDepth
        || exists x :: x in All(units) && x.depth == r.acceptedDepth && x.depth < |args| && x.acceptor(args, x.depth))
    && (r.code == o.code || r.code == Interrupted || r.code == Success)
    && (r.code != Success ==> r.data == o.data)
    && (r.code == Success ==>
          exists x :: x in All(units) && x.depth == |args| - EXECUTE_DIFF && x.acceptor(args, x.depth)
            && x.executor.Some? && r.data == x.executor.value(args, x.depth))
  }

  lemma {:induction false} ExecNodeEffect(n: Node, args: seq<string>, o: State<bool>)
    requires o.code != Success
    ensures ExecNode(n, args, o).1 <==> ExecNode(n, args, o).0.code == Success
    ensures ExecEffect([n], args, o, ExecNode(n, args, o).0)
    decreases Size(n), 0
  {
    assert All([n]) == [n] + All(n.children) by {
      assert [n][1..] == [];
    }
    if n.depth <= |args| - EXECUTE_DIFF && !Intercepts(n, Accept, args) && n.acceptor(args, n.depth) {
      var accepted := o.(acceptedDepth := Max(o.acceptedDepth, n.depth));
      assert n in All([n]);
      if |args| - n.depth != EXECUTE_DIFF && |n.children| > 0 {
        ExecListEffect(n.children, args, accepted);
      }
    }
  }

  lemma {:induction false} ExecListEffect(units: seq<Node>, args: seq<string>, o: State<bool>)
    requires o.code != Success
    ensures ExecEffect(units, args, o, ExecList(units, args, o))
    decreases SizeOf(units), 1
  {
    if |units| > 0 {
      var (r, stop) := ExecNode(units[0], args, o);
      ExecNodeEffect(units[0], args, o);
      assert All([units[0]]) == [units[0]] + All(units[0].children) + All([units[0]][1..]);
      assert forall x :: x in All([units[0]]) ==> x in All(units);
      if !stop {
        ExecListEffect(units[1..], args, r);
        assert forall x :: x in All(units[1..]) ==> x in All(units);
      }
    }
  }

  /** The search ends at the first SUCCESS: units after it are never visited. */
  lemma {:induction false} ExecStopsAtSuccess(units: seq<Node>, rest: seq<Node>, args: seq<string>, o: State<bool>)
    requires o.code != Success
    requires ExecList(units, args, o).code == Success
    ensures ExecList(units + rest, args, o) == ExecList(units, args, o)
    decreases |units|
  {
    var (r, stop) := ExecNode(units[0], args, o);
    ExecNodeEffect(units[0], args, o);
    assert (units + rest)[0] == units[0];
    if !stop {
      assert (units + rest)[1..] == units[1..] + rest;
      ExecStopsAtSuccess(units[1..], rest, args, r);
    }
  }

  /** Units too deep for the arguments are never looked at. */
  lemma {:induction false} TooDeepIgnored(units: seq<Node>, args: seq<string>, o: State<bool>)
    requires forall k :: 0 <= k < |units| ==> units[k].depth > |args| - EXECUTE_DIFF
    ensures ExecList(units, args, o) == o
    decreases |units|
  {
    if |units| > 0 {
      TooDeepIgnored(units[1..], args, o);
    }
  }

  /** doExecute: runs the units in order against the arguments. */
  method DoExecute(result: DirectionResult<bool>, units: seq<Node>, args: seq<string>)
    requires result.Valid()
    modifies result
    ensures result.Valid()
    ensures Snapshot(result) == ExecList(units, args, old(Snapshot(result)))
    decreases SizeOf(units)
  {
    for i := 0 to |units|
      invariant result.Valid()
      invariant ExecList(units, args, old(Snapshot(result))) == ExecList(units[i..], args, Snapshot(result))
    {
      var unit := units[i];
      assert units[i..][0] == unit && units[i..][1..] == units[i + 1..];
      var depth := unit.depth;
      if depth > |args| - EXECUTE_DIFF {
        continue;
      }
      if Intercepts(unit, Accept, args) {
        result.SetCode(Interrupted);
        continue;
      }
      if !unit.acceptor(args, depth) {
        continue;
      }
      var _ := result.SetAcceptedDepth(depth);
      if |args| - depth == EXECUTE_DIFF {
        if Intercepts(unit, Execute, args) {
          result.SetCode(Interrupted);
          continue;
        }
        if unit.executor.None? {
          continue;
        }
        result.SetData(unit.executor.value(args, depth));
        result.SetCode(Success);
        return;
      }
      var children := unit.children;
      if |children| == 0 {
        continue;
      }
      SizeOfElement(units, i);
      DoExecute(result, children, args);
      if result.code == Success {
        return;
      }
    }
  }

  // ----- complete -----

  /** The example lists of the children at `childDepth`, in order. */
  function Examples(children: seq<Node>, childDepth: nat, args: seq<string>, depth: nat): seq<string>
    decreases |children|
  {
    if |children| == 0 then []
    else
      (if children[0].depth == childDepth then children[0].provider(args, depth) else [])
      + Examples(children[1..], childDepth, args, depth)
  }

  /** The examples hold exactly what the children at `childDepth` provide. */
  lemma {:induction false} ExamplesFromChildDepth(children: seq<Node>, childDepth: nat, args: seq<string>, depth: nat, e: string)
    ensures e in Examples(children, childDepth, args, depth)
        <==> exists k :: 0 <= k < |children| && children[k].depth == childDepth && e in children[k].provider(args, depth)
    decreases |children|
  {
    if |children| > 0 {
      ExamplesFromChildDepth(children[1..], childDepth, args, depth, e);
      if e in Examples(children[1..], childDepth, args, depth) {
        var k :| 0 <= k < |children[1..]| && children[1..][k].depth == childDepth && e in children[1..][k].provider(args, depth);
        assert children[k + 1] == children[1..][k];
      }
      if exists k :: 0 <= k < |children| && children[k].depth == childDepth && e in children[k].provider(args, depth) {
        var k :| 0 <= k < |children| && children[k].depth == childDepth && e in children[k].provider(args, depth);
        if k > 0 {
          assert children[1..][k - 1] == children[k];
        }
      }
    }
  }

  /** The example-gathering loop of doComplete. */
  method GatherExamples(children: seq<Node>, args: seq<string>, depth: nat) returns (examples: seq<string>)
    ensures examples == Examples(children, depth + 1, args, depth)
  {
    examples := [];
    var childDepth := depth + 1;
    for i := 0 to |children|
      invariant examples + Examples(children[i..], childDepth, args, depth) == Examples(children, childDepth, args, depth)
    {
      assert children[i..][0] == children[i] && children[i..][1..] == children[i + 1..];
      var child := children[i];
      if child.depth != childDepth {
        continue;
      }
      examples := examples + child.provider(args, depth);
    }
  }

  predicate StartsWith(s: string, prefix: string) {
    |prefix| <= |s| && s[..|prefix|] == prefix
  }

  /** The examples that start with `incomplete`, in order. */
  function FilterPrefix(examples: seq<string>, incomplete: string): (r: seq<string>)
    ensures |r| <= |examples|
    ensures forall e :: e in r <==> e in examples && StartsWith(e, incomplete)
  {
    if |examples| == 0 then []
    else if StartsWith(examples[0], incomplete) then [examples[0]] + FilterPrefix(examples[1..], incomplete)
    else FilterPrefix(examples[1..], incomplete)
  }

  /** DirectionUnitCompleter.DEFAULT: the examples that start with the incomplete argument. */
  function DefaultComplete(examples: seq<string>, incomplete: string): (r: seq<string>)
    ensures forall e :: e in r <==> e in examples && StartsWith(e, incomplete)
  {
    if |examples| == 0 then examples else FilterPrefix(examples, incomplete)
  }

  /** The completion of a unit with children at the argument before the last. */
  function Completion(n: Node, args: seq<string>): seq<string>
    requires n.depth + 1 < |args|
  {
    var examples := Examples(n.children, n.depth + 1, args, n.depth);
    if |examples| == 0 then []
    else match n.completer
      case None => DefaultComplete(examples, args[n.depth + 1])
      case Some(complete) => complete(examples, args, n.depth)
  }

  /** One unit of doComplete: the new state, and whether the search returns. */
  function CompNode(n: Node, args: seq<string>, o: State<seq<string>>): (State<seq<string>>, bool)
    decreases Size(n), 0
  {
    if n.depth > |args| - COMPLETE_DIFF then (o, false)
    else if Intercepts(n, Accept, args) then (o.(code := Interrupted), false)
    else if !n.acceptor(args, n.depth) then (o, false)
    else
      var accepted := o.(acceptedDepth := Max(o.acceptedDepth, n.depth));
      if |args| - n.depth == COMPLETE_DIFF then
        if |n.children| == 0 then (accepted.(data := Some([]), code := Success), true)
        else if Intercepts(n, Complete, args) then (accepted.(code := Interrupted), false)
        else (accepted.(data := Some(Completion(n, args)), code := Success), true)
      else if |n.children| == 0 then (accepted, false)
      else
        var after := CompList(n.children, args, accepted);
        (after, after.code == Success)
  }

  /** doComplete over a list of units: the state after it returns. */
  function CompList(units: seq<Node>, args: seq<string>, o: State<seq<string>>): State<seq<string>>
    decreases SizeOf(units), 1
  {
    if |units| == 0 then o
    else
      var (r, stop) := CompNode(units[0], args, o);
      if stop then r else CompList(units[1..], args, r)
  }

  /** What a complete search can do to the result: as for execute, and on
    * SUCCESS the data is the completion of an accepted unit at the argument
    * before the last, or the empty list when that unit has no children. */
  ghost predicate CompEffect(units: seq<Node>, args: seq<string>, o: State<seq<string>>, r: State<seq<string>>) {
    && r.acceptedDepth >= o.acceptedDepth
    && (r.acceptedDepth == o.acceptedDepth
        || exists x :: x in All(units) && x.depth == r.acceptedDepth && x.depth + 1 < |args| && x.acceptor(args, x.depth))
    && (r.code == o.code || r.code == Interrupted || r.code == Success)
    && (r.code != Success ==> r.data == o.data)
    && (r.code == Success ==>
          exists x :: x in All(units) && x.depth == |args| - COMPLETE_DIFF && x.acceptor(args, x.depth)
            && r.data == Some(if |x.children| == 0 then [] else Completion(x, args)))
  }

  lemma {:induction false} CompNodeEffect(n: Node, args: seq<string>, o: State<seq<string>>)
    requires o.code != Success
    ensures CompNode(n, args, o).1 <==> CompNode(n, args, o).0.code == Success
    ensures CompEffect([n], args, o, CompNode(n, args, o).0)
    decreases Size(n), 0
  {
    assert All([n]) == [n] + All(n.children) by {
      assert [n][1..] == [];
    }
    if n.depth <= |args| - COMPLETE_DIFF && !Intercepts(n, Accept, args) && n.acceptor(args, n.depth) {
      var accepted := o.(acceptedDepth := Max(o.acceptedDepth, n.depth));
      assert n in All([n]);
      if |args| - n.depth != COMPLETE_DIFF && |n.children| > 0 {
        CompListEffect(n.children, args, accepted);
      }
    }
  }

  lemma {:induction false} CompListEffect(units: seq<Node>, args: seq<string>, o: State<seq<string>>)
    requires o.code != Success
    ensures CompEffect(units, args, o, CompList(units, args, o))
    decreases SizeOf(units), 1
  {
    if |units| > 0 {
      var (r, stop) := CompNode(units[0], args, o);
      CompNodeEffect(units[0], args, o);
      assert All([units[0]]) == [units[0]] + All(units[0].children) + All([units[0]][1..]);
      assert forall x :: x in All([units[0]]) ==> x in All(units);
      if !stop {
        CompListEffect(units[1..], args, r);
        assert forall x :: x in All(units[1..]) ==> x in All(units);
      }
    }
  }

  /** The completion search ends at the first SUCCESS. */
  lemma {:induction false} CompStopsAtSuccess(units: seq<Node>, rest: seq<Node>, args: seq<string>, o: State<seq<string>>)
    requires o.code != Success
    requires CompList(units, args, o).code == Success
    ensures CompList(units + rest, args, o) == CompList(units, args, o)
    decreases |units|
  {
    var (r, stop) := CompNode(units[0], args, o);
    CompNodeEffect(units[0], args, o);
    assert (units + rest)[0] == units[0];
    if !stop {
      assert (units + rest)[1..] == units[1..] + rest;
      CompStopsAtSuccess(units[1..], rest, args, r);
    }
  }

  /** An accepted, uninterrupted unit without children at the argument
    * before the last completes to the empty list. */
  lemma ChildlessCompletesEmpty(n: Node, rest: seq<Node>, args: seq<string>, o: State<seq<string>>)
    requires n.depth + COMPLETE_DIFF == |args| && |n.children| == 0
    requires !Intercepts(n, Accept, args) && n.acceptor(args, n.depth)
    ensures CompList([n] + rest, args, o) == State(Success, Max(o.acceptedDepth, n.depth), Some([]))
  {
    assert ([n] + rest)[0] == n;
  }

  /** doComplete: runs the units in order against the arguments. */
  method DoComplete(result: DirectionResult<seq<string>>, units: seq<Node>, args: seq<string>)
    requires result.Valid()
    modifies result
    ensures result.Valid()
    ensures Snapshot(result) == CompList(units, args, old(Snapshot(result)))
    decreases SizeOf(units)
  {
    for i := 0 to |units|
      invariant result.Valid()
      invariant CompList(units, args, old(Snapshot(result))) == CompList(units[i..], args, Snapshot(result))
    {
      var unit := units[i];
      assert units[i..][0] == unit && units[i..][1..] == units[i + 1..];
      var depth := unit.depth;
      if depth > |args| - COMPLETE_DIFF {
        continue;
      }
      if Intercepts(unit, Accept, args) {
        result.SetCode(Interrupted);
        continue;
      }
      if !unit.acceptor(args, depth) {
        continue;
      }
      var _ := result.SetAcceptedDepth(depth);
      var children := unit.children;
      if |args| - depth == COMPLETE_DIFF {
        if |children| == 0 {
          result.SetData(Some([]));
        } else {
          if Intercepts(unit, Complete, args) {
            result.SetCode(Interrupted);
            continue;
          }
          var examples := GatherExamples(children, args, depth);
          if |examples| == 0 {
            result.SetData(Some([]));
          } else {
            var completed := match unit.completer
              case None => DefaultComplete(examples, args[depth + 1])
              case Some(complete) => complete(examples, args, depth);
            result.SetData(Some(completed));
          }
        }
        result.SetCode(Success);
        return;
      } else if |children| == 0 {
        continue;
      }
      SizeOfElement(units, i);
      DoComplete(result, children, args);
      if result.code == Success {
        return;
      }
    }
  }

  // ----- the direction -----

  datatype DirectionError = InvalidArgument   // AssertUtils: a blank name

  class StdDirection {
    var name: string
    var description: string
    var units: LinkedMap<string, Node>

    ghost predicate Valid()
      reads this
    {
      units.Valid() && !StringUtils.AllWhitespace(name)
    }

    constructor(name: string, description: string)
      requires !StringUtils.AllWhitespace(name)
      ensures Valid()
      ensures this.name == name && this.description == description && units == EmptyMap()
    {
      this.name := name;
      this.description := description;
      units := EmptyMap();
    }

    /** new StdDirection(name, description): a blank name is rejected. */
    static method Create(name: string, description: string) returns (r: Result<StdDirection, DirectionError>)
      ensures r.Err? <==> StringUtils.AllWhitespace(name)
      ensures r.Ok? ==> fresh(r.value) && r.value.Valid()
      ensures r.Ok? ==> r.value.name == name && r.value.description == description && r.value.units == EmptyMap()
    {
      var blank := StringUtils.IsBlank(name);
      if blank {
        return Err(DirectionError.InvalidArgument);
      }
      var d := new StdDirection(name, description);
      return Ok(d);
    }

    method SetName(name: string) returns (r: Result<(), DirectionError>)
      requires Valid()
      modifies this
      ensures Valid()
      ensures r.Err? <==> StringUtils.AllWhitespace(name)
      ensures this.name == if r.Ok? then name else old(this.name)
      ensures description == old(description) && units == old(units)
    {
      var blank := StringUtils.IsBlank(name);
      if blank {
        return Err(DirectionError.InvalidArgument);
      }
      this.name := name;
      return Ok(());
    }

    /** getDirectionUnits: the units in the order their names were first added. */
    function GetDirectionUnits(): (us: seq<Node>)
      requires Valid()
      reads this
      ensures |us| == |units.keys|
      ensures forall i :: 0 <= i < |us| ==> us[i] == units.entries[units.keys[i]]
    {
      units.Values()
    }

    /** addDirectionUnit: keyed by the unit's name, replacing a unit of the same name in its place. */
    method AddDirectionUnit(unit: Node)
      requires Valid()
      modifies this
      ensures Valid()
      ensures units == old(units).Put(unit.name, unit)
      ensures name == old(name) && description == old(description)
    {
      units := units.Put(unit.name, unit);
    }

    method RemoveDirectionUnit(unitName: string)
      requires Valid()
      modifies this
      ensures Valid()
      ensures units == old(units).Remove(unitName)
      ensures name == old(name) && description == old(description)
    {
      units := units.Remove(unitName);
    }

    /** execute: no arguments give INVALID_COMMAND without a search. */
    method Execute(args: seq<string>) returns (r: DirectionResult<bool>)
      requires Valid()
      ensures fresh(r) && r.Valid()
      ensures |args| == 0 ==> Snapshot(r) == Initial()
      ensures |args| > 0 ==> Snapshot(r) == ExecList(GetDirectionUnits(), args, Initial())
    {
      r := new DirectionResult(InvalidCommand);
      if |args| == 0 {
        return;
      }
      DoExecute(r, GetDirectionUnits(), args);
    }

    /** complete: no arguments give INVALID_COMMAND without a search. */
    method Complete(args: seq<string>) returns (r: DirectionResult<seq<string>>)
      requires Valid()
      ensures fresh(r) && r.Valid()
      ensures |args| == 0 ==> Snapshot(r) == Initial()
      ensures |args| > 0 ==> Snapshot(r) == CompList(GetDirectionUnits(), args, Initial())
    {
      r := new DirectionResult(InvalidCommand);
      if |args| == 0 {
        return;
      }
      DoComplete(r, GetDirectionUnits(), args);
    }
  }
}
