/**
 * Class names and type descriptors (section 4.3.2 of the Java Virtual Machine
 * Specification), and the ancestor walk over a class hierarchy.
 */
module ClassUtils {
  import opened Wrappers
  import StringUtils
  import LinkedMaps

  datatype ClassError =
    | InvalidArgument     // AssertUtils: a blank name or descriptor
    | IndexOutOfBounds    // String.substring

  /** The nine primitive classes. */
  datatype Prim = Void | Boolean | Char | Byte | Short | Int | Float | Long | Double

  function PrimName(p: Prim): string {
    match p
      case Void => "void" case Boolean => "boolean" case Char => "char"
      case Byte => "byte" case Short => "short" case Int => "int"
      case Float => "float" case Long => "long" case Double => "double"
  }

  function PrimDesc(p: Prim): string {
    match p
      case Void => "V" case Boolean => "Z" case Char => "C"
      case Byte => "B" case Short => "S" case Int => "I"
      case Float => "F" case Long => "J" case Double => "D"
  }

  const PRIMITIVE_CLASS_NAME_SET: set<string> :=
    {"void", "boolean", "char", "byte", "short", "int", "float", "long", "double"}
  const PRIMITIVE_TYPE_DESC_SET: set<string> := {"V", "Z", "C", "B", "S", "I", "F", "J", "D"}

  /** The switch over primitive names in forName. */
  function PrimOfName(name: string): (r: Option<Prim>)
    ensures r.Some? <==> name in PRIMITIVE_CLASS_NAME_SET
    ensures r.Some? ==> PrimName(r.value) == name
  {
    if name == "void" then Some(Void) else if name == "boolean" then Some(Boolean)
    else if name == "char" then Some(Char) else if name == "byte" then Some(Byte)
    else if name == "short" then Some(Short) else if name == "int" then Some(Int)
    else if name == "float" then Some(Float) else if name == "long" then Some(Long)
    else if name == "double" then Some(Double) else None
  }

  /** The switch over primitive descriptors in forDesc. */
  function PrimOfDesc(desc: string): (r: Option<Prim>)
    ensures r.Some? <==> desc in PRIMITIVE_TYPE_DESC_SET
    ensures r.Some? ==> PrimDesc(r.value) == desc
  {
    if desc == "V" then Some(Void) else if desc == "Z" then Some(Boolean)
    else if desc == "C" then Some(Char) else if desc == "B" then Some(Byte)
    else if desc == "S" then Some(Short) else if desc == "I" then Some(Int)
    else if desc == "F" then Some(Float) else if desc == "J" then Some(Long)
    else if desc == "D" then Some(Double) else None
  }

  /** A loaded class, as far as descriptors are concerned: its name and whether it is an array class. */
  datatype JClass = JClass(name: string, isArray: bool)

  /** What forName/forDesc resolve to: a primitive class, or a name handed to Class.forName. */
  datatype Resolved = PrimitiveClass(p: Prim) | Load(name: string)

  /** Class names as the virtual machine reports them: not blank, and an
    * array class's name starts with '['. */
  predicate WellFormed(c: JClass) {
    |c.name| > 0 && !StringUtils.AllWhitespace(c.name) && (c.isArray ==> c.name[0] == '[')
  }

  /** getDesc. */
  function GetDesc(c: JClass): (d: string)
    ensures |d| > 0 || c.isArray
  {
    match PrimOfName(c.name)
      case Some(p) => PrimDesc(p)
      case None => if c.isArray then c.name else "L" + c.name + ";"
  }

  /** isPrimitiveDesc: a blank descriptor is refused; the answer is true
    * exactly when forDesc's switch knows the code. */
  function IsPrimitiveDesc(desc: string): (r: Result<bool, ClassError>)
    ensures r.Err? <==> StringUtils.AllWhitespace(desc)
    ensures r.Ok? ==> (r.value <==> PrimOfDesc(desc).Some?)
  {
    if StringUtils.AllWhitespace(desc) then Err(InvalidArgument)
    else Ok(desc in PRIMITIVE_TYPE_DESC_SET)
  }

  /** forName, up to the class-loader call: a blank name is refused, a
    * primitive name gives the primitive of that name, and any other name
    * goes to the class loader unchanged. */
  function ForName(name: string): (r: Result<Resolved, ClassError>)
    ensures r.Err? <==> StringUtils.AllWhitespace(name)
    ensures r.Ok? && r.value.PrimitiveClass? ==> PrimName(r.value.p) == name
    ensures r.Ok? && r.value.Load? ==> r.value.name == name && name !in PRIMITIVE_CLASS_NAME_SET
  {
    if StringUtils.AllWhitespace(name) then Err(InvalidArgument)
    else match PrimOfName(name)
      case Some(p) => Ok(PrimitiveClass(p))
      case None => Ok(Load(name))
  }

  /** forDesc, up to the class-loader call: an "L...;" descriptor loses its
    * first and last characters. It fails on a blank descriptor and, in
    * substring, on the lone "L"; a primitive is resolved from its code. */
  function ForDesc(desc: string): (r: Result<Resolved, ClassError>)
    ensures r.Err? <==> StringUtils.AllWhitespace(desc) || desc == "L"
    ensures r.Ok? && r.value.PrimitiveClass? ==> PrimDesc(r.value.p) == desc
    ensures r.Ok? && r.value.Load? ==> desc !in PRIMITIVE_TYPE_DESC_SET
    ensures r.Ok? && r.value.Load? && desc[0] == 'L' ==> |r.value.name| == |desc| - 2 && desc == "L" + r.value.name + [desc[|desc| - 1]]
    ensures r.Ok? && r.value.Load? && desc[0] != 'L' ==> r.value.name == desc
  {
    if StringUtils.AllWhitespace(desc) then Err(InvalidArgument)
    else match PrimOfDesc(desc)
      case Some(p) => Ok(PrimitiveClass(p))
      case None =>
        if desc[0] == 'L' then
          if |desc| < 2 then Err(IndexOutOfBounds) else Ok(Load(desc[1..|desc| - 1]))
        else Ok(Load(desc))
  }

  /** isPrimitiveDesc holds exactly for the nine one-letter codes. */
  lemma IsPrimitiveDescExactly(desc: string)
    ensures IsPrimitiveDesc(desc) == Ok(true) <==> exists p :: PrimDesc(p) == desc
  {
    if exists p :: PrimDesc(p) == desc {
      var p :| PrimDesc(p) == desc;
      assert desc in PRIMITIVE_TYPE_DESC_SET by {
        match p
          case Void => case Boolean => case Char => case Byte => case Short =>
          case Int => case Float => case Long => case Double =>
      }
      assert !StringUtils.IsWhitespace(desc[0]);
    }
    if IsPrimitiveDesc(desc) == Ok(true) {
      assert PrimDesc(PrimOfDesc(desc).value) == desc;
    }
  }

  /** The nine primitives map to their codes, and forName and forDesc map name and code back. */
  lemma PrimitiveDescRoundTrip(p: Prim)
    ensures GetDesc(JClass(PrimName(p), false)) == PrimDesc(p)
    ensures ForDesc(PrimDesc(p)) == Ok(PrimitiveClass(p))
    ensures ForName(PrimName(p)) == Ok(PrimitiveClass(p))
  {
    assert !StringUtils.IsWhitespace(PrimDesc(p)[0]);
    assert !StringUtils.IsWhitespace(PrimName(p)[0]);
  }

  /** forDesc inverts getDesc for every class the virtual machine can name:
    * an array keeps its name, any other reference class is wrapped in "L...;". */
  lemma {:induction false} DescRoundTrip(c: JClass)
    requires WellFormed(c)
    ensures PrimOfName(c.name).None? && !c.isArray ==> GetDesc(c) == "L" + c.name + ";"
    ensures PrimOfName(c.name).None? && c.isArray ==> GetDesc(c) == c.name
    ensures ForDesc(GetDesc(c)) ==
      match PrimOfName(c.name) case Some(p) => Ok(PrimitiveClass(p)) case None => Ok(Load(c.name))
  {
    match PrimOfName(c.name)
    case Some(p) =>
      PrimitiveDescRoundTrip(p);
    case None =>
      var d := GetDesc(c);
      if c.isArray {
        assert d == c.name;
        assert !StringUtils.IsWhitespace(d[0]);
        assert d !in PRIMITIVE_TYPE_DESC_SET;
      } else {
        assert d == "L" + c.name + ";";
        assert !StringUtils.IsWhitespace(d[0]);
        assert |d| >= 3;
        assert d[1..|d| - 1] == c.name;
      }
  }

  // ---------------------------------------------------------------------
  // getAncestorClasses
  // ---------------------------------------------------------------------

  /** A class with its superclass and directly implemented interfaces. */
  datatype ClassNode = ClassNode(name: string, superclass: Option<ClassNode>, interfaces: seq<ClassNode>)

  /** The classes getSuperclass and getInterfaces return, in that order. */
  function Parents(c: ClassNode): (ps: seq<ClassNode>)
    ensures forall p :: p in ps <==> (c.superclass == Some(p) || p in c.interfaces)
  {
    (match c.superclass case None => [] case Some(s) => [s]) + c.interfaces
  }

  /** `a` is a superclass or an implemented interface of `c`, directly or further up. */
  ghost predicate IsAncestor(a: ClassNode, c: ClassNode)
  {
    (c.superclass.Some? && (a == c.superclass.value || IsAncestor(a, c.superclass.value)))
    || (exists i :: i in c.interfaces && (a == i || IsAncestor(a, i)))
  }

  /** The number of nodes in the unfolded hierarchy above and including `c`. */
  function Size(c: ClassNode): nat
    decreases c, 1
  {
    1 + (match c.superclass case None => 0 case Some(s) => Size(s)) + SumSizes(c.interfaces)
  }

  function SumSizes(cs: seq<ClassNode>): nat
    decreases cs, 0
  {
    if |cs| == 0 then 0 else Size(cs[0]) + SumSizes(cs[1..])
  }

  lemma {:induction false} SumSizesAppend(cs: seq<ClassNode>, ds: seq<ClassNode>)
    ensures SumSizes(cs + ds) == SumSizes(cs) + SumSizes(ds)
  {
    if |cs| > 0 {
      assert (cs + ds)[1..] == cs[1..] + ds;
      SumSizesAppend(cs[1..], ds);
    } else {
      assert cs + ds == ds;
    }
  }

  lemma {:induction false} SumSizesRemoveFirst(cs: seq<ClassNode>, x: ClassNode)
    ensures SumSizes(RemoveFirst(cs, x)) <= SumSizes(cs)
  {
    if |cs| > 0 && cs[0] != x {
      SumSizesRemoveFirst(cs[1..], x);
      assert ([cs[0]] + RemoveFirst(cs[1..], x))[1..] == RemoveFirst(cs[1..], x);
    }
  }

  /** The proper ancestors of a class are smaller than it. */
  lemma {:induction false} AncestorSmaller(a: ClassNode, c: ClassNode)
    requires IsAncestor(a, c)
    ensures Size(a) < Size(c)
  {
    if c.superclass.Some? && (a == c.superclass.value || IsAncestor(a, c.superclass.value)) {
      if a != c.superclass.value {
        AncestorSmaller(a, c.superclass.value);
      }
    } else {
      var i :| i in c.interfaces && (a == i || IsAncestor(a, i));
      if a != i {
        AncestorSmaller(a, i);
      }
      InSumSizes(c.interfaces, i);
    }
  }

  lemma {:induction false} InSumSizes(cs: seq<ClassNode>, x: ClassNode)
    requires x in cs
    ensures Size(x) <= SumSizes(cs)
  {
    if cs[0] != x {
      InSumSizes(cs[1..], x);
    }
  }

  /** A parent of an ancestor is an ancestor. */
  lemma {:induction false} AncestorOfParent(x: ClassNode, p: ClassNode, c: ClassNode)
    requires x == c || IsAncestor(x, c)
    requires p in Parents(x)
    ensures IsAncestor(p, c)
  {
    if x != c {
      if c.superclass.Some? && (x == c.superclass.value || IsAncestor(x, c.superclass.value)) {
        AncestorOfParent(x, p, c.superclass.value);
      } else {
        var i :| i in c.interfaces && (x == i || IsAncestor(x, i));
        AncestorOfParent(x, p, i);
      }
    }
  }

  /** A list closed under taking parents holds every ancestor of each of its classes. */
  lemma {:induction false} ClosedHoldsAncestors(s: seq<ClassNode>, c: ClassNode, a: ClassNode)
    requires forall x, p :: x in s && p in Parents(x) ==> p in s
    requires c in s && IsAncestor(a, c)
    ensures a in s
  {
    if c.superclass.Some? && (a == c.superclass.value || IsAncestor(a, c.superclass.value)) {
      assert c.superclass.value in Parents(c);
      if a != c.superclass.value {
        ClosedHoldsAncestors(s, c.superclass.value, a);
      }
    } else {
      var i :| i in c.interfaces && (a == i || IsAncestor(a, i));
      assert i in Parents(c);
      if a != i {
        ClosedHoldsAncestors(s, i, a);
      }
    }
  }

  /** List.remove(Object): the first occurrence goes. */
  function RemoveFirst<T(==)>(s: seq<T>, x: T): (r: seq<T>)
    ensures x !in s ==> r == s
    ensures forall y :: y in r ==> y in s
    ensures forall y :: y in s && y != x ==> y in r
    ensures LinkedMaps.Distinct(s) ==> LinkedMaps.Distinct(r) && x !in r
    ensures |s| > 0 && s[0] != x ==> |r| > 0 && r[0] == s[0]
  {
    if |s| == 0 then []
    else if s[0] == x then s[1..]
    else
      var rest := RemoveFirst(s[1..], x);
      assert forall k :: 0 < k < |[s[0]] + rest| ==> ([s[0]] + rest)[k] in s[1..];
      [s[0]] + rest
  }

  /** The loop over getInterfaces: each interface is moved to the back of the deque. */
  method EnqueueInterfaces(queue: seq<ClassNode>, interfaces: seq<ClassNode>) returns (q: seq<ClassNode>)
    ensures SumSizes(q) <= SumSizes(queue) + SumSizes(interfaces)
    ensures forall y :: y in q ==> y in queue || y in interfaces
    ensures forall y :: y in queue ==> y in q
    ensures forall y :: y in interfaces ==> y in q
  {
    q := queue;
    var k := 0;
    while k < |interfaces|
      invariant 0 <= k <= |interfaces|
      invariant SumSizes(q) <= SumSizes(queue) + SumSizes(interfaces[..k])
      invariant forall y :: y in q ==> y in queue || y in interfaces
      invariant forall y :: y in queue ==> y in q
      invariant forall j :: 0 <= j < k ==> interfaces[j] in q
    {
      var anInterface := interfaces[k];
      SumSizesRemoveFirst(q, anInterface);
      SumSizesAppend(RemoveFirst(q, anInterface), [anInterface]);
      SumSizesAppend(interfaces[..k], [anInterface]);
      assert interfaces[..k + 1] == interfaces[..k] + [anInterface];
      q := RemoveFirst(q, anInterface) + [anInterface];
      k := k + 1;
    }
    assert interfaces[..k] == interfaces;
  }

  /** Visiting the head of the queue keeps every parent of a visited class
    * visited or queued. */
  lemma VisitClosed(visited: seq<ClassNode>, queue: seq<ClassNode>, current: ClassNode, next: seq<ClassNode>)
    requires |queue| > 0 && current == queue[0]
    requires forall x, p :: x in visited && p in Parents(x) ==> p in visited || p in queue
    requires forall y :: y in queue[1..] ==> y in next
    requires forall p :: p in Parents(current) ==> p in next
    ensures forall x, p :: x in RemoveFirst(visited, current) + [current] && p in Parents(x) ==>
      p in RemoveFirst(visited, current) + [current] || p in next
  {
    var visited' := RemoveFirst(visited, current) + [current];
    forall x, p | x in visited' && p in Parents(x) ensures p in visited' || p in next {
      if x != current {
        assert x in visited;
        if p != current && p in queue {
          assert p in queue[1..];
        }
      }
    }
  }

  /** getAncestorClasses: every superclass and interface above `subclass`,
    * each once, without `subclass` itself. */
  method GetAncestorClasses(subclass: ClassNode) returns (ret: seq<ClassNode>)
    ensures LinkedMaps.Distinct(ret)
    ensures subclass !in ret
    ensures forall a :: a in ret <==> IsAncestor(a, subclass)
  {
    var visited: seq<ClassNode> := [];
    var subclasses := [subclass];
    while |subclasses| > 0
      invariant LinkedMaps.Distinct(visited)
      invariant forall x :: x in visited ==> x == subclass || IsAncestor(x, subclass)
      invariant (visited == [] && subclasses == [subclass]) ||
        (|visited| > 0 && visited[0] == subclass && forall x :: x in subclasses ==> IsAncestor(x, subclass))
      invariant forall x, p :: x in visited && p in Parents(x) ==> p in visited || p in subclasses
      decreases SumSizes(subclasses)
    {
      var current := subclasses[0];
      ghost var measure := SumSizes(subclasses);
      ghost var rest := subclasses[1..];
      ghost var old_subclasses := subclasses;
      assert measure == Size(current) + SumSizes(rest);
      assert visited == [] ==> |rest| == 0;
      assert current == subclass || IsAncestor(current, subclass);
      subclasses := subclasses[1..];
      if current.superclass.Some? {
        SumSizesAppend(subclasses, [current.superclass.value]);
        subclasses := subclasses + [current.superclass.value];
      }
      ghost var beforeInterfaces := subclasses;
      assert SumSizes(beforeInterfaces) + SumSizes(current.interfaces) < measure;
      subclasses := EnqueueInterfaces(subclasses, current.interfaces);
      assert SumSizes(subclasses) < measure;
      forall y | y in subclasses
        ensures IsAncestor(y, subclass)
      {
        if y !in rest {
          assert y in Parents(current);
          AncestorOfParent(current, y, subclass);
        } else {
          assert y in old_subclasses;
        }
      }
      if visited != [] {
        assert current in old_subclasses && IsAncestor(current, subclass);
        AncestorSmaller(current, subclass);
      }
      assert forall y :: y in rest ==> y in subclasses;
      assert forall p :: p in Parents(current) ==> p in subclasses;
      VisitClosed(visited, old_subclasses, current, subclasses);
      visited := RemoveFirst(visited, current) + [current];
    }
    forall a | IsAncestor(a, subclass)
      ensures a in visited[1..]
    {
      ClosedHoldsAncestors(visited, subclass, a);
      AncestorSmaller(a, subclass);
    }
    ret := visited[1..];
  }
}
