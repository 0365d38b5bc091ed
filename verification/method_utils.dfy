/**
 * Method descriptors (section 4.3.3 of the Java Virtual Machine
 * Specification, Java SE 8): "(" parameter descriptors ")" return descriptor.
 * getParamTypes and getReturnType run the same hand-written scan; the one
 * collects the parameter classes, the other only the return class.
 * Classes are resolved through ClassUtils.forDesc up to the class-loader call.
 */
module MethodUtils {
  import opened Wrappers
  import StringUtils
  import ClassUtils

  datatype DescError =
    | InvalidDescriptor             // the IllegalArgumentException of the scan
    | Class(e: ClassUtils.ClassError) // raised by isPrimitiveDesc or forDesc

  /** Which of the two public scans runs. */
  datatype Mode = ParamTypes | ReturnType

  /** The scan's local variables; `None` stands for null. */
  datatype ScanState = ScanState(
    arrayDescHeader: Option<nat>,
    arrayDescFooter: Option<nat>,
    refTypeHeader: Option<nat>,
    lastParamTypeFooter: Option<nat>,
    returnTypeHeader: Option<nat>,
    paramTypes: seq<ClassUtils.Resolved>,
    returnType: Option<ClassUtils.Resolved>)

  const Start := ScanState(None, None, None, None, None, [], None)

  /** The recorded header positions lie before position `i`. */
  predicate Below(st: ScanState, i: nat) {
    (st.arrayDescHeader.Some? ==> st.arrayDescHeader.value < i)
    && (st.arrayDescFooter.Some? ==> st.arrayDescFooter.value < i)
    && (st.refTypeHeader.Some? ==> st.refTypeHeader.value < i)
  }

  /** A type descriptor has ended: forDesc it and store it as a parameter or as
    * the return type. getReturnType does not resolve parameters at all. */
  function Record(st: ScanState, typeDesc: string, mode: Mode, footer: nat): (r: Result<ScanState, DescError>)
    ensures r.Ok? ==> r.value.returnTypeHeader == st.returnTypeHeader
    ensures r.Ok? ==> r.value.lastParamTypeFooter == Some(footer)
    ensures r.Ok? && st.returnType.Some? ==> r.value.returnType.Some?
  {
    var cleared := st.(lastParamTypeFooter := Some(footer), arrayDescHeader := None, arrayDescFooter := None);
    if st.returnTypeHeader.None? then
      if mode == ParamTypes then
        match ClassUtils.ForDesc(typeDesc)
          case Ok(c) => Ok(cleared.(paramTypes := st.paramTypes + [c]))
          case Err(e) => Err(Class(e))
      else Ok(cleared)
    else
      match ClassUtils.ForDesc(typeDesc)
        case Ok(c) => Ok(cleared.(returnType := Some(c)))
        case Err(e) => Err(Class(e))
  }

  /** One pass of the loop body, at index `i`. With `corrected`, an 'L' right
    * after ')' may start the return type, and a class type is resolved from its
    * whole "L...;" descriptor rather than from the bare class name. */
  function Step(desc: string, i: nat, st: ScanState, mode: Mode, corrected: bool): (r: Result<ScanState, DescError>)
    requires i < |desc| && Below(st, i)
    ensures r.Ok? ==> Below(r.value, i + 1)
    ensures r.Ok? && st.returnType.Some? ==> r.value.returnType.Some?
  {
    var c := desc[i];
    if c == '[' then
      if st.arrayDescHeader.None? then
        Ok(st.(arrayDescHeader := Some(i), arrayDescFooter := Some(i)))
      else if st.refTypeHeader.Some? || st.arrayDescFooter.None? || st.arrayDescFooter.value + 1 != i then
        Err(InvalidDescriptor)
      else
        Ok(st.(arrayDescFooter := Some(i)))
    else if c == 'L' then
      if st.refTypeHeader.None? then
        if i != 1 && st.arrayDescFooter.None? && st.lastParamTypeFooter.None?
          && !(corrected && st.returnTypeHeader == Some(i)) then
          Err(InvalidDescriptor)
        else
          Ok(st.(refTypeHeader := Some(i)))
      else
        Ok(st)
    else if c == ';' then
      if st.refTypeHeader.None? then Err(InvalidDescriptor)
      else
        var typeDesc :=
          if st.arrayDescHeader.Some? then desc[st.arrayDescHeader.value..i + 1]
          else if corrected then desc[st.refTypeHeader.value..i + 1]
          else desc[st.refTypeHeader.value + 1..i];
        match Record(st, typeDesc, mode, i)
          case Ok(s) => Ok(s.(refTypeHeader := None))
          case Err(e) => Err(e)
    else if c == ')' then
      // the header i + 1 can never exceed the length, so that check never fires
      if st.returnTypeHeader.Some? then Err(InvalidDescriptor)
      else Ok(st.(returnTypeHeader := Some(i + 1)))
    else if st.refTypeHeader.Some? then
      Ok(st)
    else match ClassUtils.IsPrimitiveDesc([c])
      case Err(e) => Err(Class(e))
      case Ok(false) => Err(InvalidDescriptor)
      case Ok(true) =>
        var typeDesc := if st.arrayDescHeader.Some? then desc[st.arrayDescHeader.value..i + 1] else [c];
        Record(st, typeDesc, mode, i)
  }

  /** The loop from index `i` on: it ends at the end of the descriptor, and
    * otherwise runs its body at `i`. */
  function ScanFrom(desc: string, i: nat, st: ScanState, mode: Mode, corrected: bool): Result<ScanState, DescError>
    requires i <= |desc| && Below(st, i)
    decreases |desc| - i, 1
  {
    if i == |desc| then Ok(st) else Continue(desc, i, st, mode, corrected)
  }

  /** The loop body at index `i`: it stops at the first character after the
    * return type, and otherwise takes one `Step` and goes on. */
  function Continue(desc: string, i: nat, st: ScanState, mode: Mode, corrected: bool): Result<ScanState, DescError>
    requires i < |desc| && Below(st, i)
    decreases |desc| - i, 0
  {
    if st.returnType.Some? then Err(InvalidDescriptor)
    else match Step(desc, i, st, mode, corrected)
      case Err(e) => Err(e)
      case Ok(next) => ScanFrom(desc, i + 1, next, mode, corrected)
  }

  /** The whole scan: a blank descriptor fails the argument check; one shorter
    * than three characters, or not starting with '(', or without a return type, is invalid. */
  function Scan(desc: string, mode: Mode, corrected: bool): (r: Result<ScanState, DescError>)
    ensures r.Ok? ==> r.value.returnType.Some?
    ensures |desc| < 3 || desc[0] != '(' ==> r.Err?
  {
    if StringUtils.AllWhitespace(desc) then Err(Class(ClassUtils.InvalidArgument))
    else if |desc| < 3 || desc[0] != '(' then Err(InvalidDescriptor)
    else match ScanFrom(desc, 1, Start, mode, corrected)
      case Err(e) => Err(e)
      case Ok(st) => if st.returnType.None? then Err(InvalidDescriptor) else Ok(st)
  }

  /** getParamTypes. */
  function ParamTypesOf(desc: string): Result<seq<ClassUtils.Resolved>, DescError> {
    match Scan(desc, ParamTypes, false)
      case Ok(st) => Ok(st.paramTypes)
      case Err(e) => Err(e)
  }

  /** getReturnType. */
  function ReturnTypeOf(desc: string): Result<ClassUtils.Resolved, DescError> {
    match Scan(desc, ReturnType, false)
      case Ok(st) => Ok(st.returnType.value)
      case Err(e) => Err(e)
  }

  function ParamTypesCorrected(desc: string): Result<seq<ClassUtils.Resolved>, DescError> {
    match Scan(desc, ParamTypes, true)
      case Ok(st) => Ok(st.paramTypes)
      case Err(e) => Err(e)
  }

  function ReturnTypeCorrected(desc: string): Result<ClassUtils.Resolved, DescError> {
    match Scan(desc, ReturnType, true)
      case Ok(st) => Ok(st.returnType.value)
      case Err(e) => Err(e)
  }

  /** The forDesc call for a finished type descriptor, stored as a parameter or
    * as the return type. */
  method RecordType(st: ScanState, typeDesc: string, mode: Mode, footer: nat) returns (r: Result<ScanState, DescError>)
    ensures r == Record(st, typeDesc, mode, footer)
  {
    var next := st.(lastParamTypeFooter := Some(footer), arrayDescHeader := None, arrayDescFooter := None);
    if st.returnTypeHeader.None? && mode == ReturnType {
      return Ok(next);
    }
    var resolved := ClassUtils.ForDesc(typeDesc);
    if resolved.Err? {
      return Err(Class(resolved.error));
    }
    if st.returnTypeHeader.None? {
      next := next.(paramTypes := next.paramTypes + [resolved.value]);
    } else {
      next := next.(returnType := Some(resolved.value));
    }
    return Ok(next);
  }

  /** case '[': open an array descriptor, or extend a contiguous one. */
  method OnArray(methodDesc: string, i: nat, st: ScanState, mode: Mode, corrected: bool) returns (r: Result<ScanState, DescError>)
    requires i < |methodDesc| && Below(st, i) && methodDesc[i] == '['
    ensures r == Step(methodDesc, i, st, mode, corrected)
  {
    if st.arrayDescHeader.None? {
      return Ok(st.(arrayDescHeader := Some(i), arrayDescFooter := Some(i)));
    } else if st.refTypeHeader.Some? || st.arrayDescFooter.None? || st.arrayDescFooter.value + 1 != i {
      return Err(InvalidDescriptor);
    }
    return Ok(st.(arrayDescFooter := Some(i)));
  }

  /** case 'L': open a class descriptor where a type may start. */
  method OnClass(methodDesc: string, i: nat, st: ScanState, mode: Mode, corrected: bool) returns (r: Result<ScanState, DescError>)
    requires i < |methodDesc| && Below(st, i) && methodDesc[i] == 'L'
    ensures r == Step(methodDesc, i, st, mode, corrected)
  {
    if st.refTypeHeader.None? {
      if i != 1 && st.arrayDescFooter.None? && st.lastParamTypeFooter.None?
        && !(corrected && st.returnTypeHeader == Some(i)) {
        return Err(InvalidDescriptor);
      }
      return Ok(st.(refTypeHeader := Some(i)));
    }
    return Ok(st);
  }

  /** case ';': close a class descriptor and resolve it. */
  method OnClassEnd(methodDesc: string, i: nat, st: ScanState, mode: Mode, corrected: bool) returns (r: Result<ScanState, DescError>)
    requires i < |methodDesc| && Below(st, i) && methodDesc[i] == ';'
    ensures r == Step(methodDesc, i, st, mode, corrected)
  {
    if st.refTypeHeader.None? {
      return Err(InvalidDescriptor);
    }
    var typeDesc :=
      if st.arrayDescHeader.Some? then methodDesc[st.arrayDescHeader.value..i + 1]
      else if corrected then methodDesc[st.refTypeHeader.value..i + 1]
      else methodDesc[st.refTypeHeader.value + 1..i];
    r := RecordType(st, typeDesc, mode, i);
    if r.Ok? {
      r := Ok(r.value.(refTypeHeader := None));
    }
  }

  /** case ')': the return type starts at the next index; a second ')' is invalid. */
  method OnReturn(methodDesc: string, i: nat, st: ScanState, mode: Mode, corrected: bool) returns (r: Result<ScanState, DescError>)
    requires i < |methodDesc| && Below(st, i) && methodDesc[i] == ')'
    ensures r == Step(methodDesc, i, st, mode, corrected)
  {
    if st.returnTypeHeader.Some? {
      return Err(InvalidDescriptor);
    }
    return Ok(st.(returnTypeHeader := Some(i + 1)));
  }

  /** default: inside a class name, skip; otherwise a primitive code, resolved
    * on its own or as the element type of the open array descriptor. */
  method OnOther(methodDesc: string, i: nat, st: ScanState, mode: Mode, corrected: bool) returns (r: Result<ScanState, DescError>)
    requires i < |methodDesc| && Below(st, i)
    requires methodDesc[i] !in {'[', 'L', ';', ')'}
    ensures r == Step(methodDesc, i, st, mode, corrected)
  {
    var c := methodDesc[i];
    if st.refTypeHeader.Some? {
      return Ok(st);
    }
    var primitive := ClassUtils.IsPrimitiveDesc([c]);
    if primitive.Err? {
      return Err(Class(primitive.error));
    }
    if !primitive.value {
      return Err(InvalidDescriptor);
    }
    var typeDesc := if st.arrayDescHeader.Some? then methodDesc[st.arrayDescHeader.value..i + 1] else [c];
    r := RecordType(st, typeDesc, mode, i);
  }

  /** The scan loop of getParamTypes and getReturnType; `st` holds the source's local variables. */
  method ScanDescriptor(methodDesc: string, mode: Mode, corrected: bool) returns (r: Result<ScanState, DescError>)
    ensures r == Scan(methodDesc, mode, corrected)
  {
    var blank := StringUtils.IsBlank(methodDesc);
    if blank {
      return Err(Class(ClassUtils.InvalidArgument));
    }
    var length := |methodDesc|;
    if length < 3 || methodDesc[0] != '(' {
      return Err(InvalidDescriptor);
    }
    var st := Start;
    var i := 1;
    while i < length
      invariant 1 <= i <= length
      invariant Below(st, i)
      invariant ScanFrom(methodDesc, 1, Start, mode, corrected) == ScanFrom(methodDesc, i, st, mode, corrected)
    {
      if st.returnType.Some? {
        return Err(InvalidDescriptor);
      }
      var c := methodDesc[i];
      var step;
      if c == '[' {
        step := OnArray(methodDesc, i, st, mode, corrected);
      } else if c == 'L' {
        step := OnClass(methodDesc, i, st, mode, corrected);
      } else if c == ';' {
        step := OnClassEnd(methodDesc, i, st, mode, corrected);
      } else if c == ')' {
        step := OnReturn(methodDesc, i, st, mode, corrected);
      } else {
        step := OnOther(methodDesc, i, st, mode, corrected);
      }
      if step.Err? {
        return Err(step.error);
      }
      st := step.value;
      i := i + 1;
    }
    if st.returnType.None? {
      return Err(InvalidDescriptor);
    }
    return Ok(st);
  }

  /** getParamTypes. */
  method GetParamTypes(methodDesc: string) returns (r: Result<seq<ClassUtils.Resolved>, DescError>)
    ensures r == ParamTypesOf(methodDesc)
  {
    var scan := ScanDescriptor(methodDesc, ParamTypes, false);
    if scan.Err? {
      return Err(scan.error);
    }
    return Ok(scan.value.paramTypes);
  }

  /** getReturnType. */
  method GetReturnType(methodDesc: string) returns (r: Result<ClassUtils.Resolved, DescError>)
    ensures r == ReturnTypeOf(methodDesc)
  {
    var scan := ScanDescriptor(methodDesc, ReturnType, false);
    if scan.Err? {
      return Err(scan.error);
    }
    return Ok(scan.value.returnType.value);
  }

  // ---------------------------------------------------------------------
  // getDesc, and the scan of descriptors it produces
  // ---------------------------------------------------------------------

  /** The parameter descriptors of getDesc, one after the other. */
  function JoinDescs(params: seq<ClassUtils.JClass>): string {
    if |params| == 0 then "" else ClassUtils.GetDesc(params[0]) + JoinDescs(params[1..])
  }

  /** getDesc: "(" + the parameter descriptors + ")" + the return descriptor. */
  function GetDesc(params: seq<ClassUtils.JClass>, ret: ClassUtils.JClass): (d: string)
    ensures |d| >= 2 && d[0] == '('
  {
    "(" + JoinDescs(params) + ")" + ClassUtils.GetDesc(ret)
  }

  /** A name the scan can delimit inside "L...;": none of '[', ';' and ')'. */
  predicate Delimitable(name: string) {
    forall k :: 0 <= k < |name| ==> name[k] != '[' && name[k] != ';' && name[k] != ')'
  }

  /** `d` is one type descriptor that the scan reads into `r`: the code of a
    * primitive, or, for the corrected scan only, "L" + name + ";". */
  predicate ReadsAs(d: string, r: ClassUtils.Resolved, corrected: bool) {
    match r
      case PrimitiveClass(p) => d == ClassUtils.PrimDesc(p)
      case Load(name) => corrected && d == "L" + name + ";" && Delimitable(name)
  }

  /** Each of the descriptors `ds` reads as the matching one of `rs`. */
  predicate AllReadAs(ds: seq<string>, rs: seq<ClassUtils.Resolved>, corrected: bool) {
    |ds| == |rs| && (|ds| == 0 || (ReadsAs(ds[0], rs[0], corrected) && AllReadAs(ds[1..], rs[1..], corrected)))
  }

  /** The scan state after a complete type descriptor, resolved to `r`, ending at `footer`. */
  function Stored(st: ScanState, r: ClassUtils.Resolved, footer: nat, mode: Mode): ScanState {
    var cleared := st.(lastParamTypeFooter := Some(footer), arrayDescHeader := None, arrayDescFooter := None, refTypeHeader := None);
    if st.returnTypeHeader.Some? then cleared.(returnType := Some(r))
    else if mode == ParamTypes then cleared.(paramTypes := st.paramTypes + [r])
    else cleared
  }

  /** A state between two type descriptors. */
  predicate AtBoundary(st: ScanState) {
    st.arrayDescHeader.None? && st.arrayDescFooter.None? && st.refTypeHeader.None? && st.returnType.None?
  }

  /** A position where a class descriptor may start: the first parameter, after
    * another parameter, or (corrected scan) right after ')'. */
  predicate TypeMayStart(st: ScanState, i: nat) {
    i == 1 || st.lastParamTypeFooter.Some? || st.returnTypeHeader == Some(i)
  }

  /** From index `i` in state `st` the scan ends as it does from index `j` in state `a`. */
  predicate Leads(desc: string, i: nat, st: ScanState, j: nat, a: ScanState, mode: Mode, corrected: bool)
    requires i <= |desc| && Below(st, i) && j <= |desc| && Below(a, j)
  {
    ScanFrom(desc, i, st, mode, corrected) == ScanFrom(desc, j, a, mode, corrected)
  }

  /** Inside a class name the scan keeps its state. */
  lemma {:induction false} SkipName(desc: string, j: nat, end: nat, st: ScanState, mode: Mode, corrected: bool)
    requires j <= end < |desc| && Below(st, j) && st.refTypeHeader.Some? && st.returnType.None?
    requires forall k :: j <= k < end ==> desc[k] != '[' && desc[k] != ';' && desc[k] != ')'
    ensures Below(st, end)
    ensures Leads(desc, j, st, end, st, mode, corrected)
    decreases end - j
  {
    if j < end {
      assert Step(desc, j, st, mode, corrected) == Ok(st);
      SkipName(desc, j + 1, end, st, mode, corrected);
    }
  }

  /** forDesc of a whole class descriptor loads the class of that name. */
  lemma ForDescOfClassDesc(name: string)
    ensures ClassUtils.ForDesc("L" + name + ";") == Ok(ClassUtils.Load(name))
  {
    var d := "L" + name + ";";
    assert !StringUtils.IsWhitespace(d[0]);
    assert d[1..|d| - 1] == name;
  }

  /** A primitive code is one step of the scan. */
  lemma ScanPrimitive(desc: string, i: nat, st: ScanState, p: ClassUtils.Prim, mode: Mode, corrected: bool)
    requires i < |desc| && desc[i..i + 1] == ClassUtils.PrimDesc(p)
    requires i >= 1 && Below(st, i) && AtBoundary(st)
    ensures Step(desc, i, st, mode, corrected) == Ok(Stored(st, ClassUtils.PrimitiveClass(p), i, mode))
  {
    var d := ClassUtils.PrimDesc(p);
    assert [desc[i]] == d;
    ClassUtils.PrimitiveDescRoundTrip(p);
    ClassUtils.IsPrimitiveDescExactly(d);
    assert desc[i] != '[' && desc[i] != 'L' && desc[i] != ';' && desc[i] != ')' by {
      match p
        case Void => case Boolean => case Char => case Byte => case Short =>
        case Int => case Float => case Long => case Double =>
    }
  }

  /** A class descriptor "L" + name + ";" is read by the corrected scan. */
  lemma ScanClass(desc: string, i: nat, st: ScanState, name: string, mode: Mode)
    requires Delimitable(name)
    requires i + |name| + 2 <= |desc| && desc[i..i + |name| + 2] == "L" + name + ";"
    requires i >= 1 && Below(st, i) && AtBoundary(st) && TypeMayStart(st, i)
    ensures Below(Stored(st, ClassUtils.Load(name), i + |name| + 1, mode), i + |name| + 2)
    ensures Leads(desc, i, st, i + |name| + 2, Stored(st, ClassUtils.Load(name), i + |name| + 1, mode), mode, true)
  {
    var d := "L" + name + ";";
    var end := i + |name| + 1;
    assert desc[i] == d[0] == 'L';
    var st1 := st.(refTypeHeader := Some(i));
    assert Step(desc, i, st, mode, true) == Ok(st1);
    assert ScanFrom(desc, i, st, mode, true) == ScanFrom(desc, i + 1, st1, mode, true);
    forall k | i + 1 <= k < end
      ensures desc[k] != '[' && desc[k] != ';' && desc[k] != ')'
    {
      assert desc[k] == d[k - i] == name[k - i - 1];
    }
    SkipName(desc, i + 1, end, st1, mode, true);
    assert desc[end] == d[|d| - 1] == ';';
    assert desc[i..end + 1] == d;
    ForDescOfClassDesc(name);
    assert Step(desc, end, st1, mode, true) == Ok(Stored(st, ClassUtils.Load(name), end, mode));
    assert ScanFrom(desc, end, st1, mode, true) == ScanFrom(desc, end + 1, Stored(st, ClassUtils.Load(name), end, mode), mode, true);
  }

  /** One type descriptor is scanned into `Stored`: the scan reaches index `j`
    * just past it in state `a`. */
  lemma ScanOne(desc: string, i: nat, st: ScanState, d: string, r: ClassUtils.Resolved, j: nat, a: ScanState, mode: Mode, corrected: bool)
    requires ReadsAs(d, r, corrected)
    requires j == i + |d| <= |desc| && desc[i..j] == d
    requires i >= 1 && Below(st, i) && AtBoundary(st) && TypeMayStart(st, i)
    requires |d| > 0 && a == Stored(st, r, j - 1, mode)
    ensures Below(a, j)
    ensures Leads(desc, i, st, j, a, mode, corrected)
  {
    match r
    case PrimitiveClass(p) =>
      ScanPrimitive(desc, i, st, p, mode, corrected);
    case Load(name) =>
      ScanClass(desc, i, st, name, mode);
  }

  /** The descriptors `ds`, one after the other. */
  function Concat(ds: seq<string>): string {
    if |ds| == 0 then "" else ds[0] + Concat(ds[1..])
  }

  /** The scan state after parameter descriptors resolved to `rs`, the last ending at `footer`. */
  function AfterParams(st: ScanState, rs: seq<ClassUtils.Resolved>, footer: nat, mode: Mode): (r: ScanState)
    ensures r.arrayDescHeader == st.arrayDescHeader && r.arrayDescFooter == st.arrayDescFooter
    ensures r.refTypeHeader == st.refTypeHeader && r.returnTypeHeader == st.returnTypeHeader
    ensures r.returnType == st.returnType
  {
    st.(paramTypes := st.paramTypes + (if mode == ParamTypes then rs else []),
      lastParamTypeFooter := if |rs| == 0 then st.lastParamTypeFooter else Some(footer))
  }

  lemma SliceSplit(desc: string, i: nat, a: string, b: string)
    requires i + |a + b| <= |desc| && desc[i..i + |a + b|] == a + b
    ensures desc[i..i + |a|] == a
    ensures desc[i + |a|..i + |a| + |b|] == b
  {
    assert desc[i..i + |a|] == desc[i..i + |a + b|][..|a|];
    assert desc[i + |a|..i + |a| + |b|] == desc[i..i + |a + b|][|a|..];
  }

  lemma AfterParamsStep(st: ScanState, rs: seq<ClassUtils.Resolved>, x: nat, footer: nat, mode: Mode)
    requires |rs| > 0 && st.returnTypeHeader.None? && AtBoundary(st)
    requires |rs| == 1 ==> footer == x
    ensures AfterParams(Stored(st, rs[0], x, mode), rs[1..], footer, mode) == AfterParams(st, rs, footer, mode)
  {
    if mode == ParamTypes {
      assert st.paramTypes + [rs[0]] + rs[1..] == st.paramTypes + rs;
    }
  }

  /** The first of the descriptors `ds` found at `i`, and the rest after it. */
  lemma ParamsHead(desc: string, i: nat, j: nat, ds: seq<string>, rs: seq<ClassUtils.Resolved>, corrected: bool)
    requires |ds| > 0 && AllReadAs(ds, rs, corrected)
    requires j == i + |Concat(ds)| <= |desc| && desc[i..j] == Concat(ds)
    ensures ReadsAs(ds[0], rs[0], corrected) && |ds[0]| > 0
    ensures i + |ds[0]| <= j && desc[i..i + |ds[0]|] == ds[0]
    ensures j == i + |ds[0]| + |Concat(ds[1..])| && desc[i + |ds[0]|..j] == Concat(ds[1..])
    ensures |rs| > 0 && AllReadAs(ds[1..], rs[1..], corrected)
  {
    assert |ds[0]| > 0 by { match rs[0] case PrimitiveClass(p) => case Load(n) => }
    assert Concat(ds) == ds[0] + Concat(ds[1..]);
    SliceSplit(desc, i, ds[0], Concat(ds[1..]));
  }

  /** The scan reads the first of the parameter descriptors `ds`. */
  lemma ScanHead(desc: string, i: nat, st: ScanState, ds: seq<string>, rs: seq<ClassUtils.Resolved>, j: nat, mode: Mode, corrected: bool)
    requires |ds| > 0 && AllReadAs(ds, rs, corrected)
    requires j == i + |Concat(ds)| <= |desc| && desc[i..j] == Concat(ds)
    requires i >= 1 && Below(st, i) && AtBoundary(st) && st.returnTypeHeader.None?
    requires i == 1 || st.lastParamTypeFooter.Some?
    ensures 0 < |ds[0]| && i + |ds[0]| <= j
    ensures Below(Stored(st, rs[0], i + |ds[0]| - 1, mode), i + |ds[0]|)
    ensures Leads(desc, i, st, i + |ds[0]|, Stored(st, rs[0], i + |ds[0]| - 1, mode), mode, corrected)
    ensures j == i + |ds[0]| + |Concat(ds[1..])| && desc[i + |ds[0]|..j] == Concat(ds[1..])
    ensures |rs| > 0 && AllReadAs(ds[1..], rs[1..], corrected)
    ensures var st1 := Stored(st, rs[0], i + |ds[0]| - 1, mode);
      AtBoundary(st1) && st1.returnTypeHeader.None? && st1.lastParamTypeFooter.Some?
      && AfterParams(st1, rs[1..], j - 1, mode) == AfterParams(st, rs, j - 1, mode)
  {
    ParamsHead(desc, i, j, ds, rs, corrected);
    var m := i + |ds[0]|;
    ScanOne(desc, i, st, ds[0], rs[0], m, Stored(st, rs[0], m - 1, mode), mode, corrected);
    AfterParamsStep(st, rs, m - 1, j - 1, mode);
  }

  /** The parameter descriptors are scanned one after the other; the scan
    * reaches index `j` just past them in state `a`. */
  lemma {:induction false} ScanParams(desc: string, i: nat, st: ScanState, ds: seq<string>, rs: seq<ClassUtils.Resolved>,
                                      j: nat, a: ScanState, mode: Mode, corrected: bool)
    requires AllReadAs(ds, rs, corrected)
    requires j == i + |Concat(ds)| <= |desc| && desc[i..j] == Concat(ds)
    requires i >= 1 && Below(st, i) && AtBoundary(st) && st.returnTypeHeader.None?
    requires i == 1 || st.lastParamTypeFooter.Some?
    requires a == AfterParams(st, rs, j - 1, mode)
    ensures Below(a, j)
    ensures Leads(desc, i, st, j, a, mode, corrected)
    decreases |ds|
  {
    if |ds| == 0 {
      assert st.paramTypes + [] == st.paramTypes;
      assert a == st;
    } else {
      ScanHead(desc, i, st, ds, rs, j, mode, corrected);
      var m := i + |ds[0]|;
      var st1 := Stored(st, rs[0], m - 1, mode);
      ScanParams(desc, m, st1, ds[1..], rs[1..], j, a, mode, corrected);
    }
  }

  /** After ')' the scan reads the return descriptor and ends. */
  lemma ScanReturn(desc: string, j: nat, a: ScanState, dr: string, rr: ClassUtils.Resolved, mode: Mode, corrected: bool)
    requires j + 1 + |dr| == |desc| && desc[j] == ')' && desc[j + 1..] == dr
    requires ReadsAs(dr, rr, corrected)
    requires j >= 1 && Below(a, j) && AtBoundary(a) && a.returnTypeHeader.None?
    ensures Below(Stored(a.(returnTypeHeader := Some(j + 1)), rr, |desc| - 1, mode), |desc|)
    ensures Leads(desc, j, a, |desc|, Stored(a.(returnTypeHeader := Some(j + 1)), rr, |desc| - 1, mode), mode, corrected)
  {
    var st2 := a.(returnTypeHeader := Some(j + 1));
    assert Step(desc, j, a, mode, corrected) == Ok(st2);
    assert ScanFrom(desc, j, a, mode, corrected) == ScanFrom(desc, j + 1, st2, mode, corrected);
    assert |dr| > 0 by { match rr case PrimitiveClass(p) => case Load(n) => }
    ScanOne(desc, j + 1, st2, dr, rr, |desc|, Stored(st2, rr, |desc| - 1, mode), mode, corrected);
  }

  /** A method descriptor of type descriptors the scan reads in one go scans to
    * exactly their resolutions. */
  lemma ScanOfDescs(ds: seq<string>, rs: seq<ClassUtils.Resolved>, dr: string, rr: ClassUtils.Resolved, mode: Mode, corrected: bool)
    requires AllReadAs(ds, rs, corrected)
    requires ReadsAs(dr, rr, corrected)
    ensures Scan("(" + Concat(ds) + ")" + dr, mode, corrected).Ok?
    ensures Scan("(" + Concat(ds) + ")" + dr, mode, corrected).value.returnType == Some(rr)
    ensures mode == ParamTypes ==> Scan("(" + Concat(ds) + ")" + dr, mode, corrected).value.paramTypes == rs
  {
    var desc := "(" + Concat(ds) + ")" + dr;
    var j := 1 + |Concat(ds)|;
    assert desc[1..j] == Concat(ds);
    assert desc[j + 1..] == dr;
    var a := AfterParams(Start, rs, j - 1, mode);
    ScanParams(desc, 1, Start, ds, rs, j, a, mode, corrected);
    ScanReturn(desc, j, a, dr, rr, mode, corrected);
    assert !StringUtils.IsWhitespace(desc[0]);
    assert [] + rs == rs;
  }

  /** A non-array class that is primitive, or whose name the scan can delimit. */
  predicate Plain(c: ClassUtils.JClass) {
    !c.isArray && (ClassUtils.PrimOfName(c.name).Some? || Delimitable(c.name))
  }

  /** What a class resolves to by name, as forName would. */
  function Resolution(c: ClassUtils.JClass): ClassUtils.Resolved {
    match ClassUtils.PrimOfName(c.name)
      case Some(p) => ClassUtils.PrimitiveClass(p)
      case None => ClassUtils.Load(c.name)
  }

  function Descs(params: seq<ClassUtils.JClass>): (ds: seq<string>)
    ensures |ds| == |params|
  {
    seq(|params|, k requires 0 <= k < |params| => ClassUtils.GetDesc(params[k]))
  }

  function Resolutions(params: seq<ClassUtils.JClass>): (rs: seq<ClassUtils.Resolved>)
    ensures |rs| == |params|
  {
    seq(|params|, k requires 0 <= k < |params| => Resolution(params[k]))
  }

  lemma {:induction false} JoinDescsConcat(params: seq<ClassUtils.JClass>)
    ensures JoinDescs(params) == Concat(Descs(params))
    decreases |params|
  {
    if |params| > 0 {
      JoinDescsConcat(params[1..]);
      assert Descs(params)[1..] == Descs(params[1..]);
    }
  }

  /** getDesc of a plain class is read by the scan as that class; a reference
    * class only by the corrected scan. */
  lemma PlainReadsAs(c: ClassUtils.JClass, corrected: bool)
    requires Plain(c) && (ClassUtils.PrimOfName(c.name).None? ==> corrected)
    ensures ReadsAs(ClassUtils.GetDesc(c), Resolution(c), corrected)
  {
  }

  lemma {:induction false} PlainAllReadAs(params: seq<ClassUtils.JClass>, corrected: bool)
    requires forall k :: 0 <= k < |params| ==> Plain(params[k]) && (ClassUtils.PrimOfName(params[k].name).None? ==> corrected)
    ensures AllReadAs(Descs(params), Resolutions(params), corrected)
    decreases |params|
  {
    if |params| > 0 {
      PlainReadsAs(params[0], corrected);
      assert forall k :: 0 <= k < |params| - 1 ==> params[1..][k] == params[k + 1];
      PlainAllReadAs(params[1..], corrected);
      assert Descs(params)[1..] == Descs(params[1..]);
      assert Resolutions(params)[1..] == Resolutions(params[1..]);
    }
  }

  /** For primitive-only signatures getParamTypes and getReturnType invert getDesc. */
  lemma PrimitiveRoundTrip(params: seq<ClassUtils.JClass>, ret: ClassUtils.JClass)
    requires forall k :: 0 <= k < |params| ==> !params[k].isArray && ClassUtils.PrimOfName(params[k].name).Some?
    requires !ret.isArray && ClassUtils.PrimOfName(ret.name).Some?
    ensures ParamTypesOf(GetDesc(params, ret)) == Ok(Resolutions(params))
    ensures ReturnTypeOf(GetDesc(params, ret)) == Ok(Resolution(ret))
  {
    RoundTrip(params, ret, false);
  }

  /** With the correction, getParamTypes and getReturnType invert getDesc for
    * primitive classes and for classes whose names the scan can delimit. */
  lemma CorrectedRoundTrip(params: seq<ClassUtils.JClass>, ret: ClassUtils.JClass)
    requires forall k :: 0 <= k < |params| ==> Plain(params[k])
    requires Plain(ret)
    ensures ParamTypesCorrected(GetDesc(params, ret)) == Ok(Resolutions(params))
    ensures ReturnTypeCorrected(GetDesc(params, ret)) == Ok(Resolution(ret))
  {
    RoundTrip(params, ret, true);
  }

  lemma RoundTrip(params: seq<ClassUtils.JClass>, ret: ClassUtils.JClass, corrected: bool)
    requires forall k :: 0 <= k < |params| ==> Plain(params[k]) && (ClassUtils.PrimOfName(params[k].name).None? ==> corrected)
    requires Plain(ret) && (ClassUtils.PrimOfName(ret.name).None? ==> corrected)
    ensures Scan(GetDesc(params, ret), ParamTypes, corrected).Ok?
    ensures Scan(GetDesc(params, ret), ParamTypes, corrected).value.paramTypes == Resolutions(params)
    ensures Scan(GetDesc(params, ret), ReturnType, corrected).Ok?
    ensures Scan(GetDesc(params, ret), ReturnType, corrected).value.returnType == Some(Resolution(ret))
  {
    var ds, rs := Descs(params), Resolutions(params);
    PlainAllReadAs(params, corrected);
    PlainReadsAs(ret, corrected);
    JoinDescsConcat(params);
    ScanOfDescs(ds, rs, ClassUtils.GetDesc(ret), Resolution(ret), ParamTypes, corrected);
    ScanOfDescs(ds, rs, ClassUtils.GetDesc(ret), Resolution(ret), ReturnType, corrected);
  }

  // Properties of the scan

  /** The scan of a longer string agrees with the scan of its prefix on the
    * prefix's indices: one step reads nothing beyond index `i`. */
  lemma StepOfPrefix(desc: string, t: string, i: nat, st: ScanState, mode: Mode, corrected: bool)
    requires i < |desc| && Below(st, i)
    ensures Step(desc + t, i, st, mode, corrected) == Step(desc, i, st, mode, corrected)
  {
    var ext := desc + t;
    assert ext[i] == desc[i];
    if desc[i] == ';' || (desc[i] != '[' && desc[i] != 'L' && desc[i] != ')') {
      SlicesOfPrefix(desc, t, i, st);
    }
  }

  /** The slices a step may take end at `i`, so the extension does not change them. */
  lemma SlicesOfPrefix(desc: string, t: string, i: nat, st: ScanState)
    requires i < |desc| && Below(st, i)
    ensures st.arrayDescHeader.Some? ==> (desc + t)[st.arrayDescHeader.value..i + 1] == desc[st.arrayDescHeader.value..i + 1]
    ensures st.refTypeHeader.Some? ==> (desc + t)[st.refTypeHeader.value..i + 1] == desc[st.refTypeHeader.value..i + 1]
    ensures st.refTypeHeader.Some? ==> (desc + t)[st.refTypeHeader.value + 1..i] == desc[st.refTypeHeader.value + 1..i]
  {
  }

  lemma {:induction false} ScanOfExtension(desc: string, t: string, i: nat, st: ScanState, mode: Mode, corrected: bool)
    requires i <= |desc| && Below(st, i) && |t| > 0
    requires ScanFrom(desc, i, st, mode, corrected).Ok?
    requires ScanFrom(desc, i, st, mode, corrected).value.returnType.Some?
    ensures ScanFrom(desc + t, i, st, mode, corrected) == Err(InvalidDescriptor)
    decreases |desc| - i
  {
    if i < |desc| {
      StepOfPrefix(desc, t, i, st, mode, corrected);
      var next := Step(desc, i, st, mode, corrected).value;
      ScanOfExtension(desc, t, i + 1, next, mode, corrected);
    }
  }

  /** Once the return type is read the descriptor must end: any further
    * character makes it invalid. */
  lemma TrailingRejected(desc: string, t: string, mode: Mode, corrected: bool)
    requires Scan(desc, mode, corrected).Ok? && |t| > 0
    ensures Scan(desc + t, mode, corrected) == Err(InvalidDescriptor)
  {
    ScanOfExtension(desc, t, 1, Start, mode, corrected);
    assert (desc + t)[0] == desc[0];
    assert !StringUtils.IsWhitespace((desc + t)[0]);
  }

  /** The number of ')' characters in `s`. */
  function Closes(s: string): nat {
    if |s| == 0 then 0 else (if s[0] == ')' then 1 else 0) + Closes(s[1..])
  }

  /** A return type is only ever stored after ')'. */
  predicate HeaderFirst(st: ScanState) {
    st.returnType.Some? ==> st.returnTypeHeader.Some?
  }

  /** Only ')' sets the return type header, and only once. */
  lemma StepHeaders(desc: string, i: nat, st: ScanState, mode: Mode, corrected: bool)
    requires i < |desc| && Below(st, i) && HeaderFirst(st)
    requires Step(desc, i, st, mode, corrected).Ok?
    ensures HeaderFirst(Step(desc, i, st, mode, corrected).value)
    ensures desc[i] == ')' ==> st.returnTypeHeader.None? && Step(desc, i, st, mode, corrected).value.returnTypeHeader.Some?
    ensures desc[i] != ')' ==> Step(desc, i, st, mode, corrected).value.returnTypeHeader == st.returnTypeHeader
  {
  }

  lemma {:induction false} ScanCloses(desc: string, i: nat, st: ScanState, mode: Mode, corrected: bool)
    requires i <= |desc| && Below(st, i) && HeaderFirst(st)
    requires ScanFrom(desc, i, st, mode, corrected).Ok?
    requires ScanFrom(desc, i, st, mode, corrected).value.returnType.Some?
    ensures Closes(desc[i..]) == if st.returnTypeHeader.Some? then 0 else 1
    decreases |desc| - i
  {
    if i < |desc| {
      StepHeaders(desc, i, st, mode, corrected);
      var next := Step(desc, i, st, mode, corrected).value;
      ScanCloses(desc, i + 1, next, mode, corrected);
      assert desc[i..][1..] == desc[i + 1..];
    }
  }

  /** An accepted descriptor holds exactly one ')': a second one is rejected,
    * and without one no return type is read. */
  lemma OneClose(desc: string, mode: Mode, corrected: bool)
    requires Scan(desc, mode, corrected).Ok?
    ensures Closes(desc) == 1
  {
    ScanCloses(desc, 1, Start, mode, corrected);
    assert desc[1..] == desc[1..];
  }

  /** The two scans run in step: their states differ only in the parameter list,
    * which getReturnType never fills. */
  predicate InStep(stP: ScanState, stR: ScanState) {
    stR == stP.(paramTypes := stR.paramTypes)
  }

  lemma RecordInStep(stP: ScanState, stR: ScanState, typeDesc: string, footer: nat)
    requires InStep(stP, stR)
    requires Record(stP, typeDesc, ParamTypes, footer).Ok?
    ensures Record(stR, typeDesc, ReturnType, footer).Ok?
    ensures InStep(Record(stP, typeDesc, ParamTypes, footer).value, Record(stR, typeDesc, ReturnType, footer).value)
  {
  }

  lemma StepInStep(desc: string, i: nat, stP: ScanState, stR: ScanState, corrected: bool)
    requires i < |desc| && Below(stP, i) && InStep(stP, stR)
    requires Step(desc, i, stP, ParamTypes, corrected).Ok?
    ensures Below(stR, i)
    ensures Step(desc, i, stR, ReturnType, corrected).Ok?
    ensures InStep(Step(desc, i, stP, ParamTypes, corrected).value, Step(desc, i, stR, ReturnType, corrected).value)
  {
    var c := desc[i];
    if c == ';' || (c !in {'[', 'L', ')'} && stP.refTypeHeader.None?) {
      var typeDesc :=
        if c == ';' then
          if stP.arrayDescHeader.Some? then desc[stP.arrayDescHeader.value..i + 1]
          else if corrected then desc[stP.refTypeHeader.value..i + 1]
          else desc[stP.refTypeHeader.value + 1..i]
        else if stP.arrayDescHeader.Some? then desc[stP.arrayDescHeader.value..i + 1] else [c];
      RecordInStep(stP, stR, typeDesc, i);
    }
  }

  lemma {:induction false} ScanInStep(desc: string, i: nat, stP: ScanState, stR: ScanState, corrected: bool)
    requires i <= |desc| && Below(stP, i) && Below(stR, i) && InStep(stP, stR)
    requires ScanFrom(desc, i, stP, ParamTypes, corrected).Ok?
    ensures ScanFrom(desc, i, stR, ReturnType, corrected).Ok?
    ensures InStep(ScanFrom(desc, i, stP, ParamTypes, corrected).value, ScanFrom(desc, i, stR, ReturnType, corrected).value)
    decreases |desc| - i
  {
    if i < |desc| {
      StepInStep(desc, i, stP, stR, corrected);
      ScanInStep(desc, i + 1, Step(desc, i, stP, ParamTypes, corrected).value,
        Step(desc, i, stR, ReturnType, corrected).value, corrected);
    }
  }

  /** Every descriptor getParamTypes accepts, getReturnType accepts too, and
    * both read the same return type. */
  lemma ParamsImplyReturn(desc: string, corrected: bool)
    requires Scan(desc, ParamTypes, corrected).Ok?
    ensures Scan(desc, ReturnType, corrected).Ok?
    ensures Scan(desc, ReturnType, corrected).value.returnType == Scan(desc, ParamTypes, corrected).value.returnType
  {
    ScanInStep(desc, 1, Start, Start, corrected);
  }

  /** The converse fails: getParamTypes hands the empty class name of "L;" to
    * forDesc, which rejects it as blank, while getReturnType skips parameters. */
  lemma EmptyNameOnlyInParams()
    ensures ParamTypesOf("(L;)V") == Err(Class(ClassUtils.InvalidArgument))
    ensures ReturnTypeOf("(L;)V") == Ok(ClassUtils.PrimitiveClass(ClassUtils.Void))
  {
    var desc := "(L;)V";
    var st1 := Start.(refTypeHeader := Some(1));
    assert !StringUtils.IsWhitespace(desc[0]);
    assert desc[2..2] == "";
    assert Step(desc, 1, Start, ParamTypes, false) == Ok(st1);
    assert Step(desc, 2, st1, ParamTypes, false) == Err(Class(ClassUtils.InvalidArgument));
    assert Step(desc, 1, Start, ReturnType, false) == Ok(st1);
    var st2 := Start.(lastParamTypeFooter := Some(2));
    assert Step(desc, 2, st1, ReturnType, false) == Ok(st2);
    var st3 := st2.(returnTypeHeader := Some(4));
    assert Step(desc, 3, st2, ReturnType, false) == Ok(st3);
    VoidForDesc();
    assert Step(desc, 4, st3, ReturnType, false).Ok?;
  }

  /** '[' prefixes must be contiguous and may not appear inside a class name. */
  lemma ArrayPrefixInsideName(mode: Mode, corrected: bool)
    ensures Scan("([L[;)V", mode, corrected) == Err(InvalidDescriptor)
  {
    var desc := "([L[;)V";
    var st1 := Start.(arrayDescHeader := Some(1), arrayDescFooter := Some(1));
    assert Step(desc, 1, Start, mode, corrected) == Ok(st1);
    var st2 := st1.(refTypeHeader := Some(2));
    assert Step(desc, 2, st1, mode, corrected) == Ok(st2);
    assert Step(desc, 3, st2, mode, corrected) == Err(InvalidDescriptor);
    assert !StringUtils.IsWhitespace(desc[0]);
  }

  // Concrete descriptors

  /** A no-argument method returning a reference type: the scan rejects the 'L'
    * right after ')', since no parameter ended before it. */
  lemma ObjectReturnScan(mode: Mode)
    ensures ScanFrom("()Ljava.lang.Object;", 1, Start, mode, false) == Err(InvalidDescriptor)
  {
    var desc := "()Ljava.lang.Object;";
    var st1 := Start.(returnTypeHeader := Some(2));
    assert Step(desc, 1, Start, mode, false) == Ok(st1);
    assert Step(desc, 2, st1, mode, false) == Err(InvalidDescriptor);
  }

  lemma ObjectReturnRejected()
    ensures ReturnTypeOf("()Ljava.lang.Object;") == Err(InvalidDescriptor)
    ensures ParamTypesOf("()Ljava.lang.Object;") == Err(InvalidDescriptor)
  {
    var desc := "()Ljava.lang.Object;";
    ObjectReturnScan(ParamTypes);
    ObjectReturnScan(ReturnType);
    assert !StringUtils.IsWhitespace(desc[0]);
  }

  /** The corrected scan reads the same descriptor as java.lang.Object. */
  lemma ObjectReturnCorrected()
    ensures ReturnTypeCorrected("()Ljava.lang.Object;") == Ok(ClassUtils.Load("java.lang.Object"))
  {
    var ret := ClassUtils.JClass("java.lang.Object", false);
    ObjectPlain();
    ObjectDesc();
    CorrectedRoundTrip([], ret);
  }

  /** The descriptor of a no-argument method returning java.lang.Object. */
  lemma ObjectDesc()
    ensures GetDesc([], ClassUtils.JClass("java.lang.Object", false)) == "()Ljava.lang.Object;"
  {
  }

  /** java.lang.Object is a reference class the corrected scan can delimit. */
  lemma ObjectPlain()
    ensures Plain(ClassUtils.JClass("java.lang.Object", false))
    ensures Resolution(ClassUtils.JClass("java.lang.Object", false)) == ClassUtils.Load("java.lang.Object")
  {
  }

  /** forDesc("Lexer") strips the first and last character, as for "L...;". */
  lemma LexerForDesc()
    ensures ClassUtils.ForDesc("Lexer") == Ok(ClassUtils.Load("exe"))
  {
    assert !StringUtils.IsWhitespace("Lexer"[0]);
    assert ClassUtils.PrimOfDesc("Lexer").None? by { assert |"Lexer"| == 5; }
    assert "Lexer"[1..4] == "exe";
  }

  /** forDesc("V") is the void class. */
  lemma VoidForDesc()
    ensures ClassUtils.ForDesc("V") == Ok(ClassUtils.PrimitiveClass(ClassUtils.Void))
  {
    assert !StringUtils.IsWhitespace("V"[0]);
    assert "V" in ClassUtils.PRIMITIVE_TYPE_DESC_SET;
    assert ClassUtils.IsPrimitiveDesc("V") == Ok(true);
  }

  /** A parameter class whose name starts with 'L': the scan hands forDesc the
    * bare name, which forDesc reads as a descriptor and strips once more. */
  lemma LeadingLNameScan()
    ensures ScanFrom("(LLexer;)V", 1, Start, ParamTypes, false)
      == Ok(ScanState(None, None, None, Some(9), Some(9), [ClassUtils.Load("exe")], Some(ClassUtils.PrimitiveClass(ClassUtils.Void))))
  {
    var desc := "(LLexer;)V";
    var st1 := Start.(refTypeHeader := Some(1));
    assert Step(desc, 1, Start, ParamTypes, false) == Ok(st1);
    SkipName(desc, 2, 7, st1, ParamTypes, false);
    assert desc[2..7] == "Lexer";
    LexerForDesc();
    var st7 := Start.(lastParamTypeFooter := Some(7), paramTypes := [ClassUtils.Load("exe")]);
    assert desc[7] == ';';
    assert [] + [ClassUtils.Load("exe")] == [ClassUtils.Load("exe")];
    assert Record(st1, "Lexer", ParamTypes, 7) == Ok(st7.(refTypeHeader := Some(1)));
    assert Step(desc, 7, st1, ParamTypes, false) == Ok(st7);
    var st8 := st7.(returnTypeHeader := Some(9));
    assert Step(desc, 8, st7, ParamTypes, false) == Ok(st8);
    VoidForDesc();
    assert Step(desc, 9, st8, ParamTypes, false).Ok?;
  }

  lemma LeadingLNameMangled()
    ensures ParamTypesOf("(LLexer;)V") == Ok([ClassUtils.Load("exe")])
  {
    LeadingLNameScan();
    assert !StringUtils.IsWhitespace("(LLexer;)V"[0]);
  }

  /** The corrected scan resolves the class Lexer. */
  lemma LeadingLNameCorrected()
    ensures ParamTypesCorrected("(LLexer;)V") == Ok([ClassUtils.Load("Lexer")])
  {
    var p := ClassUtils.JClass("Lexer", false);
    var ret := ClassUtils.JClass("void", false);
    assert ClassUtils.PrimOfName("Lexer").None?;
    assert ClassUtils.GetDesc(ret) == "V";
    assert JoinDescs([p]) == "LLexer;" + JoinDescs([]);
    assert GetDesc([p], ret) == "(LLexer;)V";
    assert Resolution(p) == ClassUtils.Load("Lexer");
    assert Resolutions([p]) == [ClassUtils.Load("Lexer")];
    CorrectedRoundTrip([p], ret);
  }
}
