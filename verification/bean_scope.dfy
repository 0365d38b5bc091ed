/**
 * StdSingletonBeanScope: the singleton bean store of the context. A bean
 * is registered early (still being built) or final; a name once final
 * cannot be registered again, and making a bean final drops its early entry.
 * Lookups by name prefer the final map; lookups by type scan the final map
 * before the early one, each in insertion order.
 */
module BeanScopes {
  import opened Wrappers
  import opened LinkedMaps
  import StringUtils

  /** A bean object: its runtime class and its identity (what equals compares). */
  datatype BeanObject = BeanObject(className: string, identity: nat)

  /** A Class<T> argument: the runtime classes it is assignable from. */
  datatype BeanType = BeanType(assignableFrom: set<string>)

  /** type.isAssignableFrom(object.getClass()) */
  predicate IsInstance(t: BeanType, o: BeanObject) {
    o.className in t.assignableFrom
  }

  datatype ScopeError =
    | InvalidName    // AssertUtils.notNullOrBlank: a blank bean name
    | DuplicateName  // checkName: the name is already a final bean

  /** The first object of `vs` that is an instance of `t`. */
  function FirstInstance(vs: seq<BeanObject>, t: BeanType): Option<BeanObject> {
    if |vs| == 0 then None
    else if IsInstance(t, vs[0]) then Some(vs[0])
    else FirstInstance(vs[1..], t)
  }

  /** The search finds an instance exactly when there is one, and then the
    * one that comes first. */
  lemma {:induction false} FirstInstanceFinds(vs: seq<BeanObject>, t: BeanType)
    ensures FirstInstance(vs, t).None? <==> forall k :: 0 <= k < |vs| ==> !IsInstance(t, vs[k])
    ensures FirstInstance(vs, t).Some? ==>
      exists k :: 0 <= k < |vs| && vs[k] == FirstInstance(vs, t).value && IsInstance(t, vs[k])
        && forall j :: 0 <= j < k ==> !IsInstance(t, vs[j])
    decreases |vs|
  {
    if |vs| > 0 && !IsInstance(t, vs[0]) {
      FirstInstanceFinds(vs[1..], t);
      if FirstInstance(vs, t).Some? {
        var k :| 0 <= k < |vs[1..]| && vs[1..][k] == FirstInstance(vs, t).value && IsInstance(t, vs[1..][k])
          && forall j :: 0 <= j < k ==> !IsInstance(t, vs[1..][j]);
        assert vs[k + 1] == vs[1..][k];
        forall j | 0 <= j < k + 1 ensures !IsInstance(t, vs[j]) {
          if j > 0 {
            assert vs[j] == vs[1..][j - 1];
          }
        }
      } else {
        forall k | 0 <= k < |vs| ensures !IsInstance(t, vs[k]) {
          if k > 0 {
            assert vs[k] == vs[1..][k - 1];
          }
        }
      }
    }
  }

  /** A search over `a + b` settles in `a` when `a` has an instance. */
  lemma {:induction false} FirstInstancePrefers(a: seq<BeanObject>, b: seq<BeanObject>, t: BeanType)
    ensures FirstInstance(a, t).Some? ==> FirstInstance(a + b, t) == FirstInstance(a, t)
    ensures FirstInstance(a, t).None? ==> FirstInstance(a + b, t) == FirstInstance(b, t)
    decreases |a|
  {
    if |a| > 0 {
      assert (a + b)[0] == a[0] && (a + b)[1..] == a[1..] + b;
      FirstInstancePrefers(a[1..], b, t);
    } else {
      assert a + b == b;
    }
  }

  /** LinkedHashSet.add of every instance of `t` in `vs`, in order, to `acc`;
    * the set never holds an object twice. */
  function Collect(acc: seq<BeanObject>, vs: seq<BeanObject>, t: BeanType): (r: seq<BeanObject>)
    requires Distinct(acc)
    ensures Distinct(r)
    decreases |vs|
  {
    if |vs| == 0 then acc
    else
      var before := Collect(acc, vs[..|vs| - 1], t);
      if IsInstance(t, vs[|vs| - 1]) then AddLast(before, vs[|vs| - 1]) else before
  }

  /** The collection keeps what it started with in
    * front, and adds exactly the instances of `t` from `vs`. */
  lemma {:induction false} CollectSpec(acc: seq<BeanObject>, vs: seq<BeanObject>, t: BeanType)
    requires Distinct(acc)
    ensures |acc| <= |Collect(acc, vs, t)| && Collect(acc, vs, t)[..|acc|] == acc
    ensures forall o :: o in Collect(acc, vs, t) <==> o in acc || (o in vs && IsInstance(t, o))
    decreases |vs|
  {
    if |vs| > 0 {
      var init := vs[..|vs| - 1];
      CollectSpec(acc, init, t);
      assert vs == init + [vs[|vs| - 1]];
    }
  }

  class StdSingletonBeanScope {
    var singletons: LinkedMap<string, BeanObject>
    var earlySingletons: LinkedMap<string, BeanObject>

    /** Both maps are well formed and no name is both early and final. */
    ghost predicate Valid()
      reads this
    {
      && singletons.Valid() && earlySingletons.Valid()
      && forall name :: name in singletons.entries ==> name !in earlySingletons.entries
    }

    constructor()
      ensures Valid() && singletons == EmptyMap() && earlySingletons == EmptyMap()
    {
      singletons := EmptyMap();
      earlySingletons := EmptyMap();
    }

    /** addEarlyBean: a blank name or a final name is refused; otherwise the
      * early entry is set. */
    method AddEarlyBean(name: string, bean: BeanObject) returns (r: Result<(), ScopeError>)
      requires Valid()
      modifies this
      ensures Valid()
      ensures r == Err(InvalidName) <==> StringUtils.AllWhitespace(name)
      ensures r == Err(DuplicateName) <==> !StringUtils.AllWhitespace(name) && name in old(singletons.entries)
      ensures singletons == old(singletons)
      ensures earlySingletons == if r.Ok? then old(earlySingletons).Put(name, bean) else old(earlySingletons)
      ensures r.Ok? ==> GetBeanByName(name) == Ok(Some(bean))
    {
      var blank := StringUtils.IsBlank(name);
      if blank {
        return Err(InvalidName);
      }
      if name in singletons.entries {
        return Err(DuplicateName);
      }
      earlySingletons := earlySingletons.Put(name, bean);
      return Ok(());
    }

    /** addBean: the same checks; the name then leaves the early map and the
      * object becomes final. */
    method AddBean(name: string, bean: BeanObject) returns (r: Result<(), ScopeError>)
      requires Valid()
      modifies this
      ensures Valid()
      ensures r == Err(InvalidName) <==> StringUtils.AllWhitespace(name)
      ensures r == Err(DuplicateName) <==> !StringUtils.AllWhitespace(name) && name in old(singletons.entries)
      ensures r.Ok? ==>
        singletons == old(singletons).Put(name, bean) && earlySingletons == old(earlySingletons).Remove(name)
      ensures r.Err? ==> singletons == old(singletons) && earlySingletons == old(earlySingletons)
      ensures r.Ok? ==> GetBeanByName(name) == Ok(Some(bean))
    {
      var blank := StringUtils.IsBlank(name);
      if blank {
        return Err(InvalidName);
      }
      if name in singletons.entries {
        return Err(DuplicateName);
      }
      earlySingletons := earlySingletons.Remove(name);
      singletons := singletons.Put(name, bean);
      return Ok(());
    }

    /** getBeanByName: the final bean under the name, else the early one. */
    function GetBeanByName(name: string): (r: Result<Option<BeanObject>, ScopeError>)
      requires Valid()
      reads this
      ensures r.Err? <==> StringUtils.AllWhitespace(name)
      ensures r.Ok? && name in singletons.entries ==> r.value == Some(singletons.entries[name])
      ensures r.Ok? && name !in singletons.entries ==> r.value == earlySingletons.Get(name)
      ensures r.Ok? ==> (r.value.None? <==> name !in singletons.entries && name !in earlySingletons.entries)
    {
      if StringUtils.AllWhitespace(name) then Err(InvalidName)
      else
        var found := singletons.Get(name);
        if found.None? then Ok(earlySingletons.Get(name)) else Ok(found)
    }

    /** getBean: the bean getBeanByName finds, when it is an instance of `t`. */
    function GetBean(name: string, t: BeanType): (r: Result<Option<BeanObject>, ScopeError>)
      requires Valid()
      reads this
      ensures r.Err? <==> StringUtils.AllWhitespace(name)
      ensures r.Ok? ==> (r.value.Some? <==> GetBeanByName(name).value.Some? && IsInstance(t, GetBeanByName(name).value.value))
      ensures r.Ok? && r.value.Some? ==> r.value == GetBeanByName(name).value
    {
      match GetBeanByName(name)
      case Err(e) => Err(e)
      case Ok(found) =>
        if found.None? || !IsInstance(t, found.value) then Ok(None) else Ok(found)
    }

    /** getBeanByType: the first instance of `t` among the final beans, else
      * among the early ones. */
    method GetBeanByType(t: BeanType) returns (r: Option<BeanObject>)
      requires Valid()
      ensures r == FirstInstance(singletons.Values() + earlySingletons.Values(), t)
    {
      FirstInstancePrefers(singletons.Values(), earlySingletons.Values(), t);
      r := FirstOf(singletons.Values(), t);
      if r.Some? {
        return;
      }
      r := FirstOf(earlySingletons.Values(), t);
    }

    /** getBeansByType: every instance of `t`, final ones first, each once. */
    method GetBeansByType(t: BeanType) returns (beans: seq<BeanObject>)
      requires Valid()
      ensures beans == Collect(Collect([], singletons.Values(), t), earlySingletons.Values(), t)
    {
      beans := CollectInto([], singletons.Values(), t);
      beans := CollectInto(beans, earlySingletons.Values(), t);
    }
  }

  /** One for-each loop of getBeanByType. */
  method FirstOf(vs: seq<BeanObject>, t: BeanType) returns (r: Option<BeanObject>)
    ensures r == FirstInstance(vs, t)
  {
    var i := 0;
    while i < |vs|
      invariant 0 <= i <= |vs|
      invariant FirstInstance(vs, t) == FirstInstance(vs[i..], t)
    {
      assert vs[i..][0] == vs[i] && vs[i..][1..] == vs[i + 1..];
      if IsInstance(t, vs[i]) {
        return Some(vs[i]);
      }
      i := i + 1;
    }
    return None;
  }

  /** One for-each loop of getBeansByType, adding to the linked set. */
  method CollectInto(acc: seq<BeanObject>, vs: seq<BeanObject>, t: BeanType) returns (r: seq<BeanObject>)
    requires Distinct(acc)
    ensures r == Collect(acc, vs, t)
  {
    r := acc;
    for i := 0 to |vs|
      invariant Distinct(r) && r == Collect(acc, vs[..i], t)
    {
      assert vs[..i + 1][..i] == vs[..i];
      if IsInstance(t, vs[i]) {
        r := AddLast(r, vs[i]);
      }
    }
    assert vs[..|vs|] == vs;
  }

  /** getBeansByType: the final instances come first, in the order of their
    * names, and every instance of either map is listed exactly once. */
  lemma BeansByTypeOrder(finals: seq<BeanObject>, earlies: seq<BeanObject>, t: BeanType)
    ensures var first := Collect([], finals, t);
      var all := Collect(first, earlies, t);
      && Distinct(all)
      && |first| <= |all| && all[..|first|] == first
      && (forall o :: o in first <==> o in finals && IsInstance(t, o))
      && (forall o :: o in all <==> (o in finals || o in earlies) && IsInstance(t, o))
  {
    CollectSpec([], finals, t);
    CollectSpec(Collect([], finals, t), earlies, t);
  }
}
