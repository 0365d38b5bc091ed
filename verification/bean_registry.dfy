/**
 * StdBeanDefinitionRegistry: bean definitions indexed by bean name and by
 * class name. The first definition of a name is stored; a later, unequal one
 * replaces it only when the override policy agrees. The class-name index is
 * a LinkedHashSet per class that only ever grows.
 */
module BeanRegistries {
  import opened Wrappers
  import opened LinkedMaps

  /** StdBeanDefinition: equals compares every field, `lazy` included; the
    * constructor and the lifecycle callbacks are compared by identity, so
    * they are given here by name. */
  datatype BeanDefinition = BeanDefinition(
    name: string,
    className: string,
    scope: string,
    lazy: bool,
    beanConstructor: string,
    initializer: Option<string>,
    destroyer: Option<string>)

  /** OverridePolicy.shouldOverride(old, new) */
  type OverridePolicy = (BeanDefinition, BeanDefinition) -> bool

  datatype RegistryError = InvalidDefinition  // AssertUtils.notNull on the argument

  /** The two indexes: byName and byClassName. */
  datatype Registry = Registry(
    byName: LinkedMap<string, BeanDefinition>,
    byClassName: LinkedMap<string, seq<BeanDefinition>>)
  {
    /** Both maps well formed, each class-name set a linked set of
      * definitions of that class, and every definition stored by name sits
      * under its own name and in its class's set. */
    ghost predicate Valid() {
      && byName.Valid() && LinkedSets(byClassName)
      && (forall c :: c in byClassName.entries ==>
            forall x :: x in byClassName.entries[c] ==> x.className == c)
      && (forall n :: n in byName.entries ==>
            byName.entries[n].name == n
            && byName.entries[n].className in byClassName.entries
            && byName.entries[n] in byClassName.entries[byName.entries[n].className])
    }
  }

  function EmptyRegistry(): (r: Registry)
    ensures r.Valid() && r.byName.keys == [] && r.byClassName.keys == []
  {
    Registry(EmptyMap(), EmptyMap())
  }

  /** Every class-name set is a linked set. */
  ghost predicate LinkedSets(m: LinkedMap<string, seq<BeanDefinition>>) {
    m.Valid() && forall c :: c in m.entries ==> Distinct(m.entries[c])
  }

  /** putByClassName: add to the class's linked set, creating it if absent. */
  function PutByClassName(m: LinkedMap<string, seq<BeanDefinition>>, className: string, d: BeanDefinition): (r: LinkedMap<string, seq<BeanDefinition>>)
    requires LinkedSets(m)
    ensures LinkedSets(r)
  {
    if className in m.entries then m.Put(className, AddLast(m.entries[className], d))
    else m.Put(className, [d])
  }

  /** putByClassName adds `d` to its class's set and nothing else: every
    * other set is left as it was, and no set loses a definition. */
  lemma PutByClassNameAdds(m: LinkedMap<string, seq<BeanDefinition>>, className: string, d: BeanDefinition)
    requires LinkedSets(m)
    ensures var r := PutByClassName(m, className, d);
      && className in r.entries && d in r.entries[className]
      && (forall c :: c in m.entries ==> c in r.entries && forall x :: x in m.entries[c] ==> x in r.entries[c])
      && (forall c :: c in r.entries && c != className ==> c in m.entries && r.entries[c] == m.entries[c])
      && (forall x :: x in r.entries[className] ==> x == d || (className in m.entries && x in m.entries[className]))
  {
  }

  /** Storing a definition under its name and in its class's set keeps the
    * indexes consistent. */
  lemma StoreKeepsValid(s: Registry, def: BeanDefinition)
    requires s.Valid()
    ensures Registry(s.byName.Put(def.name, def), PutByClassName(s.byClassName, def.className, def)).Valid()
  {
    var names := s.byName.Put(def.name, def);
    var classes := PutByClassName(s.byClassName, def.className, def);
    PutByClassNameAdds(s.byClassName, def.className, def);
    forall c | c in classes.entries
      ensures forall x :: x in classes.entries[c] ==> x.className == c
    {
      if c != def.className {
        assert classes.entries[c] == s.byClassName.entries[c];
      }
    }
    forall n | n in names.entries
      ensures names.entries[n].name == n
      ensures names.entries[n].className in classes.entries
      ensures names.entries[n] in classes.entries[names.entries[n].className]
    {
      if n != def.name {
        var e := s.byName.entries[n];
        assert names.entries[n] == e;
        assert e.className in s.byClassName.entries && e in s.byClassName.entries[e.className];
      }
    }
  }

  /** doRegisterBeanDefinition on the indexes as a value. */
  function Register(s: Registry, policy: OverridePolicy, d: Option<BeanDefinition>): (r: Registry)
    requires s.Valid()
    ensures r.Valid()
  {
    if d.None? then s
    else
      var def := d.value;
      var previous := s.byName.Get(def.name);
      if previous.Some? && (previous.value == def || !policy(previous.value, def)) then s
      else
        StoreKeepsValid(s, def);
        Registry(s.byName.Put(def.name, def), PutByClassName(s.byClassName, def.className, def))
  }

  /** A null definition changes nothing; the first definition of a name is
    * stored under the name (the name going last) and in its class's set; a
    * later one takes the name only when it differs and the policy agrees,
    * and otherwise nothing changes. */
  lemma RegisterRule(s: Registry, policy: OverridePolicy, d: Option<BeanDefinition>)
    requires s.Valid()
    ensures d.None? ==> Register(s, policy, d) == s
    ensures d.Some? && d.value.name !in s.byName.entries ==>
      var r := Register(s, policy, d);
      && r.byName.keys == s.byName.keys + [d.value.name]
      && r.byName.entries == s.byName.entries[d.value.name := d.value]
      && d.value.className in r.byClassName.entries && d.value in r.byClassName.entries[d.value.className]
    ensures d.Some? && d.value.name in s.byName.entries ==>
      var previous := s.byName.entries[d.value.name];
      var r := Register(s, policy, d);
      && r.byName.keys == s.byName.keys
      && (r != s <==> previous != d.value && policy(previous, d.value))
      && r.byName.entries[d.value.name] == (if previous != d.value && policy(previous, d.value) then d.value else previous)
  {
    if d.Some? {
      PutByClassNameAdds(s.byClassName, d.value.className, d.value);
    }
    if d.Some? && d.value.name in s.byName.entries {
      var previous := s.byName.entries[d.value.name];
      if previous != d.value && policy(previous, d.value) {
        assert Register(s, policy, d).byName.entries[d.value.name] != previous;
      }
    }
  }

  /** Registration only adds to the class-name sets: a replaced definition
    * stays listed under its class, and no class loses a definition. */
  lemma ClassSetsOnlyGrow(s: Registry, policy: OverridePolicy, d: Option<BeanDefinition>)
    requires s.Valid()
    ensures forall c :: c in s.byClassName.entries ==>
      c in Register(s, policy, d).byClassName.entries
      && forall x :: x in s.byClassName.entries[c] ==> x in Register(s, policy, d).byClassName.entries[c]
  {
    if d.Some? {
      PutByClassNameAdds(s.byClassName, d.value.className, d.value);
    }
  }

  /** An overridden definition remains reachable by class name. */
  lemma OverriddenStaysByClass(s: Registry, policy: OverridePolicy, d: BeanDefinition)
    requires s.Valid() && d.name in s.byName.entries
    ensures var old_ := s.byName.entries[d.name];
      var r := Register(s, policy, Some(d));
      old_.className in r.byClassName.entries && old_ in r.byClassName.entries[old_.className]
  {
    ClassSetsOnlyGrow(s, policy, Some(d));
  }

  /** registerBeanDefinitions: the single rule applied to each in order. */
  function RegisterAll(s: Registry, policy: OverridePolicy, ds: seq<Option<BeanDefinition>>): (r: Registry)
    requires s.Valid()
    ensures r.Valid()
    decreases |ds|
  {
    if |ds| == 0 then s else Register(RegisterAll(s, policy, ds[..|ds| - 1]), policy, ds[|ds| - 1])
  }

  /** No definition of the list is named `n`. */
  predicate Unmentioned(ds: seq<Option<BeanDefinition>>, n: string) {
    forall k :: 0 <= k < |ds| && ds[k].Some? ==> ds[k].value.name != n
  }

  /** After registering a list, every name it mentions is defined, and a name
    * it does not mention keeps its definition. */
  lemma {:induction false} RegisterAllDefines(s: Registry, policy: OverridePolicy, ds: seq<Option<BeanDefinition>>)
    requires s.Valid()
    ensures forall k :: 0 <= k < |ds| && ds[k].Some? ==> ds[k].value.name in RegisterAll(s, policy, ds).byName.entries
    ensures forall n :: n in s.byName.entries && Unmentioned(ds, n) ==>
      n in RegisterAll(s, policy, ds).byName.entries && RegisterAll(s, policy, ds).byName.entries[n] == s.byName.entries[n]
    decreases |ds|
  {
    if |ds| > 0 {
      var init := ds[..|ds| - 1];
      RegisterAllDefines(s, policy, init);
      forall k | 0 <= k < |init| ensures init[k] == ds[k] {
      }
    }
  }

  class StdBeanDefinitionRegistry {
    var overridePolicy: OverridePolicy
    var byName: LinkedMap<string, BeanDefinition>
    var byClassName: LinkedMap<string, seq<BeanDefinition>>

    /** The two indexes as one value. */
    function Tables(): Registry
      reads this
    {
      Registry(byName, byClassName)
    }

    ghost predicate Valid()
      reads this
    {
      Tables().Valid()
    }

    /** A new registry; OverridePolicy.DEFAULT is given as `policy`. */
    constructor(policy: OverridePolicy)
      ensures Valid() && Tables() == EmptyRegistry() && overridePolicy == policy
    {
      overridePolicy := policy;
      byName := EmptyMap();
      byClassName := EmptyMap();
    }

    method SetOverridePolicy(policy: OverridePolicy)
      modifies this
      ensures overridePolicy == policy && Tables() == old(Tables())
    {
      overridePolicy := policy;
    }

    /** doRegisterBeanDefinition, on the fields. */
    method DoRegisterBeanDefinition(d: Option<BeanDefinition>)
      requires Valid()
      modifies this
      ensures Valid() && overridePolicy == old(overridePolicy)
      ensures Tables() == Register(old(Tables()), overridePolicy, d)
    {
      var next := Register(Tables(), overridePolicy, d);
      byName := next.byName;
      byClassName := next.byClassName;
    }

    /** registerBeanDefinition: a null argument is refused. */
    method RegisterBeanDefinition(d: Option<BeanDefinition>) returns (r: Result<(), RegistryError>)
      requires Valid()
      modifies this
      ensures Valid() && overridePolicy == old(overridePolicy)
      ensures r.Err? <==> d.None?
      ensures Tables() == if r.Ok? then Register(old(Tables()), overridePolicy, d) else old(Tables())
    {
      if d.None? {
        return Err(InvalidDefinition);
      }
      DoRegisterBeanDefinition(d);
      return Ok(());
    }

    /** registerBeanDefinitions: nothing for an empty collection; otherwise
      * each element, null ones included, goes through the single rule. */
    method RegisterBeanDefinitions(ds: seq<Option<BeanDefinition>>)
      requires Valid()
      modifies this
      ensures Valid() && overridePolicy == old(overridePolicy)
      ensures Tables() == RegisterAll(old(Tables()), overridePolicy, ds)
    {
      if |ds| == 0 {
        return;
      }
      for i := 0 to |ds|
        invariant Valid() && overridePolicy == old(overridePolicy)
        invariant Tables() == RegisterAll(old(Tables()), overridePolicy, ds[..i])
      {
        assert ds[..i + 1][..i] == ds[..i];
        DoRegisterBeanDefinition(ds[i]);
      }
      assert ds[..|ds|] == ds;
    }

    /** getBeanDefinitionByName: a found definition carries that name and is
      * also listed under its class name. */
    function GetBeanDefinitionByName(name: string): (r: Option<BeanDefinition>)
      requires Valid()
      reads this
      ensures r.Some? <==> name in byName.entries
      ensures r.Some? ==> r.value.name == name && r.value in GetBeanDefinitionByClassName(r.value.className)
    {
      byName.Get(name)
    }

    /** getBeanDefinitionByClassName: the class's linked set as a list; an
      * unknown class gives the empty list. */
    function GetBeanDefinitionByClassName(className: string): (r: seq<BeanDefinition>)
      requires Valid()
      reads this
      ensures className !in byClassName.entries ==> r == []
      ensures Distinct(r) && forall x :: x in r ==> x.className == className
    {
      if className in byClassName.entries then byClassName.entries[className] else []
    }
  }
}
