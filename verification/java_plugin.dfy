/**
 * JavaPlugin (Gradle convention plugin): the shadow ("hyper") configurations
 * that feed the native ones, the first-level dependency list, the
 * repository list written to the dependency descriptor, and the asset path
 * rewrite done while processing resources.
 */
module JavaPlugins {
  import opened Wrappers
  import opened LinkedMaps

  const COMPILE_CLASSPATH := "compileClasspath"
  const RUNTIME_CLASSPATH := "runtimeClasspath"
  const COMPILE_ONLY := "compileOnly"
  const IMPLEMENTATION := "implementation"
  const RUNTIME_ONLY := "runtimeOnly"
  const COMPILE_ONLY_API := "compileOnlyApi"
  const API := "api"
  const ASSETS_ROOT_DIR := "assets/"

  /** Character.isLowerCase, for ASCII letters. */
  predicate IsLowerCase(c: char) {
    'a' <= c <= 'z'
  }

  /** Char.uppercaseChar, for ASCII letters. */
  function UpperCase(c: char): (u: char)
    ensures IsLowerCase(c) ==> 'A' <= u <= 'Z' && u as int == c as int - 32
    ensures !IsLowerCase(c) ==> u == c
  {
    if IsLowerCase(c) then (c as int - 32) as char else c
  }

  /** getHyperConfigurationName: "hyper" and the name with its first letter
    * upper-cased. Indexing the first character fails on an empty name. */
  function HyperConfigurationName(originalName: string): (r: string)
    requires |originalName| > 0
    ensures |r| == |originalName| + 5 && r[..5] == "hyper"
    ensures r[5] == UpperCase(originalName[0]) && r[6..] == originalName[1..]
  {
    var first := originalName[0];
    if IsLowerCase(first) then "hyper" + [UpperCase(first)] + originalName[1..]
    else "hyper" + originalName
  }

  /** Two names share a shadow exactly when they differ at most in the case
    * of their first letter. */
  lemma HyperNameCollides(a: string, b: string)
    requires |a| > 0 && |b| > 0
    ensures HyperConfigurationName(a) == HyperConfigurationName(b)
        <==> UpperCase(a[0]) == UpperCase(b[0]) && a[1..] == b[1..]
  {
    var ha, hb := HyperConfigurationName(a), HyperConfigurationName(b);
    if UpperCase(a[0]) == UpperCase(b[0]) && a[1..] == b[1..] {
      assert |ha| == |hb|;
      forall k | 0 <= k < |ha| ensures ha[k] == hb[k] {
        if k < 5 {
          assert ha[k] == ha[..5][k] && hb[k] == hb[..5][k];
        } else if k > 5 {
          assert ha[k] == ha[6..][k - 6] && hb[k] == hb[6..][k - 6];
        }
      }
    }
  }

  const HYPER_COMPILE_CLASSPATH := HyperConfigurationName(COMPILE_CLASSPATH)
  const HYPER_RUNTIME_CLASSPATH := HyperConfigurationName(RUNTIME_CLASSPATH)
  const HYPER_COMPILE_ONLY := HyperConfigurationName(COMPILE_ONLY)
  const HYPER_IMPLEMENTATION := HyperConfigurationName(IMPLEMENTATION)
  const HYPER_RUNTIME_ONLY := HyperConfigurationName(RUNTIME_ONLY)
  const HYPER_COMPILE_ONLY_API := HyperConfigurationName(COMPILE_ONLY_API)
  const HYPER_API := HyperConfigurationName(API)

  /** The name of the compile classpath shadow. */
  lemma CompileClasspathShadowName()
    ensures HYPER_COMPILE_CLASSPATH == "hyperCompileClasspath"
  {
  }

  /** The name of the runtime classpath shadow. */
  lemma RuntimeClasspathShadowName()
    ensures HYPER_RUNTIME_CLASSPATH == "hyperRuntimeClasspath"
  {
  }

  /** The names of the compile-side shadows. */
  lemma CompileShadowNames()
    ensures HYPER_COMPILE_ONLY == "hyperCompileOnly" && HYPER_COMPILE_ONLY_API == "hyperCompileOnlyApi"
  {
  }

  /** The names of the runtime-side shadows. */
  lemma RuntimeShadowNames()
    ensures HYPER_IMPLEMENTATION == "hyperImplementation" && HYPER_RUNTIME_ONLY == "hyperRuntimeOnly"
    ensures HYPER_API == "hyperApi"
  {
  }

  datatype ConfigurationError =
    | UnknownConfiguration(name: string)    // getByName: no such configuration
    | DuplicateConfiguration(name: string)  // create: the name is taken

  /** The configurations of a project: each name with the names it extends
    * from (Configuration.extendsFrom adds to that set). */
  type Configurations = map<string, set<string>>

  /** One createHyperConfiguration call: the native to shadow and the
    * configurations that also extend from the shadow. */
  datatype Shadowing = Shadowing(original: string, subConfigs: seq<string>)

  /** The calls of createHyperConfigurations, in order: the two classpath
    * shadows, then each other native feeding the classpath shadow of its side. */
  const STEPS: seq<Shadowing> := [
    Shadowing(COMPILE_CLASSPATH, []),
    Shadowing(RUNTIME_CLASSPATH, []),
    Shadowing(COMPILE_ONLY, [HYPER_COMPILE_CLASSPATH]),
    Shadowing(IMPLEMENTATION, [HYPER_RUNTIME_CLASSPATH]),
    Shadowing(RUNTIME_ONLY, [HYPER_RUNTIME_CLASSPATH]),
    Shadowing(COMPILE_ONLY_API, [HYPER_COMPILE_CLASSPATH]),
    Shadowing(API, [HYPER_RUNTIME_CLASSPATH])]

  predicate Named(steps: seq<Shadowing>) {
    forall k :: 0 <= k < |steps| ==> |steps[k].original| > 0
  }

  function ShadowOf(s: Shadowing): string
    requires |s.original| > 0
  {
    HyperConfigurationName(s.original)
  }

  /** createHyperConfiguration on the configurations `g`: the native must
    * exist and its shadow must not; the shadow is created empty and the
    * native and each sub-configuration extend from it. */
  function Step(g: Configurations, s: Shadowing): (r: Result<Configurations, ConfigurationError>)
    requires |s.original| > 0
    ensures r.Ok? <==> s.original in g && ShadowOf(s) !in g
    ensures s.original !in g ==> r == Err(UnknownConfiguration(s.original))
    ensures s.original in g && ShadowOf(s) in g ==> r == Err(DuplicateConfiguration(ShadowOf(s)))
    ensures r.Ok? ==> r.value.Keys == g.Keys + {ShadowOf(s)}
  {
    if s.original !in g then Err(UnknownConfiguration(s.original))
    else
      var name := ShadowOf(s);
      if name in g then Err(DuplicateConfiguration(name))
      else Ok(AddEdges(g[name := {}], [s.original] + s.subConfigs, name))
  }

  /** A successful call whose sub-configurations exist leaves the new shadow
    * empty and adds it to the native and to each sub-configuration, and to
    * nothing else. */
  lemma StepValue(g: Configurations, s: Shadowing)
    requires |s.original| > 0 && Step(g, s).Ok?
    requires forall c :: c in s.subConfigs ==> c in g
    ensures Step(g, s).value[ShadowOf(s)] == {}
    ensures forall c :: c in g ==>
      Step(g, s).value[c] == g[c] + (if c == s.original || c in s.subConfigs then {ShadowOf(s)} else {})
  {
    var name := ShadowOf(s);
    AddEdgesSpec(g[name := {}], [s.original] + s.subConfigs, name);
    assert name !in [s.original] + s.subConfigs;
  }

  /** Configuration.extendsFrom(shadow) on each configuration of `cs` that
    * exists, in order. */
  function AddEdges(g: Configurations, cs: seq<string>, shadow: string): (r: Configurations)
    ensures r.Keys == g.Keys
    decreases |cs|
  {
    if |cs| == 0 then g
    else
      var before := AddEdges(g, cs[..|cs| - 1], shadow);
      var c := cs[|cs| - 1];
      if c in before then before[c := before[c] + {shadow}] else before
  }

  /** Each configuration of `cs` gains the shadow; the others keep their set. */
  lemma {:induction false} AddEdgesSpec(g: Configurations, cs: seq<string>, shadow: string)
    ensures forall c :: c in g ==> AddEdges(g, cs, shadow)[c] == g[c] + (if c in cs then {shadow} else {})
    decreases |cs|
  {
    if |cs| > 0 {
      AddEdgesSpec(g, cs[..|cs| - 1], shadow);
      assert forall x :: x in cs <==> x in cs[..|cs| - 1] || x == cs[|cs| - 1];
    }
  }

  /** The calls in order; the first that fails ends the run. */
  function ApplyAll(g: Configurations, steps: seq<Shadowing>): Result<Configurations, ConfigurationError>
    requires Named(steps)
    decreases |steps|
  {
    if |steps| == 0 then Ok(g)
    else
      match Step(g, steps[0])
      case Err(e) => Err(e)
      case Ok(next) => ApplyAll(next, steps[1..])
  }

  /** The shadows the calls `steps` create, in order. */
  function Shadows(steps: seq<Shadowing>): (r: seq<string>)
    requires Named(steps)
    ensures |r| == |steps| && forall k :: 0 <= k < |steps| ==> r[k] == ShadowOf(steps[k])
  {
    seq(|steps|, k requires 0 <= k < |steps| => ShadowOf(steps[k]))
  }

  /** The shadows that `c` comes to extend from over the calls `steps`. */
  function Added(steps: seq<Shadowing>, c: string): set<string>
    requires Named(steps)
    decreases |steps|
  {
    if |steps| == 0 then {}
    else (if c == steps[0].original || c in steps[0].subConfigs then {ShadowOf(steps[0])} else {}) + Added(steps[1..], c)
  }

  /** Every sub-configuration of a call exists by the time the call is made. */
  predicate SubsPresent(g: Configurations, steps: seq<Shadowing>)
    requires Named(steps)
  {
    forall k, c :: 0 <= k < |steps| && c in steps[k].subConfigs ==> c in g || c in Shadows(steps)[..k]
  }

  /** No call's native is the shadow of an earlier call, and no two calls
    * create the same shadow. */
  predicate NoClash(steps: seq<Shadowing>)
    requires Named(steps)
  {
    forall j, k :: 0 <= j < k < |steps| ==>
      steps[k].original != ShadowOf(steps[j]) && ShadowOf(steps[k]) != ShadowOf(steps[j])
  }

  /** Every call finds its native and a free shadow name in `g`. */
  predicate AllFound(g: Configurations, steps: seq<Shadowing>)
    requires Named(steps)
  {
    forall k :: 0 <= k < |steps| ==> steps[k].original in g && ShadowOf(steps[k]) !in g
  }

  /** `c` is a configuration of `g` that extends from `s`. */
  predicate Extends(g: Configurations, c: string, s: string) {
    c in g && s in g[c]
  }

  lemma ShadowsTail(steps: seq<Shadowing>, k: nat)
    requires Named(steps) && 0 < |steps| && k < |steps|
    ensures Named(steps[1..])
    ensures forall c :: c in Shadows(steps)[..k + 1] <==> c == ShadowOf(steps[0]) || c in Shadows(steps[1..])[..k]
  {
    forall c | c in Shadows(steps)[..k + 1]
      ensures c == ShadowOf(steps[0]) || c in Shadows(steps[1..])[..k]
    {
      var j :| 0 <= j < k + 1 && Shadows(steps)[..k + 1][j] == c;
      if j > 0 {
        assert Shadows(steps[1..])[..k][j - 1] == c;
      }
    }
    forall c | c in Shadows(steps[1..])[..k]
      ensures c in Shadows(steps)[..k + 1]
    {
      var j :| 0 <= j < k && Shadows(steps[1..])[..k][j] == c;
      assert Shadows(steps)[..k + 1][j + 1] == c;
    }
    assert Shadows(steps)[..k + 1][0] == ShadowOf(steps[0]);
  }

  /** A run whose first call succeeds goes on with the rest. */
  lemma ApplyAllFirst(g: Configurations, steps: seq<Shadowing>, next: Configurations)
    requires Named(steps) && |steps| > 0 && Step(g, steps[0]) == Ok(next)
    ensures Named(steps[1..]) && ApplyAll(g, steps) == ApplyAll(next, steps[1..])
  {
  }

  /** A run whose first call fails fails with that call's error. */
  lemma ApplyAllFails(g: Configurations, steps: seq<Shadowing>)
    requires Named(steps) && |steps| > 0 && Step(g, steps[0]).Err?
    ensures ApplyAll(g, steps) == Step(g, steps[0])
  {
  }

  /** The run succeeds exactly when every call finds its native and a free
    * shadow name among the configurations the run starts from: the calls do
    * not interfere when none clash. */
  lemma {:induction false} ApplyAllOk(g: Configurations, steps: seq<Shadowing>)
    requires Named(steps) && NoClash(steps)
    ensures ApplyAll(g, steps).Ok? <==> AllFound(g, steps)
    decreases |steps|
  {
    if |steps| > 0 && Step(g, steps[0]).Ok? {
      var next := Step(g, steps[0]).value;
      var tail := steps[1..];
      assert Named(tail);
      assert NoClash(tail) by {
        forall j, k | 0 <= j < k < |tail|
          ensures tail[k].original != ShadowOf(tail[j]) && ShadowOf(tail[k]) != ShadowOf(tail[j])
        {
          assert tail[j] == steps[j + 1] && tail[k] == steps[k + 1];
        }
      }
      ApplyAllOk(next, tail);
      assert AllFound(next, tail) <==> AllFound(g, steps) by {
        if AllFound(next, tail) {
          forall k | 0 < k < |steps| ensures steps[k].original in g && ShadowOf(steps[k]) !in g {
            assert tail[k - 1] == steps[k];
          }
        }
        if AllFound(g, steps) {
          forall k | 0 <= k < |tail| ensures tail[k].original in next && ShadowOf(tail[k]) !in next {
            assert tail[k] == steps[k + 1];
          }
        }
      }
    }
  }

  /** After a successful first call, the sub-configurations of the calls
    * left still exist in time. */
  lemma SubsPresentTail(g: Configurations, steps: seq<Shadowing>)
    requires Named(steps) && |steps| > 0 && SubsPresent(g, steps) && Step(g, steps[0]).Ok?
    ensures Named(steps[1..]) && SubsPresent(Step(g, steps[0]).value, steps[1..])
  {
    var tail := steps[1..];
    assert Named(tail);
    forall k, c | 0 <= k < |tail| && c in tail[k].subConfigs
      ensures c in Step(g, steps[0]).value || c in Shadows(tail)[..k]
    {
      ShadowsTail(steps, k);
      assert c in steps[k + 1].subConfigs;
    }
  }

  /** A successful run adds exactly the shadows of its calls. */
  lemma {:induction false} ApplyAllKeys(g: Configurations, steps: seq<Shadowing>)
    requires Named(steps) && ApplyAll(g, steps).Ok?
    ensures forall c :: c in ApplyAll(g, steps).value <==> c in g || c in Shadows(steps)
    decreases |steps|
  {
    if |steps| > 0 {
      var tail := steps[1..];
      assert Named(tail);
      ApplyAllKeys(Step(g, steps[0]).value, tail);
      assert Shadows(steps) == [ShadowOf(steps[0])] + Shadows(tail);
    }
  }

  /** In a successful run each configuration gains exactly the shadows of
    * the calls that name it, and nothing else changes. */
  lemma {:induction false} ApplyAllValues(g: Configurations, steps: seq<Shadowing>)
    requires Named(steps) && SubsPresent(g, steps) && ApplyAll(g, steps).Ok?
    ensures forall c :: c in ApplyAll(g, steps).value ==>
      ApplyAll(g, steps).value[c] == (if c in g then g[c] else {}) + Added(steps, c)
    decreases |steps|
  {
    if |steps| > 0 {
      var s := steps[0];
      var next := Step(g, s).value;
      assert forall c :: c in s.subConfigs ==> c in g by {
        assert Shadows(steps)[..0] == [];
      }
      StepValue(g, s);
      var tail := steps[1..];
      SubsPresentTail(g, steps);
      ApplyAllValues(next, tail);
      var r := ApplyAll(g, steps).value;
      forall c | c in r
        ensures r[c] == (if c in g then g[c] else {}) + Added(steps, c)
      {
        assert Added(steps, c) == (if c == s.original || c in s.subConfigs then {ShadowOf(s)} else {}) + Added(tail, c);
      }
    }
  }

  /** Shadowing a call adds to each configuration at least the shadows of the
    * calls that name it. */
  lemma {:induction false} AddedHas(steps: seq<Shadowing>, c: string, k: nat)
    requires Named(steps) && k < |steps|
    requires c == steps[k].original || c in steps[k].subConfigs
    ensures ShadowOf(steps[k]) in Added(steps, c)
    decreases k
  {
    if k > 0 {
      assert steps[1..][k - 1] == steps[k];
      AddedHas(steps[1..], c, k - 1);
    }
  }

  /** No native of createHyperConfigurations is an earlier shadow and the
    * seven shadows are distinct. */
  lemma StepsNoClash()
    ensures Named(STEPS) && NoClash(STEPS)
  {
    assert Named(STEPS);
    forall j, k | 0 <= j < k < |STEPS|
      ensures STEPS[k].original != ShadowOf(STEPS[j]) && ShadowOf(STEPS[k]) != ShadowOf(STEPS[j])
    {
      var a, b := STEPS[j].original, STEPS[k].original;
      assert b[0] != 'h' && ShadowOf(STEPS[j])[..5][0] == 'h';
      assert |a| != |b| || UpperCase(a[0]) != UpperCase(b[0]);
      assert |ShadowOf(STEPS[k])| != |ShadowOf(STEPS[j])| || ShadowOf(STEPS[k])[5] != ShadowOf(STEPS[j])[5];
    }
  }

  /** Each call of createHyperConfigurations names as sub-configuration a
    * classpath shadow that one of the first two calls made. */
  lemma StepsSubsPresent(g: Configurations)
    ensures Named(STEPS) && SubsPresent(g, STEPS)
  {
    assert Named(STEPS);
    forall k, c | 0 <= k < |STEPS| && c in STEPS[k].subConfigs
      ensures c in g || c in Shadows(STEPS)[..k]
    {
      assert Shadows(STEPS)[..k][0] == HYPER_COMPILE_CLASSPATH && Shadows(STEPS)[..k][1] == HYPER_RUNTIME_CLASSPATH;
    }
  }

  /** In a successful run every native extends from its shadow. */
  lemma ApplyAllNativeEdges(g: Configurations, steps: seq<Shadowing>)
    requires Named(steps) && NoClash(steps) && SubsPresent(g, steps) && ApplyAll(g, steps).Ok?
    ensures forall k :: 0 <= k < |steps| ==> Extends(ApplyAll(g, steps).value, steps[k].original, ShadowOf(steps[k]))
  {
    ApplyAllOk(g, steps);
    ApplyAllKeys(g, steps);
    ApplyAllValues(g, steps);
    forall k | 0 <= k < |steps|
      ensures Extends(ApplyAll(g, steps).value, steps[k].original, ShadowOf(steps[k]))
    {
      AddedHas(steps, steps[k].original, k);
    }
  }

  /** In a successful run every sub-configuration extends from the shadow of
    * the call that names it. */
  lemma ApplyAllSubEdges(g: Configurations, steps: seq<Shadowing>)
    requires Named(steps) && SubsPresent(g, steps) && ApplyAll(g, steps).Ok?
    ensures forall k, c :: 0 <= k < |steps| && c in steps[k].subConfigs ==> Extends(ApplyAll(g, steps).value, c, ShadowOf(steps[k]))
  {
    ApplyAllKeys(g, steps);
    ApplyAllValues(g, steps);
    forall k, c | 0 <= k < |steps| && c in steps[k].subConfigs
      ensures Extends(ApplyAll(g, steps).value, c, ShadowOf(steps[k]))
    {
      AddedHas(steps, c, k);
      assert c in g || c in Shadows(steps)[..k];
      assert c in Shadows(steps)[..k] ==> c in Shadows(steps);
    }
  }

  /** createHyperConfigurations succeeds exactly when all seven natives exist
    * and none of their shadows does; then every native extends from its
    * shadow, and each classpath shadow from the shadows of its side. */
  lemma CreateHyperConfigurationsSpec(g: Configurations)
    ensures Named(STEPS)
    ensures ApplyAll(g, STEPS).Ok? <==> AllFound(g, STEPS)
    ensures ApplyAll(g, STEPS).Ok? ==> forall k :: 0 <= k < |STEPS| ==>
      && Extends(ApplyAll(g, STEPS).value, STEPS[k].original, ShadowOf(STEPS[k]))
      && forall c :: c in STEPS[k].subConfigs ==> Extends(ApplyAll(g, STEPS).value, c, ShadowOf(STEPS[k]))
  {
    StepsNoClash();
    StepsSubsPresent(g);
    ApplyAllOk(g, STEPS);
    if ApplyAll(g, STEPS).Ok? {
      ApplyAllNativeEdges(g, STEPS);
      ApplyAllSubEdges(g, STEPS);
    }
  }

  /** The project's configurations. */
  class ConfigurationContainer {
    var extendsFrom: Configurations

    constructor(initial: Configurations)
      ensures extendsFrom == initial
    {
      extendsFrom := initial;
    }

    /** createHyperConfiguration: getByName, create, then the extendsFrom
      * calls, the sub-configurations one by one. */
    method CreateHyperConfiguration(originalName: string, subConfigs: seq<string>) returns (r: Result<string, ConfigurationError>)
      requires |originalName| > 0
      requires forall c :: c in subConfigs ==> c in extendsFrom
      modifies this
      ensures r.Ok? ==> r.value == HyperConfigurationName(originalName) && Step(old(extendsFrom), Shadowing(originalName, subConfigs)) == Ok(extendsFrom)
      ensures r.Err? ==> Step(old(extendsFrom), Shadowing(originalName, subConfigs)) == Err(r.error) && extendsFrom == old(extendsFrom)
    {
      if originalName !in extendsFrom {
        return Err(UnknownConfiguration(originalName));
      }
      var name := HyperConfigurationName(originalName);
      if name in extendsFrom {
        return Err(DuplicateConfiguration(name));
      }
      ghost var targets := [originalName] + subConfigs;
      extendsFrom := extendsFrom[name := {}];
      extendsFrom := extendsFrom[originalName := extendsFrom[originalName] + {name}];
      assert targets[..1] == [originalName] && targets[..1][..0] == [];
      for i := 0 to |subConfigs|
        invariant extendsFrom == AddEdges(old(extendsFrom)[name := {}], targets[..i + 1], name)
      {
        var sub := subConfigs[i];
        assert targets[..i + 2][..i + 1] == targets[..i + 1] && targets[..i + 2][i + 1] == sub;
        extendsFrom := extendsFrom[sub := extendsFrom[sub] + {name}];
      }
      assert targets[..|subConfigs| + 1] == targets;
      return Ok(name);
    }

    /** createHyperConfigurations: the seven calls in order; the first that
      * fails aborts the rest. */
    method CreateHyperConfigurations() returns (r: Result<(), ConfigurationError>)
      modifies this
      ensures Named(STEPS)
      ensures r.Ok? ==> ApplyAll(old(extendsFrom), STEPS) == Ok(extendsFrom)
      ensures r.Err? ==> ApplyAll(old(extendsFrom), STEPS) == Err(r.error)
    {
      ghost var outcome := ApplyAll(extendsFrom, STEPS);
      var compileClasspath := Shadow(outcome, STEPS, COMPILE_CLASSPATH, []);
      if compileClasspath.Err? {
        return Err(compileClasspath.error);
      }
      var runtimeClasspath := Shadow(outcome, STEPS[1..], RUNTIME_CLASSPATH, []);
      if runtimeClasspath.Err? {
        return Err(runtimeClasspath.error);
      }
      var created := Shadow(outcome, STEPS[2..], COMPILE_ONLY, [compileClasspath.value]);
      if created.Err? {
        return Err(created.error);
      }
      created := Shadow(outcome, STEPS[3..], IMPLEMENTATION, [runtimeClasspath.value]);
      if created.Err? {
        return Err(created.error);
      }
      created := Shadow(outcome, STEPS[4..], RUNTIME_ONLY, [runtimeClasspath.value]);
      if created.Err? {
        return Err(created.error);
      }
      created := Shadow(outcome, STEPS[5..], COMPILE_ONLY_API, [compileClasspath.value]);
      if created.Err? {
        return Err(created.error);
      }
      created := Shadow(outcome, STEPS[6..], API, [runtimeClasspath.value]);
      if created.Err? {
        return Err(created.error);
      }
      return Ok(());
    }

    /** One call of createHyperConfigurations, the first of the calls
      * `rest` still to make in a run whose outcome is `outcome`: the outcome
      * is that of the calls after this one, or this call's error. */
    method Shadow(ghost outcome: Result<Configurations, ConfigurationError>, ghost rest: seq<Shadowing>,
                  originalName: string, subConfigs: seq<string>) returns (r: Result<string, ConfigurationError>)
      requires Named(rest) && |rest| > 0 && rest[0] == Shadowing(originalName, subConfigs)
      requires outcome == ApplyAll(extendsFrom, rest)
      requires forall c :: c in subConfigs ==> c in extendsFrom
      modifies this
      ensures r.Ok? ==> r.value == HyperConfigurationName(originalName) && r.value in extendsFrom
      ensures r.Ok? ==> forall c :: c in old(extendsFrom) ==> c in extendsFrom
      ensures r.Ok? ==> Named(rest[1..]) && outcome == ApplyAll(extendsFrom, rest[1..])
      ensures r.Err? ==> outcome == Err(r.error)
    {
      ghost var before := extendsFrom;
      r := CreateHyperConfiguration(originalName, subConfigs);
      if r.Ok? {
        ApplyAllFirst(before, rest, extendsFrom);
      } else {
        ApplyAllFails(before, rest);
      }
    }
  }

  /** A module coordinate: what getDependencies records of a dependency. */
  datatype ModuleId = ModuleId(group: string, name: string, version: string)

  /** A resolved first-level dependency: its module and the configuration
    * it was resolved in (two of them can share a module). */
  datatype ResolvedDependency = ResolvedDependency(moduleId: ModuleId, configuration: string)

  function Modules(deps: seq<ResolvedDependency>): (ms: seq<ModuleId>)
    ensures |ms| == |deps| && forall i :: 0 <= i < |deps| ==> ms[i] == deps[i].moduleId
  {
    seq(|deps|, i requires 0 <= i < |deps| => deps[i].moduleId)
  }

  /** getDependencies: each module once, in the order first met. */
  method GetDependencies(dependencies: seq<ResolvedDependency>) returns (ids: seq<ModuleId>)
    ensures ids == AddAll([], Modules(dependencies))
  {
    ids := [];
    for i := 0 to |dependencies|
      invariant ids == AddAll([], Modules(dependencies)[..i])
    {
      assert Modules(dependencies)[..i + 1][..i] == Modules(dependencies)[..i];
      ids := AddLast(ids, dependencies[i].moduleId);
    }
    assert Modules(dependencies)[..|dependencies|] == Modules(dependencies);
  }

  /** getDependencies lists every module of the configuration exactly once,
    * in the order of first appearance. */
  lemma DependenciesOnceInOrder(dependencies: seq<ResolvedDependency>)
    ensures Distinct(AddAll([], Modules(dependencies)))
    ensures forall m :: m in AddAll([], Modules(dependencies)) <==> exists i :: 0 <= i < |dependencies| && dependencies[i].moduleId == m
    ensures forall k :: 0 <= k <= |dependencies| ==>
      var before := AddAll([], Modules(dependencies)[..k]);
      |before| <= |AddAll([], Modules(dependencies))| && AddAll([], Modules(dependencies))[..|before|] == before
  {
    AddAllSpec([], Modules(dependencies));
    forall m | m in Modules(dependencies)
      ensures exists i :: 0 <= i < |dependencies| && dependencies[i].moduleId == m
    {
      var i :| 0 <= i < |Modules(dependencies)| && Modules(dependencies)[i] == m;
    }
  }

  /** A project repository as the descriptor sees it. */
  datatype ArtifactRepository =
    | MavenRepository(name: string, url: string, scheme: string,
                      username: Option<string>, password: Option<string>, authentication: seq<string>)
    | OtherRepository(name: string)

  /** A "name"/"url" entry of the descriptor's repository list. */
  datatype RepositoryEntry = RepositoryEntry(name: string, url: string)

  /** The repository filter: Maven, not on the file scheme, with neither
    * user name nor password, and no authentication scheme. */
  predicate Anonymous(repository: ArtifactRepository) {
    && repository.MavenRepository?
    && repository.scheme != "file"
    && repository.username.None? && repository.password.None?
    && |repository.authentication| == 0
  }

  /** The descriptor's repositories: the anonymous ones, in project order. */
  function ListedRepositories(repositories: seq<ArtifactRepository>): (r: seq<RepositoryEntry>)
    ensures |r| <= |repositories|
    decreases |repositories|
  {
    if |repositories| == 0 then []
    else
      var rest := ListedRepositories(repositories[1..]);
      if Anonymous(repositories[0]) then [RepositoryEntry(repositories[0].name, repositories[0].url)] + rest else rest
  }

  /** `e` is the entry of an anonymous repository of `repositories`. */
  predicate ListedFrom(repositories: seq<ArtifactRepository>, e: RepositoryEntry) {
    exists k :: 0 <= k < |repositories| && Anonymous(repositories[k]) && e == RepositoryEntry(repositories[k].name, repositories[k].url)
  }

  /** An entry is listed exactly when an anonymous repository has that name
    * and URL. */
  lemma {:induction false} ListedExactlyAnonymous(repositories: seq<ArtifactRepository>)
    ensures forall e :: e in ListedRepositories(repositories) <==> ListedFrom(repositories, e)
    decreases |repositories|
  {
    if |repositories| > 0 {
      var tail := repositories[1..];
      ListedExactlyAnonymous(tail);
      forall e | e in ListedRepositories(repositories)
        ensures ListedFrom(repositories, e)
      {
        if e !in ListedRepositories(tail) {
          assert Anonymous(repositories[0]) && e == RepositoryEntry(repositories[0].name, repositories[0].url);
        } else {
          var k :| 0 <= k < |tail| && Anonymous(tail[k]) && e == RepositoryEntry(tail[k].name, tail[k].url);
          assert tail[k] == repositories[k + 1];
        }
      }
      forall e | ListedFrom(repositories, e)
        ensures e in ListedRepositories(repositories)
      {
        var k :| 0 <= k < |repositories| && Anonymous(repositories[k]) && e == RepositoryEntry(repositories[k].name, repositories[k].url);
        if k > 0 {
          assert tail[k - 1] == repositories[k];
        }
      }
    }
  }

  /** The dependency descriptor: its repositories and dependencies. */
  datatype Descriptor = Descriptor(repositories: seq<RepositoryEntry>, dependencies: seq<ModuleId>)

  /** The doLast step of processResources: no descriptor at all when the
    * runtime classpath shadow has no first-level dependency. */
  function DependencyDescriptor(runtime: seq<ResolvedDependency>, repositories: seq<ArtifactRepository>): (r: Option<Descriptor>)
    ensures r.None? <==> |runtime| == 0
    ensures r.Some? ==> r.value.dependencies == AddAll([], Modules(runtime)) && r.value.repositories == ListedRepositories(repositories)
  {
    var dependencies := AddAll([], Modules(runtime));
    if |dependencies| == 0 then None
    else Some(Descriptor(ListedRepositories(repositories), dependencies))
  }

  predicate StartsWith(s: string, prefix: string) {
    |prefix| <= |s| && s[..|prefix|] == prefix
  }

  /** eachFile: a path under "assets/" moves into "assets/<project>/"; other
    * paths stay. The substring keeps the slash after "assets". */
  function RewriteAssetPath(path: string, projectName: string): (r: string)
    ensures StartsWith(path, ASSETS_ROOT_DIR) ==> r == ASSETS_ROOT_DIR + projectName + "/" + path[|ASSETS_ROOT_DIR|..]
    ensures !StartsWith(path, ASSETS_ROOT_DIR) ==> r == path
  {
    if StartsWith(path, ASSETS_ROOT_DIR) then
      var assetsDir := ASSETS_ROOT_DIR + projectName;
      var prefix := |ASSETS_ROOT_DIR| - 1;
      assert path[prefix..] == "/" + path[|ASSETS_ROOT_DIR|..];
      assetsDir + path[prefix..]
    else path
  }

  /** The rewrite loses nothing: dropping the project directory from the
    * new path gives back the old one. */
  lemma RewriteAssetPathInverse(path: string, projectName: string)
    requires StartsWith(path, ASSETS_ROOT_DIR)
    ensures var r := RewriteAssetPath(path, projectName);
      && StartsWith(r, ASSETS_ROOT_DIR + projectName + "/")
      && "assets/" + r[|ASSETS_ROOT_DIR| + |projectName| + 1..] == path
  {
    var r := RewriteAssetPath(path, projectName);
    assert r[..|ASSETS_ROOT_DIR + projectName + "/"|] == ASSETS_ROOT_DIR + projectName + "/";
    assert r[|ASSETS_ROOT_DIR| + |projectName| + 1..] == path[|ASSETS_ROOT_DIR|..];
    assert path == path[..|ASSETS_ROOT_DIR|] + path[|ASSETS_ROOT_DIR|..];
  }
}
