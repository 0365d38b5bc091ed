/**
 * AbstractHyperJar.copy(): before the jar is written, the manifest gets the
 * Hyper-* attributes describing the project, merged with the attributes the
 * build script declared.
 */
module HyperJars {
  import opened LinkedMaps
  import opened BuildEntities
  import opened StringJoiner

  const HYPER_GROUP := "Hyper-Group"
  const HYPER_NAME := "Hyper-Name"
  const HYPER_VERSION := "Hyper-Version"
  const HYPER_DEVELOPERS := "Hyper-Developers"
  const HYPER_BUILT_BY := "Hyper-Built-By"
  const HYPER_JAVA_VERSION := "Hyper-Java-Version"

  /** The computed keys, in the order they are put. */
  const HYPER_KEYS := [HYPER_GROUP, HYPER_NAME, HYPER_VERSION, HYPER_DEVELOPERS, HYPER_BUILT_BY, HYPER_JAVA_VERSION]

  /** What copy() reads from the project: its coordinates and the major
    * version of the target Java. */
  datatype Project = Project(group: string, name: string, version: string, javaVersion: string)

  /** One developer, as "(id) name <email>". */
  function DeveloperText(d: Developer): string {
    "(" + d.id + ") " + d.name + " <" + d.email + ">"
  }

  function DeveloperTexts(ds: seq<Developer>): (ts: seq<string>)
    ensures |ts| == |ds| && forall i :: 0 <= i < |ds| ==> ts[i] == DeveloperText(ds[i])
  {
    seq(|ds|, i requires 0 <= i < |ds| => DeveloperText(ds[i]))
  }

  /** joinToString(", ", "'", "'"): the developers separated by ", ", the
    * whole inside one pair of single quotes. */
  function DevelopersText(ds: seq<Developer>): (r: string)
    ensures |r| >= 2 && r[0] == '\'' && r[|r| - 1] == '\''
  {
    "'" + JoinWith(", ", DeveloperTexts(ds)) + "'"
  }

  /** Joining one more part adds the delimiter and the part at the end. */
  lemma {:induction false} JoinWithLast(delimiter: string, parts: seq<string>, part: string)
    requires parts != []
    ensures JoinWith(delimiter, parts + [part]) == JoinWith(delimiter, parts) + delimiter + part
    decreases |parts|
  {
    if |parts| > 1 {
      assert (parts + [part])[1..] == parts[1..] + [part];
      JoinWithLast(delimiter, parts[1..], part);
    }
  }

  /** No developers give a pair of quotes with nothing between them; one
    * developer is quoted alone. */
  lemma DevelopersTextFew(d: Developer)
    ensures DevelopersText([]) == "''"
    ensures DevelopersText([d]) == "'" + DeveloperText(d) + "'"
  {
    assert DeveloperTexts([d]) == [DeveloperText(d)];
  }

  /** A further developer goes before the closing quote, after ", ". */
  lemma DevelopersTextAppend(ds: seq<Developer>, d: Developer)
    requires ds != []
    ensures var before := DevelopersText(ds);
      DevelopersText(ds + [d]) == before[..|before| - 1] + ", " + DeveloperText(d) + "'"
  {
    assert DeveloperTexts(ds + [d]) == DeveloperTexts(ds) + [DeveloperText(d)];
    JoinWithLast(", ", DeveloperTexts(ds), DeveloperText(d));
    var before := DevelopersText(ds);
    assert before[..|before| - 1] == "'" + JoinWith(", ", DeveloperTexts(ds));
  }

  /** The computed attributes, in their order; `builtBy` is the build time
    * formatted as "yyyy-MM-dd HH:mm:ssZ". */
  function HyperAttributes(project: Project, developers: seq<Developer>, builtBy: string): (r: LinkedMap<string, string>)
    ensures r.Valid() && r.keys == HYPER_KEYS
  {
    HyperKeysDistinct();
    SixPuts(HYPER_GROUP, HYPER_NAME, HYPER_VERSION, HYPER_DEVELOPERS, HYPER_BUILT_BY, HYPER_JAVA_VERSION,
      project.group, project.name, project.version, DevelopersText(developers), builtBy, project.javaVersion);
    EmptyMap<string, string>()
      .Put(HYPER_GROUP, project.group)
      .Put(HYPER_NAME, project.name)
      .Put(HYPER_VERSION, project.version)
      .Put(HYPER_DEVELOPERS, DevelopersText(developers))
      .Put(HYPER_BUILT_BY, builtBy)
      .Put(HYPER_JAVA_VERSION, project.javaVersion)
  }

  /** The six keys differ: no two have the same length. */
  lemma HyperKeysDistinct()
    ensures Distinct(HYPER_KEYS)
  {
    var lengths := [11, 10, 13, 16, 14, 18];
    assert forall i :: 0 <= i < 6 ==> |HYPER_KEYS[i]| == lengths[i];
  }

  /** Three puts of new, distinct keys append them in order. */
  lemma ThreePuts(m: LinkedMap<string, string>, k0: string, k1: string, k2: string, v0: string, v1: string, v2: string)
    requires m.Valid() && k0 !in m.entries && k1 !in m.entries && k2 !in m.entries
    requires k0 != k1 && k0 != k2 && k1 != k2
    ensures m.Put(k0, v0).Put(k1, v1).Put(k2, v2).keys == m.keys + [k0, k1, k2]
  {
    assert m.keys + [k0] + [k1] + [k2] == m.keys + [k0, k1, k2];
  }

  /** Six puts of distinct keys into an empty map keep the keys in order. */
  lemma SixPuts(k0: string, k1: string, k2: string, k3: string, k4: string, k5: string,
                v0: string, v1: string, v2: string, v3: string, v4: string, v5: string)
    requires Distinct([k0, k1, k2, k3, k4, k5])
    ensures var m := EmptyMap<string, string>().Put(k0, v0).Put(k1, v1).Put(k2, v2).Put(k3, v3).Put(k4, v4).Put(k5, v5);
      m.keys == [k0, k1, k2, k3, k4, k5] && m.entries == map[k0 := v0, k1 := v1, k2 := v2, k3 := v3, k4 := v4, k5 := v5]
  {
    var ks := [k0, k1, k2, k3, k4, k5];
    assert ks[0] != ks[1] && ks[0] != ks[2] && ks[1] != ks[2];
    assert ks[3] != ks[4] && ks[3] != ks[5] && ks[4] != ks[5];
    assert forall i :: 3 <= i < 6 ==> ks[i] != ks[0] && ks[i] != ks[1] && ks[i] != ks[2];
    var e := EmptyMap<string, string>();
    ThreePuts(e, k0, k1, k2, v0, v1, v2);
    var m3 := e.Put(k0, v0).Put(k1, v1).Put(k2, v2);
    assert m3.keys == [k0, k1, k2];
    ThreePuts(m3, k3, k4, k5, v3, v4, v5);
  }

  /** The computed attributes hold the six keys in order, each with its value. */
  lemma HyperAttributesSpec(project: Project, developers: seq<Developer>, builtBy: string)
    ensures HyperAttributes(project, developers, builtBy).Valid()
    ensures HyperAttributes(project, developers, builtBy).keys == HYPER_KEYS
    ensures HyperAttributes(project, developers, builtBy).entries == map[
      HYPER_GROUP := project.group, HYPER_NAME := project.name, HYPER_VERSION := project.version,
      HYPER_DEVELOPERS := DevelopersText(developers), HYPER_BUILT_BY := builtBy,
      HYPER_JAVA_VERSION := project.javaVersion]
  {
    HyperKeysDistinct();
    SixPuts(HYPER_GROUP, HYPER_NAME, HYPER_VERSION, HYPER_DEVELOPERS, HYPER_BUILT_BY, HYPER_JAVA_VERSION,
      project.group, project.name, project.version, DevelopersText(developers), builtBy, project.javaVersion);
  }

  /** The attributes after copy(): the computed ones with the declared ones
    * put over them. */
  function MergedAttributes(project: Project, developers: seq<Developer>, builtBy: string, declared: LinkedMap<string, string>): (r: LinkedMap<string, string>)
    requires declared.Valid()
    ensures r.Valid()
  {
    HyperAttributesSpec(project, developers, builtBy);
    PutAll(HyperAttributes(project, developers, builtBy), declared)
  }

  /** The merge: the manifest holds the six Hyper-* keys first and then the
    * other declared keys; a declared attribute keeps its value even under a
    * Hyper-* key, and a Hyper-* key nobody declared carries the computed
    * value. */
  lemma MergedAttributesSpec(project: Project, developers: seq<Developer>, builtBy: string, declared: LinkedMap<string, string>)
    requires declared.Valid()
    ensures var r := MergedAttributes(project, developers, builtBy, declared);
      |HYPER_KEYS| <= |r.keys| && r.keys[..|HYPER_KEYS|] == HYPER_KEYS
    ensures forall k :: k in MergedAttributes(project, developers, builtBy, declared).entries <==> k in HYPER_KEYS || k in declared.entries
    ensures forall k :: k in declared.entries ==> MergedAttributes(project, developers, builtBy, declared).entries[k] == declared.entries[k]
    ensures forall k :: k in HYPER_KEYS && k !in declared.entries ==>
      MergedAttributes(project, developers, builtBy, declared).entries[k] == HyperAttributes(project, developers, builtBy).entries[k]
  {
    var h := HyperAttributes(project, developers, builtBy);
    HyperAttributesSpec(project, developers, builtBy);
    PutEachSpec(h, declared.entries, declared.keys);
  }

  /** The jar task's manifest. */
  class Manifest {
    var attributes: LinkedMap<string, string>

    ghost predicate Valid()
      reads this
    {
      attributes.Valid()
    }

    constructor(attributes: LinkedMap<string, string>)
      requires attributes.Valid()
      ensures Valid() && this.attributes == attributes
    {
      this.attributes := attributes;
    }

    /** copy(): the computed attributes are put into a new map, the declared
      * ones are put over them, and the manifest is cleared and refilled
      * from the new map. */
    method Copy(project: Project, developers: seq<Developer>, builtBy: string)
      requires Valid()
      modifies this
      ensures Valid()
      ensures attributes == MergedAttributes(project, developers, builtBy, old(attributes))
    {
      var developersText := DevelopersText(developers);
      var attrs := EmptyMap<string, string>();
      attrs := attrs.Put(HYPER_GROUP, project.group);
      attrs := attrs.Put(HYPER_NAME, project.name);
      attrs := attrs.Put(HYPER_VERSION, project.version);
      attrs := attrs.Put(HYPER_DEVELOPERS, developersText);
      attrs := attrs.Put(HYPER_BUILT_BY, builtBy);
      attrs := attrs.Put(HYPER_JAVA_VERSION, project.javaVersion);
      attrs := PutAllOf(attrs, attributes);
      attributes := EmptyMap();
      attributes := PutAllOf(attributes, attrs);
      PutAllIntoEmpty(attrs);
    }
  }
}
