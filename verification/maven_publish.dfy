/**
 * MavenPublishPlugin: the POM of the "Hyper" publication (its descriptive
 * fields and the dependencies node written by withXml), the packaging check
 * that picks the published artifacts, and the signing gate.
 */
module MavenPublishing {
  import opened Wrappers
  import opened LinkedMaps
  import opened BuildEntities
  import JavaPlugins

  type ModuleId = JavaPlugins.ModuleId

  const HYPER_PUBLICATION_NAME := "Hyper"
  const PROJECT_BUILD_LOCAL_REPOSITORY_NAME := "ProjectBuild"
  const REAL_PUBLISH_TASK_ID := "publish" + HYPER_PUBLICATION_NAME + "PublicationTo" + PROJECT_BUILD_LOCAL_REPOSITORY_NAME + "Repository"
  const SIGNING_PLUGIN_ID := "signing"
  const COMPILE_SCOPE := "compile"
  const RUNTIME_SCOPE := "runtime"
  const JAR_PACKAGING := "jar"

  /** A <dependency> element of the POM. */
  datatype DependencyEntry = DependencyEntry(groupId: string, artifactId: string, version: string, scope: string)

  /** The "group:name:version" id the merge compares. */
  function Id(m: ModuleId): string {
    m.group + ":" + m.name + ":" + m.version
  }

  function EntryId(e: DependencyEntry): string {
    e.groupId + ":" + e.artifactId + ":" + e.version
  }

  function EntryOf(m: ModuleId, scope: string): (e: DependencyEntry)
    ensures EntryId(e) == Id(m) && e.scope == scope
  {
    DependencyEntry(m.group, m.name, m.version, scope)
  }

  function IdSet(ms: seq<ModuleId>): set<string> {
    set m | m in ms :: Id(m)
  }

  /** One compile-scoped entry per compile dependency, in order. */
  function CompileEntries(ms: seq<ModuleId>): (r: seq<DependencyEntry>)
    ensures |r| == |ms| && forall i :: 0 <= i < |ms| ==> r[i] == EntryOf(ms[i], COMPILE_SCOPE)
  {
    seq(|ms|, i requires 0 <= i < |ms| => EntryOf(ms[i], COMPILE_SCOPE))
  }

  /** The runtime loop: an entry for each dependency whose id has not been
    * emitted yet; `seen` holds the ids emitted so far. */
  function RuntimeEntries(seen: set<string>, ms: seq<ModuleId>): seq<DependencyEntry>
    decreases |ms|
  {
    if |ms| == 0 then []
    else if Id(ms[0]) in seen then RuntimeEntries(seen, ms[1..])
    else [EntryOf(ms[0], RUNTIME_SCOPE)] + RuntimeEntries(seen + {Id(ms[0])}, ms[1..])
  }

  /** The entries of the dependencies node: compile first, then runtime. */
  function DependencyEntries(compile: seq<ModuleId>, runtime: seq<ModuleId>): seq<DependencyEntry> {
    CompileEntries(compile) + RuntimeEntries(IdSet(compile), runtime)
  }

  /** The node appears with its first entry: none for no entries. */
  function NodeOf(entries: seq<DependencyEntry>): Option<seq<DependencyEntry>> {
    if |entries| == 0 then None else Some(entries)
  }

  /** pom.withXml: the dependencies node of the POM, created on the first
    * entry. */
  method WithXml(compile: seq<ModuleId>, runtime: seq<ModuleId>) returns (dependenciesNode: Option<seq<DependencyEntry>>)
    ensures dependenciesNode == NodeOf(DependencyEntries(compile, runtime))
  {
    dependenciesNode := None;
    var compileDependencyIds: set<string> := {};
    var scope := COMPILE_SCOPE;
    for i := 0 to |compile|
      invariant dependenciesNode == NodeOf(CompileEntries(compile[..i]))
      invariant compileDependencyIds == IdSet(compile[..i])
    {
      var dependency := compile[i];
      assert compile[..i + 1] == compile[..i] + [dependency];
      assert CompileEntries(compile[..i + 1]) == CompileEntries(compile[..i]) + [EntryOf(dependency, COMPILE_SCOPE)];
      if dependenciesNode.None? {
        dependenciesNode := Some([]);
      }
      dependenciesNode := Some(dependenciesNode.value + [DependencyEntry(dependency.group, dependency.name, dependency.version, scope)]);
      compileDependencyIds := compileDependencyIds + {Id(dependency)};
    }
    assert compile[..|compile|] == compile;
    scope := RUNTIME_SCOPE;
    ghost var emitted := CompileEntries(compile);
    assert runtime[0..] == runtime;
    for i := 0 to |runtime|
      invariant dependenciesNode == NodeOf(emitted)
      invariant emitted + RuntimeEntries(compileDependencyIds, runtime[i..]) == DependencyEntries(compile, runtime)
    {
      var dependency := runtime[i];
      var id := Id(dependency);
      assert runtime[i..][0] == dependency && runtime[i..][1..] == runtime[i + 1..];
      if id !in compileDependencyIds {
        if dependenciesNode.None? {
          dependenciesNode := Some([]);
        }
        dependenciesNode := Some(dependenciesNode.value + [DependencyEntry(dependency.group, dependency.name, dependency.version, scope)]);
        emitted := emitted + [EntryOf(dependency, RUNTIME_SCOPE)];
        compileDependencyIds := compileDependencyIds + {id};
      }
    }
    assert runtime[|runtime|..] == [];
    assert RuntimeEntries(compileDependencyIds, []) == [];
    assert emitted == DependencyEntries(compile, runtime);
  }

  /** The ids of some entries. */
  function EntryIds(es: seq<DependencyEntry>): set<string> {
    set e | e in es :: EntryId(e)
  }

  /** The entries a scope gives to some dependencies. */
  function EntriesOf(ms: seq<ModuleId>, scope: string): set<DependencyEntry> {
    set m | m in ms :: EntryOf(m, scope)
  }

  /** The compile dependencies come first, in order, with scope "compile";
    * every entry after them has scope "runtime". */
  lemma CompileEntriesFirst(compile: seq<ModuleId>, runtime: seq<ModuleId>)
    ensures |compile| <= |DependencyEntries(compile, runtime)|
    ensures forall i :: 0 <= i < |compile| ==> DependencyEntries(compile, runtime)[i] == EntryOf(compile[i], COMPILE_SCOPE)
    ensures forall i :: |compile| <= i < |DependencyEntries(compile, runtime)| ==> DependencyEntries(compile, runtime)[i].scope == RUNTIME_SCOPE
  {
    var es := DependencyEntries(compile, runtime);
    var r := RuntimeEntries(IdSet(compile), runtime);
    RuntimeEntriesFresh(IdSet(compile), runtime);
    assert es == CompileEntries(compile) + r;
    forall i | |compile| <= i < |es| ensures es[i].scope == RUNTIME_SCOPE {
      assert es[i] == r[i - |compile|] && es[i] in r;
    }
  }

  /** The runtime entries have scope "runtime", none repeats an id emitted
    * before it, and no two share an id. */
  lemma {:induction false} RuntimeEntriesFresh(seen: set<string>, ms: seq<ModuleId>)
    ensures forall e :: e in RuntimeEntries(seen, ms) ==> e.scope == RUNTIME_SCOPE && EntryId(e) !in seen
    ensures forall i, j :: 0 <= i < j < |RuntimeEntries(seen, ms)| ==>
      EntryId(RuntimeEntries(seen, ms)[i]) != EntryId(RuntimeEntries(seen, ms)[j])
    decreases |ms|
  {
    if |ms| > 0 {
      var id := Id(ms[0]);
      if id in seen {
        assert RuntimeEntries(seen, ms) == RuntimeEntries(seen, ms[1..]);
        RuntimeEntriesFresh(seen, ms[1..]);
      } else {
        var head := EntryOf(ms[0], RUNTIME_SCOPE);
        var rest := RuntimeEntries(seen + {id}, ms[1..]);
        RuntimeEntriesFresh(seen + {id}, ms[1..]);
        var r := RuntimeEntries(seen, ms);
        assert r == [head] + rest;
        assert EntryId(head) == id;
        forall e | e in r ensures e.scope == RUNTIME_SCOPE && EntryId(e) !in seen {
          if e != head {
            assert e in rest;
          }
        }
        forall i, j | 0 <= i < j < |r| ensures EntryId(r[i]) != EntryId(r[j]) {
          assert r[j] == rest[j - 1] && r[j] in rest;
          if i > 0 {
            assert r[i] == rest[i - 1];
          }
        }
      }
    }
  }

  /** A runtime dependency gets an entry unless its id was emitted before. */
  lemma {:induction false} RuntimeEntriesComplete(seen: set<string>, ms: seq<ModuleId>)
    ensures forall m :: m in ms ==> Id(m) in seen || Id(m) in EntryIds(RuntimeEntries(seen, ms))
    decreases |ms|
  {
    if |ms| > 0 {
      var id := Id(ms[0]);
      var r := RuntimeEntries(seen, ms);
      if id in seen {
        assert r == RuntimeEntries(seen, ms[1..]);
        RuntimeEntriesComplete(seen, ms[1..]);
        forall m | m in ms ensures Id(m) in seen || Id(m) in EntryIds(r) {
          if m != ms[0] {
            assert m in ms[1..];
          }
        }
      } else {
        var head := EntryOf(ms[0], RUNTIME_SCOPE);
        var rest := RuntimeEntries(seen + {id}, ms[1..]);
        RuntimeEntriesComplete(seen + {id}, ms[1..]);
        assert r == [head] + rest;
        assert EntryIds(r) == {id} + EntryIds(rest);
        forall m | m in ms ensures Id(m) in seen || Id(m) in EntryIds(r) {
          if m != ms[0] {
            assert m in ms[1..];
          }
        }
      }
    }
  }

  /** Every runtime entry is the runtime entry of a runtime dependency. */
  lemma {:induction false} RuntimeEntriesSound(seen: set<string>, ms: seq<ModuleId>)
    ensures forall e :: e in RuntimeEntries(seen, ms) ==> e in EntriesOf(ms, RUNTIME_SCOPE)
    decreases |ms|
  {
    if |ms| > 0 {
      var id := Id(ms[0]);
      var r := RuntimeEntries(seen, ms);
      assert EntriesOf(ms, RUNTIME_SCOPE) == {EntryOf(ms[0], RUNTIME_SCOPE)} + EntriesOf(ms[1..], RUNTIME_SCOPE) by {
        assert forall m :: m in ms <==> m == ms[0] || m in ms[1..];
      }
      if id in seen {
        assert r == RuntimeEntries(seen, ms[1..]);
        RuntimeEntriesSound(seen, ms[1..]);
      } else {
        assert r == [EntryOf(ms[0], RUNTIME_SCOPE)] + RuntimeEntries(seen + {id}, ms[1..]);
        RuntimeEntriesSound(seen + {id}, ms[1..]);
      }
    }
  }

  /** Every dependency of either classpath is in the POM under its id: a
    * runtime one either shares the id of a compile one or has its own
    * runtime entry. */
  lemma EveryDependencyListed(compile: seq<ModuleId>, runtime: seq<ModuleId>)
    ensures forall m :: m in compile || m in runtime ==> Id(m) in EntryIds(DependencyEntries(compile, runtime))
  {
    var es := DependencyEntries(compile, runtime);
    var r := RuntimeEntries(IdSet(compile), runtime);
    RuntimeEntriesComplete(IdSet(compile), runtime);
    assert es == CompileEntries(compile) + r;
    assert EntryIds(es) == EntryIds(CompileEntries(compile)) + EntryIds(r);
    forall m | m in compile || m in runtime ensures Id(m) in EntryIds(es) {
      if Id(m) in IdSet(compile) {
        var c :| c in compile && Id(c) == Id(m);
        var k :| 0 <= k < |compile| && compile[k] == c;
        assert CompileEntries(compile)[k] in CompileEntries(compile);
      }
    }
  }

  /** The dependencies node is left out exactly when neither classpath has a
    * dependency: with no compile ids, the first runtime one is emitted. */
  lemma NodeAbsentIff(compile: seq<ModuleId>, runtime: seq<ModuleId>)
    ensures NodeOf(DependencyEntries(compile, runtime)).None? <==> |compile| == 0 && |runtime| == 0
  {
    if |compile| == 0 && |runtime| > 0 {
      assert IdSet(compile) == {};
      assert |RuntimeEntries({}, runtime)| > 0;
    }
  }

  predicate ColonFree(s: string) {
    forall i :: 0 <= i < |s| ==> s[i] != ':'
  }

  /** The colon right after the head, and what the head's own characters are. */
  lemma ColonAfter(x: string, xs: string)
    ensures (x + ":" + xs)[|x|] == ':' && (x + ":" + xs)[..|x|] == x && (x + ":" + xs)[|x| + 1..] == xs
    ensures forall k :: 0 <= k < |x| ==> (x + ":" + xs)[k] == x[k]
  {
  }

  /** A colon-free head is recovered from "head:rest". */
  lemma SplitAtColon(x: string, xs: string, y: string, ys: string)
    requires ColonFree(x) && ColonFree(y) && x + ":" + xs == y + ":" + ys
    ensures x == y && xs == ys
  {
    ColonAfter(x, xs);
    ColonAfter(y, ys);
    if |x| != |y| {
      assert false;
    }
  }

  /** With no colon in groups and names, the id determines the module. */
  lemma IdInjective(a: ModuleId, b: ModuleId)
    requires ColonFree(a.group) && ColonFree(a.name) && ColonFree(b.group) && ColonFree(b.name)
    requires Id(a) == Id(b)
    ensures a == b
  {
    assert Id(a) == a.group + ":" + (a.name + ":" + a.version);
    assert Id(b) == b.group + ":" + (b.name + ":" + b.version);
    SplitAtColon(a.group, a.name + ":" + a.version, b.group, b.name + ":" + b.version);
    SplitAtColon(a.name, a.version, b.name, b.version);
  }

  /** Each group:name:version appears at most once in the POM, given what
    * getDependencies yields for the compile classpath (no module twice) and
    * Maven coordinates (no colon in a group or a name). */
  lemma EntriesAtMostOnce(compile: seq<ModuleId>, runtime: seq<ModuleId>)
    requires Distinct(compile)
    requires forall m :: m in compile ==> ColonFree(m.group) && ColonFree(m.name)
    ensures forall i, j :: 0 <= i < j < |DependencyEntries(compile, runtime)| ==>
      EntryId(DependencyEntries(compile, runtime)[i]) != EntryId(DependencyEntries(compile, runtime)[j])
  {
    var es := DependencyEntries(compile, runtime);
    var ce := CompileEntries(compile);
    var r := RuntimeEntries(IdSet(compile), runtime);
    RuntimeEntriesFresh(IdSet(compile), runtime);
    assert es == ce + r;
    forall i, j | 0 <= i < j < |es| ensures EntryId(es[i]) != EntryId(es[j]) {
      if j < |compile| {
        assert es[i] == ce[i] && es[j] == ce[j];
        assert EntryId(es[i]) == Id(compile[i]) && EntryId(es[j]) == Id(compile[j]);
        assert compile[i] != compile[j] && compile[i] in compile && compile[j] in compile;
        if EntryId(es[i]) == EntryId(es[j]) {
          IdInjective(compile[i], compile[j]);
        }
      } else if i < |compile| {
        assert es[i] == ce[i] && EntryId(es[i]) == Id(compile[i]);
        assert es[j] == r[j - |compile|] && es[j] in r;
        assert compile[i] in compile && Id(compile[i]) in IdSet(compile);
      } else {
        assert es[i] == r[i - |compile|] && es[j] == r[j - |compile|];
      }
    }
  }

  /** The artifacts the publication carries, from the jar tasks. */
  datatype ArtifactTask = HyperSourcesJar | HyperDocJar | HyperJar

  const UNSUPPORTED_PACKAGING := "不支持的打包类型 '"

  /** The exception message as the template is written: "$publication"
    * renders the whole publication and ".packaging" stays literal text. */
  function UnsupportedPackagingMessageAsWritten(publication: Publication): string {
    UNSUPPORTED_PACKAGING + PublicationText(publication) + ".packaging'"
  }

  /** The message naming the packaging, as "${publication.packaging}" would. */
  function UnsupportedPackagingMessage(publication: Publication): string {
    UNSUPPORTED_PACKAGING + publication.packaging + "'"
  }

  /** The packaging check as written. */
  function PublicationArtifactsAsWritten(publication: Publication): (r: Result<seq<ArtifactTask>, string>)
    ensures r.Ok? <==> publication.packaging == JAR_PACKAGING
    ensures r.Ok? ==> r.value == [HyperSourcesJar, HyperDocJar, HyperJar]
    ensures r.Err? ==> |UNSUPPORTED_PACKAGING| + 12 <= |r.error|
    ensures r.Err? ==> r.error[..|UNSUPPORTED_PACKAGING|] == UNSUPPORTED_PACKAGING
    ensures r.Err? ==> r.error[|UNSUPPORTED_PACKAGING|..|UNSUPPORTED_PACKAGING| + 12] == "Publication("
  {
    if publication.packaging == JAR_PACKAGING then Ok([HyperSourcesJar, HyperDocJar, HyperJar])
    else
      var message := UnsupportedPackagingMessageAsWritten(publication);
      var text := PublicationText(publication);
      assert message == UNSUPPORTED_PACKAGING + (text + ".packaging'");
      assert message[|UNSUPPORTED_PACKAGING|..|UNSUPPORTED_PACKAGING| + 12] == text[..12];
      Err(message)
  }

  /** The packaging check: a jar publication carries the sources, javadoc
    * and main jars; any other packaging is refused, naming it. */
  function PublicationArtifacts(publication: Publication): (r: Result<seq<ArtifactTask>, string>)
    ensures r.Ok? <==> publication.packaging == JAR_PACKAGING
    ensures r.Ok? ==> r.value == [HyperSourcesJar, HyperDocJar, HyperJar]
    ensures r.Err? ==> |UNSUPPORTED_PACKAGING| <= |r.error|
    ensures r.Err? ==> r.error[..|UNSUPPORTED_PACKAGING|] == UNSUPPORTED_PACKAGING
    ensures r.Err? ==> r.error[|UNSUPPORTED_PACKAGING|..] == publication.packaging + "'"
  {
    if publication.packaging == JAR_PACKAGING then Ok([HyperSourcesJar, HyperDocJar, HyperJar])
    else
      var message := UnsupportedPackagingMessage(publication);
      assert message == UNSUPPORTED_PACKAGING + (publication.packaging + "'");
      Err(message)
  }

  /** A "war" publication: the message as written quotes the rendering of
    * the whole publication rather than "war". */
  lemma PackagingMessageCounterexample()
    ensures var p := Publication(None, None, "war", "2024", None, Scm("u", "c", "d"), None);
      && PublicationArtifactsAsWritten(p).Err? && PublicationArtifacts(p).Err?
      && PublicationArtifactsAsWritten(p).error != PublicationArtifacts(p).error
  {
    var p := Publication(None, None, "war", "2024", None, Scm("u", "c", "d"), None);
    var n := |UNSUPPORTED_PACKAGING|;
    var asWritten, intended := PublicationArtifactsAsWritten(p).error, PublicationArtifacts(p).error;
    assert asWritten[n] == asWritten[n..n + 12][0] == 'P';
    assert intended[n] == intended[n..][0] == 'w';
  }

  const SIGNING_EXECUTABLE := "signing.gnupg.executable"
  const SIGNING_KEY_NAME := "signing.gnupg.keyName"
  const SIGNING_PASSPHRASE := "signing.gnupg.passphrase"

  /** A project property as Project.property finds it: undefined (None),
    * defined with the value null (Some(None)), or defined with a text. */
  type PropertyValue = Option<Option<string>>

  /** The gnupg properties signing needs. */
  datatype SigningProperties = SigningProperties(executable: PropertyValue, keyName: PropertyValue, passphrase: PropertyValue)

  /** MissingPropertyException, naming the undefined property. */
  datatype SigningError = MissingProperty(name: string)

  /** All three properties are defined with a non-null text. */
  predicate AllSet(p: SigningProperties) {
    && p.executable.Some? && p.executable.value.Some?
    && p.keyName.Some? && p.keyName.value.Some?
    && p.passphrase.Some? && p.passphrase.value.Some?
  }

  /** What tryConfigureSigning sets up: the plugin it applies and the
    * publications it signs with the gpg command. */
  datatype SigningSetup = SigningSetup(pluginId: string, signed: seq<string>)

  /** tryConfigureSigning as written: the three properties are read in turn
    * with Project.property, which throws for an undefined one; signing is
    * set up when all three are non-null and skipped when one is null. */
  function TryConfigureSigning(properties: SigningProperties, publications: seq<string>): (r: Result<Option<SigningSetup>, SigningError>)
    ensures r.Err? <==> properties.executable.None? || properties.keyName.None? || properties.passphrase.None?
    ensures r.Err? ==> r.error == MissingProperty(
      if properties.executable.None? then SIGNING_EXECUTABLE
      else if properties.keyName.None? then SIGNING_KEY_NAME
      else SIGNING_PASSPHRASE)
    ensures r.Ok? ==> (r.value.Some? <==> AllSet(properties))
    ensures r.Ok? && r.value.Some? ==> r.value.value == SigningSetup(SIGNING_PLUGIN_ID, publications)
  {
    if properties.executable.None? then Err(MissingProperty(SIGNING_EXECUTABLE))
    else if properties.keyName.None? then Err(MissingProperty(SIGNING_KEY_NAME))
    else if properties.passphrase.None? then Err(MissingProperty(SIGNING_PASSPHRASE))
    else
      var executable, keyName, passphrase := properties.executable.value, properties.keyName.value, properties.passphrase.value;
      if executable.Some? && keyName.Some? && passphrase.Some? then Ok(Some(SigningSetup(SIGNING_PLUGIN_ID, publications)))
      else Ok(None)
  }

  /** The input that shows it: a build that defines none of the gnupg
    * properties fails on the first one instead of skipping signing. */
  lemma UndefinedSigningFails(publications: seq<string>)
    ensures TryConfigureSigning(SigningProperties(None, None, None), publications) == Err(MissingProperty(SIGNING_EXECUTABLE))
  {
  }

  /** tryConfigureSigning as evidently intended (Project.findProperty): an
    * undefined property skips signing like a null one. */
  function TryConfigureSigningCorrected(properties: SigningProperties, publications: seq<string>): (r: Option<SigningSetup>)
    ensures r.Some? <==> AllSet(properties)
    ensures r.Some? ==> r.value == SigningSetup(SIGNING_PLUGIN_ID, publications)
  {
    var executable := if properties.executable.Some? then properties.executable.value else None;
    var keyName := if properties.keyName.Some? then properties.keyName.value else None;
    var passphrase := if properties.passphrase.Some? then properties.passphrase.value else None;
    if executable.Some? && keyName.Some? && passphrase.Some? then Some(SigningSetup(SIGNING_PLUGIN_ID, publications))
    else None
  }

  /** The corrected gate never fails, agrees with the code whenever the code
    * does not throw, and skips signing where the code throws. */
  lemma SigningCorrectedAgrees(properties: SigningProperties, publications: seq<string>)
    ensures TryConfigureSigning(properties, publications).Ok?
      ==> TryConfigureSigning(properties, publications).value == TryConfigureSigningCorrected(properties, publications)
    ensures TryConfigureSigning(properties, publications).Err?
      ==> TryConfigureSigningCorrected(properties, publications).None?
  {
  }

  /** The descriptive part of the POM. */
  datatype Pom = Pom(
    name: string,
    description: Option<string>,
    packaging: string,
    url: Option<string>,
    inceptionYear: string,
    organization: Option<Organization>,
    developers: seq<Developer>,
    licenses: seq<License>,
    scm: Scm)

  /** The pom block: the name is the project's; description, URL,
    * organization and license are set only when the publication has them;
    * one developer element per build developer, in order. */
  function ConfigurePom(projectName: string, publication: Publication, developers: seq<Developer>): (pom: Pom)
    ensures pom.name == projectName && pom.developers == developers
    ensures |pom.licenses| <= 1 && (|pom.licenses| == 1 <==> publication.license.Some?)
  {
    Pom(projectName, publication.description, publication.packaging, publication.url, publication.inceptionYear,
        publication.organization, developers,
        if publication.license.Some? then [publication.license.value] else [],
        publication.scm)
  }

  /** The publication the POM describes. */
  function PublicationOf(pom: Pom): Publication {
    Publication(pom.description, pom.url, pom.packaging, pom.inceptionYear, pom.organization, pom.scm,
      if |pom.licenses| == 0 then None else Some(pom.licenses[0]))
  }

  /** The POM loses nothing of the publication: it can be read back. */
  lemma PomRoundTrip(projectName: string, publication: Publication, developers: seq<Developer>)
    ensures PublicationOf(ConfigurePom(projectName, publication, developers)) == publication
  {
  }
}
