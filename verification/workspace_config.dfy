/**
 * Reading the Angular CLI workspace file and choosing a project from it
 * (src/lib/schematics/utils/devkit-utils/config.ts).
 */
module WorkspaceConfig {
  import opened Wrappers
  import opened Strings

  /** The file `getWorkspace` reads from the schematic's tree. */
  const WorkspacePath: string := "/angular.json"

  datatype ProjectType = Application | Library

  /** The `options` object of an architect target; only the style entries matter here. */
  datatype BuildOptions = BuildOptions(styles: Option<seq<StyleEntry>>)

  /**
   * One element of the `styles` array of the build options: an object with an `input` path,
   * or a bare path string, the other form the workspace file accepts.
   */
  datatype StyleEntry = StyleObject(input: string) | StylePath(path: string)

  /** An architect target such as `build`. */
  datatype Target = Target(index: Option<string>, options: Option<BuildOptions>)

  /** A project of the workspace; `architect` maps target names to targets. */
  datatype Project = Project(
    name: string,
    projectType: ProjectType,
    root: string,
    architect: Option<map<string, Target>>)

  /** The parsed workspace: `projects` may be missing from the file. */
  datatype Workspace = Workspace(version: int, projects: Option<map<string, Project>>)

  /** The exceptions the two operations throw. */
  datatype ConfigError =
    | NoWorkspaceFile
    | NoProjectNamed(name: string)
    | MultipleProjects
    | NoProjectsDefined

  /** The message each exception carries; a missing project is named in its message. */
  function Message(e: ConfigError): (m: string)
    ensures e.NoProjectNamed? ==> Contains(m, e.name)
  {
    assert e.NoProjectNamed? ==> OccursAt("No project named \"" + e.name + "\" exists.", e.name, 18);
    match e
    case NoWorkspaceFile => "Could not find angular.json"
    case NoProjectNamed(n) => "No project named \"" + n + "\" exists."
    case MultipleProjects => "Multiple projects are defined; " + "please specify a project name"
    case NoProjectsDefined => "No projects are defined"
  }

  /**
   * `getWorkspace`: `read` is the tree (`None` when the file is absent) and `parse` stands
   * for `JSON.parse` of the file's text.
   */
  function GetWorkspace(read: string -> Option<string>, parse: string -> Workspace): (r: Result<Workspace, ConfigError>)
    ensures r.Failure? <==> read(WorkspacePath).None?
    ensures r.Failure? ==> r.error == NoWorkspaceFile
    ensures r.Success? ==> r.value == parse(read(WorkspacePath).value)
  {
    match read(WorkspacePath)
    case None => Failure(NoWorkspaceFile)
    case Some(text) => Success(parse(text))
  }

  /**
   * The result of `getProjectFromWorkspace`: the workspace after the call (the source
   * assigns `project.name` in place, even on a path that then throws) and what the call
   * returns or throws.
   */
  datatype Lookup = Lookup(workspace: Workspace, result: Result<Project, ConfigError>)

  /** The workspace with project `key` renamed to `name`; `key` must be present. */
  function Rename(config: Workspace, key: string, name: string): (w: Workspace)
    requires config.projects.Some? && key in config.projects.value
    ensures w.version == config.version && w.projects.Some?
    ensures w.projects.value.Keys == config.projects.value.Keys
    ensures w.projects.value[key] == config.projects.value[key].(name := name)
    ensures forall k :: k in config.projects.value && k != key ==>
      w.projects.value[k] == config.projects.value[k]
  {
    var ps := config.projects.value;
    config.(projects := Some(ps[key := ps[key].(name := name)]))
  }

  /** A map with one entry has exactly one key. */
  lemma SingleKey<K, V>(m: map<K, V>)
    requires |m| == 1
    ensures forall x, y :: x in m && y in m ==> x == y
  {
    forall x, y | x in m && y in m
      ensures x == y
    {
      if x != y {
        assert {x, y} <= m.Keys;
        assert |{x, y}| == 2;
        SubsetCard({x, y}, m.Keys);
        assert false;
      }
    }
  }

  /** A subset is no larger than its superset. */
  lemma SubsetCard<K>(a: set<K>, b: set<K>)
    requires a <= b
    ensures |a| <= |b|
  {
    assert b == a + (b - a);
  }

  /** "No project named …" differs from each fixed message at its first or eleventh character. */
  lemma NamedMessageDiffers(e1: ConfigError, e2: ConfigError)
    requires e1.NoProjectNamed? && !e2.NoProjectNamed?
    ensures Message(e1) != Message(e2)
  {
    var m1, m2 := Message(e1), Message(e2);
    assert m1[0] == 'N' && m1[10] == ' ';
    match e2
    case NoWorkspaceFile => assert m2[0] == 'C';
    case MultipleProjects => assert m2[0] == 'M';
    case NoProjectsDefined => assert m2[10] == 's';
  }

  /** Different exceptions carry different messages. */
  lemma MessagesDistinct(e1: ConfigError, e2: ConfigError)
    requires e1 != e2
    ensures Message(e1) != Message(e2)
  {
    var m1, m2 := Message(e1), Message(e2);
    if e1.NoProjectNamed? && e2.NoProjectNamed? {
      if m1 == m2 {
        var prefix, suffix := "No project named \"", "\" exists.";
        assert m1 == prefix + (e1.name + suffix) && m2 == prefix + (e2.name + suffix);
        PrefixCancel(prefix, e1.name + suffix, e2.name + suffix);
        SuffixCancel(e1.name, e2.name, suffix);
      }
    } else if e1.NoProjectNamed? {
      NamedMessageDiffers(e1, e2);
    } else if e2.NoProjectNamed? {
      NamedMessageDiffers(e2, e1);
    }
  }

  /** `getProjectFromWorkspace(config, projectName)` as the code is written. */
  function GetProjectFromWorkspace(config: Workspace, projectName: Option<string>): (r: Lookup)
    // A missing `projects` field always throws "No projects are defined".
    ensures config.projects.None? ==> r == Lookup(config, Failure(NoProjectsDefined))
    // A given name selects that project and stamps its name on it, or throws.
    ensures config.projects.Some? && TruthyText(projectName) ==>
      if projectName.value in config.projects.value then
        && r.result == Success(config.projects.value[projectName.value].(name := projectName.value))
        && r.workspace == Rename(config, projectName.value, projectName.value)
      else
        r == Lookup(config, Failure(NoProjectNamed(projectName.value)))
    // Without a name, the call never succeeds; a sole project is renamed on the way.
    ensures config.projects.Some? && !TruthyText(projectName) ==>
      && r.result == Failure(if |config.projects.value| == 1 then NoProjectsDefined else MultipleProjects)
      && (|config.projects.value| != 1 ==> r.workspace == config)
      && (forall k :: k in config.projects.value && |config.projects.value| == 1 ==>
            r.workspace == Rename(config, k, k))
    ensures r.result.Success? ==> TruthyText(projectName) && r.result.value.name == projectName.value
  {
    match config.projects
    case None => Lookup(config, Failure(NoProjectsDefined))
    case Some(projects) =>
      if TruthyText(projectName) then
        var name := projectName.value;
        if name !in projects then Lookup(config, Failure(NoProjectNamed(name)))
        else Lookup(Rename(config, name, name), Success(projects[name].(name := name)))
      else if |projects| == 1 then
        SingleKey(projects);
        var only :| only in projects;
        // The sole project is renamed, then control falls through to the final throw.
        Lookup(Rename(config, only, only), Failure(NoProjectsDefined))
      else
        Lookup(config, Failure(MultipleProjects))
  }

  /**
   * With exactly one project and no name, the documented behaviour is to return that
   * project, but the code throws "No projects are defined" after renaming it.
   */
  lemma SingleProjectThrows(config: Workspace, projectName: Option<string>, key: string)
    requires !TruthyText(projectName)
    requires config.projects.Some? && config.projects.value.Keys == {key}
    ensures GetProjectFromWorkspace(config, projectName).result == Failure(NoProjectsDefined)
    ensures GetProjectFromWorkspace(config, projectName).workspace == Rename(config, key, key)
  {
    assert |config.projects.value.Keys| == 1;
  }

  /** The evidently intended lookup: the single-project case returns that project. */
  function GetProjectIntended(config: Workspace, projectName: Option<string>): (r: Lookup)
    ensures config.projects.Some? && !TruthyText(projectName) && |config.projects.value| == 1 ==>
      r.result.Success? && r.result.value.name in config.projects.value
      && r.result.value == config.projects.value[r.result.value.name].(name := r.result.value.name)
    ensures !(config.projects.Some? && !TruthyText(projectName) && |config.projects.value| == 1) ==>
      r == GetProjectFromWorkspace(config, projectName)
    ensures r.result.Success? ==>
      && r.workspace.projects.Some?
      && r.result.value.name in r.workspace.projects.value
      && r.workspace.projects.value[r.result.value.name] == r.result.value
  {
    match config.projects
    case Some(projects) =>
      if !TruthyText(projectName) && |projects| == 1 then
        SingleKey(projects);
        var only :| only in projects;
        Lookup(Rename(config, only, only), Success(projects[only].(name := only)))
      else GetProjectFromWorkspace(config, projectName)
    case None => GetProjectFromWorkspace(config, projectName)
  }
}
