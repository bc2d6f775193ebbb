/**
 * Choosing the index.html file and the root stylesheet of a project from its `build`
 * architect target (src/lib/schematics/utils/ast.ts). The regular expressions of the
 * source are unanchored, so each is a disjunction of substring tests; `normalize` from
 * the devkit is a parameter.
 */
module SchematicPaths {
  import opened Wrappers
  import opened Strings
  import opened WorkspaceConfig

  /** What the two lookups throw. */
  datatype PathError =
    | NoBuildTarget   // `project.architect['build']` is undefined: the source fails with a TypeError
    | NoIndexHtml     // "No index.html file was found."
    | NoStyleFiles    // "No style files could be found into which a theme could be added"

  /** `project.architect['build']`. */
  function BuildTarget(project: Project): (t: Option<Target>)
    ensures t.Some? <==> project.architect.Some? && "build" in project.architect.value
  {
    match project.architect
    case None => None
    case Some(targets) => if "build" in targets then Some(targets["build"]) else None
  }

  /** `getIndexHtmlPath`. */
  function GetIndexHtmlPath(project: Project): (r: Result<string, PathError>)
    ensures BuildTarget(project).None? ==> r == Failure(NoBuildTarget)
    ensures BuildTarget(project).Some? ==>
      var index := BuildTarget(project).value.index;
      if index.Some? && EndsWith(index.value, "index.html") then r == Success(index.value)
      else r == Failure(NoIndexHtml)
  {
    match BuildTarget(project)
    case None => Failure(NoBuildTarget)
    case Some(build) =>
      if build.index.Some? && build.index.value != "" && EndsWith(build.index.value, "index.html") then
        Success(build.index.value)
      else
        Failure(NoIndexHtml)
  }

  /** One of the alternatives of the group `(c|le|sc)ss` starts at position `i` of `a`. */
  predicate ExtensionAt(a: string, i: nat)
  {
    OccursAt(a, "css", i) || OccursAt(a, "less", i) || OccursAt(a, "scss", i)
  }

  /** Each substring test of a prefix and an alternative is the regular expression's match. */
  lemma ExtensionMatch(a: string, p: string)
    ensures (Contains(a, p + "css") || Contains(a, p + "less") || Contains(a, p + "scss"))
        <==> exists i: nat :: OccursAt(a, p, i) && ExtensionAt(a, i + |p|)
  {
    ContainsConcat(a, p, "css");
    ContainsConcat(a, p, "less");
    ContainsConcat(a, p, "scss");
  }

  /**
   * `/styles\.(c|le|sc)ss/.test(a)`: the default main stylesheet name appears somewhere in
   * the path, as three substring tests.
   */
  function IsMainStyle(a: string): (b: bool)
    ensures b <==> exists i: nat :: OccursAt(a, "styles.", i) && ExtensionAt(a, i + 7)
  {
    ExtensionMatch(a, "styles.");
    assert "styles.css" == "styles." + "css" && "styles.less" == "styles." + "less";
    assert "styles.scss" == "styles." + "scss";
    Contains(a, "styles.css") || Contains(a, "styles.less") || Contains(a, "styles.scss")
  }

  /**
   * `/\.(c|le|sc)ss/.test(a)`: a stylesheet extension appears somewhere in the path, as
   * three substring tests.
   */
  function IsStyleSheet(a: string): (b: bool)
    ensures b <==> exists i: nat :: OccursAt(a, ".", i) && ExtensionAt(a, i + 1)
  {
    ExtensionMatch(a, ".");
    assert ".css" == "." + "css" && ".less" == "." + "less" && ".scss" == "." + "scss";
    Contains(a, ".css") || Contains(a, ".less") || Contains(a, ".scss")
  }

  /** Every default main stylesheet path is also a stylesheet path. */
  lemma MainStyleIsStyleSheet(a: string)
    requires IsMainStyle(a)
    ensures IsStyleSheet(a)
  {
    if Contains(a, "styles.css") {
      ContainsSuffix("styles.css", 6);
      assert "styles.css"[6..] == ".css";
      ContainsTransitive(a, "styles.css", ".css");
    } else if Contains(a, "styles.less") {
      ContainsSuffix("styles.less", 6);
      assert "styles.less"[6..] == ".less";
      ContainsTransitive(a, "styles.less", ".less");
    } else {
      ContainsSuffix("styles.scss", 6);
      assert "styles.scss"[6..] == ".scss";
      ContainsTransitive(a, "styles.scss", ".scss");
    }
  }

  /** `Array.prototype.find` by position: the first index whose element satisfies `p`. */
  function FindFirst(xs: seq<string>, p: string -> bool): (r: Option<nat>)
    ensures r.Some? ==> r.value < |xs| && p(xs[r.value])
    ensures r.Some? ==> forall j :: 0 <= j < r.value ==> !p(xs[j])
    ensures r.None? <==> forall j :: 0 <= j < |xs| ==> !p(xs[j])
  {
    if |xs| == 0 then None
    else if p(xs[0]) then Some(0)
    else match FindFirst(xs[1..], p)
      case None => None
      case Some(i) => Some(i + 1)
  }

  /**
   * The text a regular expression tests for `s.input` when `s` is a bare path string: the
   * property is `undefined`, which `RegExp.prototype.test` converts to this string.
   */
  const UndefinedText: string := "undefined"

  /** `undefined` matches neither pattern, so a bare path string is never chosen. */
  lemma UndefinedMatchesNothing()
    ensures !IsStyleSheet(UndefinedText) && !IsMainStyle(UndefinedText)
  {
    assert '.' !in UndefinedText;
    if Contains(UndefinedText, ".css") { ContainsHead(UndefinedText, ".css"); }
    if Contains(UndefinedText, ".less") { ContainsHead(UndefinedText, ".less"); }
    if Contains(UndefinedText, ".scss") { ContainsHead(UndefinedText, ".scss"); }
    if IsMainStyle(UndefinedText) { MainStyleIsStyleSheet(UndefinedText); }
  }

  /** `s.input` for one entry, as the text the regular expressions test. */
  function InputText(s: StyleEntry): (r: string)
    ensures s.StyleObject? ==> r == s.input
    ensures s.StylePath? ==> !IsStyleSheet(r) && !IsMainStyle(r)
  {
    match s
    case StyleObject(input) => input
    case StylePath(_) => UndefinedMatchesNothing(); UndefinedText
  }

  /** The first element satisfying `p` sits at `j` when `p` holds there and nowhere before. */
  lemma FirstMatchAt(xs: seq<string>, p: string -> bool, j: nat)
    requires j < |xs| && p(xs[j])
    requires forall k :: 0 <= k < j ==> !p(xs[k])
    ensures FindFirst(xs, p) == Some(j)
  {
  }

  /** `styles.map(s => s.input)`. */
  function Inputs(styles: seq<StyleEntry>): (r: seq<string>)
    ensures |r| == |styles|
    ensures forall k :: 0 <= k < |styles| ==> r[k] == InputText(styles[k])
  {
    if |styles| == 0 then [] else [InputText(styles[0])] + Inputs(styles[1..])
  }

  /** `buildTarget.options.styles`, when the target, its options and the array are present. */
  function Styles(project: Project): (r: Option<seq<StyleEntry>>)
    ensures r.Some? <==>
      && BuildTarget(project).Some?
      && BuildTarget(project).value.options.Some?
      && BuildTarget(project).value.options.value.styles.Some?
    ensures r.Some? ==> r.value == BuildTarget(project).value.options.value.styles.value
  {
    match BuildTarget(project)
    case None => None
    case Some(build) =>
      match build.options
      case None => None
      case Some(options) => options.styles
  }

  /**
   * The inputs `getStylesPath` searches: present only when the target, its options and a
   * non-empty `styles` array are, and then the entries' inputs in order.
   */
  function StyleInputs(project: Project): (r: Option<seq<string>>)
    ensures r.Some? <==> Styles(project).Some? && |Styles(project).value| > 0
    ensures r.Some? ==> r.value == Inputs(Styles(project).value) && |r.value| > 0
  {
    match Styles(project)
    case None => None
    case Some(styles) => if |styles| == 0 then None else Some(Inputs(styles))
  }

  /** `getStylesPath`, with `normalize` supplied by the caller. */
  function GetStylesPath(project: Project, normalize: string -> string): (r: Result<string, PathError>)
    ensures BuildTarget(project).None? ==> r == Failure(NoBuildTarget)
    ensures BuildTarget(project).Some? && StyleInputs(project).None? ==> r == Failure(NoStyleFiles)
    // A bare path string in `styles` is never the result.
    ensures r.Success? ==>
      exists k :: 0 <= k < |Styles(project).value| && Styles(project).value[k].StyleObject?
        && r.value == normalize(Styles(project).value[k].input)
    ensures StyleInputs(project).Some? ==>
      var xs := StyleInputs(project).value;
      && (r.Success? <==> exists k :: 0 <= k < |xs| && IsStyleSheet(xs[k]))
      && (r.Failure? ==> r.error == NoStyleFiles)
      // A default main stylesheet, wherever it sits, is preferred: the first one wins.
      && (forall k :: 0 <= k < |xs| && IsMainStyle(xs[k]) ==>
            exists m :: 0 <= m <= k && IsMainStyle(xs[m]) && r == Success(normalize(xs[m]))
              && forall j :: 0 <= j < m ==> !IsMainStyle(xs[j]))
      // Otherwise the first stylesheet of any name.
      && ((forall k :: 0 <= k < |xs| ==> !IsMainStyle(xs[k])) ==>
            forall k :: 0 <= k < |xs| && IsStyleSheet(xs[k]) ==>
              exists m :: 0 <= m <= k && IsStyleSheet(xs[m]) && r == Success(normalize(xs[m]))
                && forall j :: 0 <= j < m ==> !IsStyleSheet(xs[j]))
    // Whatever is returned is the normalized form of one of the inputs.
    ensures r.Success? ==>
      && StyleInputs(project).Some?
      && exists k :: 0 <= k < |StyleInputs(project).value| && r.value == normalize(StyleInputs(project).value[k])
  {
    match BuildTarget(project)
    case None => Failure(NoBuildTarget)
    case Some(_) =>
      match StyleInputs(project)
      case None => Failure(NoStyleFiles)
      case Some(styles) =>
        match FindFirst(styles, IsMainStyle)
        case Some(m) =>
          MainStyleIsStyleSheet(styles[m]);
          Success(normalize(styles[m]))
        case None =>
          match FindFirst(styles, IsStyleSheet)
          case Some(m) => Success(normalize(styles[m]))
          case None => Failure(NoStyleFiles)
  }

  /**
   * A default main stylesheet wins over a plain stylesheet listed before it: the order of the
   * entries matters only among entries of the same rank.
   */
  lemma MainStyleBeatsEarlierSheet(project: Project, normalize: string -> string, i: nat, j: nat)
    requires StyleInputs(project).Some?
    requires i < j < |StyleInputs(project).value|
    requires IsStyleSheet(StyleInputs(project).value[i])
    requires forall k :: 0 <= k < j ==> !IsMainStyle(StyleInputs(project).value[k])
    requires IsMainStyle(StyleInputs(project).value[j])
    ensures GetStylesPath(project, normalize) == Success(normalize(StyleInputs(project).value[j]))
  {
    FirstMatchAt(StyleInputs(project).value, IsMainStyle, j);
  }

  /** With only bare path strings in `styles`, no stylesheet is found. */
  lemma BarePathsFindNothing(project: Project, normalize: string -> string)
    requires BuildTarget(project).Some? && Styles(project).Some?
    requires forall k :: 0 <= k < |Styles(project).value| ==> Styles(project).value[k].StylePath?
    ensures GetStylesPath(project, normalize) == Failure(NoStyleFiles)
  {
    if StyleInputs(project).Some? {
      var xs := StyleInputs(project).value;
      assert forall k :: 0 <= k < |xs| ==> !IsStyleSheet(xs[k]);
    }
  }

  /** `getIndexHtmlPath` looks at nothing but the `index` option of the `build` target. */
  lemma IndexHtmlOnlyReadsIndex(p: Project, q: Project)
    requires BuildTarget(p).Some? && BuildTarget(q).Some?
    requires BuildTarget(p).value.index == BuildTarget(q).value.index
    ensures GetIndexHtmlPath(p) == GetIndexHtmlPath(q)
  {
  }
}
