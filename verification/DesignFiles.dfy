/**
  The design as one record and as the files of `specs/design/`: `SplitDesign` writes the
  files, `AssembleDesign` reads the record back. The YAML codec is a parameter.
*/
module DesignFiles {
  import opened Design
  import opened Frontmatter
  import opened Strings
  import opened Wrappers

  datatype DesignFile = DesignFile(overview: string, components: seq<Component>, sourceSpec: string)

  datatype ComponentFront = ComponentFront(
    componentType: string,
    language: string,
    dependsOn: seq<string>,
    buildpack: string,
    appPath: string,
    entrypoint: string,
    api: Option<string>,
    auth: Option<ComponentAuth>,
    dependentApis: seq<DependentApi>)

  const EMPTY_FRONT := ComponentFront("", "", [], "", "", "", None, None, [])

  type CodecError = string

  datatype Codec = Codec(
    encode: ComponentFront -> Result<string, CodecError>,
    decode: string -> Result<ComponentFront, CodecError>,
    decodeRoot: string -> Result<string, CodecError>)

  datatype Error = MissingRoot | EmptyName | BadFence | BadYaml(error: CodecError)

  type Files = map<string, string>

  const ROOT := "design.md"
  const COMPONENTS := "components/"

  function Path(name: string, file: string): string {
    COMPONENTS + name + "/" + file
  }

  // ---- Writing -----------------------------------------------------------------

  function Complete(apis: seq<DependentApi>): seq<DependentApi> {
    if apis == [] then []
    else
      var rest, last := Complete(apis[..|apis| - 1]), apis[|apis| - 1];
      if last.name == "" || last.url == "" then rest else rest + [last]
  }

  method CompleteApis(apis: seq<DependentApi>) returns (out: seq<DependentApi>)
    ensures out == Complete(apis)
  {
    out := [];
    for i := 0 to |apis|
      invariant out == Complete(apis[..i])
    {
      assert apis[..i + 1][..i] == apis[..i];
      if apis[i].name != "" && apis[i].url != "" { out := out + [apis[i]]; }
    }
    assert apis[..|apis|] == apis;
  }

  /** Dependent APIs without a name or an address are left out. */
  lemma {:induction false} CompleteHas(apis: seq<DependentApi>, a: DependentApi)
    ensures a in Complete(apis) <==> a in apis && a.name != "" && a.url != ""
  {
    if apis != [] {
      var n := |apis| - 1;
      assert apis == apis[..n] + [apis[n]];
      CompleteHas(apis[..n], a);
    }
  }

  function FrontOf(c: Component): ComponentFront {
    ComponentFront(c.componentType, c.language, c.dependsOn, c.buildpack, c.appPath, c.entrypoint,
                   if c.apiSecurity == Some("") then None else c.apiSecurity,
                   if c.auth.Some? && c.auth.value.kind == "" then None else c.auth,
                   Complete(c.dependentApis))
  }

  /** Each field of the front matter is the component's own. */
  lemma FrontFields(c: Component)
    ensures var f := FrontOf(c);
            && f.componentType == c.componentType && f.language == c.language && f.dependsOn == c.dependsOn
            && f.buildpack == c.buildpack && f.appPath == c.appPath && f.entrypoint == c.entrypoint
            && (f.api.Some? <==> c.apiSecurity.Some? && c.apiSecurity.value != "") &&
              (f.api.Some? ==> f.api == c.apiSecurity)
            && (f.auth.Some? <==> c.auth.Some? && c.auth.value.kind != "") && (f.auth.Some? ==> f.auth == c.auth)
  {
  }

  /** `marshalFrontmatter`. */
  function Marshal(codec: Codec, front: ComponentFront): Result<string, CodecError> {
    match codec.encode(front)
    case Err(e) => Err(e)
    case Ok(text) => Ok(if TrimSpace(text) == "{}" then "" else TrimSpace(text))
  }

  function Instructions(c: Component): string {
    "# " + c.name + "\n\n" + TrimSpace(c.instructions) + "\n"
  }

  function WriteComponent(codec: Codec, files: Files, c: Component): Result<Files, Error> {
    if c.name == "" then Err(EmptyName)
    else
      match Marshal(codec, FrontOf(c))
      case Err(e) => Err(BadYaml(e))
      case Ok(fm) =>
        var files' := files[Path(c.name, "design.md") := JoinFrontmatter(fm, Instructions(c))];
        Ok(if TrimSpace(c.openApiSpec) == "" then files'
           else files'[Path(c.name, "openapi.yaml") := TrimSpace(c.openApiSpec) + "\n"])
  }

  lemma PathsDiffer(name: string)
    ensures var design, spec := "components/" + name + "/design.md", "components/" + name + "/openapi.yaml";
            Path(name, "design.md") == design && Path(name, "openapi.yaml") == spec && design != spec
  {
    var design, spec := "components/" + name + "/design.md", "components/" + name + "/openapi.yaml";
    assert Path(name, "design.md") == design && Path(name, "openapi.yaml") == spec;
    assert design[|design| - 1] == 'd' && spec[|spec| - 1] == 'l';
  }

  /**
    The files of one component, and what they hold: a block unless the codec writes nothing, the
    heading, the instructions.
  */
  lemma ComponentFiles(codec: Codec, files: Files, c: Component, fm: string)
    requires c.name != "" && codec.encode(FrontOf(c)).Ok? && fm == TrimSpace(codec.encode(FrontOf(c)).value)
    ensures var design, spec := "components/" + c.name + "/design.md", "components/" + c.name + "/openapi.yaml";
            var text := "# " + c.name + "\n\n" + TrimSpace(c.instructions) + "\n";
            var r := WriteComponent(codec, files, c);
            && r.Ok? && design in r.value
            && r.value[design] == (if fm == "" || fm == "{}" then text else "---\n" + fm + "\n---\n\n" + text)
            && (TrimSpace(c.openApiSpec) != "" ==> spec in r.value && r.value[spec] == TrimSpace(c.openApiSpec) + "\n")
            && r.value.Keys == files.Keys + {design} + (if TrimSpace(c.openApiSpec) == "" then {} else {spec})
            && forall p :: p in files && p != design && p != spec ==> r.value[p] == files[p]
  {
    PathsDiffer(c.name);
    JoinedFront(codec.encode(FrontOf(c)).value, fm, Instructions(c));
  }

  lemma JoinedFront(text: string, fm: string, body: string)
    requires fm == TrimSpace(text) && body != "" && body[0] == '#'
    ensures JoinFrontmatter(if fm == "{}" then "" else fm, body) ==
            if fm == "" || fm == "{}" then body else "---\n" + fm + "\n---\n\n" + body
  {
    TrimmedFront(text, fm);
  }

  lemma TrimmedFront(text: string, fm: string)
    requires fm == TrimSpace(text)
    ensures TrimSpace(fm) == fm && TrimSpace("") == ""
  {
    var pre, post := TrimSpaceSplits(text);
    TrimSpaceTrimmed(fm);
    TrimSpaceTrimmed("");
  }

  function RootText(d: DesignFile): string {
    TrimSpace(d.overview) + "\n"
  }

  function WriteComponents(codec: Codec, files: Files, cs: seq<Component>): Result<Files, Error> {
    if cs == [] then Ok(files)
    else
      match WriteComponents(codec, files, cs[..|cs| - 1])
      case Err(e) => Err(e)
      case Ok(files') => WriteComponent(codec, files', cs[|cs| - 1])
  }

  function Unpacked(codec: Codec, d: DesignFile): Result<Files, Error> {
    WriteComponents(codec, map[ROOT := RootText(d)], d.components)
  }

  lemma {:induction false} WriteStops(codec: Codec, files: Files, cs: seq<Component>, i: nat)
    requires i <= |cs| && WriteComponents(codec, files, cs[..i]).Err?
    ensures WriteComponents(codec, files, cs) == WriteComponents(codec, files, cs[..i])
    decreases |cs|
  {
    if i == |cs| {
      assert cs[..i] == cs;
    } else {
      assert cs[..|cs| - 1][..i] == cs[..i];
      WriteStops(codec, files, cs[..|cs| - 1], i);
    }
  }

  lemma {:induction false} WriteNext(codec: Codec, files: Files, cs: seq<Component>, i: nat, out: Files)
    requires i < |cs| && WriteComponents(codec, files, cs[..i]) == Ok(out)
    ensures WriteComponents(codec, files, cs[..i + 1]) == WriteComponent(codec, out, cs[i])
  {
    assert cs[..i + 1][..i] == cs[..i];
  }

  /** The files of one component. */
  method AddComponent(codec: Codec, files: Files, c: Component) returns (r: Result<Files, Error>)
    ensures r == WriteComponent(codec, files, c)
  {
    if c.name == "" { return Err(EmptyName); }
    var apis := CompleteApis(c.dependentApis);
    var front :=
      ComponentFront(c.componentType, c.language, c.dependsOn, c.buildpack, c.appPath, c.entrypoint, None, None, apis);
    if c.apiSecurity.Some? && c.apiSecurity.value != "" { front := front.(api := c.apiSecurity); }
    if c.auth.Some? && c.auth.value.kind != "" { front := front.(auth := c.auth); }
    assert front == FrontOf(c);
    var fm := Marshal(codec, front);
    if fm.Err? { return Err(BadYaml(fm.error)); }
    var out := files[Path(c.name, "design.md") := JoinFrontmatter(fm.value, Instructions(c))];
    var openapi := TrimSpace(c.openApiSpec);
    if openapi != "" { out := out[Path(c.name, "openapi.yaml") := openapi + "\n"]; }
    r := Ok(out);
  }

  /** A component without a name stops the split, and nothing else does with this error. */
  lemma {:induction false} NamesWritten(codec: Codec, files: Files, cs: seq<Component>)
    ensures WriteComponents(codec, files, cs).Ok? ==> forall c :: c in cs ==> c.name != ""
    ensures WriteComponents(codec, files, cs) == Err(EmptyName) ==> exists c :: c in cs && c.name == ""
  {
    if cs != [] {
      var n := |cs| - 1;
      NamesWritten(codec, files, cs[..n]);
      assert cs == cs[..n] + [cs[n]];
    }
  }

  /** Without components there is the overview's file alone. */
  lemma OverviewFile(codec: Codec, overview: string, source: string)
    ensures Unpacked(codec, DesignFile(overview, [], source)) == Ok(map["design.md" := TrimSpace(overview) + "\n"])
  {
  }

  /** `SplitDesign`. */
  method SplitDesign(codec: Codec, d: DesignFile) returns (r: Result<Files, Error>)
    ensures r == Unpacked(codec, d)
  {
    var out := map[ROOT := RootText(d)];
    ghost var start := out;
    var cs := d.components;
    for i := 0 to |cs|
      invariant WriteComponents(codec, start, cs[..i]) == Ok(out)
    {
      WriteNext(codec, start, cs, i, out);
      r := AddComponent(codec, out, cs[i]);
      if r.Err? {
        WriteStops(codec, start, cs, i + 1);
        return;
      }
      out := r.value;
    }
    assert cs[..|cs|] == cs;
    r := Ok(out);
  }

  // ---- Reading -----------------------------------------------------------------

  predicate UnderComponent(p: string) {
    COMPONENTS <= p && 0 < IndexOf(p[|COMPONENTS|..], '/') < |p| - |COMPONENTS|
  }

  function Dir(p: string): string
    requires UnderComponent(p)
  {
    p[|COMPONENTS|..][..IndexOf(p[|COMPONENTS|..], '/')]
  }

  function NamesIn(files: Files): set<string> {
    set p | p in files && UnderComponent(p) :: Dir(p)
  }

  /** The names are those of the directories below `components` that hold a file. */
  lemma {:induction false} DirectoryIff(files: Files, name: string)
    ensures name in NamesIn(files) <==>
      name != "" && '/' !in name && exists file: string :: "components/" + name + "/" + file in files
  {
    if name in NamesIn(files) {
      var p :| p in files && UnderComponent(p) && Dir(p) == name;
      var rest := p[|COMPONENTS|..];
      IndexOfFound(rest, '/');
      var file := rest[|name| + 1..];
      assert rest == name + ['/'] + file;
      assert p == "components/" + name + "/" + file;
    }
    if name != "" && '/' !in name {
      if file: string :| "components/" + name + "/" + file in files {
        var p := "components/" + name + "/" + file;
        assert p[|COMPONENTS|..] == name + ['/'] + file;
        IndexOfAfter(name, '/', file);
        assert (name + ['/'] + file)[..|name|] == name;
        assert UnderComponent(p) && Dir(p) == name;
      }
    }
  }

  /** The sorted listing of a set. */
  ghost function Listing(s: set<string>): (names: seq<string>)
    ensures Sorted(names) && multiset(names) == multiset(s)
  {
    if s == {} then []
    else
      var x :| x in s;
      var rest := Listing(s - {x});
      InsertSorted(x, rest);
      InsertElements(x, rest);
      assert s == s - {x} + {x};
      Insert(x, rest)
  }

  /** `componentNamesIn`. */
  method ComponentNamesIn(files: Files) returns (names: seq<string>)
    ensures names == Listing(NamesIn(files))
  {
    var seen := DirsOf(files);
    names := [];
    var left := seen;
    while left != {}
      invariant left <= seen && multiset(names) == multiset(seen - left)
      decreases left
    {
      var n :| n in left;
      assert seen - (left - {n}) == seen - left + {n};
      left := left - {n};
      names := names + [n];
    }
    assert seen - left == seen;
    SortSorts(names);
    names := Sort(names);
    SortedUnique(names, Listing(seen));
  }

  method DirsOf(files: Files) returns (seen: set<string>)
    ensures seen == NamesIn(files)
  {
    seen := {};
    var todo := files.Keys;
    while todo != {}
      invariant todo <= files.Keys
      invariant forall p :: p in files && p !in todo && UnderComponent(p) ==> Dir(p) in seen
      invariant seen <= NamesIn(files)
      decreases todo
    {
      var p :| p in todo;
      todo := todo - {p};
      if UnderComponent(p) { seen := seen + {Dir(p)}; }
    }
  }

  function Text(files: Files, p: string): string {
    if p in files then files[p] else ""
  }

  function SpecIn(files: Files, name: string): string {
    var yaml := Text(files, Path(name, "openapi.yaml"));
    if yaml == "" then Text(files, Path(name, "openapi.yml")) else yaml
  }

  function ComponentFrom(name: string, front: ComponentFront, body: string, spec: string): Component {
    Component(name, front.componentType, front.language, front.dependsOn, front.entrypoint, front.buildpack,
              front.appPath,
              spec, TrimSpace(body),
              if front.api == Some("") then None else front.api,
              if front.auth.Some? && front.auth.value.kind == "" then None else front.auth,
              Complete(front.dependentApis))
  }

  /** What is read back for a component: every field from its own key, and the `.yml` file when there is no other. */
  lemma FieldsRead(name: string, front: ComponentFront, body: string, files: Files)
    ensures var c := ComponentFrom(name, front, body, SpecIn(files, name));
            && c.name == name && c.componentType == front.componentType && c.language == front.language
            && c.dependsOn == front.dependsOn && c.buildpack == front.buildpack && c.appPath == front.appPath
            && c.entrypoint == front.entrypoint && c.instructions == TrimSpace(body)
            && (c.apiSecurity.Some? <==> front.api.Some? && front.api.value != "")
            && (c.auth.Some? <==> front.auth.Some? && front.auth.value.kind != "")
    ensures var yaml, yml := "components/" + name + "/openapi.yaml", "components/" + name + "/openapi.yml";
            SpecIn(files, name) ==
              if yaml in files && files[yaml] != "" then files[yaml] else if yml in files then files[yml] else ""
  {
    assert Path(name, "openapi.yaml") == "components/" + name + "/openapi.yaml";
    assert Path(name, "openapi.yml") == "components/" + name + "/openapi.yml";
  }

  function AssembleComponent(codec: Codec, name: string, text: string, files: Files): Result<Component, Error> {
    match SplitFrontmatter(text)
    case Err(_) => Err(BadFence)
    case Ok(parts) =>
      match if parts.fm == "" then Ok(EMPTY_FRONT) else codec.decode(parts.fm)
      case Err(e) => Err(BadYaml(e))
      case Ok(front) => Ok(ComponentFrom(name, front, parts.body, SpecIn(files, name)))
  }

  /** A file without a block gives the name, the specification and the instructions, and nothing else. */
  lemma NoBlockRead(codec: Codec, name: string, text: string, files: Files)
    requires AfterFence(text).None?
    ensures AssembleComponent(codec, name, text, files) ==
      Ok(Component(name, "", "", [], "", "", "", SpecIn(files, name), TrimSpace(text), None, None, []))
  {
  }

  /** The component of one directory, added to those read so far; a directory without a design.md is passed over. */
  function AssembleNamed(codec: Codec, name: string, files: Files, cs: seq<Component>): Result<seq<Component>, Error> {
    var path := Path(name, "design.md");
    if path !in files then Ok(cs)
    else
      match AssembleComponent(codec, name, files[path], files)
      case Err(e) => Err(e)
      case Ok(c) => Ok(cs + [c])
  }

  function AssembleComponents(codec: Codec, names: seq<string>, files: Files): Result<seq<Component>, Error> {
    if names == [] then Ok([])
    else
      match AssembleComponents(codec, names[..|names| - 1], files)
      case Err(e) => Err(e)
      case Ok(cs) => AssembleNamed(codec, names[|names| - 1], files, cs)
  }

  function ReadRoot(codec: Codec, files: Files): Result<DesignFile, Error> {
    if ROOT !in files then Err(MissingRoot)
    else
      match SplitFrontmatter(files[ROOT])
      case Err(_) => Err(BadFence)
      case Ok(parts) =>
        match if parts.fm == "" then Ok("") else codec.decodeRoot(parts.fm)
        case Err(e) => Err(BadYaml(e))
        case Ok(source) => Ok(DesignFile(TrimSpace(parts.body), [], source))
  }

  ghost function Assembled(codec: Codec, files: Files): Result<DesignFile, Error> {
    match ReadRoot(codec, files)
    case Err(e) => Err(e)
    case Ok(root) =>
      match AssembleComponents(codec, Listing(NamesIn(files)), files)
      case Err(e) => Err(e)
      case Ok(cs) => Ok(root.(components := cs))
  }

  lemma {:induction false} AssembleStops(codec: Codec, names: seq<string>, files: Files, i: nat)
    requires i <= |names| && AssembleComponents(codec, names[..i], files).Err?
    ensures AssembleComponents(codec, names, files) == AssembleComponents(codec, names[..i], files)
    decreases |names|
  {
    if i == |names| {
      assert names[..i] == names;
    } else {
      assert names[..|names| - 1][..i] == names[..i];
      AssembleStops(codec, names[..|names| - 1], files, i);
    }
  }

  lemma {:induction false} AssembleNext(codec: Codec, names: seq<string>, files: Files, i: nat, cs: seq<Component>)
    requires i < |names| && AssembleComponents(codec, names[..i], files) == Ok(cs)
    ensures AssembleComponents(codec, names[..i + 1], files) == AssembleNamed(codec, names[i], files, cs)
  {
    assert names[..i + 1][..i] == names[..i];
  }

  lemma {:induction false} NeverMissing(codec: Codec, names: seq<string>, files: Files)
    ensures AssembleComponents(codec, names, files) != Err(MissingRoot)
  {
    if names != [] { NeverMissing(codec, names[..|names| - 1], files); }
  }

  lemma {:induction false} MissingIff(codec: Codec, files: Files)
    ensures Assembled(codec, files) == Err(MissingRoot) <==> "design.md" !in files
  {
    NeverMissing(codec, Listing(NamesIn(files)), files);
  }

  /** `AssembleDesign`. */
  method AssembleDesign(codec: Codec, files: Files) returns (r: Result<DesignFile, Error>)
    ensures r == Assembled(codec, files)
    ensures r == Err(MissingRoot) <==> "design.md" !in files
  {
    MissingIff(codec, files);
    var root := ReadRoot(codec, files);
    if root.Err? { return Err(root.error); }
    var names := ComponentNamesIn(files);
    var cs: seq<Component> := [];
    for i := 0 to |names|
      invariant AssembleComponents(codec, names[..i], files) == Ok(cs)
    {
      AssembleNext(codec, names, files, i, cs);
      var next := AssembleNamed(codec, names[i], files, cs);
      if next.Err? {
        AssembleStops(codec, names, files, i + 1);
        return Err(next.error);
      }
      cs := next.value;
    }
    assert names[..|names|] == names;
    r := Ok(root.value.(components := cs));
  }
}
