/** What `AssembleDesign` gives back after `SplitDesign`, and exactly when it gives anything back. */
module DesignRoundTrip {
  import opened Design
  import opened DesignFiles
  import opened Frontmatter
  import opened Sequences
  import opened Strings
  import opened Wrappers

  /** The codec reads back this front matter from its trimmed text, which is a block of its own. */
  ghost predicate Faithful(codec: Codec, front: ComponentFront) {
    && codec.encode(front).Ok?
    && var t := TrimSpace(codec.encode(front).value);
       t != "" && t != "{}" && !HasFenceLine(t) && codec.decode(t) == Ok(front)
  }

  ghost predicate AllFaithful(codec: Codec, cs: seq<Component>) {
    forall i :: 0 <= i < |cs| ==> Faithful(codec, FrontOf(cs[i]))
  }

  /** A blank specification has no file; any other ends in one line break. */
  function NormalSpec(spec: string): string {
    if TrimSpace(spec) == "" then "" else TrimSpace(spec) + "\n"
  }

  function Normal(c: Component): Component {
    c.(openApiSpec := NormalSpec(c.openApiSpec),
       instructions := TrimSpace(Instructions(c)),
       apiSecurity := if c.apiSecurity == Some("") then None else c.apiSecurity,
       auth := if c.auth.Some? && c.auth.value.kind == "" then None else c.auth,
       dependentApis := Complete(c.dependentApis))
  }

  function Names(cs: seq<Component>): seq<string> {
    Map((c: Component) => c.name, cs)
  }

  function Normals(cs: seq<Component>): seq<Component> {
    Map(Normal, cs)
  }

  /**
    out holds the components of d, each in its normal form, sorted by name; the files do not carry the
    source specification.
  */
  predicate IsNormalOf(out: DesignFile, d: DesignFile) {
    && out.overview == TrimSpace(d.overview)
    && out.sourceSpec == ""
    && multiset(out.components) == multiset(Normals(d.components))
    && Sorted(Names(out.components))
  }

  /** Names that can be directory names of their own. */
  predicate Storable(cs: seq<Component>) {
    && (forall i :: 0 <= i < |cs| ==> cs[i].name != "" && '/' !in cs[i].name)
    && (forall i, j :: 0 <= i < j < |cs| ==> cs[i].name != cs[j].name)
  }

  // ---- Paths -------------------------------------------------------------------

  lemma PathParts(name: string, file: string)
    requires '/' !in name
    ensures UnderComponent(Path(name, file)) <==> name != ""
    ensures name != "" ==> Dir(Path(name, file)) == name
    ensures Path(name, file) != ROOT
  {
    var p := Path(name, file);
    assert p[|COMPONENTS|..] == name + ['/'] + file;
    IndexOfAfter(name, '/', file);
    assert (name + ['/'] + file)[..|name|] == name;
    assert p[0] == 'c' && ROOT[0] == 'd';
  }

  lemma PathInjective(name: string, file: string, name': string, file': string)
    requires '/' !in name && '/' !in name' && Path(name, file) == Path(name', file')
    ensures name == name' && file == file'
  {
    var p := Path(name, file);
    assert p[|COMPONENTS|..] == name + ['/'] + file == name' + ['/'] + file';
    SplitOnce(name, name', '/', file, file');
  }

  // ---- What was written is there -----------------------------------------------

  function DesignText(codec: Codec, c: Component): string
    requires codec.encode(FrontOf(c)).Ok?
  {
    JoinFrontmatter(TrimSpace(codec.encode(FrontOf(c)).value), Instructions(c))
  }

  lemma WriteOne(codec: Codec, files: Files, c: Component)
    requires c.name != "" && Faithful(codec, FrontOf(c))
    ensures WriteComponent(codec, files, c).Ok?
    ensures var files' := files[Path(c.name, "design.md") := DesignText(codec, c)];
            WriteComponent(codec, files, c).value ==
            if TrimSpace(c.openApiSpec) == "" then files'
            else files'[Path(c.name, "openapi.yaml") := TrimSpace(c.openApiSpec) + "\n"]
  {
  }

  lemma {:induction false} WriteAll(codec: Codec, files: Files, cs: seq<Component>)
    requires AllFaithful(codec, cs) && forall i :: 0 <= i < |cs| ==> cs[i].name != ""
    ensures WriteComponents(codec, files, cs).Ok?
  {
    if cs != [] {
      WriteAll(codec, files, cs[..|cs| - 1]);
      WriteOne(codec, WriteComponents(codec, files, cs[..|cs| - 1]).value, cs[|cs| - 1]);
    }
  }

  function Written(codec: Codec, files: Files, cs: seq<Component>): Files
    requires WriteComponents(codec, files, cs).Ok?
  {
    WriteComponents(codec, files, cs).value
  }

  /** A directory that no component names keeps what it had. */
  lemma {:induction false} OthersKept(codec: Codec, files: Files, cs: seq<Component>, name: string, file: string)
    requires Storable(cs) && AllFaithful(codec, cs) && WriteComponents(codec, files, cs).Ok?
    requires '/' !in name && forall i :: 0 <= i < |cs| ==> cs[i].name != name
    ensures Path(name, file) in Written(codec, files, cs) <==> Path(name, file) in files
    ensures Path(name, file) in files ==> Written(codec, files, cs)[Path(name, file)] == files[Path(name, file)]
  {
    if cs != [] {
      var c := cs[|cs| - 1];
      OthersKept(codec, files, cs[..|cs| - 1], name, file);
      OneKept(codec, Written(codec, files, cs[..|cs| - 1]), c, name, file);
    }
  }

  lemma OneKept(codec: Codec, files: Files, c: Component, name: string, file: string)
    requires c.name != "" && Faithful(codec, FrontOf(c)) && '/' !in name && '/' !in c.name && c.name != name
    ensures WriteComponent(codec, files, c).Ok?
    ensures Path(name, file) in WriteComponent(codec, files, c).value <==> Path(name, file) in files
    ensures Path(name, file) in files ==>
      WriteComponent(codec, files, c).value[Path(name, file)] == files[Path(name, file)]
  {
    WriteOne(codec, files, c);
    if Path(name, file) == Path(c.name, "design.md") { PathInjective(name, file, c.name, "design.md"); }
    if Path(name, file) == Path(c.name, "openapi.yaml") { PathInjective(name, file, c.name, "openapi.yaml"); }
  }

  ghost predicate Holds(codec: Codec, files: Files, c: Component)
    requires codec.encode(FrontOf(c)).Ok?
  {
    && Path(c.name, "design.md") in files
    && files[Path(c.name, "design.md")] == DesignText(codec, c)
    && Text(files, Path(c.name, "openapi.yaml")) == NormalSpec(c.openApiSpec)
    && Path(c.name, "openapi.yml") !in files
  }

  lemma OneHolds(codec: Codec, files: Files, c: Component)
    requires c.name != "" && '/' !in c.name && Faithful(codec, FrontOf(c))
    requires Path(c.name, "openapi.yaml") !in files && Path(c.name, "openapi.yml") !in files
    ensures WriteComponent(codec, files, c).Ok? && Holds(codec, WriteComponent(codec, files, c).value, c)
  {
    WriteOne(codec, files, c);
    var d, y, x := "design.md", "openapi.yaml", "openapi.yml";
    if Path(c.name, d) == Path(c.name, y) { PathInjective(c.name, d, c.name, y); }
    if Path(c.name, d) == Path(c.name, x) { PathInjective(c.name, d, c.name, x); }
    if Path(c.name, x) == Path(c.name, y) { PathInjective(c.name, x, c.name, y); }
  }

  lemma PrefixGood(codec: Codec, cs: seq<Component>)
    requires cs != [] && Storable(cs) && AllFaithful(codec, cs)
    ensures Storable(cs[..|cs| - 1]) && AllFaithful(codec, cs[..|cs| - 1])
  {
  }

  lemma HoldsKept(codec: Codec, files: Files, c: Component, other: Component)
    requires other.name != "" && Faithful(codec, FrontOf(other)) && Faithful(codec, FrontOf(c))
    requires '/' !in c.name && '/' !in other.name && c.name != other.name && Holds(codec, files, c)
    ensures WriteComponent(codec, files, other).Ok? && Holds(codec, WriteComponent(codec, files, other).value, c)
  {
    OneKept(codec, files, other, c.name, "design.md");
    OneKept(codec, files, other, c.name, "openapi.yaml");
    OneKept(codec, files, other, c.name, "openapi.yml");
  }

  lemma {:induction false} LastHolds(codec: Codec, files: Files, cs: seq<Component>, n: nat, now: Files)
    requires Storable(cs) && n < |cs| && AllFaithful(codec, cs[..n]) && Faithful(codec, FrontOf(cs[n]))
    requires WriteComponents(codec, files, cs[..n]).Ok? && forall p :: p in files ==> p == ROOT
    requires WriteComponent(codec, Written(codec, files, cs[..n]), cs[n]) == Ok(now)
    ensures Holds(codec, now, cs[n])
  {
    var c := cs[n];
    PathParts(c.name, "openapi.yaml");
    PathParts(c.name, "openapi.yml");
    OthersKept(codec, files, cs[..n], c.name, "openapi.yaml");
    OthersKept(codec, files, cs[..n], c.name, "openapi.yml");
    OneHolds(codec, Written(codec, files, cs[..n]), c);
  }

  lemma EarlierHolds(codec: Codec, was: Files, now: Files, cs: seq<Component>, i: nat, last: Component)
    requires Storable(cs) && i < |cs| - 1 && last == cs[|cs| - 1]
    requires Faithful(codec, FrontOf(cs[i])) && Faithful(codec, FrontOf(last))
    requires Holds(codec, was, cs[i]) && WriteComponent(codec, was, last) == Ok(now)
    ensures Holds(codec, now, cs[i])
  {
    HoldsKept(codec, was, cs[i], last);
  }

  /** The last of the components is written by one more step. */
  lemma {:induction false} WrittenNext(codec: Codec, files: Files, cs: seq<Component>, n: nat)
    requires n == |cs| - 1 && Storable(cs) && AllFaithful(codec, cs) && WriteComponents(codec, files, cs).Ok?
    ensures Storable(cs[..n]) && AllFaithful(codec, cs[..n]) && WriteComponents(codec, files, cs[..n]).Ok?
    ensures WriteComponent(codec, Written(codec, files, cs[..n]), cs[n]) == Ok(Written(codec, files, cs))
    ensures Faithful(codec, FrontOf(cs[n]))
  {
    PrefixGood(codec, cs);
  }

  /** After writing all, every component's files hold what it wrote. */
  lemma {:induction false} AllHold(codec: Codec, files: Files, cs: seq<Component>, i: nat)
    requires Storable(cs) && AllFaithful(codec, cs) && i < |cs| && WriteComponents(codec, files, cs).Ok?
    requires forall p :: p in files ==> p == ROOT
    ensures Holds(codec, Written(codec, files, cs), cs[i])
  {
    var n := |cs| - 1;
    WrittenNext(codec, files, cs, n);
    if i == n {
      LastHolds(codec, files, cs, n, Written(codec, files, cs));
    } else {
      AllHold(codec, files, cs[..n], i);
      EarlierHolds(codec, Written(codec, files, cs[..n]), Written(codec, files, cs), cs, i, cs[n]);
    }
  }

  lemma {:induction false} RootKept(codec: Codec, files: Files, cs: seq<Component>)
    requires ROOT in files && WriteComponents(codec, files, cs).Ok?
    ensures ROOT in Written(codec, files, cs) && Written(codec, files, cs)[ROOT] == files[ROOT]
  {
    if cs != [] {
      RootKept(codec, files, cs[..|cs| - 1]);
      var name := cs[|cs| - 1].name;
      assert Path(name, "design.md")[0] == 'c' && Path(name, "openapi.yaml")[0] == 'c' && ROOT[0] == 'd';
    }
  }

  // ---- The directories -----------------------------------------------------------

  lemma NamesInMore(files: Files, name: string, file: string, text: string)
    requires name != "" && '/' !in name
    ensures NamesIn(files[Path(name, file) := text]) == NamesIn(files) + {name}
  {
    PathParts(name, file);
    var files' := files[Path(name, file) := text];
    assert Path(name, file) in files';
    forall n | n in NamesIn(files)
      ensures n in NamesIn(files')
    {
      var p :| p in files && UnderComponent(p) && n == Dir(p);
      assert p in files';
    }
  }

  function NameSet(cs: seq<Component>): set<string> {
    if cs == [] then {} else NameSet(cs[..|cs| - 1]) + {cs[|cs| - 1].name}
  }

  lemma NamesWrittenOne(codec: Codec, files: Files, c: Component)
    requires c.name != "" && '/' !in c.name && Faithful(codec, FrontOf(c))
    ensures WriteComponent(codec, files, c).Ok?
    ensures NamesIn(WriteComponent(codec, files, c).value) == NamesIn(files) + {c.name}
  {
    WriteOne(codec, files, c);
    var middle := files[Path(c.name, "design.md") := DesignText(codec, c)];
    NamesInMore(files, c.name, "design.md", DesignText(codec, c));
    NamesInMore(middle, c.name, "openapi.yaml", TrimSpace(c.openApiSpec) + "\n");
  }

  lemma {:induction false} NamesWritten(codec: Codec, files: Files, cs: seq<Component>)
    requires Storable(cs) && AllFaithful(codec, cs) && WriteComponents(codec, files, cs).Ok?
    requires NamesIn(files) == {}
    ensures NamesIn(Written(codec, files, cs)) == NameSet(cs)
  {
    if cs != [] {
      PrefixGood(codec, cs);
      NamesWritten(codec, files, cs[..|cs| - 1]);
      NamesWrittenOne(codec, Written(codec, files, cs[..|cs| - 1]), cs[|cs| - 1]);
    }
  }

  lemma {:induction false} NameSetMembers(cs: seq<Component>, name: string)
    ensures name in NameSet(cs) <==> exists i :: 0 <= i < |cs| && cs[i].name == name
  {
    if cs != [] {
      var n := |cs| - 1;
      NameSetMembers(cs[..n], name);
      if name in NameSet(cs[..n]) {
        var i :| 0 <= i < n && cs[..n][i].name == name;
        assert cs[i].name == name;
      }
      if i :| 0 <= i < |cs| && cs[i].name == name {
        if i < n { assert cs[..n][i].name == name; }
      }
    }
  }

  lemma OneMoreMember(s: set<string>, x: string)
    requires x !in s
    ensures multiset(s + {x}) == multiset(s) + multiset{x}
  {
  }

  lemma {:induction false} NameSetElements(cs: seq<Component>)
    requires Storable(cs)
    ensures multiset(NameSet(cs)) == multiset(Names(cs))
  {
    if cs != [] {
      var n := |cs| - 1;
      NameSetElements(cs[..n]);
      NameSetMembers(cs[..n], cs[n].name);
      OneMoreMember(NameSet(cs[..n]), cs[n].name);
      assert Names(cs) == Names(cs[..n]) + [cs[n].name];
    }
  }

  // ---- Reading one component back --------------------------------------------------

  lemma BodyReads(c: Component)
    ensures TrimSpace("\n" + TrimLeftOf(Instructions(c), {'\r', '\n'})) == TrimSpace(Instructions(c))
  {
    var t := Instructions(c);
    assert t[0] == '#';
    assert TrimLeftOf(t, {'\r', '\n'}) == t;
    assert TrimLeft("\n" + t) == TrimLeft(t) by {
      assert ("\n" + t)[1..] == t;
    }
  }

  lemma {:induction false} CompleteTwice(apis: seq<DependentApi>)
    ensures Complete(Complete(apis)) == Complete(apis)
  {
    CompleteKeeps(apis);
    AllCompleteKept(Complete(apis));
  }

  lemma {:induction false} CompleteKeeps(apis: seq<DependentApi>)
    ensures forall i :: 0 <= i < |Complete(apis)| ==> Complete(apis)[i].name != "" && Complete(apis)[i].url != ""
  {
    if apis != [] { CompleteKeeps(apis[..|apis| - 1]); }
  }

  lemma {:induction false} AllCompleteKept(apis: seq<DependentApi>)
    requires forall i :: 0 <= i < |apis| ==> apis[i].name != "" && apis[i].url != ""
    ensures Complete(apis) == apis
  {
    if apis != [] { AllCompleteKept(apis[..|apis| - 1]); }
  }

  lemma ComponentReads(codec: Codec, files: Files, c: Component)
    requires Faithful(codec, FrontOf(c)) && Holds(codec, files, c)
    ensures AssembleComponent(codec, c.name, DesignText(codec, c), files) == Ok(Normal(c))
  {
    var t := TrimSpace(codec.encode(FrontOf(c)).value);
    var pre, post := TrimSpaceSplits(codec.encode(FrontOf(c)).value);
    SplitJoinIff(t, Instructions(c));
    BodyReads(c);
    CompleteTwice(c.dependentApis);
    assert SpecIn(files, c.name) == NormalSpec(c.openApiSpec);
  }

  // ---- Reading all the components back -----------------------------------------------

  /** The normal form of the component of each name. */
  function Table(cs: seq<Component>): map<string, Component> {
    if cs == [] then map[] else Table(cs[..|cs| - 1])[cs[|cs| - 1].name := Normal(cs[|cs| - 1])]
  }

  lemma {:induction false} TableLookup(cs: seq<Component>, i: nat)
    requires Storable(cs) && i < |cs|
    ensures cs[i].name in Table(cs) && Table(cs)[cs[i].name] == Normal(cs[i])
  {
    if i < |cs| - 1 { TableLookup(cs[..|cs| - 1], i); }
  }

  lemma {:induction false} TableNames(cs: seq<Component>)
    ensures Table(cs).Keys == NameSet(cs)
  {
    if cs != [] { TableNames(cs[..|cs| - 1]); }
  }

  /** Reading a directory of the table gives the table's component. */
  ghost predicate ReadsAs(codec: Codec, files: Files, table: map<string, Component>) {
    forall name :: name in table ==>
      Path(name, "design.md") in files &&
      AssembleComponent(codec, name, files[Path(name, "design.md")], files) == Ok(table[name])
  }

  lemma {:induction false} WrittenReads(codec: Codec, files: Files, cs: seq<Component>)
    requires Storable(cs) && AllFaithful(codec, cs) && WriteComponents(codec, files, cs).Ok?
    requires forall p :: p in files ==> p == ROOT
    ensures ReadsAs(codec, Written(codec, files, cs), Table(cs))
  {
    TableNames(cs);
    forall name | name in Table(cs)
      ensures Path(name, "design.md") in Written(codec, files, cs)
      ensures var w := Written(codec, files, cs);
              AssembleComponent(codec, name, w[Path(name, "design.md")], w) == Ok(Table(cs)[name])
    {
      NameSetMembers(cs, name);
      var i :| 0 <= i < |cs| && cs[i].name == name;
      AllHold(codec, files, cs, i);
      ComponentReads(codec, Written(codec, files, cs), cs[i]);
      TableLookup(cs, i);
    }
  }

  const BLANK := Component("", "", "", [], "", "", "", "", "", None, None, [])

  function Pick(table: map<string, Component>, name: string): Component {
    if name in table then table[name] else BLANK
  }

  function Chosen(table: map<string, Component>, names: seq<string>): seq<Component> {
    Map(name => Pick(table, name), names)
  }

  lemma ChosenMore(table: map<string, Component>, names: seq<string>, n: nat)
    requires n < |names|
    ensures Chosen(table, names[..n + 1]) == Chosen(table, names[..n]) + [Pick(table, names[n])]
  {
  }

  lemma NamedReadOne(codec: Codec, files: Files, table: map<string, Component>, name: string, cs: seq<Component>)
    requires ReadsAs(codec, files, table) && name in table
    ensures AssembleNamed(codec, name, files, cs) == Ok(cs + [Pick(table, name)])
  {
  }

  lemma {:induction false} NamedRead(
    codec: Codec, files: Files, table: map<string, Component>, names: seq<string>, n: nat)
    requires n <= |names| && ReadsAs(codec, files, table) && forall i :: 0 <= i < |names| ==> names[i] in table
    ensures AssembleComponents(codec, names[..n], files) == Ok(Chosen(table, names[..n]))
  {
    if n > 0 {
      var cs := Chosen(table, names[..n - 1]);
      NamedRead(codec, files, table, names, n - 1);
      NamedReadOne(codec, files, table, names[n - 1], cs);
      ChosenMore(table, names, n - 1);
      AssembleNext(codec, names, files, n - 1, cs);
    }
  }

  lemma {:induction false} TableNamed(cs: seq<Component>)
    ensures forall name :: name in Table(cs) ==> Table(cs)[name].name == name
  {
    if cs != [] { TableNamed(cs[..|cs| - 1]); }
  }

  /** Choosing the sorted listing of the names gives the normal forms, sorted by name. */
  lemma {:induction false} ChosenListing(cs: seq<Component>, names: seq<string>)
    requires Storable(cs) && Sorted(names) && multiset(names) == multiset(NameSet(cs))
    ensures forall i :: 0 <= i < |names| ==> names[i] in Table(cs)
    ensures multiset(Chosen(Table(cs), names)) == multiset(Normals(cs))
    ensures Names(Chosen(Table(cs), names)) == names
  {
    TableNames(cs);
    TableNamed(cs);
    NameSetElements(cs);
    forall i | 0 <= i < |names|
      ensures names[i] in Table(cs)
    {
      assert names[i] in multiset(names);
    }
    forall i | 0 <= i < |cs|
      ensures Names(cs)[i] in Table(cs) && Table(cs)[Names(cs)[i]] == Normal(cs[i])
    {
      TableLookup(cs, i);
    }
    MapPermutes(name => Pick(Table(cs), name), names, Names(cs));
    assert Chosen(Table(cs), Names(cs)) == Normals(cs);
  }

  lemma RootReads(codec: Codec, files: Files, d: DesignFile)
    requires ROOT in files && files[ROOT] == RootText(d) && AfterFence(RootText(d)).None?
    ensures ReadRoot(codec, files) == Ok(DesignFile(TrimSpace(d.overview), [], ""))
  {
    var o := TrimSpace(d.overview);
    var pre, post := TrimSpaceSplits(d.overview);
    TrimSpaceAround("", o, "\n");
    assert RootText(d) == "" + o + "\n";
  }

  /** The files of a design read back as its normal form. */
  lemma RoundTrip(codec: Codec, d: DesignFile)
    requires AllFaithful(codec, d.components) && Storable(d.components) && AfterFence(RootText(d)).None?
    ensures Unpacked(codec, d).Ok?
    ensures Assembled(codec, Unpacked(codec, d).value).Ok? &&
      IsNormalOf(Assembled(codec, Unpacked(codec, d).value).value, d)
  {
    var start, cs := map[ROOT := RootText(d)], d.components;
    WriteAll(codec, start, cs);
    var files := Written(codec, start, cs);
    RootKept(codec, start, cs);
    RootReads(codec, files, d);
    assert !UnderComponent(ROOT) && NamesIn(start) == {};
    NamesWritten(codec, start, cs);
    WrittenReads(codec, start, cs);
    var names := Listing(NamesIn(files));
    ChosenListing(cs, names);
    NamedRead(codec, files, Table(cs), names, |names|);
    assert names[..|names|] == names;
  }

  // ---- When it does not come back ----------------------------------------------------

  /** An overview that opens a fence does not come back: it is an error, or some of it is gone. */
  lemma FencedOverviewLost(codec: Codec, files: Files, d: DesignFile)
    requires ROOT in files && files[ROOT] == RootText(d) && AfterFence(RootText(d)).Some? && ReadRoot(codec, files).Ok?
    ensures ReadRoot(codec, files).value.overview != TrimSpace(d.overview)
  {
    AllBodyIff(RootText(d));
    TrimLength(SplitFrontmatter(RootText(d)).value.body);
  }

  lemma ReadNamesOne(codec: Codec, name: string, files: Files, cs: seq<Component>)
    requires AssembleNamed(codec, name, files, cs).Ok?
    ensures var next := AssembleNamed(codec, name, files, cs).value;
            next == cs || (|next| == |cs| + 1 && next[..|cs|] == cs && next[|cs|].name == name)
  {
  }

  lemma NamesMore(cs: seq<Component>, next: seq<Component>)
    requires |next| == |cs| + 1 && next[..|cs|] == cs
    ensures Names(next) == Names(cs) + [next[|cs|].name]
  {
    assert forall i :: 0 <= i < |cs| ==> next[i] == next[..|cs|][i];
  }

  lemma {:induction false} ReadNames(codec: Codec, names: seq<string>, files: Files, n: nat)
    requires n <= |names| && AssembleComponents(codec, names[..n], files).Ok?
    ensures multiset(Names(AssembleComponents(codec, names[..n], files).value)) <= multiset(names[..n])
  {
    if n > 0 {
      assert names[..n] == names[..n - 1] + [names[n - 1]];
      ReadPrefix(codec, names, files, n - 1);
      ReadNames(codec, names, files, n - 1);
      var cs := AssembleComponents(codec, names[..n - 1], files).value;
      AssembleNext(codec, names, files, n - 1, cs);
      var next := AssembleComponents(codec, names[..n], files).value;
      ReadNamesOne(codec, names[n - 1], files, cs);
      if next != cs { NamesMore(cs, next); }
    }
  }

  lemma {:induction false} ReadPrefix(codec: Codec, names: seq<string>, files: Files, n: nat)
    requires n < |names| && AssembleComponents(codec, names[..n + 1], files).Ok?
    ensures AssembleComponents(codec, names[..n], files).Ok?
  {
    assert names[..n + 1][..n] == names[..n];
  }

  lemma DirsStorable(files: Files, name: string)
    requires name in NamesIn(files)
    ensures name != "" && '/' !in name
  {
    var p :| p in files && UnderComponent(p) && Dir(p) == name;
    IndexOfFound(p[|COMPONENTS|..], '/');
  }

  /** Names that all come from directories can be stored. */
  lemma NamesBackStorable(cs: seq<Component>, dirs: set<string>)
    requires multiset(Names(cs)) <= multiset(dirs)
    requires forall name :: name in dirs ==> name != "" && '/' !in name
    ensures Storable(cs)
  {
    forall i | 0 <= i < |cs|
      ensures cs[i].name in dirs
    {
      assert Names(cs)[i] in multiset(Names(cs));
    }
    forall i, j | 0 <= i < j < |cs|
      ensures cs[i].name != cs[j].name
    {
      RepeatedTwice(Names(cs), i, j);
      assert multiset(Names(cs))[Names(cs)[j]] <= multiset(dirs)[Names(cs)[j]] <= 1;
    }
  }

  /** A design comes back exactly when its names are distinct directory names and its overview opens no fence. */
  lemma RoundTripIff(codec: Codec, d: DesignFile)
    requires AllFaithful(codec, d.components)
    ensures (Unpacked(codec, d).Ok? && Assembled(codec, Unpacked(codec, d).value).Ok?
             && IsNormalOf(Assembled(codec, Unpacked(codec, d).value).value, d))
            <==> Storable(d.components) && AfterFence(RootText(d)).None?
  {
    if Storable(d.components) && AfterFence(RootText(d)).None? {
      RoundTrip(codec, d);
    } else if Unpacked(codec, d).Ok? && Assembled(codec, Unpacked(codec, d).value).Ok? {
      var files := Unpacked(codec, d).value;
      RootKept(codec, map[ROOT := RootText(d)], d.components);
      var out := Assembled(codec, files).value;
      if AfterFence(RootText(d)).Some? {
        FencedOverviewLost(codec, files, d);
      } else if IsNormalOf(out, d) {
        var names := Listing(NamesIn(files));
        assert names[..|names|] == names;
        ReadNames(codec, names, files, |names|);
        MapPermutes((c: Component) => c.name, out.components, Normals(d.components));
        assert Names(Normals(d.components)) == Names(d.components);
        forall name | name in NamesIn(files)
          ensures name != "" && '/' !in name
        {
          DirsStorable(files, name);
        }
        NamesBackStorable(d.components, NamesIn(files));
      }
    }
  }

  // ---- Going round again ------------------------------------------------------------

  /** Every field but the instructions is already normal after one round. */
  lemma NormalTwice(c: Component)
    ensures Normal(Normal(c)).(instructions := Normal(c).instructions) == Normal(c)
  {
    CompleteTwice(c.dependentApis);
    var spec := TrimSpace(c.openApiSpec);
    var pre, post := TrimSpaceSplits(c.openApiSpec);
    TrimSpaceAround("", spec, "\n");
    assert "" + spec + "\n" == spec + "\n";
    TrimSpaceTrimmed("");
  }

  /** The heading does accumulate: each round puts another one before the instructions of the round before. */
  lemma HeadingAccumulates(c: Component)
    ensures Normal(Normal(c)).instructions == "# " + c.name + "\n\n" + Normal(c).instructions
  {
    var once := Normal(c).instructions;
    TrimKeepsFirst(Instructions(c));
    var pre, post := TrimSpaceSplits(Instructions(c));
    TrimSpaceTrimmed(once);
    var text := "# " + c.name + "\n\n" + once;
    assert text[|text| - 1] == once[|once| - 1];
    TrimSpaceAround("", text, "\n");
    assert "" + text + "\n" == Instructions(Normal(c));
  }
}
