/**
  The component-level difference of two designs: which components are new, gone, or changed
  in their dependencies or API operations. Reading a specification is a parameter: it gives
  no document when the `yaml.Unmarshal` of `normalizeOpenAPIYAML` fails.
*/
module DesignDiff {
  import Design
  import opened OpenApi
  import opened OperationDiff
  import opened Sequences
  import opened Strings
  import opened Wrappers

  type Parser = string -> Option<Node>

  datatype AddedEntry = AddedEntry(name: string, componentType: string, language: string)

  datatype ModifiedEntry = ModifiedEntry(
    name: string,
    dependsOnAdded: seq<string>,
    dependsOnRemoved: seq<string>,
    openApiOps: seq<string>,
    contractAffected: bool)

  datatype Diff = Diff(added: seq<AddedEntry>, removed: seq<string>, modified: seq<ModifiedEntry>) {
    /** `IsTrivial`. */
    predicate IsTrivial() {
      added == [] && forall m :: m in modified ==> !m.contractAffected
    }
  }

  // ---- The components by name ----------------------------------------------------

  function Index(cs: seq<Design.Component>): map<string, Design.Component> {
    if cs == [] then map[] else Index(cs[..|cs| - 1])[Design.Key(cs[|cs| - 1]) := cs[|cs| - 1]]
  }

  /** `indexComponents`. */
  method IndexComponents(cs: seq<Design.Component>) returns (out: map<string, Design.Component>)
    ensures out == Index(cs)
  {
    out := map[];
    for i := 0 to |cs|
      invariant out == Index(cs[..i])
    {
      assert cs[..i + 1][..i] == cs[..i];
      out := out[Design.Key(cs[i]) := cs[i]];
    }
    assert cs[..|cs|] == cs;
  }

  /** A name stands for the last component that has it. */
  lemma {:induction false} IndexIsLast(cs: seq<Design.Component>, k: string)
    ensures k in Index(cs) <==> k in Design.Keys(cs)
    ensures k in Index(cs) ==> exists i ::
      0 <= i < |cs| && Design.Key(cs[i]) == k && cs[i] == Index(cs)[k]
      && forall j :: i < j < |cs| ==> Design.Key(cs[j]) != k
  {
    if cs != [] {
      var n := |cs| - 1;
      IndexIsLast(cs[..n], k);
      if Design.Key(cs[n]) == k {
        assert cs[n] in cs;
      } else {
        assert k in Design.Keys(cs) <==> k in Design.Keys(cs[..n]) by {
          assert cs == cs[..n] + [cs[n]];
        }
        if k in Index(cs[..n]) {
          var i :| 0 <= i < n && Design.Key(cs[..n][i]) == k && cs[..n][i] == Index(cs[..n])[k]
                   && forall j :: i < j < n ==> Design.Key(cs[..n][j]) != k;
          forall j | i < j < |cs|
            ensures Design.Key(cs[j]) != k
          {
            if j < n { assert cs[..n][j] == cs[j]; }
          }
          assert cs[i] == cs[..n][i];
        }
      }
    }
  }

  // ---- Dependencies ----------------------------------------------------------------

  /** The items of s that t does not have, in order. */
  function NotIn(s: seq<string>, t: seq<string>): seq<string> {
    if s == [] then []
    else
      var rest, last := NotIn(s[..|s| - 1], t), s[|s| - 1];
      if last in t then rest else rest + [last]
  }

  /** `stringSetDiff`. */
  method StringSetDiff(prev: seq<string>, curr: seq<string>) returns (added: seq<string>, removed: seq<string>)
    ensures added == NotIn(curr, prev) && removed == NotIn(prev, curr)
    ensures forall x :: x in added <==> x in curr && x !in prev
    ensures forall x :: x in removed <==> x in prev && x !in curr
  {
    NotInHas(curr, prev);
    NotInHas(prev, curr);
    var prevSet := SetOf(prev);
    var currSet := SetOf(curr);
    added := Missing(curr, prevSet, prev);
    removed := Missing(prev, currSet, curr);
  }

  method SetOf(s: seq<string>) returns (members: set<string>)
    ensures members == set x | x in s
  {
    members := {};
    for i := 0 to |s|
      invariant members == set x | x in s[..i]
    {
      members := members + {s[i]};
      assert s[..i + 1] == s[..i] + [s[i]];
    }
    assert s[..|s|] == s;
  }

  method Missing(s: seq<string>, members: set<string>, ghost t: seq<string>) returns (out: seq<string>)
    requires members == set x | x in t
    ensures out == NotIn(s, t)
  {
    out := [];
    for i := 0 to |s|
      invariant out == NotIn(s[..i], t)
    {
      assert s[..i + 1][..i] == s[..i];
      if s[i] !in members { out := out + [s[i]]; }
    }
    assert s[..|s|] == s;
  }

  lemma {:induction false} NotInHas(s: seq<string>, t: seq<string>)
    ensures forall x :: x in NotIn(s, t) <==> x in s && x !in t
  {
    if s != [] {
      var n := |s| - 1;
      NotInHas(s[..n], t);
      assert s == s[..n] + [s[n]];
    }
  }

  lemma {:induction false} NotInEmptyIff(s: seq<string>, t: seq<string>)
    ensures NotIn(s, t) == [] <==> forall i :: 0 <= i < |s| ==> s[i] in t
  {
    if s != [] {
      var n := |s| - 1;
      NotInEmptyIff(s[..n], t);
      assert forall i :: 0 <= i < n ==> s[..n][i] == s[i];
    }
  }

  predicate SameItems(s: seq<string>, t: seq<string>) {
    (forall i :: 0 <= i < |s| ==> s[i] in t) && (forall i :: 0 <= i < |t| ==> t[i] in s)
  }

  // ---- Operations --------------------------------------------------------------------

  /** No specification is a specification without operations. */
  function Document(parse: Parser, spec: string): Option<Node> {
    if spec == "" then Some(StrMap(map[])) else parse(spec)
  }

  function Entries(parse: Parser, c: Design.Component): set<(string, Node)> {
    match Document(parse, c.openApiSpec)
    case None => {}
    case Some(doc) => OperationsOf(doc)
  }

  /** Without a specification a component has no operations, whatever the parser says of the empty text. */
  lemma NoSpecNoOperations(parse: Parser, c: Design.Component)
    requires c.openApiSpec == ""
    ensures Readable(parse, c) && Entries(parse, c) == {}
  {
    CanonicalFields(StrMap(map[]));
  }

  predicate Readable(parse: Parser, c: Design.Component) {
    Document(parse, c.openApiSpec).Some? && Decodes(Document(parse, c.openApiSpec).value)
  }

  /** What comparing the operations may report; the choices are the orders the maps are walked in. */
  ghost predicate Reports(parse: Parser, pc: Design.Component, cc: Design.Component, lines: seq<string>) {
    if Readable(parse, pc) && Readable(parse, cc) then
      exists p, c :: Picks(p, Entries(parse, pc)) && Picks(c, Entries(parse, cc)) && Lists(lines, p, c)
    else lines == []
  }

  method CompareSpecs(parse: Parser, pc: Design.Component, cc: Design.Component) returns (lines: seq<string>)
    ensures Reports(parse, pc, cc, lines)
  {
    var prev, curr := Document(parse, pc.openApiSpec), Document(parse, cc.openApiSpec);
    lines := [];
    if prev.Some? && curr.Some? {
      var ops;
      ghost var p, c;
      ops, p, c := CompareOperations(prev.value, curr.value);
      lines := if ops.Some? then ops.value else [];
    }
  }

  /** The entry of a component in both designs. */
  ghost predicate IsEntry(parse: Parser, pc: Design.Component, cc: Design.Component, m: ModifiedEntry) {
    && m.name == cc.name
    && m.dependsOnAdded == NotIn(cc.dependsOn, pc.dependsOn)
    && m.dependsOnRemoved == NotIn(pc.dependsOn, cc.dependsOn)
    && Reports(parse, pc, cc, m.openApiOps)
    && m.contractAffected
  }

  predicate SaysSomething(m: ModifiedEntry) {
    m.dependsOnAdded != [] || m.dependsOnRemoved != [] || m.openApiOps != []
  }

  // ---- Lists by name -----------------------------------------------------------------

  /** The keys list the set, each member once. */
  ghost predicate Enumerates(keys: seq<string>, s: set<string>) {
    && (forall i, j :: 0 <= i < j < |keys| ==> keys[i] != keys[j])
    && (forall i :: 0 <= i < |keys| ==> keys[i] in s)
    && (forall k :: k in s ==> k in keys)
  }

  lemma {:induction false} EnumeratesLength(keys: seq<string>, s: set<string>)
    requires Enumerates(keys, s)
    ensures |keys| == |s|
  {
    if keys != [] {
      var n := |keys| - 1;
      EnumeratesLength(keys[..n], s - {keys[n]});
    }
  }

  lemma EnumeratesMore(keys: seq<string>, s: set<string>, k: string)
    requires Enumerates(keys, s) && k !in s
    ensures Enumerates(keys + [k], s + {k})
  {
  }

  lemma {:induction false} DistinctCount(keys: seq<string>, k: string)
    requires forall i, j :: 0 <= i < j < |keys| ==> keys[i] != keys[j]
    ensures multiset(keys)[k] == if k in keys then 1 else 0
  {
    if keys != [] {
      var n := |keys| - 1;
      assert keys == keys[..n] + [keys[n]];
      DistinctCount(keys[..n], k);
    }
  }

  lemma EnumeratesPermuted(a: seq<string>, b: seq<string>, s: set<string>)
    requires Enumerates(a, s) && multiset(a) == multiset(b)
    ensures Enumerates(b, s)
  {
    forall i, j | 0 <= i < j < |b|
      ensures b[i] != b[j]
    {
      RepeatedTwice(b, i, j);
      DistinctCount(a, b[j]);
    }
    forall i | 0 <= i < |b| ensures b[i] in s { assert b[i] in multiset(b) && b[i] in multiset(a); }
    forall k | k in s ensures k in b { assert k in multiset(a) && k in multiset(b); }
  }

  function InsertBy<A>(x: A, s: seq<A>, name: A -> string): seq<A> {
    if s == [] || LexLeq(name(x), name(s[0])) then [x] + s else [s[0]] + InsertBy(x, s[1..], name)
  }

  /** `sort.Slice` by name; of equal names it may choose any order, but none occur. */
  function SortBy<A>(s: seq<A>, name: A -> string): seq<A> {
    if s == [] then [] else InsertBy(s[0], SortBy(s[1..], name), name)
  }

  lemma {:induction false} InsertByNames<A>(x: A, s: seq<A>, name: A -> string)
    ensures Map(name, InsertBy(x, s, name)) == Insert(name(x), Map(name, s))
    ensures multiset(InsertBy(x, s, name)) == multiset(s) + multiset{x}
  {
    if s != [] {
      MapHead(name, s);
      if LexLeq(name(x), name(s[0])) {
        assert Map(name, [x] + s) == [name(x)] + Map(name, s);
      } else {
        InsertByNames(x, s[1..], name);
        MapCons(name, s[0], InsertBy(x, s[1..], name));
      }
    }
  }

  lemma MapHead<A>(name: A -> string, s: seq<A>)
    requires s != []
    ensures s == [s[0]] + s[1..] && Map(name, s)[0] == name(s[0]) && Map(name, s)[1..] == Map(name, s[1..])
  {
  }

  lemma MapCons<A>(name: A -> string, x: A, s: seq<A>)
    ensures Map(name, [x] + s) == [name(x)] + Map(name, s)
  {
  }

  /** The result is a permutation in the order of the names. */
  lemma {:induction false} SortByNames<A>(s: seq<A>, name: A -> string)
    ensures Map(name, SortBy(s, name)) == Sort(Map(name, s)) && Sorted(Map(name, SortBy(s, name)))
    ensures multiset(SortBy(s, name)) == multiset(s)
  {
    if s != [] {
      assert s == [s[0]] + s[1..];
      assert Map(name, s)[1..] == Map(name, s[1..]);
      SortByNames(s[1..], name);
      InsertByNames(s[0], SortBy(s[1..], name), name);
    }
    SortSorts(Map(name, s));
  }

  // ---- The diff ----------------------------------------------------------------------

  type ByName = map<string, Design.Component>

  ghost predicate KeyedByName(m: ByName) {
    forall k :: k in m ==> Design.Key(m[k]) == k
  }

  function AddedFor(c: Design.Component): AddedEntry {
    AddedEntry(c.name, c.componentType, c.language)
  }

  lemma AddedFields(c: Design.Component)
    ensures var e := AddedFor(c);
            e.name == c.name && e.componentType == c.componentType && e.language == c.language
  {
  }

  function AddedName(e: AddedEntry): string {
    e.name
  }

  function AddedKey(e: AddedEntry): string {
    Design.Lower(e.name)
  }

  function RemovedName(name: string): string {
    name
  }

  function ModifiedName(m: ModifiedEntry): string {
    m.name
  }

  function ModifiedKey(m: ModifiedEntry): string {
    Design.Lower(m.name)
  }

  /** One entry for each name of c that p lacks. */
  ghost predicate ListsAdded(added: seq<AddedEntry>, p: ByName, c: ByName, names: set<string>) {
    && Enumerates(Map(AddedKey, added), names)
    && forall i :: 0 <= i < |added| ==> AddedKey(added[i]) in c && added[i] == AddedFor(c[AddedKey(added[i])])
  }

  ghost predicate ListsRemoved(removed: seq<string>, p: ByName, c: ByName, names: set<string>) {
    && Enumerates(Map(Design.Lower, removed), names)
    && forall i :: 0 <= i < |removed| ==>
      Design.Lower(removed[i]) in p && removed[i] == p[Design.Lower(removed[i])].name
  }

  ghost predicate ListsModified(parse: Parser, modified: seq<ModifiedEntry>, p: ByName, c: ByName, names: set<string>) {
    && Enumerates(Map(ModifiedKey, modified), names)
    && forall i :: 0 <= i < |modified| ==> IsModified(parse, modified[i], p, c)
  }

  ghost predicate IsModified(parse: Parser, m: ModifiedEntry, p: ByName, c: ByName) {
    var k := ModifiedKey(m);
    k in p && k in c && IsEntry(parse, p[k], c[k], m) && SaysSomething(m)
  }

  /** Some comparison of the component finds nothing. */
  ghost predicate Silent(parse: Parser, pc: Design.Component, cc: Design.Component) {
    exists m :: IsEntry(parse, pc, cc, m) && !SaysSomething(m)
  }

  lemma MapMore<A>(key: A -> string, s: seq<A>, x: A)
    ensures Map(key, s + [x]) == Map(key, s) + [key(x)]
  {
  }

  method ListAdded(p: ByName, c: ByName) returns (out: seq<AddedEntry>)
    requires KeyedByName(c)
    ensures ListsAdded(out, p, c, c.Keys - p.Keys)
  {
    out := [];
    var todo := c.Keys;
    while todo != {}
      invariant todo <= c.Keys
      invariant ListsAdded(out, p, c, c.Keys - p.Keys - todo)
      decreases todo
    {
      var k :| k in todo;
      if k !in p {
        MapMore(AddedKey, out, AddedFor(c[k]));
        EnumeratesMore(Map(AddedKey, out), c.Keys - p.Keys - todo, k);
        out := out + [AddedFor(c[k])];
        assert c.Keys - p.Keys - (todo - {k}) == c.Keys - p.Keys - todo + {k};
      } else {
        assert c.Keys - p.Keys - (todo - {k}) == c.Keys - p.Keys - todo;
      }
      todo := todo - {k};
    }
    assert c.Keys - p.Keys - {} == c.Keys - p.Keys;
  }

  method ListRemoved(p: ByName, c: ByName) returns (out: seq<string>)
    requires KeyedByName(p)
    ensures ListsRemoved(out, p, c, p.Keys - c.Keys)
  {
    out := [];
    var todo := p.Keys;
    while todo != {}
      invariant todo <= p.Keys
      invariant ListsRemoved(out, p, c, p.Keys - c.Keys - todo)
      decreases todo
    {
      var k :| k in todo;
      if k !in c {
        MapMore(Design.Lower, out, p[k].name);
        EnumeratesMore(Map(Design.Lower, out), p.Keys - c.Keys - todo, k);
        out := out + [p[k].name];
        assert p.Keys - c.Keys - (todo - {k}) == p.Keys - c.Keys - todo + {k};
      } else {
        assert p.Keys - c.Keys - (todo - {k}) == p.Keys - c.Keys - todo;
      }
      todo := todo - {k};
    }
    assert p.Keys - c.Keys - {} == p.Keys - c.Keys;
  }

  method CompareComponent(parse: Parser, pc: Design.Component, cc: Design.Component) returns (m: ModifiedEntry)
    ensures IsEntry(parse, pc, cc, m)
    ensures m.name == cc.name && m.contractAffected
    ensures forall x :: x in m.dependsOnAdded <==> x in cc.dependsOn && x !in pc.dependsOn
    ensures forall x :: x in m.dependsOnRemoved <==> x in pc.dependsOn && x !in cc.dependsOn
  {
    var added, removed := StringSetDiff(pc.dependsOn, cc.dependsOn);
    var ops := CompareSpecs(parse, pc, cc);
    m := ModifiedEntry(cc.name, added, removed, ops, true);
  }

  method ListModified(parse: Parser, p: ByName, c: ByName)
    returns (modified: seq<ModifiedEntry>, ghost names: set<string>)
    requires KeyedByName(c)
    ensures ListsModified(parse, modified, p, c, names)
    ensures forall k :: k in p && k in c && k !in names ==> Silent(parse, p[k], c[k])
  {
    modified, names := [], {};
    var todo := c.Keys;
    while todo != {}
      invariant todo <= c.Keys && names !! todo
      invariant ListsModified(parse, modified, p, c, names)
      invariant forall k :: k in p && k in c && k !in todo && k !in names ==> Silent(parse, p[k], c[k])
      decreases todo
    {
      var k :| k in todo;
      todo := todo - {k};
      if k in p {
        var m := CompareComponent(parse, p[k], c[k]);
        if SaysSomething(m) {
          MapMore(ModifiedKey, modified, m);
          EnumeratesMore(Map(ModifiedKey, modified), names, k);
          modified := modified + [m];
          names := names + {k};
        }
      }
    }
  }

  /** d is the diff of the two designs. */
  ghost predicate IsDiff(parse: Parser, prev: seq<Design.Component>, curr: seq<Design.Component>, d: Diff) {
    var p, c := Index(prev), Index(curr);
    && AreLists(parse, p, c, d, ModifiedNames(d))
    && (forall k :: k in p && k in c && !ModifiedHas(d, k) ==> Silent(parse, p[k], c[k]))
  }

  ghost predicate AreLists(parse: Parser, p: ByName, c: ByName, d: Diff, modified: set<string>) {
    && ListsAdded(d.added, p, c, c.Keys - p.Keys) && Sorted(Map(AddedName, d.added))
    && ListsRemoved(d.removed, p, c, p.Keys - c.Keys) && Sorted(d.removed)
    && ListsModified(parse, d.modified, p, c, modified) && Sorted(Map(ModifiedName, d.modified))
  }

  predicate AddedHas(d: Diff, k: string) {
    k in Map(AddedKey, d.added)
  }

  predicate RemovedHas(d: Diff, k: string) {
    k in Map(Design.Lower, d.removed)
  }

  predicate ModifiedHas(d: Diff, k: string) {
    k in Map(ModifiedKey, d.modified)
  }

  ghost function ModifiedNames(d: Diff): set<string> {
    set k | k in Map(ModifiedKey, d.modified)
  }

  method SortAdded(added: seq<AddedEntry>, ghost p: ByName, ghost c: ByName, ghost names: set<string>)
    returns (out: seq<AddedEntry>)
    requires ListsAdded(added, p, c, names)
    ensures ListsAdded(out, p, c, names) && Sorted(Map(AddedName, out))
  {
    out := SortBy(added, AddedName);
    SortByNames(added, AddedName);
    MapPermutes(AddedKey, added, out);
    EnumeratesPermuted(Map(AddedKey, added), Map(AddedKey, out), names);
    SameElements(added, out);
  }

  method SortRemoved(removed: seq<string>, ghost p: ByName, ghost c: ByName, ghost names: set<string>)
    returns (out: seq<string>)
    requires ListsRemoved(removed, p, c, names)
    ensures ListsRemoved(out, p, c, names) && Sorted(out)
  {
    out := SortBy(removed, RemovedName);
    SortByNames(removed, RemovedName);
    assert Map(RemovedName, out) == out;
    MapPermutes(Design.Lower, removed, out);
    EnumeratesPermuted(Map(Design.Lower, removed), Map(Design.Lower, out), names);
    SameElements(removed, out);
  }

  method SortModified(
    parse: Parser, modified: seq<ModifiedEntry>, ghost p: ByName, ghost c: ByName, ghost names: set<string>)
    returns (out: seq<ModifiedEntry>)
    requires ListsModified(parse, modified, p, c, names)
    ensures ListsModified(parse, out, p, c, names) && Sorted(Map(ModifiedName, out))
  {
    out := SortBy(modified, ModifiedName);
    SortByNames(modified, ModifiedName);
    MapPermutes(ModifiedKey, modified, out);
    EnumeratesPermuted(Map(ModifiedKey, modified), Map(ModifiedKey, out), names);
    SameElements(modified, out);
  }

  lemma SameElements<A>(a: seq<A>, b: seq<A>)
    requires multiset(a) == multiset(b)
    ensures forall i :: 0 <= i < |b| ==> b[i] in a
  {
    forall i | 0 <= i < |b| ensures b[i] in a { assert b[i] in multiset(b) && b[i] in multiset(a); }
  }

  /** `computeDesignDiff`. */
  method ComputeDesignDiff(parse: Parser, prev: seq<Design.Component>, curr: seq<Design.Component>) returns (d: Diff)
    ensures IsDiff(parse, prev, curr, d)
  {
    var prevByName := IndexComponents(prev);
    var currByName := IndexComponents(curr);
    IndexKeyed(prev);
    IndexKeyed(curr);
    var added := ListAdded(prevByName, currByName);
    var removed := ListRemoved(prevByName, currByName);
    var modified;
    ghost var names;
    modified, names := ListModified(parse, prevByName, currByName);
    added := SortAdded(added, prevByName, currByName, currByName.Keys - prevByName.Keys);
    removed := SortRemoved(removed, prevByName, currByName, prevByName.Keys - currByName.Keys);
    modified := SortModified(parse, modified, prevByName, currByName, names);
    d := Diff(added, removed, modified);
    assert ModifiedNames(d) == names;
  }

  lemma {:induction false} IndexKeyed(cs: seq<Design.Component>)
    ensures KeyedByName(Index(cs))
  {
    forall k | k in Index(cs) ensures Design.Key(Index(cs)[k]) == k { IndexIsLast(cs, k); }
  }

  // ---- What the diff means -------------------------------------------------------------

  /** The dependencies differ as sets, or both specifications can be read and their operations differ. */
  predicate ContractChanged(parse: Parser, pc: Design.Component, cc: Design.Component) {
    || !SameItems(pc.dependsOn, cc.dependsOn)
    || (Readable(parse, pc) && Readable(parse, cc) && Entries(parse, pc) != Entries(parse, cc))
  }

  /** No two operations of the component share a method and path but for case. */
  ghost predicate Unambiguous(parse: Parser, c: Design.Component) {
    Functional(Entries(parse, c))
  }

  lemma PicksDetermine(p: map<string, Node>, c: map<string, Node>, pe: set<(string, Node)>, ce: set<(string, Node)>)
    requires Picks(p, pe) && Picks(c, ce) && Functional(pe) && Functional(ce)
    ensures p == c <==> pe == ce
  {
    if p == c {
      forall e | e in pe
        ensures e in ce
      {
        assert (e.0, p[e.0]) in pe && (e.0, c[e.0]) in ce;
      }
      forall e | e in ce
        ensures e in pe
      {
        assert (e.0, c[e.0]) in ce && (e.0, p[e.0]) in pe;
      }
    }
    if pe == ce { PicksAgree(p, c, pe); }
  }

  /** An entry says something exactly when the contract changed. */
  lemma SaysSomethingIffChanged(parse: Parser, pc: Design.Component, cc: Design.Component, m: ModifiedEntry)
    requires IsEntry(parse, pc, cc, m) && Unambiguous(parse, pc) && Unambiguous(parse, cc)
    ensures SaysSomething(m) <==> ContractChanged(parse, pc, cc)
  {
    NotInEmptyIff(cc.dependsOn, pc.dependsOn);
    NotInEmptyIff(pc.dependsOn, cc.dependsOn);
    if Readable(parse, pc) && Readable(parse, cc) {
      var p, c :| Picks(p, Entries(parse, pc)) && Picks(c, Entries(parse, cc)) && Lists(m.openApiOps, p, c);
      PicksDetermine(p, c, Entries(parse, pc), Entries(parse, cc));
      NoLinesIffEqual(p, c);
      assert m.openApiOps == [] <==> DiffLines(p, c) == {} by {
        assert |m.openApiOps| == |multiset(m.openApiOps)| == |multiset(DiffLines(p, c))|;
      }
    }
  }

  /** The modified entries are exactly the common components whose contract changed. */
  lemma {:induction false} ModifiedIffChanged(
    parse: Parser, prev: seq<Design.Component>, curr: seq<Design.Component>, d: Diff, k: string)
    requires IsDiff(parse, prev, curr, d) && k in Index(prev) && k in Index(curr)
    requires Unambiguous(parse, Index(prev)[k]) && Unambiguous(parse, Index(curr)[k])
    ensures ModifiedHas(d, k) <==> ContractChanged(parse, Index(prev)[k], Index(curr)[k])
  {
    var pc, cc := Index(prev)[k], Index(curr)[k];
    if ModifiedHas(d, k) {
      var i :| 0 <= i < |d.modified| && ModifiedKey(d.modified[i]) == k;
      SaysSomethingIffChanged(parse, pc, cc, d.modified[i]);
    } else {
      var m :| IsEntry(parse, pc, cc, m) && !SaysSomething(m);
      SaysSomethingIffChanged(parse, pc, cc, m);
    }
  }

  datatype Verdict = New | Gone | Changed | Same | Absent

  /** What became of a name. */
  function Became(parse: Parser, prev: seq<Design.Component>, curr: seq<Design.Component>, k: string): Verdict {
    if k in Index(prev) && k in Index(curr) then
      if ContractChanged(parse, Index(prev)[k], Index(curr)[k]) then Changed else Same
    else if k in Index(curr) then New
    else if k in Index(prev) then Gone
    else Absent
  }

  /** The specifications a name stands for give no operation twice. */
  ghost predicate UnambiguousAt(parse: Parser, cs: seq<Design.Component>, k: string) {
    k in Index(cs) ==> Unambiguous(parse, Index(cs)[k])
  }

  /** The three lists of a diff are exactly the names that are new, gone and changed. */
  lemma DiffTellsWhatBecame(
    parse: Parser, prev: seq<Design.Component>, curr: seq<Design.Component>, d: Diff, k: string)
    requires IsDiff(parse, prev, curr, d) && UnambiguousAt(parse, prev, k) && UnambiguousAt(parse, curr, k)
    ensures AddedHas(d, k) <==> Became(parse, prev, curr, k) == New
    ensures RemovedHas(d, k) <==> Became(parse, prev, curr, k) == Gone
    ensures ModifiedHas(d, k) <==> Became(parse, prev, curr, k) == Changed
  {
    ListedNames(parse, prev, curr, d, k);
    if k in Index(prev) && k in Index(curr) { ModifiedIffChanged(parse, prev, curr, d, k); }
  }

  lemma {:induction false} ListedNames(
    parse: Parser, prev: seq<Design.Component>, curr: seq<Design.Component>, d: Diff, k: string)
    requires IsDiff(parse, prev, curr, d)
    ensures AddedHas(d, k) <==> k in Index(curr) && k !in Index(prev)
    ensures RemovedHas(d, k) <==> k in Index(prev) && k !in Index(curr)
    ensures ModifiedHas(d, k) ==> k in Index(prev) && k in Index(curr)
  {
    if ModifiedHas(d, k) {
      var i :| 0 <= i < |d.modified| && ModifiedKey(d.modified[i]) == k;
      assert IsModified(parse, d.modified[i], Index(prev), Index(curr));
    }
  }

  /** Each name is accounted for once: new, gone, or in both designs. */
  lemma {:induction false} EveryComponentOnce(
    parse: Parser, prev: seq<Design.Component>, curr: seq<Design.Component>, d: Diff)
    requires IsDiff(parse, prev, curr, d)
    ensures |d.added| + |Index(prev).Keys * Index(curr).Keys| == |Index(curr).Keys|
    ensures |d.removed| + |Index(prev).Keys * Index(curr).Keys| == |Index(prev).Keys|
    ensures Design.DistinctNames(curr) ==> |Index(curr).Keys| == |curr|
    ensures Design.DistinctNames(prev) ==> |Index(prev).Keys| == |prev|
  {
    var p, c := Index(prev).Keys, Index(curr).Keys;
    EnumeratesLength(Map(AddedKey, d.added), c - p);
    EnumeratesLength(Map(Design.Lower, d.removed), p - c);
    SetSplits(c, p);
    SetSplits(p, c);
    assert c * p == p * c;
    if Design.DistinctNames(curr) { DistinctIndex(curr); }
    if Design.DistinctNames(prev) { DistinctIndex(prev); }
  }

  lemma SetSplits(a: set<string>, b: set<string>)
    ensures |a| == |a - b| + |a * b|
  {
    assert a == (a - b) + (a * b);
  }

  lemma {:induction false} DistinctIndex(cs: seq<Design.Component>)
    requires Design.DistinctNames(cs)
    ensures |Index(cs).Keys| == |cs|
  {
    if cs != [] {
      var before, last := cs[..|cs| - 1], cs[|cs| - 1];
      DistinctIndex(before);
      IndexIsLast(before, Design.Key(last));
      assert Index(cs).Keys == Index(before).Keys + {Design.Key(last)};
    }
  }

  lemma ChangeIsSymmetric(parse: Parser, prev: seq<Design.Component>, curr: seq<Design.Component>, k: string)
    ensures Became(parse, prev, curr, k) == Changed <==> Became(parse, curr, prev, k) == Changed
  {
  }

  /** Exchanging the designs exchanges what is added and removed, and keeps what is modified. */
  lemma SwapDesigns(
    parse: Parser, prev: seq<Design.Component>, curr: seq<Design.Component>, d: Diff, d': Diff, k: string)
    requires IsDiff(parse, prev, curr, d) && IsDiff(parse, curr, prev, d')
    requires UnambiguousAt(parse, prev, k) && UnambiguousAt(parse, curr, k)
    ensures AddedHas(d, k) <==> RemovedHas(d', k)
    ensures RemovedHas(d, k) <==> AddedHas(d', k)
    ensures ModifiedHas(d, k) <==> ModifiedHas(d', k)
  {
    DiffTellsWhatBecame(parse, prev, curr, d, k);
    DiffTellsWhatBecame(parse, curr, prev, d', k);
    ChangeIsSymmetric(parse, prev, curr, k);
  }

  /** The dependencies a modified component gained are those it loses the other way round. */
  lemma SwapDependencies(
    parse: Parser, prev: seq<Design.Component>, curr: seq<Design.Component>, d: Diff, d': Diff, i: nat, j: nat)
    requires IsDiff(parse, prev, curr, d) && IsDiff(parse, curr, prev, d')
    requires i < |d.modified| && j < |d'.modified| && ModifiedKey(d.modified[i]) == ModifiedKey(d'.modified[j])
    ensures d.modified[i].dependsOnAdded == d'.modified[j].dependsOnRemoved
    ensures d.modified[i].dependsOnRemoved == d'.modified[j].dependsOnAdded
  {
    assert IsModified(parse, d.modified[i], Index(prev), Index(curr));
    assert IsModified(parse, d'.modified[j], Index(curr), Index(prev));
  }

  /**
    A diff is trivial exactly when nothing is new and no contract changed: every modified entry affects
    the contract.
  */
  lemma TrivialIffNothingNew(parse: Parser, prev: seq<Design.Component>, curr: seq<Design.Component>, d: Diff)
    requires IsDiff(parse, prev, curr, d)
    ensures d.IsTrivial() <==> d.added == [] && d.modified == []
  {
    if d.modified != [] {
      assert d.modified[0] in d.modified;
      assert IsModified(parse, d.modified[0], Index(prev), Index(curr));
    }
  }

  // ---- A stable result -----------------------------------------------------------------

  /** Sorted lists of names for the same keys, each key with its one name, are equal. */
  lemma SameNames(a: seq<string>, b: seq<string>, keys: set<string>, named: map<string, string>)
    requires Sorted(a) && Sorted(b) && Enumerates(Map(Design.Lower, a), keys) && Enumerates(Map(Design.Lower, b), keys)
    requires forall i :: 0 <= i < |a| ==> Design.Lower(a[i]) in named && a[i] == named[Design.Lower(a[i])]
    requires forall i :: 0 <= i < |b| ==> Design.Lower(b[i]) in named && b[i] == named[Design.Lower(b[i])]
    ensures a == b
  {
    forall x
      ensures multiset(a)[x] == multiset(b)[x]
    {
      DistinctNamesCount(a, keys, named, x);
      DistinctNamesCount(b, keys, named, x);
    }
    assert multiset(a) == multiset(b);
    SortedUnique(a, b);
  }

  lemma DistinctNamesCount(a: seq<string>, keys: set<string>, named: map<string, string>, x: string)
    requires Enumerates(Map(Design.Lower, a), keys)
    requires forall i :: 0 <= i < |a| ==> Design.Lower(a[i]) in named && a[i] == named[Design.Lower(a[i])]
    ensures multiset(a)[x] ==
      if Design.Lower(x) in keys && Design.Lower(x) in named && x == named[Design.Lower(x)] then 1 else 0
  {
    var ks := Map(Design.Lower, a);
    forall i, j | 0 <= i < j < |a| ensures a[i] != a[j] { assert ks[i] != ks[j]; }
    DistinctCount(a, x);
    if x in a {
      var i :| 0 <= i < |a| && a[i] == x;
      assert ks[i] in keys;
    }
    if Design.Lower(x) in keys && Design.Lower(x) in named && x == named[Design.Lower(x)] {
      var i :| 0 <= i < |ks| && ks[i] == Design.Lower(x);
      assert a[i] == x;
    }
  }

  ghost function NameOf(m: ByName): map<string, string> {
    map k | k in m :: m[k].name
  }

  /** The entry of a component is determined once its operations are. */
  lemma SameEntry(
    parse: Parser, pc: Design.Component, cc: Design.Component, m: ModifiedEntry, n: ModifiedEntry)
    requires IsEntry(parse, pc, cc, m) && IsEntry(parse, pc, cc, n) && Unambiguous(parse, pc) && Unambiguous(parse, cc)
    ensures m == n
  {
    if Readable(parse, pc) && Readable(parse, cc) {
      var p, c :| Picks(p, Entries(parse, pc)) && Picks(c, Entries(parse, cc)) && Lists(m.openApiOps, p, c);
      var q, e :| Picks(q, Entries(parse, pc)) && Picks(e, Entries(parse, cc)) && Lists(n.openApiOps, q, e);
      PicksAgree(p, q, Entries(parse, pc));
      PicksAgree(c, e, Entries(parse, cc));
      SortedUnique(m.openApiOps, n.openApiOps);
    }
  }

  lemma SameAdded(a: seq<AddedEntry>, b: seq<AddedEntry>, p: ByName, c: ByName, names: set<string>)
    requires ListsAdded(a, p, c, names) && Sorted(Map(AddedName, a))
    requires ListsAdded(b, p, c, names) && Sorted(Map(AddedName, b))
    ensures a == b
  {
    var x, y := Map(AddedName, a), Map(AddedName, b);
    assert Map(Design.Lower, x) == Map(AddedKey, a) && Map(Design.Lower, y) == Map(AddedKey, b);
    SameNames(x, y, names, NameOf(c));
    forall i | 0 <= i < |a| ensures a[i] == b[i] { assert x[i] == y[i]; }
  }

  lemma SameModified(
    parse: Parser, a: seq<ModifiedEntry>, b: seq<ModifiedEntry>, p: ByName, c: ByName, names: set<string>)
    requires ListsModified(parse, a, p, c, names) && Sorted(Map(ModifiedName, a))
    requires ListsModified(parse, b, p, c, names) && Sorted(Map(ModifiedName, b))
    requires AllUnambiguous(parse, p, c)
    ensures a == b
  {
    var x, y := Map(ModifiedName, a), Map(ModifiedName, b);
    assert Map(Design.Lower, x) == Map(ModifiedKey, a) && Map(Design.Lower, y) == Map(ModifiedKey, b);
    ModifiedNamed(parse, a, p, c);
    ModifiedNamed(parse, b, p, c);
    SameNames(x, y, names, NameOf(c));
    forall i | 0 <= i < |a| ensures a[i] == b[i] {
      assert x[i] == y[i] && IsModified(parse, a[i], p, c) && IsModified(parse, b[i], p, c);
      SameEntry(parse, p[ModifiedKey(a[i])], c[ModifiedKey(a[i])], a[i], b[i]);
    }
  }

  lemma ModifiedNamed(parse: Parser, a: seq<ModifiedEntry>, p: ByName, c: ByName)
    requires forall i :: 0 <= i < |a| ==> IsModified(parse, a[i], p, c)
    ensures forall i :: 0 <= i < |a| ==> ModifiedKey(a[i]) in c && a[i].name == c[ModifiedKey(a[i])].name
  {
  }

  ghost predicate AllUnambiguous(parse: Parser, p: ByName, c: ByName) {
    forall k :: k in p && k in c ==> Unambiguous(parse, p[k]) && Unambiguous(parse, c[k])
  }

  lemma {:induction false} SameModifiedNames(
    parse: Parser, prev: seq<Design.Component>, curr: seq<Design.Component>, d: Diff, d': Diff, k: string)
    requires IsDiff(parse, prev, curr, d) && IsDiff(parse, prev, curr, d')
    requires AllUnambiguous(parse, Index(prev), Index(curr))
    ensures ModifiedHas(d, k) <==> ModifiedHas(d', k)
  {
    ListedNames(parse, prev, curr, d, k);
    ListedNames(parse, prev, curr, d', k);
    if k in Index(prev) && k in Index(curr) {
      ModifiedIffChanged(parse, prev, curr, d, k);
      ModifiedIffChanged(parse, prev, curr, d', k);
    }
  }

  lemma SameRemoved(a: seq<string>, b: seq<string>, p: ByName, c: ByName, names: set<string>)
    requires ListsRemoved(a, p, c, names) && Sorted(a) && ListsRemoved(b, p, c, names) && Sorted(b)
    ensures a == b
  {
    SameNames(a, b, names, NameOf(p));
  }

  lemma {:induction false} SameModifiedSet(
    parse: Parser, prev: seq<Design.Component>, curr: seq<Design.Component>, d: Diff, d': Diff)
    requires IsDiff(parse, prev, curr, d) && IsDiff(parse, prev, curr, d')
    requires AllUnambiguous(parse, Index(prev), Index(curr))
    ensures ModifiedNames(d) == ModifiedNames(d')
  {
    var names, names' := ModifiedNames(d), ModifiedNames(d');
    forall k ensures k in names <==> k in names' {
      NamesHave(d, k);
      NamesHave(d', k);
      SameModifiedNames(parse, prev, curr, d, d', k);
    }
  }

  lemma NamesHave(d: Diff, k: string)
    ensures k in ModifiedNames(d) <==> ModifiedHas(d, k)
  {
  }

  lemma SameLists(parse: Parser, p: ByName, c: ByName, d: Diff, d': Diff, names: set<string>)
    requires AreLists(parse, p, c, d, names) && AreLists(parse, p, c, d', names) && AllUnambiguous(parse, p, c)
    ensures d == d'
  {
    SameAdded(d.added, d'.added, p, c, c.Keys - p.Keys);
    SameRemoved(d.removed, d'.removed, p, c, p.Keys - c.Keys);
    SameModified(parse, d.modified, d'.modified, p, c, names);
  }

  /** Whatever order the maps are walked in, two designs without ambiguous operations have one diff. */
  lemma {:induction false} DiffIsStable(
    parse: Parser, prev: seq<Design.Component>, curr: seq<Design.Component>, d: Diff, d': Diff)
    requires IsDiff(parse, prev, curr, d) && IsDiff(parse, prev, curr, d')
    requires AllUnambiguous(parse, Index(prev), Index(curr))
    ensures d == d'
  {
    SameModifiedSet(parse, prev, curr, d, d');
    SameLists(parse, Index(prev), Index(curr), d, d', ModifiedNames(d));
  }
}
