/**
  The operation-level diff of two OpenAPI documents. Iteration over a Go map is the
  unspecified choice of `:|`, so a contract that holds here holds for every order.
*/
module OperationDiff {
  import opened OpenApi
  import opened Strings
  import opened Wrappers
  import Design

  function UpperChar(c: char): char {
    if 'a' <= c <= 'z' then (c as int - 32) as char else c
  }

  function Upper(s: string): string {
    seq(|s|, i requires 0 <= i < |s| => UpperChar(s[i]))
  }

  predicate IsHttpMethod(s: string) {
    s in {"get", "post", "put", "delete", "patch", "head", "options", "trace"}
  }

  function Field(n: Node, k: string): map<string, Node> {
    if n.StrMap? && k in n.fields && n.fields[k].StrMap? then n.fields[k].fields else map[]
  }

  function OpKey(m: string, path: string): string {
    Upper(Design.Lower(m)) + " " + path
  }

  predicate IsOperation(paths: map<string, Node>, path: string, m: string) {
    path in paths && paths[path].StrMap? && m in paths[path].fields && IsHttpMethod(Design.Lower(m))
  }

  /** Every operation under its key; several when method names differ only by case. */
  function Operations(paths: map<string, Node>): set<(string, Node)> {
    set path, m | path in paths && m in MethodsOf(paths[path]) && IsOperation(paths, path, m) ::
      (OpKey(m, path), paths[path].fields[m])
  }

  function MethodsOf(item: Node): set<string> {
    if item.StrMap? then item.fields.Keys else {}
  }

  /** Letters in lower case are capitalised. */
  lemma UpperLetters(s: string)
    ensures |Upper(s)| == |s|
    ensures forall i :: 0 <= i < |s| ==> Upper(s)[i] == if 'a' <= s[i] <= 'z' then s[i] - 'a' + 'A' else s[i]
  {
  }

  /** The eight methods of an operation. */
  lemma MethodNames(s: string)
    ensures IsHttpMethod(s) <==> s == "get" || s == "put" || s == "post" || s == "delete" || s == "options"
                                 || s == "head" || s == "patch" || s == "trace"
  {
  }

  /** An operation is found under `paths`, its path and its method in any letter case, and named by both. */
  lemma {:induction false} OperationFound(doc: Node, path: string, m: string, op: Node)
    requires doc == StrMap(map["paths" := StrMap(map[path := StrMap(map[m := op])])])
    requires Design.Lower(m) == "get"
    ensures Operations(Field(doc, "paths")) == {("GET " + path, op)}
  {
    var paths := Field(doc, "paths");
    assert paths == map[path := StrMap(map[m := op])];
    assert Upper("get") == "GET";
    assert OpKey(m, path) == "GET " + path;
    assert IsOperation(paths, path, m) && m in MethodsOf(paths[path]);
    forall e | e in Operations(paths) ensures e == ("GET " + path, op) {
      var q, n :| q in paths && n in MethodsOf(paths[q]) && IsOperation(paths, q, n)
                  && e == (OpKey(n, q), paths[q].fields[n]);
    }
  }

  /** One possible result of collecting operations into a map: a key keeps whichever came last. */
  ghost predicate Picks(ops: map<string, Node>, entries: set<(string, Node)>) {
    && (forall k :: k in ops ==> (k, ops[k]) in entries)
    && (forall e :: e in entries ==> e.0 in ops)
  }

  /** A document decodes into a map if it is one, or null, which gives an empty one. */
  predicate Decodes(doc: Node) {
    IsMap(doc) || (doc.Scalar? && doc.kind == "null")
  }

  /** Null decodes and holds nothing, any other scalar and every list is an error. */
  lemma {:induction false} DecodesIff(kind: string, text: string, items: seq<Node>)
    ensures Decodes(Scalar(kind, text)) <==> kind == "null"
    ensures !Decodes(List(items)) && Field(Scalar(kind, text), "paths") == map[]
  {
  }

  /** `extractOpenAPIOps` on a canonical document; an operation stands for its own fingerprint. */
  method ExtractOperations(doc: Node) returns (r: Option<map<string, Node>>)
    ensures r.Some? <==> Decodes(doc)
    ensures r.Some? ==> Picks(r.value, Operations(Field(doc, "paths")))
  {
    if !Decodes(doc) {
      return None;
    }
    var ops := map[];
    var paths := Field(doc, "paths");
    var todo := paths.Keys;
    ghost var seen: map<string, Node> := map[];
    assert Picks(ops, Operations(seen)) by { assert Operations(seen) == {}; }
    while todo != {}
      invariant todo <= paths.Keys && seen.Keys == paths.Keys - todo
      invariant forall p :: p in seen ==> seen[p] == paths[p]
      invariant Picks(ops, Operations(seen))
      decreases todo
    {
      var path :| path in todo;
      todo := todo - {path};
      ghost var before := ops;
      if paths[path].StrMap? {
        ops := ExtractPath(ops, path, paths[path].fields);
      }
      OperationsSplit(seen, path, paths[path]);
      seen := seen[path := paths[path]];
    }
    assert seen == paths;
    r := Some(ops);
  }

  ghost function PathOperations(path: string, fields: map<string, Node>): set<(string, Node)> {
    set m | m in fields && IsHttpMethod(Design.Lower(m)) :: (OpKey(m, path), fields[m])
  }

  lemma OperationsSplit(seen: map<string, Node>, path: string, item: Node)
    requires path !in seen
    ensures Operations(seen[path := item]) ==
            Operations(seen) + if item.StrMap? then PathOperations(path, item.fields) else {}
  {
    var next := seen[path := item];
    forall e | e in Operations(next)
      ensures e in Operations(seen) + if item.StrMap? then PathOperations(path, item.fields) else {}
    {
      var p, m :| p in next && m in MethodsOf(next[p]) && IsOperation(next, p, m) &&
        e == (OpKey(m, p), next[p].fields[m]);
      if p != path {
        assert IsOperation(seen, p, m) && m in MethodsOf(seen[p]);
      }
    }
    forall e | e in Operations(seen)
      ensures e in Operations(next)
    {
      var p, m :| p in seen && m in MethodsOf(seen[p]) && IsOperation(seen, p, m) &&
        e == (OpKey(m, p), seen[p].fields[m]);
      assert next[p] == seen[p] && IsOperation(next, p, m);
    }
    if item.StrMap? {
      forall e | e in PathOperations(path, item.fields)
        ensures e in Operations(next)
      {
        var m :| m in item.fields && IsHttpMethod(Design.Lower(m)) && e == (OpKey(m, path), item.fields[m]);
        assert next[path] == item && IsOperation(next, path, m) && m in MethodsOf(next[path]);
      }
    }
  }

  /** The operations of one path item, added to what is there. */
  method ExtractPath(ops0: map<string, Node>, path: string, fields: map<string, Node>) returns (ops: map<string, Node>)
    ensures forall entries :: Picks(ops0, entries) ==> Picks(ops, entries + PathOperations(path, fields))
  {
    ops := ops0;
    var todo := fields.Keys;
    ghost var added: set<(string, Node)> := {};
    while todo != {}
      invariant todo <= fields.Keys
      invariant added <= PathOperations(path, fields)
      invariant forall m :: m in fields && m !in todo && IsHttpMethod(Design.Lower(m)) ==>
        (OpKey(m, path), fields[m]) in added
      invariant forall k :: k in ops ==> (k, ops[k]) in added || (k in ops0 && ops[k] == ops0[k])
      invariant forall k :: k in ops0 ==> k in ops
      invariant forall e :: e in added ==> e.0 in ops
      decreases todo
    {
      var m :| m in todo;
      todo := todo - {m};
      if IsHttpMethod(Design.Lower(m)) {
        ops := ops[OpKey(m, path) := fields[m]];
        added := added + {(OpKey(m, path), fields[m])};
      }
    }
    assert added == PathOperations(path, fields);
  }

  // ---- Comparison ------------------------------------------------------------

  function DiffLines(p: map<string, Node>, c: map<string, Node>): set<string> {
    (set k | k in c.Keys - p.Keys :: "+ " + k)
    + (set k | k in p.Keys - c.Keys :: "- " + k)
    + (set k | k in Changed(p, c) :: "~ " + k)
  }

  function Changed(p: map<string, Node>, c: map<string, Node>): set<string> {
    set k | k in c && k in p && c[k] != p[k]
  }

  /** The operations of a parsed document once it is canonical. */
  function OperationsOf(doc: Node): set<(string, Node)> {
    Operations(Field(Canonicalize(doc), "paths"))
  }

  method AppendLines(lines0: seq<string>, sign: string, keys: set<string>) returns (lines: seq<string>)
    ensures multiset(lines) == multiset(lines0) + multiset(set k | k in keys :: sign + k)
  {
    lines := lines0;
    var todo := keys;
    while todo != {}
      invariant todo <= keys
      invariant multiset(lines) == multiset(lines0) + multiset(set k | k in keys - todo :: sign + k)
      decreases todo
    {
      var k :| k in todo;
      OneMoreLine(sign, keys - todo, k);
      assert keys - (todo - {k}) == (keys - todo) + {k};
      todo := todo - {k};
      lines := lines + [sign + k];
    }
    assert keys - todo == keys;
  }

  lemma OneMoreLine(sign: string, keys: set<string>, k: string)
    requires k !in keys
    ensures multiset(set j | j in keys + {k} :: sign + j)
      == multiset(set j | j in keys :: sign + j) + multiset{sign + k}
  {
    var a, b := set j | j in keys :: sign + j, set j | j in keys + {k} :: sign + j;
    forall j | j in keys
      ensures sign + j != sign + k
    {
      assert (sign + j)[|sign|..] == j && (sign + k)[|sign|..] == k;
    }
    assert b == a + {sign + k};
  }

  /** The sorted lines that tell two collections of operations apart. */
  ghost predicate Lists(lines: seq<string>, p: map<string, Node>, c: map<string, Node>) {
    Sorted(lines) && multiset(lines) == multiset(DiffLines(p, c))
  }

  method ListChanges(p: map<string, Node>, c: map<string, Node>) returns (lines: seq<string>)
    ensures Lists(lines, p, c)
  {
    lines := AppendLines([], "+ ", c.Keys - p.Keys);
    lines := AppendLines(lines, "- ", p.Keys - c.Keys);
    lines := AppendLines(lines, "~ ", Changed(p, c));
    SignsDisjoint(p, c);
    SortSorts(lines);
    lines := Sort(lines);
  }

  /**
    `compareOpenAPIOps`: an error when a document is no map, otherwise the sorted difference of some
    collection of each side's operations; none at all for two spellings of a document that names no operation twice.
  */
  method CompareOperations(prev: Node, curr: Node)
    returns (r: Option<seq<string>>, ghost p: map<string, Node>, ghost c: map<string, Node>)
    ensures r.Some? <==> Decodes(prev) && Decodes(curr)
    ensures r.Some? ==> Picks(p, OperationsOf(prev)) && Picks(c, OperationsOf(curr)) && Lists(r.value, p, c)
    ensures r.Some? && SameDocument(prev, curr) && Functional(OperationsOf(prev)) ==> r.value == []
  {
    p, c := map[], map[];
    CanonicalDecodes(prev);
    CanonicalDecodes(curr);
    var prevOps := ExtractOperations(Canonicalize(prev));
    var currOps := ExtractOperations(Canonicalize(curr));
    if prevOps.None? || currOps.None? {
      return None, p, c;
    }
    p, c := prevOps.value, currOps.value;
    var lines := ListChanges(prevOps.value, currOps.value);
    if SameDocument(prev, curr) && Functional(OperationsOf(prev)) { NoiseIsSilent(prev, curr, p, c, lines); }
    r := Some(lines);
  }

  lemma {:induction false} CanonicalDecodes(doc: Node)
    ensures Decodes(Canonicalize(doc)) <==> Decodes(doc)
  {
  }

  /**
    A specification and a noisy spelling of it show no difference, whatever order their operations are
    collected in.
  */
  lemma {:induction false} NoiseIsSilent(
    a: Node, b: Node, p: map<string, Node>, c: map<string, Node>, lines: seq<string>)
    requires SameDocument(a, b) && Functional(OperationsOf(a))
    requires Picks(p, OperationsOf(a)) && Picks(c, OperationsOf(b)) && Lists(lines, p, c)
    ensures lines == []
  {
    SameDocumentSameOperations(a, b);
    PicksAgree(p, c, OperationsOf(a));
    NoLinesIffEqual(p, c);
    assert |lines| == |multiset(lines)| == |multiset(DiffLines(p, c))|;
  }

  lemma SignsDisjoint(p: map<string, Node>, c: map<string, Node>)
    ensures multiset(DiffLines(p, c)) ==
            multiset(set k | k in c.Keys - p.Keys :: "+ " + k)
            + multiset(set k | k in p.Keys - c.Keys :: "- " + k)
            + multiset(set k | k in Changed(p, c) :: "~ " + k)
  {
    var x := set k | k in c.Keys - p.Keys :: "+ " + k;
    var y := set k | k in p.Keys - c.Keys :: "- " + k;
    var z := set k | k in Changed(p, c) :: "~ " + k;
    assert forall l :: l in x ==> l[0] == '+';
    assert forall l :: l in y ==> l[0] == '-';
    assert forall l :: l in z ==> l[0] == '~';
    assert forall l :: multiset(x + y + z)[l] == multiset(x)[l] + multiset(y)[l] + multiset(z)[l];
  }

  /** What each sign says. */
  lemma SignsSay(p: map<string, Node>, c: map<string, Node>, k: string)
    ensures "+ " + k in DiffLines(p, c) <==> k in c && k !in p
    ensures "- " + k in DiffLines(p, c) <==> k in p && k !in c
    ensures "~ " + k in DiffLines(p, c) <==> k in p && k in c && p[k] != c[k]
  {
    forall j
      ensures "+ " + j == "+ " + k ==> j == k
      ensures "- " + j == "- " + k ==> j == k
      ensures "~ " + j == "~ " + k ==> j == k
    {
      assert ("+ " + j)[2..] == j && ("+ " + k)[2..] == k && ("- " + j)[2..] == j && ("- " + k)[2..] == k;
      assert ("~ " + j)[2..] == j && ("~ " + k)[2..] == k;
    }
    assert forall j :: ("+ " + j)[0] == '+' && ("- " + j)[0] == '-' && ("~ " + j)[0] == '~';
  }

  /** The diff is empty exactly when the operations are the same. */
  lemma NoLinesIffEqual(p: map<string, Node>, c: map<string, Node>)
    ensures DiffLines(p, c) == {} <==> p == c
  {
    if DiffLines(p, c) == {} {
      assert forall k :: k in c.Keys - p.Keys ==> "+ " + k in DiffLines(p, c);
      assert forall k :: k in p.Keys - c.Keys ==> "- " + k in DiffLines(p, c);
      assert forall k :: k in Changed(p, c) ==> "~ " + k in DiffLines(p, c);
      assert c.Keys - p.Keys == {} && p.Keys - c.Keys == {} && Changed(p, c) == {};
    }
  }

  /** No key stands for two different operations. */
  ghost predicate Functional(entries: set<(string, Node)>) {
    forall d, e :: d in entries && e in entries && d.0 == e.0 ==> d.1 == e.1
  }

  ghost function SomePick(entries: set<(string, Node)>): (ops: map<string, Node>)
    ensures Picks(ops, entries)
  {
    var keys := set e | e in entries :: e.0;
    assert forall k :: k in keys ==> HasValue(entries, k);
    map k | k in keys && HasValue(entries, k) :: ValueOf(entries, k)
  }

  ghost predicate HasValue(entries: set<(string, Node)>, k: string) {
    exists v :: (k, v) in entries
  }

  ghost function ValueOf(entries: set<(string, Node)>, k: string): (v: Node)
    requires HasValue(entries, k)
    ensures (k, v) in entries
  {
    var v :| (k, v) in entries;
    v
  }

  /**
    The same operations show no difference, whatever order the collections run in, exactly when no key
    is ambiguous.
  */
  lemma NoDiffIffFunctional(entries: set<(string, Node)>)
    ensures Functional(entries) <==> forall p, c :: Picks(p, entries) && Picks(c, entries) ==> DiffLines(p, c) == {}
  {
    if Functional(entries) {
      forall p, c | Picks(p, entries) && Picks(c, entries)
        ensures DiffLines(p, c) == {}
      {
        PicksAgree(p, c, entries);
        NoLinesIffEqual(p, c);
      }
    } else {
      var p, c := AmbiguousPicks(entries);
      NoLinesIffEqual(p, c);
    }
  }

  lemma AmbiguousPicks(entries: set<(string, Node)>) returns (p: map<string, Node>, c: map<string, Node>)
    requires !Functional(entries)
    ensures Picks(p, entries) && Picks(c, entries) && p != c
  {
    var d, e :| d in entries && e in entries && d.0 == e.0 && d.1 != e.1;
    var pick := SomePick(entries);
    p, c := pick[d.0 := d.1], pick[d.0 := e.1];
    assert p[d.0] != c[d.0];
  }

  /** Noise never shows: two spellings of one document have the same operations. */
  lemma {:induction false} SameDocumentSameOperations(a: Node, b: Node)
    requires SameDocument(a, b)
    ensures OperationsOf(a) == OperationsOf(b)
  {
    CanonicalIffSame(a, b);
  }

  lemma PicksAgree(p: map<string, Node>, c: map<string, Node>, entries: set<(string, Node)>)
    requires Picks(p, entries) && Picks(c, entries) && Functional(entries)
    ensures p == c
  {
    forall k | k in p
      ensures k in c && c[k] == p[k]
    {
      assert (k, p[k]) in entries && (k, p[k]).0 in c;
    }
    forall k | k in c
      ensures k in p
    {
      assert (k, c[k]) in entries && (k, c[k]).0 in p;
    }
  }

  /** Method names that differ by more than case make every key unambiguous. */
  lemma DistinctMethodsFunctional(paths: map<string, Node>)
    requires forall path, m, n ::
               IsOperation(paths, path, m) && IsOperation(paths, path, n) && Design.Lower(m) == Design.Lower(n) ==>
               m == n
    ensures Functional(Operations(paths))
  {
    forall d, e | d in Operations(paths) && e in Operations(paths) && d.0 == e.0
      ensures d.1 == e.1
    {
      var p, m :| p in paths && m in MethodsOf(paths[p]) && IsOperation(paths, p, m) &&
        d == (OpKey(m, p), paths[p].fields[m]);
      var q, n :| q in paths && n in MethodsOf(paths[q]) && IsOperation(paths, q, n) &&
        e == (OpKey(n, q), paths[q].fields[n]);
      OpKeyInjective(m, p, n, q);
    }
  }

  lemma OpKeyInjective(m: string, p: string, n: string, q: string)
    requires IsHttpMethod(Design.Lower(m)) && IsHttpMethod(Design.Lower(n)) && OpKey(m, p) == OpKey(n, q)
    ensures p == q && Design.Lower(m) == Design.Lower(n)
  {
    var a, b := Upper(Design.Lower(m)), Upper(Design.Lower(n));
    UpperMethod(Design.Lower(m));
    UpperMethod(Design.Lower(n));
    SplitOnce(a, b, ' ', p, q);
    UpperInjective(Design.Lower(m), Design.Lower(n));
  }

  lemma UpperMethod(m: string)
    requires IsHttpMethod(m)
    ensures |Upper(m)| == |m| && ' ' !in Upper(m)
    ensures forall i :: 0 <= i < |m| ==> 'a' <= m[i] <= 'z'
  {
  }

  lemma UpperInjective(m: string, n: string)
    requires IsHttpMethod(m) && IsHttpMethod(n) && Upper(m) == Upper(n)
    ensures m == n
  {
    UpperMethod(m);
    UpperMethod(n);
    assert |m| == |n|;
    forall i | 0 <= i < |m|
      ensures m[i] == n[i]
    {
      assert Upper(m)[i] == Upper(n)[i];
    }
  }
}
