/**
  The OpenAPI canonicaliser and the operation diff built on it. YAML parsing and
  printing are left out: a document is its parsed tree, and the text of a canonical
  tree determines the tree.
*/
module OpenApi {
  import opened Strings

  /** Mapping keys as the YAML parser yields them; Other is any key printed with its default format. */
  datatype Key = KString(s: string) | KInt(i: int) | KBool(b: bool) | KNull | KOther(text: string)

  datatype Entry = Entry(key: Key, value: Node)

  /**
    A parsed tree. StrMap is a map with string keys, Mixed a map with keys of any kind,
    its entries in the order in which one iteration over it happens to visit them.
  */
  datatype Node =
    | Scalar(kind: string, text: string)
    | List(items: seq<Node>)
    | StrMap(fields: map<string, Node>)
    | Mixed(entries: seq<Entry>)

  const EMPTY_DROP_KEYS: set<string> := {"required", "parameters", "tags", "security"}

  function KeyToString(k: Key): string {
    match k
    case KString(s) => s
    case KInt(i) => Itoa(i)
    case KBool(b) => if b then "true" else "false"
    case KNull => "null"
    case KOther(text) => text
  }

  predicate ShouldDrop(key: string, value: Node) {
    key in EMPTY_DROP_KEYS && value == List([])
  }

  /** A map filled pair by pair: empty noise lists are skipped, later pairs overwrite earlier ones. */
  function Collect(ps: seq<(string, Node)>): map<string, Node> {
    if ps == [] then map[]
    else
      var front, last := Collect(ps[..|ps| - 1]), ps[|ps| - 1];
      if ShouldDrop(last.0, last.1) then front else front[last.0 := last.1]
  }

  /** `canonicalize`: string keys throughout, empty noise lists dropped, at every depth. */
  function Canonicalize(n: Node): Node {
    match n
    case Scalar(_, _) => n
    case List(items) => List(seq(|items|, i requires 0 <= i < |items| => Canonicalize(items[i])))
    case StrMap(fields) =>
      StrMap(map k | k in fields && !ShouldDrop(k, Canonicalize(fields[k])) :: Canonicalize(fields[k]))
    case Mixed(entries) =>
      StrMap(Collect(seq(|entries|, i requires 0 <= i < |entries| =>
        (KeyToString(entries[i].key), Canonicalize(entries[i].value)))))
  }

  /** What a document says nothing by: an empty list of one of four kinds. */
  predicate Noise(key: string, value: Node) {
    (key == "required" || key == "parameters" || key == "tags" || key == "security") && value == List([])
  }

  lemma NoiseIsDropped(key: string, value: Node)
    ensures Noise(key, value) <==> ShouldDrop(key, value)
  {
  }

  /** An empty list under one of the four keys might as well not be there. */
  lemma NoiseVanishes(fields: map<string, Node>, k: string)
    requires k in {"required", "parameters", "tags", "security"}
    ensures Canonicalize(StrMap(fields[k := List([])])) == Canonicalize(StrMap(fields - {k}))
  {
    var a, b := StrMap(fields[k := List([])]), StrMap(fields - {k});
    assert Canonicalize(List([])) == List([]);
    assert Canonicalize(a).fields == Canonicalize(b).fields;
  }

  /** Every other field stays. */
  lemma FieldStays(fields: map<string, Node>, k: string)
    requires k in fields
    requires k !in {"required", "parameters", "tags", "security"} || fields[k] != List([])
    ensures k in Canonicalize(StrMap(fields)).fields
    ensures Canonicalize(StrMap(fields)).fields[k] == Canonicalize(fields[k])
  {
    DropUnchanged(k, fields[k]);
  }

  /** The same for an entry whose key reads so, wherever the visit of the map meets it. */
  lemma {:induction false} EntryNoiseVanishes(before: seq<Entry>, e: Entry, after: seq<Entry>)
    requires KeyToString(e.key) in {"required", "parameters", "tags", "security"} && e.value == List([])
    ensures Canonicalize(Mixed(before + [e] + after)) == Canonicalize(Mixed(before + after))
  {
    NoiseIsDropped(KeyToString(e.key), e.value);
    if after == [] {
      assert before + [e] + [] == before + [e] && before + [] == before;
      CollectMore(before, e);
    } else {
      var n := |after| - 1;
      EntryNoiseVanishes(before, e, after[..n]);
      assert after == after[..n] + [after[n]];
      assert before + [e] + after == (before + [e] + after[..n]) + [after[n]];
      assert before + after == (before + after[..n]) + [after[n]];
      CollectMore(before + [e] + after[..n], after[n]);
      CollectMore(before + after[..n], after[n]);
    }
  }

  lemma {:induction false} CollectMore(es: seq<Entry>, e: Entry)
    ensures var k, v := KeyToString(e.key), Canonicalize(e.value);
            Canonicalize(Mixed(es + [e])).fields ==
              if ShouldDrop(k, v) then Canonicalize(Mixed(es)).fields else Canonicalize(Mixed(es)).fields[k := v]
  {
    var all := es + [e];
    var ps := seq(|es|, i requires 0 <= i < |es| => (KeyToString(es[i].key), Canonicalize(es[i].value)));
    var qs := seq(|all|, i requires 0 <= i < |all| => (KeyToString(all[i].key), Canonicalize(all[i].value)));
    assert qs[..|qs| - 1] == ps;
  }

  /** A key under which an entry says something stays. */
  lemma EntryStays(es: seq<Entry>, e: Entry)
    requires e in es
    requires KeyToString(e.key) !in {"required", "parameters", "tags", "security"} || e.value != List([])
    ensures KeyToString(e.key) in Canonicalize(Mixed(es)).fields
  {
    ContentOfMixed(es, KeyToString(e.key));
    CanonicalFields(Mixed(es));
  }

  /** How keys read: as the parser's text for them. */
  lemma {:induction false} KeysRead(s: string)
    ensures KeyToString(KString(s)) == s && KeyToString(KNull) == "null"
    ensures KeyToString(KBool(true)) == "true" && KeyToString(KBool(false)) == "false"
    ensures KeyToString(KInt(200)) == "200" && KeyToString(KInt(-1)) == "-1" && KeyToString(KOther(s)) == s
  {
    TwoHundred();
    assert Decimal(1) == "1";
  }

  // ---- What canonical form means ---------------------------------------------

  predicate IsMap(n: Node) {
    n.StrMap? || n.Mixed?
  }

  function Spelled(es: seq<Entry>): (ps: seq<(string, Node)>)
    ensures |ps| == |es| && forall i :: 0 <= i < |es| ==> ps[i] == (KeyToString(es[i].key), es[i].value)
  {
    seq(|es|, i requires 0 <= i < |es| => (KeyToString(es[i].key), es[i].value))
  }

  function CanonicalPairs(ps: seq<(string, Node)>): (qs: seq<(string, Node)>)
    ensures |qs| == |ps| && forall i :: 0 <= i < |ps| ==> qs[i] == (ps[i].0, Canonicalize(ps[i].1))
  {
    seq(|ps|, i requires 0 <= i < |ps| => (ps[i].0, Canonicalize(ps[i].1)))
  }

  /** The entries of a map that carry content, by spelled key: all but the empty noise lists. */
  function Content(n: Node): (r: map<string, Node>)
    requires IsMap(n)
    ensures forall k :: k in r ==> r[k] < n
  {
    match n
    case StrMap(fields) => map k | k in fields && !Noise(k, fields[k]) :: fields[k]
    case Mixed(entries) =>
      var ps := Spelled(entries);
      CollectFrom(ps);
      Collect(ps)
  }

  lemma {:induction false} CollectFrom(ps: seq<(string, Node)>)
    ensures forall k :: k in Collect(ps) ==> !ShouldDrop(k, Collect(ps)[k]) && (k, Collect(ps)[k]) in ps
  {
    if ps != [] {
      var front := ps[..|ps| - 1];
      CollectFrom(front);
      assert ps == front + [ps[|ps| - 1]];
    }
  }

  /**
    The same document up to noise: equal scalars, lists equal item by item, maps whose
    contents agree key by key, however the keys are typed and whatever empty
    required, parameters, tags or security lists they hold.
  */
  ghost predicate SameDocument(a: Node, b: Node) {
    if IsMap(a) && IsMap(b) then
      && Content(a).Keys == Content(b).Keys
      && forall k :: k in Content(a) ==> SameDocument(Content(a)[k], Content(b)[k])
    else if a.List? && b.List? then
      && |a.items| == |b.items|
      && forall i :: 0 <= i < |a.items| ==> SameDocument(a.items[i], b.items[i])
    else
      a.Scalar? && b.Scalar? && a == b
  }

  lemma {:induction false} DropUnchanged(key: string, n: Node)
    ensures ShouldDrop(key, Canonicalize(n)) <==> ShouldDrop(key, n)
  {
    if n.List? {
      assert |Canonicalize(n).items| == |n.items|;
    }
  }

  lemma {:induction false} CollectCanonical(ps: seq<(string, Node)>)
    ensures Collect(CanonicalPairs(ps)).Keys == Collect(ps).Keys
    ensures forall k :: k in Collect(ps) ==> Collect(CanonicalPairs(ps))[k] == Canonicalize(Collect(ps)[k])
  {
    if ps != [] {
      var n := |ps| - 1;
      assert CanonicalPairs(ps)[..n] == CanonicalPairs(ps[..n]);
      CollectCanonical(ps[..n]);
      DropUnchanged(ps[n].0, ps[n].1);
    }
  }

  /** A map's canonical form holds the canonical forms of its contents and nothing else. */
  lemma {:induction false} CanonicalFields(n: Node)
    requires IsMap(n)
    ensures Canonicalize(n).StrMap? && Canonicalize(n).fields.Keys == Content(n).Keys
    ensures forall k :: k in Content(n) ==> Canonicalize(n).fields[k] == Canonicalize(Content(n)[k])
  {
    match n
    case StrMap(fields) =>
      forall k | k in fields
        ensures ShouldDrop(k, Canonicalize(fields[k])) <==> ShouldDrop(k, fields[k])
      {
        DropUnchanged(k, fields[k]);
      }
    case Mixed(entries) =>
      var ps := Spelled(entries);
      CollectCanonical(ps);
      assert CanonicalPairs(ps) ==
             seq(|entries|, i requires 0 <= i < |entries| =>
               (KeyToString(entries[i].key), Canonicalize(entries[i].value)));
  }

  /** Canonical form is a complete invariant: equal exactly for the same documents. */
  lemma {:induction false} CanonicalIffSame(a: Node, b: Node)
    ensures Canonicalize(a) == Canonicalize(b) <==> SameDocument(a, b)
    decreases a
  {
    if IsMap(a) && IsMap(b) {
      CanonicalFields(a);
      CanonicalFields(b);
      forall k | k in Content(a) && k in Content(b)
        ensures Canonicalize(Content(a)[k]) == Canonicalize(Content(b)[k]) <==>
          SameDocument(Content(a)[k], Content(b)[k])
      {
        CanonicalIffSame(Content(a)[k], Content(b)[k]);
      }
      MapCase(a, b);
    } else if a.List? && b.List? {
      forall i | 0 <= i < |a.items| && i < |b.items|
        ensures Canonicalize(a.items[i]) == Canonicalize(b.items[i]) <==> SameDocument(a.items[i], b.items[i])
      {
        CanonicalIffSame(a.items[i], b.items[i]);
      }
      ListCase(a, b);
    }
  }

  lemma {:induction false} MapCase(a: Node, b: Node)
    requires IsMap(a) && IsMap(b)
    requires forall k :: k in Content(a) && k in Content(b) ==>
               (Canonicalize(Content(a)[k]) == Canonicalize(Content(b)[k]) <==>
                 SameDocument(Content(a)[k], Content(b)[k]))
    ensures Canonicalize(a) == Canonicalize(b) <==> SameDocument(a, b)
  {
    CanonicalFields(a);
    CanonicalFields(b);
    if SameDocument(a, b) {
      assert Canonicalize(a).fields == Canonicalize(b).fields;
    }
    if Canonicalize(a) == Canonicalize(b) {
      assert Content(a).Keys == Content(b).Keys;
    }
  }

  lemma {:induction false} ListCase(a: Node, b: Node)
    requires a.List? && b.List?
    requires forall i :: 0 <= i < |a.items| && i < |b.items| ==>
               (Canonicalize(a.items[i]) == Canonicalize(b.items[i]) <==> SameDocument(a.items[i], b.items[i]))
    ensures Canonicalize(a) == Canonicalize(b) <==> SameDocument(a, b)
  {
    var x, y := Canonicalize(a).items, Canonicalize(b).items;
    assert |x| == |a.items| && |y| == |b.items|;
    if SameDocument(a, b) {
      assert x == y;
    }
    if Canonicalize(a) == Canonicalize(b) {
      forall i | 0 <= i < |a.items|
        ensures SameDocument(a.items[i], b.items[i])
      {
        assert x[i] == y[i];
      }
    }
  }

  /** A document is the same as its own canonical form. */
  lemma {:induction false} SameAsCanonical(n: Node)
    ensures SameDocument(n, Canonicalize(n))
    decreases n
  {
    var c := Canonicalize(n);
    if IsMap(n) {
      CanonicalFields(n);
      CanonicalContent(n);
      forall k | k in Content(n)
        ensures SameDocument(Content(n)[k], Content(c)[k])
      {
        SameAsCanonical(Content(n)[k]);
      }
    } else if n.List? {
      forall i | 0 <= i < |n.items|
        ensures SameDocument(n.items[i], c.items[i])
      {
        SameAsCanonical(n.items[i]);
      }
    }
  }

  lemma {:induction false} CanonicalContent(n: Node)
    requires IsMap(n)
    ensures IsMap(Canonicalize(n)) && Content(Canonicalize(n)) == Canonicalize(n).fields
  {
    CanonicalFields(n);
    forall k | k in Canonicalize(n).fields
      ensures !ShouldDrop(k, Canonicalize(n).fields[k])
    {
      DropUnchanged(k, Content(n)[k]);
      ContentNotDropped(n, k);
    }
  }

  lemma ContentNotDropped(n: Node, k: string)
    requires IsMap(n) && k in Content(n)
    ensures !ShouldDrop(k, Content(n)[k])
  {
    if n.Mixed? {
      CollectFrom(Spelled(n.entries));
    }
  }

  /** Canonicalising twice changes nothing. */
  lemma {:induction false} CanonicalizeIdempotent(n: Node)
    ensures Canonicalize(Canonicalize(n)) == Canonicalize(n)
  {
    SameAsCanonical(n);
    CanonicalIffSame(n, Canonicalize(n));
  }

  // ---- Iteration order -------------------------------------------------------

  /** Two entries with content that are spelled alike have the same canonical value. */
  ghost predicate Unambiguous(es: seq<Entry>) {
    forall d, e :: d in es && e in es && KeyToString(d.key) == KeyToString(e.key) && HasContent(d) && HasContent(e) ==>
      Canonicalize(d.value) == Canonicalize(e.value)
  }

  predicate HasContent(e: Entry) {
    !Noise(KeyToString(e.key), e.value)
  }

  lemma {:induction false} CollectKeys(ps: seq<(string, Node)>, k: string)
    ensures k in Collect(ps) <==> exists p :: p in ps && p.0 == k && !ShouldDrop(p.0, p.1)
  {
    if ps != [] {
      var front, last := ps[..|ps| - 1], ps[|ps| - 1];
      CollectKeys(front, k);
      assert ps == front + [last];
    }
  }

  lemma SpelledIn(es: seq<Entry>, p: (string, Node))
    ensures p in Spelled(es) <==> exists e :: e in es && p == (KeyToString(e.key), e.value)
  {
    if p in Spelled(es) {
      var i :| 0 <= i < |es| && Spelled(es)[i] == p;
      assert es[i] in es;
    }
    if e :| e in es && p == (KeyToString(e.key), e.value) {
      var i :| 0 <= i < |es| && es[i] == e;
      assert Spelled(es)[i] == p;
    }
  }

  /** Which keys survive, and where each value comes from. */
  lemma ContentOfMixed(es: seq<Entry>, k: string)
    ensures k in Content(Mixed(es)) <==> exists e :: e in es && HasContent(e) && KeyToString(e.key) == k
    ensures k in Content(Mixed(es)) ==>
              exists e :: e in es && HasContent(e) && KeyToString(e.key) == k && e.value == Content(Mixed(es))[k]
  {
    var ps := Spelled(es);
    CollectKeys(ps, k);
    if e :| e in es && HasContent(e) && KeyToString(e.key) == k {
      SpelledIn(es, (k, e.value));
    }
    if k in Collect(ps) {
      CollectFrom(ps);
      SpelledIn(es, (k, Collect(ps)[k]));
    }
  }

  /** Every order keeps the same keys, with values of the same canonical form. */
  lemma UnambiguousAt(es: seq<Entry>, fs: seq<Entry>, k: string)
    requires Unambiguous(es) && forall e :: e in es <==> e in fs
    ensures k in Content(Mixed(es)) <==> k in Content(Mixed(fs))
    ensures k in Content(Mixed(es)) ==> Canonicalize(Content(Mixed(es))[k]) == Canonicalize(Content(Mixed(fs))[k])
  {
    ContentOfMixed(es, k);
    ContentOfMixed(fs, k);
  }

  lemma UnambiguousOrderFree(es: seq<Entry>, fs: seq<Entry>)
    requires Unambiguous(es) && multiset(es) == multiset(fs)
    ensures Canonicalize(Mixed(es)) == Canonicalize(Mixed(fs))
  {
    var a, b := Mixed(es), Mixed(fs);
    assert forall e :: e in es <==> e in fs by {
      assert forall e :: e in es <==> e in multiset(es);
      assert forall e :: e in fs <==> e in multiset(fs);
    }
    CanonicalFields(a);
    CanonicalFields(b);
    forall k
      ensures k in Content(a) <==> k in Content(b)
      ensures k in Content(a) ==> Canonicalize(Content(a)[k]) == Canonicalize(Content(b)[k])
    {
      UnambiguousAt(es, fs, k);
    }
    assert Canonicalize(a).fields == Canonicalize(b).fields;
  }

  /** The entry visited last is the one kept. */
  lemma LastKept(fs: seq<Entry>, last: Entry)
    requires fs != [] && fs[|fs| - 1] == last && HasContent(last)
    ensures var c := Canonicalize(Mixed(fs));
            KeyToString(last.key) in c.fields && c.fields[KeyToString(last.key)] == Canonicalize(last.value)
  {
    assert Spelled(fs)[|fs| - 1] == (KeyToString(last.key), last.value);
    CanonicalFields(Mixed(fs));
  }

  /** Entry i visited after all the others. */
  function ToLast(es: seq<Entry>, i: nat): (fs: seq<Entry>)
    requires i < |es|
    ensures multiset(fs) == multiset(es) && |fs| == |es| && fs[|fs| - 1] == es[i]
  {
    assert es == es[..i] + [es[i]] + es[i + 1..];
    es[..i] + es[i + 1..] + [es[i]]
  }

  /**
    With everything below them left alone, the entries of a map may come in any order exactly when they
    are unambiguous.
  */
  lemma RootOrderIff(es: seq<Entry>)
    ensures Unambiguous(es) <==>
            forall fs: seq<Entry> :: multiset(fs) == multiset(es) ==> Canonicalize(Mixed(fs)) == Canonicalize(Mixed(es))
  {
    if Unambiguous(es) {
      forall fs: seq<Entry> | multiset(fs) == multiset(es)
        ensures Canonicalize(Mixed(fs)) == Canonicalize(Mixed(es))
      {
        UnambiguousOrderFree(es, fs);
      }
    } else {
      var d, e :| d in es && e in es && KeyToString(d.key) == KeyToString(e.key) && HasContent(d) && HasContent(e)
                  && Canonicalize(d.value) != Canonicalize(e.value);
      var i :| 0 <= i < |es| && es[i] == d;
      var j :| 0 <= j < |es| && es[j] == e;
      LastKept(ToLast(es, i), d);
      LastKept(ToLast(es, j), e);
      assert Canonicalize(Mixed(ToLast(es, i))) != Canonicalize(Mixed(ToLast(es, j)));
    }
  }

  /** The same tree as one walk visits it: the entries of its maps, at every depth, in another order. */
  ghost predicate Reordered(a: Node, b: Node)
    decreases a, 1
  {
    match a
    case Scalar(_, _) => b == a
    case List(items) =>
      b.List? && |b.items| == |items| && forall i :: 0 <= i < |items| ==> Reordered(items[i], b.items[i])
    case StrMap(fields) =>
      b.StrMap? && b.fields.Keys == fields.Keys && forall k :: k in fields ==> Reordered(fields[k], b.fields[k])
    case Mixed(entries) =>
      b.Mixed? && exists fs :: Visits(a, fs, b.entries)
  }

  /** The map's entries in the order fs, each reordered below, are the entries gs. */
  ghost predicate Visits(a: Node, fs: seq<Entry>, gs: seq<Entry>)
    requires a.Mixed?
    decreases a, 0
  {
    && multiset(fs) == multiset(a.entries) && |fs| == |gs|
    && forall i :: 0 <= i < |fs| && fs[i] in a.entries ==> fs[i].key == gs[i].key && Reordered(fs[i].value, gs[i].value)
  }

  /** In no map, however deep, are two entries with content spelled alike and different. */
  ghost predicate Determined(n: Node) {
    match n
    case Scalar(_, _) => true
    case List(items) => forall i :: 0 <= i < |items| ==> Determined(items[i])
    case StrMap(fields) => forall k :: k in fields ==> Determined(fields[k])
    case Mixed(entries) => Unambiguous(entries) && forall i :: 0 <= i < |entries| ==> Determined(entries[i].value)
  }

  lemma {:induction false} ReorderedSelf(n: Node)
    ensures Reordered(n, n)
  {
    match n
    case Scalar(_, _) =>
    case List(items) => forall i | 0 <= i < |items| ensures Reordered(items[i], items[i]) { ReorderedSelf(items[i]); }
    case StrMap(fields) => forall k | k in fields ensures Reordered(fields[k], fields[k]) { ReorderedSelf(fields[k]); }
    case Mixed(entries) =>
      forall i | 0 <= i < |entries| ensures Reordered(entries[i].value, entries[i].value) {
        ReorderedSelf(entries[i].value);
      }
      assert Visits(n, entries, entries);
  }

  lemma ReorderedRoot(es: seq<Entry>, fs: seq<Entry>)
    requires multiset(fs) == multiset(es)
    ensures Reordered(Mixed(es), Mixed(fs))
  {
    forall i | 0 <= i < |fs| ensures Reordered(fs[i].value, fs[i].value) { ReorderedSelf(fs[i].value); }
    ReorderedEntries(es, fs, fs);
  }

  /** Entries with the same keys and values of the same canonical form collect to the same map. */
  lemma SameEntries(es: seq<Entry>, fs: seq<Entry>)
    requires |es| == |fs|
    requires forall i :: 0 <= i < |es| ==>
      es[i].key == fs[i].key && Canonicalize(es[i].value) == Canonicalize(fs[i].value)
    ensures Canonicalize(Mixed(es)) == Canonicalize(Mixed(fs))
  {
    assert seq(|es|, i requires 0 <= i < |es| => (KeyToString(es[i].key), Canonicalize(es[i].value)))
        == seq(|fs|, i requires 0 <= i < |fs| => (KeyToString(fs[i].key), Canonicalize(fs[i].value)));
  }

  /** A determined tree has one canonical form, whatever order a walk visits it in. */
  lemma {:induction false} DeterminedOrderFree(a: Node, b: Node)
    requires Determined(a) && Reordered(a, b)
    ensures Canonicalize(b) == Canonicalize(a)
    decreases a
  {
    match a
    case Scalar(_, _) =>
    case List(items) =>
      forall i | 0 <= i < |items| ensures Canonicalize(b.items[i]) == Canonicalize(items[i]) {
        DeterminedOrderFree(items[i], b.items[i]);
      }
      assert Canonicalize(b).items == Canonicalize(a).items;
    case StrMap(fields) =>
      forall k | k in fields ensures Canonicalize(b.fields[k]) == Canonicalize(fields[k]) {
        DeterminedOrderFree(fields[k], b.fields[k]);
      }
      assert Canonicalize(b).fields == Canonicalize(a).fields;
    case Mixed(entries) =>
      var fs := VisitedAs(entries, b);
      forall i | 0 <= i < |fs|
        ensures Canonicalize(fs[i].value) == Canonicalize(b.entries[i].value)
      {
        DeterminedOrderFree(fs[i].value, b.entries[i].value);
      }
      SameEntries(fs, b.entries);
      UnambiguousOrderFree(entries, fs);
  }

  /** The order in which a visit of a map takes its entries. */
  lemma VisitedAs(es: seq<Entry>, b: Node) returns (fs: seq<Entry>)
    requires Reordered(Mixed(es), b)
    ensures multiset(fs) == multiset(es) && b.Mixed? && |fs| == |b.entries|
    ensures forall i :: 0 <= i < |fs| ==> fs[i].key == b.entries[i].key && Reordered(fs[i].value, b.entries[i].value)
    ensures forall i :: 0 <= i < |fs| ==> fs[i] in es
  {
    fs :| Visits(Mixed(es), fs, b.entries);
    SameMembers(fs, es);
  }

  lemma SameMembers(fs: seq<Entry>, es: seq<Entry>)
    requires multiset(fs) == multiset(es)
    ensures forall i :: 0 <= i < |fs| ==> fs[i] in es
  {
    forall i | 0 <= i < |fs| ensures fs[i] in es {
      assert fs[i] in multiset(fs);
      assert fs[i] in multiset(es);
    }
  }

  lemma {:induction false} NotEmptyList(a: Node, b: Node, key: string)
    requires Reordered(a, b) && !Determined(a)
    ensures !ShouldDrop(key, a) && !ShouldDrop(key, b)
  {
  }

  /** An undetermined tree comes out differently in some order. */
  lemma {:induction false} UndeterminedDiffers(a: Node) returns (b: Node)
    requires !Determined(a)
    ensures Reordered(a, b) && Canonicalize(b) != Canonicalize(a)
    decreases a
  {
    match a
    case Scalar(_, _) =>
    case List(items) =>
      var i :| 0 <= i < |items| && !Determined(items[i]);
      var c := UndeterminedDiffers(items[i]);
      b := List(items[i := c]);
      forall j | 0 <= j < |items| ensures Reordered(items[j], b.items[j]) { ReorderedSelf(items[j]); }
      assert Canonicalize(b).items[i] != Canonicalize(a).items[i];
    case StrMap(fields) =>
      var k :| k in fields && !Determined(fields[k]);
      var c := UndeterminedDiffers(fields[k]);
      b := FieldDiffers(fields, k, c);
    case Mixed(entries) =>
      if Unambiguous(entries) {
        var i :| 0 <= i < |entries| && !Determined(entries[i].value);
        var c := UndeterminedDiffers(entries[i].value);
        b := EntryDiffers(entries, i, c);
      } else {
        RootOrderIff(entries);
        var fs: seq<Entry> :| multiset(fs) == multiset(entries)
                              && Canonicalize(Mixed(fs)) != Canonicalize(Mixed(entries));
        ReorderedRoot(entries, fs);
        b := Mixed(fs);
      }
  }

  lemma FieldDiffers(fields: map<string, Node>, k: string, c: Node) returns (b: Node)
    requires k in fields && !Determined(fields[k]) && Reordered(fields[k], c) &&
      Canonicalize(c) != Canonicalize(fields[k])
    ensures Reordered(StrMap(fields), b) && Canonicalize(b) != Canonicalize(StrMap(fields))
  {
    b := StrMap(fields[k := c]);
    forall j | j in fields ensures Reordered(fields[j], b.fields[j]) { ReorderedSelf(fields[j]); }
    assert b.fields.Keys == fields.Keys;
    NotEmptyList(fields[k], c, k);
    CanonicalFields(StrMap(fields));
    CanonicalFields(b);
    assert Canonicalize(b).fields[k] != Canonicalize(StrMap(fields)).fields[k];
  }

  lemma ReorderedEntries(es: seq<Entry>, fs: seq<Entry>, gs: seq<Entry>)
    requires multiset(fs) == multiset(es) && |gs| == |fs|
    requires forall i :: 0 <= i < |fs| ==> fs[i].key == gs[i].key && Reordered(fs[i].value, gs[i].value)
    ensures Reordered(Mixed(es), Mixed(gs))
  {
    assert Visits(Mixed(es), fs, gs);
  }

  lemma {:induction false} ReorderedLast(es: seq<Entry>, fs: seq<Entry>, last: Entry, c: Node)
    requires multiset(fs) == multiset(es) && fs != [] && last == fs[|fs| - 1] && Reordered(last.value, c)
    ensures Reordered(Mixed(es), Mixed(fs[|fs| - 1 := Entry(last.key, c)]))
  {
    var gs := fs[|fs| - 1 := Entry(last.key, c)];
    forall j | 0 <= j < |fs| ensures fs[j].key == gs[j].key && Reordered(fs[j].value, gs[j].value) {
      ReorderedSelf(fs[j].value);
    }
    ReorderedEntries(es, fs, gs);
  }

  lemma {:induction false} LastDiffers(fs: seq<Entry>, gs: seq<Entry>, last: Entry, c: Node)
    requires fs != [] && last == fs[|fs| - 1] && gs == fs[|fs| - 1 := Entry(last.key, c)]
    requires HasContent(last) && HasContent(Entry(last.key, c)) && Canonicalize(c) != Canonicalize(last.value)
    ensures Canonicalize(Mixed(gs)) != Canonicalize(Mixed(fs))
  {
    LastKept(fs, last);
    LastKept(gs, Entry(last.key, c));
  }

  lemma EntryDiffers(es: seq<Entry>, i: nat, c: Node) returns (b: Node)
    requires i < |es| && !Determined(es[i].value)
    requires Reordered(es[i].value, c) && Canonicalize(c) != Canonicalize(es[i].value)
    ensures Reordered(Mixed(es), b) && Canonicalize(b) != Canonicalize(Mixed(es))
  {
    var fs := ToLast(es, i);
    var gs := fs[|fs| - 1 := Entry(es[i].key, c)];
    NotEmptyList(es[i].value, c, KeyToString(es[i].key));
    ReorderedRoot(es, fs);
    ReorderedLast(es, fs, es[i], c);
    LastDiffers(fs, gs, es[i], c);
    b := if Canonicalize(Mixed(fs)) != Canonicalize(Mixed(es)) then Mixed(fs) else Mixed(gs);
  }

  /**
    The canonical form does not depend on the order in which maps are visited, at any depth,
    exactly when no map holds two entries with content that are spelled alike and differ.
  */
  lemma {:induction false} DeterminedIff(a: Node)
    ensures Determined(a) <==> forall b :: Reordered(a, b) ==> Canonicalize(b) == Canonicalize(a)
  {
    if Determined(a) {
      forall b | Reordered(a, b)
        ensures Canonicalize(b) == Canonicalize(a)
      {
        DeterminedOrderFree(a, b);
      }
    } else {
      var b := UndeterminedDiffers(a);
    }
  }

  function Responses(byCode: Node): Node {
    StrMap(map["responses" := byCode])
  }

  lemma {:induction false} ResponsesKept(n: Node)
    ensures Canonicalize(Responses(n)).fields.Keys == {"responses"}
    ensures Canonicalize(Responses(n)).fields["responses"] == Canonicalize(n)
  {
  }

  lemma TwoHundred()
    ensures Itoa(200) == "200"
  {
    assert Decimal(2) == "2" && Decimal(20) == "20";
  }

  lemma EitherOrder(one: seq<Entry>, two: seq<Entry>, first: Entry, second: Entry)
    requires one == [first] + [second] && two == [second] + [first] && KeyToString(first.key) == KeyToString(second.key)
    requires HasContent(first) && HasContent(second) && Canonicalize(first.value) != Canonicalize(second.value)
    ensures Reordered(Mixed(one), Mixed(two)) && Canonicalize(Mixed(one)) != Canonicalize(Mixed(two))
  {
    ReorderedRoot(one, two);
    LastKept(one, second);
    LastKept(two, first);
  }

  /** A status code given both as 200 and as "200", with different responses, comes out either way. */
  lemma TwiceTheStatusCode(one: seq<Entry>, two: seq<Entry>, first: Entry, second: Entry)
    requires one == [first] + [second] && two == [second] + [first]
    requires first.key == KInt(200) && second.key == KString("200")
    requires Canonicalize(first.value) != Canonicalize(second.value)
    ensures Reordered(Responses(Mixed(one)), Responses(Mixed(two)))
    ensures Canonicalize(Responses(Mixed(one))) != Canonicalize(Responses(Mixed(two)))
    ensures !Determined(Responses(Mixed(one)))
  {
    TwoHundred();
    StatusCodeKept(first);
    StatusCodeKept(second);
    EitherOrder(one, two, first, second);
    ResponsesReordered(Mixed(one), Mixed(two));
  }

  lemma StatusCodeKept(e: Entry)
    requires KeyToString(e.key) == "200"
    ensures HasContent(e)
  {
  }

  lemma {:induction false} ResponsesReordered(one: Node, two: Node)
    requires Reordered(one, two) && Canonicalize(one) != Canonicalize(two)
    ensures Reordered(Responses(one), Responses(two)) && Canonicalize(Responses(one)) != Canonicalize(Responses(two))
    ensures !Determined(Responses(one))
  {
    ResponsesKept(one);
    ResponsesKept(two);
    ReorderedBelow(one, two, Responses(one), Responses(two));
    DifferentOrders(Responses(one), Responses(two));
  }

  lemma {:induction false} ReorderedBelow(one: Node, two: Node, a: Node, b: Node)
    requires Reordered(one, two) && a == Responses(one) && b == Responses(two)
    ensures Reordered(a, b)
  {
    assert a.fields.Keys == b.fields.Keys;
  }

  lemma {:induction false} DifferentOrders(a: Node, b: Node)
    requires Reordered(a, b) && Canonicalize(a) != Canonicalize(b)
    ensures !Determined(a)
  {
    if Determined(a) { DeterminedOrderFree(a, b); }
  }
}
