/** What the services use of Go's `strings`, `strconv` and `sort` packages. */
module Strings {

  // ---- White space -----------------------------------------------------------

  /** `unicode.IsSpace`. */
  predicate IsSpace(c: char) {
    || c == ' ' || '\t' <= c <= '\r'
    || c == '\U{0085}' || c == '\U{00A0}' || c == '\U{1680}'
    || '\U{2000}' <= c <= '\U{200A}'
    || c == '\U{2028}' || c == '\U{2029}' || c == '\U{202F}' || c == '\U{205F}' || c == '\U{3000}'
  }

  /** The twenty-five white space characters. */
  lemma SpaceIff(c: char)
    ensures IsSpace(c) <==> c in {
      ' ', '\t', '\n', '\U{000B}', '\U{000C}', '\r', '\U{0085}', '\U{00A0}', '\U{1680}', '\U{2000}', '\U{2001}',
      '\U{2002}', '\U{2003}', '\U{2004}', '\U{2005}', '\U{2006}', '\U{2007}', '\U{2008}', '\U{2009}', '\U{200A}',
      '\U{2028}', '\U{2029}', '\U{202F}', '\U{205F}', '\U{3000}'}
  {
  }

  predicate AllSpace(s: string) {
    forall i :: 0 <= i < |s| ==> IsSpace(s[i])
  }

  function TrimLeft(s: string): string {
    if s != "" && IsSpace(s[0]) then TrimLeft(s[1..]) else s
  }

  function TrimRight(s: string): string {
    if s != "" && IsSpace(s[|s| - 1]) then TrimRight(s[..|s| - 1]) else s
  }

  function TrimSpace(s: string): string {
    TrimRight(TrimLeft(s))
  }

  predicate Trimmed(s: string) {
    s != "" ==> !IsSpace(s[0]) && !IsSpace(s[|s| - 1])
  }

  lemma {:induction false} TrimLeftSkips(pre: string, s: string)
    requires AllSpace(pre) && (s != "" ==> !IsSpace(s[0]))
    ensures TrimLeft(pre + s) == s
  {
    if pre == "" {
      assert pre + s == s;
    } else {
      assert (pre + s)[1..] == pre[1..] + s;
      TrimLeftSkips(pre[1..], s);
    }
  }

  lemma {:induction false} TrimRightSkips(s: string, post: string)
    requires AllSpace(post) && (s != "" ==> !IsSpace(s[|s| - 1]))
    ensures TrimRight(s + post) == s
  {
    if post == "" {
      assert s + post == s;
    } else {
      assert (s + post)[..|s + post| - 1] == s + post[..|post| - 1];
      TrimRightSkips(s, post[..|post| - 1]);
    }
  }

  /** White space around a trimmed text is what trimming takes off. */
  lemma TrimSpaceAround(pre: string, s: string, post: string)
    requires AllSpace(pre) && AllSpace(post) && Trimmed(s)
    ensures TrimSpace(pre + s + post) == s
  {
    if s == "" {
      assert pre + s + post == (pre + post) + "";
      TrimLeftSkips(pre + post, "");
    } else {
      assert pre + s + post == pre + (s + post);
      TrimLeftSkips(pre, s + post);
      TrimRightSkips(s, post);
    }
  }

  lemma TrimSpaceTrimmed(s: string)
    requires Trimmed(s)
    ensures TrimSpace(s) == s
  {
    TrimSpaceAround("", s, "");
    assert "" + s + "" == s;
  }

  lemma {:induction false} TrimLeftSplits(s: string) returns (pre: string)
    ensures AllSpace(pre) && s == pre + TrimLeft(s)
    ensures TrimLeft(s) != "" ==> !IsSpace(TrimLeft(s)[0])
  {
    if s != "" && IsSpace(s[0]) {
      var rest := TrimLeftSplits(s[1..]);
      pre := [s[0]] + rest;
    } else {
      pre := "";
    }
  }

  lemma {:induction false} TrimRightSplits(s: string) returns (post: string)
    ensures AllSpace(post) && s == TrimRight(s) + post
    ensures TrimRight(s) != "" ==> !IsSpace(TrimRight(s)[|TrimRight(s)| - 1])
  {
    if s != "" && IsSpace(s[|s| - 1]) {
      var rest := TrimRightSplits(s[..|s| - 1]);
      post := rest + [s[|s| - 1]];
    } else {
      post := "";
    }
  }

  /** Every text is its trimmed core between white space. */
  lemma TrimSpaceSplits(s: string) returns (pre: string, post: string)
    ensures AllSpace(pre) && AllSpace(post) && s == pre + TrimSpace(s) + post && Trimmed(TrimSpace(s))
  {
    pre := TrimLeftSplits(s);
    post := TrimRightSplits(TrimLeft(s));
    assert s == pre + (TrimSpace(s) + post);
  }

  lemma TrimKeepsFirst(s: string)
    requires s != "" && !IsSpace(s[0])
    ensures TrimSpace(s) != "" && TrimSpace(s)[0] == s[0]
  {
    var post := TrimRightSplits(s);
    assert TrimRight(s) == "" ==> s == post;
  }

  // ---- Searching -------------------------------------------------------------

  /** The index of the first c in s, or the length of s. */
  function IndexOf(s: string, c: char): nat {
    if s == "" || s[0] == c then 0 else 1 + IndexOf(s[1..], c)
  }

  lemma {:induction false} IndexOfAfter(a: string, c: char, rest: string)
    requires c !in a
    ensures IndexOf(a + [c] + rest, c) == |a|
  {
    var s := a + [c] + rest;
    if a == "" {
      assert s[0] == c;
    } else {
      assert s[1..] == a[1..] + [c] + rest;
      assert s[0] == a[0];
      IndexOfAfter(a[1..], c, rest);
    }
  }

  /** A text splits in one way at the first occurrence of a character. */
  lemma SplitOnce(a: string, b: string, c: char, rest: string, rest': string)
    requires c !in a && c !in b && a + [c] + rest == b + [c] + rest'
    ensures a == b && rest == rest'
  {
    IndexOfAfter(a, c, rest);
    IndexOfAfter(b, c, rest');
    var s := a + [c] + rest;
    assert a == s[..|a|] && rest == s[|a| + 1..];
    assert b == s[..|a|] && rest' == s[|a| + 1..];
  }

  /** `strings.Split` on a single character. */
  function Split(s: string, c: char): seq<string> {
    var i := IndexOf(s, c);
    if i < |s| then [s[..i]] + Split(s[i + 1..], c) else [s]
  }

  lemma {:induction false} IndexOfFound(s: string, c: char)
    ensures IndexOf(s, c) <= |s| && c !in s[..IndexOf(s, c)]
    ensures IndexOf(s, c) < |s| ==> s[IndexOf(s, c)] == c
  {
    if s != "" && s[0] != c {
      IndexOfFound(s[1..], c);
      var i := IndexOf(s[1..], c);
      assert s[..1 + i] == [s[0]] + s[1..][..i];
    }
  }

  lemma {:induction false} SplitNonEmpty(s: string, c: char)
    ensures Split(s, c) != []
  {
  }

  /** No piece holds the separator. */
  lemma {:induction false} SplitPieces(s: string, c: char)
    ensures forall i :: 0 <= i < |Split(s, c)| ==> c !in Split(s, c)[i]
  {
    IndexOfFound(s, c);
    var i := IndexOf(s, c);
    if i < |s| {
      SplitPieces(s[i + 1..], c);
    }
  }

  lemma {:induction false} SplitFirst(a: string, c: char, rest: string)
    requires c !in a
    ensures Split(a + [c] + rest, c) == [a] + Split(rest, c)
  {
    IndexOfAfter(a, c, rest);
    var s := a + [c] + rest;
    assert s[..|a|] == a && s[|a| + 1..] == rest;
  }

  lemma Regroup<A>(a: seq<A>, b: seq<A>, c: seq<A>)
    ensures a + b + c == a + (b + c)
  {
  }

  lemma DropLastOfCons<A>(x: A, r: seq<A>)
    requires r != []
    ensures ([x] + r)[..|[x] + r| - 1] == [x] + r[..|r| - 1]
  {
  }

  /** What is appended behind the first piece is appended to the rest. */
  lemma {:induction false} SplitAppendRest(
    a: string, c: char, rest: string, line: string, r: seq<string>, tail: seq<string>)
    requires c !in a && r != [] && r == Split(rest, c) && Split(rest + line, c) == r[..|r| - 1] + tail
    ensures Split(a + [c] + rest, c) == [a] + r
    ensures Split(a + [c] + rest + line, c) == ([a] + r)[..|[a] + r| - 1] + tail
  {
    SplitFirst(a, c, rest);
    SplitFirst(a, c, rest + line);
    Regroup(a + [c], rest, line);
    DropLastOfCons(a, r);
    Regroup([a], r[..|r| - 1], tail);
  }

  /** Appending a terminated piece to terminated text appends a piece. */
  lemma {:induction false} SplitAppendLine(s: string, piece: string, c: char, line: string)
    requires Split(s, c)[|Split(s, c)| - 1] == "" && c !in piece && line == piece + [c]
    ensures Split(s + line, c) == Split(s, c)[..|Split(s, c)| - 1] + [piece, ""]
  {
    IndexOfFound(s, c);
    var i := IndexOf(s, c);
    if i < |s| {
      var a, rest := s[..i], s[i + 1..];
      assert s == a + [c] + rest;
      SplitFirst(a, c, rest);
      SplitAppendLine(rest, piece, c, line);
      SplitAppendRest(a, c, rest, line, Split(rest, c), [piece, ""]);
    } else {
      SplitFirst(piece, c, "");
      assert s + line == piece + [c] + "";
    }
  }

  // ---- Byte order and sorting --------------------------------------------------

  /** String comparison; for valid UTF-8 byte order is code point order. */
  predicate LexLeq(a: string, b: string) {
    a == "" || (b != "" && (a[0] < b[0] || (a[0] == b[0] && LexLeq(a[1..], b[1..]))))
  }

  lemma {:induction false} LexTotal(a: string, b: string)
    ensures LexLeq(a, b) || LexLeq(b, a)
  {
    if a != "" && b != "" { LexTotal(a[1..], b[1..]); }
  }

  lemma {:induction false} LexAntisymmetric(a: string, b: string)
    requires LexLeq(a, b) && LexLeq(b, a)
    ensures a == b
  {
    if a != "" && b != "" {
      LexAntisymmetric(a[1..], b[1..]);
      assert a == [a[0]] + a[1..] && b == [b[0]] + b[1..];
    }
  }

  lemma {:induction false} LexTransitive(a: string, b: string, c: string)
    requires LexLeq(a, b) && LexLeq(b, c)
    ensures LexLeq(a, c)
  {
    if a != "" && b != "" && c != "" && a[0] == b[0] == c[0] { LexTransitive(a[1..], b[1..], c[1..]); }
  }

  /** One text begins the other, or has the smaller character where they first differ. */
  ghost predicate ComesBefore(a: string, b: string) {
    a <= b || exists i :: FirstSmaller(a, b, i)
  }

  ghost predicate FirstSmaller(a: string, b: string, i: int) {
    0 <= i < |a| && i < |b| && a[..i] == b[..i] && a[i] < b[i]
  }

  lemma ComesBeforeTail(a: string, b: string)
    requires a != "" && b != "" && a[0] == b[0]
    ensures ComesBefore(a, b) <==> ComesBefore(a[1..], b[1..])
  {
    var a', b' := a[1..], b[1..];
    assert a == [a[0]] + a' && b == [b[0]] + b';
    if i :| FirstSmaller(a', b', i) {
      assert a[..i + 1] == [a[0]] + a'[..i] && b[..i + 1] == [b[0]] + b'[..i];
      assert FirstSmaller(a, b, i + 1);
    }
    if i :| FirstSmaller(a, b, i) {
      assert a'[..i - 1] == a[..i][1..] && b'[..i - 1] == b[..i][1..];
      assert FirstSmaller(a', b', i - 1);
    }
  }

  lemma PrefixHead(a: string, b: string, i: nat)
    requires 0 < i <= |a| && i <= |b| && a[..i] == b[..i]
    ensures a[0] == b[0]
  {
    assert a[..i][0] == a[0] && b[..i][0] == b[0];
  }

  lemma ComesBeforeHead(a: string, b: string)
    requires a != "" && b != "" && a[0] != b[0]
    ensures ComesBefore(a, b) <==> a[0] < b[0]
  {
    if a[0] < b[0] { assert a[..0] == b[..0] && FirstSmaller(a, b, 0); }
    if i :| FirstSmaller(a, b, i) {
      if i > 0 { PrefixHead(a, b, i); }
    }
  }

  lemma {:induction false} LexIff(a: string, b: string)
    ensures LexLeq(a, b) <==> ComesBefore(a, b)
  {
    if a != "" && b != "" {
      if a[0] == b[0] {
        LexIff(a[1..], b[1..]);
        ComesBeforeTail(a, b);
      } else {
        ComesBeforeHead(a, b);
      }
    }
  }

  predicate Sorted(s: seq<string>) {
    forall i, j :: 0 <= i < j < |s| ==> LexLeq(s[i], s[j])
  }

  function Insert(x: string, s: seq<string>): seq<string> {
    if s == [] || LexLeq(x, s[0]) then [x] + s else [s[0]] + Insert(x, s[1..])
  }

  /** `sort.Strings`. */
  function Sort(s: seq<string>): seq<string> {
    if s == [] then [] else Insert(s[0], Sort(s[1..]))
  }

  lemma {:induction false} InsertElements(x: string, s: seq<string>)
    ensures multiset(Insert(x, s)) == multiset(s) + multiset{x}
  {
    if s != [] && !LexLeq(x, s[0]) {
      InsertElements(x, s[1..]);
      TailElements(s);
    }
  }

  lemma TailElements(s: seq<string>)
    requires s != []
    ensures multiset(s) == multiset{s[0]} + multiset(s[1..])
  {
    assert s == [s[0]] + s[1..];
  }

  lemma {:induction false} InsertSorted(x: string, s: seq<string>)
    requires Sorted(s)
    ensures Sorted(Insert(x, s))
  {
    if s == [] {
    } else if LexLeq(x, s[0]) {
      forall j | 0 <= j < |s|
        ensures LexLeq(x, s[j])
      {
        if j > 0 { LexTransitive(x, s[0], s[j]); }
      }
    } else {
      var rest, t := s[1..], Insert(x, s[1..]);
      InsertSorted(x, rest);
      InsertElements(x, rest);
      LexTotal(x, s[0]);
      forall j | 0 <= j < |t|
        ensures LexLeq(s[0], t[j])
      {
        assert t[j] in multiset(t);
        if t[j] != x { assert t[j] in rest; }
      }
    }
  }

  lemma {:induction false} SortSorts(s: seq<string>)
    ensures Sorted(Sort(s)) && multiset(Sort(s)) == multiset(s)
  {
    if s != [] {
      SortSorts(s[1..]);
      InsertSorted(s[0], Sort(s[1..]));
      InsertElements(s[0], Sort(s[1..]));
      TailElements(s);
    }
  }

  /** A multiset has one sorted listing. */
  lemma {:induction false} SortedUnique(a: seq<string>, b: seq<string>)
    requires Sorted(a) && Sorted(b) && multiset(a) == multiset(b)
    ensures a == b
  {
    assert |a| == |multiset(a)| == |multiset(b)| == |b|;
    if a != [] {
      assert a[0] in multiset(b);
      assert b[0] in multiset(a);
      FirstIsLeast(a, b[0]);
      FirstIsLeast(b, a[0]);
      LexAntisymmetric(a[0], b[0]);
      TailElements(a);
      TailElements(b);
      SameTails(multiset{a[0]}, multiset(a[1..]), multiset(b[1..]));
      SortedUnique(a[1..], b[1..]);
      assert a == [a[0]] + a[1..] && b == [b[0]] + b[1..];
    }
  }

  lemma SameTails(x: multiset<string>, a: multiset<string>, b: multiset<string>)
    requires x + a == x + b
    ensures a == b
  {
    assert a == (x + a) - x && b == (x + b) - x;
  }

  lemma {:induction false} FirstIsLeast(s: seq<string>, x: string)
    requires Sorted(s) && x in multiset(s)
    ensures s != [] && LexLeq(s[0], x)
  {
    assert x in s;
    LexReflexive(x);
  }

  lemma {:induction false} LexReflexive(a: string)
    ensures LexLeq(a, a)
  {
    if a != "" { LexReflexive(a[1..]); }
  }

  // ---- Decimal numbers -------------------------------------------------------

  predicate IsDigit(c: char) {
    '0' <= c <= '9'
  }

  predicate AllDigits(s: string) {
    forall i :: 0 <= i < |s| ==> IsDigit(s[i])
  }

  function Digit(d: nat): char
    requires d < 10
  {
    (d + '0' as int) as char
  }

  /** `strconv.Itoa` on a non-negative number. */
  function Decimal(n: nat): (s: string) {
    if n < 10 then [Digit(n)] else Decimal(n / 10) + [Digit(n % 10)]
  }

  function Itoa(n: int): string {
    if n < 0 then "-" + Decimal(-n) else Decimal(n)
  }

  /** The value of a string of digits. */
  function Value(s: string): nat
    requires AllDigits(s)
  {
    if s == "" then 0 else Value(s[..|s| - 1]) * 10 + (s[|s| - 1] as int - '0' as int)
  }

  lemma {:induction false} DecimalValue(n: nat)
    ensures Decimal(n) != "" && AllDigits(Decimal(n)) && Value(Decimal(n)) == n
  {
    if n >= 10 {
      DecimalValue(n / 10);
      assert Decimal(n)[..|Decimal(n)| - 1] == Decimal(n / 10);
    } else {
      assert [Digit(n)][..0] == "";
    }
  }

  /** Digits without a leading zero are the decimal of their value. */
  lemma {:induction false} CanonicalDecimal(s: string)
    requires s != "" && AllDigits(s) && s[0] != '0'
    ensures Value(s) >= 1 && Decimal(Value(s)) == s
  {
    var n := |s| - 1;
    var d := s[n] as int - '0' as int;
    assert Digit(d) == s[n];
    if n == 0 {
      assert s[..0] == "";
    } else {
      CanonicalDecimal(s[..n]);
      assert s == s[..n] + [s[n]];
      assert Value(s) / 10 == Value(s[..n]) && Value(s) % 10 == d;
    }
  }

  lemma {:induction false} FirstDigit(n: nat)
    requires n >= 1
    ensures Decimal(n) != "" && Decimal(n)[0] != '0'
  {
    if n >= 10 { FirstDigit(n / 10); }
  }
}
