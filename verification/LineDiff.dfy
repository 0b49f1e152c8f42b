/**
  The line diff of two texts: which lines were added and which removed, counted with
  multiplicity. Lines are compared as a whole; what a line moved past is not reported.
*/
module LineDiff {
  import opened Strings

  datatype Entry = Added(line: string) | Removed(line: string)

  function Sign(e: Entry): char {
    if e.Added? then '+' else '-'
  }

  function EntryText(e: Entry): string {
    [Sign(e), ' '] + e.line
  }

  /** The diff as written: one entry a line. */
  function Render(entries: seq<Entry>): string {
    if entries == [] then "" else Render(entries[..|entries| - 1]) + (EntryText(entries[|entries| - 1]) + "\n")
  }

  /** Position i holds an occurrence of its line beyond those that base accounts for. */
  predicate Surplus(lines: seq<string>, base: multiset<string>, i: nat)
    requires i < |lines|
  {
    multiset(lines[..i])[lines[i]] >= base[lines[i]]
  }

  /** The surplus lines among the first n, in order. */
  function Beyond(lines: seq<string>, base: multiset<string>, n: nat): seq<string>
    requires n <= |lines|
  {
    if n == 0 then []
    else
      var rest := Beyond(lines, base, n - 1);
      if Surplus(lines, base, n - 1) then rest + [lines[n - 1]] else rest
  }

  function Entries(lines: seq<string>, added: bool): (es: seq<Entry>)
    ensures |es| == |lines|
    ensures forall i :: 0 <= i < |es| ==> es[i] == if added then Added(lines[i]) else Removed(lines[i])
  {
    seq(|lines|, i requires 0 <= i < |lines| => if added then Added(lines[i]) else Removed(lines[i]))
  }

  function PlusLines(prev: string, curr: string): seq<string> {
    var c := Split(curr, '\n');
    if prev == "" then c else Beyond(c, multiset(Split(prev, '\n')), |c|)
  }

  function MinusLines(prev: string, curr: string): seq<string> {
    var p := Split(prev, '\n');
    if prev == "" then [] else Beyond(p, multiset(Split(curr, '\n')), |p|)
  }

  function SpecDiff(prev: string, curr: string): seq<Entry> {
    Entries(PlusLines(prev, curr), true) + Entries(MinusLines(prev, curr), false)
  }

  // ---- The scan with counters --------------------------------------------------

  function Count(counts: map<string, int>, l: string): int {
    if l in counts then counts[l] else 0
  }

  method CountLines(lines: seq<string>) returns (counts: map<string, int>)
    ensures Remaining(counts, multiset(lines), multiset{})
  {
    counts := map[];
    for i := 0 to |lines|
      invariant forall l :: Count(counts, l) == multiset(lines[..i])[l]
    {
      counts := counts[lines[i] := Count(counts, lines[i]) + 1];
      assert lines[..i + 1] == lines[..i] + [lines[i]];
    }
    assert lines[..|lines|] == lines;
  }

  /** What is left of a counter once the first i lines have been matched against it. */
  ghost predicate Remaining(counts: map<string, int>, base: multiset<string>, seen: multiset<string>) {
    forall l :: Count(counts, l) == if seen[l] <= base[l] then base[l] - seen[l] else 0
  }

  lemma MatchedStep(counts: map<string, int>, base: multiset<string>, lines: seq<string>, i: nat)
    requires i < |lines| && Remaining(counts, base, multiset(lines[..i])) && Count(counts, lines[i]) > 0
    ensures Remaining(counts[lines[i] := counts[lines[i]] - 1], base, multiset(lines[..i + 1]))
    ensures Beyond(lines, base, i + 1) == Beyond(lines, base, i)
  {
    assert lines[..i + 1] == lines[..i] + [lines[i]];
  }

  lemma SurplusStep(counts: map<string, int>, base: multiset<string>, lines: seq<string>, i: nat)
    requires i < |lines| && Remaining(counts, base, multiset(lines[..i])) && Count(counts, lines[i]) <= 0
    ensures Remaining(counts, base, multiset(lines[..i + 1]))
    ensures Surplus(lines, base, i)
  {
    assert lines[..i + 1] == lines[..i] + [lines[i]];
  }

  /** What the builder holds after the first i lines. */
  ghost predicate Written(sb: string, sb0: string, lines: seq<string>, base: multiset<string>, i: nat, added: bool)
    requires i <= |lines|
  {
    sb == sb0 + Render(Entries(Beyond(lines, base, i), added))
  }

  method AppendSurplus(
    sb0: string, lines: seq<string>, counts0: map<string, int>, ghost base: multiset<string>, added: bool)
    returns (sb: string)
    requires Remaining(counts0, base, multiset{})
    ensures Written(sb, sb0, lines, base, |lines|, added)
  {
    var counts := counts0;
    sb := sb0;
    for i := 0 to |lines|
      invariant Remaining(counts, base, multiset(lines[..i]))
      invariant Written(sb, sb0, lines, base, i, added)
    {
      if Count(counts, lines[i]) > 0 {
        MatchedStep(counts, base, lines, i);
        counts := counts[lines[i] := counts[lines[i]] - 1];
      } else {
        SurplusStep(counts, base, lines, i);
        var line := Line(lines[i], added);
        AppendOne(sb0, sb, lines, base, i, added);
        sb := sb + line;
      }
    }
  }

  function Line(l: string, added: bool): string {
    (if added then "+ " else "- ") + l + "\n"
  }

  lemma AppendOne(sb0: string, sb: string, lines: seq<string>, base: multiset<string>, i: nat, added: bool)
    requires i < |lines| && Surplus(lines, base, i) && Written(sb, sb0, lines, base, i, added)
    ensures Written(sb + Line(lines[i], added), sb0, lines, base, i + 1, added)
  {
    var so, line := Beyond(lines, base, i), Line(lines[i], added);
    RenderOneMore(so, lines[i], added);
    Regroup(sb0, Render(Entries(so, added)), line);
  }

  lemma RenderOneMore(lines: seq<string>, l: string, added: bool)
    ensures Render(Entries(lines + [l], added)) ==
            Render(Entries(lines, added)) + Line(l, added)
  {
    var es, e := Entries(lines + [l], added), if added then Added(l) else Removed(l);
    assert es[..|es| - 1] == Entries(lines, added) && es[|es| - 1] == e;
    assert EntryText(e) + "\n" == Line(l, added);
  }

  lemma {:induction false} RenderConcat(a: seq<Entry>, b: seq<Entry>)
    ensures Render(a + b) == Render(a) + Render(b)
  {
    if b == [] {
      assert a + b == a;
    } else {
      var n := |b| - 1;
      assert (a + b)[..|a + b| - 1] == a + b[..n];
      RenderConcat(a, b[..n]);
      Regroup(Render(a), Render(b[..n]), EntryText(b[n]) + "\n");
    }
  }

  /** The diff line by line: first the added lines behind a plus sign, then the removed ones behind a minus sign. */
  lemma DiffReads(prev: string, curr: string, i: nat)
    requires i < |PlusLines(prev, curr)| + |MinusLines(prev, curr)|
    ensures var lines, n := Split(Render(SpecDiff(prev, curr)), '\n'), |PlusLines(prev, curr)|;
            && |lines| == n + |MinusLines(prev, curr)| + 1 && lines[|lines| - 1] == ""
            && lines[i] == if i < n then "+ " + PlusLines(prev, curr)[i] else "- " + MinusLines(prev, curr)[i - n]
  {
    EntriesOnOneLine(prev, curr);
    PartsRead(PlusLines(prev, curr), MinusLines(prev, curr), i);
  }

  lemma PartsRead(plus: seq<string>, minus: seq<string>, i: nat)
    requires i < |plus| + |minus|
    requires forall e :: e in Entries(plus, true) + Entries(minus, false) ==> '\n' !in e.line
    ensures var lines := Split(Render(Entries(plus, true) + Entries(minus, false)), '\n');
            && |lines| == |plus| + |minus| + 1 && lines[|lines| - 1] == ""
            && lines[i] == if i < |plus| then "+ " + plus[i] else "- " + minus[i - |plus|]
  {
    SplitRender(Entries(plus, true) + Entries(minus, false));
  }

  /** `computeSpecDiff`. */
  method ComputeSpecDiff(prev: string, curr: string) returns (diff: string)
    ensures diff == Render(SpecDiff(prev, curr))
  {
    var prevLines, currLines := Split(prev, '\n'), Split(curr, '\n');
    if prev == "" {
      diff := AppendAll(currLines);
      AllAdded(curr, currLines);
      return;
    }
    var prevSet := CountLines(prevLines);
    var currSet := CountLines(currLines);
    var added := AppendSurplus("", currLines, prevSet, multiset(prevLines), true);
    diff := AppendSurplus(added, prevLines, currSet, multiset(currLines), false);
    BothWritten(prev, curr, prevLines, currLines, added, diff);
  }

  lemma {:induction false} AllAdded(curr: string, c: seq<string>)
    requires c == Split(curr, '\n')
    ensures Render(Entries(c, true)) == Render(SpecDiff("", curr))
  {
    assert Entries(c, true) + Entries([], false) == Entries(c, true);
  }

  lemma {:induction false} BothWritten(
    prev: string, curr: string, p: seq<string>, c: seq<string>, added: string, diff: string)
    requires prev != "" && p == Split(prev, '\n') && c == Split(curr, '\n')
    requires Written(added, "", c, multiset(p), |c|, true) && Written(diff, added, p, multiset(c), |p|, false)
    ensures diff == Render(SpecDiff(prev, curr))
  {
    var plus, minus := Entries(Beyond(c, multiset(p), |c|), true), Entries(Beyond(p, multiset(c), |p|), false);
    RenderConcat(plus, minus);
    assert "" + Render(plus) == Render(plus);
  }

  method AppendAll(lines: seq<string>) returns (sb: string)
    ensures sb == Render(Entries(lines, true))
  {
    sb := "";
    for i := 0 to |lines|
      invariant sb == Render(Entries(lines[..i], true))
    {
      sb := sb + Line(lines[i], true);
      RenderOneMore(lines[..i], lines[i], true);
      assert lines[..i + 1] == lines[..i] + [lines[i]];
    }
    assert lines[..|lines|] == lines;
  }

  // ---- What the diff means -----------------------------------------------------

  lemma {:induction false} BeyondElements(lines: seq<string>, base: multiset<string>, n: nat)
    requires n <= |lines|
    ensures multiset(Beyond(lines, base, n)) == multiset(lines[..n]) - base
  {
    if n > 0 {
      BeyondElements(lines, base, n - 1);
      var so, front, l := Beyond(lines, base, n - 1), lines[..n - 1], lines[n - 1];
      assert Beyond(lines, base, n) == if multiset(front)[l] < base[l] then so else so + [l];
      assert lines[..n] == front + [l];
      BeyondStep(so, front, base, l);
    }
  }

  /** One line more is beyond the base when the base has no more of it. */
  lemma BeyondStep(so: seq<string>, seen: seq<string>, base: multiset<string>, l: string)
    requires multiset(so) == multiset(seen) - base
    ensures multiset(if multiset(seen)[l] < base[l] then so else so + [l]) == multiset(seen + [l]) - base
  {
  }

  /** The lines of a diff as multisets: each side's surplus over the other. */
  lemma {:induction false} DiffElements(prev: string, curr: string)
    requires prev != ""
    ensures multiset(PlusLines(prev, curr)) == multiset(Split(curr, '\n')) - multiset(Split(prev, '\n'))
    ensures multiset(MinusLines(prev, curr)) == multiset(Split(prev, '\n')) - multiset(Split(curr, '\n'))
  {
    var p, c := Split(prev, '\n'), Split(curr, '\n');
    BeyondElements(c, multiset(p), |c|);
    BeyondElements(p, multiset(c), |p|);
    assert c[..|c|] == c && p[..|p|] == p;
  }

  predicate IsPatch(prev: multiset<string>, minus: multiset<string>, plus: multiset<string>, curr: multiset<string>) {
    minus <= prev && prev - minus + plus == curr
  }

  /** The text's lines; the diff gives the empty previous text none. */
  function PrevLines(prev: string): multiset<string> {
    if prev == "" then multiset{} else multiset(Split(prev, '\n'))
  }

  /** Taking the removed lines out of prev and putting the added ones in gives curr. */
  lemma {:induction false} DiffIsPatch(prev: string, curr: string)
    ensures IsPatch(PrevLines(prev), multiset(MinusLines(prev, curr)), multiset(PlusLines(prev, curr)),
                    multiset(Split(curr, '\n')))
  {
    if prev != "" { DiffElements(prev, curr); }
  }

  /** Of all the patches, the diff is contained in every one: no line is both added and removed. */
  lemma {:induction false} DiffIsMinimal(prev: string, curr: string, minus: multiset<string>, plus: multiset<string>)
    requires IsPatch(PrevLines(prev), minus, plus, multiset(Split(curr, '\n')))
    ensures multiset(MinusLines(prev, curr)) <= minus && multiset(PlusLines(prev, curr)) <= plus
    ensures multiset(MinusLines(prev, curr)) !! multiset(PlusLines(prev, curr))
  {
    var p, c := PrevLines(prev), multiset(Split(curr, '\n'));
    if prev != "" { DiffElements(prev, curr); }
    assert forall l :: c[l] == p[l] - minus[l] + plus[l];
  }

  /** a is b with some of its lines left out. */
  predicate Subsequence(a: seq<string>, b: seq<string>) {
    if a == [] then true
    else if b == [] then false
    else
      var a', b' := a[..|a| - 1], b[..|b| - 1];
      (a[|a| - 1] == b[|b| - 1] && Subsequence(a', b')) || Subsequence(a, b')
  }

  lemma {:induction false} BeyondSubsequence(lines: seq<string>, base: multiset<string>, n: nat)
    requires n <= |lines|
    ensures Subsequence(Beyond(lines, base, n), lines[..n])
  {
    if n > 0 {
      BeyondSubsequence(lines, base, n - 1);
      assert lines[..n][..n - 1] == lines[..n - 1];
      var rest := Beyond(lines, base, n - 1);
      assert (rest + [lines[n - 1]])[..|rest|] == rest;
    }
  }

  lemma {:induction false} SubsequenceOfItself(a: seq<string>)
    ensures Subsequence(a, a)
  {
    if a != [] { SubsequenceOfItself(a[..|a| - 1]); }
  }

  /** Both sides keep the order of the text they come from. */
  lemma {:induction false} DiffKeepsOrder(prev: string, curr: string)
    ensures Subsequence(PlusLines(prev, curr), Split(curr, '\n'))
    ensures Subsequence(MinusLines(prev, curr), Split(prev, '\n'))
  {
    var p, c := Split(prev, '\n'), Split(curr, '\n');
    assert p[..|p|] == p && c[..|c|] == c;
    if prev == "" {
      SubsequenceOfItself(c);
    } else {
      BeyondSubsequence(c, multiset(p), |c|);
      BeyondSubsequence(p, multiset(c), |p|);
    }
  }

  lemma NoDifferenceIffEqual(p: multiset<string>, c: multiset<string>)
    ensures c - p == multiset{} && p - c == multiset{} <==> p == c
  {
    if c - p == multiset{} && p - c == multiset{} {
      forall l
        ensures p[l] == c[l]
      {
        assert (c - p)[l] == 0 && (p - c)[l] == 0;
      }
    }
  }

  lemma EmptyIffNoElements(lines: seq<string>)
    ensures lines == [] <==> multiset(lines) == multiset{}
  {
    if lines != [] { assert lines[0] in multiset(lines); }
  }

  /** The diff is empty exactly for a non-empty text and a permutation of its lines; two empty texts differ. */
  lemma {:induction false} EmptyIffPermutation(prev: string, curr: string)
    ensures Render(SpecDiff(prev, curr)) == "" <==>
            prev != "" && multiset(Split(prev, '\n')) == multiset(Split(curr, '\n'))
  {
    var plus, minus := PlusLines(prev, curr), MinusLines(prev, curr);
    assert |SpecDiff(prev, curr)| == |plus| + |minus|;
    if prev != "" {
      DiffElements(prev, curr);
      EmptyIffNoElements(plus);
      EmptyIffNoElements(minus);
      NoDifferenceIffEqual(multiset(Split(prev, '\n')), multiset(Split(curr, '\n')));
    } else {
      SplitNonEmpty(curr, '\n');
    }
  }

  /** Exchanging the texts exchanges the signs exactly when neither text is empty. */
  lemma SwapIffNonEmpty(prev: string, curr: string)
    ensures PlusLines(curr, prev) == MinusLines(prev, curr) && MinusLines(curr, prev) == PlusLines(prev, curr) <==>
            prev != "" && curr != ""
  {
    if prev == "" {
      NoSwapFromEmpty(curr);
    } else if curr == "" {
      NoSwapFromEmpty(prev);
    }
  }

  lemma NoSwapFromEmpty(text: string)
    ensures MinusLines(text, "") != PlusLines("", text) || PlusLines(text, "") != []
  {
    SplitNonEmpty(text, '\n');
    if text != "" {
      DiffElements(text, "");
      var t := multiset(Split(text, '\n'));
      assert Split("", '\n') == [""];
      if "" in t {
        assert (t - multiset{""})[""] < t[""];
      } else {
        assert "" in multiset{""} - t;
      }
    }
  }

  // ---- Reading the diff back ---------------------------------------------------

  function Parse(diff: string): seq<Entry> {
    var lines := Split(diff, '\n');
    seq(|lines| - 1, i requires 0 <= i < |lines| - 1 => ParseLine(lines[i]))
  }

  function ParseLine(l: string): Entry {
    if |l| < 2 then Added("") else if l[0] == '+' then Added(l[2..]) else Removed(l[2..])
  }

  lemma {:induction false} SplitRender(entries: seq<Entry>)
    requires forall i :: 0 <= i < |entries| ==> '\n' !in entries[i].line
    ensures Split(Render(entries), '\n')
      == seq(|entries|, i requires 0 <= i < |entries| => EntryText(entries[i])) + [""]
  {
    if entries != [] {
      var n := |entries| - 1;
      SplitRender(entries[..n]);
      SplitAppendLine(Render(entries[..n]), EntryText(entries[n]), '\n', EntryText(entries[n]) + "\n");
    }
  }

  predicate OnOneLine(lines: seq<string>) {
    forall i :: 0 <= i < |lines| ==> '\n' !in lines[i]
  }

  lemma {:induction false} SubsequenceOnOneLine(a: seq<string>, b: seq<string>)
    requires Subsequence(a, b) && OnOneLine(b)
    ensures OnOneLine(a)
  {
    if a != [] {
      var a', b' := a[..|a| - 1], b[..|b| - 1];
      if a[|a| - 1] == b[|b| - 1] && Subsequence(a', b') {
        SubsequenceOnOneLine(a', b');
      } else {
        SubsequenceOnOneLine(a, b');
      }
    }
  }

  lemma EntriesOnOneLine(prev: string, curr: string)
    ensures forall e :: e in SpecDiff(prev, curr) ==> '\n' !in e.line
  {
    SplitPieces(prev, '\n');
    SplitPieces(curr, '\n');
    DiffKeepsOrder(prev, curr);
    SubsequenceOnOneLine(PlusLines(prev, curr), Split(curr, '\n'));
    SubsequenceOnOneLine(MinusLines(prev, curr), Split(prev, '\n'));
    TwoPartsOnOneLine(PlusLines(prev, curr), MinusLines(prev, curr));
  }

  lemma TwoPartsOnOneLine(plus: seq<string>, minus: seq<string>)
    requires OnOneLine(plus) && OnOneLine(minus)
    ensures forall e :: e in Entries(plus, true) + Entries(minus, false) ==> '\n' !in e.line
  {
    forall i | 0 <= i < |plus| + |minus|
      ensures (Entries(plus, true) + Entries(minus, false))[i].line == (plus + minus)[i]
    {
    }
  }

  lemma ParseEntry(e: Entry)
    ensures ParseLine(EntryText(e)) == e
  {
    assert EntryText(e)[2..] == e.line;
  }

  /** The text determines the entries: nothing is lost in writing them down. */
  lemma ParseRender(prev: string, curr: string)
    ensures Parse(Render(SpecDiff(prev, curr))) == SpecDiff(prev, curr)
  {
    var entries := SpecDiff(prev, curr);
    EntriesOnOneLine(prev, curr);
    SplitRender(entries);
    forall i | 0 <= i < |entries|
      ensures ParseLine(EntryText(entries[i])) == entries[i]
    {
      ParseEntry(entries[i]);
    }
  }
}
