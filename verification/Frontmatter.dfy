/** Markdown files with a leading front matter block between two `---` lines. */
module Frontmatter {
  import opened Strings
  import opened Wrappers

  const BOM := "\U{FEFF}"

  /** `strings.TrimLeft` with a set of characters. */
  function TrimLeftOf(s: string, cut: set<char>): string {
    if s != "" && s[0] in cut then TrimLeftOf(s[1..], cut) else s
  }

  function TrimPrefix(s: string, p: string): string {
    if p <= s then s[|p|..] else s
  }

  /** `strings.Index`: where p first occurs, or the length of s. */
  function Find(s: string, p: string): nat {
    if s == "" || p <= s then 0 else 1 + Find(s[1..], p)
  }

  datatype Parts = Parts(fm: string, body: string)

  datatype Unterminated = Unterminated

  /** What follows the opening fence, if the text opens one. */
  function AfterFence(content: string): Option<string> {
    var trimmed := TrimPrefix(TrimLeftOf(content, {' ', '\t', '\r', '\n'}), BOM);
    if !("---" <= trimmed) then None
    else
      var rest := TrimLeftOf(trimmed[3..], {' ', '\t'});
      if "\n" <= rest || "\r\n" <= rest then Some(rest) else None
  }

  /** `splitFrontmatter`. */
  function SplitFrontmatter(content: string): Result<Parts, Unterminated> {
    match AfterFence(content)
    case None => Ok(Parts("", content))
    case Some(rest) =>
      var end := Find(rest, "\n---");
      if end == |rest| then Err(Unterminated)
      else
        FindMatches(rest, "\n---");
        Ok(Parts(TrimSpace(rest[..end]), TrimPrefix(TrimPrefix(rest[end + 4..], "\r"), "\n")))
  }

  /** `joinFrontmatter`. */
  function JoinFrontmatter(fm: string, body: string): string {
    var f, b := TrimSpace(fm), TrimLeftOf(body, {'\r', '\n'});
    if f == "" then b else "---\n" + f + "\n---\n\n" + b
  }

  /** A line of the text starts with three dashes. */
  predicate HasFenceLine(t: string) {
    exists i :: 0 <= i < |t| && FenceAt(t, i)
  }

  predicate FenceAt(t: string, i: nat)
    requires i < |t|
  {
    (i == 0 || t[i - 1] == '\n') && "---" <= t[i..]
  }

  // ---- Searching -------------------------------------------------------------

  lemma {:induction false} FindMatches(s: string, p: string)
    requires p != ""
    ensures Find(s, p) <= |s|
    ensures Find(s, p) < |s| ==> p <= s[Find(s, p)..]
    ensures Find(s, p) == |s| <==> forall i :: 0 <= i < |s| ==> !(p <= s[i..])
  {
    if s != "" && !(p <= s) {
      FindMatches(s[1..], p);
      forall i | 0 < i < |s|
        ensures s[i..] == s[1..][i - 1..]
      {
      }
      assert s[0..] == s;
    } else if s != "" {
      assert s[0..] == s;
    }
  }

  lemma {:induction false} FindFirst(s: string, p: string, k: nat)
    requires k < |s| && p <= s[k..] && forall i :: 0 <= i < k ==> !(p <= s[i..])
    ensures Find(s, p) == k
  {
    if k == 0 {
      assert s[0..] == s;
    } else {
      assert s[0..] == s;
      forall i | 0 <= i < k - 1
        ensures !(p <= s[1..][i..])
      {
        assert s[1..][i..] == s[i + 1..];
      }
      assert s[1..][k - 1..] == s[k..];
      FindFirst(s[1..], p, k - 1);
    }
  }

  // ---- Reading back what was written ----------------------------------------------

  function Closed(t: string, b: string): string {
    "\n" + t + "\n---\n\n" + b
  }

  lemma AfterFenceOfJoin(t: string, b: string)
    ensures AfterFence("---\n" + t + "\n---\n\n" + b) == Some(Closed(t, b))
  {
    var c := "---\n" + t + "\n---\n\n" + b;
    assert c == "---" + Closed(t, b);
    assert c[0] == '-';
    assert TrimPrefix(TrimLeftOf(c, {' ', '\t', '\r', '\n'}), BOM) == c by {
      assert BOM[0] != c[0];
    }
    assert c[3..] == Closed(t, b);
  }

  lemma FenceOutside(t: string, b: string, i: nat)
    requires i < |t| && FenceAt(t, i)
    ensures "\n---" <= Closed(t, b)[i..]
  {
    var r := Closed(t, b);
    assert r == (if i == 0 then "" else "\n" + t[..i - 1]) + ("\n" + t[i..] + "\n---\n\n" + b);
    assert r[i..] == "\n" + t[i..] + "\n---\n\n" + b;
    assert t[i..] == "---" + t[i..][3..];
  }

  lemma CloseIsThere(t: string, b: string)
    ensures "\n---" <= Closed(t, b)[|t| + 1..]
  {
    assert Closed(t, b)[|t| + 1..] == "\n---\n\n" + b;
  }

  /** The closing fence is found where it was written exactly when no line of the block starts like one. */
  lemma FindCloses(t: string, b: string)
    requires Trimmed(t) && t != ""
    ensures Find(Closed(t, b), "\n---") <= |t| + 1
    ensures Find(Closed(t, b), "\n---") == |t| + 1 <==> !HasFenceLine(t)
  {
    var r, p, k := Closed(t, b), "\n---", |t| + 1;
    CloseIsThere(t, b);
    FindNotAfter(r, p, k);
    if HasFenceLine(t) {
      var i :| 0 <= i < |t| && FenceAt(t, i);
      FenceOutside(t, b, i);
      FindNotAfter(r, p, i);
    } else {
      forall i | 0 <= i < k
        ensures !(p <= r[i..])
      {
        if p <= r[i..] { FenceInside(t, b, i); }
      }
      FindFirst(r, p, k);
    }
  }

  lemma {:induction false} FindNotAfter(s: string, p: string, i: nat)
    requires i < |s| && p <= s[i..]
    ensures Find(s, p) <= i
  {
    assert s[0..] == s;
    if i > 0 && !(p <= s) {
      assert s[1..][i - 1..] == s[i..];
      FindNotAfter(s[1..], p, i - 1);
    }
  }

  lemma FenceInside(t: string, b: string, i: nat)
    requires Trimmed(t) && t != "" && i <= |t| && "\n---" <= Closed(t, b)[i..]
    ensures HasFenceLine(t)
  {
    var r := Closed(t, b);
    assert r[i] == r[i..][0] == '\n';
    assert forall j :: 1 <= j <= 3 ==> r[i + j] == r[i..][j] == '-';
    assert forall j :: 0 <= j < |t| ==> r[j + 1] == t[j];
    assert r[|t| + 1] == '\n';
    assert i + 3 <= |t|;
    assert t[i] == '-' && t[i + 1] == '-' && t[i + 2] == '-';
    assert t[i..][..3] == "---";
    assert FenceAt(t, i);
  }

  lemma BodyAfterFence(t: string, b: string)
    ensures TrimPrefix(TrimPrefix(Closed(t, b)[|t| + 1 + 4..], "\r"), "\n") == "\n" + b
  {
    var after := Closed(t, b)[|t| + 1 + 4..];
    assert after == "\n\n" + b;
    assert after[0] == '\n' && "\r"[0] == '\r';
    assert TrimPrefix(after, "\r") == after;
    assert after[1..] == "\n" + b;
  }

  lemma BlockBeforeFence(t: string, b: string)
    requires Trimmed(t)
    ensures TrimSpace(Closed(t, b)[..|t| + 1]) == t
  {
    assert Closed(t, b)[..|t| + 1] == "\n" + t + "";
    TrimSpaceAround("\n", t, "");
  }

  /** A block and body come back as they were joined exactly when no line of the block starts with a fence. */
  lemma {:induction false} SplitJoinIff(t: string, body: string)
    requires Trimmed(t) && t != ""
    ensures SplitFrontmatter(JoinFrontmatter(t, body)) == Ok(Parts(t, "\n" + TrimLeftOf(body, {'\r', '\n'}))) <==>
      !HasFenceLine(t)
  {
    var b := TrimLeftOf(body, {'\r', '\n'});
    TrimSpaceTrimmed(t);
    AfterFenceOfJoin(t, b);
    FindCloses(t, b);
    var r := Closed(t, b);
    var end := Find(r, "\n---");
    if end == |t| + 1 {
      BodyAfterFence(t, b);
      BlockBeforeFence(t, b);
    } else {
      FindMatches(r, "\n---");
      TrimLength(r[..end]);
      if end > 0 { ShorterFront(r[..end]); }
    }
  }

  lemma TrimLength(s: string)
    ensures |TrimSpace(s)| <= |s|
  {
    var pre, post := TrimSpaceSplits(s);
  }

  /** Text that starts with a line break is shorter once trimmed. */
  lemma ShorterFront(s: string)
    requires s != "" && s[0] == '\n'
    ensures |TrimSpace(s)| < |s|
  {
    var pre, post := TrimSpaceSplits(s);
    if pre == "" { assert s[0] == (TrimSpace(s) + post)[0]; }
  }

  lemma {:induction false} TrimLeftOfSkips(pre: string, s: string, cut: set<char>)
    requires (forall c :: c in pre ==> c in cut) && (s != "" ==> s[0] !in cut)
    ensures TrimLeftOf(pre + s, cut) == s
  {
    if pre == "" {
      assert pre + s == s;
    } else {
      assert (pre + s)[1..] == pre[1..] + s;
      TrimLeftOfSkips(pre[1..], s, cut);
    }
  }

  /** Three dashes alone on the first line that is not blank open a fence, after a byte order mark or not. */
  lemma FenceOpens(lead: string, mark: string, blanks: string, ending: string, rest: string)
    requires (forall c :: c in lead ==> c in {' ', '\t', '\r', '\n'}) && mark in {"", "\U{FEFF}"}
    requires (forall c :: c in blanks ==> c in {' ', '\t'}) && ending in {"\n", "\r\n"}
    ensures AfterFence(lead + (mark + ("---" + (blanks + (ending + rest))))) == Some(ending + rest)
  {
    var line := blanks + (ending + rest);
    var fence := "---" + line;
    var marked := mark + fence;
    assert marked[0] !in {' ', '\t', '\r', '\n'};
    TrimLeftOfSkips(lead, marked, {' ', '\t', '\r', '\n'});
    assert TrimPrefix(marked, BOM) == fence by {
      if mark == "" { assert marked == fence && fence[0] == '-'; } else { assert marked[1..] == fence; }
    }
    assert fence[3..] == line;
    TrimLeftOfSkips(blanks, ending + rest, {' ', '\t'});
    assert ending <= ending + rest;
  }

  /** A block that is not closed is an error. */
  lemma {:induction false} SmallUnclosed()
    ensures SplitFrontmatter("---\na\ntext") == Err(Unterminated)
  {
    var rest := "\na\ntext";
    FenceOpens("", "", "", "\n", "a\ntext");
    assert rest == "\n" + "a\ntext";
    assert "" + ("" + ("---" + ("" + rest))) == "---\na\ntext";
    NoDashes(rest);
  }

  lemma HasDash(s: string)
    requires "\n---" <= s
    ensures '-' in s
  {
    assert s[1] == '-';
  }

  lemma {:induction false} NoDashes(rest: string)
    requires '-' !in rest
    ensures Find(rest, "\n---") == |rest|
  {
    FindMatches(rest, "\n---");
    var end := Find(rest, "\n---");
    if end < |rest| { HasDash(rest[end..]); }
  }

  /** What is read for a small block: one line break after the closing fence belongs to it. */
  lemma SmallRead(content: string, ending: string, text: string)
    requires ending in {"\n", "\r\n"} && content == "---\na\n---" + (ending + text)
    ensures SplitFrontmatter(content) == Ok(Parts("a", text))
  {
    var after := ending + text;
    SplitsSmall(content, after);
    assert TrimPrefix(TrimPrefix(after, "\r"), "\n") == text by {
      if ending == "\n" {
        assert after[0] == '\n' && "\r"[0] == '\r' && after[1..] == text;
      } else {
        assert after[1..] == "\n" + text && after[1..][1..] == text;
      }
    }
  }

  /** What is written for a small block, and without one. */
  lemma {:induction false} JoinsSmall()
    ensures JoinFrontmatter("a: b", "\r\n\ntext") == "---\na: b\n---\n\ntext" &&
      JoinFrontmatter(" ", "\ntext") == "text"
  {
    TrimSpaceTrimmed("a: b");
    TrimSpaceAround(" ", "", "");
    assert " " + "" + "" == " ";
    TrimLeftOfSkips("\r\n\n", "text", {'\r', '\n'});
    TrimLeftOfSkips("\n", "text", {'\r', '\n'});
    assert "\r\n\n" + "text" == "\r\n\ntext" && "\n" + "text" == "\ntext";
  }

  lemma {:induction false} FoundAtTwo(rest: string, after: string)
    requires rest == "\na\n---" + after
    ensures Find(rest, "\n---") == 2
  {
    assert rest[2..] == "\n---" + after;
    FindNotAfter(rest, "\n---", 2);
    FindMatches(rest, "\n---");
    var end := Find(rest, "\n---");
    assert rest[end..][0] == '\n' && rest[1] == 'a' && rest[end..][1] == '-' && rest[0..][1] == 'a';
  }

  lemma {:induction false} SplitsSmall(content: string, after: string)
    requires content == "---\na\n---" + after
    ensures SplitFrontmatter(content) == Ok(Parts("a", TrimPrefix(TrimPrefix(after, "\r"), "\n")))
  {
    var rest := "\na\n---" + after;
    FenceOpens("", "", "", "\n", "a\n---" + after);
    assert rest == "\n" + ("a\n---" + after);
    assert "" + ("" + ("---" + ("" + rest))) == content;
    FoundAtTwo(rest, after);
    assert rest[..2] == "\n" + "a" + "" && rest[6..] == after;
    TrimSpaceAround("\n", "a", "");
  }

  /** A text is all body exactly when it opens no fence. */
  lemma AllBodyIff(content: string)
    ensures SplitFrontmatter(content) == Ok(Parts("", content)) <==> AfterFence(content).None?
    ensures AfterFence(content).Some? && SplitFrontmatter(content).Ok? ==>
      |SplitFrontmatter(content).value.body| + 7 <= |content|
  {
    if AfterFence(content).Some? {
      var rest := AfterFence(content).value;
      TrimLeftOfLength(content, {' ', '\t', '\r', '\n'});
      var trimmed := TrimPrefix(TrimLeftOf(content, {' ', '\t', '\r', '\n'}), BOM);
      TrimLeftOfLength(trimmed[3..], {' ', '\t'});
      assert |rest| + 3 <= |content|;
      FindMatches(rest, "\n---");
    }
  }

  lemma {:induction false} TrimLeftOfLength(s: string, cut: set<char>)
    ensures |TrimLeftOf(s, cut)| <= |s|
  {
    if s != "" && s[0] in cut { TrimLeftOfLength(s[1..], cut); }
  }
}
