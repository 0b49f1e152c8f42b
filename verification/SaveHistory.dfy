/**
  Every run of saves of one project, from an empty tag list. An attempt to create a tag
  names it from a tag list read at some earlier moment, so any number of saves may overlap
  and any refresh of the list may fail; creating a tag that exists is refused.
*/
module SaveHistory {
  import opened Tags
  import opened Wrappers

  /** An attempt, with the moments at which it read the parent version and the tag list. */
  datatype Save =
    | Requirements(seen: nat, commit: string)
    | Design(parentSeen: nat, seen: nat, commit: string)

  // ---- The numbers in creation order -----------------------------------------------

  function Versions(tags: seq<TagInfo>): seq<int> {
    if tags == [] then []
    else
      var before := Versions(tags[..|tags| - 1]);
      match ParseRequirements(tags[|tags| - 1].name)
      case Some(n) => before + [n]
      case None => before
  }

  function Revisions(tags: seq<TagInfo>, parent: int): seq<int> {
    if tags == [] then []
    else
      var before := Revisions(tags[..|tags| - 1], parent);
      match ParseDesign(tags[|tags| - 1].name)
      case Some(d) => if d.0 == parent then before + [d.1] else before
      case None => before
  }

  function UpTo(n: nat): (s: seq<int>)
    ensures |s| == n && forall i :: 0 <= i < n ==> s[i] == i + 1
  {
    seq(n, i => i + 1)
  }

  lemma {:induction false} VersionsMembers(tags: seq<TagInfo>, n: int)
    ensures HasVersion(tags, n) <==> n in Versions(tags)
  {
    if tags != [] {
      var k := |tags| - 1;
      VersionsMembers(tags[..k], n);
      assert tags[..k + 1] == tags;
      VersionsGrow(tags, k, n);
    }
  }

  lemma {:induction false} RevisionsMembers(tags: seq<TagInfo>, parent: int, r: int)
    ensures HasDesign(tags, parent, r) <==> r in Revisions(tags, parent)
  {
    if tags != [] {
      var k := |tags| - 1;
      RevisionsMembers(tags[..k], parent, r);
      assert tags[..k + 1] == tags;
      DesignsGrow(tags, k, parent, r);
    }
  }

  lemma {:induction false} VersionsOfPrefix(tags: seq<TagInfo>, k: nat)
    requires k <= |tags|
    ensures Versions(tags[..k]) <= Versions(tags)
    decreases |tags|
  {
    if k < |tags| {
      VersionsOfPrefix(tags[..|tags| - 1], k);
      assert tags[..|tags| - 1][..k] == tags[..k];
    } else {
      assert tags[..k] == tags;
    }
  }

  lemma {:induction false} RevisionsOfPrefix(tags: seq<TagInfo>, k: nat, parent: int)
    requires k <= |tags|
    ensures Revisions(tags[..k], parent) <= Revisions(tags, parent)
    decreases |tags|
  {
    if k < |tags| {
      RevisionsOfPrefix(tags[..|tags| - 1], k, parent);
      assert tags[..|tags| - 1][..k] == tags[..k];
    } else {
      assert tags[..k] == tags;
    }
  }

  // ---- Steps -------------------------------------------------------------------

  ghost function LatestVersion(tags: seq<TagInfo>): (max: int)
    ensures IsLatestVersion(tags, max)
  {
    if tags == [] then 0
    else
      var k := |tags| - 1;
      var max := LatestVersion(tags[..k]);
      assert tags[..k + 1] == tags;
      assert forall n :: HasVersion(tags, n) <==>
        HasVersion(tags[..k], n) || ParseRequirements(tags[k].name) == Some(n) by {
        forall n { VersionsGrow(tags, k, n); }
      }
      match ParseRequirements(tags[k].name)
      case Some(n) => if n > max then n else max
      case None => max
  }

  ghost function LatestRevision(tags: seq<TagInfo>, parent: int): (max: int)
    ensures IsLatestRevision(tags, parent, max)
  {
    if tags == [] then 0
    else
      var k := |tags| - 1;
      var max := LatestRevision(tags[..k], parent);
      assert tags[..k + 1] == tags;
      assert forall r :: HasDesign(tags, parent, r) <==>
        HasDesign(tags[..k], parent, r) || ParseDesign(tags[k].name) == Some((parent, r)) by {
        forall r { DesignsGrow(tags, k, parent, r); }
      }
      match ParseDesign(tags[k].name)
      case Some(d) => if d.0 == parent && d.1 > max then d.1 else max
      case None => max
  }

  /** The scans compute these functions: a latest version or revision is unique. */
  lemma {:induction false} LatestUnique(tags: seq<TagInfo>, parent: int, version: int, revision: int)
    ensures IsLatestVersion(tags, version) <==> version == LatestVersion(tags)
    ensures IsLatestRevision(tags, parent, revision) <==> revision == LatestRevision(tags, parent)
  {
    if IsLatestVersion(tags, version) {
      assert HasVersion(tags, version) ==> version <= LatestVersion(tags);
      assert HasVersion(tags, LatestVersion(tags)) ==> LatestVersion(tags) <= version;
    }
    if IsLatestRevision(tags, parent, revision) {
      assert HasDesign(tags, parent, revision) ==> revision <= LatestRevision(tags, parent);
      assert HasDesign(tags, parent, LatestRevision(tags, parent)) ==> LatestRevision(tags, parent) <= revision;
    }
  }

  function Create(tags: seq<TagInfo>, name: string, commit: string): seq<TagInfo> {
    if Named(tags, name) then tags else tags + [TagInfo(name, commit, "")]
  }

  ghost function SaveRequirements(tags: seq<TagInfo>, view: seq<TagInfo>, commit: string): seq<TagInfo> {
    Create(tags, RequirementsTag(Increment(LatestVersion(view))), commit)
  }

  /** Without a requirements version the save is refused. */
  ghost function SaveDesign(
    tags: seq<TagInfo>, parentView: seq<TagInfo>, view: seq<TagInfo>, commit: string): seq<TagInfo>
  {
    var parent := LatestVersion(parentView);
    if parent == 0 then tags
    else Create(tags, DesignTag(parent, Increment(LatestRevision(view, parent))), commit)
  }

  predicate ValidRun(saves: seq<Save>) {
    forall i :: 0 <= i < |saves| ==> saves[i].seen <= i && (saves[i].Design? ==> saves[i].parentSeen <= i)
  }

  /** The tag list after every attempt, the empty list first. */
  ghost function History(saves: seq<Save>): (h: seq<seq<TagInfo>>)
    requires ValidRun(saves)
    ensures |h| == |saves| + 1
  {
    if saves == [] then [[]]
    else
      var n := |saves| - 1;
      var h := History(saves[..n]);
      h + [Saved(h, n, saves[n])]
  }

  /** The tag list after one more attempt, whose views are earlier lists. */
  ghost function Saved(h: seq<seq<TagInfo>>, n: nat, save: Save): seq<TagInfo>
    requires n < |h| && save.seen <= n && (save.Design? ==> save.parentSeen <= n)
  {
    match save
    case Requirements(seen, commit) => SaveRequirements(h[n], h[seen], commit)
    case Design(parentSeen, seen, commit) => SaveDesign(h[n], h[parentSeen], h[seen], commit)
  }

  // ---- The invariant -------------------------------------------------------------

  predicate Printed(name: string) {
    || (ParseRequirements(name).Some? && name == RequirementsTag(ParseRequirements(name).value))
    || (ParseDesign(name).Some? && name == DesignTag(ParseDesign(name).value.0, ParseDesign(name).value.1))
  }

  ghost predicate Consecutive(tags: seq<TagInfo>) {
    Versions(tags) == UpTo(|Versions(tags)|) && forall p :: ConsecutiveUnder(tags, p)
  }

  predicate ConsecutiveUnder(tags: seq<TagInfo>, p: int) {
    Revisions(tags, p) == UpTo(|Revisions(tags, p)|)
  }

  predicate AllPrinted(tags: seq<TagInfo>) {
    forall i :: 0 <= i < |tags| ==> Printed(tags[i].name)
  }

  predicate NamesDistinct(tags: seq<TagInfo>) {
    forall i, j :: 0 <= i < j < |tags| ==> tags[i].name != tags[j].name
  }

  ghost predicate ParentsWithin(tags: seq<TagInfo>, bound: int) {
    forall n, r :: HasDesign(tags, n, r) ==> 1 <= n <= bound
  }

  /** Versions and revisions are consecutive from 1, names are canonical and distinct, parents exist. */
  ghost predicate Inv(tags: seq<TagInfo>) {
    && Consecutive(tags)
    && AllPrinted(tags)
    && NamesDistinct(tags)
    && ParentsWithin(tags, |Versions(tags)|)
  }

  lemma {:induction false} LengthBounds(tags: seq<TagInfo>, parent: int)
    ensures |Versions(tags)| <= |tags| && |Revisions(tags, parent)| <= |tags|
  {
    if tags != [] { LengthBounds(tags[..|tags| - 1], parent); }
  }

  lemma {:induction false} LatestIsCount(tags: seq<TagInfo>)
    requires Versions(tags) == UpTo(|Versions(tags)|)
    ensures LatestVersion(tags) == |Versions(tags)|
  {
    var k, max := |Versions(tags)|, LatestVersion(tags);
    VersionsMembers(tags, k);
    VersionsMembers(tags, max);
    if k > 0 { assert Versions(tags)[k - 1] == k; }
  }

  lemma {:induction false} LatestRevisionIsCount(tags: seq<TagInfo>, parent: int)
    requires Revisions(tags, parent) == UpTo(|Revisions(tags, parent)|)
    ensures LatestRevision(tags, parent) == |Revisions(tags, parent)|
  {
    var k, max := |Revisions(tags, parent)|, LatestRevision(tags, parent);
    RevisionsMembers(tags, parent, k);
    RevisionsMembers(tags, parent, max);
    if k > 0 { assert Revisions(tags, parent)[k - 1] == k; }
  }

  lemma {:induction false} PrefixCounts(tags: seq<TagInfo>, view: seq<TagInfo>, parent: int)
    requires Inv(tags) && view <= tags
    ensures LatestVersion(view) == |Versions(view)| <= |Versions(tags)|
    ensures LatestRevision(view, parent) == |Revisions(view, parent)| <= |Revisions(tags, parent)|
  {
    assert ConsecutiveUnder(tags, parent);
    assert view == tags[..|view|];
    VersionsOfPrefix(tags, |view|);
    RevisionsOfPrefix(tags, |view|, parent);
    LatestIsCount(view);
    LatestRevisionIsCount(view, parent);
  }

  /** A canonical version name is taken exactly when the version is among the consecutive ones. */
  lemma {:induction false} VersionTaken(tags: seq<TagInfo>, n: int)
    requires Inv(tags) && InRange(n)
    ensures Named(tags, RequirementsTag(n)) <==> n <= |Versions(tags)|
  {
    ParseRequirementsPrinted(n);
    VersionsMembers(tags, n);
    if Named(tags, RequirementsTag(n)) { assert HasVersion(tags, n); }
    if n <= |Versions(tags)| {
      assert Versions(tags)[n - 1] == n;
      var i :| 0 <= i < |tags| && ParseRequirements(tags[i].name) == Some(n);
      OneKind(tags[i].name);
      assert Printed(tags[i].name);
    }
  }

  lemma {:induction false} RevisionTaken(tags: seq<TagInfo>, p: int, r: int)
    requires Inv(tags) && InRange(p) && InRange(r)
    ensures Named(tags, DesignTag(p, r)) <==> r <= |Revisions(tags, p)|
  {
    assert ConsecutiveUnder(tags, p);
    ParseDesignPrinted(p, r);
    RevisionsMembers(tags, p, r);
    if Named(tags, DesignTag(p, r)) { assert HasDesign(tags, p, r); }
    if r <= |Revisions(tags, p)| {
      assert Revisions(tags, p)[r - 1] == r;
      var i :| 0 <= i < |tags| && ParseDesign(tags[i].name) == Some((p, r));
      OneKind(tags[i].name);
      assert Printed(tags[i].name);
    }
  }

  lemma AppendedDesigns(tags: seq<TagInfo>, t: TagInfo, n: int, r: int)
    ensures HasDesign(tags + [t], n, r) <==> HasDesign(tags, n, r) || ParseDesign(t.name) == Some((n, r))
  {
    var all := tags + [t];
    assert all[..|tags|] == tags && all[..|tags| + 1] == all;
    DesignsGrow(all, |tags|, n, r);
  }

  lemma AppendName(tags: seq<TagInfo>, t: TagInfo)
    requires AllPrinted(tags) && NamesDistinct(tags) && !Named(tags, t.name) && Printed(t.name)
    ensures AllPrinted(tags + [t]) && NamesDistinct(tags + [t])
  {
  }

  lemma {:induction false} ReadLast(tags: seq<TagInfo>, t: TagInfo, p: int)
    ensures Versions(tags + [t]) ==
      match ParseRequirements(t.name) case Some(n) => Versions(tags) + [n] case None => Versions(tags)
    ensures Revisions(tags + [t], p) ==
            match ParseDesign(t.name)
            case Some(d) => if d.0 == p then Revisions(tags, p) + [d.1] else Revisions(tags, p)
            case None => Revisions(tags, p)
  {
    assert (tags + [t])[..|tags|] == tags;
  }

  lemma VersionOrOther(tags: seq<TagInfo>, t: TagInfo, p: int)
    requires ConsecutiveUnder(tags, p) && ParseDesign(t.name).None?
    ensures ConsecutiveUnder(tags + [t], p)
  {
    ReadLast(tags, t, p);
  }

  lemma {:induction false} AppendVersion(tags: seq<TagInfo>, t: TagInfo)
    requires Consecutive(tags) && InRange(|Versions(tags)| + 1) && t.name == RequirementsTag(|Versions(tags)| + 1)
    ensures Consecutive(tags + [t]) && Versions(tags + [t]) == UpTo(|Versions(tags)| + 1)
    ensures Printed(t.name) && ParseDesign(t.name).None?
  {
    ParseRequirementsPrinted(|Versions(tags)| + 1);
    OneKind(t.name);
    ReadLast(tags, t, 0);
    UpToMore(Versions(tags));
    forall p
      ensures ConsecutiveUnder(tags + [t], p)
    {
      assert ConsecutiveUnder(tags, p);
      VersionOrOther(tags, t, p);
    }
  }

  lemma UpToMore(s: seq<int>)
    requires s == UpTo(|s|)
    ensures s + [|s| + 1] == UpTo(|s| + 1)
  {
  }

  lemma {:induction false} RevisionOrOther(tags: seq<TagInfo>, t: TagInfo, p: int, q: int)
    requires ConsecutiveUnder(tags, q)
    requires ParseDesign(t.name) == Some((p, |Revisions(tags, p)| + 1))
    ensures ConsecutiveUnder(tags + [t], q) && (q == p ==> Revisions(tags + [t], q) == UpTo(|Revisions(tags, q)| + 1))
  {
    ReadLast(tags, t, q);
    if q == p { UpToMore(Revisions(tags, p)); }
  }

  lemma AppendRevision(tags: seq<TagInfo>, t: TagInfo, p: int)
    requires Consecutive(tags)
    requires InRange(p) && InRange(|Revisions(tags, p)| + 1) && t.name == DesignTag(p, |Revisions(tags, p)| + 1)
    ensures Consecutive(tags + [t]) && Versions(tags + [t]) == Versions(tags)
    ensures Printed(t.name) && ParseDesign(t.name) == Some((p, |Revisions(tags, p)| + 1))
  {
    ParseDesignPrinted(p, |Revisions(tags, p)| + 1);
    OneKind(t.name);
    ReadLast(tags, t, p);
    forall q
      ensures ConsecutiveUnder(tags + [t], q)
    {
      assert ConsecutiveUnder(tags, q);
      RevisionOrOther(tags, t, p, q);
    }
  }

  lemma AppendParent(tags: seq<TagInfo>, t: TagInfo, bound: int, bound': int)
    requires ParentsWithin(tags, bound) && bound <= bound'
    requires ParseDesign(t.name).Some? ==> 1 <= ParseDesign(t.name).value.0 <= bound'
    ensures ParentsWithin(tags + [t], bound')
  {
    forall n, r | HasDesign(tags + [t], n, r)
      ensures 1 <= n <= bound'
    {
      AppendedDesigns(tags, t, n, r);
    }
  }

  lemma {:induction false} AppendVersionInv(tags: seq<TagInfo>, t: TagInfo)
    requires Inv(tags) && !Named(tags, t.name)
    requires InRange(|Versions(tags)| + 1) && t.name == RequirementsTag(|Versions(tags)| + 1)
    ensures Inv(tags + [t])
  {
    AppendVersion(tags, t);
    AppendName(tags, t);
    AppendParent(tags, t, |Versions(tags)|, |Versions(tags)| + 1);
  }

  lemma AppendRevisionInv(tags: seq<TagInfo>, t: TagInfo, p: int)
    requires Inv(tags) && !Named(tags, t.name) && 1 <= p <= |Versions(tags)|
    requires InRange(p) && InRange(|Revisions(tags, p)| + 1) && t.name == DesignTag(p, |Revisions(tags, p)| + 1)
    ensures Inv(tags + [t])
  {
    AppendRevision(tags, t, p);
    AppendName(tags, t);
    AppendParent(tags, t, |Versions(tags)|, |Versions(tags)|);
  }

  lemma RequirementsAttempt(tags: seq<TagInfo>, k: nat, commit: string) returns (after: seq<TagInfo>)
    requires Inv(tags) && |tags| < MAX_INT && k <= |Versions(tags)|
    ensures after == Create(tags, RequirementsTag(k + 1), commit) && Inv(after)
    ensures |after| <= |tags| + 1 && tags <= after && (after == tags <==> k < |Versions(tags)|)
  {
    LengthBounds(tags, 0);
    VersionTaken(tags, k + 1);
    if k < |Versions(tags)| {
      after := tags;
    } else {
      assert k == |Versions(tags)|;
      var t := TagInfo(RequirementsTag(|Versions(tags)| + 1), commit, "");
      AppendVersionInv(tags, t);
      after := tags + [t];
    }
  }

  /** Whatever earlier list the name comes from, the attempt keeps the history consecutive. */
  lemma {:induction false} RequirementsKeepsInv(tags: seq<TagInfo>, view: seq<TagInfo>, commit: string)
    requires Inv(tags) && view <= tags && |tags| < MAX_INT
    ensures Inv(SaveRequirements(tags, view, commit))
    ensures |SaveRequirements(tags, view, commit)| <= |tags| + 1 && tags <= SaveRequirements(tags, view, commit)
    ensures SaveRequirements(tags, view, commit) == tags <==> |Versions(view)| < |Versions(tags)|
  {
    PrefixCounts(tags, view, 0);
    LengthBounds(tags, 0);
    var after := RequirementsAttempt(tags, |Versions(view)|, commit);
    assert after == SaveRequirements(tags, view, commit);
  }

  lemma DesignAttempt(tags: seq<TagInfo>, p: int, k: nat, commit: string) returns (after: seq<TagInfo>)
    requires Inv(tags) && |tags| < MAX_INT && 1 <= p <= |Versions(tags)| && k <= |Revisions(tags, p)|
    ensures after == Create(tags, DesignTag(p, k + 1), commit) && Inv(after)
  {
    LengthBounds(tags, p);
    RevisionTaken(tags, p, k + 1);
    if k < |Revisions(tags, p)| {
      after := tags;
    } else {
      assert k == |Revisions(tags, p)|;
      var t := TagInfo(DesignTag(p, |Revisions(tags, p)| + 1), commit, "");
      AppendRevisionInv(tags, t, p);
      after := tags + [t];
    }
  }

  lemma DesignKeepsInv(tags: seq<TagInfo>, parentView: seq<TagInfo>, view: seq<TagInfo>, commit: string)
    returns (after: seq<TagInfo>)
    requires Inv(tags) && view <= tags && parentView <= tags && |tags| < MAX_INT
    ensures after == SaveDesign(tags, parentView, view, commit) && Inv(after) && |after| <= |tags| + 1 && tags <= after
  {
    PrefixCounts(tags, parentView, 0);
    var p := LatestVersion(parentView);
    if p == 0 {
      after := tags;
    } else {
      PrefixCounts(tags, view, p);
      LengthBounds(tags, p);
      after := DesignAttempt(tags, p, |Revisions(view, p)|, commit);
    }
  }

  lemma SavedInv(h: seq<seq<TagInfo>>, n: nat, save: Save)
    requires n < |h| && save.seen <= n && (save.Design? ==> save.parentSeen <= n)
    requires Inv(h[n]) && |h[n]| < MAX_INT && h[save.seen] <= h[n] && (save.Design? ==> h[save.parentSeen] <= h[n])
    ensures Inv(Saved(h, n, save)) && |Saved(h, n, save)| <= |h[n]| + 1 && h[n] <= Saved(h, n, save)
  {
    match save
    case Requirements(seen, commit) => RequirementsKeepsInv(h[n], h[seen], commit);
    case Design(parentSeen, seen, commit) => var after := DesignKeepsInv(h[n], h[parentSeen], h[seen], commit);
  }

  ghost predicate Good(h: seq<seq<TagInfo>>, i: nat)
    requires i < |h|
  {
    Inv(h[i]) && |h[i]| <= i && h[i] <= h[|h| - 1]
  }

  lemma GoodNext(h: seq<seq<TagInfo>>, tags: seq<TagInfo>, i: nat)
    requires h != [] && i <= |h| && Inv(tags) && |tags| <= |h| && h[|h| - 1] <= tags && (i < |h| ==> Good(h, i))
    ensures Good(h + [tags], i)
  {
  }

  /** Along every run the tag lists only grow and each satisfies the invariant. */
  lemma {:induction false} HistoryInv(saves: seq<Save>, i: nat)
    requires ValidRun(saves) && |saves| <= MAX_INT && i <= |saves|
    ensures Good(History(saves), i)
  {
    if saves == [] {
      assert forall p :: Revisions([], p) == UpTo(0);
    } else {
      var n := |saves| - 1;
      HistoryInv(saves[..n], n);
      HistoryInv(saves[..n], saves[n].seen);
      if saves[n].Design? { HistoryInv(saves[..n], saves[n].parentSeen); }
      if i <= n { HistoryInv(saves[..n], i); }
      InvNext(History(saves[..n]), n, saves[n], i);
    }
  }

  lemma InvNext(h: seq<seq<TagInfo>>, n: nat, save: Save, i: nat)
    requires |h| == n + 1 && save.seen <= n && (save.Design? ==> save.parentSeen <= n) && n < MAX_INT && i <= n + 1
    requires Good(h, n) && Good(h, save.seen) && (save.Design? ==> Good(h, save.parentSeen)) && (i <= n ==> Good(h, i))
    ensures Good(h + [Saved(h, n, save)], i)
  {
    SavedInv(h, n, save);
    GoodNext(h, Saved(h, n, save), i);
  }

  /**
    After any run the requirements versions are 1 to n and each parent's revisions 1 to m, each in that
    order and once.
  */
  lemma {:induction false} VersionsAreConsecutive(saves: seq<Save>)
    requires ValidRun(saves) && |saves| <= MAX_INT
    ensures Consecutive(History(saves)[|saves|]) && NamesDistinct(History(saves)[|saves|])
  {
    HistoryInv(saves, |saves|);
  }

  // ---- The latest design -----------------------------------------------------------

  lemma NewestAmong(tags: seq<TagInfo>, t: TagInfo, p: int, r: int)
    requires ParseDesign(t.name) == Some((p, r)) && p >= 1
    requires forall r' :: HasDesign(tags, p, r') ==> r' < r
    ensures IsLatestDesign(tags + [t], (p, r)) <==> forall n, r' :: HasDesign(tags, n, r') ==> n <= p
  {
    forall n, r'
      ensures HasDesign(tags + [t], n, r') <==> HasDesign(tags, n, r') || (n, r') == (p, r)
    {
      AppendedDesigns(tags, t, n, r');
    }
  }

  /** A design tag just created is the latest one exactly when no design has a later parent. */
  lemma {:induction false} NewestIffNoLaterParent(tags: seq<TagInfo>, p: int, commit: string)
    requires Inv(tags) && |tags| < MAX_INT && 1 <= p <= |Versions(tags)|
    ensures var r := |Revisions(tags, p)| + 1;
      IsLatestDesign(tags + [TagInfo(DesignTag(p, r), commit, "")], (p, r)) <==>
      forall n, r' :: HasDesign(tags, n, r') ==> n <= p
  {
    var r := |Revisions(tags, p)| + 1;
    LengthBounds(tags, p);
    ParseDesignPrinted(p, r);
    assert ConsecutiveUnder(tags, p);
    forall r' | HasDesign(tags, p, r')
      ensures r' < r
    {
      RevisionsMembers(tags, p, r');
    }
    NewestAmong(tags, TagInfo(DesignTag(p, r), commit, ""), p, r);
  }

  function LastDesign(tags: seq<TagInfo>): (int, int) {
    if tags == [] then (0, 0)
    else
      match ParseDesign(tags[|tags| - 1].name)
      case Some(d) => d
      case None => LastDesign(tags[..|tags| - 1])
  }

  /** Saves one at a time: each reads the tags as they are. */
  predicate Serial(saves: seq<Save>) {
    forall i :: 0 <= i < |saves| ==> saves[i].seen == i && (saves[i].Design? ==> saves[i].parentSeen == i)
  }

  lemma SameDesigns(tags: seq<TagInfo>, t: TagInfo, best: (int, int))
    requires IsLatestDesign(tags, best) && ParseDesign(t.name).None?
    ensures IsLatestDesign(tags + [t], best)
  {
    forall n, r
      ensures HasDesign(tags + [t], n, r) <==> HasDesign(tags, n, r)
    {
      AppendedDesigns(tags, t, n, r);
    }
  }

  lemma {:induction false} LastOfAppended(tags: seq<TagInfo>, t: TagInfo)
    ensures LastDesign(tags + [t]) == match ParseDesign(t.name) case Some(d) => d case None => LastDesign(tags)
  {
    assert (tags + [t])[..|tags|] == tags;
  }

  /** One at a time, no attempt is refused. */
  lemma SerialRequirements(tags: seq<TagInfo>, commit: string) returns (after: seq<TagInfo>)
    requires Inv(tags) && |tags| < MAX_INT && IsLatestDesign(tags, LastDesign(tags))
    ensures after == SaveRequirements(tags, tags, commit)
    ensures |after| == |tags| + 1 && IsLatestDesign(after, LastDesign(after))
  {
    PrefixCounts(tags, tags, 0);
    LengthBounds(tags, 0);
    var n := |Versions(tags)| + 1;
    VersionTaken(tags, n);
    var t := TagInfo(RequirementsTag(n), commit, "");
    ParseRequirementsPrinted(n);
    OneKind(t.name);
    after := tags + [t];
    LastOfAppended(tags, t);
    SameDesigns(tags, t, LastDesign(tags));
  }

  lemma SerialDesign(tags: seq<TagInfo>, commit: string) returns (after: seq<TagInfo>)
    requires Inv(tags) && |tags| < MAX_INT && IsLatestDesign(tags, LastDesign(tags))
    ensures after == SaveDesign(tags, tags, tags, commit)
    ensures |after| == (if Versions(tags) == [] then |tags| else |tags| + 1) && IsLatestDesign(after, LastDesign(after))
  {
    var p := |Versions(tags)|;
    PrefixCounts(tags, tags, p);
    LengthBounds(tags, p);
    if p == 0 {
      after := tags;
    } else {
      var r := |Revisions(tags, p)| + 1;
      RevisionTaken(tags, p, r);
      ParseDesignPrinted(p, r);
      NewestIffNoLaterParent(tags, p, commit);
      var t := TagInfo(DesignTag(p, r), commit, "");
      LastOfAppended(tags, t);
      after := tags + [t];
    }
  }

  /** In every serial run the scan for the latest design finds the design saved last. */
  lemma {:induction false} LatestDesignIsLastSaved(saves: seq<Save>)
    requires ValidRun(saves) && Serial(saves) && |saves| <= MAX_INT
    ensures IsLatestDesign(History(saves)[|saves|], LastDesign(History(saves)[|saves|]))
  {
    if saves != [] {
      var n := |saves| - 1;
      LatestDesignIsLastSaved(saves[..n]);
      HistoryInv(saves[..n], n);
      var tags := History(saves[..n])[n];
      match saves[n] {
        case Requirements(_, commit) => var after := SerialRequirements(tags, commit);
        case Design(_, _, commit) => var after := SerialDesign(tags, commit);
      }
    }
  }

  lemma {:induction false} CreatedOne(tags: seq<TagInfo>, p: int, k: nat, commit: string)
    requires Inv(tags) && |tags| < MAX_INT && 1 <= p <= |Versions(tags)| && k <= |Revisions(tags, p)|
    requires Create(tags, DesignTag(p, k + 1), commit) != tags
    ensures k == |Revisions(tags, p)| &&
      Create(tags, DesignTag(p, k + 1), commit) == tags + [TagInfo(DesignTag(p, k + 1), commit, "")]
  {
    LengthBounds(tags, p);
    RevisionTaken(tags, p, k + 1);
  }

  lemma {:induction false} DesignCreates(
    tags: seq<TagInfo>, parentView: seq<TagInfo>, view: seq<TagInfo>, commit: string, p: int)
    requires Inv(tags) && view <= tags && parentView <= tags && |tags| < MAX_INT
    requires p == LatestVersion(parentView) && p != 0
    ensures 1 <= p <= |Versions(tags)| && |Revisions(view, p)| <= |Revisions(tags, p)|
    ensures SaveDesign(tags, parentView, view, commit) == Create(tags, DesignTag(p, |Revisions(view, p)| + 1), commit)
  {
    PrefixCounts(tags, parentView, 0);
    PrefixCounts(tags, view, p);
    LengthBounds(tags, p);
  }

  /** The tag an overlapping design save creates under the version it read. */
  lemma {:induction false} CreatedUnder(
    tags: seq<TagInfo>, parentView: seq<TagInfo>, view: seq<TagInfo>, commit: string, p: int)
    requires Inv(tags) && view <= tags && parentView <= tags && |tags| < MAX_INT && p == LatestVersion(parentView)
    requires SaveDesign(tags, parentView, view, commit) != tags
    ensures 1 <= p <= |Versions(tags)|
    ensures SaveDesign(tags, parentView, view, commit)
      == tags + [TagInfo(DesignTag(p, |Revisions(tags, p)| + 1), commit, "")]
  {
    DesignCreates(tags, parentView, view, commit, p);
    CreatedOne(tags, p, |Revisions(view, p)|, commit);
  }

  /**
    In any run, a design just saved is the latest one exactly when no design has a later parent than the
    version it read.
  */
  lemma {:induction false} LastSavedIsLatestIff(saves: seq<Save>, n: nat)
    requires n == |saves| - 1 && ValidRun(saves) && |saves| <= MAX_INT && saves[n].Design?
    requires History(saves)[n + 1] != History(saves)[n]
    ensures var h := History(saves);
            IsLatestDesign(h[n + 1], LastDesign(h[n + 1])) <==>
            forall k, r :: HasDesign(h[n], k, r) ==> k <= LatestVersion(h[saves[n].parentSeen])
  {
    HistoryInv(saves[..n], n);
    HistoryInv(saves[..n], saves[n].seen);
    HistoryInv(saves[..n], saves[n].parentSeen);
    var h := History(saves[..n]);
    LastSaved(h[n], h[saves[n].parentSeen], h[saves[n].seen], saves[n].commit);
  }

  lemma {:induction false} LastSaved(tags: seq<TagInfo>, parentView: seq<TagInfo>, view: seq<TagInfo>, commit: string)
    requires Inv(tags) && view <= tags && parentView <= tags && |tags| < MAX_INT
    requires SaveDesign(tags, parentView, view, commit) != tags
    ensures var after := SaveDesign(tags, parentView, view, commit);
            IsLatestDesign(after, LastDesign(after)) <==>
              forall k, r :: HasDesign(tags, k, r) ==> k <= LatestVersion(parentView)
  {
    var p := LatestVersion(parentView);
    CreatedUnder(tags, parentView, view, commit, p);
    LastIsNew(tags, p, commit);
    NewestIffNoLaterParent(tags, p, commit);
  }

  lemma {:induction false} LastIsNew(tags: seq<TagInfo>, p: int, commit: string)
    requires |tags| < MAX_INT && 1 <= p <= |Versions(tags)|
    ensures var r := |Revisions(tags, p)| + 1; LastDesign(tags + [TagInfo(DesignTag(p, r), commit, "")]) == (p, r)
  {
    var r := |Revisions(tags, p)| + 1;
    LengthBounds(tags, p);
    ParseDesignPrinted(p, r);
    LastOfAppended(tags, TagInfo(DesignTag(p, r), commit, ""));
  }

  // ---- A run that leaves an older design latest -------------------------------------

  function Tag(name: string): TagInfo {
    TagInfo(name, "", "")
  }

  lemma {:induction false} HistoryNext(saves: seq<Save>, save: Save)
    requires ValidRun(saves) && save.seen <= |saves| && (save.Design? ==> save.parentSeen <= |saves|)
    ensures ValidRun(saves + [save])
    ensures var n := |saves|;
            History(saves + [save]) == History(saves) + [Saved(History(saves), n, save)]
  {
    assert (saves + [save])[..|saves|] == saves;
  }

  ghost predicate Holding(tags: seq<TagInfo>, versions: nat) {
    Inv(tags) && |Versions(tags)| == versions && forall p :: Revisions(tags, p) == []
  }

  /** Saving requirements with a current list of tags. */
  lemma CurrentRequirements(tags: seq<TagInfo>, n: nat)
    requires Holding(tags, n) && |tags| < MAX_INT
    ensures SaveRequirements(tags, tags, "") == tags + [Tag(RequirementsTag(n + 1))]
    ensures Holding(tags + [Tag(RequirementsTag(n + 1))], n + 1)
  {
    RequirementsKeepsInv(tags, tags, "");
    PrefixCounts(tags, tags, 0);
    LengthBounds(tags, 0);
    VersionTaken(tags, n + 1);
    ReadAsVersion(tags, n);
  }

  lemma ReadAsVersion(tags: seq<TagInfo>, n: nat)
    requires n < MAX_INT && |Versions(tags)| == n && forall p :: Revisions(tags, p) == []
    ensures var next := tags + [Tag(RequirementsTag(n + 1))];
            |Versions(next)| == n + 1 && forall p :: Revisions(next, p) == []
  {
    var tag := Tag(RequirementsTag(n + 1));
    ParseRequirementsPrinted(n + 1);
    OneKind(tag.name);
    ReadLast(tags, tag, 0);
    forall p
      ensures Revisions(tags + [tag], p) == []
    {
      ReadLast(tags, tag, p);
      assert Revisions(tags, p) == [];
    }
  }

  /** The first design saved under a version. */
  lemma {:induction false} FirstDesign(tags: seq<TagInfo>, parentView: seq<TagInfo>, p: nat)
    requires Inv(tags) && |tags| < MAX_INT && parentView <= tags
    requires |Versions(parentView)| == p > 0 && Revisions(tags, p) == []
    ensures SaveDesign(tags, parentView, tags, "") == tags + [Tag(DesignTag(p, 1))]
    ensures Inv(tags + [Tag(DesignTag(p, 1))])
    ensures ParseDesign(DesignTag(p, 1)) == Some((p, 1))
  {
    PrefixCounts(tags, parentView, 0);
    PrefixCounts(tags, tags, p);
    LengthBounds(tags, p);
    RevisionTaken(tags, p, 1);
    ParseDesignPrinted(p, 1);
    var after := DesignKeepsInv(tags, parentView, tags, "");
  }

  /** The tags of a version, of the next, of a design of the second and of one of the first. */
  ghost predicate StaleParentTags(v1: seq<TagInfo>, v2: seq<TagInfo>, d2: seq<TagInfo>, d1: seq<TagInfo>) {
    && v1 == [] + [Tag(RequirementsTag(1))] && v2 == v1 + [Tag(RequirementsTag(2))]
    && d2 == v2 + [Tag(DesignTag(2, 1))] && d1 == d2 + [Tag(DesignTag(1, 1))]
  }

  lemma TwoVersions(v1: seq<TagInfo>, v2: seq<TagInfo>)
    requires v1 == [] + [Tag(RequirementsTag(1))] && v2 == v1 + [Tag(RequirementsTag(2))]
    ensures SaveRequirements([], [], "") == v1 && SaveRequirements(v1, v1, "") == v2 && Holding(v1, 1) && Holding(v2, 2)
  {
    assert Holding([], 0) by { assert forall p :: Revisions([], p) == UpTo(0); }
    CurrentRequirements([], 0);
    CurrentRequirements(v1, 1);
  }

  lemma {:induction false} DesignOfSecond(v2: seq<TagInfo>, d2: seq<TagInfo>)
    requires Holding(v2, 2) && |v2| == 2 && d2 == v2 + [Tag(DesignTag(2, 1))]
    ensures SaveDesign(v2, v2, v2, "") == d2 && Inv(d2) && Revisions(d2, 1) == []
  {
    assert Revisions(v2, 2) == [] && Revisions(v2, 1) == [];
    FirstDesign(v2, v2, 2);
    ReadLast(v2, Tag(DesignTag(2, 1)), 1);
  }

  lemma {:induction false} StaleParentHistory(
    saves: seq<Save>, v1: seq<TagInfo>, v2: seq<TagInfo>, d2: seq<TagInfo>, d1: seq<TagInfo>)
    requires StaleParentTags(v1, v2, d2, d1)
    requires saves == [] + [Requirements(0, "")] + [Requirements(1, "")] + [Design(2, 2, "")] + [Design(1, 3, "")]
    ensures ValidRun(saves) && History(saves) == [[]] + [v1] + [v2] + [d2] + [d1]
  {
    TwoVersions(v1, v2);
    DesignOfSecond(v2, d2);
    FirstDesign(d2, v1, 1);
    var one := [] + [Requirements(0, "")];
    var two := one + [Requirements(1, "")];
    var three := two + [Design(2, 2, "")];
    Next([], Requirements(0, ""), [[]], v1);
    Next(one, Requirements(1, ""), [[]] + [v1], v2);
    Next(two, Design(2, 2, ""), [[]] + [v1] + [v2], d2);
    Next(three, Design(1, 3, ""), [[]] + [v1] + [v2] + [d2], d1);
  }

  lemma {:induction false} Next(saves: seq<Save>, save: Save, h: seq<seq<TagInfo>>, tags: seq<TagInfo>)
    requires ValidRun(saves) && save.seen <= |saves| && (save.Design? ==> save.parentSeen <= |saves|)
    requires History(saves) == h && Saved(h, |saves|, save) == tags
    ensures ValidRun(saves + [save]) && History(saves + [save]) == h + [tags]
  {
    HistoryNext(saves, save);
  }

  /**
    Two versions, a design of the second, and then one by a save that had read the first: the latest is
    not the last.
  */
  lemma {:induction false} StaleParentRun(
    saves: seq<Save>, v1: seq<TagInfo>, v2: seq<TagInfo>, d2: seq<TagInfo>, d1: seq<TagInfo>)
    requires StaleParentTags(v1, v2, d2, d1)
    requires saves == [] + [Requirements(0, "")] + [Requirements(1, "")] + [Design(2, 2, "")] + [Design(1, 3, "")]
    ensures ValidRun(saves) && History(saves)[4] == d1
    ensures LastDesign(d1) == (1, 1) && HasDesign(d1, 2, 1) && !IsLatestDesign(d1, LastDesign(d1))
  {
    StaleParentHistory(saves, v1, v2, d2, d1);
    ParseDesignPrinted(2, 1);
    ParseDesignPrinted(1, 1);
    LastOfAppended(d2, Tag(DesignTag(1, 1)));
    assert d1[2].name == DesignTag(2, 1);
  }
}
