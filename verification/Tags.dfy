/**
  Version tags: `v<N>` for requirements, `v<N>-<M>` for revision M of the design under
  requirements N. Numbers are Go's 64-bit int.
*/
module Tags {
  import opened Strings
  import opened Wrappers

  datatype TagInfo = TagInfo(name: string, commitHash: string, message: string)

  const MAX_INT := 0x7FFF_FFFF_FFFF_FFFF

  /** Adding one to a Go int. */
  function Increment(n: int): int {
    if n == MAX_INT then -MAX_INT - 1 else n + 1
  }

  // ---- Names -------------------------------------------------------------------

  /** `requirementsTagFor`. */
  function RequirementsTag(version: int): string {
    "v" + Itoa(version)
  }

  /** `designTagFor`. */
  function DesignTag(parent: int, revision: int): string {
    "v" + Itoa(parent) + "-" + Itoa(revision)
  }

  /** `strconv.Atoi` on a run of digits, keeping only what lies in 1 to the largest int. */
  function Positive(digits: string): Option<int> {
    if digits != "" && AllDigits(digits) && 1 <= Value(digits) <= MAX_INT then Some(Value(digits)) else None
  }

  /** `parseRequirementsTag`. */
  function ParseRequirements(name: string): Option<int> {
    if name != "" && name[0] == 'v' then Positive(name[1..]) else None
  }

  /** `parseDesignTag`. */
  function ParseDesign(name: string): Option<(int, int)> {
    if name == "" || name[0] != 'v' then None
    else
      var rest := name[1..];
      var dash := IndexOf(rest, '-');
      if dash >= |rest| then None
      else
        match (Positive(rest[..dash]), Positive(rest[dash + 1..]))
        case (Some(n), Some(r)) => Some((n, r))
        case _ => None
  }

  predicate InRange(n: int) {
    1 <= n <= MAX_INT
  }

  lemma PositiveDecimal(n: int)
    ensures Positive(Itoa(n)) == if InRange(n) then Some(n) else None
  {
    if n >= 0 {
      DecimalValue(n);
    } else {
      assert Itoa(n)[0] == '-';
    }
  }

  lemma {:induction false} NoDash(n: nat)
    ensures '-' !in Decimal(n)
  {
    DecimalValue(n);
  }

  /** A printed version is read back exactly when it is positive; the wrapped-around one is not. */
  lemma ParseRequirementsPrinted(n: int)
    ensures ParseRequirements(RequirementsTag(n)) == if InRange(n) then Some(n) else None
  {
    assert RequirementsTag(n)[1..] == Itoa(n);
    PositiveDecimal(n);
  }

  lemma ParseDesignSplit(a: string, b: string)
    requires '-' !in a
    ensures ParseDesign("v" + a + "-" + b) ==
            if Positive(a).Some? && Positive(b).Some? then Some((Positive(a).value, Positive(b).value)) else None
  {
    var name := "v" + a + "-" + b;
    var rest := name[1..];
    assert rest == a + ['-'] + b;
    IndexOfAfter(a, '-', b);
    assert rest[..|a|] == a && rest[|a| + 1..] == b;
  }

  lemma ParseDesignPrinted(n: int, r: int)
    requires n >= 0
    ensures ParseDesign(DesignTag(n, r)) == if InRange(n) && InRange(r) then Some((n, r)) else None
  {
    NoDash(n);
    ParseDesignSplit(Itoa(n), Itoa(r));
    PositiveDecimal(n);
    PositiveDecimal(r);
  }

  /** A readable requirements name is the one printed for its version unless its number is zero-padded. */
  lemma PrintRequirementsParsed(name: string)
    requires ParseRequirements(name).Some?
    ensures RequirementsTag(ParseRequirements(name).value) == name <==> name[1] != '0'
  {
    var digits := name[1..];
    var n := ParseRequirements(name).value;
    assert name == "v" + digits && digits[0] == name[1];
    assert RequirementsTag(n)[1..] == Decimal(n);
    if name[1] != '0' {
      CanonicalDecimal(digits);
    } else {
      FirstDigit(n);
    }
  }

  /** No name is read as both kinds. */
  lemma OneKind(name: string)
    ensures ParseRequirements(name).None? || ParseDesign(name).None?
  {
    if name != "" && name[0] == 'v' {
      var rest := name[1..];
      IndexOfFound(rest, '-');
      if ParseDesign(name).Some? { assert !IsDigit(rest[IndexOf(rest, '-')]); }
    }
  }

  /** How the names read. */
  lemma {:induction false} TagsSpelled(n: nat, r: nat)
    ensures RequirementsTag(n) == "v" + Decimal(n) && DesignTag(n, r) == "v" + Decimal(n) + "-" + Decimal(r)
    ensures RequirementsTag(7) == "v7" && DesignTag(7, 3) == "v7-3"
  {
  }

  /** A requirements name is a `v` and a decimal from 1 to the largest 64-bit number, perhaps zero-padded. */
  lemma RequirementsReadIff(name: string, n: int)
    ensures ParseRequirements(name) == Some(n) <==>
      exists digits :: name == "v" + digits && digits != "" && AllDigits(digits)
                       && Value(digits) == n && 1 <= n <= 9_223_372_036_854_775_807
  {
    if ParseRequirements(name) == Some(n) { assert name == "v" + name[1..]; }
    if digits :| name == "v" + digits && digits != "" && AllDigits(digits) && Value(digits) == n
                 && 1 <= n <= 9_223_372_036_854_775_807 {
      assert name[1..] == digits;
    }
  }

  /** A design name is two such numbers with a dash between them. */
  lemma {:induction false} DesignReadIff(name: string, n: int, r: int)
    ensures ParseDesign(name) == Some((n, r)) <==> exists a, b :: name == "v" + a + "-" + b && AreNumbers(a, b, n, r)
  {
    if ParseDesign(name) == Some((n, r)) {
      var a, b := DesignReadFrom(name, n, r);
    }
    if a, b :| name == "v" + a + "-" + b && AreNumbers(a, b, n, r) {
      assert ("v" + a)[1..] == a && ("v" + b)[1..] == b;
      ParseDesignSplit(a, b);
    }
  }

  lemma {:induction false} DesignReadFrom(name: string, n: int, r: int) returns (a: string, b: string)
    requires ParseDesign(name) == Some((n, r))
    ensures name == "v" + a + "-" + b && AreNumbers(a, b, n, r)
  {
    var rest := name[1..];
    var dash := IndexOf(rest, '-');
    IndexOfFound(rest, '-');
    a, b := rest[..dash], rest[dash + 1..];
    SplitAtDash(name, rest, dash);
    assert ("v" + a)[1..] == a && ("v" + b)[1..] == b;
  }

  lemma SplitAtDash(name: string, rest: string, dash: nat)
    requires name == "v" + rest && dash < |rest| && rest[dash] == '-'
    ensures name == "v" + rest[..dash] + "-" + rest[dash + 1..]
  {
    assert rest == rest[..dash] + "-" + rest[dash + 1..];
  }

  /** The texts read as these two version numbers. */
  predicate AreNumbers(a: string, b: string, n: int, r: int) {
    ParseRequirements("v" + a) == Some(n) && ParseRequirements("v" + b) == Some(r)
  }

  /** Adding one wraps around at the largest 64-bit number only. */
  lemma IncrementWraps(n: int)
    ensures Increment(9_223_372_036_854_775_807) == -9_223_372_036_854_775_808
    ensures n != 9_223_372_036_854_775_807 ==> Increment(n) == n + 1
  {
  }

  // ---- Scans -------------------------------------------------------------------

  ghost predicate HasVersion(tags: seq<TagInfo>, n: int) {
    exists i :: 0 <= i < |tags| && ParseRequirements(tags[i].name) == Some(n)
  }

  ghost predicate HasDesign(tags: seq<TagInfo>, n: int, r: int) {
    exists i :: 0 <= i < |tags| && ParseDesign(tags[i].name) == Some((n, r))
  }

  /** Zero without any match, otherwise the greatest match. */
  ghost predicate IsLatestVersion(tags: seq<TagInfo>, max: int) {
    (max == 0 || HasVersion(tags, max)) && max >= 0 && forall n :: HasVersion(tags, n) ==> n <= max
  }

  ghost predicate IsLatestRevision(tags: seq<TagInfo>, parent: int, max: int) {
    (max == 0 || HasDesign(tags, parent, max)) && max >= 0 && forall r :: HasDesign(tags, parent, r) ==> r <= max
  }

  predicate Later(a: (int, int), b: (int, int)) {
    a.0 > b.0 || (a.0 == b.0 && a.1 > b.1)
  }

  ghost predicate IsLatestDesign(tags: seq<TagInfo>, best: (int, int)) {
    (best == (0, 0) || HasDesign(tags, best.0, best.1)) &&
      (forall n, r :: HasDesign(tags, n, r) ==> !Later((n, r), best))
    && (best.0 == 0 ==> best == (0, 0)) && best.0 >= 0
  }

  lemma VersionsGrow(tags: seq<TagInfo>, k: nat, n: int)
    requires k < |tags|
    ensures HasVersion(tags[..k + 1], n) <==> HasVersion(tags[..k], n) || ParseRequirements(tags[k].name) == Some(n)
  {
    assert tags[..k + 1] == tags[..k] + [tags[k]];
    if HasVersion(tags[..k], n) {
      var i :| 0 <= i < k && ParseRequirements(tags[..k][i].name) == Some(n);
      assert tags[..k + 1][i] == tags[..k][i];
    }
    if ParseRequirements(tags[k].name) == Some(n) { assert tags[..k + 1][k] == tags[k]; }
    if HasVersion(tags[..k + 1], n) {
      var i :| 0 <= i < k + 1 && ParseRequirements(tags[..k + 1][i].name) == Some(n);
      if i < k { assert tags[..k][i] == tags[..k + 1][i]; }
    }
  }

  lemma DesignsGrow(tags: seq<TagInfo>, k: nat, n: int, r: int)
    requires k < |tags|
    ensures HasDesign(tags[..k + 1], n, r) <==> HasDesign(tags[..k], n, r) || ParseDesign(tags[k].name) == Some((n, r))
  {
    assert tags[..k + 1] == tags[..k] + [tags[k]];
    if HasDesign(tags[..k], n, r) {
      var i :| 0 <= i < k && ParseDesign(tags[..k][i].name) == Some((n, r));
      assert tags[..k + 1][i] == tags[..k][i];
    }
    if ParseDesign(tags[k].name) == Some((n, r)) { assert tags[..k + 1][k] == tags[k]; }
    if HasDesign(tags[..k + 1], n, r) {
      var i :| 0 <= i < k + 1 && ParseDesign(tags[..k + 1][i].name) == Some((n, r));
      if i < k { assert tags[..k][i] == tags[..k + 1][i]; }
    }
  }

  /** `latestRequirementsVersion`. */
  method LatestRequirementsVersion(tags: seq<TagInfo>) returns (max: int)
    ensures IsLatestVersion(tags, max)
  {
    max := 0;
    for k := 0 to |tags|
      invariant IsLatestVersion(tags[..k], max)
    {
      forall n { VersionsGrow(tags, k, n); }
      var n := ParseRequirements(tags[k].name);
      if n.Some? && n.value > max { max := n.value; }
    }
    assert tags[..|tags|] == tags;
  }

  /** `latestDesignRevision`. */
  method LatestDesignRevision(tags: seq<TagInfo>, parent: int) returns (max: int)
    ensures IsLatestRevision(tags, parent, max)
  {
    max := 0;
    for k := 0 to |tags|
      invariant IsLatestRevision(tags[..k], parent, max)
    {
      forall r { DesignsGrow(tags, k, parent, r); }
      var p := ParseDesign(tags[k].name);
      if p.None? || p.value.0 != parent { continue; }
      if p.value.1 > max { max := p.value.1; }
    }
    assert tags[..|tags|] == tags;
  }

  /** The scan of `latestDesignTag`. */
  method LatestDesign(tags: seq<TagInfo>) returns (best: (int, int))
    ensures IsLatestDesign(tags, best)
  {
    best := (0, 0);
    for k := 0 to |tags|
      invariant IsLatestDesign(tags[..k], best)
    {
      forall n, r { DesignsGrow(tags, k, n, r); }
      var p := ParseDesign(tags[k].name);
      if p.None? { continue; }
      if p.value.0 > best.0 || (p.value.0 == best.0 && p.value.1 > best.1) { best := p.value; }
    }
    assert tags[..|tags|] == tags;
  }

  /** `latestRequirementsTag`. */
  method LatestRequirementsTag(tags: seq<TagInfo>) returns (name: string)
    ensures exists max :: IsLatestVersion(tags, max) && name == if max == 0 then "" else RequirementsTag(max)
  {
    var max := LatestRequirementsVersion(tags);
    name := if max == 0 then "" else RequirementsTag(max);
  }

  /** `latestDesignTag`. */
  method LatestDesignTag(tags: seq<TagInfo>) returns (name: string)
    ensures exists best :: IsLatestDesign(tags, best) && name == if best.0 == 0 then "" else DesignTag(best.0, best.1)
  {
    var best := LatestDesign(tags);
    name := if best.0 == 0 then "" else DesignTag(best.0, best.1);
  }

  /** `nextRequirementsTag`. */
  method NextRequirementsTag(tags: seq<TagInfo>) returns (next: int, name: string)
    ensures exists max :: IsLatestVersion(tags, max) && next == Increment(max) && name == RequirementsTag(next)
  {
    var max := LatestRequirementsVersion(tags);
    next := Increment(max);
    name := RequirementsTag(next);
  }

  /** `nextDesignTag`. */
  method NextDesignTag(tags: seq<TagInfo>, parent: int) returns (next: int, name: string)
    ensures exists max ::
              IsLatestRevision(tags, parent, max) && next == Increment(max) && name == DesignTag(parent, next)
  {
    var max := LatestDesignRevision(tags, parent);
    next := Increment(max);
    name := DesignTag(parent, next);
  }

  predicate Named(tags: seq<TagInfo>, name: string) {
    exists i :: 0 <= i < |tags| && tags[i].name == name
  }

  /** Short of the largest int, the next name is not taken, however malformed, repeated or padded the tags are. */
  lemma NextVersionIsNew(tags: seq<TagInfo>, max: int)
    requires IsLatestVersion(tags, max)
    ensures max < MAX_INT ==> !Named(tags, RequirementsTag(Increment(max)))
    ensures max <= MAX_INT
  {
    if max < MAX_INT && Named(tags, RequirementsTag(max + 1)) {
      ParseRequirementsPrinted(max + 1);
      assert HasVersion(tags, max + 1);
    }
  }

  lemma NextRevisionIsNew(tags: seq<TagInfo>, parent: int, max: int)
    requires IsLatestRevision(tags, parent, max) && InRange(parent)
    ensures max < MAX_INT ==> !Named(tags, DesignTag(parent, Increment(max)))
    ensures max <= MAX_INT
  {
    if max < MAX_INT && Named(tags, DesignTag(parent, max + 1)) {
      ParseDesignPrinted(parent, max + 1);
      assert HasDesign(tags, parent, max + 1);
    }
  }

  // ---- Version lists -----------------------------------------------------------

  datatype VersionInfo = VersionInfo(tag: string, version: (int, int), commitHash: string, message: string)

  /** The version a tag carries in one of the lists; requirements carry revision 0. */
  type Reader = string -> Option<(int, int)>

  function ReadRequirements(name: string): Option<(int, int)> {
    match ParseRequirements(name) case Some(n) => Some((n, 0)) case None => None
  }

  function Info(t: TagInfo, version: (int, int)): VersionInfo {
    VersionInfo(t.name, version, t.commitHash, t.message)
  }

  lemma InfoFields(t: TagInfo, version: (int, int))
    ensures var i := Info(t, version);
            i.tag == t.name && i.version == version && i.commitHash == t.commitHash && i.message == t.message
    ensures ReadRequirements(t.name) ==
            match ParseRequirements(t.name) case Some(n) => Some((n, 0)) case None => None
  {
  }

  function Matching(read: Reader, tags: seq<TagInfo>): seq<VersionInfo> {
    if tags == [] then []
    else
      var rest, last := Matching(read, tags[..|tags| - 1]), tags[|tags| - 1];
      match read(last.name)
      case Some(v) => rest + [Info(last, v)]
      case None => rest
  }

  ghost predicate Descending(list: seq<VersionInfo>) {
    forall i, j :: 0 <= i < j < |list| ==> !Later(list[j].version, list[i].version)
  }

  ghost predicate IsVersionList(read: Reader, tags: seq<TagInfo>, list: seq<VersionInfo>) {
    Descending(list) && multiset(list) == multiset(Matching(read, tags))
  }

  method Collect(read: Reader, tags: seq<TagInfo>) returns (out: seq<VersionInfo>)
    ensures out == Matching(read, tags)
  {
    out := [];
    for k := 0 to |tags|
      invariant out == Matching(read, tags[..k])
    {
      assert tags[..k + 1][..k] == tags[..k];
      var v := read(tags[k].name);
      if v.None? { continue; }
      out := out + [Info(tags[k], v.value)];
    }
    assert tags[..|tags|] == tags;
  }

  /** `sort.Slice` with the descending order; which of two equal versions comes first is not specified. */
  method SortDescending(list: seq<VersionInfo>) returns (out: seq<VersionInfo>)
    ensures Descending(out) && multiset(out) == multiset(list)
  {
    out := [];
    for k := 0 to |list|
      invariant Descending(out) && multiset(out) == multiset(list[..k])
    {
      assert list[..k + 1] == list[..k] + [list[k]];
      var i := 0;
      while i < |out| && !Later(list[k].version, out[i].version)
        invariant i <= |out|
        invariant forall j :: 0 <= j < i ==> !Later(list[k].version, out[j].version)
      {
        i := i + 1;
      }
      InsertDescending(out, list[k], i);
      InsertElements(out, list[k], i);
      out := out[..i] + [list[k]] + out[i..];
    }
    assert list[..|list|] == list;
  }

  lemma InsertElements(out: seq<VersionInfo>, x: VersionInfo, i: nat)
    requires i <= |out|
    ensures multiset(out[..i] + [x] + out[i..]) == multiset(out) + multiset{x}
  {
    assert out == out[..i] + out[i..];
  }

  lemma InsertDescending(out: seq<VersionInfo>, x: VersionInfo, i: nat)
    requires Descending(out) && i <= |out|
    requires forall j :: 0 <= j < i ==> !Later(x.version, out[j].version)
    requires i < |out| ==> Later(x.version, out[i].version)
    ensures Descending(out[..i] + [x] + out[i..])
  {
    forall j | i <= j < |out|
      ensures !Later(out[j].version, x.version)
    {
      if i < j { assert !Later(out[j].version, out[i].version); }
    }
  }

  /** `tagsToRequirementsVersions`. */
  method RequirementsVersions(tags: seq<TagInfo>) returns (list: seq<VersionInfo>)
    ensures IsVersionList(ReadRequirements, tags, list)
  {
    var out := Collect(ReadRequirements, tags);
    list := SortDescending(out);
  }

  /** `tagsToDesignVersions`. */
  method DesignVersions(tags: seq<TagInfo>) returns (list: seq<VersionInfo>)
    ensures IsVersionList(ParseDesign, tags, list)
  {
    var out := Collect(ParseDesign, tags);
    list := SortDescending(out);
  }

  lemma {:induction false} MatchingHas(read: Reader, tags: seq<TagInfo>, v: (int, int))
    ensures (exists i :: 0 <= i < |tags| && read(tags[i].name) == Some(v)) <==>
            exists e :: e in Matching(read, tags) && e.version == v
  {
    if tags != [] {
      var n := |tags| - 1;
      var before, all := Matching(read, tags[..n]), Matching(read, tags);
      MatchingHas(read, tags[..n], v);
      if i :| 0 <= i < |tags| && read(tags[i].name) == Some(v) {
        if i < n {
          assert read(tags[..n][i].name) == Some(v);
          var e :| e in before && e.version == v;
          assert e in all;
        } else {
          assert all[|all| - 1] == Info(tags[n], v);
          assert Info(tags[n], v) in all;
        }
      }
      if e :| e in all && e.version == v {
        if e in before {
          var i :| 0 <= i < n && read(tags[..n][i].name) == Some(v);
          assert tags[i] == tags[..n][i];
        } else {
          assert read(tags[n].name) == Some(v);
        }
      }
    }
  }

  lemma ListHas(read: Reader, tags: seq<TagInfo>, list: seq<VersionInfo>, v: (int, int))
    requires IsVersionList(read, tags, list)
    ensures (exists i :: 0 <= i < |tags| && read(tags[i].name) == Some(v)) <==>
            exists i :: 0 <= i < |list| && list[i].version == v
  {
    MatchingHas(read, tags, v);
    if e :| e in Matching(read, tags) && e.version == v { assert e in multiset(list); }
    if i :| 0 <= i < |list| && list[i].version == v {
      assert list[i] in multiset(Matching(read, tags));
    }
  }

  /** The head of the version list carries the number the scan finds; the list is empty when the scan finds none. */
  lemma HeadIsLatestVersion(tags: seq<TagInfo>, list: seq<VersionInfo>, max: int)
    requires IsVersionList(ReadRequirements, tags, list) && IsLatestVersion(tags, max)
    ensures if max == 0 then list == [] else list != [] && list[0].version == (max, 0)
  {
    if list != [] {
      var v := list[0].version;
      ListHas(ReadRequirements, tags, list, v);
      var i :| 0 <= i < |tags| && ReadRequirements(tags[i].name) == Some(v);
      assert HasVersion(tags, v.0);
    }
    if max > 0 {
      var i :| 0 <= i < |tags| && ParseRequirements(tags[i].name) == Some(max);
      assert ReadRequirements(tags[i].name) == Some((max, 0));
      ListHas(ReadRequirements, tags, list, (max, 0));
    }
  }

  lemma HeadIsLatestDesign(tags: seq<TagInfo>, list: seq<VersionInfo>, best: (int, int))
    requires IsVersionList(ParseDesign, tags, list) && IsLatestDesign(tags, best)
    ensures if best.0 == 0 then list == [] else list != [] && list[0].version == best
  {
    if list != [] {
      var v := list[0].version;
      ListHas(ParseDesign, tags, list, v);
      assert HasDesign(tags, v.0, v.1);
    }
    if best.0 > 0 {
      var i :| 0 <= i < |tags| && ParseDesign(tags[i].name) == Some((best.0, best.1));
      assert ParseDesign(tags[i].name) == Some(best);
      ListHas(ParseDesign, tags, list, best);
    }
  }
}
