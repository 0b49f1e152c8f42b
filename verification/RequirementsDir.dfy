/**
  The working tree of `specs/requirements/` and the snapshots that undo restores. Files are
  keyed by their path below that directory. Every call runs under the project's mutex.
*/
module RequirementsDir {
  import opened Strings
  import opened Wrappers
  import Design

  const MAIN := "requirements.md"
  const MAX_BYTES := 5 * 1024 * 1024

  datatype Error = PathInvalid | NotFound | IfMatchFailed

  type Files = map<string, string>

  datatype Dir = Dir(files: Files, snapshots: map<string, Files>)

  /** `git hash-object`. */
  type Hash = string -> string

  // ---- Names -------------------------------------------------------------------

  predicate HasSuffix(s: string, suffix: string) {
    |suffix| <= |s| && s[|s| - |suffix|..] == suffix
  }

  predicate HasAllowedExt(name: string) {
    var lower := Design.Lower(name);
    HasSuffix(lower, ".md") || HasSuffix(lower, ".excalidraw") || HasSuffix(lower, ".dsl")
  }

  /** `validateRequirementFilename`. */
  predicate ValidName(name: string) {
    name != "" && '/' !in name && '\\' !in name && name != "." && name != ".." && HasAllowedExt(name)
  }

  /** `validateRelPath`, for a path below the directory. */
  predicate CanonicalPath(path: string) {
    PlainSegments(Split(path, '/'))
  }

  predicate PlainSegments(parts: seq<string>) {
    forall i :: 0 <= i < |parts| ==> parts[i] !in {"", ".", ".."}
  }

  predicate IdChar(c: char) {
    'A' <= c <= 'Z' || 'a' <= c <= 'z' || '0' <= c <= '9' || c == '_' || c == '-'
  }

  /** `validateSnapshotID`. */
  predicate ValidId(id: string) {
    1 <= |id| <= 64 && forall i :: 0 <= i < |id| ==> IdChar(id[i])
  }

  /** `readMarkdownDir`: the top-level files with a known extension. */
  function Listing(files: Files): Files {
    map name | name in files && '/' !in name && HasAllowedExt(name) :: files[name]
  }

  /** The name ends in one of the three extensions, whatever the letter case. */
  ghost predicate EndsIn(name: string) {
    exists stem: string :: Design.Lower(name) == stem + ".md" || Design.Lower(name) == stem + ".excalidraw"
                           || Design.Lower(name) == stem + ".dsl"
  }

  lemma SuffixIff(s: string, suffix: string)
    ensures HasSuffix(s, suffix) <==> exists stem: string :: s == stem + suffix
  {
    if HasSuffix(s, suffix) { assert s == s[..|s| - |suffix|] + suffix; }
    if stem: string :| s == stem + suffix { assert (stem + suffix)[|stem|..] == suffix; }
  }

  lemma AllowedExtIff(name: string)
    ensures HasAllowedExt(name) <==> EndsIn(name)
  {
    var lower := Design.Lower(name);
    SuffixIff(lower, ".md");
    SuffixIff(lower, ".excalidraw");
    SuffixIff(lower, ".dsl");
  }

  /** A valid name is one that ends so and has no separator of either kind. */
  lemma ValidNameIff(name: string)
    ensures ValidName(name) <==> '/' !in name && '\\' !in name && EndsIn(name)
  {
    AllowedExtIff(name);
    if EndsIn(name) {
      assert HasAllowedExt(name);
      assert |Design.Lower(name)| == |name| >= 3;
    }
  }

  /** The characters of ids: letters, digits, dashes and underscores, and none of their neighbours. */
  lemma IdChars()
    ensures forall c :: c in {'A', 'M', 'Z', 'a', 'm', 'z', '0', '5', '9', '_', '-'} ==> IdChar(c)
    ensures forall c :: c in {'@', '[', '`', '{', '/', ':', '.', ' ', '\\'} ==> !IdChar(c)
  {
  }

  /** An id has 1 to 64 of them, and nothing else at any place. */
  lemma IdLimits(before: string, c: char, after: string, n: nat)
    ensures ValidId(before + [c] + after) ==> IdChar(c)
    ensures ValidId(seq(n, _ => 'a')) <==> 1 <= n <= 64
  {
    assert (before + [c] + after)[|before|] == c;
  }

  /** A path has no empty, `.` or `..` segment: it neither starts nor ends with a slash, and leads nowhere else. */
  lemma {:induction false} PathSegments(a: string, b: string)
    requires '/' !in a
    ensures CanonicalPath(a + ['/'] + b) <==> a != "" && a != "." && a != ".." && CanonicalPath(b)
    ensures CanonicalPath(a) <==> a != "" && a != "." && a != ".."
  {
    SplitFirst(a, '/', b);
    SegmentsMore(a, Split(b, '/'));
    IndexOfFound(a, '/');
    assert Split(a, '/') == [a] + [];
    SegmentsMore(a, []);
  }

  lemma SegmentsMore(a: string, rest: seq<string>)
    ensures PlainSegments([a] + rest) <==> a != "" && a != "." && a != ".." && PlainSegments(rest)
  {
    var all := [a] + rest;
    if PlainSegments(all) {
      assert all[0] == a;
      forall i | 0 <= i < |rest| ensures rest[i] !in {"", ".", ".."} { assert all[i + 1] == rest[i]; }
    }
  }

  // ---- Calls -------------------------------------------------------------------

  datatype Call =
    | Put(path: string, content: string, ifMatch: string)
    | Delete(name: string)
    | Capture(id: string)
    | Restore(id: string)
    | DropSnapshot(id: string)
    | Discard(tagged: Files)

  function Restorable(snapshot: Files): Files {
    map name | name in snapshot && ValidName(name) :: snapshot[name]
  }

  function PutError(hash: Hash, files: Files, path: string, content: string, ifMatch: string): Option<Error> {
    if !CanonicalPath(path) || |content| > MAX_BYTES then Some(PathInvalid)
    else if ifMatch != "" && (path !in files || hash(files[path]) != ifMatch) then Some(IfMatchFailed)
    else None
  }

  function DeleteError(files: Files, name: string): Option<Error> {
    if !ValidName(name) || name == MAIN then Some(PathInvalid)
    else if name !in files then Some(NotFound)
    else None
  }

  function RestoreError(d: Dir, id: string): Option<Error> {
    if !ValidId(id) then Some(PathInvalid) else if id !in d.snapshots then Some(NotFound) else None
  }

  /** The state after a call; a call that fails changes nothing. */
  function After(hash: Hash, d: Dir, call: Call): Dir {
    match call
    case Put(path, content, ifMatch) =>
      if PutError(hash, d.files, path, content, ifMatch).Some? then d else d.(files := d.files[path := content])
    case Delete(name) =>
      if DeleteError(d.files, name).Some? then d else d.(files := d.files - {name})
    case Capture(id) =>
      if !ValidId(id) then d else d.(snapshots := d.snapshots[id := Listing(d.files)])
    case Restore(id) =>
      if RestoreError(d, id).Some? then d else d.(files := Restorable(d.snapshots[id]))
    case DropSnapshot(id) =>
      if !ValidId(id) then d else d.(snapshots := d.snapshots - {id})
    case Discard(tagged) => d.(files := tagged)
  }

  function AfterAll(hash: Hash, d: Dir, calls: seq<Call>): Dir {
    if calls == [] then d else After(hash, AfterAll(hash, d, calls[..|calls| - 1]), calls[|calls| - 1])
  }

  /** What a snapshot says about a file; a missing snapshot is an error, a file it does not hold is not. */
  function SnapshotFile(d: Dir, id: string, name: string): Result<Option<string>, Error> {
    if !ValidId(id) || !ValidName(name) then Err(PathInvalid)
    else if id !in d.snapshots then Err(NotFound)
    else Ok(if name in d.snapshots[id] then Some(d.snapshots[id][name]) else None)
  }

  function FileAt(files: Files, name: string): Option<string> {
    if name in files then Some(files[name]) else None
  }

  function FilesAt(snapshots: map<string, Files>, id: string): Option<Files> {
    if id in snapshots then Some(snapshots[id]) else None
  }

  lemma ListingHas(files: Files)
    ensures forall name ::
      FileAt(Listing(files), name) == if '/' !in name && EndsIn(name) then FileAt(files, name) else None
  {
    forall name
      ensures FileAt(Listing(files), name) == if '/' !in name && EndsIn(name) then FileAt(files, name) else None
    {
      AllowedExtIff(name);
    }
  }

  lemma RestorableHas(snapshot: Files)
    ensures forall name ::
      FileAt(Restorable(snapshot), name) ==
      if '/' !in name && '\\' !in name && EndsIn(name) then FileAt(snapshot, name) else None
  {
    forall name
      ensures FileAt(Restorable(snapshot), name) ==
        if '/' !in name && '\\' !in name && EndsIn(name) then FileAt(snapshot, name) else None
    {
      ValidNameIff(name);
    }
  }

  /** The service; `After` says what each of its methods does to it. */
  class ArtifactService {
    var files: Files
    var snapshots: map<string, Files>

    function State(): Dir
      reads this
    {
      Dir(files, snapshots)
    }

    constructor ()
      ensures State() == Dir(map[], map[])
    {
      files, snapshots := map[], map[];
    }

    /** `PutFile`. */
    method PutFile(hash: Hash, path: string, content: string, ifMatch: string) returns (r: Result<string, Error>)
      modifies this`files
      ensures State() == After(hash, old(State()), Put(path, content, ifMatch))
      ensures r ==
        match PutError(hash, old(files), path, content, ifMatch) case Some(e) => Err(e) case None => Ok(hash(content))
      ensures !CanonicalPath(path) || |content| > 5_242_880 ==> r == Err(PathInvalid)
      ensures CanonicalPath(path) && |content| <= 5_242_880 ==>
        if ifMatch == "" || (path in old(files) && hash(old(files)[path]) == ifMatch)
        then r == Ok(hash(content)) && files == old(files)[path := content]
        else r == Err(IfMatchFailed)
      ensures r.Err? ==> files == old(files)
    {
      if !CanonicalPath(path) { return Err(PathInvalid); }
      if |content| > MAX_BYTES { return Err(PathInvalid); }
      if ifMatch != "" {
        if path !in files || hash(files[path]) != ifMatch { return Err(IfMatchFailed); }
      }
      files := files[path := content];
      r := Ok(hash(content));
    }

    /** `DeleteRequirementFile`. */
    method DeleteRequirementFile(name: string) returns (error: Option<Error>)
      modifies this`files
      ensures forall hash: Hash :: State() == After(hash, old(State()), Delete(name))
      ensures error == DeleteError(old(files), name)
      ensures error == None <==> ValidName(name) && name != "requirements.md" && name in old(files)
      ensures error == Some(NotFound) <==> ValidName(name) && name != "requirements.md" && name !in old(files)
      ensures files == if error == None then old(files) - {name} else old(files)
    {
      if !ValidName(name) { return Some(PathInvalid); }
      if name == MAIN { return Some(PathInvalid); }
      if name !in files { return Some(NotFound); }
      files := files - {name};
      error := None;
    }

    /** `CaptureRequirementsSnapshot`. */
    method CaptureSnapshot(id: string) returns (r: Result<Files, Error>)
      modifies this`snapshots
      ensures forall hash: Hash :: State() == After(hash, old(State()), Capture(id))
      ensures r == if ValidId(id) then Ok(Listing(files)) else Err(PathInvalid)
      ensures r.Ok? ==> id in snapshots && snapshots[id] == r.value
      ensures r.Ok? ==> forall name ::
        FileAt(r.value, name) == if '/' !in name && EndsIn(name) then FileAt(files, name) else None
      ensures forall k :: k in old(snapshots) && k != id ==> k in snapshots && snapshots[k] == old(snapshots)[k]
    {
      ListingHas(files);
      if !ValidId(id) { return Err(PathInvalid); }
      var listed := Listing(files);
      snapshots := snapshots[id := listed];
      r := Ok(listed);
    }

    /** `RestoreRequirementsSnapshot`: clears the directory and writes the snapshot's files one by one. */
    method RestoreSnapshot(id: string) returns (r: Result<Files, Error>)
      modifies this`files
      ensures forall hash: Hash :: State() == After(hash, old(State()), Restore(id))
      ensures r ==
        match RestoreError(old(State()), id) case Some(e) => Err(e) case None => Ok(Restorable(old(snapshots)[id]))
      ensures r.Ok? <==> ValidId(id) && id in snapshots
      ensures r.Ok? ==> forall name ::
        FileAt(files, name) ==
        if '/' !in name && '\\' !in name && EndsIn(name) then FileAt(snapshots[id], name) else None
      ensures r.Err? ==> files == old(files)
    {
      if !ValidId(id) { return Err(PathInvalid); }
      if id !in snapshots { return Err(NotFound); }
      var snapshot := snapshots[id];
      files := map[];
      var todo := snapshot.Keys;
      while todo != {}
        invariant todo <= snapshot.Keys
        invariant files == map name | name in snapshot && name !in todo && ValidName(name) :: snapshot[name]
        decreases todo
      {
        var name :| name in todo;
        todo := todo - {name};
        if !ValidName(name) { continue; }
        files := files[name := snapshot[name]];
      }
      assert files == Restorable(snapshot);
      ListingOfRestorable(snapshot);
      RestorableHas(snapshot);
      r := Ok(Listing(files));
    }

    /** `ReadFileFromRequirementsSnapshot`. */
    method ReadFileFromSnapshot(id: string, name: string) returns (r: Result<Option<string>, Error>)
      ensures r == SnapshotFile(State(), id, name)
      ensures r.Ok? <==> ValidId(id) && ValidName(name) && id in snapshots
      ensures r.Ok? ==> r.value == FileAt(snapshots[id], name)
      ensures r == Err(NotFound) <==> ValidId(id) && ValidName(name) && id !in snapshots
    {
      if !ValidId(id) || !ValidName(name) { return Err(PathInvalid); }
      if id !in snapshots { return Err(NotFound); }
      r := Ok(if name in snapshots[id] then Some(snapshots[id][name]) else None);
    }

    /** `DeleteRequirementsSnapshot`. */
    method DeleteSnapshot(id: string) returns (error: Option<Error>)
      modifies this`snapshots
      ensures forall hash: Hash :: State() == After(hash, old(State()), DropSnapshot(id))
      ensures error == if ValidId(id) then None else Some(PathInvalid)
      ensures error == None ==>
        id !in snapshots && forall k :: k != id ==> FilesAt(snapshots, k) == FilesAt(old(snapshots), k)
      ensures error != None ==> snapshots == old(snapshots)
    {
      if !ValidId(id) { return Some(PathInvalid); }
      snapshots := snapshots - {id};
      error := None;
    }
  }

  lemma ListingOfRestorable(snapshot: Files)
    ensures Listing(Restorable(snapshot)) == Restorable(snapshot)
  {
  }

  // ---- Puts under one reading -----------------------------------------------------

  /** Of two puts under the hash of one reading, whatever was written in between decides the second. */
  lemma SecondPutIff(hash: Hash, d: Dir, path: string, first: string, second: string)
    requires path in d.files && hash(d.files[path]) != ""
    requires CanonicalPath(path) && |first| <= 5_242_880 && |second| <= 5_242_880
    ensures var read := hash(d.files[path]);
            var once := After(hash, d, Put(path, first, read));
            var twice := After(hash, once, Put(path, second, read));
            && once.files == d.files[path := first]
            && twice.files == if hash(first) == read then d.files[path := second] else once.files
  {
    assert d.files[path := first][path := second] == d.files[path := second];
  }

  /** No update is lost: a put under the hash of a reading takes effect only over a file that still has this hash. */
  lemma {:induction false} PutOverReading(hash: Hash, d: Dir, calls: seq<Call>, path: string, content: string)
    requires path in d.files && hash(d.files[path]) != "" && CanonicalPath(path) && |content| <= 5_242_880
    ensures var read := hash(d.files[path]);
            var later := AfterAll(hash, d, calls);
            After(hash, later, Put(path, content, read)).files ==
              if path in later.files && hash(later.files[path]) == read then later.files[path := content]
                else later.files
  {
  }

  // ---- Undo --------------------------------------------------------------------

  /** Nothing but a capture under the same id, or dropping it, touches a snapshot. */
  predicate Spares(call: Call, id: string) {
    call != Capture(id) && call != DropSnapshot(id)
  }

  lemma {:induction false} SnapshotKept(hash: Hash, d: Dir, calls: seq<Call>, id: string)
    requires id in d.snapshots && forall i :: 0 <= i < |calls| ==> Spares(calls[i], id)
    ensures id in AfterAll(hash, d, calls).snapshots && AfterAll(hash, d, calls).snapshots[id] == d.snapshots[id]
  {
    if calls != [] { SnapshotKept(hash, d, calls[..|calls| - 1], id); }
  }

  /** Every listed name could also be written by a restore: listed names may hold a backslash, written ones may not. */
  predicate ListsOnlyValid(files: Files) {
    forall name :: name in Listing(files) ==> '\\' !in name
  }

  lemma ListedValidIff(name: string)
    requires '/' !in name && HasAllowedExt(name)
    ensures ValidName(name) <==> '\\' !in name
  {
    var lower := Design.Lower(name);
    assert |lower| == |name|;
    assert |name| >= 3;
  }

  lemma RestorableListingIff(files: Files)
    ensures Restorable(Listing(files)) == Listing(files) <==> ListsOnlyValid(files)
  {
    forall name | name in Listing(files)
      ensures name in Restorable(Listing(files)) <==> '\\' !in name
    {
      ListedValidIff(name);
    }
    if Restorable(Listing(files)) == Listing(files) {
      assert forall name :: name in Listing(files) ==> name in Restorable(Listing(files));
    }
  }

  /**
    After a capture and any calls that spare its snapshot, a restore leaves exactly the
    restorable part of the captured listing in the directory; this is the captured listing
    exactly when no listed name held a backslash.
  */
  lemma {:induction false} UndoExactIff(hash: Hash, d: Dir, calls: seq<Call>, id: string)
    requires ValidId(id) && forall i :: 0 <= i < |calls| ==> Spares(calls[i], id)
    ensures var later := AfterAll(hash, After(hash, d, Capture(id)), calls);
            && After(hash, later, Restore(id)).files == Restorable(Listing(d.files))
            && (Listing(After(hash, later, Restore(id)).files) == Listing(d.files) <==> ListsOnlyValid(d.files))
  {
    SnapshotKept(hash, After(hash, d, Capture(id)), calls, id);
    RestorableListingIff(d.files);
    ListingOfRestorable(Listing(d.files));
  }

  /** After a capture and any calls that spare it, reading a file from the snapshot gives what the file was then. */
  lemma {:induction false} ReadAfterCapture(hash: Hash, d: Dir, calls: seq<Call>, id: string, name: string)
    requires ValidId(id) && ValidName(name) && forall i :: 0 <= i < |calls| ==> Spares(calls[i], id)
    ensures SnapshotFile(AfterAll(hash, After(hash, d, Capture(id)), calls), id, name) == Ok(FileAt(d.files, name))
  {
    SnapshotKept(hash, After(hash, d, Capture(id)), calls, id);
  }

  /** What a restore leaves is all there is: files the listing does not show are gone, not restored. */
  lemma {:induction false} UnlistedFilesLost(hash: Hash, d: Dir, calls: seq<Call>, id: string, path: string)
    requires ValidId(id) && forall i :: 0 <= i < |calls| ==> Spares(calls[i], id)
    requires path !in Listing(d.files)
    ensures path !in After(hash, AfterAll(hash, After(hash, d, Capture(id)), calls), Restore(id)).files
  {
    UndoExactIff(hash, d, calls, id);
  }
}
