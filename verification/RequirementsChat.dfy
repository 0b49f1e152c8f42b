/**
  A chat turn over the requirements directory: it holds the directory lock while the agent
  works on the files it was given, and its snapshot undoes it.
*/
module RequirementsChat {
  import opened RequirementsDir
  import opened RequirementsLock
  import opened Strings
  import opened Wrappers
  import Design

  // ---- The lock and its holder -------------------------------------------------------

  /** What the writers and the one unlocked caller, which drops a session baseline, do. */
  datatype Event =
    | Lock(actor: nat)
    | Do(actor: nat, call: Call)
    | Unlock(actor: nat)
    | Aside(call: Call)

  datatype World = World(dir: Dir, holder: Option<nat>)

  predicate Allowed(w: World, e: Event) {
    match e
    case Lock(_) => w.holder.None?
    case Do(a, _) => w.holder == Some(a)
    case Unlock(a) => w.holder == Some(a)
    case Aside(call) => call.DropSnapshot?
  }

  function Step(hash: Hash, w: World, e: Event): World {
    match e
    case Lock(a) => w.(holder := Some(a))
    case Unlock(_) => w.(holder := None)
    case Do(_, call) => w.(dir := After(hash, w.dir, call))
    case Aside(call) => w.(dir := After(hash, w.dir, call))
  }

  function WorldOf(d: Dir, held: Held, key: int): World {
    World(d, Owner(held, key))
  }

  /** Acquiring a free key is the lock event, of the connection as the actor. */
  lemma AcquiredIsLock(hash: Hash, d: Dir, held: Held, key: int, conn: nat)
    requires key !in held
    ensures Allowed(WorldOf(d, held, key), Lock(conn))
    ensures Step(hash, WorldOf(d, held, key), Lock(conn)) == WorldOf(d, Acquired(held, key, conn), key)
  {
  }

  /** Giving back the last level of a hold is the unlock event. */
  lemma UnlockedIsUnlock(hash: Hash, d: Dir, held: Held, key: int, conn: nat)
    requires key in held && held[key] == Hold(conn, 0)
    ensures Allowed(WorldOf(d, held, key), Event.Unlock(conn))
    ensures Step(hash, WorldOf(d, held, key), Event.Unlock(conn)) == WorldOf(d, Unlocked(held, key, conn), key)
  {
  }

  // ---- Applying the agent's edits --------------------------------------------------

  /** Renders a canvas document of a kind; no result when the renderer fails. */
  type Renderer = (string, string) -> Option<string>

  function CanvasKind(name: string): Option<string> {
    var lower := Design.Lower(name);
    if !HasSuffix(lower, ".dsl") then None
    else if "wireframes" <= lower then Some("wireframes")
    else if "domain-model" <= lower then Some("domain-model")
    else None
  }

  /** Canvas documents end in `.dsl` and start with the name of their kind, whatever the letter case. */
  lemma CanvasKindIff(name: string, lower: string)
    requires lower == Design.Lower(name)
    ensures CanvasKind(name) == Some("wireframes") <==> ".dsl" == Tail(lower, 4) && "wireframes" <= lower
    ensures CanvasKind(name) == Some("domain-model") <==> ".dsl" == Tail(lower, 4) && "domain-model" <= lower
    ensures CanvasKind(name).Some? ==> CanvasKind(name).value in {"wireframes", "domain-model"}
  {
    assert "wireframes"[0] == 'w' && "domain-model"[0] == 'd';
  }

  /** The last n characters. */
  function Tail(s: string, n: nat): string {
    if n <= |s| then s[|s| - n..] else s
  }

  lemma SuffixIsTail(s: string, suffix: string)
    requires suffix != ""
    ensures HasSuffix(s, suffix) <==> Tail(s, |suffix|) == suffix
  {
  }

  lemma SiblingReads(stem: string, name: string)
    ensures Sibling(stem + ".dsl") == stem + ".excalidraw"
    ensures Tail(name, 4) != ".dsl" ==> Sibling(name) == name + ".excalidraw"
  {
    assert (stem + ".dsl")[..|stem|] == stem && (stem + ".dsl")[|stem|..] == ".dsl";
  }

  /** The rendered file beside a canvas document; only a lower-case extension is replaced. */
  function Sibling(name: string): string {
    (if HasSuffix(name, ".dsl") then name[..|name| - 4] else name) + ".excalidraw"
  }

  /** An empty Markdown edit of an existing file deletes it. */
  predicate IsDelete(files: Files, name: string, content: string) {
    HasSuffix(Design.Lower(name), ".md") && content == "" && ValidName(name) && name in files
  }

  /** What a turn may do to the directory; restoring and discarding are other calls. */
  predicate TurnCall(call: Call) {
    call.Put? || call.Delete? || call.Capture?
  }

  lemma ValidNameCanonical(name: string)
    requires ValidName(name)
    ensures CanonicalPath(name)
  {
    NoSplit(name, '/');
  }

  lemma {:induction false} NoSplit(s: string, c: char)
    requires c !in s
    ensures Split(s, c) == [s]
  {
    IndexOfFound(s, c);
  }

  /** `WriteRequirementFile`: the name is validated, then the file is put. */
  method WriteFile(svc: ArtifactService, hash: Hash, name: string, content: string)
    returns (ok: bool, ghost calls: seq<Call>)
    modifies svc
    ensures ok <==> ValidName(name) && |content| <= MAX_BYTES
    ensures svc.files == if ok then old(svc.files)[name := content] else old(svc.files)
    ensures svc.snapshots == old(svc.snapshots)
    ensures svc.State() == AfterAll(hash, old(svc.State()), calls)
    ensures forall c :: c in calls ==> c == Put(name, content, "")
  {
    if !ValidName(name) { return false, []; }
    ValidNameCanonical(name);
    var r := svc.PutFile(hash, name, content, "");
    calls := [Put(name, content, "")];
    assert calls[..0] == [];
    ok := r.Ok?;
  }

  /** `applyToolResult`: on failure the primary write of a canvas document may have happened. */
  method ApplyToolResult(svc: ArtifactService, hash: Hash, name: string, content: string, render: Renderer)
    returns (ok: bool, ghost calls: seq<Call>)
    modifies svc
    ensures svc.State() == AfterAll(hash, old(svc.State()), calls) && forall c :: c in calls ==> c.Put? || c.Delete?
    ensures svc.snapshots == old(svc.snapshots)
    ensures ok && Tail(Design.Lower(name), 3) == ".md" && content == "" && name in old(svc.files) ==>
      svc.files == old(svc.files) - {name}
    ensures ok && CanvasKind(name).None?
            && (Tail(Design.Lower(name), 3) != ".md" || content != "" || name !in old(svc.files)) ==>
      svc.files == old(svc.files)[name := content]
    ensures ok && IsDelete(old(svc.files), name, content) ==> svc.files == old(svc.files) - {name}
    ensures ok && !IsDelete(old(svc.files), name, content) && CanvasKind(name).None? ==>
      svc.files == old(svc.files)[name := content]
    ensures ok && !IsDelete(old(svc.files), name, content) && CanvasKind(name).Some? ==>
      render(CanvasKind(name).value, content).Some?
      && svc.files == old(svc.files)[name := content][Sibling(name) := render(CanvasKind(name).value, content).value]
    ensures !ok ==>
      svc.files == old(svc.files) || (CanvasKind(name).Some? && svc.files == old(svc.files)[name := content])
    ensures IsDelete(old(svc.files), name, content) ==> (ok <==> name != MAIN)
  {
    calls := [];
    SuffixIsTail(Design.Lower(name), ".md");
    if name == "" { return false, []; }
    if IsDelete(svc.files, name, content) {
      var error := svc.DeleteRequirementFile(name);
      calls := [Delete(name)];
      assert calls[..0] == [];
      MarkdownIsNoCanvas(name);
      return error.None?, calls;
    }
    ok, calls := WriteFile(svc, hash, name, content);
    if !ok { return; }
    var kind := CanvasKind(name);
    if kind.Some? {
      var rendered := render(kind.value, content);
      if rendered.None? { return false, calls; }
      ghost var middle, first := svc.State(), calls;
      ghost var more;
      ok, more := WriteFile(svc, hash, Sibling(name), rendered.value);
      calls := calls + more;
      AfterMore(hash, old(svc.State()), first, more);
    }
  }

  lemma LastOfSuffix(s: string, suffix: string)
    requires suffix != ""
    ensures HasSuffix(s, suffix) ==> s != "" && s[|s| - 1] == suffix[|suffix| - 1]
  {
    assert HasSuffix(s, suffix) ==> s[|s| - 1] == s[|s| - |suffix|..][|suffix| - 1];
  }

  lemma MarkdownIsNoCanvas(name: string)
    requires HasSuffix(Design.Lower(name), ".md")
    ensures CanvasKind(name).None?
  {
    LastOfSuffix(Design.Lower(name), ".md");
    LastOfSuffix(Design.Lower(name), ".dsl");
  }

  lemma {:induction false} AfterMore(hash: Hash, d: Dir, first: seq<Call>, more: seq<Call>)
    ensures AfterAll(hash, d, first + more) == AfterAll(hash, AfterAll(hash, d, first), more)
  {
    if more == [] {
      assert first + more == first;
    } else {
      var n := |more| - 1;
      assert (first + more)[..|first + more| - 1] == first + more[..n];
      AfterMore(hash, d, first, more[..n]);
    }
  }

  // ---- Reverting one file ------------------------------------------------------------

  /** The files with one of them back to its baseline; the main file cannot be deleted and is emptied instead. */
  function Reverted(files: Files, name: string, baseline: Option<string>): Files {
    if baseline.Some? then files[name := baseline.value]
    else if name == MAIN then files[name := ""]
    else files - {name}
  }

  /** The one call that does it. */
  function RevertCall(name: string, baseline: Option<string>): Call {
    if baseline.Some? then Put(name, baseline.value, "")
    else if name == MAIN then Put(name, "", "")
    else Delete(name)
  }

  lemma RevertedByCall(hash: Hash, d: Dir, name: string, baseline: Option<string>)
    requires ValidName(name) && (baseline.Some? ==> |baseline.value| <= MAX_BYTES)
    ensures After(hash, d, RevertCall(name, baseline)) == d.(files := Reverted(d.files, name, baseline))
  {
    ValidNameCanonical(name);
    if baseline.None? && name != MAIN && name !in d.files { assert d.files - {name} == d.files; }
  }

  /** The part of a revert that runs under the lock. */
  method WriteBaseline(svc: ArtifactService, hash: Hash, name: string, baseline: Option<string>) returns (ok: bool)
    requires ValidName(name)
    modifies svc
    ensures ok <==> baseline.None? || |baseline.value| <= MAX_BYTES
    ensures svc.files == if ok then Reverted(old(svc.files), name, baseline) else old(svc.files)
    ensures svc.snapshots == old(svc.snapshots)
  {
    ghost var calls;
    if baseline.None? {
      if name == MAIN {
        ok, calls := WriteFile(svc, hash, name, "");
        return;
      }
      var error := svc.DeleteRequirementFile(name);
      assert svc.State() == After(hash, old(svc.State()), Delete(name));
      assert error == Some(NotFound) ==> old(svc.files) == old(svc.files) - {name};
      return error.None? || error.value == NotFound;
    }
    ok, calls := WriteFile(svc, hash, name, baseline.value);
  }

  /** What a revert needs: the snapshot, a lock that no other connection holds, and a baseline that can be written. */
  predicate CanRevert(d: Dir, held: Held, key: int, conn: nat, id: string, name: string) {
    var file := SnapshotFile(d, id, name);
    file.Ok? && CanAcquire(held, key, conn) && (file.value.Some? ==> |file.value.value| <= MAX_BYTES)
  }

  /** The events of one call under a transaction's lock; a connection left holding the key takes it once more. */
  function TxEvents(held: Held, key: int, conn: nat, call: Call): seq<Event> {
    if key in held then [Do(conn, call)] else [Lock(conn)] + [Do(conn, call)] + [Event.Unlock(conn)]
  }

  /**
    `RevertFileToBaseline`: the baseline is read first, and written back under the lock of one
    transaction, which ends with it.
  */
  method RevertFile(
    svc: ArtifactService, locks: AdvisoryLocks, key: int, conn: nat, hash: Hash, id: string, name: string)
    returns (ok: bool, ghost events: seq<Event>)
    modifies svc, locks
    ensures ok <==> CanRevert(old(svc.State()), old(locks.held), key, conn, id, name)
    ensures svc.files ==
      if ok then Reverted(old(svc.files), name, old(SnapshotFile(svc.State(), id, name)).value) else old(svc.files)
    ensures svc.snapshots == old(svc.snapshots) && locks.held == old(locks.held)
    ensures ok ==>
      events == TxEvents(old(locks.held), key, conn, RevertCall(name, old(SnapshotFile(svc.State(), id, name)).value))
    ensures ok ==> AllowedRun(hash, WorldOf(old(svc.State()), old(locks.held), key), events)
    ensures ok ==>
      Run(hash, WorldOf(old(svc.State()), old(locks.held), key), events) == WorldOf(svc.State(), locks.held, key)
  {
    ghost var d, held := svc.State(), locks.held;
    events := [];
    var file := svc.ReadFileFromSnapshot(id, name);
    if file.Err? { return false, []; }
    var lock := AcquireSession(locks, key, conn);
    if lock == null { return false, []; }
    ok := WriteBaseline(svc, hash, name, file.value);
    lock.Release(locks, true);
    AcquireAndUnlock(held, key, conn);
    if ok {
      RevertedByCall(hash, d, name, file.value);
      TxRun(hash, d, held, key, conn, RevertCall(name, file.value));
      events := TxEvents(held, key, conn, RevertCall(name, file.value));
    }
  }

  lemma TxRun(hash: Hash, d: Dir, held: Held, key: int, conn: nat, call: Call)
    requires CanAcquire(held, key, conn)
    ensures AllowedRun(hash, WorldOf(d, held, key), TxEvents(held, key, conn, call))
    ensures Run(hash, WorldOf(d, held, key), TxEvents(held, key, conn, call))
      == WorldOf(After(hash, d, call), held, key)
  {
    var w, events := WorldOf(d, held, key), TxEvents(held, key, conn, call);
    if key in held {
      RunMore(hash, w, [], Do(conn, call));
      assert [] + [Do(conn, call)] == events;
    } else {
      RunMore(hash, w, [], Lock(conn));
      assert [] + [Lock(conn)] == [Lock(conn)];
      RunMore(hash, w, [Lock(conn)], Do(conn, call));
      RunMore(hash, w, [Lock(conn)] + [Do(conn, call)], Event.Unlock(conn));
    }
  }

  lemma {:induction false} RunMore(hash: Hash, w: World, events: seq<Event>, e: Event)
    requires AllowedRun(hash, w, events) && Allowed(Run(hash, w, events), e)
    ensures AllowedRun(hash, w, events + [e]) && Run(hash, w, events + [e]) == Step(hash, Run(hash, w, events), e)
  {
    var all := events + [e];
    assert all[..|events|] == events;
    forall i | 0 <= i < |all|
      ensures Allowed(Run(hash, w, all[..i]), all[i])
    {
      if i < |events| { assert all[..i] == events[..i]; }
    }
  }

  /**
    After a capture and any calls that spare it, a revert leaves the other files alone and gives the
    file back as it was captured, exactly unless it is the main file and was missing then.
  */
  lemma {:induction false} RevertGivesCaptured(hash: Hash, d: Dir, calls: seq<Call>, id: string, name: string)
    requires ValidId(id) && ValidName(name) && forall i :: 0 <= i < |calls| ==> Spares(calls[i], id)
    ensures var later := AfterAll(hash, After(hash, d, Capture(id)), calls);
            SnapshotFile(later, id, name).Ok?
            && var files := Reverted(later.files, name, SnapshotFile(later, id, name).value);
               (FileAt(files, name) == FileAt(d.files, name) <==> name != MAIN || name in d.files)
               && forall other :: other != name ==> FileAt(files, other) == FileAt(later.files, other)
  {
    ReadAfterCapture(hash, d, calls, id, name);
  }

  // ---- Writers under the lock --------------------------------------------------------

  function Run(hash: Hash, w: World, events: seq<Event>): World {
    if events == [] then w else Step(hash, Run(hash, w, events[..|events| - 1]), events[|events| - 1])
  }

  predicate AllowedRun(hash: Hash, w: World, events: seq<Event>) {
    forall i :: 0 <= i < |events| ==> Allowed(Run(hash, w, events[..i]), events[i])
  }

  /** Every call made in a run, in order. */
  function Calls(events: seq<Event>): seq<Call> {
    if events == [] then []
    else
      var before := Calls(events[..|events| - 1]);
      match events[|events| - 1]
      case Do(_, call) => before + [call]
      case Aside(call) => before + [call]
      case _ => before
  }

  /** The calls of one actor. */
  function CallsBy(events: seq<Event>, a: nat): seq<Call> {
    if events == [] then []
    else
      var before := CallsBy(events[..|events| - 1], a);
      match events[|events| - 1]
      case Do(b, call) => if b == a then before + [call] else before
      case _ => before
  }

  lemma {:induction false} RunIsCalls(hash: Hash, w: World, events: seq<Event>)
    ensures Run(hash, w, events).dir == AfterAll(hash, w.dir, Calls(events))
  {
    if events != [] {
      RunIsCalls(hash, w, events[..|events| - 1]);
      var before, all := Calls(events[..|events| - 1]), Calls(events);
      if all != before { assert all[..|all| - 1] == before; }
    }
  }

  lemma AllowedPrefix(hash: Hash, w: World, events: seq<Event>, n: nat)
    requires AllowedRun(hash, w, events) && n <= |events|
    ensures AllowedRun(hash, w, events[..n])
  {
    forall i | 0 <= i < n
      ensures Allowed(Run(hash, w, events[..n][..i]), events[..n][i])
    {
      assert events[..n][..i] == events[..i];
    }
  }

  /**
    While a holds the lock, no one else's call runs, and the files are those it started from
    with its own edits applied: what the agent was given has not drifted.
  */
  lemma {:induction false} NoDrift(hash: Hash, w: World, events: seq<Event>, a: nat)
    requires w.holder == Some(a) && AllowedRun(hash, w, events)
    requires forall i :: 0 <= i < |events| ==> events[i] != Event.Unlock(a)
    requires forall i :: 0 <= i < |events| ==> events[i].Do? && events[i].actor == a ==> TurnCall(events[i].call)
    ensures Run(hash, w, events).holder == Some(a)
    ensures forall i :: 0 <= i < |events| ==> events[i].Do? ==> events[i].actor == a
    ensures Run(hash, w, events).dir.files == AfterAll(hash, w.dir, CallsBy(events, a)).files
  {
    if events != [] {
      var n := |events| - 1;
      var before, e := events[..n], events[n];
      AllowedPrefix(hash, w, events, n);
      NoDrift(hash, w, before, a);
      assert Allowed(Run(hash, w, before), e);
      var calls, all := CallsBy(before, a), CallsBy(events, a);
      if all != calls {
        assert all[..|all| - 1] == calls;
        SameFilesAfter(hash, Run(hash, w, before).dir, AfterAll(hash, w.dir, calls), e.call);
      }
    }
  }

  /** What a turn's call does to the files depends on the files alone. */
  lemma SameFilesAfter(hash: Hash, c: Dir, d: Dir, call: Call)
    requires TurnCall(call) && c.files == d.files
    ensures After(hash, c, call).files == After(hash, d, call).files
  {
  }

  /** A turn: from reading the files to capturing them, and on from there. */
  predicate IsTurn(a: nat, quiet: seq<Event>, turn: seq<Event>) {
    && (forall i :: 0 <= i < |quiet| ==> quiet[i] != Event.Unlock(a) && !(quiet[i].Do? && quiet[i].actor == a))
    && (forall i :: 0 <= i < |turn| ==>
      turn[i] != Event.Unlock(a) && (turn[i].Do? && turn[i].actor == a ==> TurnCall(turn[i].call)))
  }

  lemma {:induction false} NoCallsBy(events: seq<Event>, a: nat)
    requires forall i :: 0 <= i < |events| ==> !(events[i].Do? && events[i].actor == a)
    ensures CallsBy(events, a) == []
  {
    if events != [] { NoCallsBy(events[..|events| - 1], a); }
  }

  /** The snapshot a turn captures is the listing the agent was given, taken under the same lock. */
  lemma {:induction false} CapturesWhatTheAgentSaw(hash: Hash, w: World, quiet: seq<Event>, a: nat, id: string)
    requires w.holder == Some(a) && AllowedRun(hash, w, quiet) && IsTurn(a, quiet, []) && ValidId(id)
    ensures var captured := Step(hash, Run(hash, w, quiet), Do(a, Capture(id)));
            captured.dir.files == w.dir.files && captured.dir.snapshots[id] == Listing(w.dir.files)
            && captured.holder == Some(a)
  {
    NoDrift(hash, w, quiet, a);
    NoCallsBy(quiet, a);
  }

  /** During the turn the files are the agent's files with the turn's own edits, whatever the others try. */
  lemma {:induction false} TurnSeesOwnEdits(
    hash: Hash, w: World, quiet: seq<Event>, a: nat, id: string, turn: seq<Event>)
    requires w.holder == Some(a) && AllowedRun(hash, w, quiet) && IsTurn(a, quiet, turn) && ValidId(id)
    requires AllowedRun(hash, Step(hash, Run(hash, w, quiet), Do(a, Capture(id))), turn)
    ensures var captured := Step(hash, Run(hash, w, quiet), Do(a, Capture(id)));
            Run(hash, captured, turn).dir.files == AfterAll(hash, captured.dir, CallsBy(turn, a)).files
            && captured.dir.files == w.dir.files
            && forall i :: 0 <= i < |turn| ==> turn[i].Do? ==> turn[i].actor == a
  {
    CapturesWhatTheAgentSaw(hash, w, quiet, a, id);
    NoDrift(hash, Step(hash, Run(hash, w, quiet), Do(a, Capture(id))), turn, a);
  }

  /**
    Undoing the turn, at once or after anything that spares its snapshot, leaves the files
    the agent was given exactly when none of their names holds a backslash.
  */
  lemma {:induction false} UndoGivesBackWhatTheAgentSaw(
    hash: Hash, w: World, quiet: seq<Event>, a: nat, id: string, rest: seq<Event>)
    requires w.holder == Some(a) && AllowedRun(hash, w, quiet) && IsTurn(a, quiet, []) && ValidId(id)
    requires forall i :: 0 <= i < |Calls(rest)| ==> Spares(Calls(rest)[i], id)
    ensures var captured := Step(hash, Run(hash, w, quiet), Do(a, Capture(id)));
            var undone := After(hash, Run(hash, captured, rest).dir, Restore(id));
            Listing(undone.files) == Listing(w.dir.files) <==> ListsOnlyValid(w.dir.files)
  {
    CapturesWhatTheAgentSaw(hash, w, quiet, a, id);
    var before := Run(hash, w, quiet);
    RunIsCalls(hash, Step(hash, before, Do(a, Capture(id))), rest);
    UndoExactIff(hash, before.dir, Calls(rest), id);
  }
}
