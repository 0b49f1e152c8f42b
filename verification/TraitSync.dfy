/**
  Synchronising the api-configuration trait with the design: any number of threads
  write or remove components of the design and then reconcile the external objects
  under a mutex per component, reading the design only after taking it.

  Components are named as the cluster names them; one action is one atomic call.
*/
module TraitSync {
  import opened Wrappers
  import opened Strings

  // ---- Desired state ---------------------------------------------------------

  datatype Trait = Trait(instanceName: string, kind: string, name: string, endpointName: string)

  datatype EnvConfig = EnvConfig(corsEnabled: bool, jwtEnabled: bool, issuers: seq<string>, audience: seq<string>)

  type Configs = map<string, EnvConfig>

  function InstanceName(component: string): string {
    var name := TrimSpace(component);
    (if name == "" then "component" else name) + "-http"
  }

  /** `DesiredAPIConfigurationTraitWithIssuers`, first result: the trait list the component should carry. */
  function DesiredTraits(component: string, enabled: bool): seq<Trait> {
    if enabled then [Trait(InstanceName(component), "ClusterTrait", "api-configuration", "http")] else []
  }

  /** Second result: the value of the one instance key, None marking it for removal. */
  function DesiredConfig(enabled: bool, issuers: seq<string>): Option<EnvConfig> {
    if enabled then Some(EnvConfig(true, true, issuers, [])) else None
  }

  /** The merge into one binding: other instances' keys are kept. */
  function Merged(b: Configs, instance: string, config: Option<EnvConfig>): Configs {
    match config
    case Some(c) => b[instance := c]
    case None => b - {instance}
  }

  predicate BindingSettled(b: Configs, instance: string, config: Option<EnvConfig>) {
    match config
    case Some(c) => instance in b && b[instance] == c
    case None => instance !in b
  }

  lemma MergeSettles(b: Configs, instance: string, config: Option<EnvConfig>)
    ensures BindingSettled(Merged(b, instance, config), instance, config)
    ensures forall k :: k != instance ==> (k in Merged(b, instance, config) <==> k in b)
    ensures forall k :: k != instance && k in b ==> Merged(b, instance, config)[k] == b[k]
  {
  }

  // ---- The protocol ----------------------------------------------------------

  datatype Thread =
    | Idle
    | WillSync(c: string)                         // wrote the design, or was asked to sync; mutex not taken
    | Locked(c: string)                           // holds the mutex, has not read
    | HasRead(c: string, enabled: bool)
    | TraitsPatched(c: string, enabled: bool)
    | WillDelete(c: string)                       // removed the directory; mutex not taken
    | DeleteLocked(c: string)

  /**
    design: component to whether its API is protected. traits and bindings: the
    external objects. unsynced: components whose external objects changed, whose design
    changed without a sync, or whose last call failed, since a sync last completed that
    left them as the design has them.
  */
  datatype World = World(
    design: map<string, bool>,
    traits: map<string, seq<Trait>>,
    bindings: map<string, seq<Configs>>,
    threads: seq<Thread>,
    unsynced: set<string>)

  function Bindings(w: World, c: string): seq<Configs> {
    if c in w.bindings then w.bindings[c] else []
  }

  function Held(t: Thread): Option<string> {
    match t
    case Locked(c) => Some(c)
    case HasRead(c, _) => Some(c)
    case TraitsPatched(c, _) => Some(c)
    case DeleteLocked(c) => Some(c)
    case _ => None
  }

  predicate Free(w: World, c: string) {
    forall i :: 0 <= i < |w.threads| ==> Held(w.threads[i]) != Some(c)
  }

  datatype Action =
    | WriteDesign(i: nat, c: string, enabled: bool)
    | RequestSync(i: nat, c: string)
    | RemoveDirectory(i: nat, c: string)
    | Acquire(i: nat)
    | ReadDesign(i: nat, ok: bool)
    | PatchTraits(i: nat, ok: bool)
    | PatchConfigs(i: nat, patched: nat)          // how many bindings were updated before a failure, or all
    | DeleteObject(i: nat, ok: bool)
    | ComponentCreated(c: string, traits: seq<Trait>)
    | BindingCreated(c: string, configs: Configs)
    | ChangeDesign(c: string, asked: Option<bool>) // regeneration, a deleted file, a discard: no sync follows

  predicate Enabled(w: World, a: Action) {
    match a
    case ComponentCreated(c, _) => c !in w.traits
    case BindingCreated(_, _) => true
    case ChangeDesign(_, _) => true
    case _ => a.i < |w.threads| && EnabledFor(w, w.threads[a.i], a)
  }

  predicate EnabledFor(w: World, t: Thread, a: Action) {
    match a
    case WriteDesign(_, _, _) => t == Idle
    case RequestSync(_, _) => t == Idle
    case RemoveDirectory(_, _) => t == Idle
    case Acquire(_) => (t.WillSync? || t.WillDelete?) && Free(w, t.c)
    case ReadDesign(_, _) => t.Locked?
    case PatchTraits(_, _) => t.HasRead?
    case PatchConfigs(_, n) => t.TraitsPatched? && n <= |Bindings(w, t.c)|
    case DeleteObject(_, _) => t.DeleteLocked?
    case _ => false
  }

  /** Not the action of one of the threads. */
  predicate Outside(a: Action) {
    a.ComponentCreated? || a.BindingCreated? || a.ChangeDesign?
  }

  /** What can happen at any time, and what a thread can always do next. */
  lemma AlwaysEnabled(
    w: World, i: nat, c: string, asked: Option<bool>, enabled: bool, ok: bool, n: nat, configs: Configs)
    ensures Enabled(w, BindingCreated(c, configs)) && Enabled(w, ChangeDesign(c, asked))
    ensures c !in w.traits ==> Enabled(w, ComponentCreated(c, []))
    ensures i < |w.threads| && w.threads[i].Idle? ==>
              && Enabled(w, WriteDesign(i, c, enabled)) && Enabled(w, RequestSync(i, c))
              && Enabled(w, RemoveDirectory(i, c))
    ensures i < |w.threads| && w.threads[i].Locked? ==> Enabled(w, ReadDesign(i, ok))
    ensures i < |w.threads| && w.threads[i].HasRead? ==> Enabled(w, PatchTraits(i, ok))
    ensures i < |w.threads| && w.threads[i].TraitsPatched? && n <= |Bindings(w, w.threads[i].c)| ==>
              Enabled(w, PatchConfigs(i, n))
    ensures i < |w.threads| && w.threads[i].DeleteLocked? ==> Enabled(w, DeleteObject(i, ok))
    ensures i < |w.threads| && (w.threads[i].WillSync? || w.threads[i].WillDelete?) ==>
              (Enabled(w, Acquire(i)) <==>
              !exists j :: 0 <= j < |w.threads| && Held(w.threads[j]) == Some(w.threads[i].c))
  {
  }

  function Goto(w: World, i: nat, t: Thread): World
    requires i < |w.threads|
  {
    w.(threads := w.threads[i := t])
  }

  function PatchedBindings(bs: seq<Configs>, n: nat, instance: string, config: Option<EnvConfig>): seq<Configs>
    requires n <= |bs|
  {
    seq(|bs|, k requires 0 <= k < |bs| => if k < n then Merged(bs[k], instance, config) else bs[k])
  }

  /** What was read is what the design still says. */
  predicate Asks(w: World, c: string, enabled: bool) {
    c in w.design && w.design[c] == enabled
  }

  function Act(w: World, a: Action, issuers: seq<string>): World
    requires Enabled(w, a)
  {
    match a
    case WriteDesign(i, c, enabled) => Goto(w, i, WillSync(c)).(design := w.design[c := enabled])
    case RequestSync(i, c) => Goto(w, i, WillSync(c))
    case RemoveDirectory(i, c) => Goto(w, i, WillDelete(c)).(design := w.design - {c})
    case Acquire(i) =>
      var t := w.threads[i];
      Goto(w, i, if t.WillSync? then Locked(t.c) else DeleteLocked(t.c))
    case ReadDesign(i, ok) =>
      var c := w.threads[i].c;
      if !ok then Goto(w, i, Idle).(unsynced := w.unsynced + {c})
      else Goto(w, i, if c in w.design then HasRead(c, w.design[c]) else Idle)
    case PatchTraits(i, ok) =>
      var t := w.threads[i];
      if t.c !in w.traits then Goto(w, i, Idle)
      else if !ok then Goto(w, i, Idle).(unsynced := w.unsynced + {t.c})
      else Goto(w, i, TraitsPatched(t.c, t.enabled)).(traits := w.traits[t.c := DesiredTraits(t.c, t.enabled)])
    case PatchConfigs(i, n) =>
      var t := w.threads[i];
      var bs := Bindings(w, t.c);
      Goto(w, i, Idle).(
        bindings := w.bindings[t.c := PatchedBindings(bs, n, InstanceName(t.c), DesiredConfig(t.enabled, issuers))],
        unsynced :=
          if n < |bs| then w.unsynced + {t.c}
          else if Asks(w, t.c, t.enabled) then w.unsynced - {t.c}
          else w.unsynced)
    case DeleteObject(i, ok) =>
      var c := w.threads[i].c;
      if ok then Goto(w, i, Idle).(traits := w.traits - {c}, bindings := w.bindings - {c})
      else Goto(w, i, Idle).(unsynced := w.unsynced + {c})
    case ComponentCreated(c, traits) => w.(traits := w.traits[c := traits], unsynced := w.unsynced + {c})
    case BindingCreated(c, configs) =>
      w.(bindings := w.bindings[c := Bindings(w, c) + [configs]], unsynced := w.unsynced + {c})
    case ChangeDesign(c, asked) =>
      w.(design := if asked.Some? then w.design[c := asked.value] else w.design - {c}, unsynced := w.unsynced + {c})
  }

  // ---- Invariant -------------------------------------------------------------

  /** The external objects of c are what the current design asks for. */
  predicate Settled(w: World, c: string, issuers: seq<string>)
    requires c in w.design
  {
    && c in w.traits
    && w.traits[c] == DesiredTraits(c, w.design[c])
    && forall k :: 0 <= k < |Bindings(w, c)| ==>
         BindingSettled(Bindings(w, c)[k], InstanceName(c), DesiredConfig(w.design[c], issuers))
  }

  /** The name under which a component carries the trait. */
  function Instance(c: string): string {
    if TrimSpace(c) == "" then "component-http" else TrimSpace(c) + "-http"
  }

  /** The component carries the one trait, and every environment demands a token from the issuers. */
  predicate Protected(w: World, c: string, issuers: seq<string>) {
    && c in w.traits && |w.traits[c]| == 1
    && w.traits[c][0].instanceName == Instance(c) && w.traits[c][0].kind == "ClusterTrait"
    && w.traits[c][0].name == "api-configuration" && w.traits[c][0].endpointName == "http"
    && forall k :: 0 <= k < |Bindings(w, c)| ==>
         && Instance(c) in Bindings(w, c)[k]
         && var config := Bindings(w, c)[k][Instance(c)];
            config.corsEnabled && config.jwtEnabled && config.issuers == issuers && config.audience == []
  }

  /** It carries no trait, and no environment has a configuration for one. */
  predicate Open(w: World, c: string) {
    && c in w.traits && w.traits[c] == []
    && forall k :: 0 <= k < |Bindings(w, c)| ==> Instance(c) !in Bindings(w, c)[k]
  }

  lemma SettledMeans(w: World, c: string, issuers: seq<string>)
    requires c in w.design
    ensures Settled(w, c, issuers) <==> if w.design[c] then Protected(w, c, issuers) else Open(w, c)
  {
    InstanceNames(c);
  }

  lemma InstanceNames(c: string)
    ensures InstanceName(c) == Instance(c)
  {
    assert "component" + "-http" == "component-http";
  }

  predicate SyncPending(w: World, c: string) {
    exists i :: 0 <= i < |w.threads| && w.threads[i] == WillSync(c)
  }

  predicate DeletePending(w: World, c: string) {
    exists i :: 0 <= i < |w.threads| && w.threads[i] == WillDelete(c)
  }

  predicate Syncing(t: Thread, c: string) {
    t == WillSync(c) || t == Locked(c) || (t.HasRead? && t.c == c) || (t.TraitsPatched? && t.c == c)
  }

  predicate Deleting(t: Thread, c: string) {
    t == WillDelete(c) || t == DeleteLocked(c)
  }

  predicate Mutex(w: World) {
    forall i, j :: 0 <= i < j < |w.threads| && Held(w.threads[i]).Some? ==> Held(w.threads[i]) != Held(w.threads[j])
  }

  /** What a thread has read is current, the one that made it outdated is waiting for the mutex, or no sync followed. */
  predicate ReadCurrent(w: World, t: Thread) {
    && (t.HasRead? || t.TraitsPatched? ==>
          || t.c in w.unsynced
          || if t.c in w.design then w.design[t.c] == t.enabled || SyncPending(w, t.c) else DeletePending(w, t.c))
    && (t.TraitsPatched? ==> t.c in w.traits && w.traits[t.c] == DesiredTraits(t.c, t.enabled))
  }

  predicate SomeSyncing(w: World, c: string) {
    exists i :: 0 <= i < |w.threads| && Syncing(w.threads[i], c)
  }

  predicate SomeDeleting(w: World, c: string) {
    exists i :: 0 <= i < |w.threads| && Deleting(w.threads[i], c)
  }

  predicate Converging(w: World, c: string, issuers: seq<string>) {
    c in w.traits && c !in w.unsynced ==>
      if c in w.design then Settled(w, c, issuers) || SomeSyncing(w, c) else SomeDeleting(w, c)
  }

  ghost predicate Inv(w: World, issuers: seq<string>) {
    && Mutex(w)
    && (forall i :: 0 <= i < |w.threads| ==> ReadCurrent(w, w.threads[i]))
    && (forall c :: Converging(w, c, issuers))
  }

  /** Only taking a free mutex makes a thread hold one it did not hold before. */
  lemma HeldAfter(w: World, a: Action, issuers: seq<string>)
    requires Enabled(w, a) && !Outside(a)
    ensures Act(w, a, issuers).threads == w.threads[a.i := Act(w, a, issuers).threads[a.i]]
    ensures var h := Held(Act(w, a, issuers).threads[a.i]);
            h.None? || h == Held(w.threads[a.i]) || Free(w, h.value)
  {
  }

  lemma MutexMoved(threads: seq<Thread>, i: nat, t: Thread)
    requires i < |threads| &&
      (forall j, k :: 0 <= j < k < |threads| && Held(threads[j]).Some? ==> Held(threads[j]) != Held(threads[k]))
    requires Held(t).None? || Held(t) == Held(threads[i])
             || forall j :: 0 <= j < |threads| ==> Held(threads[j]) != Held(t)
    ensures var moved := threads[i := t];
            forall j, k :: 0 <= j < k < |moved| && Held(moved[j]).Some? ==> Held(moved[j]) != Held(moved[k])
  {
  }

  lemma MutexKept(w: World, a: Action, issuers: seq<string>)
    requires Mutex(w) && Enabled(w, a)
    ensures Mutex(Act(w, a, issuers))
  {
    if !Outside(a) {
      HeldAfter(w, a, issuers);
      MutexMoved(w.threads, a.i, Act(w, a, issuers).threads[a.i]);
    }
  }

  /** Another thread's pending write or removal is still pending after an action of thread i. */
  lemma PendingKept(w: World, w': World, i: nat, c: string)
    requires i < |w.threads| && |w'.threads| == |w.threads| && w'.threads == w.threads[i := w'.threads[i]]
    requires w.threads[i] != WillSync(c) && w.threads[i] != WillDelete(c)
    ensures SyncPending(w, c) ==> SyncPending(w', c)
    ensures DeletePending(w, c) ==> DeletePending(w', c)
  {
    if SyncPending(w, c) {
      var j :| 0 <= j < |w.threads| && w.threads[j] == WillSync(c);
      assert w'.threads[j] == WillSync(c);
    }
    if DeletePending(w, c) {
      var j :| 0 <= j < |w.threads| && w.threads[j] == WillDelete(c);
      assert w'.threads[j] == WillDelete(c);
    }
  }

  lemma ReadCurrentKept(w: World, a: Action, issuers: seq<string>, k: nat)
    requires Mutex(w) && Enabled(w, a) && k < |w.threads| && ReadCurrent(w, w.threads[k])
    ensures ReadCurrent(Act(w, a, issuers), Act(w, a, issuers).threads[k])
  {
    if Outside(a) {
      assert Act(w, a, issuers).threads == w.threads;
    } else if a.i == k {
      OwnReadCurrent(w, a, issuers);
    } else if Held(w.threads[k]).Some? {
      OtherReadCurrent(w, a, issuers, k, Held(w.threads[k]).value);
    }
  }

  lemma OwnReadCurrent(w: World, a: Action, issuers: seq<string>)
    requires Enabled(w, a) && !Outside(a) && ReadCurrent(w, w.threads[a.i])
    ensures ReadCurrent(Act(w, a, issuers), Act(w, a, issuers).threads[a.i])
  {
    if a.PatchTraits? {
      PendingKept(w, Act(w, a, issuers), a.i, w.threads[a.i].c);
    }
  }

  /** The object and the design of c change only at the hands of a thread at work on c. */
  lemma ElsewhereSame(w: World, a: Action, issuers: seq<string>, c: string)
    requires Enabled(w, a) && !Outside(a) && Held(w.threads[a.i]) != Some(c)
    ensures var w' := Act(w, a, issuers);
            && (c in w'.traits <==> c in w.traits) && (c in w.traits ==> w'.traits[c] == w.traits[c])
            && (((a.WriteDesign? || a.RemoveDirectory?) && a.c == c)
                || ((c in w'.design <==> c in w.design) && (c in w.design ==> w'.design[c] == w.design[c])))
            && (c in w.unsynced ==> c in w'.unsynced)
  {
  }

  lemma OtherReadCurrent(w: World, a: Action, issuers: seq<string>, k: nat, c: string)
    requires Mutex(w) && Enabled(w, a) && !Outside(a)
    requires k < |w.threads| && k != a.i && Held(w.threads[k]) == Some(c) && ReadCurrent(w, w.threads[k])
    ensures ReadCurrent(Act(w, a, issuers), Act(w, a, issuers).threads[k])
  {
    var w' := Act(w, a, issuers);
    assert Held(w.threads[a.i]) != Some(c);
    assert w'.threads[k] == w.threads[k];
    ElsewhereSame(w, a, issuers, c);
    if (a.WriteDesign? || a.RemoveDirectory?) && a.c == c {
      assert w'.threads[a.i] == WillSync(c) ==> SyncPending(w', c);
      assert w'.threads[a.i] == WillDelete(c) ==> DeletePending(w', c);
    } else if w.threads[a.i] != WillSync(c) && w.threads[a.i] != WillDelete(c) {
      PendingKept(w, w', a.i, c);
    }
  }

  /** Whoever is at work on c still is, unless it is thread i. */
  lemma WorkKept(w: World, w': World, i: nat, c: string)
    requires i < |w.threads| && |w'.threads| == |w.threads| && w'.threads == w.threads[i := w'.threads[i]]
    requires Syncing(w.threads[i], c) ==> Syncing(w'.threads[i], c)
    requires Deleting(w.threads[i], c) ==> Deleting(w'.threads[i], c)
    ensures SomeSyncing(w, c) ==> SomeSyncing(w', c)
    ensures SomeDeleting(w, c) ==> SomeDeleting(w', c)
  {
    if SomeSyncing(w, c) {
      var j :| 0 <= j < |w.threads| && Syncing(w.threads[j], c);
      assert Syncing(w'.threads[j], c);
    }
    if SomeDeleting(w, c) {
      var j :| 0 <= j < |w.threads| && Deleting(w.threads[j], c);
      assert Deleting(w'.threads[j], c);
    }
  }

  lemma PendingIsWork(w: World, c: string)
    ensures SyncPending(w, c) ==> SomeSyncing(w, c)
    ensures DeletePending(w, c) ==> SomeDeleting(w, c)
  {
  }

  /** An action of a thread at work on another component leaves c as it was. */
  lemma ElsewhereKept(w: World, a: Action, issuers: seq<string>, c: string)
    requires Enabled(w, a) && !Outside(a) && Held(w.threads[a.i]).Some?
    requires Held(w.threads[a.i]).value != c && Converging(w, c, issuers)
    ensures Converging(Act(w, a, issuers), c, issuers)
  {
    var w' := Act(w, a, issuers);
    WorkKept(w, w', a.i, c);
    assert Bindings(w', c) == Bindings(w, c);
  }

  /** The actions that do not end a critical section. */
  lemma ConvergingKeptBefore(w: World, a: Action, issuers: seq<string>, c: string)
    requires Inv(w, issuers) && Enabled(w, a)
    requires a.WriteDesign? || a.RequestSync? || a.RemoveDirectory? || a.Acquire? || Outside(a)
    ensures Converging(Act(w, a, issuers), c, issuers)
  {
    var w' := Act(w, a, issuers);
    assert Converging(w, c, issuers);
    if Outside(a) {
      assert w'.threads == w.threads;
      assert SomeSyncing(w, c) ==> SomeSyncing(w', c);
      assert SomeDeleting(w, c) ==> SomeDeleting(w', c);
      assert a.c != c ==> Bindings(w', c) == Bindings(w, c);
    } else {
      WorkKept(w, w', a.i, c);
      assert Bindings(w', c) == Bindings(w, c);
      assert Syncing(w'.threads[a.i], c) ==> SomeSyncing(w', c);
      assert Deleting(w'.threads[a.i], c) ==> SomeDeleting(w', c);
    }
  }

  lemma ConvergingKeptRead(w: World, a: Action, issuers: seq<string>, c: string)
    requires Inv(w, issuers) && Enabled(w, a) && a.ReadDesign?
    ensures Converging(Act(w, a, issuers), c, issuers)
  {
    var w' := Act(w, a, issuers);
    var t := w.threads[a.i];
    assert Converging(w, c, issuers);
    if t.c != c {
      ElsewhereKept(w, a, issuers, c);
    } else if !a.ok {
    } else if c in w.design {
      WorkKept(w, w', a.i, c);
    } else if SomeDeleting(w, c) {
      var j :| 0 <= j < |w.threads| && Deleting(w.threads[j], c);
      assert Deleting(w'.threads[j], c);
    }
  }

  lemma ConvergingKeptTraits(w: World, a: Action, issuers: seq<string>, c: string)
    requires Inv(w, issuers) && Enabled(w, a) && a.PatchTraits?
    ensures Converging(Act(w, a, issuers), c, issuers)
  {
    var w' := Act(w, a, issuers);
    assert Converging(w, c, issuers) && ReadCurrent(w, w.threads[a.i]);
    if w.threads[a.i].c != c {
      ElsewhereKept(w, a, issuers, c);
    } else {
      assert Syncing(w'.threads[a.i], c) ==> SomeSyncing(w', c);
      PendingKept(w, w', a.i, c);
      PendingIsWork(w', c);
    }
  }

  lemma ConvergingKeptConfigs(w: World, a: Action, issuers: seq<string>, c: string)
    requires Inv(w, issuers) && Enabled(w, a) && a.PatchConfigs?
    ensures Converging(Act(w, a, issuers), c, issuers)
  {
    var w' := Act(w, a, issuers);
    assert Converging(w, c, issuers) && ReadCurrent(w, w.threads[a.i]);
    if w.threads[a.i].c != c {
      ElsewhereKept(w, a, issuers, c);
    } else {
      PendingKept(w, w', a.i, c);
      PendingIsWork(w', c);
    }
  }

  lemma ConvergingKeptDelete(w: World, a: Action, issuers: seq<string>, c: string)
    requires Inv(w, issuers) && Enabled(w, a) && a.DeleteObject?
    ensures Converging(Act(w, a, issuers), c, issuers)
  {
    var w' := Act(w, a, issuers);
    assert Converging(w, c, issuers);
    if w.threads[a.i].c != c {
      ElsewhereKept(w, a, issuers, c);
    }
  }

  /** One action of any thread keeps the invariant. */
  lemma ActKeepsInv(w: World, a: Action, issuers: seq<string>)
    requires Inv(w, issuers) && Enabled(w, a)
    ensures Inv(Act(w, a, issuers), issuers)
  {
    var w' := Act(w, a, issuers);
    MutexKept(w, a, issuers);
    forall k | 0 <= k < |w'.threads|
      ensures ReadCurrent(w', w'.threads[k])
    {
      ReadCurrentKept(w, a, issuers, k);
    }
    forall c
      ensures Converging(w', c, issuers)
    {
      match a
      case ReadDesign(_, _) => ConvergingKeptRead(w, a, issuers, c);
      case PatchTraits(_, _) => ConvergingKeptTraits(w, a, issuers, c);
      case PatchConfigs(_, _) => ConvergingKeptConfigs(w, a, issuers, c);
      case DeleteObject(_, _) => ConvergingKeptDelete(w, a, issuers, c);
      case _ => ConvergingKeptBefore(w, a, issuers, c);
    }
  }

  // ---- Runs ------------------------------------------------------------------

  ghost predicate EnabledRun(w: World, actions: seq<Action>, issuers: seq<string>)
    decreases actions
  {
    actions == [] || (Enabled(w, actions[0]) && EnabledRun(Act(w, actions[0], issuers), actions[1..], issuers))
  }

  ghost function After(w: World, actions: seq<Action>, issuers: seq<string>): World
    requires EnabledRun(w, actions, issuers)
    decreases actions
  {
    if actions == [] then w else After(Act(w, actions[0], issuers), actions[1..], issuers)
  }

  lemma {:induction false} RunKeepsInv(w: World, actions: seq<Action>, issuers: seq<string>)
    requires Inv(w, issuers) && EnabledRun(w, actions, issuers)
    ensures Inv(After(w, actions, issuers), issuers)
    decreases actions
  {
    if actions != [] {
      ActKeepsInv(w, actions[0], issuers);
      RunKeepsInv(Act(w, actions[0], issuers), actions[1..], issuers);
    }
  }

  /** No thread is between its design write, or its request, and the end of its work on c. */
  predicate Quiet(w: World, c: string) {
    forall i :: 0 <= i < |w.threads| ==> !Syncing(w.threads[i], c) && !Deleting(w.threads[i], c)
  }

  function Start(threads: nat, design: map<string, bool>): World {
    World(design, map[], map[], seq(threads, _ => Idle), {})
  }

  /**
    Convergence: after any interleaving, a component nobody is at work on, and whose external
    objects and design were not changed without a sync since the last one that completed, is
    in the design and carries exactly what the design asks for.
  */
  lemma {:induction false} Convergence(
    threads: nat, design: map<string, bool>, actions: seq<Action>, issuers: seq<string>, c: string)
    requires EnabledRun(Start(threads, design), actions, issuers)
    ensures var w := After(Start(threads, design), actions, issuers);
            Quiet(w, c) && c in w.traits && c !in w.unsynced ==> c in w.design && Settled(w, c, issuers)
  {
    RunKeepsInv(Start(threads, design), actions, issuers);
    assert Converging(After(Start(threads, design), actions, issuers), c, issuers);
  }

  /**
    In the terms of the cluster: a protected component converges to the trait and its settings, an open
    one to none.
  */
  lemma {:induction false} ConvergesProtected(
    threads: nat, design: map<string, bool>, actions: seq<Action>, issuers: seq<string>, c: string)
    requires EnabledRun(Start(threads, design), actions, issuers)
    ensures var w := After(Start(threads, design), actions, issuers);
            Quiet(w, c) && c in w.traits && c !in w.unsynced ==>
              c in w.design && if w.design[c] then Protected(w, c, issuers) else Open(w, c)
  {
    var w := After(Start(threads, design), actions, issuers);
    Convergence(threads, design, actions, issuers, c);
    if c in w.design { SettledMeans(w, c, issuers); }
  }

  /** A deleted object stays gone: no sync brings it back, only a new creation does. */
  lemma {:induction false} DeletedStaysGone(w: World, actions: seq<Action>, issuers: seq<string>, c: string)
    requires EnabledRun(w, actions, issuers) && c !in w.traits
    requires forall k :: 0 <= k < |actions| ==> !(actions[k].ComponentCreated? && actions[k].c == c)
    ensures c !in After(w, actions, issuers).traits
    decreases actions
  {
    if actions != [] {
      assert forall k :: 0 <= k < |actions[1..]| ==> actions[1..][k] == actions[k + 1];
      DeletedStaysGone(Act(w, actions[0], issuers), actions[1..], issuers, c);
    }
  }

  /**
    A design change that no sync follows leaves a settled component settled exactly when it
    asks for what the design asked before.
  */
  lemma UnsyncedChangeIff(w: World, c: string, enabled: bool, issuers: seq<string>)
    requires c in w.design && Settled(w, c, issuers) && Quiet(w, c)
    ensures var w' := Act(w, ChangeDesign(c, Some(enabled)), issuers);
            Quiet(w', c) && (Settled(w', c, issuers) <==> enabled == w.design[c])
  {
    var w' := Act(w, ChangeDesign(c, Some(enabled)), issuers);
    assert w'.threads == w.threads && Bindings(w', c) == Bindings(w, c);
    assert DesiredTraits(c, true) != DesiredTraits(c, false);
  }

  predicate NoneDeleting(w: World, c: string) {
    forall i :: 0 <= i < |w.threads| ==> !Deleting(w.threads[i], c)
  }

  lemma KeptByOne(w: World, a: Action, issuers: seq<string>, c: string)
    requires Enabled(w, a) && c in w.traits && NoneDeleting(w, c) && !(a.RemoveDirectory? && a.c == c)
    ensures c in Act(w, a, issuers).traits && NoneDeleting(Act(w, a, issuers), c)
  {
    if !Outside(a) { HeldAfter(w, a, issuers); }
  }

  /**
    Nothing but the removal of its directory takes a component's object away, even when the design lost
    the component.
  */
  lemma {:induction false} OnlyRemovalDeletes(w: World, actions: seq<Action>, issuers: seq<string>, c: string)
    requires EnabledRun(w, actions, issuers) && c in w.traits && NoneDeleting(w, c)
    requires forall k :: 0 <= k < |actions| ==> !(actions[k].RemoveDirectory? && actions[k].c == c)
    ensures c in After(w, actions, issuers).traits
    decreases actions
  {
    if actions != [] {
      KeptByOne(w, actions[0], issuers, c);
      assert forall k :: 0 <= k < |actions[1..]| ==> actions[1..][k] == actions[k + 1];
      OnlyRemovalDeletes(Act(w, actions[0], issuers), actions[1..], issuers, c);
    }
  }

  /** Patching with what the design says settles the component. */
  lemma {:induction false} PatchesSettle(w: World, i: nat, c: string, issuers: seq<string>)
    requires i < |w.threads| && c in w.design && c in w.traits && w.threads[i] == HasRead(c, w.design[c])
    ensures var patches := [PatchTraits(i, true), PatchConfigs(i, |Bindings(w, c)|)];
            && EnabledRun(w, patches, issuers)
            && After(w, patches, issuers).design == w.design
            && Settled(After(w, patches, issuers), c, issuers)
            && c !in After(w, patches, issuers).unsynced
  {
    var middle, last := Act(w, PatchTraits(i, true), issuers), PatchConfigs(i, |Bindings(w, c)|);
    assert Bindings(middle, c) == Bindings(w, c);
    ConsRun(middle, last, [], issuers);
    ConsRun(w, PatchTraits(i, true), [last], issuers);
  }

  /** The sweep of the watcher: one undisturbed sync of a component settles it, whatever happened before. */
  lemma {:induction false} SweepSettles(w: World, i: nat, c: string, issuers: seq<string>)
    requires i < |w.threads| && w.threads[i] == Idle && Free(w, c) && c in w.design && c in w.traits
    ensures var sweep :=
      [RequestSync(i, c), Acquire(i), ReadDesign(i, true), PatchTraits(i, true), PatchConfigs(i, |Bindings(w, c)|)];
            && EnabledRun(w, sweep, issuers)
            && After(w, sweep, issuers).design == w.design
            && Settled(After(w, sweep, issuers), c, issuers)
            && c !in After(w, sweep, issuers).unsynced
  {
    var patches := [PatchTraits(i, true), PatchConfigs(i, |Bindings(w, c)|)];
    var w1 := Goto(w, i, WillSync(c));
    assert forall k :: 0 <= k < |w1.threads| && k != i ==> w1.threads[k] == w.threads[k];
    var w2 := Goto(w1, i, Locked(c));
    var w3 := Goto(w2, i, HasRead(c, w.design[c]));
    PatchesSettle(w3, i, c, issuers);
    ConsRun(w2, ReadDesign(i, true), patches, issuers);
    ConsRun(w1, Acquire(i), [ReadDesign(i, true)] + patches, issuers);
    ConsRun(w, RequestSync(i, c), [Acquire(i)] + ([ReadDesign(i, true)] + patches), issuers);
    assert [RequestSync(i, c)] + ([Acquire(i)] + ([ReadDesign(i, true)] + patches))
        == [RequestSync(i, c), Acquire(i), ReadDesign(i, true), PatchTraits(i, true),
          PatchConfigs(i, |Bindings(w, c)|)];
  }

  /** So one undisturbed sync protects what the design protects, and opens what it leaves open. */
  lemma {:induction false} SweepProtects(w: World, i: nat, c: string, issuers: seq<string>)
    requires i < |w.threads| && w.threads[i] == Idle && Free(w, c) && c in w.design && c in w.traits
    ensures var sweep := [RequestSync(i, c), Acquire(i), ReadDesign(i, true), PatchTraits(i, true),
                          PatchConfigs(i, |Bindings(w, c)|)];
            && EnabledRun(w, sweep, issuers)
            && var after := After(w, sweep, issuers);
               if w.design[c] then Protected(after, c, issuers) else Open(after, c)
  {
    SweepSettles(w, i, c, issuers);
    var sweep :=
      [RequestSync(i, c), Acquire(i), ReadDesign(i, true), PatchTraits(i, true), PatchConfigs(i, |Bindings(w, c)|)];
    SettledMeans(After(w, sweep, issuers), c, issuers);
  }

  lemma {:induction false} ConsRun(w: World, a: Action, rest: seq<Action>, issuers: seq<string>)
    requires Enabled(w, a) && EnabledRun(Act(w, a, issuers), rest, issuers)
    ensures EnabledRun(w, [a] + rest, issuers)
    ensures After(w, [a] + rest, issuers) == After(Act(w, a, issuers), rest, issuers)
  {
    assert ([a] + rest)[1..] == rest;
  }

  // ---- The lock table --------------------------------------------------------

  function LockKey(org: string, project: string, component: string): string {
    org + "/" + (project + "/" + component)
  }

  lemma LockKeyReads(org: string, project: string, component: string)
    ensures LockKey(org, project, component) == org + "/" + project + "/" + component
  {
  }

  /** Two components share a mutex only if they are the same: organisation and project names hold no slash. */
  lemma LockKeyInjective(
    org: string, project: string, component: string, org': string, project': string, component': string)
    requires '/' !in org && '/' !in project && '/' !in org' && '/' !in project'
    requires LockKey(org, project, component) == LockKey(org', project', component')
    ensures org == org' && project == project' && component == component'
  {
    SplitOnce(org, org', '/', project + "/" + component, project' + "/" + component');
    SplitOnce(project, project', '/', component, component');
  }

  class ComponentMutex {
    constructor () {}
  }

  /** `lockFor`: one mutex per key, created on first use and never replaced. */
  class LockTable {
    var locks: map<string, ComponentMutex>

    ghost predicate Valid()
      reads this
    {
      forall j, k :: j in locks && k in locks && j != k ==> locks[j] != locks[k]
    }

    constructor ()
      ensures Valid() && locks == map[]
    {
      locks := map[];
    }

    method LockFor(org: string, project: string, component: string) returns (m: ComponentMutex)
      requires Valid()
      modifies this
      ensures Valid() && LockKey(org, project, component) in locks && locks[LockKey(org, project, component)] == m
      ensures forall k :: k in old(locks) ==> k in locks && locks[k] == old(locks)[k]
      ensures locks.Keys == old(locks).Keys + {LockKey(org, project, component)}
    {
      var key := LockKey(org, project, component);
      if key in locks {
        return locks[key];
      }
      m := new ComponentMutex();
      locks := locks[key := m];
    }
  }

  // ---- The service -------------------------------------------------------------

  /** The actions can be taken, and lead from one world to the other. */
  ghost predicate Ran(start: World, actions: seq<Action>, now: World, issuers: seq<string>) {
    EnabledRun(start, actions, issuers) && After(start, actions, issuers) == now
  }

  lemma RanOne(start: World, actions: seq<Action>, now: World, last: Action, next: World, issuers: seq<string>)
    requires Ran(start, actions, now, issuers) && Enabled(now, last) && Act(now, last, issuers) == next
    ensures Ran(start, actions + [last], next, issuers)
  {
    RunSnoc(start, actions, last, issuers);
  }

  lemma {:induction false} RunSnoc(w: World, actions: seq<Action>, last: Action, issuers: seq<string>)
    requires EnabledRun(w, actions, issuers) && Enabled(After(w, actions, issuers), last)
    ensures EnabledRun(w, actions + [last], issuers)
    ensures After(w, actions + [last], issuers) == Act(After(w, actions, issuers), last, issuers)
    decreases actions
  {
    var all := actions + [last];
    if actions == [] {
      assert all[1..] == [];
      assert EnabledRun(Act(w, last, issuers), [], issuers);
    } else {
      assert all[1..] == actions[1..] + [last];
      RunSnoc(Act(w, actions[0], issuers), actions[1..], last, issuers);
    }
  }

  datatype SyncError = Nil | ReadFailed | TraitsFailed | ConfigsFailed | DeleteFailed

  /** The design and the external objects under one service, with the outcomes of the external calls as parameters. */
  class TraitSyncService {
    var design: map<string, bool>
    var traits: map<string, seq<Trait>>
    var bindings: map<string, seq<Configs>>
    ghost var unsynced: set<string>

    constructor ()
      ensures design == map[] && traits == map[] && bindings == map[] && unsynced == {}
    {
      design, traits, bindings, unsynced := map[], map[], map[], {};
    }

    ghost function Current(t: Thread): World
      reads this
    {
      World(design, traits, bindings, [t], unsynced)
    }

    /** `SyncComponentTraits` run on its own takes the actions of the interleaved model. */
    method SyncComponentTraits(c: string, issuers: seq<string>, readOk: bool, traitsOk: bool, reach: nat)
      returns (err: SyncError, ghost actions: seq<Action>)
      modifies this
      ensures Ran(old(Current(WillSync(c))), actions, Current(Idle), issuers)
      ensures design == old(design)
      ensures err == Nil && c in design && c in traits ==> Settled(Current(Idle), c, issuers) && c !in unsynced
      ensures err == Nil && c in design && c in traits && design[c] ==> Protected(Current(Idle), c, issuers)
      ensures err == Nil && c in design && c in traits && !design[c] ==> Open(Current(Idle), c)
    {
      ghost var start := Current(WillSync(c));
      RanOne(start, [], start, Acquire(0), Current(Locked(c)), issuers);
      actions := [] + [Acquire(0)];
      if !readOk {
        RanOne(start, actions, Current(Locked(c)), ReadDesign(0, false),
          Act(Current(Locked(c)), ReadDesign(0, false), issuers), issuers);
        unsynced := unsynced + {c};
        return ReadFailed, actions + [ReadDesign(0, false)];
      }
      if c !in design {
        RanOne(start, actions, Current(Locked(c)), ReadDesign(0, true), Current(Idle), issuers);
        return Nil, actions + [ReadDesign(0, true)];
      }
      var enabled := design[c];
      RanOne(start, actions, Current(Locked(c)), ReadDesign(0, true), Current(HasRead(c, enabled)), issuers);
      actions := actions + [ReadDesign(0, true)];
      ghost var rest;
      err, rest := PatchComponent(c, enabled, issuers, traitsOk, reach, start, actions);
      actions := rest;
      SettledMeans(Current(Idle), c, issuers);
    }

    /** The trait call and the configuration calls that follow the read. */
    method PatchComponent(c: string, enabled: bool, issuers: seq<string>, traitsOk: bool, reach: nat,
                          ghost start: World, ghost before: seq<Action>)
      returns (err: SyncError, ghost actions: seq<Action>)
      requires c in design && design[c] == enabled && Ran(start, before, Current(HasRead(c, enabled)), issuers)
      modifies `traits, `bindings, `unsynced
      ensures Ran(start, actions, Current(Idle), issuers)
      ensures err == Nil ==> c in traits && Settled(Current(Idle), c, issuers) && c !in unsynced
    {
      ghost var was := Current(HasRead(c, enabled));
      actions := before + [PatchTraits(0, traitsOk)];
      RanOne(start, before, was, PatchTraits(0, traitsOk), Act(was, PatchTraits(0, traitsOk), issuers), issuers);
      if c !in traits {
        return TraitsFailed, actions;
      }
      if !traitsOk {
        unsynced := unsynced + {c};
        return TraitsFailed, actions;
      }
      traits := traits[c := DesiredTraits(c, enabled)];
      ghost var patched := Current(TraitsPatched(c, enabled));
      ghost var n;
      err, n := PatchAll(c, enabled, issuers, reach);
      RanOne(start, actions, patched, PatchConfigs(0, n), Current(Idle), issuers);
      actions := actions + [PatchConfigs(0, n)];
    }

    /** The configuration calls of one sync, up to the first that fails. */
    method PatchAll(c: string, enabled: bool, issuers: seq<string>, reach: nat) returns (err: SyncError, ghost n: nat)
      requires c in design && design[c] == enabled
      modifies `bindings, `unsynced
      ensures Enabled(old(Current(TraitsPatched(c, enabled))), PatchConfigs(0, n))
      ensures Current(Idle) == Act(old(Current(TraitsPatched(c, enabled))), PatchConfigs(0, n), issuers)
      ensures err == Nil ==> c !in unsynced && forall k :: 0 <= k < |Bindings(Current(Idle), c)| ==>
                BindingSettled(Bindings(Current(Idle), c)[k], InstanceName(c), DesiredConfig(enabled, issuers))
    {
      var before := if c in bindings then bindings[c] else [];
      var last := if reach < |before| then reach else |before|;
      n := last;
      var patched := PatchUpTo(before, last, InstanceName(c), DesiredConfig(enabled, issuers));
      bindings := bindings[c := patched];
      unsynced := if n == |before| then unsynced - {c} else unsynced + {c};
      err := if last == |before| then Nil else ConfigsFailed;
    }

    /** `DeleteComponentCascade` run on its own. */
    method DeleteComponentCascade(c: string, issuers: seq<string>, ok: bool)
      returns (err: SyncError, ghost actions: seq<Action>)
      modifies this
      ensures Ran(old(Current(WillDelete(c))), actions, Current(Idle), issuers)
      ensures design == old(design) && (err == Nil <==> ok)
      ensures err == Nil ==> c !in traits && c !in bindings
    {
      ghost var start, locked := Current(WillDelete(c)), Current(DeleteLocked(c));
      RanOne(start, [], start, Acquire(0), locked, issuers);
      actions := [] + [Acquire(0)];
      RanOne(start, actions, locked, DeleteObject(0, ok), Act(locked, DeleteObject(0, ok), issuers), issuers);
      actions := actions + [DeleteObject(0, ok)];
      if !ok {
        unsynced := unsynced + {c};
        return DeleteFailed, actions;
      }
      traits, bindings := traits - {c}, bindings - {c};
      err := Nil;
    }
  }

  /** Merges the configuration into the first n bindings, one call each. */
  method PatchUpTo(bs: seq<Configs>, n: nat, instance: string, config: Option<EnvConfig>) returns (out: seq<Configs>)
    requires n <= |bs|
    ensures out == PatchedBindings(bs, n, instance, config)
  {
    out := bs;
    for k := 0 to n
      invariant out == PatchedBindings(bs, k, instance, config)
    {
      out := out[k := Merged(out[k], instance, config)];
    }
  }
}
