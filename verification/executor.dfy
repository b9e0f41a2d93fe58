/**
 * One tick of the executor (`ExecutorImpl.update`): for every system in the
 * manager's order, the `beforeSystem` hooks of its queries, its `run`, the
 * `afterSystem` hooks, and the application of the commands it issued; after
 * the last system, the run-once systems are cleared.
 *
 * A system's `run` is opaque: it is a parameter that, given the system and
 * the world it sees when it starts, yields the calls it makes on the
 * command buffer and on its resource queries, in order.
 */
module Executors {
  import opened Wrappers
  import opened Ids
  import opened Registries
  import opened ComponentStore
  import Resources
  import EntityQueries
  import Commands
  import Worlds
  import Systems

  /** A query attached to a system: an entity query or a resource query of the world, by position. */
  datatype QueryHandle = EntityQ(index: nat) | ResourceQ(index: Resources.QueryRef)

  /** The queries attached to each system class, in attachment order. */
  type QueryTable = map<ClassRef, seq<QueryHandle>>

  /** `SystemQueries.of(system)`: a class nothing was attached to has no queries. */
  function QueriesOf(t: QueryTable, s: ClassRef): (r: seq<QueryHandle>)
    ensures s !in t ==> r == []
    ensures s in t ==> r == t[s]
  {
    if s in t then t[s] else []
  }

  /** What a system's `run` does with the world's state, one call at a time. */
  datatype Action =
    | SpawnWith(components: seq<ComponentData>)
    | OpenEntity(id: EntityId)
    | AddTo(handle: Commands.Handle, components: seq<ComponentData>)
    | RemoveFrom(handle: Commands.Handle, classes: seq<ClassRef>)
    | DespawnAt(handle: Commands.Handle)
    | ReadResource(query: Resources.QueryRef)

  /** A system's `run`: the calls it makes, decided from the world it starts with. */
  type Body = (ClassRef, Worlds.World) -> seq<Action>

  /** The observable steps of a tick. */
  datatype Step = BeforeHooks(system: ClassRef) | Ran(system: ClassRef) | AfterHooks(system: ClassRef) | Applied(system: ClassRef)

  datatype TickError = IssueFailed(registryError: RegistryError) | ApplyFailed(worldError: Worlds.WorldError)

  /** A world whose handlers point at its queries and whose id provider is usable. */
  ghost predicate Ready(w: Worlds.World) {
    Worlds.HandlersInRange(w) && Ids.Valid(w.entityIds)
  }

  // ---------------------------------------------------------------------
  // Hooks

  /**
   * One query's `beforeSystem()` or `afterSystem()`. A handle can only name
   * a query of the world; the model leaves the world alone for one that
   * does not.
   */
  function Hook(w: Worlds.World, h: QueryHandle, before: bool): (r: Worlds.World)
    ensures r.store == w.store && r.entityIds == w.entityIds && |r.queries| == |w.queries|
    ensures |r.resources.queries| == |w.resources.queries|
  {
    match h
    case EntityQ(i) =>
      if i < |w.queries| then
        var q := w.queries[i];
        w.(queries := w.queries[i := if before then EntityQueries.BeforeSystem(q) else EntityQueries.AfterSystem(q)])
      else w
    case ResourceQ(i) =>
      if i < |w.resources.queries| then
        w.(resources := if before then Resources.BeforeSystem(w.resources, i) else Resources.AfterSystem(w.resources, i))
      else w
  }

  /** The hooks of a system's queries, in attachment order. */
  function Hooks(w: Worlds.World, hs: seq<QueryHandle>, before: bool): (r: Worlds.World)
    ensures r.store == w.store && r.entityIds == w.entityIds && |r.queries| == |w.queries|
    ensures |r.resources.queries| == |w.resources.queries|
    decreases |hs|
  {
    if |hs| == 0 then w else Hooks(Hook(w, hs[0], before), hs[1..], before)
  }

  /** After the `beforeSystem` hooks, none of the system's resource queries counts as accessed. */
  lemma {:induction false} BeforeHooksResetAccess(w: Worlds.World, hs: seq<QueryHandle>)
    ensures forall j :: 0 <= j < |hs| && hs[j].ResourceQ? && hs[j].index < |w.resources.queries| ==>
      hs[j].index < |Hooks(w, hs, true).resources.queries| && !Hooks(w, hs, true).resources.queries[hs[j].index].wasAccessed
    decreases |hs|
  {
    if |hs| > 0 {
      var w1 := Hook(w, hs[0], true);
      BeforeHooksResetAccess(w1, hs[1..]);
      if hs[0].ResourceQ? && hs[0].index < |w.resources.queries| {
        BeforeHooksKeepReset(w1, hs[1..], hs[0]);
      }
      forall j | 0 <= j < |hs| && hs[j].ResourceQ? && hs[j].index < |w.resources.queries|
        ensures !Hooks(w, hs, true).resources.queries[hs[j].index].wasAccessed
      {
        if j > 0 {
          assert hs[j] == hs[1..][j - 1];
        }
      }
    }
  }

  /** A query already reset stays reset through further `beforeSystem` hooks. */
  lemma {:induction false} BeforeHooksKeepReset(w: Worlds.World, hs: seq<QueryHandle>, h: QueryHandle)
    requires h.ResourceQ? && h.index < |w.resources.queries| && !w.resources.queries[h.index].wasAccessed
    ensures !Hooks(w, hs, true).resources.queries[h.index].wasAccessed
    decreases |hs|
  {
    if |hs| > 0 {
      BeforeHooksKeepReset(Hook(w, hs[0], true), hs[1..], h);
    }
  }

  /**
   * The resource queries as a system's `run` may leave them: the same
   * queries, filed the same way, with access flags only ever raised.
   */
  ghost predicate OnlyReads(a: Resources.ResourceState, b: Resources.ResourceState) {
    && b.instances == a.instances && b.subscribers == a.subscribers && |b.queries| == |a.queries|
    && forall k :: 0 <= k < |a.queries| ==>
      && b.queries[k] == a.queries[k].(wasAccessed := b.queries[k].wasAccessed)
      && (a.queries[k].wasAccessed ==> b.queries[k].wasAccessed)
  }

  /** The same resource queries, filed the same way; only their two per-run flags may differ. */
  ghost predicate SameQueries(a: Resources.ResourceState, b: Resources.ResourceState) {
    && b.instances == a.instances && b.subscribers == a.subscribers && |b.queries| == |a.queries|
    && forall k :: 0 <= k < |a.queries| ==>
      b.queries[k] == a.queries[k].(wasAccessed := b.queries[k].wasAccessed, isModified := b.queries[k].isModified)
  }

  /** What one hook does to the resource queries. */
  lemma HookFacts(w: Worlds.World, h: QueryHandle, before: bool)
    ensures var r := Hook(w, h, before).resources;
      && SameQueries(w.resources, r)
      && (!(h.ResourceQ? && h.index < |w.resources.queries|) ==> r == w.resources)
      && (before ==> forall k :: 0 <= k < |w.resources.queries| && h != ResourceQ(k) ==> r.queries[k] == w.resources.queries[k])
      && (!before ==> forall k :: 0 <= k < |w.resources.queries| ==> r.queries[k].wasAccessed == w.resources.queries[k].wasAccessed)
  {
  }

  /** An `afterSystem` hook never lowers another query's modified flag, and raises it for the readers of a writer that read. */
  lemma AfterHookFlags(w: Worlds.World, h: QueryHandle, j: Resources.QueryRef)
    requires j < |w.resources.queries| && h != ResourceQ(j)
    ensures var st := w.resources;
      var r := Hook(w, h, false).resources;
      && (st.queries[j].isModified ==> r.queries[j].isModified)
      && ((h.ResourceQ? && h.index < |st.queries| && st.queries[h.index].wasAccessed && st.queries[h.index].writable
            && Resources.Subscribed(st, st.queries[h.index].cls, j)) ==> r.queries[j].isModified)
      && (h.ResourceQ? && h.index < |st.queries| && !st.queries[h.index].wasAccessed ==> r.queries[j] == st.queries[j])
  {
  }

  /** The hooks of a system keep the resource queries and their filing; `beforeSystem` leaves the other queries alone. */
  lemma {:induction false} HooksKeepQueries(w: Worlds.World, hs: seq<QueryHandle>, before: bool)
    ensures var r := Hooks(w, hs, before).resources;
      && SameQueries(w.resources, r)
      && (before ==> forall k :: 0 <= k < |w.resources.queries| && ResourceQ(k) !in hs ==> r.queries[k] == w.resources.queries[k])
      && (!before ==> forall k :: 0 <= k < |w.resources.queries| ==> r.queries[k].wasAccessed == w.resources.queries[k].wasAccessed)
    decreases |hs|
  {
    if |hs| > 0 {
      HookFacts(w, hs[0], before);
      HooksKeepQueries(Hook(w, hs[0], before), hs[1..], before);
      assert forall k: Resources.QueryRef :: ResourceQ(k) !in hs ==> hs[0] != ResourceQ(k) && ResourceQ(k) !in hs[1..];
    }
  }

  /** A query flagged modified stays flagged through `afterSystem` hooks that are not its own. */
  lemma {:induction false} AfterHooksKeepFlag(w: Worlds.World, hs: seq<QueryHandle>, j: Resources.QueryRef)
    requires j < |w.resources.queries| && ResourceQ(j) !in hs
    requires w.resources.queries[j].isModified
    ensures Hooks(w, hs, false).resources.queries[j].isModified
    decreases |hs|
  {
    if |hs| > 0 {
      AfterHookFlags(w, hs[0], j);
      AfterHooksKeepFlag(Hook(w, hs[0], false), hs[1..], j);
    }
  }

  /**
   * A writable query of the system whose resource was read flags, in its
   * `afterSystem` hook, every other query filed under the same class.
   */
  lemma {:induction false} AfterHooksFlagReaders(w: Worlds.World, hs: seq<QueryHandle>, i: Resources.QueryRef, j: Resources.QueryRef)
    requires Resources.Valid(w.resources)
    requires ResourceQ(i) in hs && i < |w.resources.queries|
    requires w.resources.queries[i].wasAccessed && w.resources.queries[i].writable
    requires j < |w.resources.queries| && ResourceQ(j) !in hs
    requires w.resources.queries[j].cls == w.resources.queries[i].cls
    ensures Hooks(w, hs, false).resources.queries[j].isModified
    decreases |hs|
  {
    var w1 := Hook(w, hs[0], false);
    HookFacts(w, hs[0], false);
    AfterHookFlags(w, hs[0], j);
    if hs[0] == ResourceQ(i) {
      assert Resources.Subscribed(w.resources, w.resources.queries[j].cls, j);
      AfterHooksKeepFlag(w1, hs[1..], j);
    } else {
      Resources.SameFilingKeepsValid(w.resources, w1.resources);
      AfterHooksFlagReaders(w1, hs[1..], i, j);
    }
  }

  /**
   * When none of the system's resource queries was read, its `afterSystem`
   * hooks flag nobody: every query that is not the system's own is left
   * exactly as it was.
   */
  lemma {:induction false} AfterHooksQuiet(w: Worlds.World, hs: seq<QueryHandle>, j: Resources.QueryRef)
    requires forall m :: 0 <= m < |hs| && hs[m].ResourceQ? && hs[m].index < |w.resources.queries| ==> !w.resources.queries[hs[m].index].wasAccessed
    requires j < |w.resources.queries| && ResourceQ(j) !in hs
    ensures Hooks(w, hs, false).resources.queries[j] == w.resources.queries[j]
    decreases |hs|
  {
    if |hs| > 0 {
      var w1 := Hook(w, hs[0], false);
      HookFacts(w, hs[0], false);
      AfterHookFlags(w, hs[0], j);
      forall m | 0 <= m < |hs[1..]| && hs[1..][m].ResourceQ? && hs[1..][m].index < |w1.resources.queries|
        ensures !w1.resources.queries[hs[1..][m].index].wasAccessed
      {
        assert hs[1..][m] == hs[m + 1];
      }
      AfterHooksQuiet(w1, hs[1..], j);
    }
  }

  // ---------------------------------------------------------------------
  // Running a system body

  /** One call of a system's `run`, against the shared buffer and the world. */
  function Perform(w: Worlds.World, reg: ComponentRegistry, cmds: Commands.SystemCommands, a: Action): (r: Result<(Worlds.World, Commands.SystemCommands), RegistryError>)
    requires Ids.Valid(w.entityIds)
    ensures r.Success? ==> Ids.Valid(r.value.0.entityIds)
    ensures r.Success? ==> r.value.0.store == w.store && r.value.0.queries == w.queries
    ensures r.Success? ==> |r.value.0.resources.queries| == |w.resources.queries|
    ensures r.Success? && Commands.WellFiled(cmds) ==> Commands.WellFiled(r.value.1)
    ensures r.Failure? ==> a.RemoveFrom?
    ensures r.Success? ==> OnlyReads(w.resources, r.value.0.resources)
    ensures r.Success? && !a.ReadResource? ==> r.value.0.resources == w.resources
    ensures r.Success? && a.ReadResource? && a.query < |w.resources.queries| ==> r.value.0.resources.queries[a.query].wasAccessed
  {
    match a
    case SpawnWith(ds) =>
      var (c, ids, _) := Commands.Spawn(cmds, w.entityIds, ds);
      Success((w.(entityIds := ids), c))
    case OpenEntity(id) => Success((w, Commands.Entity(cmds, id).0))
    case AddTo(h, ds) =>
      if h < |cmds.entities| then Success((w, Commands.Add(cmds, h, ds))) else Success((w, cmds))
    case RemoveFrom(h, classes) =>
      if h < |cmds.entities| then
        var c :- Commands.Remove(cmds, reg, h, classes);
        Success((w, c))
      else Success((w, cmds))
    case DespawnAt(h) =>
      if h < |cmds.entities| then Success((w, Commands.Despawn(cmds, h))) else Success((w, cmds))
    case ReadResource(i) =>
      if i < |w.resources.queries| then Success((w.(resources := Resources.QueryGet(w.resources, i).1), cmds)) else Success((w, cmds))
  }

  /** The whole of a system's `run`: its calls in order; a throw ends the tick. */
  function PerformAll(w: Worlds.World, reg: ComponentRegistry, cmds: Commands.SystemCommands, acts: seq<Action>): (r: Result<(Worlds.World, Commands.SystemCommands), RegistryError>)
    requires Ids.Valid(w.entityIds)
    ensures r.Success? ==> Ids.Valid(r.value.0.entityIds)
    ensures r.Success? ==> r.value.0.store == w.store && r.value.0.queries == w.queries
    ensures r.Success? && Commands.WellFiled(cmds) ==> Commands.WellFiled(r.value.1)
    ensures r.Success? ==> OnlyReads(w.resources, r.value.0.resources)
    ensures r.Success? && (forall k :: 0 <= k < |acts| ==> !acts[k].ReadResource?) ==> r.value.0.resources == w.resources
    ensures r.Success? ==> forall i: Resources.QueryRef :: ReadResource(i) in acts && i < |w.resources.queries| ==> r.value.0.resources.queries[i].wasAccessed
    decreases |acts|
  {
    if |acts| == 0 then
      Success((w, cmds))
    else
      var (w1, c1) :- Perform(w, reg, cmds, acts[0]);
      assert forall a :: a in acts ==> a == acts[0] || a in acts[1..];
      assert forall k :: 1 <= k < |acts| ==> acts[k] == acts[1..][k - 1];
      PerformAll(w1, reg, c1, acts[1..])
  }

  /** The world a system's `run` sees: its queries' `beforeSystem` hooks done, so none of its resource queries counts as read. */
  function Prepare(w: Worlds.World, t: QueryTable, s: ClassRef): (r: Worlds.World)
    ensures r.store == w.store && r.entityIds == w.entityIds && |r.queries| == |w.queries|
    ensures var hs := QueriesOf(t, s);
      forall m :: 0 <= m < |hs| && hs[m].ResourceQ? && hs[m].index < |w.resources.queries| ==>
        hs[m].index < |r.resources.queries| && !r.resources.queries[hs[m].index].wasAccessed
  {
    BeforeHooksResetAccess(w, QueriesOf(t, s));
    Hooks(w, QueriesOf(t, s), true)
  }

  /**
   * One system's turn: hooks, run, hooks, apply. `asWritten` selects the
   * source's `applyPending`, which runs no command, instead of the one that
   * runs them.
   */
  function RunSystem(w: Worlds.World, reg: ComponentRegistry, cmds: Commands.SystemCommands, s: ClassRef, t: QueryTable, body: Body, asWritten: bool): (r: Result<(Worlds.World, Commands.SystemCommands), TickError>)
    requires Ready(w)
    ensures r.Success? ==> Ready(r.value.0) && |r.value.1.entities| == 0
    ensures r.Success? ==> |r.value.0.queries| == |w.queries|
    ensures r.Success? && asWritten ==> r.value.0.store == w.store
  {
    var w1 := Prepare(w, t, s);
    Worlds.SameHandlersInRange(w, w1);
    match PerformAll(w1, reg, cmds, body(s, w1))
    case Failure(e) => Failure(IssueFailed(e))
    case Success((w2, c2)) =>
      var w3 := Hooks(w2, QueriesOf(t, s), false);
      Worlds.SameHandlersInRange(w, w3);
      if asWritten then
        var (w4, c4) := Worlds.ApplyPendingAsWritten(w3, c2);
        Success((w4, c4))
      else
        match Worlds.ApplyPending(w3, reg, c2)
        case Failure(e) => Failure(ApplyFailed(e))
        case Success((w4, c4)) => Success((w4, c4))
  }

  /**
   * The hooks surround the run: when the system reads a writable resource
   * query during its `run`, by the end of its turn every other query on
   * that class, outside the system, is flagged modified.
   */
  lemma RunSystemFlagsReaders(w: Worlds.World, reg: ComponentRegistry, cmds: Commands.SystemCommands, s: ClassRef, t: QueryTable, body: Body, asWritten: bool, i: Resources.QueryRef, j: Resources.QueryRef)
    requires Ready(w) && Resources.Valid(w.resources)
    requires RunSystem(w, reg, cmds, s, t, body, asWritten).Success?
    requires ResourceQ(i) in QueriesOf(t, s) && i < |w.resources.queries| && w.resources.queries[i].writable
    requires ReadResource(i) in body(s, Prepare(w, t, s))
    requires j < |w.resources.queries| && ResourceQ(j) !in QueriesOf(t, s)
    requires w.resources.queries[j].cls == w.resources.queries[i].cls
    ensures j < |RunSystem(w, reg, cmds, s, t, body, asWritten).value.0.resources.queries|
    ensures RunSystem(w, reg, cmds, s, t, body, asWritten).value.0.resources.queries[j].isModified
  {
    var hs := QueriesOf(t, s);
    var w1 := Prepare(w, t, s);
    HooksKeepQueries(w, hs, true);
    Resources.SameFilingKeepsValid(w.resources, w1.resources);
    var (w2, c2) := PerformAll(w1, reg, cmds, body(s, w1)).value;
    Resources.SameFilingKeepsValid(w.resources, w2.resources);
    var w3 := Hooks(w2, hs, false);
    AfterHooksFlagReaders(w2, hs, i, j);
    HooksKeepQueries(w2, hs, false);
    Worlds.SameHandlersInRange(w, w3);
    if !asWritten {
      assert RunSystem(w, reg, cmds, s, t, body, asWritten).value.0 == Worlds.ExecuteAll(w3, reg, Commands.Flatten(c2.entities)).value;
    }
  }

  /** Hooks only ever change the rows of entity queries. */
  lemma {:induction false} HooksKeepShape(w: Worlds.World, hs: seq<QueryHandle>, before: bool)
    ensures forall j :: 0 <= j < |w.queries| ==>
      Hooks(w, hs, before).queries[j] == w.queries[j].(rows := Hooks(w, hs, before).queries[j].rows)
    decreases |hs|
  {
    if |hs| > 0 {
      HooksKeepShape(Hook(w, hs[0], before), hs[1..], before);
    }
  }

  /**
   * The `afterSystem` hooks come before the commands are applied: when a
   * system's `run` spawns an entity with one component whose addition
   * completes a reactive query, the query shows the entity at the end of
   * the turn. For the system's own reactive queries this depends on the
   * order, since their `afterSystem` hook empties their rows.
   */
  lemma RunSystemShowsOwnSpawn(w: Worlds.World, reg: ComponentRegistry, s: ClassRef, t: QueryTable, body: Body, d: ComponentData, j: nat)
    requires Worlds.WorldValid(w) && Ready(w)
    requires body(s, Prepare(w, t, s)) == [SpawnWith([d])]
    requires RunSystem(w, reg, Commands.NewCommands(), s, t, body, false).Success?
    requires d.cls in reg.classLookup
    requires var c := reg.classLookup[d.cls];
      && j < |w.queries| && w.queries[j].kind.Reactive? && j in Handlers(w.store, OnAdd, c)
      && (forall x :: x in w.queries[j].kind.watchOrder ==> x == c)
      && EntityQueries.MatchesMasks(w.queries[j], ComponentMask.Set(ComponentMask.Empty, c, true))
    ensures j < |RunSystem(w, reg, Commands.NewCommands(), s, t, body, false).value.0.queries|
    ensures w.entityIds.counter + 1 in RunSystem(w, reg, Commands.NewCommands(), s, t, body, false).value.0.queries[j].rows
  {
    var c := reg.classLookup[d.cls];
    var e: EntityId := w.entityIds.counter + 1;
    var hs := QueriesOf(t, s);
    var cmds0 := Commands.NewCommands();
    var w1 := Prepare(w, t, s);
    assert w1 == Hooks(w, hs, true);
    HooksKeepShape(w, hs, true);
    var (c2, ids, _) := Commands.Spawn(cmds0, w1.entityIds, [d]);
    var w2 := w1.(entityIds := ids);
    assert [SpawnWith([d])][1..] == [];
    assert PerformAll(w1, reg, cmds0, [SpawnWith([d])]) == Success((w2, c2));
    var w3 := Hooks(w2, hs, false);
    HooksKeepShape(w2, hs, false);
    Worlds.SameHandlersInRange(w, w3);
    var cmd := Commands.AddComponents(e, [d]);
    assert c2.entities == [Commands.EntityCommands(e, [cmd])];
    assert Commands.Flatten(c2.entities) == [cmd];
    var w4 := Worlds.AddComponent(w3, e, c, d).value;
    assert Worlds.AddAll(w3, reg, e, [d]) == Success(w4);
    assert Worlds.ExecuteAll(w3, reg, [cmd]) == Worlds.ExecuteAll(w4, reg, []);
    assert RunSystem(w, reg, cmds0, s, t, body, false).value.0 == w4;
    assert e !in w3.store.masks;
    var st := ComponentStore.Add(w3.store, e, c, d).0;
    assert st.masks[e] == ComponentMask.Set(ComponentMask.Empty, c, true);
    assert w3.queries[j] == w.queries[j].(rows := w3.queries[j].rows);
    Worlds.AddComponentShowsCompleted(w3, e, c, d, j);
  }

  /**
   * The `beforeSystem` hooks come first: a system that reads no resource
   * during its `run` flags nobody, and leaves every resource query outside
   * it exactly as it was, whatever the previous run read.
   */
  lemma RunSystemWithoutReadsFlagsNobody(w: Worlds.World, reg: ComponentRegistry, cmds: Commands.SystemCommands, s: ClassRef, t: QueryTable, body: Body, asWritten: bool, j: Resources.QueryRef)
    requires Ready(w)
    requires RunSystem(w, reg, cmds, s, t, body, asWritten).Success?
    requires forall k :: 0 <= k < |body(s, Prepare(w, t, s))| ==> !body(s, Prepare(w, t, s))[k].ReadResource?
    requires j < |w.resources.queries| && ResourceQ(j) !in QueriesOf(t, s)
    ensures j < |RunSystem(w, reg, cmds, s, t, body, asWritten).value.0.resources.queries|
    ensures RunSystem(w, reg, cmds, s, t, body, asWritten).value.0.resources.queries[j] == w.resources.queries[j]
  {
    var hs := QueriesOf(t, s);
    var w1 := Prepare(w, t, s);
    HooksKeepQueries(w, hs, true);
    var (w2, c2) := PerformAll(w1, reg, cmds, body(s, w1)).value;
    var w3 := Hooks(w2, hs, false);
    AfterHooksQuiet(w2, hs, j);
    HooksKeepQueries(w2, hs, false);
    Worlds.SameHandlersInRange(w, w3);
    if !asWritten {
      assert RunSystem(w, reg, cmds, s, t, body, asWritten).value.0 == Worlds.ExecuteAll(w3, reg, Commands.Flatten(c2.entities)).value;
    }
  }

  /** The steps one system's turn shows. */
  function Turn(s: ClassRef): seq<Step> {
    [BeforeHooks(s), Ran(s), AfterHooks(s), Applied(s)]
  }

  /** The systems in order, each with its turn; the first failure ends the tick. */
  function RunAll(w: Worlds.World, reg: ComponentRegistry, cmds: Commands.SystemCommands, systems: seq<ClassRef>, t: QueryTable, body: Body, asWritten: bool): (r: Result<(Worlds.World, seq<Step>), TickError>)
    requires Ready(w)
    ensures r.Success? ==> Ready(r.value.0) && |r.value.0.queries| == |w.queries|
    ensures r.Success? ==> |r.value.1| == 4 * |systems|
    ensures r.Success? && asWritten ==> r.value.0.store == w.store
    decreases |systems|
  {
    if |systems| == 0 then
      Success((w, []))
    else
      var (w1, c1) :- RunSystem(w, reg, cmds, systems[0], t, body, asWritten);
      var (w2, steps) :- RunAll(w1, reg, c1, systems[1..], t, body, asWritten);
      Success((w2, Turn(systems[0]) + steps))
  }

  /** `update()`: a fresh buffer, every system's turn, then the run-once systems are cleared. */
  function Update(w: Worlds.World, reg: ComponentRegistry, m: Systems.SystemsManager, meta: Systems.ConfigTable, t: QueryTable, body: Body, asWritten: bool): (r: Result<(Worlds.World, Systems.SystemsManager, seq<Step>), TickError>)
    requires Ready(w)
    ensures r.Success? ==> Ready(r.value.0) && |r.value.0.queries| == |w.queries|
    ensures r.Success? ==> r.value.1 == Systems.ClearRunOnce(m, meta)
    ensures r.Success? && asWritten ==> r.value.0.store == w.store
  {
    var (w1, steps) :- RunAll(w, reg, Commands.NewCommands(), m.ordered, t, body, asWritten);
    Success((w1, Systems.ClearRunOnce(m, meta), steps))
  }

  // ---------------------------------------------------------------------
  // Properties of a tick

  /** The systems whose `run` a trace shows, in order. */
  function RanSystems(steps: seq<Step>): (r: seq<ClassRef>)
    ensures |r| <= |steps|
  {
    if |steps| == 0 then []
    else if steps[0].Ran? then [steps[0].system] + RanSystems(steps[1..])
    else RanSystems(steps[1..])
  }

  /**
   * The order of hooks: steps `4k` to `4k + 3` are the `beforeSystem`
   * hooks, the run, the `afterSystem` hooks and the apply of the `k`-th
   * system.
   */
  ghost predicate InHookOrder(steps: seq<Step>, systems: seq<ClassRef>) {
    && |steps| == 4 * |systems|
    && forall k :: 0 <= k < |systems| ==>
      && steps[4 * k] == BeforeHooks(systems[k]) && steps[4 * k + 1] == Ran(systems[k])
      && steps[4 * k + 2] == AfterHooks(systems[k]) && steps[4 * k + 3] == Applied(systems[k])
  }

  /** A successful tick over several systems is the first system's turn followed by the tick over the rest. */
  lemma RunAllUnfold(w: Worlds.World, reg: ComponentRegistry, cmds: Commands.SystemCommands, systems: seq<ClassRef>, t: QueryTable, body: Body, asWritten: bool)
    requires Ready(w) && |systems| > 0
    requires RunAll(w, reg, cmds, systems, t, body, asWritten).Success?
    ensures RunSystem(w, reg, cmds, systems[0], t, body, asWritten).Success?
    ensures var (w1, c1) := RunSystem(w, reg, cmds, systems[0], t, body, asWritten).value;
      && RunAll(w1, reg, c1, systems[1..], t, body, asWritten).Success?
      && RunAll(w, reg, cmds, systems, t, body, asWritten).value.1 == Turn(systems[0]) + RunAll(w1, reg, c1, systems[1..], t, body, asWritten).value.1
  {
  }

  /** Prefixing one system's turn keeps the hook order. */
  lemma TurnKeepsHookOrder(steps: seq<Step>, systems: seq<ClassRef>)
    requires |systems| > 0 && InHookOrder(steps, systems[1..])
    ensures InHookOrder(Turn(systems[0]) + steps, systems)
  {
    var all := Turn(systems[0]) + steps;
    forall k | 1 <= k < |systems|
      ensures all[4 * k] == BeforeHooks(systems[k]) && all[4 * k + 1] == Ran(systems[k])
      ensures all[4 * k + 2] == AfterHooks(systems[k]) && all[4 * k + 3] == Applied(systems[k])
    {
      assert systems[k] == systems[1..][k - 1];
      assert 4 * k == 4 + 4 * (k - 1);
    }
  }

  /** A tick shows every system's hooks, run and apply in the manager's order. */
  lemma {:induction false} TickFollowsHookOrder(w: Worlds.World, reg: ComponentRegistry, cmds: Commands.SystemCommands, systems: seq<ClassRef>, t: QueryTable, body: Body, asWritten: bool)
    requires Ready(w)
    requires RunAll(w, reg, cmds, systems, t, body, asWritten).Success?
    ensures InHookOrder(RunAll(w, reg, cmds, systems, t, body, asWritten).value.1, systems)
    decreases |systems|
  {
    if |systems| > 0 {
      RunAllUnfold(w, reg, cmds, systems, t, body, asWritten);
      var (w1, c1) := RunSystem(w, reg, cmds, systems[0], t, body, asWritten).value;
      TickFollowsHookOrder(w1, reg, c1, systems[1..], t, body, asWritten);
      TurnKeepsHookOrder(RunAll(w1, reg, c1, systems[1..], t, body, asWritten).value.1, systems);
    }
  }

  /** In a trace in hook order, the runs are exactly the systems, in order. */
  lemma {:induction false} RunsOfHookOrder(steps: seq<Step>, systems: seq<ClassRef>)
    requires InHookOrder(steps, systems)
    ensures RanSystems(steps) == systems
    decreases |systems|
  {
    if |systems| > 0 {
      var rest := steps[4..];
      assert InHookOrder(rest, systems[1..]) by {
        forall k | 0 <= k < |systems| - 1
          ensures rest[4 * k] == BeforeHooks(systems[1..][k]) && rest[4 * k + 1] == Ran(systems[1..][k])
          ensures rest[4 * k + 2] == AfterHooks(systems[1..][k]) && rest[4 * k + 3] == Applied(systems[1..][k])
        {
          assert 4 * (k + 1) == 4 * k + 4;
        }
      }
      RunsOfHookOrder(rest, systems[1..]);
      assert steps[0] == BeforeHooks(systems[0]) && steps[1] == Ran(systems[0]);
      assert steps[2] == AfterHooks(systems[0]) && steps[3] == Applied(systems[0]);
      assert steps[1..][1..][1..][1..] == rest;
      assert RanSystems(steps[3..]) == RanSystems(rest);
      assert RanSystems(steps[2..]) == RanSystems(rest);
      assert RanSystems(steps[1..]) == [systems[0]] + RanSystems(rest);
    }
  }

  /** Each system in the order runs once per tick, in order: a system placed twice runs twice. */
  lemma EachSystemRunsOnce(w: Worlds.World, reg: ComponentRegistry, cmds: Commands.SystemCommands, systems: seq<ClassRef>, t: QueryTable, body: Body, asWritten: bool)
    requires Ready(w)
    requires RunAll(w, reg, cmds, systems, t, body, asWritten).Success?
    ensures RanSystems(RunAll(w, reg, cmds, systems, t, body, asWritten).value.1) == systems
  {
    TickFollowsHookOrder(w, reg, cmds, systems, t, body, asWritten);
    RunsOfHookOrder(RunAll(w, reg, cmds, systems, t, body, asWritten).value.1, systems);
  }

  /**
   * Every system after the first starts from an empty buffer: the commands
   * of one system are applied, and the buffer emptied, before the next
   * system's hooks.
   */
  lemma SecondSystemStartsWithEmptyBuffer(w: Worlds.World, reg: ComponentRegistry, cmds: Commands.SystemCommands, s: ClassRef, rest: seq<ClassRef>, t: QueryTable, body: Body, asWritten: bool)
    requires Ready(w)
    requires RunSystem(w, reg, cmds, s, t, body, asWritten).Success?
    ensures var (w1, c1) := RunSystem(w, reg, cmds, s, t, body, asWritten).value;
      && c1 == Commands.NewCommands()
      && RunAll(w, reg, cmds, [s] + rest, t, body, asWritten) ==
        match RunAll(w1, reg, Commands.NewCommands(), rest, t, body, asWritten)
        case Failure(e) => Failure(e)
        case Success((w2, steps)) => Success((w2, Turn(s) + steps))
  {
    assert ([s] + rest)[0] == s && ([s] + rest)[1..] == rest;
  }

  /**
   * Run-once systems run in the first tick only: after one tick, a second
   * tick runs exactly the systems of the order that are not run-once.
   */
  lemma RunOnceSystemsRunOnlyInFirstTick(w: Worlds.World, reg: ComponentRegistry, m: Systems.SystemsManager, meta: Systems.ConfigTable, t: QueryTable, body: Body, asWritten: bool)
    requires Ready(w) && !m.runOnceCleared
    requires Update(w, reg, m, meta, t, body, asWritten).Success?
    requires var (w1, m1, _) := Update(w, reg, m, meta, t, body, asWritten).value;
      Update(w1, reg, m1, meta, t, body, asWritten).Success?
    ensures var (w1, m1, _) := Update(w, reg, m, meta, t, body, asWritten).value;
      var steps := Update(w1, reg, m1, meta, t, body, asWritten).value.2;
      forall x :: x in RanSystems(steps) <==> x in m.ordered && !Systems.GetConfig(meta, x).runOnce
  {
    var (w1, m1, _) := Update(w, reg, m, meta, t, body, asWritten).value;
    EachSystemRunsOnce(w1, reg, Commands.NewCommands(), m1.ordered, t, body, asWritten);
  }

  /**
   * With the source's `applyPending`, a tick never changes the component
   * store: no system's commands take effect.
   */
  lemma TickAsWrittenKeepsStore(w: Worlds.World, reg: ComponentRegistry, m: Systems.SystemsManager, meta: Systems.ConfigTable, t: QueryTable, body: Body)
    requires Ready(w)
    requires Update(w, reg, m, meta, t, body, true).Success?
    ensures forall e: EntityId, c: ComponentId :: TryGet(Update(w, reg, m, meta, t, body, true).value.0.store, e, c) == TryGet(w.store, e, c)
  {
  }
}
