/**
 * The command buffer a system writes into while it runs: one entry per
 * `entity(id)` call, each holding the commands issued through it, in order.
 */
module Commands {
  import opened Wrappers
  import opened Ids
  import opened Registries
  import opened ComponentStore

  /** A deferred change to one entity. */
  datatype Command =
    | AddComponents(entity: EntityId, components: seq<ComponentData>)
    | RemoveComponents(entity: EntityId, ids: seq<ComponentId>)
    | DespawnEntity(entity: EntityId)

  /** `SystemEntityCommands`: the entity and its pending commands. */
  datatype EntityCommands = EntityCommands(id: EntityId, pending: seq<Command>)

  /** `SystemCommands`: every entity handle issued during the run. */
  datatype SystemCommands = SystemCommands(entities: seq<EntityCommands>)

  /** An entity handle: its position in the buffer. */
  type Handle = nat

  /** Every command sits in the handle of the entity it is about. */
  ghost predicate WellFiled(cmds: SystemCommands) {
    forall i, j :: 0 <= i < |cmds.entities| && 0 <= j < |cmds.entities[i].pending| ==>
      cmds.entities[i].pending[j].entity == cmds.entities[i].id
  }

  function NewCommands(): (r: SystemCommands)
    ensures |r.entities| == 0 && WellFiled(r)
  {
    SystemCommands([])
  }

  /** `entity(id)`: a new, empty handle for `id`, even if one already exists. */
  function Entity(cmds: SystemCommands, id: EntityId): (r: (SystemCommands, Handle))
    ensures r.1 == |cmds.entities| && |r.0.entities| == |cmds.entities| + 1
    ensures r.0.entities[..r.1] == cmds.entities
    ensures r.0.entities[r.1] == EntityCommands(id, [])
    ensures WellFiled(cmds) ==> WellFiled(r.0)
  {
    (SystemCommands(cmds.entities + [EntityCommands(id, [])]), |cmds.entities|)
  }

  /** Appends one command to a handle. */
  function Push(cmds: SystemCommands, h: Handle, c: Command): (r: SystemCommands)
    requires h < |cmds.entities|
    ensures |r.entities| == |cmds.entities|
    ensures r.entities[h] == cmds.entities[h].(pending := cmds.entities[h].pending + [c])
    ensures forall i :: 0 <= i < |cmds.entities| && i != h ==> r.entities[i] == cmds.entities[i]
  {
    SystemCommands(cmds.entities[h := cmds.entities[h].(pending := cmds.entities[h].pending + [c])])
  }

  /** `add(...components)`: queued as given; the classes are looked up only when it runs. */
  function Add(cmds: SystemCommands, h: Handle, components: seq<ComponentData>): (r: SystemCommands)
    requires h < |cmds.entities|
    ensures WellFiled(cmds) ==> WellFiled(r)
    ensures |r.entities| == |cmds.entities|
    ensures r.entities[h].id == cmds.entities[h].id
    ensures r.entities[h].pending == cmds.entities[h].pending + [AddComponents(cmds.entities[h].id, components)]
    ensures forall i :: 0 <= i < |cmds.entities| && i != h ==> r.entities[i] == cmds.entities[i]
  {
    Push(cmds, h, AddComponents(cmds.entities[h].id, components))
  }

  /** `remove(...classes)`: the classes are looked up now, so an unregistered one fails the issuing system. */
  function Remove(cmds: SystemCommands, reg: ComponentRegistry, h: Handle, classes: seq<ClassRef>): (r: Result<SystemCommands, RegistryError>)
    requires h < |cmds.entities|
    ensures r.Failure? <==> exists i :: 0 <= i < |classes| && classes[i] !in reg.classLookup
    ensures r.Success? ==> r.value == Push(cmds, h, RemoveComponents(cmds.entities[h].id, LookupIds(reg, classes).value))
    ensures r.Success? && WellFiled(cmds) ==> WellFiled(r.value)
  {
    var ids :- LookupIds(reg, classes);
    Success(Push(cmds, h, RemoveComponents(cmds.entities[h].id, ids)))
  }

  /** `despawn()`. */
  function Despawn(cmds: SystemCommands, h: Handle): (r: SystemCommands)
    requires h < |cmds.entities|
    ensures WellFiled(cmds) ==> WellFiled(r)
    ensures |r.entities| == |cmds.entities|
    ensures r.entities[h].id == cmds.entities[h].id
    ensures r.entities[h].pending == cmds.entities[h].pending + [DespawnEntity(cmds.entities[h].id)]
    ensures forall i :: 0 <= i < |cmds.entities| && i != h ==> r.entities[i] == cmds.entities[i]
  {
    Push(cmds, h, DespawnEntity(cmds.entities[h].id))
  }

  /**
   * `spawn(...components)`: takes the next id from the world's provider at
   * once, and queues the components on a fresh handle for it.
   */
  function Spawn(cmds: SystemCommands, ids: IdProvider, components: seq<ComponentData>): (r: (SystemCommands, IdProvider, EntityId))
    requires Valid(ids)
    ensures r.2 == ids.counter + 1 && r.1.counter == r.2
    ensures |r.0.entities| == |cmds.entities| + 1 && r.0.entities[..|cmds.entities|] == cmds.entities
    ensures r.0.entities[|cmds.entities|] == EntityCommands(r.2, [AddComponents(r.2, components)])
    ensures WellFiled(cmds) ==> WellFiled(r.0)
  {
    var (id, ids') := Next(ids);
    var (c1, h) := Entity(cmds, id);
    (Add(c1, h, components), ids', id)
  }

  /** Every command in the buffer, in issue order: handle by handle, then within a handle. */
  function Flatten(es: seq<EntityCommands>): (r: seq<Command>)
    ensures forall i, j :: 0 <= i < |es| && 0 <= j < |es[i].pending| ==> es[i].pending[j] in r
    ensures forall c :: c in r ==> exists i :: 0 <= i < |es| && c in es[i].pending
    decreases |es|
  {
    if |es| == 0 then
      []
    else
      var rest := Flatten(es[1..]);
      assert forall i :: 1 <= i < |es| ==> es[i] == es[1..][i - 1];
      es[0].pending + rest
  }

  /** The commands of a buffer are the commands of its handles, concatenated. */
  lemma {:induction false} FlattenAppend(a: seq<EntityCommands>, b: seq<EntityCommands>)
    ensures Flatten(a + b) == Flatten(a) + Flatten(b)
    decreases |a|
  {
    if |a| == 0 {
      assert a + b == b;
    } else {
      assert (a + b)[0] == a[0];
      assert (a + b)[1..] == a[1..] + b;
      FlattenAppend(a[1..], b);
    }
  }

  /** Spawning queues exactly one command, the add of its components, at the end of the buffer. */
  lemma SpawnQueuesItsComponents(cmds: SystemCommands, ids: IdProvider, components: seq<ComponentData>)
    requires Valid(ids)
    ensures var (c, _, id) := Spawn(cmds, ids, components);
      Flatten(c.entities) == Flatten(cmds.entities) + [AddComponents(id, components)]
  {
    var (c, _, id) := Spawn(cmds, ids, components);
    assert c.entities == cmds.entities + [EntityCommands(id, [AddComponents(id, components)])];
    FlattenAppend(cmds.entities, [EntityCommands(id, [AddComponents(id, components)])]);
    assert Flatten([EntityCommands(id, [AddComponents(id, components)])]) == [AddComponents(id, components)];
  }
}
