/**
 * `Registry` (src/decorators/registry.ts): maps a class to its id and an id
 * to its metadata. Component classes are registered here by their decorator.
 */
module Registries {
  import opened Wrappers
  import opened Ids

  datatype RegistryError = NotRegistered(cls: ClassRef)

  /**
   * The registry is generic over its id type in the source; every registry
   * of the library is keyed by numeric ids, so `I` is fixed to `nat` here.
   */
  /** The metadata the component decorator registers: the id and the class. */
  datatype ComponentMeta = ComponentMeta(id: nat, cls: ClassRef)

  datatype Registry<D> = Registry(meta: map<nat, D>, classLookup: map<ClassRef, nat>)

  /** The registry of component classes. */
  type ComponentRegistry = Registry<ComponentMeta>

  function EmptyRegistry<D>(): (r: Registry<D>)
    ensures r.meta == map[] && r.classLookup == map[]
  {
    Registry(map[], map[])
  }

  /** `register(id, constructor, meta)`: overwrites both mappings. */
  function Register<D>(r: Registry<D>, id: nat, cls: ClassRef, m: D): (r': Registry<D>)
    ensures LookupId(r', cls) == Success(id)
    ensures Get(r', id) == Some(m)
    ensures forall c :: c != cls ==> LookupId(r', c) == LookupId(r, c)
    ensures forall i :: i != id ==> Get(r', i) == Get(r, i)
  {
    Registry(r.meta[id := m], r.classLookup[cls := id])
  }

  /**
   * `lookupId(constructor)`: fails exactly for an unregistered class. Any
   * stored id counts, including 0: the source compares with `undefined`.
   */
  function LookupId<D>(r: Registry<D>, cls: ClassRef): (res: Result<nat, RegistryError>)
    ensures res.Failure? <==> cls !in r.classLookup
    ensures res.Failure? ==> res.error == NotRegistered(cls)
    ensures res.Success? ==> res.value == r.classLookup[cls]
  {
    if cls in r.classLookup then Success(r.classLookup[cls]) else Failure(NotRegistered(cls))
  }

  /** `get(id)`: the metadata, or `undefined` for an unknown id. */
  function Get<D>(r: Registry<D>, id: nat): (res: Option<D>)
    ensures res.None? <==> id !in r.meta
    ensures res.Some? ==> res.value == r.meta[id]
  {
    if id in r.meta then Some(r.meta[id]) else None
  }

  /** Looks every class up in turn, failing at the first unregistered one (`classes.map(lookupId)`). */
  function LookupIds<D>(r: Registry<D>, classes: seq<ClassRef>): (res: Result<seq<nat>, RegistryError>)
    ensures res.Success? <==> forall i :: 0 <= i < |classes| ==> classes[i] in r.classLookup
    ensures res.Success? ==> |res.value| == |classes| && forall i :: 0 <= i < |classes| ==> res.value[i] == r.classLookup[classes[i]]
    ensures res.Failure? ==> exists i :: 0 <= i < |classes| && classes[i] !in r.classLookup && res.error == NotRegistered(classes[i])
  {
    if |classes| == 0 then
      Success([])
    else
      match LookupId(r, classes[0])
      case Failure(err) => Failure(err)
      case Success(id) =>
        match LookupIds(r, classes[1..])
        case Failure(err) => Failure(err)
        case Success(ids) =>
          assert forall i :: 1 <= i < |classes| ==> classes[i] == classes[1..][i - 1];
          Success([id] + ids)
  }

  /** `lookup(constructor)`: the id, then its metadata; both steps can fail. */
  function Lookup<D>(r: Registry<D>, cls: ClassRef): (res: Result<D, RegistryError>)
    ensures res.Success? <==> cls in r.classLookup && r.classLookup[cls] in r.meta
    ensures res.Success? ==> res.value == r.meta[r.classLookup[cls]]
    ensures res.Failure? ==> res.error == NotRegistered(cls)
  {
    var id :- LookupId(r, cls);
    match Get(r, id)
    case None => Failure(NotRegistered(cls))
    case Some(m) => Success(m)
  }

  /** After `register(id, c, m)`, the three lookups agree with what was registered. */
  lemma RegisterThenLookup<D>(r: Registry<D>, id: nat, cls: ClassRef, m: D)
    ensures LookupId(Register(r, id, cls, m), cls) == Success(id)
    ensures Get(Register(r, id, cls, m), id) == Some(m)
    ensures Lookup(Register(r, id, cls, m), cls) == Success(m)
  {
  }

  /** Registering a class again replaces its id: the latest registration wins. */
  lemma ReRegisterOverwrites<D>(r: Registry<D>, id1: nat, id2: nat, cls: ClassRef, m1: D, m2: D)
    ensures LookupId(Register(Register(r, id1, cls, m1), id2, cls, m2), cls) == Success(id2)
  {
  }

  /** Registration only ever adds: a class that resolved before still resolves. */
  lemma RegisterKeepsOthers<D>(r: Registry<D>, id: nat, cls: ClassRef, m: D, other: ClassRef)
    requires LookupId(r, other).Success?
    ensures LookupId(Register(r, id, cls, m), other).Success?
  {
  }
}
