/**
 * The component store (`ComponentManager`, src/component/manager.ts):
 * component data per (component, entity), a lazily created mask per entity,
 * and handler registries for add, remove and change events.
 *
 * The source calls the registered handlers synchronously; here every
 * mutation returns the list of notifications it would deliver, one per
 * registered handler in registration order.
 */
module ComponentStore {
  import opened Wrappers
  import opened Ids
  import opened ComponentMask

  /** The plain fields of a component object; their content plays no part in the bookkeeping. */
  type Fields(==)

  /** A component object: an instance of a registered component class. */
  datatype ComponentData = ComponentData(cls: ClassRef, fields: Fields)

  datatype HandlerKind = OnAdd | OnRemove | OnChange

  /** The identity of a subscribed handler: the index of the query that owns it. */
  type HandlerRef = nat

  /** One handler call `handler(entity, component)`. */
  datatype Notification = Notification(handler: HandlerRef, entity: EntityId, component: ComponentId)

  datatype StoreError = MissingComponent(entity: EntityId, component: ComponentId) | MissingEntity(entity: EntityId)

  /**
   * The source keeps one array per component indexed by entity; a map keyed
   * by the pair holds the same information. Handler registries are keyed by
   * event kind and component.
   */
  datatype Store = Store(
    data: map<(EntityId, ComponentId), ComponentData>,
    masks: map<EntityId, Mask>,
    handlers: map<(HandlerKind, ComponentId), seq<HandlerRef>>)

  function EmptyStore(): (s: Store)
    ensures Consistent(s)
    ensures forall e :: GetMask(s, e) == Failure(MissingEntity(e))
  {
    Store(map[], map[], map[])
  }

  /**
   * The store invariant: stored data implies a mask, and for component ids
   * below `Width` a mask bit is set exactly when data is stored.
   */
  ghost predicate Consistent(s: Store) {
    && (forall e, c :: (e, c) in s.data ==> e in s.masks)
    && (forall e, c: nat :: e in s.masks && c < Width ==> (Includes(s.masks[e], c) <==> (e, c) in s.data))
  }

  /** The handlers registered for one kind of event on one component. */
  function Handlers(s: Store, kind: HandlerKind, c: ComponentId): seq<HandlerRef> {
    if (kind, c) in s.handlers then s.handlers[(kind, c)] else []
  }

  /** One notification per handler, in the handlers' order. */
  function Notify(hs: seq<HandlerRef>, e: EntityId, c: ComponentId): (r: seq<Notification>)
    ensures |r| == |hs|
    ensures forall i :: 0 <= i < |r| ==> r[i] == Notification(hs[i], e, c)
  {
    if |hs| == 0 then [] else [Notification(hs[0], e, c)] + Notify(hs[1..], e, c)
  }

  /** `tryGet(entity, component)`: the stored value, or `undefined`; never fails. */
  function TryGet(s: Store, e: EntityId, c: ComponentId): (r: Option<ComponentData>)
    ensures r.Some? <==> (e, c) in s.data
    ensures r.Some? ==> r.value == s.data[(e, c)]
  {
    if (e, c) in s.data then Some(s.data[(e, c)]) else None
  }

  /** `get(entity, component)`: the stored value, or `MissingComponentError`. */
  function Get(s: Store, e: EntityId, c: ComponentId): (r: Result<ComponentData, StoreError>)
    ensures r.Success? <==> TryGet(s, e, c).Some?
    ensures r.Success? ==> r.value == TryGet(s, e, c).value
    ensures r.Failure? ==> r.error == MissingComponent(e, c)
  {
    match TryGet(s, e, c)
    case Some(d) => Success(d)
    case None => Failure(MissingComponent(e, c))
  }

  /** `getMask(entity)`: the entity's mask, or `MissingEntityError` before it exists. */
  function GetMask(s: Store, e: EntityId): (r: Result<Mask, StoreError>)
    ensures r.Success? <==> e in s.masks
    ensures r.Success? ==> r.value == s.masks[e]
    ensures r.Failure? ==> r.error == MissingEntity(e)
  {
    if e in s.masks then Success(s.masks[e]) else Failure(MissingEntity(e))
  }

  /**
   * `ensureArrays`: creates the entity's mask, empty, if it is missing.
   * (It also creates the component's empty table, which is not observable.)
   */
  function EnsureArrays(s: Store, e: EntityId): (r: Store)
    ensures r.masks.Keys == s.masks.Keys + {e}
    ensures forall e' :: e' in s.masks ==> r.masks[e'] == s.masks[e']
    ensures e !in s.masks ==> r.masks[e] == Empty
    ensures r.data == s.data && r.handlers == s.handlers
  {
    if e in s.masks then s else s.(masks := s.masks[e := Empty])
  }

  /**
   * `add(entity, component, data)`: stores (or replaces) the value, sets the
   * bit, and notifies every add handler of `component`.
   */
  function Add(s: Store, e: EntityId, c: ComponentId, d: ComponentData): (r: (Store, seq<Notification>))
    ensures TryGet(r.0, e, c) == Some(d)
    ensures GetMask(r.0, e).Success? && Includes(r.0.masks[e], c)
    ensures r.1 == Notify(Handlers(s, OnAdd, c), e, c)
  {
    var t := EnsureArrays(s, e);
    var m := Set(t.masks[e], c, true);
    (Store(t.data[(e, c) := d], t.masks[e := m], t.handlers), Notify(Handlers(s, OnAdd, c), e, c))
  }

  /**
   * `remove(entity, component)`: deletes the value, clears the bit, and
   * notifies every remove handler of `component`, whether or not a value
   * was stored.
   */
  function Remove(s: Store, e: EntityId, c: ComponentId): (r: (Store, seq<Notification>))
    ensures TryGet(r.0, e, c) == None
    ensures GetMask(r.0, e).Success? && !Includes(r.0.masks[e], c)
    ensures r.1 == Notify(Handlers(s, OnRemove, c), e, c)
  {
    var t := EnsureArrays(s, e);
    var m := Set(t.masks[e], c, false);
    (Store(t.data - {(e, c)}, t.masks[e := m], t.handlers), Notify(Handlers(s, OnRemove, c), e, c))
  }

  /**
   * A change to a stored component object. The source detects it through a
   * proxy around the object; here it is an explicit event that notifies the
   * change handlers of `component` and leaves the bookkeeping alone.
   */
  function Change(s: Store, e: EntityId, c: ComponentId): (r: seq<Notification>)
    ensures r == Notify(Handlers(s, OnChange, c), e, c)
    ensures |r| == |Handlers(s, OnChange, c)|
    ensures forall i :: 0 <= i < |r| ==> r[i] == Notification(Handlers(s, OnChange, c)[i], e, c)
  {
    Notify(Handlers(s, OnChange, c), e, c)
  }

  /** `registerAddHandler` and its siblings: appends the handler unless it is already there. */
  function Register(s: Store, kind: HandlerKind, c: ComponentId, h: HandlerRef): (r: Store)
    ensures h in Handlers(r, kind, c)
    ensures h !in Handlers(s, kind, c) ==> Handlers(r, kind, c) == Handlers(s, kind, c) + [h]
    ensures h in Handlers(s, kind, c) ==> Handlers(r, kind, c) == Handlers(s, kind, c)
    ensures forall k, c': ComponentId :: (k, c') != (kind, c) ==> Handlers(r, k, c') == Handlers(s, k, c')
    ensures r.data == s.data && r.masks == s.masks
  {
    var hs := Handlers(s, kind, c);
    s.(handlers := s.handlers[(kind, c) := if h in hs then hs else hs + [h]])
  }

  // ---------------------------------------------------------------------
  // Properties

  lemma EnsureArraysKeepsConsistent(s: Store, e: EntityId)
    requires Consistent(s)
    ensures Consistent(EnsureArrays(s, e))
  {
    if e !in s.masks {
      forall c: ComponentId ensures !Includes(Empty, c) {
        FreshIncludesNothing(c);
      }
    }
  }

  /** `add` and `remove` keep the store invariant, for component ids the mask can tell apart. */
  lemma AddKeepsConsistent(s: Store, e: EntityId, c: ComponentId, d: ComponentData)
    requires Consistent(s) && c < Width
    ensures Consistent(Add(s, e, c, d).0)
  {
    var t := EnsureArrays(s, e);
    EnsureArraysKeepsConsistent(s, e);
    var m0 := t.masks[e];
    var r := Add(s, e, c, d).0;
    forall e': EntityId, c': ComponentId | e' in r.masks && c' < Width
      ensures Includes(r.masks[e'], c') <==> (e', c') in r.data
    {
      if e' == e {
        IncludesAfterSet(m0, c, true, c');
      }
    }
  }

  lemma RemoveKeepsConsistent(s: Store, e: EntityId, c: ComponentId)
    requires Consistent(s) && c < Width
    ensures Consistent(Remove(s, e, c).0)
  {
    var t := EnsureArrays(s, e);
    EnsureArraysKeepsConsistent(s, e);
    var m0 := t.masks[e];
    var r := Remove(s, e, c).0;
    forall e': EntityId, c': ComponentId | e' in r.masks && c' < Width
      ensures Includes(r.masks[e'], c') <==> (e', c') in r.data
    {
      if e' == e {
        IncludesAfterSet(m0, c, false, c');
      }
    }
  }

  lemma RegisterKeepsConsistent(s: Store, kind: HandlerKind, c: ComponentId, h: HandlerRef)
    requires Consistent(s)
    ensures Consistent(Register(s, kind, c, h))
  {
  }

  /** `add` on `(e, c)` leaves every other slot, every other mask and the handlers alone. */
  lemma AddFrame(s: Store, e: EntityId, c: ComponentId, d: ComponentData)
    ensures var r := Add(s, e, c, d).0;
      && (forall e': EntityId, c': ComponentId :: (e', c') != (e, c) ==> TryGet(r, e', c') == TryGet(s, e', c'))
      && (forall e' :: e' != e ==> GetMask(r, e') == GetMask(s, e'))
      && r.handlers == s.handlers
  {
  }

  /** `remove` on `(e, c)` leaves every other slot, every other mask and the handlers alone. */
  lemma RemoveFrame(s: Store, e: EntityId, c: ComponentId)
    ensures var r := Remove(s, e, c).0;
      && (forall e': EntityId, c': ComponentId :: (e', c') != (e, c) ==> TryGet(r, e', c') == TryGet(s, e', c'))
      && (forall e' :: e' != e ==> GetMask(r, e') == GetMask(s, e'))
      && r.handlers == s.handlers
  {
  }

  /** In terms of members, `add` sets exactly the bit of `c` in the entity's mask. */
  lemma AddSetsOnlyItsBit(s: Store, e: EntityId, c: ComponentId, d: ComponentData)
    requires e in s.masks
    ensures Members(Add(s, e, c, d).0.masks[e]) == Members(s.masks[e]) + {c % 32}
  {
    SetMembers(s.masks[e], c, true);
  }

  /** In terms of members, `remove` clears exactly the bit of `c` in the entity's mask. */
  lemma RemoveClearsOnlyItsBit(s: Store, e: EntityId, c: ComponentId)
    requires e in s.masks
    ensures Members(Remove(s, e, c).0.masks[e]) == Members(s.masks[e]) - {c % 32}
  {
    SetMembers(s.masks[e], c, false);
  }

  /** `get` succeeds exactly after an `add`, and fails after a `remove`. */
  lemma GetAfterAddAndRemove(s: Store, e: EntityId, c: ComponentId, d: ComponentData)
    ensures Get(Add(s, e, c, d).0, e, c) == Success(d)
    ensures Get(Remove(s, e, c).0, e, c) == Failure(MissingComponent(e, c))
    ensures Get(Remove(Add(s, e, c, d).0, e, c).0, e, c) == Failure(MissingComponent(e, c))
  {
  }

  /** Removing twice leaves the same store as removing once; both notify the remove handlers. */
  lemma RemoveIsIdempotent(s: Store, e: EntityId, c: ComponentId)
    ensures Remove(Remove(s, e, c).0, e, c).0 == Remove(s, e, c).0
    ensures Remove(Remove(s, e, c).0, e, c).1 == Remove(s, e, c).1
  {
    SetTwice(EnsureArrays(s, e).masks[e], c, false);
  }

  /** Only the handlers registered for `c` hear about events on `c`, and each hears once per event. */
  lemma NotificationsTargetRegistered(s: Store, e: EntityId, c: ComponentId, d: ComponentData)
    ensures forall n :: n in Add(s, e, c, d).1 ==> n.entity == e && n.component == c && n.handler in Handlers(s, OnAdd, c)
    ensures forall n :: n in Remove(s, e, c).1 ==> n.entity == e && n.component == c && n.handler in Handlers(s, OnRemove, c)
    ensures forall h :: h in Handlers(s, OnAdd, c) ==> Notification(h, e, c) in Add(s, e, c, d).1
  {
    var adds := Add(s, e, c, d).1;
    forall h | h in Handlers(s, OnAdd, c) ensures Notification(h, e, c) in adds {
      var i :| 0 <= i < |Handlers(s, OnAdd, c)| && Handlers(s, OnAdd, c)[i] == h;
      assert adds[i] == Notification(h, e, c);
    }
  }

  /** A handler registered for one component is not notified about another component. */
  lemma RegisterOnlyAffectsItsComponent(s: Store, c: ComponentId, other: ComponentId, h: HandlerRef, e: EntityId, d: ComponentData)
    requires other != c
    ensures Add(Register(s, OnAdd, c, h), e, other, d).1 == Add(s, e, other, d).1
  {
  }

  /** A mask exists from the first `add` or `remove` of an entity on, and not before. */
  lemma MaskCreatedByFirstTouch(e: EntityId, c: ComponentId, d: ComponentData)
    ensures GetMask(EmptyStore(), e).Failure?
    ensures GetMask(Add(EmptyStore(), e, c, d).0, e).Success?
    ensures GetMask(Remove(EmptyStore(), e, c).0, e).Success?
    ensures Members(Remove(EmptyStore(), e, c).0.masks[e]) == {}
  {
    FreshIncludesNothing(0);
    SetMembers(Empty, c, false);
  }
}
