/**
 * The world: the entity id provider, the component store, the resources,
 * and the entity queries the store's handlers lead to. A store mutation
 * notifies its handlers at once, and each handler is a query, so every
 * world-level mutation delivers its notifications, in order, before it
 * returns.
 */
module Worlds {
  import opened Wrappers
  import opened Ids
  import opened ComponentMask
  import opened Registries
  import opened ComponentStore
  import opened EntityQueries
  import Resources
  import Commands

  datatype World = World(entityIds: IdProvider, store: Store, resources: Resources.ResourceState, queries: seq<EntityQuery>)

  datatype WorldError =
    | StoreFailed(storeError: StoreError)
    | LookupFailed(lookupError: RegistryError)
      /** The despawn command calls a `removeAll` the component manager does not define. */
    | RemoveAllMissing(entity: EntityId)

  /** Every handler the store knows is a query of this world. */
  ghost predicate HandlersInRange(w: World) {
    forall k, c, x :: x in Handlers(w.store, k, c) ==> x < |w.queries|
  }

  /** Every entity the store has a mask for is an id the provider has handed out. */
  ghost predicate MasksIssued(s: Store, p: IdProvider) {
    forall e :: e in s.masks ==> Issued(p, e)
  }

  ghost predicate WorldValid(w: World) {
    Ids.Valid(w.entityIds) && HandlersInRange(w) && Resources.Valid(w.resources) && MasksIssued(w.store, w.entityIds)
  }

  /** The constructor: no entities, no components, one instance per resource class. */
  function NewWorld(classes: set<ClassRef>, init: ClassRef -> Resources.ResourceData): (r: World)
    ensures WorldValid(r)
    ensures forall e :: GetMask(r.store, e).Failure? && !Issued(r.entityIds, e)
    ensures |r.queries| == 0
  {
    World(NewProvider(), EmptyStore(), Resources.NewState(classes, init), [])
  }

  /** `createEmptyEntity()`: only a fresh id; the store hears of the entity at its first component. */
  function CreateEmptyEntity(w: World): (r: (EntityId, World))
    requires WorldValid(w)
    ensures !Issued(w.entityIds, r.0) && Issued(r.1.entityIds, r.0)
    ensures GetMask(r.1.store, r.0).Failure?
    ensures r.1 == w.(entityIds := r.1.entityIds) && WorldValid(r.1)
  {
    var (id, ids) := Next(w.entityIds);
    NextIsFresh(w.entityIds);
    (id, w.(entityIds := ids))
  }

  /** Whether no notification is addressed to query `j`. */
  ghost predicate Untouched(ns: seq<Notification>, j: nat) {
    forall i :: 0 <= i < |ns| ==> ns[i].handler != j
  }

  /**
   * Delivers notifications in order, each to the query that registered the
   * handler; the first failing handler aborts the rest.
   */
  function Dispatch(qs: seq<EntityQuery>, s: Store, ns: seq<Notification>): (r: Result<seq<EntityQuery>, StoreError>)
    requires forall i :: 0 <= i < |ns| ==> ns[i].handler < |qs|
    ensures r.Success? ==> |r.value| == |qs|
    ensures r.Success? ==> forall j :: 0 <= j < |qs| ==> SameShape(qs[j], r.value[j])
    ensures r.Success? ==> forall j :: 0 <= j < |qs| && Untouched(ns, j) ==> r.value[j] == qs[j]
    decreases |ns|
  {
    if |ns| == 0 then
      Success(qs)
    else
      var h := ns[0].handler;
      var q :- Handle(qs[h], s, ns[0]);
      assert forall j :: Untouched(ns, j) ==> Untouched(ns[1..], j) && j != h;
      Dispatch(qs[h := q], s, ns[1..])
  }

  /** Delivering a single notification is running its query's handler on it. */
  lemma DispatchOne(qs: seq<EntityQuery>, s: Store, n: Notification)
    requires n.handler < |qs|
    ensures Dispatch(qs, s, [n]) ==
      match Handle(qs[n.handler], s, n)
      case Failure(err) => Failure(err)
      case Success(q) => Success(qs[n.handler := q])
  {
    assert [n][0] == n && [n][1..] == [];
  }

  /**
   * A static query that hears about `e` at least once ends up showing `e`
   * exactly when `e` passes its masks, however many times it hears.
   */
  lemma {:induction false} DispatchStaticFollowsMasks(qs: seq<EntityQuery>, s: Store, ns: seq<Notification>, e: EntityId, j: nat)
    requires forall i :: 0 <= i < |ns| ==> ns[i].handler < |qs| && ns[i].entity == e
    requires Dispatch(qs, s, ns).Success?
    requires j < |qs| && qs[j].kind.Static? && !Untouched(ns, j)
    ensures e in s.masks
    ensures e in Dispatch(qs, s, ns).value[j].rows <==> MatchesMasks(qs[j], s.masks[e])
    decreases |ns|
  {
    var h := ns[0].handler;
    var q := Handle(qs[h], s, ns[0]).value;
    var qs1 := qs[h := q];
    assert Dispatch(qs, s, ns) == Dispatch(qs1, s, ns[1..]);
    if Untouched(ns[1..], j) {
      forall i | 1 <= i < |ns|
        ensures ns[i].handler != j
      {
        assert ns[i] == ns[1..][i - 1];
      }
    } else {
      DispatchStaticFollowsMasks(qs1, s, ns[1..], e, j);
    }
  }

  /**
   * A reactive query that hears about `(e, c)` at least once, for an entity
   * that passes its masks, ends up either showing `e` or recording `c` as
   * fired for it.
   */
  lemma {:induction false} DispatchReactiveRecords(qs: seq<EntityQuery>, s: Store, ns: seq<Notification>, e: EntityId, c: ComponentId, j: nat)
    requires forall i :: 0 <= i < |ns| ==> ns[i].handler < |qs| && ns[i].entity == e && ns[i].component == c
    requires Dispatch(qs, s, ns).Success?
    requires j < |qs| && qs[j].kind.Reactive? && !Untouched(ns, j)
    requires e in s.masks && MatchesMasks(qs[j], s.masks[e])
    ensures Dispatch(qs, s, ns).value[j].kind.Reactive?
    ensures e in Dispatch(qs, s, ns).value[j].rows || c in Fired(Dispatch(qs, s, ns).value[j], e)
    decreases |ns|
  {
    var h := ns[0].handler;
    var q := Handle(qs[h], s, ns[0]).value;
    var qs1 := qs[h := q];
    assert Dispatch(qs, s, ns) == Dispatch(qs1, s, ns[1..]);
    if Untouched(ns[1..], j) {
      forall i | 1 <= i < |ns|
        ensures ns[i].handler != j
      {
        assert ns[i] == ns[1..][i - 1];
      }
    } else {
      DispatchReactiveRecords(qs1, s, ns[1..], e, c, j);
    }
  }

  /**
   * A reactive query never loses a row to a store event, and an event that
   * completes an entity shows it: once the query shows `e`, or it hears an
   * event that completes `e`, it shows `e` after the whole delivery.
   */
  lemma {:induction false} DispatchReactiveShows(qs: seq<EntityQuery>, s: Store, ns: seq<Notification>, e: EntityId, c: ComponentId, j: nat)
    requires forall i :: 0 <= i < |ns| ==> ns[i].handler < |qs| && ns[i].entity == e && ns[i].component == c
    requires Dispatch(qs, s, ns).Success?
    requires j < |qs| && qs[j].kind.Reactive?
    requires e in qs[j].rows || (!Untouched(ns, j) && Completes(qs[j], s, e, c))
    ensures e in Dispatch(qs, s, ns).value[j].rows
    decreases |ns|
  {
    if |ns| > 0 {
      var h := ns[0].handler;
      var q := Handle(qs[h], s, ns[0]).value;
      var qs1 := qs[h := q];
      assert Dispatch(qs, s, ns) == Dispatch(qs1, s, ns[1..]);
      if h == j {
        assert e in qs1[j].rows;
      } else if e !in qs[j].rows {
        var i :| 0 <= i < |ns| && ns[i].handler == j;
        assert ns[1..][i - 1] == ns[i];
      }
      DispatchReactiveShows(qs1, s, ns[1..], e, c, j);
    }
  }

  /**
   * In a consistent store, notifications about an entity with a mask never
   * fail when every query they reach is a static query whose mandatory
   * columns are required.
   */
  lemma {:induction false} DispatchStaticSucceeds(qs: seq<EntityQuery>, s: Store, ns: seq<Notification>, e: EntityId)
    requires forall i :: 0 <= i < |ns| ==> ns[i].handler < |qs| && ns[i].entity == e
    requires Consistent(s) && e in s.masks
    requires forall j :: 0 <= j < |qs| && !Untouched(ns, j) ==> StaticReady(qs[j])
    ensures Dispatch(qs, s, ns).Success?
    decreases |ns|
  {
    if |ns| > 0 {
      var h := ns[0].handler;
      assert !Untouched(ns, h);
      StaticMembershipFollowsMasks(qs[h], s, e);
      var q := Handle(qs[h], s, ns[0]).value;
      var qs1 := qs[h := q];
      forall j | 0 <= j < |qs1| && !Untouched(ns[1..], j)
        ensures StaticReady(qs1[j])
      {
        var i :| 0 <= i < |ns[1..]| && ns[1..][i].handler == j;
        assert ns[i + 1] == ns[1..][i];
        assert !Untouched(ns, j);
      }
      DispatchStaticSucceeds(qs1, s, ns[1..], e);
    }
  }

  /** The queries a store mutation's notifications reach are exactly the handlers registered for it. */
  lemma NotifyReaches(hs: seq<HandlerRef>, e: EntityId, c: ComponentId, j: nat)
    ensures Untouched(Notify(hs, e, c), j) <==> j !in hs
  {
    if j in hs {
      var i :| 0 <= i < |hs| && hs[i] == j;
      assert Notify(hs, e, c)[i].handler == j;
    }
  }

  /**
   * What one store event on `(e, c)` does to the queries, when the handlers
   * `hs` hear it and the store is then `s`: a query that is not among them
   * is unchanged; a static one among them shows `e` exactly when `e` passes
   * its masks; a reactive one among them, for an entity that passes its
   * masks, shows `e` or has `c` recorded as fired for it.
   */
  ghost predicate QueriesHeard(qs: seq<EntityQuery>, qs': seq<EntityQuery>, s: Store, hs: seq<HandlerRef>, e: EntityId, c: ComponentId) {
    && |qs'| == |qs|
    && (forall j :: 0 <= j < |qs| && j !in hs ==> qs'[j] == qs[j])
    && (forall j :: 0 <= j < |qs| && j in hs && qs[j].kind.Static? ==>
          e in s.masks && (e in qs'[j].rows <==> MatchesMasks(qs[j], s.masks[e])))
    && (forall j :: 0 <= j < |qs| && j in hs && qs[j].kind.Reactive? && e in s.masks && MatchesMasks(qs[j], s.masks[e]) ==>
          qs'[j].kind.Reactive? && (e in qs'[j].rows || c in Fired(qs'[j], e)))
  }

  /** Delivering the notifications of one store event updates the queries as `QueriesHeard` says. */
  lemma DispatchNotifyHeard(qs: seq<EntityQuery>, s: Store, hs: seq<HandlerRef>, e: EntityId, c: ComponentId)
    requires forall i :: 0 <= i < |hs| ==> hs[i] < |qs|
    requires Dispatch(qs, s, Notify(hs, e, c)).Success?
    ensures QueriesHeard(qs, Dispatch(qs, s, Notify(hs, e, c)).value, s, hs, e, c)
  {
    var ns := Notify(hs, e, c);
    var qs' := Dispatch(qs, s, ns).value;
    forall j | 0 <= j < |qs| && j !in hs
      ensures qs'[j] == qs[j]
    {
      NotifyReaches(hs, e, c, j);
    }
    forall j | 0 <= j < |qs| && j in hs && qs[j].kind.Static?
      ensures e in s.masks && (e in qs'[j].rows <==> MatchesMasks(qs[j], s.masks[e]))
    {
      NotifyReaches(hs, e, c, j);
      DispatchStaticFollowsMasks(qs, s, ns, e, j);
    }
    forall j | 0 <= j < |qs| && j in hs && qs[j].kind.Reactive? && e in s.masks && MatchesMasks(qs[j], s.masks[e])
      ensures qs'[j].kind.Reactive? && (e in qs'[j].rows || c in Fired(qs'[j], e))
    {
      NotifyReaches(hs, e, c, j);
      DispatchReactiveRecords(qs, s, ns, e, c, j);
    }
  }

  /** Every handler of a well-formed world names one of its queries. */
  lemma HandlersNameQueries(w: World, k: HandlerKind, c: ComponentId)
    requires HandlersInRange(w)
    ensures forall i :: 0 <= i < |Handlers(w.store, k, c)| ==> Handlers(w.store, k, c)[i] < |w.queries|
  {
    forall i | 0 <= i < |Handlers(w.store, k, c)|
      ensures Handlers(w.store, k, c)[i] < |w.queries|
    {
      assert Handlers(w.store, k, c)[i] in Handlers(w.store, k, c);
    }
  }

  /** The notifications a store mutation produces go to handlers the world knows. */
  lemma NotifiedHandlersInRange(w: World, k: HandlerKind, e: EntityId, c: ComponentId)
    requires HandlersInRange(w)
    ensures forall i :: 0 <= i < |Notify(Handlers(w.store, k, c), e, c)| ==> Notify(Handlers(w.store, k, c), e, c)[i].handler < |w.queries|
  {
    var hs := Handlers(w.store, k, c);
    forall i | 0 <= i < |Notify(hs, e, c)|
      ensures Notify(hs, e, c)[i].handler < |w.queries|
    {
      assert Notify(hs, e, c)[i].handler == hs[i] && hs[i] in hs;
    }
  }

  /** A world with the same handler table and at least as many queries keeps every handler in range. */
  lemma SameHandlersInRange(w: World, w': World)
    requires HandlersInRange(w)
    requires w'.store.handlers == w.store.handlers && |w'.queries| >= |w.queries|
    ensures HandlersInRange(w')
  {
    forall k, c, x | x in Handlers(w'.store, k, c)
      ensures x < |w'.queries|
    {
      assert Handlers(w'.store, k, c) == Handlers(w.store, k, c);
    }
  }

  /** `components.add(entity, component, data)` with its handlers run. */
  function AddComponent(w: World, e: EntityId, c: ComponentId, d: ComponentData): (r: Result<World, StoreError>)
    requires HandlersInRange(w)
    ensures r.Success? ==> r.value.store == Add(w.store, e, c, d).0
    ensures r.Success? ==> r.value == w.(store := r.value.store, queries := r.value.queries) && |r.value.queries| == |w.queries|
    ensures r.Success? ==> HandlersInRange(r.value)
    ensures r.Success? ==> QueriesHeard(w.queries, r.value.queries, r.value.store, Handlers(w.store, OnAdd, c), e, c)
  {
    NotifiedHandlersInRange(w, OnAdd, e, c);
    AddFrame(w.store, e, c, d);
    var (s, ns) := Add(w.store, e, c, d);
    var qs :- Dispatch(w.queries, s, ns);
    HandlersNameQueries(w, OnAdd, c);
    DispatchNotifyHeard(w.queries, s, Handlers(w.store, OnAdd, c), e, c);
    SameHandlersInRange(w, w.(store := s, queries := qs));
    Success(w.(store := s, queries := qs))
  }

  /** `components.remove(entity, component)` with its handlers run. */
  function RemoveComponent(w: World, e: EntityId, c: ComponentId): (r: Result<World, StoreError>)
    requires HandlersInRange(w)
    ensures r.Success? ==> r.value.store == Remove(w.store, e, c).0
    ensures r.Success? ==> r.value == w.(store := r.value.store, queries := r.value.queries) && |r.value.queries| == |w.queries|
    ensures r.Success? ==> HandlersInRange(r.value)
    ensures r.Success? ==> QueriesHeard(w.queries, r.value.queries, r.value.store, Handlers(w.store, OnRemove, c), e, c)
  {
    NotifiedHandlersInRange(w, OnRemove, e, c);
    RemoveFrame(w.store, e, c);
    var (s, ns) := Remove(w.store, e, c);
    var qs :- Dispatch(w.queries, s, ns);
    HandlersNameQueries(w, OnRemove, c);
    DispatchNotifyHeard(w.queries, s, Handlers(w.store, OnRemove, c), e, c);
    SameHandlersInRange(w, w.(store := s, queries := qs));
    Success(w.(store := s, queries := qs))
  }

  /** A change to a stored component object, with its change handlers run; the store itself is untouched. */
  function ChangeComponent(w: World, e: EntityId, c: ComponentId): (r: Result<World, StoreError>)
    requires HandlersInRange(w)
    ensures r.Success? ==> r.value == w.(queries := r.value.queries) && |r.value.queries| == |w.queries|
    ensures r.Success? ==> HandlersInRange(r.value)
    ensures r.Success? ==> QueriesHeard(w.queries, r.value.queries, w.store, Handlers(w.store, OnChange, c), e, c)
  {
    NotifiedHandlersInRange(w, OnChange, e, c);
    var qs :- Dispatch(w.queries, w.store, Change(w.store, e, c));
    HandlersNameQueries(w, OnChange, c);
    DispatchNotifyHeard(w.queries, w.store, Handlers(w.store, OnChange, c), e, c);
    SameHandlersInRange(w, w.(queries := qs));
    Success(w.(queries := qs))
  }

  /**
   * A reactive query subscribed to additions of `c` shows `e` after `c` is
   * added to `e` when that addition completes `e` for it.
   */
  lemma AddComponentShowsCompleted(w: World, e: EntityId, c: ComponentId, d: ComponentData, j: nat)
    requires HandlersInRange(w)
    requires AddComponent(w, e, c, d).Success?
    requires j < |w.queries| && w.queries[j].kind.Reactive? && j in Handlers(w.store, OnAdd, c)
    requires Completes(w.queries[j], Add(w.store, e, c, d).0, e, c)
    ensures e in AddComponent(w, e, c, d).value.queries[j].rows
  {
    NotifiedHandlersInRange(w, OnAdd, e, c);
    NotifyReaches(Handlers(w.store, OnAdd, c), e, c, j);
    var (s, ns) := Add(w.store, e, c, d);
    DispatchReactiveShows(w.queries, s, ns, e, c, j);
  }

  /**
   * In a consistent store, adding a component the mask can tell apart never
   * fails when every query subscribed to its additions is a static query
   * whose mandatory columns are required; the store stays consistent, and
   * each such query shows the entity exactly when it passes the masks.
   */
  lemma AddComponentSucceeds(w: World, e: EntityId, c: ComponentId, d: ComponentData)
    requires HandlersInRange(w) && Consistent(w.store) && c < Width
    requires forall j :: j in Handlers(w.store, OnAdd, c) ==> j < |w.queries| && StaticReady(w.queries[j])
    ensures AddComponent(w, e, c, d).Success?
    ensures Consistent(AddComponent(w, e, c, d).value.store)
    ensures var r := AddComponent(w, e, c, d).value;
      forall j :: j in Handlers(w.store, OnAdd, c) ==> (e in r.queries[j].rows <==> MatchesMasks(w.queries[j], r.store.masks[e]))
  {
    var s := Add(w.store, e, c, d).0;
    AddKeepsConsistent(w.store, e, c, d);
    NotifiedHandlersInRange(w, OnAdd, e, c);
    forall j | 0 <= j < |w.queries| && !Untouched(Notify(Handlers(w.store, OnAdd, c), e, c), j)
      ensures StaticReady(w.queries[j])
    {
      NotifyReaches(Handlers(w.store, OnAdd, c), e, c, j);
    }
    DispatchStaticSucceeds(w.queries, s, Notify(Handlers(w.store, OnAdd, c), e, c), e);
  }

  /** The same for removing a component: it never fails, and the static queries that hear it follow the masks. */
  lemma RemoveComponentSucceeds(w: World, e: EntityId, c: ComponentId)
    requires HandlersInRange(w) && Consistent(w.store) && c < Width
    requires forall j :: j in Handlers(w.store, OnRemove, c) ==> j < |w.queries| && StaticReady(w.queries[j])
    ensures RemoveComponent(w, e, c).Success?
    ensures Consistent(RemoveComponent(w, e, c).value.store)
    ensures var r := RemoveComponent(w, e, c).value;
      forall j :: j in Handlers(w.store, OnRemove, c) ==> (e in r.queries[j].rows <==> MatchesMasks(w.queries[j], r.store.masks[e]))
  {
    var s := Remove(w.store, e, c).0;
    RemoveKeepsConsistent(w.store, e, c);
    NotifiedHandlersInRange(w, OnRemove, e, c);
    forall j | 0 <= j < |w.queries| && !Untouched(Notify(Handlers(w.store, OnRemove, c), e, c), j)
      ensures StaticReady(w.queries[j])
    {
      NotifyReaches(Handlers(w.store, OnRemove, c), e, c, j);
    }
    DispatchStaticSucceeds(w.queries, s, Notify(Handlers(w.store, OnRemove, c), e, c), e);
  }

  /** Builds a query in this world: the query is appended and its constructor's subscriptions made. */
  function AddQuery(w: World, q: EntityQuery): (r: (World, HandlerRef))
    requires HandlersInRange(w)
    requires q.kind.Reactive? ==> forall c :: c in q.kind.watchOrder ==> c in q.kind.watchers
    ensures r.1 == |w.queries| && r.0.queries == w.queries + [q]
    ensures HandlersInRange(r.0)
    ensures r.0.store.data == w.store.data && r.0.store.masks == w.store.masks
    ensures r.0.entityIds == w.entityIds && r.0.resources == w.resources
  {
    var h := |w.queries|;
    (w.(store := Subscribe(w.store, q, h), queries := w.queries + [q]), h)
  }

  // ---------------------------------------------------------------------
  // Executing commands

  /** One component of an add command: its class is looked up now, then the component is added. */
  function AddOne(w: World, reg: ComponentRegistry, e: EntityId, d: ComponentData): (r: Result<World, WorldError>)
    requires HandlersInRange(w)
    ensures r.Failure? && d.cls !in reg.classLookup ==> r.error == LookupFailed(NotRegistered(d.cls))
    ensures r.Success? ==> d.cls in reg.classLookup && TryGet(r.value.store, e, reg.classLookup[d.cls]) == Some(d)
    ensures r.Success? ==> HandlersInRange(r.value) && |r.value.queries| == |w.queries|
    ensures r.Success? ==> r.value.entityIds == w.entityIds && r.value.resources == w.resources
    ensures r.Success? ==> forall e': EntityId, c': ComponentId :: (e', c') != (e, reg.classLookup[d.cls]) ==> TryGet(r.value.store, e', c') == TryGet(w.store, e', c')
  {
    match LookupId(reg, d.cls)
    case Failure(err) => Failure(LookupFailed(err))
    case Success(c) =>
      AddFrame(w.store, e, c, d);
      match AddComponent(w, e, c, d)
      case Failure(err) => Failure(StoreFailed(err))
      case Success(w1) => Success(w1)
  }

  /** `AddComponentsCommand.execute`: the components one by one, in order. */
  function AddAll(w: World, reg: ComponentRegistry, e: EntityId, ds: seq<ComponentData>): (r: Result<World, WorldError>)
    requires HandlersInRange(w)
    ensures r.Success? ==> HandlersInRange(r.value) && |r.value.queries| == |w.queries|
    ensures r.Success? ==> r.value.entityIds == w.entityIds && r.value.resources == w.resources
    ensures r.Success? ==> forall e': EntityId, c': ComponentId :: e' != e ==> TryGet(r.value.store, e', c') == TryGet(w.store, e', c')
    ensures r.Success? ==> forall c': ComponentId :: TryGet(w.store, e, c').Some? ==> TryGet(r.value.store, e, c').Some?
    decreases |ds|
  {
    if |ds| == 0 then
      Success(w)
    else
      var w1 :- AddOne(w, reg, e, ds[0]);
      AddAll(w1, reg, e, ds[1..])
  }

  /** After a successful add command, every listed component's class is registered and stored on the entity. */
  lemma {:induction false} AddAllStoresEach(w: World, reg: ComponentRegistry, e: EntityId, ds: seq<ComponentData>)
    requires HandlersInRange(w)
    requires AddAll(w, reg, e, ds).Success?
    ensures forall i :: 0 <= i < |ds| ==>
      ds[i].cls in reg.classLookup && TryGet(AddAll(w, reg, e, ds).value.store, e, reg.classLookup[ds[i].cls]).Some?
    decreases |ds|
  {
    if |ds| > 0 {
      var w1 := AddOne(w, reg, e, ds[0]).value;
      AddAllStoresEach(w1, reg, e, ds[1..]);
      forall i | 1 <= i < |ds|
        ensures ds[i] == ds[1..][i - 1]
      {
      }
    }
  }

  /** One id of a remove command. */
  function RemoveOne(w: World, e: EntityId, c: ComponentId): (r: Result<World, WorldError>)
    requires HandlersInRange(w)
    ensures r.Success? ==> TryGet(r.value.store, e, c).None?
    ensures r.Success? ==> HandlersInRange(r.value) && |r.value.queries| == |w.queries|
    ensures r.Success? ==> r.value.entityIds == w.entityIds && r.value.resources == w.resources
    ensures r.Success? ==> forall e': EntityId, c': ComponentId :: (e', c') != (e, c) ==> TryGet(r.value.store, e', c') == TryGet(w.store, e', c')
  {
    RemoveFrame(w.store, e, c);
    match RemoveComponent(w, e, c)
    case Failure(err) => Failure(StoreFailed(err))
    case Success(w1) => Success(w1)
  }

  /** `RemoveComponentsCommand.execute`: removes each id in order. */
  function RemoveAll(w: World, e: EntityId, ids: seq<ComponentId>): (r: Result<World, WorldError>)
    requires HandlersInRange(w)
    ensures r.Success? ==> HandlersInRange(r.value) && |r.value.queries| == |w.queries|
    ensures r.Success? ==> r.value.entityIds == w.entityIds && r.value.resources == w.resources
    ensures r.Success? ==> forall i :: 0 <= i < |ids| ==> TryGet(r.value.store, e, ids[i]).None?
    ensures r.Success? ==> forall e': EntityId, c': ComponentId :: e' != e ==> TryGet(r.value.store, e', c') == TryGet(w.store, e', c')
    ensures r.Success? ==> forall c': ComponentId :: TryGet(w.store, e, c').None? ==> TryGet(r.value.store, e, c').None?
    decreases |ids|
  {
    if |ids| == 0 then
      Success(w)
    else
      var w1 :- RemoveOne(w, e, ids[0]);
      var w2 :- RemoveAll(w1, e, ids[1..]);
      assert forall i :: 1 <= i < |ids| ==> ids[i] == ids[1..][i - 1];
      Success(w2)
  }

  /** `Command.execute(world)`. */
  function Execute(w: World, reg: ComponentRegistry, cmd: Commands.Command): (r: Result<World, WorldError>)
    requires HandlersInRange(w)
    ensures r.Success? ==> HandlersInRange(r.value) && |r.value.queries| == |w.queries|
    ensures r.Success? ==> r.value.entityIds == w.entityIds && r.value.resources == w.resources
    ensures cmd.DespawnEntity? ==> r == Failure(RemoveAllMissing(cmd.entity))
    ensures r.Success? ==> forall e': EntityId, c': ComponentId :: e' != cmd.entity ==> TryGet(r.value.store, e', c') == TryGet(w.store, e', c')
  {
    match cmd
    case AddComponents(e, ds) => AddAll(w, reg, e, ds)
    case RemoveComponents(e, ids) => RemoveAll(w, e, ids)
    case DespawnEntity(e) => Failure(RemoveAllMissing(e))
  }

  /** Whether no command in the list is about entity `e`. */
  ghost predicate NoneAbout(cmds: seq<Commands.Command>, e: EntityId) {
    forall i :: 0 <= i < |cmds| ==> cmds[i].entity != e
  }

  /** Runs commands in order, stopping at the first failure. */
  function ExecuteAll(w: World, reg: ComponentRegistry, cmds: seq<Commands.Command>): (r: Result<World, WorldError>)
    requires HandlersInRange(w)
    ensures r.Success? ==> HandlersInRange(r.value) && |r.value.queries| == |w.queries|
    ensures r.Success? ==> r.value.entityIds == w.entityIds && r.value.resources == w.resources
    ensures r.Success? ==> forall e': EntityId, c': ComponentId :: NoneAbout(cmds, e') ==> TryGet(r.value.store, e', c') == TryGet(w.store, e', c')
    decreases |cmds|
  {
    if |cmds| == 0 then
      Success(w)
    else
      var w1 :- Execute(w, reg, cmds[0]);
      assert forall e' :: NoneAbout(cmds, e') ==> NoneAbout(cmds[1..], e') && cmds[0].entity != e';
      ExecuteAll(w1, reg, cmds[1..])
  }

  /** Running two command lists in a row is running their concatenation. */
  lemma {:induction false} ExecuteAllAppend(w: World, reg: ComponentRegistry, a: seq<Commands.Command>, b: seq<Commands.Command>)
    requires HandlersInRange(w)
    ensures ExecuteAll(w, reg, a + b) ==
      match ExecuteAll(w, reg, a)
      case Failure(err) => Failure(err)
      case Success(w1) => ExecuteAll(w1, reg, b)
    decreases |a|
  {
    if |a| == 0 {
      assert a + b == b;
    } else {
      assert (a + b)[0] == a[0];
      assert (a + b)[1..] == a[1..] + b;
      match Execute(w, reg, a[0])
      case Failure(_) =>
      case Success(w1) => ExecuteAllAppend(w1, reg, a[1..], b);
    }
  }

  // ---------------------------------------------------------------------
  // Applying a system's commands

  /**
   * `applyPending(cmd)` as written: it looks for `add` and `remove`
   * properties that no command object has, so no command runs; it only
   * empties the buffer.
   */
  function ApplyPendingAsWritten(w: World, cmds: Commands.SystemCommands): (r: (World, Commands.SystemCommands))
    ensures r.0 == w
    ensures |r.1.entities| == 0
  {
    (w, Commands.NewCommands())
  }

  /** `applyPending` as intended: every command runs, in issue order, then the buffer is emptied. */
  function ApplyPending(w: World, reg: ComponentRegistry, cmds: Commands.SystemCommands): (r: Result<(World, Commands.SystemCommands), WorldError>)
    requires HandlersInRange(w)
    ensures r.Success? ==> |r.value.1.entities| == 0
    ensures r.Success? ==> HandlersInRange(r.value.0) && |r.value.0.queries| == |w.queries|
    ensures r.Success? <==> ExecuteAll(w, reg, Commands.Flatten(cmds.entities)).Success?
    ensures r.Success? ==> r.value.0 == ExecuteAll(w, reg, Commands.Flatten(cmds.entities)).value
  {
    var w' :- ExecuteAll(w, reg, Commands.Flatten(cmds.entities));
    Success((w', Commands.NewCommands()))
  }

  /**
   * The discrepancy: a system spawns an entity with one component of a
   * registered class. As written the world is unchanged, so the entity has
   * no component; with the commands executed it has it.
   */
  lemma ApplyPendingDropsSpawn(w: World, reg: ComponentRegistry, d: ComponentData)
    requires WorldValid(w) && |w.queries| == 0 && d.cls in reg.classLookup
    ensures var (cmds, ids, e) := Commands.Spawn(Commands.NewCommands(), w.entityIds, [d]);
      var w0 := w.(entityIds := ids);
      && TryGet(ApplyPendingAsWritten(w0, cmds).0.store, e, reg.classLookup[d.cls]) == TryGet(w.store, e, reg.classLookup[d.cls])
      && ApplyPending(w0, reg, cmds).Success?
      && TryGet(ApplyPending(w0, reg, cmds).value.0.store, e, reg.classLookup[d.cls]) == Some(d)
  {
    var (cmds, ids, e) := Commands.Spawn(Commands.NewCommands(), w.entityIds, [d]);
    var w0 := w.(entityIds := ids);
    var c := reg.classLookup[d.cls];
    NotifiedHandlersInRange(w0, OnAdd, e, c);
    var ns := ComponentStore.Add(w0.store, e, c, d).1;
    assert |ns| == 0;
    var w1 := AddComponent(w0, e, c, d).value;
    assert AddAll(w0, reg, e, [d]) == Success(w1);
    assert Commands.Flatten(cmds.entities) == [Commands.AddComponents(e, [d])];
    assert ExecuteAll(w0, reg, [Commands.AddComponents(e, [d])]) == ExecuteAll(w1, reg, []);
  }

  /** Commands about one entity never touch another entity's components. */
  lemma ApplyPendingOnlyTouchesCommandedEntities(w: World, reg: ComponentRegistry, cmds: Commands.SystemCommands, e: EntityId, c: ComponentId)
    requires HandlersInRange(w)
    requires forall i :: 0 <= i < |cmds.entities| ==> cmds.entities[i].id != e
    requires Commands.WellFiled(cmds)
    requires ApplyPending(w, reg, cmds).Success?
    ensures TryGet(ApplyPending(w, reg, cmds).value.0.store, e, c) == TryGet(w.store, e, c)
  {
    FlattenFiled(cmds.entities, e);
  }

  /** A buffer whose handles are for other entities holds no command about `e`. */
  lemma {:induction false} FlattenFiled(es: seq<Commands.EntityCommands>, e: EntityId)
    requires forall i :: 0 <= i < |es| ==> es[i].id != e
    requires forall i, j :: 0 <= i < |es| && 0 <= j < |es[i].pending| ==> es[i].pending[j].entity == es[i].id
    ensures NoneAbout(Commands.Flatten(es), e)
    decreases |es|
  {
    if |es| > 0 {
      FlattenFiled(es[1..], e);
      assert Commands.Flatten(es) == es[0].pending + Commands.Flatten(es[1..]);
      forall i | 0 <= i < |Commands.Flatten(es)|
        ensures Commands.Flatten(es)[i].entity != e
      {
        if i < |es[0].pending| {
          assert Commands.Flatten(es)[i] == es[0].pending[i];
        } else {
          assert Commands.Flatten(es)[i] == Commands.Flatten(es[1..])[i - |es[0].pending|];
        }
      }
    }
  }
  // ---------------------------------------------------------------------
  // Masks belong to issued ids

  /** An add command creates a mask for its own entity only. */
  lemma {:induction false} AddAllKeepsMasksIssued(w: World, reg: ComponentRegistry, e: EntityId, ds: seq<ComponentData>, p: IdProvider)
    requires HandlersInRange(w)
    requires MasksIssued(w.store, p) && Issued(p, e)
    requires AddAll(w, reg, e, ds).Success?
    ensures MasksIssued(AddAll(w, reg, e, ds).value.store, p)
    decreases |ds|
  {
    if |ds| > 0 {
      var c := reg.classLookup[ds[0].cls];
      var w1 := AddOne(w, reg, e, ds[0]).value;
      assert w1 == AddComponent(w, e, c, ds[0]).value;
      assert w1.store.masks.Keys == w.store.masks.Keys + {e};
      AddAllKeepsMasksIssued(w1, reg, e, ds[1..], p);
    }
  }

  /** A remove command creates a mask for its own entity only. */
  lemma {:induction false} RemoveAllKeepsMasksIssued(w: World, e: EntityId, ids: seq<ComponentId>, p: IdProvider)
    requires HandlersInRange(w)
    requires MasksIssued(w.store, p) && Issued(p, e)
    requires RemoveAll(w, e, ids).Success?
    ensures MasksIssued(RemoveAll(w, e, ids).value.store, p)
    decreases |ids|
  {
    if |ids| > 0 {
      var w1 := RemoveOne(w, e, ids[0]).value;
      assert w1 == RemoveComponent(w, e, ids[0]).value;
      assert w1.store.masks.Keys == w.store.masks.Keys + {e};
      RemoveAllKeepsMasksIssued(w1, e, ids[1..], p);
    }
  }

  /** Commands about issued entities only give masks to issued entities. */
  lemma {:induction false} ExecuteAllKeepsMasksIssued(w: World, reg: ComponentRegistry, cmds: seq<Commands.Command>, p: IdProvider)
    requires HandlersInRange(w)
    requires MasksIssued(w.store, p)
    requires forall i :: 0 <= i < |cmds| ==> Issued(p, cmds[i].entity)
    requires ExecuteAll(w, reg, cmds).Success?
    ensures MasksIssued(ExecuteAll(w, reg, cmds).value.store, p)
    decreases |cmds|
  {
    if |cmds| > 0 {
      var w1 := Execute(w, reg, cmds[0]).value;
      match cmds[0] {
        case AddComponents(e, ds) => AddAllKeepsMasksIssued(w, reg, e, ds, p);
        case RemoveComponents(e, ids) => RemoveAllKeepsMasksIssued(w, e, ids, p);
      }
      assert forall i :: 1 <= i < |cmds| ==> cmds[i] == cmds[1..][i - 1];
      ExecuteAllKeepsMasksIssued(w1, reg, cmds[1..], p);
    }
  }

  /**
   * Applying a buffer whose handles are all for issued ids keeps the world
   * valid: in particular no mask appears for an id not yet handed out, so
   * the next `createEmptyEntity` still returns an entity without a mask.
   */
  lemma ApplyPendingKeepsValid(w: World, reg: ComponentRegistry, cmds: Commands.SystemCommands)
    requires WorldValid(w) && Commands.WellFiled(cmds)
    requires forall i :: 0 <= i < |cmds.entities| ==> Issued(w.entityIds, cmds.entities[i].id)
    requires ApplyPending(w, reg, cmds).Success?
    ensures WorldValid(ApplyPending(w, reg, cmds).value.0)
  {
    var flat := Commands.Flatten(cmds.entities);
    forall k | 0 <= k < |flat|
      ensures Issued(w.entityIds, flat[k].entity)
    {
      assert flat[k] in flat;
      var i :| 0 <= i < |cmds.entities| && flat[k] in cmds.entities[i].pending;
      var j :| 0 <= j < |cmds.entities[i].pending| && cmds.entities[i].pending[j] == flat[k];
    }
    ExecuteAllKeepsMasksIssued(w, reg, flat, w.entityIds);
  }
}
