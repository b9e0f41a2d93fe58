/**
 * Entity queries (src/query/entity.ts): the builder that folds `select`,
 * `hasAll`, `hasSome`, `hasNone` and the modifiers into masks, watchers and
 * extractors, and the two query state machines it produces.
 *
 * A static query re-tests an entity whenever one of its selected components
 * is added or removed. A reactive query collects, per entity, which watched
 * components fired, and shows the entity once all of them have.
 */
module EntityQueries {
  import opened Wrappers
  import opened Ids
  import opened ComponentMask
  import opened Registries
  import opened ComponentStore

  // ---------------------------------------------------------------------
  // Data

  /** How one column of a result row is produced. */
  datatype Extractor = ExtractId | ExtractComponent(component: ComponentId, optional: bool)

  /** One column of a result row; `Undefined` is what an absent optional component reads as. */
  datatype Cell = IdCell(id: EntityId) | DataCell(data: ComponentData) | Undefined

  type Row = seq<Cell>

  datatype WatchStatus = WatchStatus(changed: bool, added: bool, removed: bool)

  /** `QueryComponent`: the component most recently selected, with its modifiers. */
  datatype QueryComponent = QueryComponent(component: ComponentId, optional: bool, changed: bool, added: bool, removed: bool)

  predicate IsReactive(q: QueryComponent) {
    q.changed || q.added || q.removed
  }

  /**
   * `EntityQueryBuilderImpl`. `watchOrder` keeps the insertion order of the
   * `watchers` map; `queried` is the insertion-ordered set of selected ids.
   */
  datatype Builder = Builder(
    includes: Mask,
    excludes: Mask,
    someMasks: seq<Mask>,
    watchOrder: seq<ComponentId>,
    watchers: map<ComponentId, WatchStatus>,
    queried: seq<ComponentId>,
    extractors: seq<Extractor>,
    current: Option<QueryComponent>)

  datatype BuilderError = NoCurrentComponent | Unregistered(cls: ClassRef)

  datatype Kind =
    | Static(queried: seq<ComponentId>)
    | Reactive(watchOrder: seq<ComponentId>, watchers: map<ComponentId, WatchStatus>, pending: map<EntityId, set<ComponentId>>)

  /** `EntityQueryImpl` with its two subclasses told apart by `kind`; `rows` is the `entities` map. */
  datatype EntityQuery = EntityQuery(
    includes: Mask,
    excludes: Mask,
    someMasks: seq<Mask>,
    extractors: seq<Extractor>,
    kind: Kind,
    rows: map<EntityId, Row>)

  // ---------------------------------------------------------------------
  // Builder

  function NewBuilder(): (b: Builder)
    ensures BuilderWellFormed(b)
    ensures Members(b.includes) == {} && Members(b.excludes) == {}
  {
    FreshIncludesNothing(0);
    Builder(Empty, Empty, [], [], map[], [], [], None)
  }

  /**
   * The builder invariant: every non-optional component column is either
   * required by the includes mask or watched, and the watcher order lists
   * exactly the watched ids, once each.
   */
  ghost predicate BuilderWellFormed(b: Builder) {
    && (forall i :: 0 <= i < |b.extractors| && b.extractors[i].ExtractComponent? && !b.extractors[i].optional ==>
          Includes(b.includes, b.extractors[i].component) || b.extractors[i].component in b.watchers)
    && (forall c :: c in b.watchers <==> c in b.watchOrder)
    && (forall i, j :: 0 <= i < j < |b.watchOrder| ==> b.watchOrder[i] != b.watchOrder[j])
  }

  /** Appends `c` unless it is already present: `Set.add` on an insertion-ordered set. */
  function AddUnique(xs: seq<ComponentId>, c: ComponentId): (r: seq<ComponentId>)
    ensures c in r
    ensures forall x :: x in r <==> x in xs || x == c
    ensures c !in xs ==> r == xs + [c]
    ensures c in xs ==> r == xs
  {
    if c in xs then xs else xs + [c]
  }

  /**
   * `finaliseCurrent()`: a selected component that is neither optional nor
   * reactive becomes required; every selected component becomes queried and
   * gets its column; a reactive one becomes watched.
   */
  function FinaliseCurrent(b: Builder): (r: Builder)
    ensures r.current.None?
    ensures r.excludes == b.excludes && r.someMasks == b.someMasks
    ensures b.current.None? ==> r == b
    ensures b.current.Some? ==>
      var q := b.current.value;
      var required := !q.optional && !IsReactive(q);
      && r.extractors == b.extractors + [ExtractComponent(q.component, q.optional)]
      && Members(r.includes) == Members(b.includes) + (if required then {q.component % 32} else {})
      && (required ==> Includes(r.includes, q.component))
      && (forall j: nat :: Includes(b.includes, j) ==> Includes(r.includes, j))
      && r.queried == AddUnique(b.queried, q.component)
      && (IsReactive(q) ==>
            && r.watchOrder == AddUnique(b.watchOrder, q.component)
            && r.watchers == b.watchers[q.component := WatchStatus(q.changed, q.added, q.removed)])
      && (!IsReactive(q) ==> r.watchOrder == b.watchOrder && r.watchers == b.watchers)
  {
    match b.current
    case None => b
    case Some(q) =>
      var required := !q.optional && !IsReactive(q);
      var includes := if required then Set(b.includes, q.component, true) else b.includes;
      SetOnIsMonotone(b.includes, q.component);
      SetMembers(b.includes, q.component, true);
      var watchOrder := if IsReactive(q) then AddUnique(b.watchOrder, q.component) else b.watchOrder;
      var watchers := if IsReactive(q) then b.watchers[q.component := WatchStatus(q.changed, q.added, q.removed)] else b.watchers;
      Builder(includes, b.excludes, b.someMasks, watchOrder, watchers,
              AddUnique(b.queried, q.component), b.extractors + [ExtractComponent(q.component, q.optional)], None)
  }

  /**
   * `selectId()`, as written: pushes the id column at once, without
   * finalising the current component, whose column therefore lands after
   * the id column although the builder's result type puts it before.
   */
  function SelectIdAsWritten(b: Builder): (r: Builder)
    ensures r.extractors == b.extractors + [ExtractId]
    ensures r.current == b.current
  {
    b.(extractors := b.extractors + [ExtractId])
  }

  /** `selectId()` with the column order its result type promises: the current component's column first. */
  function SelectId(b: Builder): (r: Builder)
    ensures r.current.None?
    ensures b.current.Some? ==> r.extractors == b.extractors + [ExtractComponent(b.current.value.component, b.current.value.optional), ExtractId]
    ensures b.current.None? ==> r.extractors == b.extractors + [ExtractId]
  {
    var f := FinaliseCurrent(b);
    f.(extractors := f.extractors + [ExtractId])
  }

  /** `select(cls)`: finalises the current component, then selects `cls`. */
  function Select(b: Builder, reg: ComponentRegistry, cls: ClassRef): (r: Result<Builder, BuilderError>)
    ensures r.Failure? <==> cls !in reg.classLookup
    ensures r.Success? ==> r.value.current == Some(QueryComponent(reg.classLookup[cls], false, false, false, false))
    ensures r.Success? ==> r.value == FinaliseCurrent(b).(current := r.value.current)
  {
    var f := FinaliseCurrent(b);
    match LookupId(reg, cls)
    case Failure(_) => Failure(Unregistered(cls))
    case Success(id) => Success(f.(current := Some(QueryComponent(id, false, false, false, false))))
  }

  /** `hasAll(...classes)`: every listed component becomes required. */
  function HasAll(b: Builder, reg: ComponentRegistry, classes: seq<ClassRef>): (r: Result<Builder, BuilderError>)
    ensures r.Failure? <==> LookupIds(reg, classes).Failure?
    ensures r.Success? ==>
      && Members(r.value.includes) == Members(b.includes) + IdSet(LookupIds(reg, classes).value)
      && (forall j: nat :: Includes(b.includes, j) ==> Includes(r.value.includes, j))
      && r.value == b.(includes := r.value.includes)
  {
    match LookupIds(reg, classes)
    case Failure(err) => Failure(Unregistered(err.cls))
    case Success(ids) => Success(b.(includes := With(b.includes, ids)))
  }

  /** `hasSome(...classes)`: one more group, of which an entity must have at least one member. */
  function HasSome(b: Builder, reg: ComponentRegistry, classes: seq<ClassRef>): (r: Result<Builder, BuilderError>)
    ensures r.Failure? <==> LookupIds(reg, classes).Failure?
    ensures r.Success? ==>
      && |r.value.someMasks| == |b.someMasks| + 1
      && r.value.someMasks[..|b.someMasks|] == b.someMasks
      && Members(r.value.someMasks[|b.someMasks|]) == IdSet(LookupIds(reg, classes).value)
      && r.value == b.(someMasks := r.value.someMasks)
  {
    match LookupIds(reg, classes)
    case Failure(err) => Failure(Unregistered(err.cls))
    case Success(ids) =>
      FreshIncludesNothing(0);
      Success(b.(someMasks := b.someMasks + [With(Empty, ids)]))
  }

  /** `hasNone(...classes)`: every listed component becomes forbidden. */
  function HasNone(b: Builder, reg: ComponentRegistry, classes: seq<ClassRef>): (r: Result<Builder, BuilderError>)
    ensures r.Failure? <==> LookupIds(reg, classes).Failure?
    ensures r.Success? ==>
      && Members(r.value.excludes) == Members(b.excludes) + IdSet(LookupIds(reg, classes).value)
      && r.value == b.(excludes := r.value.excludes)
  {
    match LookupIds(reg, classes)
    case Failure(err) => Failure(Unregistered(err.cls))
    case Success(ids) => Success(b.(excludes := With(b.excludes, ids)))
  }

  /** The selected-component modifiers; `Writable` only marks the result type. */
  datatype Modifier = Optional | Writable | Changed | Added | Removed

  /** `optional()`, `writable()`, `changed()`, `added()`, `removed()`. */
  function Modify(b: Builder, m: Modifier): (r: Result<Builder, BuilderError>)
    ensures r.Failure? <==> b.current.None?
    ensures r.Failure? ==> r.error == NoCurrentComponent
    ensures r.Success? ==> r.value == b.(current := r.value.current) && r.value.current.Some?
    ensures r.Success? ==>
      var q := b.current.value;
      var q' := r.value.current.value;
      && q'.component == q.component
      && q'.optional == (q.optional || m == Optional)
      && q'.changed == (q.changed || m == Changed)
      && q'.added == (q.added || m == Added)
      && q'.removed == (q.removed || m == Removed)
  {
    match b.current
    case None => Failure(NoCurrentComponent)
    case Some(q) =>
      var q' := match m
        case Optional => q.(optional := true)
        case Writable => q
        case Changed => q.(changed := true)
        case Added => q.(added := true)
        case Removed => q.(removed := true);
      Success(b.(current := Some(q')))
  }

  /** `query()`: finalises and builds a reactive query exactly when some component is watched. */
  function Build(b: Builder): (q: EntityQuery)
    ensures q.rows == map[]
    ensures q.kind.Reactive? <==> |FinaliseCurrent(b).watchOrder| > 0
    ensures q.kind.Static? ==> q.kind.queried == FinaliseCurrent(b).queried
    ensures q.kind.Reactive? ==> q.kind.pending == map[] && q.kind.watchers == FinaliseCurrent(b).watchers
    ensures q.includes == FinaliseCurrent(b).includes && q.excludes == b.excludes && q.someMasks == b.someMasks
    ensures q.extractors == FinaliseCurrent(b).extractors
  {
    var f := FinaliseCurrent(b);
    var kind := if |f.watchOrder| > 0 then Reactive(f.watchOrder, f.watchers, map[]) else Static(f.queried);
    EntityQuery(f.includes, f.excludes, f.someMasks, f.extractors, kind, map[])
  }

  // ---------------------------------------------------------------------
  // Queries

  /** `count`: the number of result rows. */
  function Count(q: EntityQuery): (n: nat)
    ensures n == |q.rows.Keys|
  {
    |q.rows|
  }

  /** `get(entity)`: the entity's row, or `undefined`. */
  function GetRow(q: EntityQuery, e: EntityId): (r: Option<Row>)
    ensures r.Some? <==> e in q.rows
    ensures r.Some? ==> r.value == q.rows[e]
  {
    if e in q.rows then Some(q.rows[e]) else None
  }

  /** Every group of `hasSome` shares a member with the mask. */
  function MeetsEveryGroup(mask: Mask, groups: seq<Mask>): (r: bool)
    ensures r <==> forall i :: 0 <= i < |groups| ==> Members(mask) * Members(groups[i]) != {}
  {
    if |groups| == 0 then true
    else
      assert forall i :: 1 <= i < |groups| ==> groups[i] == groups[1..][i - 1];
      IncludesSome(mask, groups[0]) && MeetsEveryGroup(mask, groups[1..])
  }

  /** The membership test, in terms of component sets. */
  ghost predicate MatchesMasks(q: EntityQuery, mask: Mask) {
    && Members(q.includes) <= Members(mask)
    && Members(mask) * Members(q.excludes) == {}
    && forall i :: 0 <= i < |q.someMasks| ==> Members(mask) * Members(q.someMasks[i]) != {}
  }

  /**
   * `testMasks(entity)`: the entity has every required component, no
   * forbidden one and one of each group. Fails when the entity has no mask.
   */
  function TestMasks(q: EntityQuery, s: Store, e: EntityId): (r: Result<bool, StoreError>)
    ensures r.Failure? <==> e !in s.masks
    ensures r.Failure? ==> r.error == MissingEntity(e)
    ensures r.Success? ==> (r.value <==> MatchesMasks(q, s.masks[e]))
  {
    var mask :- GetMask(s, e);
    Success(IncludesAll(mask, q.includes) && ExcludesAll(mask, q.excludes) && MeetsEveryGroup(mask, q.someMasks))
  }

  /** Runs the extractors in order; a non-optional component that is absent fails the whole row. */
  function Extract(s: Store, e: EntityId, xs: seq<Extractor>): (r: Result<Row, StoreError>)
    ensures r.Success? <==> forall i :: 0 <= i < |xs| && xs[i].ExtractComponent? && !xs[i].optional ==> TryGet(s, e, xs[i].component).Some?
    ensures r.Success? ==> |r.value| == |xs|
    ensures r.Success? ==> forall i :: 0 <= i < |xs| ==> r.value[i] == CellFor(s, e, xs[i])
  {
    if |xs| == 0 then
      Success([])
    else
      assert forall i :: 1 <= i < |xs| ==> xs[i] == xs[1..][i - 1];
      match ExtractOne(s, e, xs[0])
      case Failure(err) => Failure(err)
      case Success(cell) =>
        match Extract(s, e, xs[1..])
        case Failure(err) => Failure(err)
        case Success(rest) => Success([cell] + rest)
  }

  /** What one extractor yields when it succeeds. */
  ghost function CellFor(s: Store, e: EntityId, x: Extractor): Cell {
    match x
    case ExtractId => IdCell(e)
    case ExtractComponent(c, _) => if (e, c) in s.data then DataCell(s.data[(e, c)]) else Undefined
  }

  /** One extractor: the id, `tryGet` for an optional component, `get` otherwise. */
  function ExtractOne(s: Store, e: EntityId, x: Extractor): (r: Result<Cell, StoreError>)
    ensures r.Failure? <==> x.ExtractComponent? && !x.optional && TryGet(s, e, x.component).None?
    ensures r.Failure? ==> r.error == MissingComponent(e, x.component)
    ensures r.Success? ==> r.value == CellFor(s, e, x)
  {
    match x
    case ExtractId => Success(IdCell(e))
    case ExtractComponent(c, optional) =>
      if optional then
        match TryGet(s, e, c)
        case Some(d) => Success(DataCell(d))
        case None => Success(Undefined)
      else
        var d :- ComponentStore.Get(s, e, c);
        Success(DataCell(d))
  }

  /** `addEntity(entity)`: extracts the row and stores it, replacing an older one. */
  function AddEntity(q: EntityQuery, s: Store, e: EntityId): (r: Result<EntityQuery, StoreError>)
    ensures r.Success? <==> Extract(s, e, q.extractors).Success?
    ensures r.Success? ==> r.value == q.(rows := q.rows[e := Extract(s, e, q.extractors).value])
  {
    var row :- Extract(s, e, q.extractors);
    Success(q.(rows := q.rows[e := row]))
  }

  /** `removeEntity(entity)`. */
  function RemoveEntity(q: EntityQuery, e: EntityId): (r: EntityQuery)
    ensures e !in r.rows
    ensures forall e' :: e' != e ==> GetRow(r, e') == GetRow(q, e')
    ensures r == q.(rows := r.rows)
  {
    q.(rows := q.rows - {e})
  }

  /** `StaticEntityQuery.onComponentAddedOrRemoved`: re-test the entity and show or hide it. */
  function OnStaticEvent(q: EntityQuery, s: Store, e: EntityId): (r: Result<EntityQuery, StoreError>)
    ensures r.Failure? <==> e !in s.masks || (MatchesMasks(q, s.masks[e]) && Extract(s, e, q.extractors).Failure?)
    ensures r.Success? ==> (e in r.value.rows <==> TestMasks(q, s, e).value)
    ensures r.Success? ==> forall e' :: e' != e ==> GetRow(r.value, e') == GetRow(q, e')
    ensures r.Success? ==> r.value == q.(rows := r.value.rows)
  {
    var ok :- TestMasks(q, s, e);
    if ok then AddEntity(q, s, e) else Success(RemoveEntity(q, e))
  }

  /** Every watched component has been recorded for the entity. */
  ghost predicate AllWatchedFired(watchOrder: seq<ComponentId>, fired: set<ComponentId>) {
    forall c :: c in watchOrder ==> c in fired
  }

  /**
   * Whether a reactive query's event for `c` on `e` completes the entity:
   * the entity passes the masks and, with `c`, every watched component has
   * fired for it.
   */
  ghost predicate Completes(q: EntityQuery, s: Store, e: EntityId, c: ComponentId)
    requires q.kind.Reactive?
  {
    e in s.masks && MatchesMasks(q, s.masks[e]) && AllWatchedFired(q.kind.watchOrder, Fired(q, e) + {c})
  }

  /**
   * `ReactiveEntityQuery.updatePendingAndTryAdd`: an entity that fails the
   * masks is ignored; otherwise the component is recorded, and once every
   * watched component has been recorded for the entity its pending entry is
   * dropped and its row is added.
   */
  function UpdatePendingAndTryAdd(q: EntityQuery, s: Store, e: EntityId, c: ComponentId): (r: Result<EntityQuery, StoreError>)
    requires q.kind.Reactive?
    ensures r.Failure? <==> e !in s.masks || (Completes(q, s, e, c) && Extract(s, e, q.extractors).Failure?)
    ensures r.Success? && !TestMasks(q, s, e).value ==> r.value == q
    ensures r.Success? && TestMasks(q, s, e).value ==>
      var fired := Fired(q, e) + {c};
      && r.value.kind.Reactive?
      && r.value.kind.watchOrder == q.kind.watchOrder && r.value.kind.watchers == q.kind.watchers
      && (AllWatchedFired(q.kind.watchOrder, fired) ==>
            && r.value.kind.pending == q.kind.pending - {e}
            && r.value.rows == q.rows[e := Extract(s, e, q.extractors).value])
      && (!AllWatchedFired(q.kind.watchOrder, fired) ==>
            r.value.kind.pending == q.kind.pending[e := fired] && r.value.rows == q.rows)
    ensures r.Success? ==> SameShape(q, r.value)
  {
    var ok :- TestMasks(q, s, e);
    if !ok then
      Success(q)
    else
      var fired := Fired(q, e) + {c};
      if forall w :: w in q.kind.watchOrder ==> w in fired then
        AddEntity(q.(kind := q.kind.(pending := q.kind.pending - {e})), s, e)
      else
        Success(q.(kind := q.kind.(pending := q.kind.pending[e := fired])))
  }

  /** The watched components recorded so far for an entity. */
  function Fired(q: EntityQuery, e: EntityId): set<ComponentId>
    requires q.kind.Reactive?
  {
    if e in q.kind.pending then q.kind.pending[e] else {}
  }

  /**
   * Whether a notification makes the query (re)build the entity's row: a
   * static query does so whenever the entity passes the masks, a reactive
   * one when the event completes the entity.
   */
  ghost predicate Inserts(q: EntityQuery, s: Store, n: Notification) {
    match q.kind
    case Static(_) => n.entity in s.masks && MatchesMasks(q, s.masks[n.entity])
    case Reactive(_, _, _) => Completes(q, s, n.entity, n.component)
  }

  /** Delivers one store notification to the query's handler. */
  function Handle(q: EntityQuery, s: Store, n: Notification): (r: Result<EntityQuery, StoreError>)
    ensures r.Failure? <==> n.entity !in s.masks || (Inserts(q, s, n) && Extract(s, n.entity, q.extractors).Failure?)
    ensures r.Success? ==> SameShape(q, r.value)
    ensures r.Success? && Inserts(q, s, n) ==> r.value.rows == q.rows[n.entity := Extract(s, n.entity, q.extractors).value]
    ensures r.Success? && !Inserts(q, s, n) && q.kind.Static? ==> r.value.rows == q.rows - {n.entity}
    ensures r.Success? && !Inserts(q, s, n) && q.kind.Reactive? ==> r.value.rows == q.rows
    ensures r.Success? && q.kind.Static? ==> (n.entity in r.value.rows <==> TestMasks(q, s, n.entity) == Success(true))
  {
    match q.kind
    case Static(_) => OnStaticEvent(q, s, n.entity)
    case Reactive(_, _, _) => UpdatePendingAndTryAdd(q, s, n.entity, n.component)
  }

  /** `beforeSystem()`: no query state changes. */
  function BeforeSystem(q: EntityQuery): (r: EntityQuery)
    ensures r == q
  {
    q
  }

  /** `afterSystem()`: a reactive query empties its rows and keeps its pending records. */
  function AfterSystem(q: EntityQuery): (r: EntityQuery)
    ensures q.kind.Static? ==> r == q
    ensures q.kind.Reactive? ==> r.rows == map[] && r.kind == q.kind && Count(r) == 0
    ensures r == q.(rows := r.rows)
  {
    match q.kind
    case Static(_) => q
    case Reactive(_, _, _) => q.(rows := map[])
  }

  /** Handling events never changes what a query selects or how it filters: only rows and pending records move. */
  ghost predicate SameShape(q: EntityQuery, r: EntityQuery) {
    && r.includes == q.includes && r.excludes == q.excludes && r.someMasks == q.someMasks
    && r.extractors == q.extractors && r.kind.Static? == q.kind.Static?
    && (q.kind.Static? ==> r.kind == q.kind)
    && (q.kind.Reactive? ==> r.kind.watchOrder == q.kind.watchOrder && r.kind.watchers == q.kind.watchers)
  }

  // ---------------------------------------------------------------------
  // Subscription

  /**
   * The constructors' subscriptions: a static query registers one handler
   * for add and remove of each selected component; a reactive query
   * registers for the kinds of event each watched component asks for.
   */
  function Subscribe(s: Store, q: EntityQuery, h: HandlerRef): (r: Store)
    requires q.kind.Reactive? ==> forall c :: c in q.kind.watchOrder ==> c in q.kind.watchers
    ensures r.data == s.data && r.masks == s.masks
    ensures forall k, c, x :: x in Handlers(r, k, c) ==> x == h || x in Handlers(s, k, c)
  {
    match q.kind
    case Static(queried) => SubscribeStatic(s, queried, h)
    case Reactive(order, watchers, _) => SubscribeReactive(s, order, watchers, h)
  }

  function SubscribeStatic(s: Store, ids: seq<ComponentId>, h: HandlerRef): (r: Store)
    ensures r.data == s.data && r.masks == s.masks
    ensures forall k, c, x :: x in Handlers(r, k, c) ==> x == h || x in Handlers(s, k, c)
    ensures forall k, c :: c !in ids ==> Handlers(r, k, c) == Handlers(s, k, c)
    ensures forall c :: Handlers(r, OnChange, c) == Handlers(s, OnChange, c)
    decreases |ids|
  {
    if |ids| == 0 then
      s
    else
      var s1 := ComponentStore.Register(ComponentStore.Register(s, OnAdd, ids[0], h), OnRemove, ids[0], h);
      SubscribeStatic(s1, ids[1..], h)
  }

  /** A static query's handler ends up registered for add and remove of every selected component. */
  lemma {:induction false} StaticSubscribesSelected(s: Store, ids: seq<ComponentId>, h: HandlerRef, c: ComponentId)
    requires c in ids
    ensures h in Handlers(SubscribeStatic(s, ids, h), OnAdd, c) && h in Handlers(SubscribeStatic(s, ids, h), OnRemove, c)
    decreases |ids|
  {
    var s1 := ComponentStore.Register(ComponentStore.Register(s, OnAdd, ids[0], h), OnRemove, ids[0], h);
    if c == ids[0] {
      SubscribeKeeps(s1, ids[1..], h, c);
    } else {
      StaticSubscribesSelected(s1, ids[1..], h, c);
    }
  }

  /** Later registrations never drop a handler. */
  lemma {:induction false} SubscribeKeeps(s: Store, ids: seq<ComponentId>, h: HandlerRef, c: ComponentId)
    requires h in Handlers(s, OnAdd, c) && h in Handlers(s, OnRemove, c)
    ensures h in Handlers(SubscribeStatic(s, ids, h), OnAdd, c) && h in Handlers(SubscribeStatic(s, ids, h), OnRemove, c)
    decreases |ids|
  {
    if |ids| > 0 {
      var s1 := ComponentStore.Register(ComponentStore.Register(s, OnAdd, ids[0], h), OnRemove, ids[0], h);
      SubscribeKeeps(s1, ids[1..], h, c);
    }
  }

  function SubscribeReactive(s: Store, order: seq<ComponentId>, watchers: map<ComponentId, WatchStatus>, h: HandlerRef): (r: Store)
    requires forall c :: c in order ==> c in watchers
    ensures r.data == s.data && r.masks == s.masks
    ensures forall k, c, x :: x in Handlers(r, k, c) ==> x == h || x in Handlers(s, k, c)
    ensures forall k, c :: c !in order ==> Handlers(r, k, c) == Handlers(s, k, c)
    decreases |order|
  {
    if |order| == 0 then
      s
    else
      SubscribeReactive(SubscribeWatched(s, order[0], watchers[order[0]], h), order[1..], watchers, h)
  }

  /** The registrations for one watched component: add, then remove, then change, as its flags ask. */
  function SubscribeWatched(s: Store, c: ComponentId, w: WatchStatus, h: HandlerRef): (r: Store)
    ensures r.data == s.data && r.masks == s.masks
    ensures forall k, c, x :: x in Handlers(r, k, c) ==> x == h || x in Handlers(s, k, c)
    ensures w.added ==> h in Handlers(r, OnAdd, c)
    ensures w.removed ==> h in Handlers(r, OnRemove, c)
    ensures w.changed ==> h in Handlers(r, OnChange, c)
    ensures forall k, c' :: (c' != c || !Wants(w, k)) ==> Handlers(r, k, c') == Handlers(s, k, c')
    ensures forall k, c' :: h in Handlers(s, k, c') ==> h in Handlers(r, k, c')
  {
    var s1 := if w.added then ComponentStore.Register(s, OnAdd, c, h) else s;
    var s2 := if w.removed then ComponentStore.Register(s1, OnRemove, c, h) else s1;
    if w.changed then ComponentStore.Register(s2, OnChange, c, h) else s2
  }

  /** Whether a watch status asks for events of the given kind. */
  function Wants(w: WatchStatus, k: HandlerKind): bool {
    match k
    case OnAdd => w.added
    case OnRemove => w.removed
    case OnChange => w.changed
  }

  /**
   * A reactive query's handler is registered for an event kind on a watched
   * component exactly when that component's modifiers ask for it.
   */
  lemma {:induction false} ReactiveSubscribesByFlag(s: Store, order: seq<ComponentId>, watchers: map<ComponentId, WatchStatus>, h: HandlerRef, k: HandlerKind, c: ComponentId)
    requires forall c :: c in order ==> c in watchers
    requires c in order && h !in Handlers(s, k, c)
    ensures h in Handlers(SubscribeReactive(s, order, watchers, h), k, c) <==> Wants(watchers[c], k)
    decreases |order|
  {
    var s1 := SubscribeWatched(s, order[0], watchers[order[0]], h);
    if order[0] == c {
      ReactiveSubscribeKeeps(s1, order[1..], watchers, h, k, c);
    } else {
      ReactiveSubscribesByFlag(s1, order[1..], watchers, h, k, c);
    }
  }

  /** Later registrations of a reactive query never drop one, and never add one that is not wanted. */
  lemma {:induction false} ReactiveSubscribeKeeps(s: Store, order: seq<ComponentId>, watchers: map<ComponentId, WatchStatus>, h: HandlerRef, k: HandlerKind, c: ComponentId)
    requires forall c :: c in order ==> c in watchers
    requires c in watchers
    ensures h in Handlers(s, k, c) ==> h in Handlers(SubscribeReactive(s, order, watchers, h), k, c)
    ensures h !in Handlers(s, k, c) && !Wants(watchers[c], k) ==> h !in Handlers(SubscribeReactive(s, order, watchers, h), k, c)
    decreases |order|
  {
    if |order| > 0 {
      ReactiveSubscribeKeeps(SubscribeWatched(s, order[0], watchers[order[0]], h), order[1..], watchers, h, k, c);
    }
  }

  // ---------------------------------------------------------------------
  // Properties

  /** Every builder call keeps the builder invariant. */
  lemma FinaliseKeepsWellFormed(b: Builder)
    requires BuilderWellFormed(b)
    ensures BuilderWellFormed(FinaliseCurrent(b))
  {
    var r := FinaliseCurrent(b);
    if b.current.Some? {
      var q := b.current.value;
      forall i | 0 <= i < |r.extractors| && r.extractors[i].ExtractComponent? && !r.extractors[i].optional
        ensures Includes(r.includes, r.extractors[i].component) || r.extractors[i].component in r.watchers
      {
        if i < |b.extractors| {
          assert r.extractors[i] == b.extractors[i];
        }
      }
    }
  }

  lemma SelectKeepsWellFormed(b: Builder, reg: ComponentRegistry, cls: ClassRef)
    requires BuilderWellFormed(b)
    ensures Select(b, reg, cls).Success? ==> BuilderWellFormed(Select(b, reg, cls).value)
    ensures BuilderWellFormed(SelectId(b))
  {
    FinaliseKeepsWellFormed(b);
    var f := FinaliseCurrent(b);
    var r := SelectId(b);
    forall i | 0 <= i < |r.extractors| && r.extractors[i].ExtractComponent? && !r.extractors[i].optional
      ensures Includes(r.includes, r.extractors[i].component) || r.extractors[i].component in r.watchers
    {
      assert r.extractors[i] == f.extractors[i];
    }
  }

  lemma FiltersKeepWellFormed(b: Builder, reg: ComponentRegistry, classes: seq<ClassRef>, m: Modifier)
    requires BuilderWellFormed(b)
    ensures HasAll(b, reg, classes).Success? ==> BuilderWellFormed(HasAll(b, reg, classes).value)
    ensures HasSome(b, reg, classes).Success? ==> BuilderWellFormed(HasSome(b, reg, classes).value)
    ensures HasNone(b, reg, classes).Success? ==> BuilderWellFormed(HasNone(b, reg, classes).value)
    ensures Modify(b, m).Success? ==> BuilderWellFormed(Modify(b, m).value)
  {
  }

  /** The columns of a query that must be present are all required by its includes mask. */
  ghost predicate ColumnsRequired(q: EntityQuery) {
    forall i :: 0 <= i < |q.extractors| && q.extractors[i].ExtractComponent? && !q.extractors[i].optional ==>
      Includes(q.includes, q.extractors[i].component)
  }

  /** `query()` on a well-formed builder gives a static query only when every mandatory column is required. */
  lemma StaticBuildRequiresColumns(b: Builder)
    requires BuilderWellFormed(b)
    requires Build(b).kind.Static?
    ensures ColumnsRequired(Build(b))
  {
    FinaliseKeepsWellFormed(b);
    var f := FinaliseCurrent(b);
    assert forall c :: c !in f.watchers by {
      assert |f.watchOrder| == 0;
    }
  }

  /** A static query whose mandatory columns are all required, on component ids the mask tells apart. */
  ghost predicate StaticReady(q: EntityQuery) {
    && q.kind.Static? && ColumnsRequired(q)
    && forall i :: 0 <= i < |q.extractors| && q.extractors[i].ExtractComponent? ==> q.extractors[i].component < Width
  }

  /**
   * With a consistent store and component ids the mask can tell apart, an
   * entity that passes a static query's masks has every mandatory column,
   * so adding its row cannot fail.
   */
  lemma StaticRowExtractionSucceeds(q: EntityQuery, s: Store, e: EntityId)
    requires Consistent(s) && ColumnsRequired(q)
    requires forall i :: 0 <= i < |q.extractors| && q.extractors[i].ExtractComponent? ==> q.extractors[i].component < Width
    requires TestMasks(q, s, e) == Success(true)
    ensures AddEntity(q, s, e).Success?
  {
    var mask := s.masks[e];
    forall i | 0 <= i < |q.extractors| && q.extractors[i].ExtractComponent? && !q.extractors[i].optional
      ensures TryGet(s, e, q.extractors[i].component).Some?
    {
      var c := q.extractors[i].component;
      assert c in Members(q.includes);
      assert c in Members(mask);
    }
  }

  /**
   * A static query after an add or remove event for `e`: `e` has a row
   * exactly when it passes the masks, and no other row moved.
   */
  lemma StaticMembershipFollowsMasks(q: EntityQuery, s: Store, e: EntityId)
    requires q.kind.Static?
    requires Consistent(s) && ColumnsRequired(q) && e in s.masks
    requires forall i :: 0 <= i < |q.extractors| && q.extractors[i].ExtractComponent? ==> q.extractors[i].component < Width
    ensures OnStaticEvent(q, s, e).Success?
    ensures e in OnStaticEvent(q, s, e).value.rows <==> MatchesMasks(q, s.masks[e])
    ensures Count(OnStaticEvent(q, s, e).value) == |OnStaticEvent(q, s, e).value.rows|
  {
    if TestMasks(q, s, e).value {
      StaticRowExtractionSucceeds(q, s, e);
    }
  }

  /** A static query only listens to its selected components: others never reach its handler. */
  lemma StaticListensOnlyToSelected(s: Store, q: EntityQuery, h: HandlerRef, c: ComponentId, e: EntityId, d: ComponentData)
    requires q.kind.Static? && c !in q.kind.queried
    requires forall k, c' :: h !in Handlers(s, k, c')
    ensures forall n :: n in Add(Subscribe(s, q, h), e, c, d).1 ==> n.handler != h
    ensures forall n :: n in Remove(Subscribe(s, q, h), e, c).1 ==> n.handler != h
  {
    var s' := Subscribe(s, q, h);
    NotificationsTargetRegistered(s', e, c, d);
  }

  /** A reactive query that sees an entity failing its masks does not change at all. */
  lemma ReactiveIgnoresNonMatching(q: EntityQuery, s: Store, e: EntityId, c: ComponentId)
    requires q.kind.Reactive? && e in s.masks && !MatchesMasks(q, s.masks[e])
    ensures UpdatePendingAndTryAdd(q, s, e, c) == Success(q)
  {
  }

  /** A reactive query shows an entity only once every watched component has fired for it. */
  lemma ReactiveInsertsOnlyWhenAllFired(q: EntityQuery, s: Store, e: EntityId, c: ComponentId)
    requires q.kind.Reactive? && e !in q.rows
    requires UpdatePendingAndTryAdd(q, s, e, c).Success?
    ensures var r := UpdatePendingAndTryAdd(q, s, e, c).value;
      e in r.rows ==> MatchesMasks(q, s.masks[e]) && AllWatchedFired(q.kind.watchOrder, Fired(q, e) + {c}) && e !in r.kind.pending
  {
  }

  /** The distinct components of a list of events. */
  function Elems(cs: seq<ComponentId>): (r: set<ComponentId>)
    ensures forall c :: c in r <==> c in cs
  {
    set c | c in cs
  }

  /** A reactive query receiving the events of one entity, one after the other; the first failure stops it. */
  function HandleEvents(q: EntityQuery, s: Store, e: EntityId, cs: seq<ComponentId>): (r: Result<EntityQuery, StoreError>)
    requires q.kind.Reactive?
    ensures r.Success? ==> r.value.kind.Reactive? && SameShape(q, r.value)
    decreases |cs|
  {
    if |cs| == 0 then
      Success(q)
    else
      var q1 :- UpdatePendingAndTryAdd(q, s, e, cs[0]);
      HandleEvents(q1, s, e, cs[1..])
  }

  /** Handling `cs` then `c` is handling `cs + [c]`. */
  lemma {:induction false} HandleEventsAppend(q: EntityQuery, s: Store, e: EntityId, cs: seq<ComponentId>, c: ComponentId)
    requires q.kind.Reactive?
    ensures HandleEvents(q, s, e, cs + [c]) ==
      match HandleEvents(q, s, e, cs)
      case Failure(err) => Failure(err)
      case Success(q') => UpdatePendingAndTryAdd(q', s, e, c)
    decreases |cs|
  {
    if |cs| == 0 {
      assert (cs + [c])[1..] == [];
    } else {
      assert (cs + [c])[0] == cs[0] && (cs + [c])[1..] == cs[1..] + [c];
      match UpdatePendingAndTryAdd(q, s, e, cs[0])
      case Failure(_) =>
      case Success(q1) => HandleEventsAppend(q1, s, e, cs[1..], c);
    }
  }

  /**
   * While the events an entity has seen do not yet cover every watched
   * component, a reactive query shows no new row for it and records exactly
   * the components seen so far.
   */
  lemma {:induction false} ReactiveAccumulates(q: EntityQuery, s: Store, e: EntityId, cs: seq<ComponentId>)
    requires q.kind.Reactive? && e in s.masks && MatchesMasks(q, s.masks[e])
    requires !AllWatchedFired(q.kind.watchOrder, Fired(q, e) + Elems(cs))
    ensures HandleEvents(q, s, e, cs).Success?
    ensures var r := HandleEvents(q, s, e, cs).value;
      && r.rows == q.rows
      && r.kind.pending == (if |cs| == 0 then q.kind.pending else q.kind.pending[e := Fired(q, e) + Elems(cs)])
    decreases |cs|
  {
    if |cs| > 0 {
      var fired := Fired(q, e) + {cs[0]};
      assert Elems(cs) == {cs[0]} + Elems(cs[1..]);
      assert !AllWatchedFired(q.kind.watchOrder, fired);
      var q1 := UpdatePendingAndTryAdd(q, s, e, cs[0]).value;
      assert Fired(q1, e) == fired && q1.kind.pending == q.kind.pending[e := fired];
      assert Fired(q1, e) + Elems(cs[1..]) == Fired(q, e) + Elems(cs);
      ReactiveAccumulates(q1, s, e, cs[1..]);
      assert HandleEvents(q, s, e, cs) == HandleEvents(q1, s, e, cs[1..]);
      if |cs| == 1 {
        assert Elems(cs[1..]) == {} && Fired(q, e) + Elems(cs) == fired;
      } else {
        assert q1.kind.pending[e := Fired(q, e) + Elems(cs)] == q.kind.pending[e := Fired(q, e) + Elems(cs)];
      }
    }
  }

  /**
   * The event that completes the watched set shows the entity: its row is
   * built from the store and its pending record is dropped.
   */
  lemma ReactiveShowsOnceAllFired(q: EntityQuery, s: Store, e: EntityId, cs: seq<ComponentId>, c: ComponentId)
    requires q.kind.Reactive? && e in s.masks && MatchesMasks(q, s.masks[e])
    requires !AllWatchedFired(q.kind.watchOrder, Fired(q, e) + Elems(cs))
    requires AllWatchedFired(q.kind.watchOrder, Fired(q, e) + Elems(cs) + {c})
    requires Extract(s, e, q.extractors).Success?
    ensures HandleEvents(q, s, e, cs + [c]).Success?
    ensures var r := HandleEvents(q, s, e, cs + [c]).value;
      && r.rows == q.rows[e := Extract(s, e, q.extractors).value]
      && r.kind.pending == q.kind.pending - {e}
  {
    ReactiveAccumulates(q, s, e, cs);
    HandleEventsAppend(q, s, e, cs, c);
    var q' := HandleEvents(q, s, e, cs).value;
    assert Fired(q', e) + {c} == Fired(q, e) + Elems(cs) + {c};
  }

  /**
   * A watched `removed()` column that is not optional reads the component
   * with `get`, so the row the removal completes cannot be built: the event
   * fails with `MissingComponentError`.
   */
  lemma RemovedColumnFailsExtraction(q: EntityQuery, s: Store, e: EntityId, c: ComponentId)
    requires q.kind.Reactive? && q.kind.watchOrder == [c]
    requires ExtractComponent(c, false) in q.extractors
    requires e in s.masks && MatchesMasks(q, s.masks[e]) && (e, c) !in s.data
    ensures UpdatePendingAndTryAdd(q, s, e, c).Failure?
  {
    var i :| 0 <= i < |q.extractors| && q.extractors[i] == ExtractComponent(c, false);
    assert TryGet(s, e, q.extractors[i].component).None?;
  }

  /** When extraction fails, it fails with the first missing mandatory component. */
  lemma {:induction false} ExtractFailsAtFirstMissing(s: Store, e: EntityId, xs: seq<Extractor>)
    requires Extract(s, e, xs).Failure?
    ensures exists i :: (0 <= i < |xs| && xs[i].ExtractComponent? && !xs[i].optional && (e, xs[i].component) !in s.data
      && Extract(s, e, xs).error == MissingComponent(e, xs[i].component))
  {
    if ExtractOne(s, e, xs[0]).Failure? {
      assert 0 < |xs|;
    } else {
      ExtractFailsAtFirstMissing(s, e, xs[1..]);
      var i :| 0 <= i < |xs[1..]| && xs[1..][i].ExtractComponent? && !xs[1..][i].optional && (e, xs[1..][i].component) !in s.data
        && Extract(s, e, xs[1..]).error == MissingComponent(e, xs[1..][i].component);
      assert xs[i + 1] == xs[1..][i];
    }
  }

  /** `afterSystem` empties a reactive query's rows but keeps what is pending; `beforeSystem` does nothing. */
  lemma AfterSystemKeepsPending(q: EntityQuery)
    requires q.kind.Reactive?
    ensures AfterSystem(q).kind.pending == q.kind.pending
    ensures Count(AfterSystem(q)) == 0
    ensures BeforeSystem(q) == q
  {
  }

  /**
   * `select(A).selectId()` as written produces the id column before A's
   * column; the builder's result type, and the corrected `SelectId`, put
   * A's column first.
   */
  lemma SelectIdColumnOrder(b: Builder, reg: ComponentRegistry, a: ClassRef)
    requires a in reg.classLookup && b.current.None?
    ensures var sel := Select(b, reg, a).value;
      var id := reg.classLookup[a];
      && Build(SelectIdAsWritten(sel)).extractors == b.extractors + [ExtractId, ExtractComponent(id, false)]
      && Build(SelectId(sel)).extractors == b.extractors + [ExtractComponent(id, false), ExtractId]
  {
  }
}
