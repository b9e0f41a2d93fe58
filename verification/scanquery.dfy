/**
 * The older scan-based query path (`Query`, its filters and selectors): a
 * pure filter and projection over a sequence of entities with their mask
 * and component data. The world has no entity iterator, so the sequence
 * the query scans is a parameter.
 */
module ScanQueries {
  import opened Wrappers
  import opened Ids
  import opened ComponentMask
  import opened Registries
  import opened ComponentStore

  /** `EntityData`: an entity's mask and its components by id. */
  datatype EntityData = EntityData(componentMask: Mask, componentData: map<ComponentId, ComponentData>)

  datatype FilterKind = HasComponent | WithoutComponent

  /** A filter: `BasicFilter` or `WithoutFilter`, with the id fixed when it is built. */
  datatype Filter = Filter(kind: FilterKind, component: ComponentId)

  datatype SelectorKind = Required | Optional

  /** A selector: `BasicSelector` or `OptionalSelector`, with the id fixed when it is built. */
  datatype Selector = Selector(kind: SelectorKind, component: ComponentId)

  /** A cell of a result row; `Ignore` is the `SELECT_IGNORE` marker. */
  datatype Cell = IdCell(id: EntityId) | DataCell(data: ComponentData) | Undefined | Ignore

  type Row = seq<Cell>

  /** The filter constructors: the class is looked up once, and an unregistered one throws. */
  function NewFilter(reg: ComponentRegistry, kind: FilterKind, cls: ClassRef): (r: Result<Filter, RegistryError>)
    ensures r.Failure? <==> cls !in reg.classLookup
    ensures r.Failure? ==> r.error == NotRegistered(cls)
    ensures r.Success? ==> r.value == Filter(kind, reg.classLookup[cls])
  {
    var id :- LookupId(reg, cls);
    Success(Filter(kind, id))
  }

  /** The selector constructors, likewise. */
  function NewSelector(reg: ComponentRegistry, kind: SelectorKind, cls: ClassRef): (r: Result<Selector, RegistryError>)
    ensures r.Failure? <==> cls !in reg.classLookup
    ensures r.Failure? ==> r.error == NotRegistered(cls)
    ensures r.Success? ==> r.value == Selector(kind, reg.classLookup[cls])
  {
    var id :- LookupId(reg, cls);
    Success(Selector(kind, id))
  }

  /** `not(c)`: a filter rejecting entities with the component. */
  function Not(reg: ComponentRegistry, cls: ClassRef): (r: Result<Filter, RegistryError>)
    ensures r.Success? ==> r.value.kind == WithoutComponent
    ensures r.Success? <==> cls in reg.classLookup
  {
    NewFilter(reg, WithoutComponent, cls)
  }

  /** `optional(c)`: a selector that tolerates a missing component. */
  function OptionalOf(reg: ComponentRegistry, cls: ClassRef): (r: Result<Selector, RegistryError>)
    ensures r.Success? ==> r.value.kind == Optional
    ensures r.Success? <==> cls in reg.classLookup
  {
    NewSelector(reg, Optional, cls)
  }

  /** `filter(entity)`. */
  function Passes(f: Filter, e: EntityData): (r: bool)
    ensures f.kind == HasComponent ==> (r <==> Includes(e.componentMask, f.component))
    ensures f.kind == WithoutComponent ==> (r <==> !Includes(e.componentMask, f.component))
  {
    match f.kind
    case HasComponent => Includes(e.componentMask, f.component)
    case WithoutComponent => !Includes(e.componentMask, f.component)
  }

  /** For the same component, the two filters disagree on every entity. */
  lemma WithoutNegatesHas(c: ComponentId, e: EntityData)
    ensures Passes(Filter(WithoutComponent, c), e) == !Passes(Filter(HasComponent, c), e)
  {
  }

  /** `select(entity)`: the stored component; when absent, `SELECT_IGNORE` or `undefined`. */
  function SelectCell(s: Selector, e: EntityData): (r: Cell)
    ensures s.component in e.componentData ==> r == DataCell(e.componentData[s.component])
    ensures s.component !in e.componentData && s.kind == Required ==> r == Ignore
    ensures s.component !in e.componentData && s.kind == Optional ==> r == Undefined
    ensures r.Ignore? ==> s.kind == Required
  {
    if s.component in e.componentData then DataCell(e.componentData[s.component])
    else if s.kind == Required then Ignore
    else Undefined
  }

  // ---------------------------------------------------------------------
  // Building a query

  /** An argument of `select`: a component class, or a selector built already. */
  datatype SelectorArg = SelectClass(cls: ClassRef) | SelectUsing(selector: Selector)

  /** An argument of `where`: a component class, or a filter built already. */
  datatype FilterArg = FilterClass(cls: ClassRef) | FilterUsing(filter: Filter)

  datatype ScanQuery = ScanQuery(selectors: seq<Selector>, filters: seq<Filter>)

  function NewQuery(): (q: ScanQuery)
    ensures |q.selectors| == 0 && |q.filters| == 0
  {
    ScanQuery([], [])
  }

  /** A bare class becomes a `BasicSelector`. */
  function ToSelector(reg: ComponentRegistry, a: SelectorArg): Result<Selector, RegistryError> {
    match a
    case SelectClass(cls) => NewSelector(reg, Required, cls)
    case SelectUsing(s) => Success(s)
  }

  /** A bare class becomes a `BasicFilter`. */
  function ToFilter(reg: ComponentRegistry, a: FilterArg): Result<Filter, RegistryError> {
    match a
    case FilterClass(cls) => NewFilter(reg, HasComponent, cls)
    case FilterUsing(f) => Success(f)
  }

  /** The arguments mapped in order; the first unregistered class throws before anything is appended. */
  function ToSelectors(reg: ComponentRegistry, args: seq<SelectorArg>): (r: Result<seq<Selector>, RegistryError>)
    ensures r.Success? <==> forall i :: 0 <= i < |args| ==> ToSelector(reg, args[i]).Success?
    ensures r.Success? ==> |r.value| == |args| && forall i :: 0 <= i < |args| ==> r.value[i] == ToSelector(reg, args[i]).value
    decreases |args|
  {
    if |args| == 0 then
      Success([])
    else
      var s :- ToSelector(reg, args[0]);
      var rest :- ToSelectors(reg, args[1..]);
      assert forall i :: 1 <= i < |args| ==> args[i] == args[1..][i - 1];
      Success([s] + rest)
  }

  function ToFilters(reg: ComponentRegistry, args: seq<FilterArg>): (r: Result<seq<Filter>, RegistryError>)
    ensures r.Success? <==> forall i :: 0 <= i < |args| ==> ToFilter(reg, args[i]).Success?
    ensures r.Success? ==> |r.value| == |args| && forall i :: 0 <= i < |args| ==> r.value[i] == ToFilter(reg, args[i]).value
    decreases |args|
  {
    if |args| == 0 then
      Success([])
    else
      var f :- ToFilter(reg, args[0]);
      var rest :- ToFilters(reg, args[1..]);
      assert forall i :: 1 <= i < |args| ==> args[i] == args[1..][i - 1];
      Success([f] + rest)
  }

  /** `select(...selectors)`: appends, in order, after the selectors already there. */
  function Select(q: ScanQuery, reg: ComponentRegistry, args: seq<SelectorArg>): (r: Result<ScanQuery, RegistryError>)
    ensures r.Success? <==> forall i :: 0 <= i < |args| ==> (args[i].SelectClass? ==> args[i].cls in reg.classLookup)
    ensures r.Success? ==> |r.value.selectors| == |q.selectors| + |args|
    ensures r.Success? ==> r.value.filters == q.filters && r.value.selectors[..|q.selectors|] == q.selectors
    ensures r.Success? ==> forall i :: 0 <= i < |args| ==>
      r.value.selectors[|q.selectors| + i] == (match args[i]
        case SelectClass(cls) => Selector(Required, reg.classLookup[cls])
        case SelectUsing(s) => s)
  {
    var ss :- ToSelectors(reg, args);
    Success(q.(selectors := q.selectors + ss))
  }

  /** `where(...filters)`: appends, in order, after the filters already there. */
  function Where(q: ScanQuery, reg: ComponentRegistry, args: seq<FilterArg>): (r: Result<ScanQuery, RegistryError>)
    ensures r.Success? <==> forall i :: 0 <= i < |args| ==> (args[i].FilterClass? ==> args[i].cls in reg.classLookup)
    ensures r.Success? ==> |r.value.filters| == |q.filters| + |args|
    ensures r.Success? ==> r.value.selectors == q.selectors && r.value.filters[..|q.filters|] == q.filters
    ensures r.Success? ==> forall i :: 0 <= i < |args| ==>
      r.value.filters[|q.filters| + i] == (match args[i]
        case FilterClass(cls) => Filter(HasComponent, reg.classLookup[cls])
        case FilterUsing(f) => f)
  {
    var fs :- ToFilters(reg, args);
    Success(q.(filters := q.filters + fs))
  }

  // ---------------------------------------------------------------------
  // Executing a query

  /** `filters.every(...)`. */
  function PassesAll(fs: seq<Filter>, e: EntityData): (r: bool)
    ensures r <==> forall i :: 0 <= i < |fs| ==> Passes(fs[i], e)
    decreases |fs|
  {
    if |fs| == 0 then true
    else Passes(fs[0], e) && PassesAll(fs[1..], e)
  }

  /** `[id, ...selectors.map(select)]`. */
  function RowOf(id: EntityId, ss: seq<Selector>, e: EntityData): (r: Row)
    ensures |r| == 1 + |ss| && r[0] == IdCell(id)
    ensures forall i :: 0 <= i < |ss| ==> r[i + 1] == SelectCell(ss[i], e)
  {
    [IdCell(id)] + seq(|ss|, i requires 0 <= i < |ss| => SelectCell(ss[i], e))
  }

  /** `execute` as written: a row for each entity passing every filter, `SELECT_IGNORE` cells included. */
  function ExecuteAsWritten(q: ScanQuery, es: seq<(EntityId, EntityData)>): (r: seq<Row>)
    ensures |r| <= |es|
    decreases |es|
  {
    if |es| == 0 then []
    else
      var rest := ExecuteAsWritten(q, es[1..]);
      if PassesAll(q.filters, es[0].1) then [RowOf(es[0].0, q.selectors, es[0].1)] + rest else rest
  }

  /** Whether every required selector finds its component. */
  predicate SelectsAll(ss: seq<Selector>, e: EntityData) {
    forall i :: 0 <= i < |ss| ==> ss[i].kind == Required ==> ss[i].component in e.componentData
  }

  /**
   * `execute` as the selector contract describes it: an entity lacking a
   * required component is skipped rather than yielded with a
   * `SELECT_IGNORE` cell.
   */
  function Execute(q: ScanQuery, es: seq<(EntityId, EntityData)>): (r: seq<Row>)
    ensures |r| <= |es|
    ensures forall k, j :: 0 <= k < |r| && 0 <= j < |r[k]| ==> r[k][j] != Ignore
    decreases |es|
  {
    if |es| == 0 then []
    else
      var rest := Execute(q, es[1..]);
      if PassesAll(q.filters, es[0].1) && SelectsAll(q.selectors, es[0].1) then
        NoIgnoreWhenSelected(es[0].0, q.selectors, es[0].1);
        [RowOf(es[0].0, q.selectors, es[0].1)] + rest
      else rest
  }

  lemma NoIgnoreWhenSelected(id: EntityId, ss: seq<Selector>, e: EntityData)
    requires SelectsAll(ss, e)
    ensures forall j :: 0 <= j < |RowOf(id, ss, e)| ==> RowOf(id, ss, e)[j] != Ignore
  {
    var r := RowOf(id, ss, e);
    forall j | 1 <= j < |r|
      ensures r[j] != Ignore
    {
      assert r[j] == SelectCell(ss[j - 1], e);
    }
  }

  /** Scanning two sequences of entities one after the other yields the rows of each, in order. */
  lemma {:induction false} ExecuteAsWrittenAppend(q: ScanQuery, a: seq<(EntityId, EntityData)>, b: seq<(EntityId, EntityData)>)
    ensures ExecuteAsWritten(q, a + b) == ExecuteAsWritten(q, a) + ExecuteAsWritten(q, b)
    decreases |a|
  {
    if |a| == 0 {
      assert a + b == b;
    } else {
      assert (a + b)[0] == a[0] && (a + b)[1..] == a[1..] + b;
      ExecuteAsWrittenAppend(q, a[1..], b);
    }
  }

  /** One entity yields one row exactly when it passes every filter; the row is its id and its selections. */
  lemma ExecuteAsWrittenOne(q: ScanQuery, id: EntityId, e: EntityData)
    ensures |ExecuteAsWritten(q, [(id, e)])| == (if forall i :: 0 <= i < |q.filters| ==> Passes(q.filters[i], e) then 1 else 0)
    ensures |ExecuteAsWritten(q, [(id, e)])| == 1 ==>
      var row := ExecuteAsWritten(q, [(id, e)])[0];
      && |row| == 1 + |q.selectors| && row[0] == IdCell(id)
      && forall i :: 0 <= i < |q.selectors| ==> row[i + 1] == SelectCell(q.selectors[i], e)
  {
    assert [(id, e)][1..] == [];
  }

  /** Every row has the entity's id first and one cell per selector. */
  lemma {:induction false} RowsHaveOneCellPerSelector(q: ScanQuery, es: seq<(EntityId, EntityData)>)
    ensures forall k :: 0 <= k < |ExecuteAsWritten(q, es)| ==> |ExecuteAsWritten(q, es)[k]| == 1 + |q.selectors|
    ensures forall k :: 0 <= k < |ExecuteAsWritten(q, es)| ==> ExecuteAsWritten(q, es)[k][0].IdCell?
    decreases |es|
  {
    if |es| > 0 {
      RowsHaveOneCellPerSelector(q, es[1..]);
    }
  }

  /** Scanning two sequences one after the other yields the rows of each, in order. */
  lemma {:induction false} ExecuteAppend(q: ScanQuery, a: seq<(EntityId, EntityData)>, b: seq<(EntityId, EntityData)>)
    ensures Execute(q, a + b) == Execute(q, a) + Execute(q, b)
    decreases |a|
  {
    if |a| == 0 {
      assert a + b == b;
    } else {
      assert (a + b)[0] == a[0] && (a + b)[1..] == a[1..] + b;
      ExecuteAppend(q, a[1..], b);
    }
  }

  /** One entity yields a row exactly when it passes every filter and has every required component. */
  lemma ExecuteOne(q: ScanQuery, id: EntityId, e: EntityData)
    ensures |Execute(q, [(id, e)])| == 1 <==>
      (forall i :: 0 <= i < |q.filters| ==> Passes(q.filters[i], e)) &&
      (forall i :: 0 <= i < |q.selectors| ==> q.selectors[i].kind == Required ==> q.selectors[i].component in e.componentData)
    ensures |Execute(q, [(id, e)])| == 1 ==> Execute(q, [(id, e)])[0] == RowOf(id, q.selectors, e)
  {
    assert [(id, e)][1..] == [];
  }

  /**
   * The discrepancy: a query selecting a component an entity lacks. As
   * written the entity is yielded with a `SELECT_IGNORE` cell; with the
   * marker honoured it is skipped.
   */
  lemma MissingComponentStillYielded(id: EntityId, c: ComponentId)
    ensures var q := ScanQuery([Selector(Required, c)], []);
      var e := EntityData(0, map[]);
      && ExecuteAsWritten(q, [(id, e)]) == [[IdCell(id), Ignore]]
      && Execute(q, [(id, e)]) == []
  {
    var q := ScanQuery([Selector(Required, c)], []);
    var e := EntityData(0, map[]);
    assert [(id, e)][1..] == [];
    assert RowOf(id, q.selectors, e) == [IdCell(id), Ignore];
    assert q.selectors[0].kind == Required && q.selectors[0].component !in e.componentData;
  }
}
