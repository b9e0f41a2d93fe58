/**
 * Systems: their configuration (`runOnce`, `runAfter`), the order the
 * systems manager builds from the engine's set of system classes, and the
 * clearing of run-once systems after the first tick.
 *
 * The ordering pass is modelled exactly as the source performs it: one walk
 * over the set in insertion order, pulling each declared dependency forward
 * and deleting it from the set being walked. The set of placed systems the
 * source declares is never filled, so the same walk with that set filled is
 * given beside it as the evidently intended version.
 */
module Systems {
  import opened Wrappers
  import opened Ids

  datatype SystemConfig = SystemConfig(runOnce: bool, runAfter: seq<ClassRef>)

  /** The configuration a `@system(...)` decorator stores: `None` fields keep their current value. */
  datatype PartialConfig = PartialConfig(runOnce: Option<bool>, runAfter: Option<seq<ClassRef>>)

  /** The configuration metadata stored on system classes. */
  type ConfigTable = map<ClassRef, SystemConfig>

  datatype SystemError = MissingSystemDependency(system: ClassRef, missing: ClassRef)

  /** `getSystemConfig`: the stored configuration, or the defaults (not run-once, no dependencies). */
  function GetConfig(meta: ConfigTable, s: ClassRef): (r: SystemConfig)
    ensures s !in meta ==> r == SystemConfig(false, [])
    ensures s in meta ==> r == meta[s]
  {
    if s in meta then meta[s] else SystemConfig(false, [])
  }

  /** The `@system(config)` decorator: the given fields override the current configuration. */
  function Decorate(meta: ConfigTable, s: ClassRef, config: PartialConfig): (r: ConfigTable)
    ensures forall t :: t != s ==> GetConfig(r, t) == GetConfig(meta, t)
    ensures GetConfig(r, s).runOnce == (if config.runOnce.Some? then config.runOnce.value else GetConfig(meta, s).runOnce)
    ensures GetConfig(r, s).runAfter == (if config.runAfter.Some? then config.runAfter.value else GetConfig(meta, s).runAfter)
  {
    var current := GetConfig(meta, s);
    var runOnce := if config.runOnce.Some? then config.runOnce.value else current.runOnce;
    var runAfter := if config.runAfter.Some? then config.runAfter.value else current.runAfter;
    meta[s := SystemConfig(runOnce, runAfter)]
  }

  function Deps(meta: ConfigTable, s: ClassRef): seq<ClassRef> {
    GetConfig(meta, s).runAfter
  }

  ghost predicate NoDuplicates<T>(xs: seq<T>) {
    forall i, j :: 0 <= i < j < |xs| ==> xs[i] != xs[j]
  }

  /** `a` occurs somewhere before `b`. */
  ghost predicate Precedes(xs: seq<ClassRef>, a: ClassRef, b: ClassRef) {
    exists p, q :: 0 <= p < q < |xs| && xs[p] == a && xs[q] == b
  }

  // ---------------------------------------------------------------------
  // The ordering pass

  /**
   * The state of the pass: `live` is the engine's system set as the walk
   * deletes from it, `added` the set of placed systems, `ordered` the order
   * so far. `reached` lists the systems the walk has visited, in order; it
   * is an observation of the walk, not a variable of the source.
   */
  datatype OrderState = OrderState(live: set<ClassRef>, added: set<ClassRef>, ordered: seq<ClassRef>, reached: seq<ClassRef>)

  /**
   * The inner loop over one system's dependencies. A dependency in `added`
   * is skipped; one missing from the live set fails; otherwise it is deleted
   * from the set and placed. With `markAdded` false, as in the source,
   * nothing is ever recorded in `added`.
   */
  function PlaceDeps(st: OrderState, s: ClassRef, deps: seq<ClassRef>, markAdded: bool): (r: Result<OrderState, SystemError>)
    ensures r.Success? ==> r.value.reached == st.reached && r.value.live <= st.live
    ensures r.Success? ==> |r.value.ordered| >= |st.ordered| && r.value.ordered[..|st.ordered|] == st.ordered
    ensures r.Failure? ==> exists i :: 0 <= i < |deps| && r.error == MissingSystemDependency(s, deps[i])
    decreases |deps|
  {
    if |deps| == 0 then
      Success(st)
    else
      var d := deps[0];
      if d in st.added then
        PlaceDeps(st, s, deps[1..], markAdded)
      else if d !in st.live then
        Failure(MissingSystemDependency(s, d))
      else
        var st1 := OrderState(st.live - {d}, if markAdded then st.added + {d} else st.added, st.ordered + [d], st.reached);
        var r := PlaceDeps(st1, s, deps[1..], markAdded);
        assert r.Success? ==> r.value.ordered[..|st.ordered|] == r.value.ordered[..|st1.ordered|][..|st.ordered|];
        r
  }

  /** One iteration of the outer loop: the system's dependencies, then the system itself. */
  function Visit(st: OrderState, s: ClassRef, meta: ConfigTable, markAdded: bool): (r: Result<OrderState, SystemError>)
    ensures r.Success? ==> r.value.reached == st.reached + [s] && r.value.live <= st.live
    ensures r.Success? ==> |r.value.ordered| > |st.ordered| && r.value.ordered[..|st.ordered|] == st.ordered
    ensures r.Success? ==> r.value.ordered[|r.value.ordered| - 1] == s
  {
    var st1 :- PlaceDeps(st, s, Deps(meta, s), markAdded);
    var r := st1.(ordered := st1.ordered + [s], added := if markAdded then st1.added + {s} else st1.added, reached := st.reached + [s]);
    assert r.ordered[..|st.ordered|] == st1.ordered[..|st.ordered|];
    Success(r)
  }

  /**
   * The outer loop from position `i` of the set's insertion order. A system
   * deleted from the set before the walk reaches it is not visited, as the
   * iterator of a JavaScript `Set` skips deleted entries.
   */
  function OrderFrom(systems: seq<ClassRef>, i: nat, st: OrderState, meta: ConfigTable, markAdded: bool): (r: Result<OrderState, SystemError>)
    requires i <= |systems|
    ensures r.Success? ==> |st.ordered| <= |r.value.ordered| && r.value.ordered[..|st.ordered|] == st.ordered
    decreases |systems| - i
  {
    if i == |systems| then
      Success(st)
    else if systems[i] !in st.live then
      OrderFrom(systems, i + 1, st, meta, markAdded)
    else
      var st1 :- Visit(st, systems[i], meta, markAdded);
      OrderFrom(systems, i + 1, st1, meta, markAdded)
  }

  function InitialState(systems: seq<ClassRef>): OrderState {
    OrderState(set s | s in systems, {}, [], [])
  }

  /**
   * The systems manager's constructor as written: on success exactly the
   * input systems are placed, each reached system after its dependencies;
   * a failure names a system and one of its declared dependencies.
   */
  function OrderAsWritten(systems: seq<ClassRef>, meta: ConfigTable): (r: Result<OrderState, SystemError>)
    ensures r.Success? ==> forall x :: x in r.value.ordered <==> x in systems
    ensures r.Success? ==> forall s, d :: s in r.value.reached && d in Deps(meta, s) ==> Precedes(r.value.ordered, d, s)
    ensures r.Failure? ==> r.error.system in systems && r.error.missing in Deps(meta, r.error.system)
  {
    var r := OrderFrom(systems, 0, InitialState(systems), meta, false);
    if r.Success? then
      OrderPlacesDependenciesFirst(systems, meta, false);
      r
    else
      OrderFailureNamesADependency(systems, 0, InitialState(systems), meta, false);
      r
  }

  /** The constructor with every placed system recorded in `added`; the same guarantees hold. */
  function Order(systems: seq<ClassRef>, meta: ConfigTable): (r: Result<OrderState, SystemError>)
    ensures r.Success? ==> forall x :: x in r.value.ordered <==> x in systems
    ensures r.Success? ==> forall s, d :: s in r.value.reached && d in Deps(meta, s) ==> Precedes(r.value.ordered, d, s)
    ensures r.Failure? ==> r.error.system in systems && r.error.missing in Deps(meta, r.error.system)
  {
    var r := OrderFrom(systems, 0, InitialState(systems), meta, true);
    if r.Success? then
      OrderPlacesDependenciesFirst(systems, meta, true);
      r
    else
      OrderFailureNamesADependency(systems, 0, InitialState(systems), meta, true);
      r
  }

  // ---------------------------------------------------------------------
  // Properties of the ordering pass

  /**
   * What the pass keeps true: placed systems come from the input, every
   * input system is still in the set or already placed, every reached
   * system is placed after each of its dependencies, and `added` only holds
   * placed systems.
   */
  ghost predicate OrderInvariant(systems: seq<ClassRef>, i: nat, st: OrderState, meta: ConfigTable) {
    && i <= |systems|
    && (forall x :: x in st.ordered ==> x in systems)
    && (forall x :: x in st.live ==> x in systems)
    && (forall x :: x in systems ==> x in st.live || x in st.ordered)
    && (forall j :: 0 <= j < i ==> systems[j] in st.ordered)
    && (forall x :: x in st.added ==> x in st.ordered)
    && (forall s, d :: s in st.reached && d in Deps(meta, s) ==> Precedes(st.ordered, d, s))
    && (forall s :: s in st.reached ==> s in systems)
  }

  /** Appending keeps every precedence. */
  lemma PrecedesExtend(xs: seq<ClassRef>, ys: seq<ClassRef>, a: ClassRef, b: ClassRef)
    requires Precedes(xs, a, b)
    ensures Precedes(xs + ys, a, b)
  {
    var p, q :| 0 <= p < q < |xs| && xs[p] == a && xs[q] == b;
    assert (xs + ys)[p] == a && (xs + ys)[q] == b;
  }

  /** After the dependency loop, every dependency is placed, and only live systems were. */
  lemma {:induction false} PlaceDepsPlacesAll(st: OrderState, s: ClassRef, deps: seq<ClassRef>, markAdded: bool)
    requires forall x :: x in st.added ==> x in st.ordered
    requires PlaceDeps(st, s, deps, markAdded).Success?
    ensures var r := PlaceDeps(st, s, deps, markAdded).value;
      && (forall d :: d in deps ==> d in r.ordered)
      && (forall x :: x in r.ordered ==> x in st.ordered || x in st.live)
      && (forall x :: x in st.live ==> x in r.live || x in r.ordered)
      && (forall x :: x in r.added ==> x in r.ordered)
    decreases |deps|
  {
    if |deps| > 0 {
      var d := deps[0];
      var r := PlaceDeps(st, s, deps, markAdded).value;
      if d in st.added {
        PlaceDepsPlacesAll(st, s, deps[1..], markAdded);
        var k :| 0 <= k < |st.ordered| && st.ordered[k] == d;
        assert r.ordered[..|st.ordered|][k] == d;
      } else {
        var st1 := OrderState(st.live - {d}, if markAdded then st.added + {d} else st.added, st.ordered + [d], st.reached);
        PlaceDepsPlacesAll(st1, s, deps[1..], markAdded);
        assert r.ordered[..|st1.ordered|][|st.ordered|] == d;
      }
      forall x | x in deps ensures x in r.ordered {
        if x != d {
          assert x in deps[1..];
        }
      }
    }
  }

  /** Placing a prefix-extending state keeps every precedence already established. */
  lemma PrecedesKept(st: OrderState, r: OrderState, meta: ConfigTable)
    requires |r.ordered| >= |st.ordered| && r.ordered[..|st.ordered|] == st.ordered
    requires forall s, d :: s in st.reached && d in Deps(meta, s) ==> Precedes(st.ordered, d, s)
    ensures forall s, d :: s in st.reached && d in Deps(meta, s) ==> Precedes(r.ordered, d, s)
  {
    assert r.ordered == st.ordered + r.ordered[|st.ordered|..];
    forall s, d | s in st.reached && d in Deps(meta, s)
      ensures Precedes(r.ordered, d, s)
    {
      PrecedesExtend(st.ordered, r.ordered[|st.ordered|..], d, s);
    }
  }

  lemma VisitKeepsInvariant(systems: seq<ClassRef>, i: nat, st: OrderState, meta: ConfigTable, markAdded: bool)
    requires i < |systems| && systems[i] in st.live
    requires OrderInvariant(systems, i, st, meta)
    requires Visit(st, systems[i], meta, markAdded).Success?
    ensures OrderInvariant(systems, i + 1, Visit(st, systems[i], meta, markAdded).value, meta)
  {
    var s := systems[i];
    var st1 := PlaceDeps(st, s, Deps(meta, s), markAdded).value;
    PlaceDepsPlacesAll(st, s, Deps(meta, s), markAdded);
    var r := Visit(st, s, meta, markAdded).value;
    assert r.ordered == st1.ordered + [s];
    PrecedesKept(st, r, meta);
    forall d | d in Deps(meta, s)
      ensures Precedes(r.ordered, d, s)
    {
      var p :| 0 <= p < |st1.ordered| && st1.ordered[p] == d;
      assert r.ordered[p] == d && r.ordered[|st1.ordered|] == s;
    }
    forall j | 0 <= j < i + 1
      ensures systems[j] in r.ordered
    {
      if j < i {
        assert systems[j] in st.ordered;
        var k :| 0 <= k < |st.ordered| && st.ordered[k] == systems[j];
        assert r.ordered[k] == systems[j];
      }
    }
    forall x | x in r.ordered
      ensures x in systems
    {
      if x != s {
        assert x in st1.ordered;
      }
    }
    forall x | x in systems
      ensures x in r.live || x in r.ordered
    {
      if x !in st.live {
        var k :| 0 <= k < |st.ordered| && st.ordered[k] == x;
        assert r.ordered[k] == x;
      }
    }
    forall x | x in st.ordered
      ensures x in r.ordered
    {
      var k :| 0 <= k < |st.ordered| && st.ordered[k] == x;
      assert r.ordered[k] == x;
    }
  }

  lemma {:induction false} OrderFromKeepsInvariant(systems: seq<ClassRef>, i: nat, st: OrderState, meta: ConfigTable, markAdded: bool)
    requires OrderInvariant(systems, i, st, meta)
    requires OrderFrom(systems, i, st, meta, markAdded).Success?
    ensures OrderInvariant(systems, |systems|, OrderFrom(systems, i, st, meta, markAdded).value, meta)
    decreases |systems| - i
  {
    if i < |systems| {
      if systems[i] !in st.live {
        assert systems[i] in st.ordered;
        OrderFromKeepsInvariant(systems, i + 1, st, meta, markAdded);
      } else {
        VisitKeepsInvariant(systems, i, st, meta, markAdded);
        OrderFromKeepsInvariant(systems, i + 1, Visit(st, systems[i], meta, markAdded).value, meta, markAdded);
      }
    }
  }

  /**
   * On success, with or without `added` recorded: exactly the input systems
   * are placed, and every system the walk reached comes after each of its
   * declared dependencies.
   */
  lemma OrderPlacesDependenciesFirst(systems: seq<ClassRef>, meta: ConfigTable, markAdded: bool)
    requires OrderFrom(systems, 0, InitialState(systems), meta, markAdded).Success?
    ensures var r := OrderFrom(systems, 0, InitialState(systems), meta, markAdded).value;
      && (forall x :: x in r.ordered <==> x in systems)
      && (forall s, d :: s in r.reached && d in Deps(meta, s) ==> Precedes(r.ordered, d, s))
  {
    OrderFromKeepsInvariant(systems, 0, InitialState(systems), meta, markAdded);
  }

  /** A failure names a system and one of its own declared dependencies. */
  lemma {:induction false} OrderFailureNamesADependency(systems: seq<ClassRef>, i: nat, st: OrderState, meta: ConfigTable, markAdded: bool)
    requires i <= |systems|
    requires OrderFrom(systems, i, st, meta, markAdded).Failure?
    ensures var e := OrderFrom(systems, i, st, meta, markAdded).error;
      e.system in systems && e.missing in Deps(meta, e.system)
    decreases |systems| - i
  {
    if systems[i] in st.live && Visit(st, systems[i], meta, markAdded).Success? {
      OrderFailureNamesADependency(systems, i + 1, Visit(st, systems[i], meta, markAdded).value, meta, markAdded);
    } else if systems[i] !in st.live {
      OrderFailureNamesADependency(systems, i + 1, st, meta, markAdded);
    }
  }

  /** Appending an element not yet present keeps a sequence free of duplicates. */
  lemma AppendFresh(xs: seq<ClassRef>, x: ClassRef)
    requires NoDuplicates(xs) && x !in xs
    ensures NoDuplicates(xs + [x])
  {
    forall i, j | 0 <= i < j < |xs + [x]|
      ensures (xs + [x])[i] != (xs + [x])[j]
    {
      if j == |xs| {
        assert (xs + [x])[i] == xs[i];
      } else {
        assert (xs + [x])[i] == xs[i] && (xs + [x])[j] == xs[j];
      }
    }
  }

  /** With placed systems recorded, the dependency loop never places a system twice. */
  lemma {:induction false} PlaceDepsRecordedKeepsDistinct(st: OrderState, s: ClassRef, deps: seq<ClassRef>)
    requires NoDuplicates(st.ordered)
    requires forall x :: x in st.added <==> x in st.ordered
    requires s !in deps && s !in st.ordered
    requires PlaceDeps(st, s, deps, true).Success?
    ensures var r := PlaceDeps(st, s, deps, true).value;
      && NoDuplicates(r.ordered)
      && (forall x :: x in r.added <==> x in r.ordered)
      && s !in r.ordered
      && (forall x :: x in r.ordered && x !in st.ordered ==> x !in r.live)
    decreases |deps|
  {
    if |deps| > 0 {
      var d := deps[0];
      assert s !in deps[1..];
      if d in st.added {
        PlaceDepsRecordedKeepsDistinct(st, s, deps[1..]);
      } else {
        var st1 := OrderState(st.live - {d}, st.added + {d}, st.ordered + [d], st.reached);
        AppendFresh(st.ordered, d);
        PlaceDepsRecordedKeepsDistinct(st1, s, deps[1..]);
        var r := PlaceDeps(st1, s, deps[1..], true).value;
        assert d !in r.live;
      }
    }
  }

  /**
   * What the corrected pass keeps true: the order has no duplicates, `added`
   * is exactly the placed systems, and no system the walk has still to reach
   * is both in the set and placed.
   */
  ghost predicate DistinctInvariant(systems: seq<ClassRef>, i: nat, st: OrderState) {
    && NoDuplicates(st.ordered)
    && (forall x :: x in st.added <==> x in st.ordered)
    && (forall j :: i <= j < |systems| && systems[j] in st.live ==> systems[j] !in st.ordered)
  }

  /** No system of the engine lists itself among the systems it runs after. */
  ghost predicate NoSelfDependency(systems: seq<ClassRef>, meta: ConfigTable) {
    forall x :: x in systems ==> x !in Deps(meta, x)
  }

  lemma VisitRecordedKeepsDistinct(systems: seq<ClassRef>, i: nat, st: OrderState, meta: ConfigTable)
    requires NoDuplicates(systems) && NoSelfDependency(systems, meta)
    requires i < |systems| && systems[i] in st.live
    requires DistinctInvariant(systems, i, st)
    requires Visit(st, systems[i], meta, true).Success?
    ensures DistinctInvariant(systems, i + 1, Visit(st, systems[i], meta, true).value)
  {
    var s := systems[i];
    assert s !in st.ordered;
    PlaceDepsRecordedKeepsDistinct(st, s, Deps(meta, s));
    var st1 := PlaceDeps(st, s, Deps(meta, s), true).value;
    AppendFresh(st1.ordered, s);
    var r := Visit(st, s, meta, true).value;
    forall j | i + 1 <= j < |systems| && systems[j] in r.live
      ensures systems[j] !in r.ordered
    {
      assert systems[j] != s;
      assert systems[j] in st.live;
    }
  }

  lemma {:induction false} OrderFromRecordedKeepsDistinct(systems: seq<ClassRef>, i: nat, st: OrderState, meta: ConfigTable)
    requires NoDuplicates(systems) && NoSelfDependency(systems, meta)
    requires i <= |systems| && DistinctInvariant(systems, i, st)
    requires OrderFrom(systems, i, st, meta, true).Success?
    ensures NoDuplicates(OrderFrom(systems, i, st, meta, true).value.ordered)
    decreases |systems| - i
  {
    if i < |systems| {
      if systems[i] !in st.live {
        OrderFromRecordedKeepsDistinct(systems, i + 1, st, meta);
      } else {
        VisitRecordedKeepsDistinct(systems, i, st, meta);
        OrderFromRecordedKeepsDistinct(systems, i + 1, Visit(st, systems[i], meta, true).value, meta);
      }
    }
  }

  /**
   * The corrected pass, on a set of systems none of which runs after
   * itself: when it succeeds, every system of the engine appears exactly
   * once in the order.
   */
  lemma OrderRunsEachSystemOnce(systems: seq<ClassRef>, meta: ConfigTable)
    requires NoDuplicates(systems) && NoSelfDependency(systems, meta)
    requires Order(systems, meta).Success?
    ensures NoDuplicates(Order(systems, meta).value.ordered)
    ensures forall x :: x in Order(systems, meta).value.ordered <==> x in systems
  {
    OrderFromRecordedKeepsDistinct(systems, 0, InitialState(systems), meta);
    OrderPlacesDependenciesFirst(systems, meta, true);
  }

  // ---------------------------------------------------------------------
  // The discrepancy, on concrete systems

  /** The state after placing `s` at the end of the order. */
  function Placed(st: OrderState, s: ClassRef, markAdded: bool): OrderState {
    st.(ordered := st.ordered + [s], added := if markAdded then st.added + {s} else st.added, reached := st.reached + [s])
  }

  lemma VisitWithoutDependencies(st: OrderState, s: ClassRef, meta: ConfigTable, markAdded: bool)
    requires Deps(meta, s) == []
    ensures Visit(st, s, meta, markAdded) == Success(Placed(st, s, markAdded))
  {
  }

  lemma VisitPlacedDependency(st: OrderState, s: ClassRef, d: ClassRef, meta: ConfigTable, markAdded: bool)
    requires Deps(meta, s) == [d] && d in st.added
    ensures Visit(st, s, meta, markAdded) == Success(Placed(st, s, markAdded))
  {
    assert PlaceDeps(st, s, [d], markAdded) == PlaceDeps(st, s, [], markAdded);
  }

  lemma VisitPullsDependency(st: OrderState, s: ClassRef, d: ClassRef, meta: ConfigTable, markAdded: bool)
    requires Deps(meta, s) == [d] && d !in st.added && d in st.live
    ensures Visit(st, s, meta, markAdded) ==
      Success(Placed(st.(live := st.live - {d}, added := if markAdded then st.added + {d} else st.added, ordered := st.ordered + [d]), s, markAdded))
  {
    var st1 := st.(live := st.live - {d}, added := if markAdded then st.added + {d} else st.added, ordered := st.ordered + [d]);
    assert PlaceDeps(st, s, [d], markAdded) == PlaceDeps(st1, s, [], markAdded);
  }

  lemma VisitMissingDependency(st: OrderState, s: ClassRef, d: ClassRef, meta: ConfigTable, markAdded: bool)
    requires Deps(meta, s) == [d] && d !in st.added && d !in st.live
    ensures Visit(st, s, meta, markAdded) == Failure(MissingSystemDependency(s, d))
  {
  }

  /**
   * `B` runs after `A`, and `A` comes first in the set. As written, `A` is
   * placed when the walk reaches it and again when `B` pulls it forward, so
   * it runs twice per tick.
   */
  lemma DependencyListedFirstIsPlacedTwice(a: ClassRef, b: ClassRef)
    requires a != b
    ensures var meta := map[b := SystemConfig(false, [a])];
      OrderAsWritten([a, b], meta) == Success(OrderState({b}, {}, [a, a, b], [a, b]))
  {
    var meta := map[b := SystemConfig(false, [a])];
    var st0 := OrderState({a, b}, {}, [], []);
    assert InitialState([a, b]) == st0;
    VisitWithoutDependencies(st0, a, meta, false);
    var w1 := Placed(st0, a, false);
    VisitPullsDependency(w1, b, a, meta, false);
    var w2 := Placed(w1.(live := w1.live - {a}, ordered := w1.ordered + [a]), b, false);
    assert w2 == OrderState({b}, {}, [a, a, b], [a, b]);
    assert OrderFrom([a, b], 0, st0, meta, false) == OrderFrom([a, b], 1, w1, meta, false);
    assert OrderFrom([a, b], 1, w1, meta, false) == OrderFrom([a, b], 2, w2, meta, false);
  }

  /** The same systems with placed systems recorded: `A` is placed once. */
  lemma DependencyListedFirstIsPlacedOnce(a: ClassRef, b: ClassRef)
    requires a != b
    ensures var meta := map[b := SystemConfig(false, [a])];
      Order([a, b], meta) == Success(OrderState({a, b}, {a, b}, [a, b], [a, b]))
  {
    var meta := map[b := SystemConfig(false, [a])];
    var st0 := OrderState({a, b}, {}, [], []);
    assert InitialState([a, b]) == st0;
    VisitWithoutDependencies(st0, a, meta, true);
    var c1 := Placed(st0, a, true);
    VisitPlacedDependency(c1, b, a, meta, true);
    var c2 := Placed(c1, b, true);
    assert c2 == OrderState({a, b}, {a, b}, [a, b], [a, b]);
    assert OrderFrom([a, b], 0, st0, meta, true) == OrderFrom([a, b], 1, c1, meta, true);
    assert OrderFrom([a, b], 1, c1, meta, true) == OrderFrom([a, b], 2, c2, meta, true);
  }

  /**
   * `B` and `C` both run after `A`, which comes last in the set. As written,
   * `B` pulls `A` forward and deletes it from the set, and `C` then finds it
   * missing.
   */
  lemma SecondDependentFails(a: ClassRef, b: ClassRef, c: ClassRef)
    requires a != b && b != c && a != c
    ensures var meta := map[b := SystemConfig(false, [a]), c := SystemConfig(false, [a])];
      OrderAsWritten([b, c, a], meta) == Failure(MissingSystemDependency(c, a))
  {
    var meta := map[b := SystemConfig(false, [a]), c := SystemConfig(false, [a])];
    var st0 := OrderState({a, b, c}, {}, [], []);
    assert InitialState([b, c, a]) == st0;
    VisitPullsDependency(st0, b, a, meta, false);
    var w1 := Placed(st0.(live := st0.live - {a}, ordered := st0.ordered + [a]), b, false);
    VisitMissingDependency(w1, c, a, meta, false);
    assert OrderFrom([b, c, a], 0, st0, meta, false) == OrderFrom([b, c, a], 1, w1, meta, false);
  }

  /** The same systems with placed systems recorded: `C` finds `A` placed, and the order is `A, B, C`. */
  lemma SecondDependentIsPlaced(a: ClassRef, b: ClassRef, c: ClassRef)
    requires a != b && b != c && a != c
    ensures var meta := map[b := SystemConfig(false, [a]), c := SystemConfig(false, [a])];
      Order([b, c, a], meta) == Success(OrderState({b, c}, {a, b, c}, [a, b, c], [b, c]))
  {
    var meta := map[b := SystemConfig(false, [a]), c := SystemConfig(false, [a])];
    var st0 := OrderState({a, b, c}, {}, [], []);
    assert InitialState([b, c, a]) == st0;
    VisitPullsDependency(st0, b, a, meta, true);
    var c1 := Placed(st0.(live := st0.live - {a}, added := st0.added + {a}, ordered := st0.ordered + [a]), b, true);
    VisitPlacedDependency(c1, c, a, meta, true);
    var c2 := Placed(c1, c, true);
    assert c2 == OrderState({b, c}, {a, b, c}, [a, b, c], [b, c]);
    assert OrderFrom([b, c, a], 0, st0, meta, true) == OrderFrom([b, c, a], 1, c1, meta, true);
    assert OrderFrom([b, c, a], 1, c1, meta, true) == OrderFrom([b, c, a], 2, c2, meta, true);
    assert OrderFrom([b, c, a], 2, c2, meta, true) == OrderFrom([b, c, a], 3, c2, meta, true);
  }

  /**
   * A dependency pulled forward is never visited itself, so its own
   * dependencies are not checked: `A` depends on `X`, which is not a system
   * of the engine, and the pass still succeeds.
   */
  lemma PulledDependencyIsNotChecked(a: ClassRef, b: ClassRef, x: ClassRef)
    requires a != b && x != a && x != b
    ensures var meta := map[b := SystemConfig(false, [a]), a := SystemConfig(false, [x])];
      OrderAsWritten([b, a], meta) == Success(OrderState({b}, {}, [a, b], [b]))
  {
    var meta := map[b := SystemConfig(false, [a]), a := SystemConfig(false, [x])];
    var st0 := OrderState({a, b}, {}, [], []);
    assert InitialState([b, a]) == st0;
    VisitPullsDependency(st0, b, a, meta, false);
    var w1 := Placed(st0.(live := st0.live - {a}, ordered := st0.ordered + [a]), b, false);
    assert w1 == OrderState({b}, {}, [a, b], [b]);
    assert OrderFrom([b, a], 0, st0, meta, false) == OrderFrom([b, a], 1, w1, meta, false);
    assert OrderFrom([b, a], 1, w1, meta, false) == OrderFrom([b, a], 2, w1, meta, false);
  }

  // ---------------------------------------------------------------------
  // Run-once systems

  /** The systems manager after construction: its order and whether run-once systems were cleared. */
  datatype SystemsManager = SystemsManager(ordered: seq<ClassRef>, runOnceCleared: bool)

  function NewManager(order: OrderState): (r: SystemsManager)
    ensures r.ordered == order.ordered && !r.runOnceCleared
  {
    SystemsManager(order.ordered, false)
  }

  /** The systems that are not run-once, in their order. */
  function KeepRepeating(xs: seq<ClassRef>, meta: ConfigTable): (r: seq<ClassRef>)
    ensures |r| <= |xs|
    ensures forall i :: 0 <= i < |r| ==> !GetConfig(meta, r[i]).runOnce
  {
    if |xs| == 0 then []
    else if GetConfig(meta, xs[0]).runOnce then KeepRepeating(xs[1..], meta)
    else [xs[0]] + KeepRepeating(xs[1..], meta)
  }

  /** Filtering keeps exactly the systems that are not run-once. */
  lemma {:induction false} KeepRepeatingMembers(xs: seq<ClassRef>, meta: ConfigTable)
    ensures forall x :: x in KeepRepeating(xs, meta) <==> x in xs && !GetConfig(meta, x).runOnce
    decreases |xs|
  {
    if |xs| > 0 {
      KeepRepeatingMembers(xs[1..], meta);
      assert forall x :: x in xs <==> x == xs[0] || x in xs[1..];
    }
  }

  /** Filtering keeps every occurrence of a system that is not run-once, and none of one that is. */
  lemma {:induction false} KeepRepeatingCounts(xs: seq<ClassRef>, meta: ConfigTable)
    ensures forall x :: multiset(KeepRepeating(xs, meta))[x] == if GetConfig(meta, x).runOnce then 0 else multiset(xs)[x]
    decreases |xs|
  {
    if |xs| > 0 {
      KeepRepeatingCounts(xs[1..], meta);
      assert xs == [xs[0]] + xs[1..];
      assert multiset(xs) == multiset{xs[0]} + multiset(xs[1..]);
    }
  }

  /** Filtering a concatenation filters each part: the kept systems keep their relative order. */
  lemma {:induction false} KeepRepeatingAppend(xs: seq<ClassRef>, ys: seq<ClassRef>, meta: ConfigTable)
    ensures KeepRepeating(xs + ys, meta) == KeepRepeating(xs, meta) + KeepRepeating(ys, meta)
    decreases |xs|
  {
    if |xs| == 0 {
      assert xs + ys == ys;
    } else {
      assert (xs + ys)[0] == xs[0];
      assert (xs + ys)[1..] == xs[1..] + ys;
      KeepRepeatingAppend(xs[1..], ys, meta);
    }
  }

  /** `clearRunOnceSystems()`: the first call drops the run-once systems; later calls do nothing. */
  function ClearRunOnce(m: SystemsManager, meta: ConfigTable): (r: SystemsManager)
    ensures r.runOnceCleared
    ensures m.runOnceCleared ==> r == m
    ensures !m.runOnceCleared ==> forall x :: x in r.ordered <==> x in m.ordered && !GetConfig(meta, x).runOnce
    ensures !m.runOnceCleared ==> r.ordered == KeepRepeating(m.ordered, meta)
    ensures !m.runOnceCleared ==> forall x :: multiset(r.ordered)[x] == if GetConfig(meta, x).runOnce then 0 else multiset(m.ordered)[x]
  {
    KeepRepeatingMembers(m.ordered, meta);
    KeepRepeatingCounts(m.ordered, meta);
    if m.runOnceCleared then m else SystemsManager(KeepRepeating(m.ordered, meta), true)
  }

  lemma ClearRunOnceIsIdempotent(m: SystemsManager, meta: ConfigTable, meta': ConfigTable)
    ensures ClearRunOnce(ClearRunOnce(m, meta), meta') == ClearRunOnce(m, meta)
  {
  }
}
