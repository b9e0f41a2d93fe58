/**
 * The engine builder: the system classes and resource classes it collects,
 * in insertion order and without duplicates, and the minimum log level.
 */
module Engines {
  import opened Wrappers
  import opened Ids
  import Systems

  /** `LogLevel`, ranked from `Trace` (0) to `Error` (4). */
  datatype LogLevel = Trace | Debug | Info | Warning | Error

  function Rank(l: LogLevel): (n: nat)
    ensures n <= 4
    ensures l == Trace <==> n == 0
  {
    match l
    case Trace => 0
    case Debug => 1
    case Info => 2
    case Warning => 3
    case Error => 4
  }

  /** The logger's filter: a message is printed unless its level ranks below the minimum. */
  predicate Emits(level: LogLevel, min: LogLevel) {
    Rank(level) >= Rank(min)
  }

  /**
   * Raising the minimum level never lets more messages through, and
   * errors are always printed.
   */
  lemma RaisingMinimumHidesMore(level: LogLevel, low: LogLevel, high: LogLevel)
    requires Rank(low) <= Rank(high)
    ensures Emits(level, high) ==> Emits(level, low)
    ensures Emits(Error, high)
  {
  }

  /** With the engine's default minimum, exactly warnings and errors are printed. */
  lemma DefaultLevelShowsWarningsAndErrors(level: LogLevel)
    ensures Emits(level, NewEngine().minLogLevel) <==> level == Warning || level == Error
  {
  }

  datatype EngineError = DuplicateSystem(system: ClassRef) | DuplicateResource(resource: ClassRef)

  /** The engine's `Set`s of classes, as sequences in insertion order. */
  datatype Engine = Engine(systems: seq<ClassRef>, resources: seq<ClassRef>, minLogLevel: LogLevel)

  /** Neither collection holds a class twice. */
  ghost predicate Valid(e: Engine) {
    Systems.NoDuplicates(e.systems) && Systems.NoDuplicates(e.resources)
  }

  /** A new engine: nothing added, log level `Warning`. */
  function NewEngine(): (r: Engine)
    ensures Valid(r) && |r.systems| == 0 && |r.resources| == 0
    ensures r.minLogLevel == Warning && Rank(r.minLogLevel) == 3
  {
    Engine([], [], Warning)
  }

  /** Whether `classes[i]` was already present when the loop reached it. */
  ghost predicate SeenBefore(e: Engine, classes: seq<ClassRef>, i: nat)
    requires i < |classes|
  {
    classes[i] in e.systems || classes[i] in classes[..i]
  }

  /**
   * `system(...systems)`: adds the classes one by one; the first class
   * already present throws `DuplicateSystemError`, and the classes before
   * it in the same call stay added.
   */
  function AddSystems(e: Engine, classes: seq<ClassRef>): (r: (Engine, Option<EngineError>))
    ensures r.0.resources == e.resources && r.0.minLogLevel == e.minLogLevel
    ensures |e.systems| <= |r.0.systems| <= |e.systems| + |classes|
    ensures r.0.systems == e.systems + classes[..|r.0.systems| - |e.systems|]
    ensures r.1.None? <==> |r.0.systems| == |e.systems| + |classes|
    ensures r.1.Some? ==> r.1.value == DuplicateSystem(classes[|r.0.systems| - |e.systems|])
    decreases |classes|
  {
    if |classes| == 0 then
      (e, None)
    else if classes[0] in e.systems then
      assert e.systems + classes[..0] == e.systems;
      (e, Some(DuplicateSystem(classes[0])))
    else
      var e1 := e.(systems := e.systems + [classes[0]]);
      var r := AddSystems(e1, classes[1..]);
      ghost var n := |r.0.systems| - |e1.systems|;
      assert classes[..n + 1] == [classes[0]] + classes[1..][..n];
      r
  }

  /** The classes a call adds are exactly those before the first one already present or repeated. */
  lemma {:induction false} AddSystemsStopsAtFirstDuplicate(e: Engine, classes: seq<ClassRef>)
    ensures var r := AddSystems(e, classes);
      && (forall i :: 0 <= i < |r.0.systems| - |e.systems| ==> !SeenBefore(e, classes, i))
      && (r.1.Some? ==> SeenBefore(e, classes, |r.0.systems| - |e.systems|))
    decreases |classes|
  {
    if |classes| > 0 && classes[0] !in e.systems {
      var e1 := e.(systems := e.systems + [classes[0]]);
      ShiftSeenBefore(e, classes);
      AddSystemsStopsAtFirstDuplicate(e1, classes[1..]);
      assert !SeenBefore(e, classes, 0);
    }
  }

  /** A call adds every class it is given exactly when none of them is present already or repeated. */
  lemma AddSystemsSucceedsIffFresh(e: Engine, classes: seq<ClassRef>)
    ensures AddSystems(e, classes).1.None? <==> forall i :: 0 <= i < |classes| ==> !SeenBefore(e, classes, i)
    ensures AddSystems(e, classes).1.None? ==> AddSystems(e, classes).0.systems == e.systems + classes
  {
    AddSystemsStopsAtFirstDuplicate(e, classes);
    assert classes[..|classes|] == classes;
  }

  /** Whatever a call adds, no system class is held twice. */
  lemma AddSystemsKeepsValid(e: Engine, classes: seq<ClassRef>)
    requires Valid(e)
    ensures Valid(AddSystems(e, classes).0)
  {
    var xs := AddSystems(e, classes).0.systems;
    AddSystemsStopsAtFirstDuplicate(e, classes);
    forall p, q | 0 <= p < q < |xs|
      ensures xs[p] != xs[q]
    {
      if q >= |e.systems| {
        var i := q - |e.systems|;
        assert xs[q] == classes[i] && !SeenBefore(e, classes, i);
        if p < |e.systems| {
          assert xs[p] == e.systems[p];
        } else {
          assert xs[p] == classes[..i][p - |e.systems|];
        }
      }
    }
  }

  /** Appending a class not yet present keeps a sequence free of duplicates. */
  lemma AppendKeepsDistinct(xs: seq<ClassRef>, x: ClassRef)
    requires x !in xs
    ensures Systems.NoDuplicates(xs) ==> Systems.NoDuplicates(xs + [x])
  {
    if Systems.NoDuplicates(xs) {
      Systems.AppendFresh(xs, x);
    }
  }

  /** After the first class is added, "seen before" for the rest means the same as for the whole call. */
  lemma ShiftSeenBefore(e: Engine, classes: seq<ClassRef>)
    requires |classes| > 0
    ensures forall i :: 1 <= i < |classes| ==>
      (SeenBefore(e, classes, i) <==> SeenBefore(e.(systems := e.systems + [classes[0]]), classes[1..], i - 1))
  {
    forall i | 1 <= i < |classes|
      ensures SeenBefore(e, classes, i) <==> SeenBefore(e.(systems := e.systems + [classes[0]]), classes[1..], i - 1)
    {
      assert classes[..i] == [classes[0]] + classes[1..][..i - 1];
      assert classes[1..][i - 1] == classes[i];
    }
  }

  /** Adding systems in two calls is adding them in one, when the first call succeeds. */
  lemma {:induction false} AddSystemsInTwoCalls(e: Engine, xs: seq<ClassRef>, ys: seq<ClassRef>)
    requires AddSystems(e, xs).1.None?
    ensures AddSystems(e, xs + ys) == AddSystems(AddSystems(e, xs).0, ys)
    decreases |xs|
  {
    if |xs| == 0 {
      assert xs + ys == ys;
    } else {
      assert (xs + ys)[0] == xs[0] && (xs + ys)[1..] == xs[1..] + ys;
      AddSystemsInTwoCalls(e.(systems := e.systems + [xs[0]]), xs[1..], ys);
    }
  }

  /** `resource(R)`: `DuplicateResourceError` when already added; otherwise appended. */
  function AddResource(e: Engine, c: ClassRef): (r: Result<Engine, EngineError>)
    ensures r.Failure? <==> c in e.resources
    ensures r.Failure? ==> r.error == DuplicateResource(c)
    ensures r.Success? ==> r.value == e.(resources := e.resources + [c])
    ensures r.Success? && Valid(e) ==> Valid(r.value)
  {
    if c in e.resources then
      Failure(DuplicateResource(c))
    else
      AppendKeepsDistinct(e.resources, c);
      Success(e.(resources := e.resources + [c]))
  }

  /** `logLevel(level)`: replaces the minimum level; nothing else changes. */
  function SetLogLevel(e: Engine, l: LogLevel): (r: Engine)
    ensures r.minLogLevel == l && r.systems == e.systems && r.resources == e.resources
  {
    e.(minLogLevel := l)
  }

  /** A second registration of the same resource always fails and leaves the engine as the first left it. */
  lemma ResourceAddedOnlyOnce(e: Engine, c: ClassRef)
    requires AddResource(e, c).Success?
    ensures AddResource(AddResource(e, c).value, c) == Failure(DuplicateResource(c))
  {
  }

  /** Adding the same system twice in one call fails at the second occurrence, after adding the first. */
  lemma SystemTwiceInOneCall(e: Engine, a: ClassRef)
    requires a !in e.systems
    ensures AddSystems(e, [a, a]) == (e.(systems := e.systems + [a]), Some(DuplicateSystem(a)))
  {
    assert [a, a][1..] == [a];
  }
}
