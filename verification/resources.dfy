/**
 * World resources: one instance per resource class, and resource queries
 * that remember whether a writer touched the resource since the query's own
 * system last ran.
 */
module Resources {
  import opened Wrappers
  import opened Ids

  /** A resource instance; its contents belong to user code. */
  type ResourceData(==)

  /** A resource query, named by its position in the world's query list. */
  type QueryRef = nat

  datatype ResourceError = MissingResource(cls: ClassRef)

  /** `ResourceQueryImpl`: the class it reads, its write flag and its two per-run flags. */
  datatype ResourceQuery = ResourceQuery(cls: ClassRef, writable: bool, isModified: bool, wasAccessed: bool, data: ResourceData)

  /**
   * The resource manager together with the queries it notifies:
   * `instances` is the class-to-instance map, `subscribers` the multimap
   * from a class to the queries on it (a set per class, as the source's
   * `SetMap`).
   */
  datatype ResourceState = ResourceState(
    instances: map<ClassRef, ResourceData>,
    subscribers: map<ClassRef, set<QueryRef>>,
    queries: seq<ResourceQuery>)

  /** Every subscriber exists and reads the class it is filed under, and every query is filed. */
  ghost predicate Valid(st: ResourceState) {
    && (forall c, i: QueryRef :: Subscribed(st, c, i) ==> i < |st.queries| && st.queries[i].cls == c)
    && (forall i :: 0 <= i < |st.queries| ==> Subscribed(st, st.queries[i].cls, i))
  }

  /** Whether query `i` is filed under class `c`. */
  predicate Subscribed(st: ResourceState, c: ClassRef, i: QueryRef) {
    c in st.subscribers && i in st.subscribers[c]
  }

  /** The constructor: one instance per class, built by `init` (the class's own no-argument constructor). */
  function NewState(classes: set<ClassRef>, init: ClassRef -> ResourceData): (r: ResourceState)
    ensures Valid(r)
    ensures forall c :: c in r.instances <==> c in classes
    ensures forall c :: c in classes ==> r.instances[c] == init(c)
    ensures |r.queries| == 0
  {
    ResourceState(map c | c in classes :: init(c), map[], [])
  }

  /** `get(resource)`: the instance, or `MissingResourceError` when the class was never added. */
  function Get(st: ResourceState, cls: ClassRef): (r: Result<ResourceData, ResourceError>)
    ensures r.Failure? <==> cls !in st.instances
    ensures r.Failure? ==> r.error == MissingResource(cls)
    ensures r.Success? ==> r.value == st.instances[cls]
  {
    if cls in st.instances then Success(st.instances[cls]) else Failure(MissingResource(cls))
  }

  /** The resource query builder: which class, and whether `writable()` was called. */
  datatype QueryBuilder = QueryBuilder(cls: ClassRef, writable: bool)

  function NewQueryBuilder(cls: ClassRef): (r: QueryBuilder)
    ensures r.cls == cls && !r.writable
  {
    QueryBuilder(cls, false)
  }

  function MakeWritable(b: QueryBuilder): (r: QueryBuilder)
    ensures r.cls == b.cls && r.writable
  {
    b.(writable := true)
  }

  /**
   * `query()`: constructs the query, which files itself with the manager
   * (`addQuery`) and fetches the instance once; both per-run flags start
   * false.
   */
  function BuildQuery(st: ResourceState, b: QueryBuilder): (r: Result<(ResourceState, QueryRef), ResourceError>)
    ensures r.Failure? <==> b.cls !in st.instances
    ensures r.Failure? ==> r.error == MissingResource(b.cls)
    ensures r.Success? ==>
      var (st', i) := r.value;
      && i == |st.queries| && |st'.queries| == |st.queries| + 1
      && st'.queries[..i] == st.queries
      && st'.queries[i] == ResourceQuery(b.cls, b.writable, false, false, st.instances[b.cls])
      && st'.instances == st.instances
      && Subscribed(st', b.cls, i)
      && (forall c, j :: j != i ==> (Subscribed(st', c, j) <==> Subscribed(st, c, j)))
  {
    var data :- Get(st, b.cls);
    var i := |st.queries|;
    var subs := if b.cls in st.subscribers then st.subscribers[b.cls] else {};
    Success((ResourceState(st.instances, st.subscribers[b.cls := subs + {i}], st.queries + [ResourceQuery(b.cls, b.writable, false, false, data)]), i))
  }

  /** `get()` on a query: the instance, and the query remembers it was accessed. */
  function QueryGet(st: ResourceState, i: QueryRef): (r: (ResourceData, ResourceState))
    requires i < |st.queries|
    ensures r.0 == st.queries[i].data
    ensures r.1.instances == st.instances && r.1.subscribers == st.subscribers && |r.1.queries| == |st.queries|
    ensures r.1.queries[i].wasAccessed && r.1.queries[i] == st.queries[i].(wasAccessed := r.1.queries[i].wasAccessed)
    ensures forall j :: 0 <= j < |st.queries| && j != i ==> r.1.queries[j] == st.queries[j]
  {
    (st.queries[i].data, st.(queries := st.queries[i := st.queries[i].(wasAccessed := true)]))
  }

  /** `beforeSystem()`: forget the previous run's access. */
  function BeforeSystem(st: ResourceState, i: QueryRef): (r: ResourceState)
    requires i < |st.queries|
    ensures r.instances == st.instances && r.subscribers == st.subscribers && |r.queries| == |st.queries|
    ensures !r.queries[i].wasAccessed && r.queries[i] == st.queries[i].(wasAccessed := r.queries[i].wasAccessed)
    ensures forall j :: 0 <= j < |st.queries| && j != i ==> r.queries[j] == st.queries[j]
  {
    st.(queries := st.queries[i := st.queries[i].(wasAccessed := false)])
  }

  /** The manager's `markModified(class)`: every query filed under the class is flagged. */
  function MarkModified(st: ResourceState, cls: ClassRef): (r: ResourceState)
    ensures |r.queries| == |st.queries|
    ensures r.instances == st.instances && r.subscribers == st.subscribers
    ensures forall j :: 0 <= j < |r.queries| ==>
      r.queries[j] == (if Subscribed(st, cls, j) then st.queries[j].(isModified := true) else st.queries[j])
  {
    st.(queries := seq(|st.queries|, j requires 0 <= j < |st.queries| =>
      if Subscribed(st, cls, j) then st.queries[j].(isModified := true) else st.queries[j]))
  }

  /**
   * `afterSystem()`: a writable query whose resource was read during the
   * run flags every query on the class, itself included; then its own flag
   * is cleared.
   */
  function AfterSystem(st: ResourceState, i: QueryRef): (r: ResourceState)
    requires i < |st.queries|
    ensures r.instances == st.instances && r.subscribers == st.subscribers && |r.queries| == |st.queries|
    ensures !r.queries[i].isModified
    ensures forall j :: 0 <= j < |st.queries| && j != i ==>
      r.queries[j].isModified == (st.queries[j].isModified
        || (Subscribed(st, st.queries[i].cls, j) && st.queries[i].wasAccessed && st.queries[i].writable))
    ensures forall j :: 0 <= j < |st.queries| ==> r.queries[j] == st.queries[j].(isModified := r.queries[j].isModified)
  {
    var q := st.queries[i];
    var marked := if q.wasAccessed && q.writable then MarkModified(st, q.cls) else st;
    marked.(queries := marked.queries[i := marked.queries[i].(isModified := false)])
  }

  // ---------------------------------------------------------------------
  // Properties

  /** Building a query keeps every subscriber pointing at a query of its class. */
  lemma BuildQueryKeepsValid(st: ResourceState, b: QueryBuilder)
    requires Valid(st)
    ensures BuildQuery(st, b).Success? ==> Valid(BuildQuery(st, b).value.0)
  {
    if BuildQuery(st, b).Success? {
      var st' := BuildQuery(st, b).value.0;
      var i := BuildQuery(st, b).value.1;
      forall c, j: QueryRef | Subscribed(st', c, j)
        ensures j < |st'.queries| && st'.queries[j].cls == c
      {
        NewIndexNotFiled(st, c);
        if j != i {
          assert Subscribed(st, c, j);
          assert st'.queries[j] == st'.queries[..i][j];
        }
      }
      forall j | 0 <= j < |st'.queries|
        ensures Subscribed(st', st'.queries[j].cls, j)
      {
        if j < i {
          assert st'.queries[j] == st'.queries[..i][j];
          assert Subscribed(st, st.queries[j].cls, j);
        }
      }
    }
  }

  /** No class lists a query that does not exist yet. */
  lemma NewIndexNotFiled(st: ResourceState, c: ClassRef)
    requires Valid(st)
    ensures !Subscribed(st, c, |st.queries|)
  {
  }

  /** An update that keeps the filing and every query's class keeps the invariant. */
  lemma SameFilingKeepsValid(st: ResourceState, r: ResourceState)
    requires Valid(st)
    requires r.subscribers == st.subscribers && |r.queries| == |st.queries|
    requires forall j :: 0 <= j < |st.queries| ==> r.queries[j].cls == st.queries[j].cls
    ensures Valid(r)
  {
    forall c, j: QueryRef | Subscribed(r, c, j)
      ensures j < |r.queries| && r.queries[j].cls == c
    {
      assert Subscribed(st, c, j);
    }
    forall j | 0 <= j < |r.queries|
      ensures Subscribed(r, r.queries[j].cls, j)
    {
      assert Subscribed(st, st.queries[j].cls, j);
    }
  }

  /** The per-run operations never refile a query. */
  lemma RunOperationsKeepValid(st: ResourceState, i: QueryRef, cls: ClassRef)
    requires Valid(st) && i < |st.queries|
    ensures Valid(QueryGet(st, i).1)
    ensures Valid(BeforeSystem(st, i))
    ensures Valid(MarkModified(st, cls))
    ensures Valid(AfterSystem(st, i))
  {
    SameFilingKeepsValid(st, QueryGet(st, i).1);
    SameFilingKeepsValid(st, BeforeSystem(st, i));
    SameFilingKeepsValid(st, MarkModified(st, cls));
    var q := st.queries[i];
    var marked := if q.wasAccessed && q.writable then MarkModified(st, q.cls) else st;
    SameFilingKeepsValid(st, AfterSystem(st, i));
  }

  /**
   * After a system's run, its own query's modified flag is down; every other
   * query on the same class is flagged exactly when the query was writable
   * and the resource was read during the run; queries on other classes and
   * every access flag are untouched.
   */
  lemma AfterSystemFlagsReaders(st: ResourceState, i: QueryRef)
    requires Valid(st) && i < |st.queries|
    ensures var r := AfterSystem(st, i);
      && |r.queries| == |st.queries|
      && !r.queries[i].isModified
      && (forall j :: 0 <= j < |st.queries| && j != i ==>
            r.queries[j].isModified == (st.queries[j].isModified
              || (st.queries[j].cls == st.queries[i].cls && st.queries[i].wasAccessed && st.queries[i].writable)))
      && (forall j :: 0 <= j < |st.queries| ==>
            r.queries[j] == st.queries[j].(isModified := r.queries[j].isModified))
  {
    var q := st.queries[i];
    if q.wasAccessed && q.writable {
      var m := MarkModified(st, q.cls);
      forall j | 0 <= j < |st.queries| && j != i
        ensures m.queries[j].isModified == (st.queries[j].isModified || st.queries[j].cls == q.cls)
      {
        assert Subscribed(st, st.queries[j].cls, j);
      }
    }
  }

  /** Marking twice is marking once. */
  lemma MarkModifiedIsIdempotent(st: ResourceState, cls: ClassRef)
    ensures MarkModified(MarkModified(st, cls), cls) == MarkModified(st, cls)
  {
    var m := MarkModified(st, cls);
    var mm := MarkModified(m, cls);
    assert mm.queries == m.queries by {
      forall j | 0 <= j < |m.queries|
        ensures mm.queries[j] == m.queries[j]
      {
      }
    }
  }

  /**
   * One frame between a writer and a reader on the same class: the writer
   * reads the resource and finishes, the reader then sees `isModified`
   * during its own run, and has it cleared once its run ends.
   */
  lemma WriterModificationSeenOnce(st: ResourceState, w: QueryRef, rd: QueryRef)
    requires Valid(st) && w < |st.queries| && rd < |st.queries| && w != rd
    requires st.queries[w].writable && st.queries[w].cls == st.queries[rd].cls
    ensures var s1 := AfterSystem(QueryGet(BeforeSystem(st, w), w).1, w);
      && s1.queries[rd].isModified
      && BeforeSystem(s1, rd).queries[rd].isModified
      && !AfterSystem(BeforeSystem(s1, rd), rd).queries[rd].isModified
  {
    var s0 := QueryGet(BeforeSystem(st, w), w).1;
    RunOperationsKeepValid(st, w, st.queries[w].cls);
    RunOperationsKeepValid(BeforeSystem(st, w), w, st.queries[w].cls);
    AfterSystemFlagsReaders(s0, w);
  }

  /** A read-only query never flags anyone: only its own flag changes, and it goes down. */
  lemma ReadOnlyFlagsNobody(st: ResourceState, i: QueryRef)
    requires i < |st.queries| && !st.queries[i].writable
    ensures AfterSystem(st, i) == st.(queries := st.queries[i := st.queries[i].(isModified := false)])
  {
  }
}
