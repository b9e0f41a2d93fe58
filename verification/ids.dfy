/**
 * Identifiers (src/engine/id.ts): entity and component ids are plain
 * numbers handed out by a counter that starts below zero.
 */
module Ids {

  type EntityId = nat
  type ComponentId = nat

  /** The identity of a JavaScript class (a component, resource or system constructor). */
  datatype ClassRef = ClassRef(name: string, key: nat)

  /**
   * `IdProvider`: the last id handed out, `-1` before the first call.
   * The counter is never below `-1`.
   */
  datatype IdProvider = IdProvider(counter: int)

  ghost predicate Valid(p: IdProvider) {
    p.counter >= -1
  }

  function NewProvider(): (p: IdProvider)
    ensures Valid(p)
  {
    IdProvider(-1)
  }

  /** `next()`: pre-increments the counter and returns it. */
  function Next(p: IdProvider): (r: (nat, IdProvider))
    requires Valid(p)
    ensures Valid(r.1)
    ensures r.0 == p.counter + 1
    ensures r.1.counter == r.0
  {
    var id := p.counter + 1;
    (id, IdProvider(id))
  }

  /** The provider has already handed out `id`: the ids so far are `0 .. counter`. */
  ghost predicate Issued(p: IdProvider, id: nat) {
    id <= p.counter
  }

  /** A freshly created provider hands out 0 first. */
  lemma FirstIdIsZero()
    ensures Next(NewProvider()).0 == 0
    ensures forall id: nat :: !Issued(NewProvider(), id)
  {
  }

  /** `next()` never returns an id it returned before, and then counts it as issued. */
  lemma NextIsFresh(p: IdProvider)
    requires Valid(p)
    ensures !Issued(p, Next(p).0)
    ensures forall id: nat :: Issued(Next(p).1, id) <==> Issued(p, id) || id == Next(p).0
  {
  }

  /**
   * Calls `next()` `n` times and collects the results: they are the
   * consecutive ids following the counter, in increasing order.
   */
  method TakeIds(p: IdProvider, n: nat) returns (ids: seq<nat>, q: IdProvider)
    requires Valid(p)
    ensures Valid(q)
    ensures |ids| == n
    ensures forall i :: 0 <= i < n ==> ids[i] == p.counter + 1 + i
    ensures forall i, j :: 0 <= i < j < n ==> ids[i] < ids[j]
    ensures q.counter == p.counter + n
    ensures forall i :: 0 <= i < n ==> !Issued(p, ids[i]) && Issued(q, ids[i])
  {
    ids := [];
    q := p;
    while |ids| < n
      invariant Valid(q)
      invariant |ids| <= n
      invariant q.counter == p.counter + |ids|
      invariant forall i :: 0 <= i < |ids| ==> ids[i] == p.counter + 1 + i
    {
      var next := Next(q);
      ids := ids + [next.0];
      q := next.1;
    }
  }
}
