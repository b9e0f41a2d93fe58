/**
 * `Scope` (src/helpers/scope.ts): a dynamically bound value. `runWith`
 * installs a value for the duration of a call and restores the previous
 * one afterwards; `get` outside any `runWith` fails.
 */
module Scopes {
  import opened Wrappers

  datatype ScopeError = OutOfScope

  /** `None` is the source's `SCOPE_EMPTY` marker. */
  datatype Scope<T> = Scope(state: Option<T>)

  function EmptyScope<T>(): (s: Scope<T>)
    ensures Get(s) == Failure(OutOfScope)
  {
    Scope(None)
  }

  /** `get()`: the bound value, or `OutOfScopeError` when nothing is bound. */
  function Get<T>(s: Scope<T>): (r: Result<T, ScopeError>)
    ensures r.Failure? <==> s.state.None?
    ensures r.Success? ==> Some(r.value) == s.state
  {
    match s.state
    case None => Failure(OutOfScope)
    case Some(v) => Success(v)
  }

  /**
   * `runWith(state, fn)` on the normal-return path: `fn` sees `state`
   * bound, its result is returned, and the scope afterwards is the scope
   * before the call.
   */
  function RunWith<T, R>(s: Scope<T>, state: T, fn: Scope<T> -> R): (r: (R, Scope<T>))
    ensures r.1 == s
  {
    var inner := Scope(Some(state));
    (fn(inner), s)
  }

  /** Inside `runWith(s, fn)`, `get` returns `s`, and `runWith` returns what `fn` returns. */
  lemma RunWithBindsState<T>(s: Scope<T>, state: T)
    ensures RunWith(s, state, Get).0 == Success(state)
  {
  }

  /** `get` outside every `runWith` fails, also after a `runWith` has returned. */
  lemma GetOutsideFails<T>(state: T)
    ensures Get(EmptyScope<T>()) == Failure(OutOfScope)
    ensures Get(RunWith(EmptyScope<T>(), state, Get).1) == Failure(OutOfScope)
  {
  }

  /** A nested `runWith` shadows the outer value and restores it on return. */
  lemma NestingRestoresOuter<T>(s: Scope<T>, outer: T, inner: T)
    ensures RunWith(s, outer, (sc: Scope<T>) => RunWith(sc, inner, Get).0).0 == Success(inner)
    ensures RunWith(s, outer, (sc: Scope<T>) => Get(RunWith(sc, inner, Get).1)).0 == Success(outer)
  {
  }
}
