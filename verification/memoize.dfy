/**
 * `memoize_by_cwd` of pre_commit/util.py: a get-or-compute cache in front of
 * a wrapped function, keyed on the working directory together with the
 * positional arguments.  The cache is a mutable table that the wrapper owns;
 * it is never evicted, and an entry once written is never replaced.
 *
 * The working directory, which pre-commit's `util.py` reads from the process at each
 * call, is a parameter of `Call`.  The wrapped function is a function value
 * that either returns a value or fails; it receives the working directory
 * explicitly, because that is the ambient state it may depend on.
 */
module Memoize {
  import opened Wrappers

  /** The cache key `(cwd,) + args`: the working directory and the positional arguments. */
  type CacheKey<A> = (string, seq<A>)

  class MemoizedByCwd<A(==), V, E> {
    /** The wrapped function. */
    const func: (string, seq<A>) -> Result<V, E>
    /** `wrapper._cache`. */
    var cache: map<CacheKey<A>, V>
    /** Every invocation of `func` so far, oldest first (not kept by pre-commit's `util.py`). */
    ghost var invocations: seq<CacheKey<A>>

    /** Every cached entry is what `func` returned for its key, from an invocation that happened. */
    ghost predicate Valid()
      reads this
    {
      forall key :: key in cache ==> func(key.0, key.1) == Success(cache[key]) && key in invocations
    }

    /** `memoize_by_cwd(func)`: the wrapper starts with an empty table. */
    constructor (func: (string, seq<A>) -> Result<V, E>)
      ensures this.func == func
      ensures cache == map[] && invocations == []
      ensures Valid()
    {
      this.func := func;
      cache := map[];
      invocations := [];
    }

    /** The `wrapper._cache[key]` lookup: a hit, or `None` where pre-commit's `util.py` raises `KeyError`. */
    method Lookup(cwd: string, args: seq<A>) returns (hit: Option<V>)
      ensures hit.Some? <==> (cwd, args) in cache
      ensures hit.Some? ==> cache[(cwd, args)] == hit.value
      ensures Valid() && hit.Some? ==> func(cwd, args) == Success(hit.value)
    {
      var key := (cwd, args);
      if key in cache {
        hit := Some(cache[key]);
      } else {
        hit := None;
      }
    }

    /** One call of the wrapper with positional arguments `args`, made from directory `cwd`. */
    method Call(cwd: string, args: seq<A>) returns (r: Result<V, E>)
      modifies this`cache, this`invocations
      // hit: the stored value, no invocation, table unchanged
      ensures (cwd, args) in old(cache) ==>
        && r == Success(old(cache)[(cwd, args)])
        && cache == old(cache)
        && invocations == old(invocations)
      // miss: exactly one invocation, whose outcome is returned
      ensures (cwd, args) !in old(cache) ==>
        && invocations == old(invocations) + [(cwd, args)]
        && r == func(cwd, args)
      // a successful miss stores its value under the key and nothing else
      ensures (cwd, args) !in old(cache) && r.Success? ==>
        cache == old(cache)[(cwd, args) := r.value]
      // a failure propagates and leaves the table as it was
      ensures r.Failure? ==> cache == old(cache)
      // entries are never overwritten or removed
      ensures forall key :: key in old(cache) ==> key in cache && cache[key] == old(cache)[key]
      // the wrapper is transparent: it returns what the wrapped function would
      ensures old(Valid()) ==> Valid() && r == func(cwd, args)
    {
      var hit := Lookup(cwd, args);
      match hit
      case Some(v) =>
        r := Success(v);
      case None =>
        invocations := invocations + [(cwd, args)];
        r := func(cwd, args);
        if r.Success? {
          cache := cache[(cwd, args) := r.value];
        }
    }
  }

  /** Two identical calls from one directory: the second never invokes the
      wrapped function again unless the first one failed (a failure is not
      cached, so it is retried). */
  method CallTwice<A(==), V, E>(m: MemoizedByCwd<A, V, E>, cwd: string, args: seq<A>)
    returns (first: Result<V, E>, second: Result<V, E>)
    requires m.Valid()
    modifies m
    ensures m.Valid()
    ensures first == second == m.func(cwd, args)
    ensures (cwd, args) in old(m.cache) ==> m.invocations == old(m.invocations)
    ensures (cwd, args) !in old(m.cache) && first.Success? ==>
      m.invocations == old(m.invocations) + [(cwd, args)]
    ensures first.Failure? ==>
      m.invocations == old(m.invocations) + [(cwd, args), (cwd, args)]
    ensures (cwd, args) !in old(m.cache) && first.Success? ==>
      m.cache == old(m.cache)[(cwd, args) := first.value]
    ensures (cwd, args) in old(m.cache) || first.Failure? ==> m.cache == old(m.cache)
  {
    first := m.Call(cwd, args);
    second := m.Call(cwd, args);
  }

  /** The same arguments from a directory not seen before invoke the wrapped
      function again, even when another directory has them cached. */
  method CallFromTwoDirectories<A(==), V, E>(m: MemoizedByCwd<A, V, E>, cwd1: string, cwd2: string, args: seq<A>)
    returns (first: Result<V, E>, second: Result<V, E>)
    requires m.Valid()
    requires cwd1 != cwd2 && (cwd2, args) !in m.cache
    modifies m
    ensures m.Valid()
    ensures first == m.func(cwd1, args) && second == m.func(cwd2, args)
    ensures m.invocations == old(m.invocations)
      + (if (cwd1, args) in old(m.cache) then [] else [(cwd1, args)]) + [(cwd2, args)]
    // each directory's entry is stored on its own; earlier entries survive
    ensures forall key :: key in old(m.cache) ==> key in m.cache && m.cache[key] == old(m.cache)[key]
    ensures first.Success? ==> (cwd1, args) in m.cache && m.cache[(cwd1, args)] == first.value
    ensures second.Success? <==> (cwd2, args) in m.cache
    ensures second.Success? ==> m.cache[(cwd2, args)] == second.value
    ensures m.cache.Keys <= old(m.cache).Keys + {(cwd1, args), (cwd2, args)}
  {
    first := m.Call(cwd1, args);
    second := m.Call(cwd2, args);
  }
}
