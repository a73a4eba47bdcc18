/**
 * The match cache (ClassifierUtil.kt lines 599-616): results of expensive pairwise
 * computations, keyed by a token naming the computation and the two entities compared.
 */
module MatchCaches {

  import opened Wrappers

  /** A token names one cached computation; tokens are told apart by their handle. */
  datatype CacheToken = CacheToken(id: nat)

  datatype CacheKey<E> = CacheKey(token: CacheToken, a: E, b: E)

  /** The token of the cached instruction alignment. */
  const INSN_MAP_CACHE: CacheToken := CacheToken(0)

  class MatchCache<E(==), V> {

    var entries: map<CacheKey<E>, V>

    constructor ()
      ensures entries == map[]
    {
      entries := map[];
    }

    /** Every entry stored under `token` is what `f` answers for its pair. */
    ghost predicate Memoizes(token: CacheToken, f: (E, E) -> V)
      reads this
    {
      forall k :: k in entries && k.token == token ==> entries[k] == f(k.a, k.b)
    }

    method Clear()
      modifies this
      ensures entries == map[]
    {
      entries := map[];
    }

    /** The value stored for the pair under `token`, if any. */
    function Get(token: CacheToken, a: E, b: E): (r: Option<V>)
      reads this
      ensures r.Some? <==> CacheKey(token, a, b) in entries
      ensures r.Some? ==> entries[CacheKey(token, a, b)] == r.value
    {
      var key := CacheKey(token, a, b);
      if key in entries then Some(entries[key]) else None
    }

    /**
     * Compute-if-absent: a stored value is returned and nothing changes (so `f` is not
     * consulted); otherwise `f(a, b)` is stored and returned, and no other key changes.
     */
    method Compute(token: CacheToken, a: E, b: E, f: (E, E) -> V) returns (r: V)
      modifies this
      ensures old(CacheKey(token, a, b) in entries) ==>
        r == old(entries[CacheKey(token, a, b)]) && entries == old(entries)
      ensures old(CacheKey(token, a, b) !in entries) ==>
        r == f(a, b) && entries == old(entries)[CacheKey(token, a, b) := r]
      ensures Get(token, a, b) == Some(r)
      ensures forall k :: k != CacheKey(token, a, b) ==> (k in entries <==> k in old(entries))
      ensures forall t, g :: old(Memoizes(t, g)) && (t == token ==> r == g(a, b)) ==> Memoizes(t, g)
      ensures old(Memoizes(token, f)) ==> r == f(a, b) && Memoizes(token, f)
    {
      var key := CacheKey(token, a, b);
      if key in entries {
        r := entries[key];
      } else {
        r := f(a, b);
        entries := entries[key := r];
      }
    }
  }
}
