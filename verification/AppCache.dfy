/** The response caches. A cache may forget entries whenever it is used, and never makes one up; its
    time-to-live and capacity only decide which entries it forgets, and when. */
module AppCache {
  import opened Wrappers

  /** Every entry of `m` is an entry of `n`. */
  ghost predicate Within<K(!new), V>(m: map<K, V>, n: map<K, V>) {
    forall k :: k in m ==> k in n && m[k] == n[k]
  }

  /** The entries after a series of insertions, if none is forgotten. */
  function Overlay<K, V>(m: map<K, V>, inserted: seq<(K, V)>): map<K, V> {
    if inserted == [] then m
    else
      var last := inserted[|inserted| - 1];
      Overlay(m, inserted[..|inserted| - 1])[last.0 := last.1]
  }

  /** The key runs out or is pushed out at one of the uses counted from `first` on, before `end`. */
  ghost predicate Forgot<K>(forgets: nat -> set<K>, first: nat, end: nat, k: K) {
    exists n: nat :: first <= n < end && k in forgets(n)
  }

  /** What was there and has not been forgotten is still there. */
  ghost predicate Remains<K(!new), V>(m: map<K, V>, now: map<K, V>, forgets: nat -> set<K>, first: nat, end: nat) {
    forall k :: k in m && !Forgot(forgets, first, end, k) ==> k in now
  }

  class AppCache<K(==, !new), V> {
    var entries: map<K, V>

    /** Which keys the cache forgets at each of its uses, and how often it has been used. */
    const forgets: nat -> set<K>
    var uses: nat

    /** Every insertion ever made. */
    ghost var log: seq<(K, V)>

    constructor (forgets: nat -> set<K>)
      ensures entries == map[] && log == [] && uses == 0 && this.forgets == forgets
    {
      entries, log, uses := map[], [], 0;
      this.forgets := forgets;
    }

    method Get(key: K) returns (value: Option<V>)
      modifies this`entries, this`uses
      ensures entries == old(entries) - forgets(old(uses)) && uses == old(uses) + 1
      ensures value == if key in entries then Some(entries[key]) else None
    {
      entries, uses := entries - forgets(uses), uses + 1;
      value := if key in entries then Some(entries[key]) else None;
    }

    method Insert(key: K, value: V)
      modifies this
      ensures entries == old(entries)[key := value] - forgets(old(uses)) && uses == old(uses) + 1
      ensures log == old(log) + [(key, value)]
    {
      entries, log := entries[key := value], log + [(key, value)];
      entries, uses := entries - forgets(uses), uses + 1;
    }

    /** `get_or_try_insert` with no other flight under way: a value still there is served as it is; otherwise
        a fetched value is inserted, and a failed fetch leaves nothing behind. */
    method GetOrTryInsert(key: K, fetch: K -> Result<V>) returns (value: Result<V>)
      modifies this
      ensures var kept := old(entries) - forgets(old(uses));
        if key in kept then value == Ok(kept[key]) && entries == kept && log == old(log)
        else
          && value == fetch(key)
          && (value.Ok? ==> entries == kept[key := value.value] - forgets(old(uses) + 1) && log == old(log) + [(key, value.value)])
          && (value.Err? ==> entries == kept && log == old(log))
    {
      var hit := Get(key);
      if hit.Some? {
        return Ok(hit.value);
      }
      value := fetch(key);
      if value.Ok? {
        Insert(key, value.value);
      }
    }

    method InvalidateAll()
      modifies this`entries
      ensures entries == map[]
    {
      entries := map[];
    }
  }

  /** The caches a registry update clears, in the order of their registration. */
  class CacheGroup<K(==, !new), V> {
    var caches: seq<AppCache<K, V>>

    constructor ()
      ensures caches == []
    {
      caches := [];
    }

    method Register(cache: AppCache<K, V>)
      modifies this
      ensures caches == old(caches) + [cache]
    {
      caches := caches + [cache];
    }

    /** Clears every registered cache and touches no other. */
    method InvalidateAll()
      modifies set c | c in caches
      ensures forall c :: c in caches ==> c.entries == map[] && c.log == old(c.log)
    {
      for i := 0 to |caches|
        invariant forall c :: c in caches ==> c.log == old(c.log)
        invariant forall j :: 0 <= j < i ==> caches[j].entries == map[]
      {
        caches[i].InvalidateAll();
      }
    }
  }
}
