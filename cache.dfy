/**
 * The provider's read-through cache (`Cache.getOrFetch`,
 * SuperStreamMovie2k.kt:117-123): a hit returns the stored value without
 * fetching; a miss fetches once, stores the value under the key and
 * returns it.
 */
module PageCache {
  import opened Wrappers

  /**
   * The outcome of one `getOrFetch`: the value returned, or `None` when
   * `fetch` threw and the exception left the call; the entries after the
   * call; whether `fetch` ran.
   */
  datatype Lookup<T> = Lookup(value: Option<T>, entries: map<string, T>, fetched: bool)

  /**
   * `getOrFetch` on plain values. `fetch` gives `None` when it throws (the
   * request or the JSON parse fails); the value is then not stored.
   */
  function GetOrFetchStep<T>(entries: map<string, T>, key: string, fetch: () -> Option<T>): (r: Lookup<T>)
    ensures r.fetched <==> key !in entries
    ensures key in entries ==> r.value == Some(entries[key]) && r.entries == entries
    ensures key !in entries ==> r.value == fetch()
    ensures r.value.Some? ==> key in r.entries && r.entries[key] == r.value.value
    ensures r.value.None? ==> r.entries == entries
    ensures r.entries.Keys == entries.Keys + (if r.value.Some? then {key} else {})
    ensures forall k :: k in entries && k != key ==> r.entries[k] == entries[k]
  {
    if key in entries then Lookup(Some(entries[key]), entries, false)
    else
      match fetch()
      case None => Lookup(None, entries, true)
      case Some(v) => Lookup(Some(v), entries[key := v], true)
  }

  /**
   * Right after a call that produced a value, a second call with the same
   * key hits, whatever its `fetch`; after a call whose fetch threw, the
   * second call fetches again.
   */
  lemma SecondCallHits<T>(entries: map<string, T>, key: string, fetch: () -> Option<T>, again: () -> Option<T>)
    ensures var first := GetOrFetchStep(entries, key, fetch);
            var second := GetOrFetchStep(first.entries, key, again);
            (first.value.Some? ==> !second.fetched && second.value == first.value && second.entries == first.entries)
            && (first.value.None? ==> second.fetched && second.value == again())
  {
  }

  /** The fetches made by a run of calls, the entries after it, and whether a fetch threw and ended it. */
  datatype RunResult<T> = RunResult(fetches: nat, entries: map<string, T>, failed: bool)

  /** A run of calls with the keys `keys`; the first fetch that throws ends the run. */
  function Run<T>(entries: map<string, T>, keys: seq<string>, fetch: string -> (() -> Option<T>)): (r: RunResult<T>)
    ensures !r.failed ==> r.entries.Keys == entries.Keys + set k | k in keys
    ensures entries.Keys <= r.entries.Keys
    decreases |keys|
  {
    if keys == [] then RunResult(0, entries, false)
    else
      var step := GetOrFetchStep(entries, keys[0], fetch(keys[0]));
      if step.value.None? then RunResult(1, entries, true)
      else
        var rest := Run(step.entries, keys[1..], fetch);
        RunResult((if step.fetched then 1 else 0) + rest.fetches, rest.entries, rest.failed)
  }

  lemma KeysOfCons(keys: seq<string>)
    requires keys != []
    ensures (set k | k in keys) == (set k | k in keys[1..]) + {keys[0]}
  {
    assert keys == [keys[0]] + keys[1..];
  }

  /** Adding one key to the cache removes it, and only it, from the keys still missing. */
  lemma MissingAfterAdding(later: set<string>, cached: set<string>, k0: string)
    ensures |(later + {k0}) - cached| == (if k0 in cached then 0 else 1) + |later - (cached + {k0})|
  {
    var missing := later - (cached + {k0});
    if k0 in cached {
      assert (later + {k0}) - cached == missing;
    } else {
      assert (later + {k0}) - cached == missing + {k0};
      assert k0 !in missing;
    }
  }

  /**
   * A run of calls fetches each missing key exactly once, however often it
   * repeats: when no fetch throws, the fetch count is the number of distinct
   * keys not yet cached; a run ended by a throwing fetch makes no more.
   */
  lemma {:induction false} RunFetchesEachMissingKeyOnce<T>(entries: map<string, T>, keys: seq<string>,
                                                           fetch: string -> (() -> Option<T>))
    ensures !Run(entries, keys, fetch).failed ==> Run(entries, keys, fetch).fetches == |(set k | k in keys) - entries.Keys|
    ensures Run(entries, keys, fetch).fetches <= |(set k | k in keys) - entries.Keys|
    decreases |keys|
  {
    if keys == [] {
      assert (set k | k in keys) == {};
    } else {
      var k0 := keys[0];
      var step := GetOrFetchStep(entries, k0, fetch(k0));
      KeysOfCons(keys);
      if step.value.None? {
        assert k0 in (set k | k in keys) - entries.Keys;
      } else {
        RunFetchesEachMissingKeyOnce(step.entries, keys[1..], fetch);
        MissingAfterAdding((set k | k in keys[1..]), entries.Keys, k0);
      }
    }
  }

  /** The cache the provider holds; `fetches` counts the calls made to `fetch`. */
  class Cache<T> {
    var entries: map<string, T>
    ghost var fetches: nat

    constructor ()
      ensures entries == map[] && fetches == 0
    {
      entries := map[];
      fetches := 0;
    }

    /**
     * `getOrFetch`: the stored value on a hit; on a miss one fetch, whose
     * value is stored under `key` and returned. A fetch that throws (`None`)
     * leaves the entries as they were and the failure goes to the caller.
     */
    method GetOrFetch(key: string, fetch: () -> Option<T>) returns (v: Option<T>)
      modifies this
      ensures var step := GetOrFetchStep(old(entries), key, fetch);
              v == step.value && entries == step.entries
              && fetches == old(fetches) + (if step.fetched then 1 else 0)
      ensures key in old(entries) ==> v == Some(old(entries)[key]) && entries == old(entries) && fetches == old(fetches)
      ensures key !in old(entries) ==> v == fetch() && fetches == old(fetches) + 1
                                       && entries == (if v.Some? then old(entries)[key := v.value] else old(entries))
    {
      var stored := if key in entries then Some(entries[key]) else None;
      match stored
      case Some(hit) =>
        v := Some(hit);
      case None =>
        v := fetch();
        fetches := fetches + 1;
        if v.Some? {
          entries := entries[key := v.value];
        }
    }
  }
}
