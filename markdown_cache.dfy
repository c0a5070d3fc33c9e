/**
 * The rendered-markdown cache of the UI's `Markdown` component: a module-level `Map` from a
 * cache key to the content hash and sanitised html, kept in insertion order and bounded to
 * 200 entries by evicting the oldest-inserted key. `touch` re-inserts a key as the newest.
 *
 * The checksum of the text and the sanitised output of the markdown renderer are parameters.
 */
module MarkdownCache {
  import opened Wrappers

  const Max: nat := 200

  datatype Entry = Entry(hash: string, html: string)

  predicate Distinct(s: seq<string>) {
    forall i, j :: 0 <= i < j < |s| ==> s[i] != s[j]
  }

  /** The key order after `cache.delete(key)`. */
  function Without(keys: seq<string>, key: string): (r: seq<string>)
    ensures key !in r
    ensures forall k :: k in r <==> k in keys && k != key
    ensures Distinct(keys) ==> Distinct(r)
    ensures key in keys && Distinct(keys) ==> |r| == |keys| - 1
    ensures key !in keys ==> r == keys
  {
    if keys == [] then []
    else if keys[0] == key then
      (assert Distinct(keys) ==> key !in keys[1..]; Without(keys[1..], key))
    else
      var t := Without(keys[1..], key);
      assert Distinct(keys) ==> keys[0] !in keys[1..] && keys[0] !in t;
      if Distinct(keys) then DistinctCons(keys[0], t); [keys[0]] + t
      else [keys[0]] + t
  }

  lemma DistinctCons(a: string, t: seq<string>)
    requires a !in t && Distinct(t)
    ensures Distinct([a] + t)
  {
    var s := [a] + t;
    forall i, j | 0 <= i < j < |s| ensures s[i] != s[j] {
      if i == 0 { assert s[j] == t[j - 1]; } else { assert s[i] == t[i - 1] && s[j] == t[j - 1]; }
    }
  }

  lemma DistinctSnoc(t: seq<string>, a: string)
    requires a !in t && Distinct(t)
    ensures Distinct(t + [a])
  {
    var s := t + [a];
    forall i, j | 0 <= i < j < |s| ensures s[i] != s[j] {
      assert s[i] == t[i];
      if j < |t| { assert s[j] == t[j]; }
    }
  }

  /** The key order after `delete`, `set` and, past the bound, the eviction of the first key. */
  function TouchedKeys(keys: seq<string>, key: string): seq<string> {
    var inserted := Without(keys, key) + [key];
    if |inserted| > Max && inserted[0] != "" then inserted[1..] else inserted
  }

  /** The entries after the same steps. */
  function TouchedEntries(entries: map<string, Entry>, keys: seq<string>, key: string, value: Entry): map<string, Entry> {
    var inserted := Without(keys, key) + [key];
    var updated := entries[key := value];
    if |inserted| > Max && inserted[0] != "" then updated - {inserted[0]} else updated
  }

  ghost predicate CacheValid(keys: seq<string>, entries: map<string, Entry>) {
    && Distinct(keys)
    && (forall k :: k in entries <==> k in keys)
    && |keys| <= Max
    && "" !in entries
  }

  /**
   * After `touch`, the key is the newest entry and holds the new value, the size is within the
   * bound, the oldest other key is evicted exactly when the bound is exceeded, and every other
   * entry is kept.
   */
  lemma TouchSpec(keys: seq<string>, entries: map<string, Entry>, key: string, value: Entry)
    requires CacheValid(keys, entries) && key != ""
    ensures var k2 := TouchedKeys(keys, key);
      var e2 := TouchedEntries(entries, keys, key, value);
      && CacheValid(k2, e2)
      && k2[|k2| - 1] == key && e2[key] == value
      && (key !in keys && |keys| == Max ==> k2 == keys[1..] + [key] && keys[0] !in e2)
      && (key in keys || |keys| < Max ==> k2 == Without(keys, key) + [key])
      && (forall k :: k in entries && k != key && !(key !in keys && |keys| == Max && k == keys[0]) ==> k in e2 && e2[k] == entries[k])
  {
    var rest := Without(keys, key);
    var inserted := rest + [key];
    DistinctSnoc(rest, key);
    if key !in keys && |keys| == Max {
      EvictOldest(keys, entries, key, value);
    } else {
      assert |rest| < Max;
    }
  }

  lemma EvictOldest(keys: seq<string>, entries: map<string, Entry>, key: string, value: Entry)
    requires CacheValid(keys, entries) && key != "" && key !in keys && |keys| == Max
    ensures TouchedKeys(keys, key) == keys[1..] + [key]
    ensures TouchedEntries(entries, keys, key, value) == entries[key := value] - {keys[0]}
    ensures CacheValid(TouchedKeys(keys, key), TouchedEntries(entries, keys, key, value))
  {
    var inserted := keys + [key];
    assert inserted[0] == keys[0];
    assert keys[0] in entries;
    assert inserted[1..] == keys[1..] + [key];
    DistinctSnoc(keys, key);
    var k2 := keys[1..] + [key];
    assert Distinct(k2) by {
      assert k2 == inserted[1..];
      forall i, j | 0 <= i < j < |k2| ensures k2[i] != k2[j] { assert k2[i] == inserted[i + 1] && k2[j] == inserted[j + 1]; }
    }
    var e2 := entries[key := value] - {keys[0]};
    forall k ensures k in e2 <==> k in k2 {
      if k in keys[1..] {
        var m :| 0 <= m < |keys[1..]| && keys[1..][m] == k;
        assert keys[m + 1] == k;
      }
      if k in keys && k != keys[0] {
        var m :| 0 <= m < |keys| && keys[m] == k;
        assert m != 0;
        assert keys[1..][m - 1] == k;
      }
    }
  }

  class Cache {
    /** The keys in insertion order, the order `cache.keys()` yields them. */
    var keys: seq<string>
    var entries: map<string, Entry>

    ghost predicate Valid()
      reads this
    {
      CacheValid(keys, entries)
    }

    constructor ()
      ensures Valid() && keys == [] && entries == map[]
    {
      keys := [];
      entries := map[];
    }

    /** `touch(key, value)`. The component only touches non-empty keys. */
    method Touch(key: string, value: Entry)
      requires Valid() && key != ""
      modifies this
      ensures Valid()
      ensures keys == TouchedKeys(old(keys), key)
      ensures entries == TouchedEntries(old(entries), old(keys), key, value)
    {
      TouchSpec(keys, entries, key, value);
      // delete and set: the key moves to the end of the insertion order
      keys := Without(keys, key) + [key];
      entries := entries[key := value];
      if |keys| <= Max {
        return;
      }
      var first := keys[0];
      if first == "" {
        return;
      }
      keys := keys[1..];
      entries := entries - {first};
    }

    /**
     * The resource fetcher: on the server nothing is rendered; otherwise a cached entry under
     * the key whose hash matches the text's checksum is returned and refreshed, and on a miss
     * the freshly rendered html is returned and stored with the new hash. An empty key or
     * checksum bypasses the cache.
     */
    method Render(isServer: bool, cacheKey: Option<string>, hash: string, rendered: string) returns (html: string)
      requires Valid()
      modifies this
      ensures Valid()
      ensures isServer ==> html == "" && keys == old(keys) && entries == old(entries)
      ensures !isServer ==>
        var key := cacheKey.GetOr(hash);
        var hit := Lookup(old(entries), key, hash);
        && (hit.Some? ==>
              html == hit.value.html && keys == TouchedKeys(old(keys), key) && entries == TouchedEntries(old(entries), old(keys), key, hit.value))
        && (hit.None? ==> html == rendered)
        && (hit.None? && key != "" && hash != "" ==>
              keys == TouchedKeys(old(keys), key) && entries == TouchedEntries(old(entries), old(keys), key, Entry(hash, rendered)))
        && (hit.None? && (key == "" || hash == "") ==> keys == old(keys) && entries == old(entries))
    {
      if isServer {
        return "";
      }
      var key := cacheKey.GetOr(hash);
      if key != "" && hash != "" {
        if key in entries && entries[key].hash == hash {
          var cached := entries[key];
          Touch(key, cached);
          return cached.html;
        }
      }
      html := rendered;
      if key != "" && hash != "" {
        Touch(key, Entry(hash, rendered));
      }
    }
  }

  /** The cache hit test: an entry under a non-empty key whose stored hash is the text's checksum. */
  function Lookup(entries: map<string, Entry>, key: string, hash: string): (r: Option<Entry>)
    ensures r.Some? <==> key != "" && hash != "" && key in entries && entries[key].hash == hash
    ensures r.Some? ==> r.value == entries[key]
  {
    if key != "" && hash != "" && key in entries && entries[key].hash == hash then Some(entries[key]) else None
  }

  /** A miss followed by the same text hits, and returns what the miss rendered. */
  lemma MissThenHit(keys: seq<string>, entries: map<string, Entry>, key: string, hash: string, rendered: string)
    requires CacheValid(keys, entries) && key != "" && hash != ""
    ensures var e2 := TouchedEntries(entries, keys, key, Entry(hash, rendered));
      Lookup(e2, key, hash) == Some(Entry(hash, rendered))
  {
    TouchSpec(keys, entries, key, Entry(hash, rendered));
  }
}
