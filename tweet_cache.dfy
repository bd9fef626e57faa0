/**
 * The bridge's tweet-text cache (`tweetTextCache` in
 * entrypoints/api-bridge.content.ts): tweet identifier to resolved text, in a
 * JavaScript `Map`, bounded by first-in-first-out eviction on the passive
 * path only.
 */
module TweetCache {
  import opened Wrappers
  import opened OrderedMaps

  const MaxCacheSize: nat := 1000

  type Cache = OrderedMap<string>

  /** One cache write: the identifier and the resolved text stored under it. */
  datatype Write = Write(id: string, text: string)

  /**
   * The insert of `cacheTweetFromResult`: at capacity the oldest key is
   * deleted first, but only when that key is truthy, i.e. not the empty
   * string; then the text is `set` under `id`.
   */
  function PassivePut(c: Cache, id: string, text: string): (r: Cache)
    requires Valid(c)
    ensures Valid(r)
    ensures id in r.entries && r.entries[id] == text
    ensures Size(c) < MaxCacheSize || c.keys[0] == "" ==> r == ActivePut(c, id, text)
  {
    var evicted := if Size(c) >= MaxCacheSize && c.keys[0] != "" then Delete(c, c.keys[0]) else c;
    Set(evicted, id, text)
  }

  /** The successive passive inserts `ws`, in order. */
  function PutAll(c: Cache, ws: seq<Write>): (r: Cache)
    requires Valid(c)
    ensures Valid(r)
    decreases |ws|
  {
    if ws == [] then c else PutAll(PassivePut(c, ws[0].id, ws[0].text), ws[1..])
  }

  /** A run of one insert is that insert. */
  lemma PutAllOne(c: Cache, w: Write)
    requires Valid(c)
    ensures PutAll(c, [w]) == PassivePut(c, w.id, w.text)
  {
    assert [w][1..] == [];
  }

  /** `tweetTextCache.get(id)`. */
  function Lookup(c: Cache, id: string): (r: Option<string>)
    ensures r.Some? <==> id in c.entries
    ensures r.Some? ==> r.value == c.entries[id]
  {
    if id in c.entries then Some(c.entries[id]) else None
  }

  /** The write of the active fallback (`tweetTextCache.set` with no eviction). */
  function ActivePut(c: Cache, id: string, text: string): (r: Cache)
    requires Valid(c)
    ensures Valid(r)
    ensures r.entries == c.entries[id := text]
    ensures r.keys == if id in c.entries then c.keys else c.keys + [id]
  {
    Set(c, id, text)
  }

  /** After a passive insert the new text is what `get(id)` returns, and every other surviving key keeps its text. */
  lemma PassivePutStores(c: Cache, id: string, text: string)
    requires Valid(c)
    ensures var r := PassivePut(c, id, text);
      id in r.entries && r.entries[id] == text &&
      forall k :: k in r.entries && k != id ==> k in c.entries && r.entries[k] == c.entries[k]
  {
  }

  /**
   * A passive insert keeps the cache within capacity, provided it was within
   * capacity and, when full, its oldest key is not the empty string.
   */
  lemma PassivePutBounded(c: Cache, id: string, text: string)
    requires Valid(c)
    requires Size(c) <= MaxCacheSize
    requires Size(c) == MaxCacheSize ==> c.keys[0] != ""
    ensures Size(PassivePut(c, id, text)) <= MaxCacheSize
  {
  }

  /**
   * At capacity, a passive insert evicts the oldest-inserted key. A key that
   * survives keeps its place; a new key, and the evicted key itself when it
   * is the one inserted, goes to the end of the order.
   */
  lemma PassivePutEvictsOldest(c: Cache, id: string, text: string)
    requires Valid(c)
    requires Size(c) >= MaxCacheSize && c.keys[0] != ""
    ensures var r := PassivePut(c, id, text);
      (id != c.keys[0] ==> c.keys[0] !in r.entries) &&
      r.keys == if id in c.entries && id != c.keys[0] then c.keys[1..] else c.keys[1..] + [id]
  {
    RemoveFirstKey(c.keys);
  }

  /**
   * As written, a full cache whose oldest key is the empty string is never
   * evicted from: inserting a new key grows it past the capacity.
   */
  lemma EmptyOldestKeyOverflows(c: Cache, id: string, text: string)
    requires Valid(c)
    requires Size(c) >= MaxCacheSize && c.keys[0] == "" && id !in c.entries
    ensures Size(PassivePut(c, id, text)) == Size(c) + 1
  {
  }

  /** The active write never evicts: on a full cache a new key takes it past the capacity. */
  lemma ActivePutOverflows(c: Cache, id: string, text: string)
    requires Valid(c)
    requires Size(c) == MaxCacheSize && id !in c.entries
    ensures Size(ActivePut(c, id, text)) == MaxCacheSize + 1
  {
  }

  /**
   * The capacity invariant over any run of passive inserts: when neither the
   * cache nor any write uses the empty identifier, the cache never exceeds
   * its capacity.
   */
  lemma {:induction false} PutAllBounded(c: Cache, ws: seq<Write>)
    requires Valid(c)
    requires Size(c) <= MaxCacheSize && "" !in c.entries
    requires forall k :: 0 <= k < |ws| ==> ws[k].id != ""
    ensures Size(PutAll(c, ws)) <= MaxCacheSize && "" !in PutAll(c, ws).entries
    decreases |ws|
  {
    if ws != [] {
      var c' := PassivePut(c, ws[0].id, ws[0].text);
      assert Size(c) == MaxCacheSize ==> c.keys[0] in c.entries;
      PassivePutBounded(c, ws[0].id, ws[0].text);
      PutAllBounded(c', ws[1..]);
    }
  }

  /** Inserting `a` then `b` is inserting `a + b`. */
  lemma {:induction false} PutAllAppend(c: Cache, a: seq<Write>, b: seq<Write>)
    requires Valid(c)
    ensures PutAll(c, a + b) == PutAll(PutAll(c, a), b)
    decreases |a|
  {
    if a != [] {
      assert (a + b)[0] == a[0];
      assert (a + b)[1..] == a[1..] + b;
      PutAllAppend(PassivePut(c, a[0].id, a[0].text), a[1..], b);
    } else {
      assert a + b == b;
    }
  }
}
