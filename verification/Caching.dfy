/** The Redis-backed query cache: src/cache/querycache.py, one hash of entries a tenant name. */
module Caching {
  import opened Sequences
  import opened Ngsi

  /** The keys the translator uses in its own hash. */
  datatype CacheKey = MetadataTable | TableKey(table: string)

  /** The metadata-table marker, or the result of reading one table's metadata. */
  datatype CacheEntry = Marker | Rows(metadata: Metadata)

  type Hashes = map<string, map<CacheKey, CacheEntry>>

  function Lookup(h: Hashes, hash: string, key: CacheKey): Option<CacheEntry> {
    if hash in h && key in h[hash] then Some(h[hash][key]) else None
  }

  function Stored(h: Hashes, hash: string, key: CacheKey, entry: CacheEntry): Hashes {
    h[hash := (if hash in h then h[hash] else map[])[key := entry]]
  }

  function Removed(h: Hashes, hash: string, key: CacheKey): Hashes {
    if hash in h then h[hash := h[hash] - {key}] else h
  }

  class QueryCache {
    var hashes: Hashes

    constructor ()
      ensures hashes == map[]
    {
      hashes := map[];
    }

    method Get(hash: string, key: CacheKey) returns (entry: Option<CacheEntry>)
      ensures entry == Lookup(hashes, hash, key)
    {
      entry := if hash in hashes && key in hashes[hash] then Some(hashes[hash][key]) else None;
    }

    method Exists(hash: string, key: CacheKey) returns (found: bool)
      ensures found <==> Lookup(hashes, hash, key).Some?
    {
      found := hash in hashes && key in hashes[hash];
    }

    method Put(hash: string, key: CacheKey, entry: CacheEntry)
      modifies this
      ensures hashes == Stored(old(hashes), hash, key, entry)
      ensures Lookup(hashes, hash, key) == Some(entry)
      ensures forall h, k :: (h, k) != (hash, key) ==> Lookup(hashes, h, k) == Lookup(old(hashes), h, k)
    {
      if hash !in hashes { hashes := hashes[hash := map[]]; }
      hashes := hashes[hash := hashes[hash][key := entry]];
    }

    method Delete(hash: string, key: CacheKey)
      modifies this
      ensures hashes == Removed(old(hashes), hash, key)
    {
      if hash in hashes {
        hashes := hashes[hash := hashes[hash] - {key}];
      }
    }

    /** Redis cannot expire one field of a hash, so the time limit takes the whole hash away. */
    method Expire(hash: string)
      modifies this
      ensures hashes == old(hashes) - {hash}
      ensures forall k :: Lookup(hashes, hash, k).None?
    {
      hashes := hashes - {hash};
    }
  }
}
