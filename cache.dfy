/**
 * The embedding cache: two maps kept side by side, from the hash of a text to its embedding and
 * to the time the embedding was stored. A lookup is served from the cache only while the entry is
 * younger than the time-to-live; otherwise the embedding is computed afresh and stored.
 *
 * The hash (`hashlib.md5(...).hexdigest()`) and the embedding procedure (`get_embedding`) are
 * given to the cache as functions; nothing about them is assumed, so two texts may share a hash.
 */
module EmbeddingCache {
  import opened Timing

  const CacheTtl: int := 3600

  /** `text_hash in embedding_cache` and `cache_timestamp.get(text_hash)` younger than the time-to-live. */
  predicate IsHit<E>(embeddings: map<string, E>, timestamps: map<string, int>, key: string, now: int) {
    key in embeddings && key in timestamps && TimedeltaSeconds(now, timestamps[key]) < CacheTtl
  }

  class Cache<E> {
    const hash: string -> string
    const embed: string -> E
    var embeddings: map<string, E>
    var timestamps: map<string, int>
    /** The text each entry was computed from. */
    ghost var origin: map<string, string>

    /**
     * The two maps have the same keys, and every entry holds the embedding of a text whose hash is
     * its key: the cache never returns a value that `embed` did not produce for a text of that hash.
     */
    ghost predicate Valid()
      reads this
    {
      && embeddings.Keys == timestamps.Keys
      && origin.Keys == embeddings.Keys
      && forall k :: k in origin ==> hash(origin[k]) == k && embeddings[k] == embed(origin[k])
    }

    constructor (hash: string -> string, embed: string -> E)
      ensures Valid()
      ensures this.hash == hash && this.embed == embed
      ensures embeddings == map[] && timestamps == map[]
    {
      this.hash := hash;
      this.embed := embed;
      embeddings := map[];
      timestamps := map[];
      origin := map[];
    }

    /** `cache_embedding(text)` at time `now`. */
    method CacheEmbedding(text: string, now: int) returns (e: E)
      requires Valid()
      modifies this
      ensures Valid()
      ensures IsHit(old(embeddings), old(timestamps), hash(text), now) ==>
        && e == old(embeddings)[hash(text)]
        && embeddings == old(embeddings) && timestamps == old(timestamps)
      ensures !IsHit(old(embeddings), old(timestamps), hash(text), now) ==>
        && e == embed(text)
        && embeddings == old(embeddings)[hash(text) := e]
        && timestamps == old(timestamps)[hash(text) := now]
      ensures hash(text) in origin && hash(origin[hash(text)]) == hash(text) && e == embed(origin[hash(text)])
      ensures (forall t1, t2 :: hash(t1) == hash(t2) ==> t1 == t2) ==> e == embed(text)
    {
      var key := hash(text);
      if key in embeddings {
        if key in timestamps && TimedeltaSeconds(now, timestamps[key]) < CacheTtl {
          return embeddings[key];
        }
      }
      e := embed(text);
      embeddings := embeddings[key := e];
      timestamps := timestamps[key := now];
      origin := origin[key := text];
    }

    /** `clear_cache`: empties both maps and reports how many embeddings were held. */
    method Clear() returns (cleared: nat)
      requires Valid()
      modifies this
      ensures Valid()
      ensures cleared == |old(embeddings)|
      ensures embeddings == map[] && timestamps == map[]
    {
      cleared := |embeddings|;
      embeddings := map[];
      timestamps := map[];
      origin := map[];
    }
  }

  /** Right after an entry is stored at `stored`, every lookup of its key within the time-to-live is a hit. */
  lemma StoredEntryHitsWithinTtl<E>(embeddings: map<string, E>, timestamps: map<string, int>,
                                    key: string, e: E, stored: int, now: int)
    requires 0 <= now - stored < CacheTtl
    ensures IsHit(embeddings[key := e], timestamps[key := stored], key, now)
  {
    TimedeltaSecondsWithinDay(now, stored);
  }

  /** Storing under one key changes no other key's hit or miss. */
  lemma StoreLeavesOtherKeys<E>(embeddings: map<string, E>, timestamps: map<string, int>,
                                key: string, e: E, stored: int, other: string, now: int)
    requires other != key
    ensures IsHit(embeddings[key := e], timestamps[key := stored], other, now) ==
            IsHit(embeddings, timestamps, other, now)
  {
  }

  /** Because `.seconds` forgets whole days, an entry is a hit again exactly one day after it was a hit. */
  lemma StaleEntryHitsAgainNextDay<E>(embeddings: map<string, E>, timestamps: map<string, int>,
                                      key: string, now: int)
    ensures IsHit(embeddings, timestamps, key, now + SecondsPerDay) == IsHit(embeddings, timestamps, key, now)
  {
    if key in timestamps {
      assert now + SecondsPerDay - timestamps[key] == (now - timestamps[key]) + SecondsPerDay;
    }
  }
}
