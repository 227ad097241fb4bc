/**
 * The fixture cache and the health ledger of packages/plugins/emoji/lib/cache.ts,
 * over the data directory modelled as a `Store`. `now` is `Date.now()` and
 * `produce` is how the wrapped `fn()` settles (`Err` when it throws).
 */
module TtlCache {
  import opened Wrappers
  import opened Files

  const HourMs: int := 3600000

  /** The entry stored under `key`, when it exists, is younger than the TTL and parses. */
  function FreshEntry<V>(docs: map<string, Doc<V>>, key: string, ttlHours: real, now: int): (r: Option<V>)
    ensures r.Some? <==> key in docs && ((now - docs[key].mtime) as real) < ttlHours * HourMs as real && docs[key].body.Some?
    ensures r.Some? ==> r.value == docs[key].body.value
  {
    if key in docs && ((now - docs[key].mtime) as real) < ttlHours * HourMs as real then docs[key].body
    else None
  }

  /**
   * `withCacheTTL(key, ttlHours, fn)`. `called` tells whether `fn` ran. The
   * file written gets `now` as its modification time.
   */
  method WithCacheTTL<V, E>(store: Store<V>, key: string, ttlHours: real, now: int, produce: Result<V, E>)
    returns (r: Result<V, E>, called: bool)
    modifies store
    ensures ttlHours <= 0.0 ==> called && r == produce && store.docs == old(store.docs)
    ensures ttlHours > 0.0 && FreshEntry(old(store.docs), key, ttlHours, now).Some? ==>
      !called && r == Ok(FreshEntry(old(store.docs), key, ttlHours, now).value) && store.docs == old(store.docs)
    ensures ttlHours > 0.0 && FreshEntry(old(store.docs), key, ttlHours, now).None? ==>
      called && r == produce
      && store.docs == (if produce.Ok? then old(store.docs)[key := Doc(now, Some(produce.value))] else old(store.docs))
  {
    if ttlHours <= 0.0 {
      return produce, true;
    }
    var hit := FreshEntry(store.docs, key, ttlHours, now);
    if hit.Some? {
      return Ok(hit.value), false;
    }
    called := true;
    r := produce;
    if produce.Ok? {
      store.docs := store.docs[key := Doc(now, Some(produce.value))];
    }
  }

  /** An entry just written is served from the cache until it is `ttlHours` old. */
  lemma FreshAfterWrite<V>(docs: map<string, Doc<V>>, key: string, v: V, written: int, ttlHours: real, now: int)
    requires 0 <= now - written && ((now - written) as real) < ttlHours * HourMs as real
    ensures FreshEntry(docs[key := Doc(written, Some(v))], key, ttlHours, now) == Some(v)
  {
  }

  /** Once an entry is `ttlHours` old it is stale, whatever it holds. */
  lemma StaleAfterTtl<V>(docs: map<string, Doc<V>>, key: string, ttlHours: real, now: int)
    requires key in docs && ((now - docs[key].mtime) as real) >= ttlHours * HourMs as real
    ensures FreshEntry(docs, key, ttlHours, now) == None
  {
  }

  // ---- the health ledger ----

  const HealthFile: string := "reservoir-health.json"

  /** A health record: the payload's fields (as their JSON text) with `at` set to the write time. */
  type Fields = map<string, string>

  /** The ledger as `writeHealth` reads it: a missing or corrupt document is the empty record. */
  function Ledger(docs: map<string, Doc<map<string, Fields>>>): (l: map<string, Fields>)
    ensures HealthFile !in docs || docs[HealthFile].body.None? ==> l == map[]
  {
    ReadJson(docs, HealthFile).GetOr(map[])
  }

  /** `writeHealth(key, payload)`: `nowIso` is `new Date().toISOString()` and `now` the write time. */
  method WriteHealth(store: Store<map<string, Fields>>, key: string, payload: Fields, nowIso: string, now: int)
    modifies store
    ensures store.docs == old(store.docs)[HealthFile := Doc(now, Some(Ledger(old(store.docs))[key := payload["at" := nowIso]]))]
  {
    var data := Ledger(store.docs);
    data := data[key := payload["at" := nowIso]];
    store.docs := store.docs[HealthFile := Doc(now, Some(data))];
  }

  /** The record written for `key` is the whole payload plus `at`; every other key of the ledger is kept. */
  lemma WriteHealthEffect(docs: map<string, Doc<map<string, Fields>>>, key: string, payload: Fields, nowIso: string, k: string)
    ensures var l := Ledger(docs)[key := payload["at" := nowIso]];
      l[key] == payload["at" := nowIso] && l[key]["at"] == nowIso
      && (forall f :: f in payload && f != "at" ==> l[key][f] == payload[f])
      && (k != key ==> (k in l <==> k in Ledger(docs)) && (k in l ==> l[k] == Ledger(docs)[k]))
  {
  }
}
