/**
 * Natural-key pools: tables deduplicated by a business key (the text of a
 * responsibility/requirement/condition item, the name of a genre or a
 * platform). Eloquent's `firstOrCreate(['text' => $t])` looks a row up by
 * its exact key and inserts one only when none exists.
 */
module Pools {
  import opened Support

  /** A pool keyed by its natural key: key -> row id, with the next auto-increment id. */
  datatype Pool = Pool(ids: map<string, Id>, next: Id)

  /** Row ids lie below the next id and no two keys share a row. */
  predicate PoolValid(p: Pool) {
    && (forall k :: k in p.ids ==> p.ids[k] < p.next)
    && (forall k, k' :: k in p.ids && k' in p.ids && p.ids[k] == p.ids[k'] ==> k == k')
  }

  /** `q` keeps every row of `p` under the same id. */
  predicate Extends(p: Pool, q: Pool) {
    p.next <= q.next && forall k :: k in p.ids ==> k in q.ids && q.ids[k] == p.ids[k]
  }

  lemma ExtendsTransitive(p: Pool, q: Pool, s: Pool)
    requires Extends(p, q) && Extends(q, s)
    ensures Extends(p, s)
  {
  }

  /** `Model::firstOrCreate([key => k])`: the pool afterwards and the id of the row keyed `k`. */
  function FirstOrCreate(p: Pool, key: string): (r: (Pool, Id))
    ensures key in r.0.ids && r.0.ids[key] == r.1
    ensures r.0.ids.Keys == p.ids.Keys + {key}
    ensures Extends(p, r.0)
    ensures key in p.ids ==> r.0 == p
    ensures PoolValid(p) ==> PoolValid(r.0)
    ensures PoolValid(p) && key !in p.ids ==> r.1 !in p.ids.Values
  {
    if key in p.ids then (p, p.ids[key])
    else (Pool(p.ids[key := p.next], p.next + 1), p.next)
  }

  /**
   * A loop of `firstOrCreate` calls over `keys`, in order: the final pool and
   * the id each key resolved to.
   */
  function Resolve(p: Pool, keys: seq<string>): (r: (Pool, seq<Id>))
    ensures |r.1| == |keys|
    ensures forall i :: 0 <= i < |keys| ==> keys[i] in r.0.ids && r.0.ids[keys[i]] == r.1[i]
    ensures forall k :: k in r.0.ids <==> k in p.ids || k in keys
    ensures Extends(p, r.0)
    ensures PoolValid(p) ==> PoolValid(r.0)
    decreases |keys|
  {
    if keys == [] then (p, [])
    else
      var prev := Resolve(p, keys[..|keys| - 1]);
      var step := FirstOrCreate(prev.0, keys[|keys| - 1]);
      assert keys == keys[..|keys| - 1] + [keys[|keys| - 1]];
      (step.0, prev.1 + [step.1])
  }

  /** One more `firstOrCreate` at the end of the loop. */
  lemma ResolveSnoc(p: Pool, keys: seq<string>, key: string)
    ensures var prev := Resolve(p, keys);
      var step := FirstOrCreate(prev.0, key);
      Resolve(p, keys + [key]) == (step.0, prev.1 + [step.1])
  {
    assert (keys + [key])[..|keys|] == keys;
  }

  /** Resolving keys that are all present already creates nothing. */
  lemma {:induction false} ResolveKnown(p: Pool, keys: seq<string>)
    requires forall i :: 0 <= i < |keys| ==> keys[i] in p.ids
    ensures Resolve(p, keys).0 == p
    decreases |keys|
  {
    if keys != [] {
      ResolveKnown(p, keys[..|keys| - 1]);
    }
  }

  /** Resolving a list twice: the second pass changes nothing and yields the same ids. */
  lemma ResolveIdempotent(p: Pool, keys: seq<string>)
    ensures var r := Resolve(p, keys); Resolve(r.0, keys) == r
  {
    var r := Resolve(p, keys);
    ResolveKnown(r.0, keys);
    var r2 := Resolve(r.0, keys);
    assert r2.1 == r.1;
  }

  /** `$pool->select('id', 'name')->get()`: every row as an (id, key) pair. */
  function Listing(p: Pool): (r: set<(Id, string)>)
    ensures forall id, k :: (id, k) in r <==> k in p.ids && p.ids[k] == id
  {
    set k | k in p.ids :: (p.ids[k], k)
  }
}
