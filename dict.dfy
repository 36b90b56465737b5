/**
 * Python dictionaries whose insertion order is visible in the output: a response's headers
 * and its cookies are written out in the order their keys were first stored.
 */
module Dict {
  import opened Common

  /** The (key, value) pairs of a dictionary, in insertion order. */
  type Entries = seq<(string, string)>

  /** `d.get(k)`. */
  function Get(d: Entries, k: string): Option<string> {
    if d == [] then None
    else if d[0].0 == k then Some(d[0].1)
    else Get(d[1..], k)
  }

  /** `list(d.keys())`. */
  function KeysInOrder(d: Entries): seq<string> {
    if d == [] then [] else [d[0].0] + KeysInOrder(d[1..])
  }

  /** `d[k] = v`: replaces the value in place when `k` is present, otherwise appends. */
  function Put(d: Entries, k: string, v: string): Entries {
    if d == [] then [(k, v)]
    else if d[0].0 == k then [(k, v)] + d[1..]
    else [d[0]] + Put(d[1..], k, v)
  }

  /** After `d[k] = v`, `k` maps to `v` and every other key keeps its value. */
  lemma {:induction false} PutGet(d: Entries, k: string, v: string)
    ensures Get(Put(d, k, v), k) == Some(v)
    ensures forall k' :: k' != k ==> Get(Put(d, k, v), k') == Get(d, k')
  {
    if d != [] && d[0].0 != k {
      PutGet(d[1..], k, v);
    }
  }

  /** Storing keeps the order of the keys when `k` was present; otherwise `k` comes last. */
  lemma {:induction false} PutOrder(d: Entries, k: string, v: string)
    ensures KeysInOrder(Put(d, k, v)) == if Get(d, k).Some? then KeysInOrder(d) else KeysInOrder(d) + [k]
  {
    if d != [] && d[0].0 != k {
      PutOrder(d[1..], k, v);
    }
  }
}
