/**
 * A JavaScript object used as a dictionary (`Record<string, V>`), as an
 * association list in insertion order. Assigning `o[k] = v` replaces the
 * value of an existing key where it stands and appends a new key at the
 * end, so `Object.keys` and `Object.entries` list the keys in the order
 * they were first assigned.
 */
module JsRecord {
  import opened Text

  type Record<V> = seq<(string, V)>

  predicate DistinctKeys<V>(r: Record<V>) {
    forall i, j :: 0 <= i < j < |r| ==> r[i].0 != r[j].0
  }

  predicate HasKey<V>(r: Record<V>, k: string) {
    exists i :: 0 <= i < |r| && r[i].0 == k
  }

  /** `Object.keys`: the keys in record order. */
  function Keys<V>(r: Record<V>): (ks: seq<string>)
    ensures |ks| == |r| && forall i :: 0 <= i < |r| ==> ks[i] == r[i].0
  {
    seq(|r|, i requires 0 <= i < |r| => r[i].0)
  }

  /** `o[k]`: the value stored under `k`, if any. */
  function Get<V>(r: Record<V>, k: string): (v: Option<V>)
    ensures v.Some? <==> HasKey(r, k)
    decreases |r|
  {
    if r == [] then None
    else if r[0].0 == k then Some(r[0].1)
    else Get(r[1..], k)
  }

  /** In a record with distinct keys, `o[r[i].0]` is `r[i].1`. */
  lemma {:induction false} GetAt<V>(r: Record<V>, i: nat)
    requires DistinctKeys(r) && i < |r|
    ensures Get(r, r[i].0) == Some(r[i].1)
    decreases |r|
  {
    if i > 0 {
      GetAt(r[1..], i - 1);
    }
  }

  /** `o[k] = v`: an existing key keeps its place, a new key goes last. */
  function Assign<V>(r: Record<V>, k: string, v: V): (r': Record<V>)
    ensures !HasKey(r, k) ==> r' == r + [(k, v)]
    ensures HasKey(r, k) ==> |r'| == |r| && forall i :: 0 <= i < |r| ==> r'[i].0 == r[i].0
    decreases |r|
  {
    if r == [] then [(k, v)]
    else if r[0].0 == k then [(k, v)] + r[1..]
    else [r[0]] + Assign(r[1..], k, v)
  }

  /** Assignment keeps the keys distinct. */
  lemma AssignDistinct<V>(r: Record<V>, k: string, v: V)
    requires DistinctKeys(r)
    ensures DistinctKeys(Assign(r, k, v))
  {
  }

  /** After `o[k] = v`, `o[k]` is `v` and every other key reads as before. */
  lemma {:induction false} AssignGet<V>(r: Record<V>, k: string, v: V, k': string)
    ensures Get(Assign(r, k, v), k') == if k' == k then Some(v) else Get(r, k')
    decreases |r|
  {
    if r != [] && r[0].0 != k {
      AssignGet(r[1..], k, v, k');
    }
  }
}
