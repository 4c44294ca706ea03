/**
 * A JavaScript object with string keys, as an insertion-ordered list of
 * key/value pairs: assignment to a new key appends it, assignment to an
 * existing key replaces the value in place, and enumeration follows
 * insertion order. (JavaScript lists integer-like keys first; that
 * reordering is not modelled.)
 */
module OrderedMap {
  import opened Wrappers

  function Keys<V>(m: seq<(string, V)>): (ks: seq<string>)
    ensures |ks| == |m| && forall i :: 0 <= i < |m| ==> ks[i] == m[i].0
  {
    seq(|m|, i requires 0 <= i < |m| => m[i].0)
  }

  predicate DistinctKeys<V>(m: seq<(string, V)>) {
    forall i, j :: 0 <= i < j < |m| ==> m[i].0 != m[j].0
  }

  /** `obj[k]`: the value of the first entry with key `k`, or `undefined`. */
  function Get<V>(m: seq<(string, V)>, k: string): (r: Option<V>)
    ensures r.None? <==> k !in Keys(m)
    ensures r.Some? ==> (k, r.value) in m
  {
    if m == [] then None
    else if m[0].0 == k then Some(m[0].1)
    else
      var r := Get(m[1..], k);
      assert Keys(m) == [m[0].0] + Keys(m[1..]);
      r
  }

  lemma KeysCons<V>(x: (string, V), m: seq<(string, V)>)
    ensures Keys([x] + m) == [x.0] + Keys(m)
  {
  }

  /** `obj[k] = v`. */
  function Put<V>(m: seq<(string, V)>, k: string, v: V): (r: seq<(string, V)>)
    ensures Keys(r) == if k in Keys(m) then Keys(m) else Keys(m) + [k]
  {
    if m == [] then [(k, v)]
    else
      KeysCons(m[0], m[1..]);
      assert [m[0]] + m[1..] == m;
      if m[0].0 == k then
        KeysCons((k, v), m[1..]);
        [(k, v)] + m[1..]
      else
        var rest := Put(m[1..], k, v);
        KeysCons(m[0], rest);
        assert ([m[0].0] + Keys(m[1..])) + [k] == [m[0].0] + (Keys(m[1..]) + [k]);
        [m[0]] + rest
  }

  /** After `obj[k] = v`, reading `k` gives `v` and every other key reads as before. */
  lemma {:induction false} GetPut<V>(m: seq<(string, V)>, k: string, v: V, k': string)
    ensures Get(Put(m, k, v), k') == if k' == k then Some(v) else Get(m, k')
  {
    if m != [] && m[0].0 != k {
      GetPut(m[1..], k, v, k');
    }
  }

  /** Assignment keeps the keys distinct. */
  lemma {:induction false} PutDistinct<V>(m: seq<(string, V)>, k: string, v: V)
    requires DistinctKeys(m)
    ensures DistinctKeys(Put(m, k, v))
  {
    var r := Put(m, k, v);
    forall i, j | 0 <= i < j < |r| ensures r[i].0 != r[j].0 {
      assert Keys(r)[i] == r[i].0 && Keys(r)[j] == r[j].0;
      if k in Keys(m) {
        assert Keys(m)[i] == m[i].0 && Keys(m)[j] == m[j].0;
      } else if j < |m| {
        assert Keys(m)[i] == m[i].0 && Keys(m)[j] == m[j].0;
      } else {
        assert Keys(m)[i] == m[i].0;
      }
    }
  }

  /** lodash `omit(obj, k)`: a copy without key `k`, in the same order. */
  function Omit<V>(m: seq<(string, V)>, k: string): (r: seq<(string, V)>)
    ensures k !in Keys(r)
    ensures forall i :: 0 <= i < |r| ==> r[i] in m
  {
    if m == [] then []
    else if m[0].0 == k then Omit(m[1..], k)
    else
      var r := [m[0]] + Omit(m[1..], k);
      assert Keys(r) == [m[0].0] + Keys(r[1..]);
      r
  }

  /** Omitting a key the object does not have copies it unchanged. */
  lemma {:induction false} OmitAbsent<V>(m: seq<(string, V)>, k: string)
    requires k !in Keys(m)
    ensures Omit(m, k) == m
  {
    if m != [] {
      assert Keys(m) == [m[0].0] + Keys(m[1..]);
      OmitAbsent(m[1..], k);
    }
  }

  /** Omitting `k` leaves every other key reading as before. */
  lemma {:induction false} GetOmit<V>(m: seq<(string, V)>, k: string, k': string)
    requires k' != k
    ensures Get(Omit(m, k), k') == Get(m, k')
  {
    if m != [] {
      GetOmit(m[1..], k, k');
    }
  }
}
