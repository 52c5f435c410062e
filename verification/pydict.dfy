/** Python's `dict` as the script uses it: an insertion-ordered mapping.
    A dict is a sequence of (key, value) pairs; a well-formed one has each key
    once. Assigning a present key replaces its value in place, assigning a new
    key appends it, and `{**a, **b}` assigns b's entries into a copy of a in b's
    order. */
module PyDict {
  import opened Wrappers

  type Dict<K, V> = seq<(K, V)>

  /** The keys in iteration order (`list(d.keys())`). */
  function Keys<K, V>(d: Dict<K, V>): (ks: seq<K>)
    ensures |ks| == |d|
    ensures forall i :: 0 <= i < |d| ==> ks[i] == d[i].0
  {
    seq(|d|, i requires 0 <= i < |d| => d[i].0)
  }

  /** Each key occurs once. */
  predicate Valid<K(==), V>(d: Dict<K, V>)
  {
    forall i, j :: 0 <= i < j < |d| ==> d[i].0 != d[j].0
  }

  /** `d.get(k)`. */
  function Get<K(==), V>(d: Dict<K, V>, k: K): (r: Option<V>)
    ensures r.Some? <==> k in Keys(d)
  {
    if |d| == 0 then None
    else if d[0].0 == k then Some(d[0].1)
    else
      assert Keys(d) == [d[0].0] + Keys(d[1..]);
      Get(d[1..], k)
  }

  /** In a well-formed dict, the value stored at each position is what `get`
      returns for that position's key. */
  lemma {:induction false} GetAt<K, V>(d: Dict<K, V>, i: nat)
    requires Valid(d)
    requires i < |d|
    ensures Get(d, d[i].0) == Some(d[i].1)
  {
    if i > 0 {
      assert d[1..][i - 1] == d[i];
      GetAt(d[1..], i - 1);
    }
  }

  /** `d[k] = v`. */
  function Set<K(==), V>(d: Dict<K, V>, k: K, v: V): (r: Dict<K, V>)
    ensures Keys(r) == if k in Keys(d) then Keys(d) else Keys(d) + [k]
  {
    if |d| == 0 then [(k, v)]
    else if d[0].0 == k then
      assert Keys(d) == [k] + Keys(d[1..]);
      assert Keys([(k, v)] + d[1..]) == [k] + Keys(d[1..]);
      [(k, v)] + d[1..]
    else
      var rest := Set(d[1..], k, v);
      assert Keys(d) == [d[0].0] + Keys(d[1..]);
      assert Keys([d[0]] + rest) == [d[0].0] + Keys(rest);
      [d[0]] + rest
  }

  /** After `d[k] = v`, k maps to v and every other key keeps its value. */
  lemma {:induction false} SetGet<K, V>(d: Dict<K, V>, k: K, v: V, k': K)
    ensures Get(Set(d, k, v), k') == if k' == k then Some(v) else Get(d, k')
  {
    if |d| > 0 && d[0].0 != k {
      var rest := Set(d[1..], k, v);
      assert Set(d, k, v) == [d[0]] + rest;
      assert ([d[0]] + rest)[1..] == rest;
      SetGet(d[1..], k, v, k');
    } else if |d| > 0 {
      assert ([(k, v)] + d[1..])[1..] == d[1..];
    }
  }

  /** Assigning a new key appends the entry at the end. */
  lemma {:induction false} SetFresh<K, V>(d: Dict<K, V>, k: K, v: V)
    requires k !in Keys(d)
    ensures Set(d, k, v) == d + [(k, v)]
  {
    if |d| > 0 {
      assert Keys(d) == [d[0].0] + Keys(d[1..]);
      SetFresh(d[1..], k, v);
      assert d == [d[0]] + d[1..];
    }
  }

  /** Assignment keeps a dict well formed. */
  lemma SetValid<K, V>(d: Dict<K, V>, k: K, v: V)
    requires Valid(d)
    ensures Valid(Set(d, k, v))
  {
  }

  /** The keys of xs in first-occurrence order, after those already in acc. */
  function DedupFrom<K(==)>(acc: seq<K>, xs: seq<K>): seq<K>
    decreases |xs|
  {
    if |xs| == 0 then acc
    else DedupFrom(if xs[0] in acc then acc else acc + [xs[0]], xs[1..])
  }

  /** The distinct elements of xs in first-occurrence order. */
  function Dedup<K(==)>(xs: seq<K>): seq<K>
  {
    DedupFrom([], xs)
  }

  predicate Distinct<K(==)>(xs: seq<K>)
  {
    forall i, j :: 0 <= i < j < |xs| ==> xs[i] != xs[j]
  }

  lemma {:induction false} DedupFromProps<K>(acc: seq<K>, xs: seq<K>)
    ensures |acc| <= |DedupFrom(acc, xs)| && DedupFrom(acc, xs)[..|acc|] == acc
    ensures forall x :: x in DedupFrom(acc, xs) <==> x in acc || x in xs
    ensures Distinct(acc) ==> Distinct(DedupFrom(acc, xs))
    decreases |xs|
  {
    if |xs| > 0 {
      var acc' := if xs[0] in acc then acc else acc + [xs[0]];
      DedupFromProps(acc', xs[1..]);
      assert xs == [xs[0]] + xs[1..];
      assert acc'[..|acc|] == acc;
    }
  }

  /** Dedup keeps exactly the elements of its input, each once. */
  lemma DedupProps<K>(xs: seq<K>)
    ensures forall x :: x in Dedup(xs) <==> x in xs
    ensures Distinct(Dedup(xs))
    ensures |xs| == 0 ==> Dedup(xs) == []
  {
    DedupFromProps([], xs);
  }

  /** `{**d, **e}`: e's entries win on a shared key, d's keys keep their order,
      and e's new keys follow in e's order. */
  function Update<K(==), V>(d: Dict<K, V>, e: Dict<K, V>): (r: Dict<K, V>)
    ensures Keys(r) == DedupFrom(Keys(d), Keys(e))
    decreases |e|
  {
    if |e| == 0 then d
    else
      assert Keys(e) == [e[0].0] + Keys(e[1..]);
      Update(Set(d, e[0].0, e[0].1), e[1..])
  }

  /** A key present in a well-formed e gets e's value; any other key keeps d's. */
  lemma {:induction false} UpdateGet<K, V>(d: Dict<K, V>, e: Dict<K, V>, k: K)
    requires Valid(e)
    ensures Get(Update(d, e), k) == if k in Keys(e) then Get(e, k) else Get(d, k)
    decreases |e|
  {
    if |e| > 0 {
      assert Keys(e) == [e[0].0] + Keys(e[1..]);
      var d' := Set(d, e[0].0, e[0].1);
      UpdateGet(d', e[1..], k);
      SetGet(d, e[0].0, e[0].1, k);
      if k == e[0].0 {
        assert k !in Keys(e[1..]);
      }
    }
  }

  lemma {:induction false} UpdateValid<K, V>(d: Dict<K, V>, e: Dict<K, V>)
    requires Valid(d)
    ensures Valid(Update(d, e))
    decreases |e|
  {
    if |e| > 0 {
      SetValid(d, e[0].0, e[0].1);
      UpdateValid(Set(d, e[0].0, e[0].1), e[1..]);
    }
  }

  /** When the keys of d and e are all distinct, `{**d, **e}` is d followed
      by e. */
  lemma {:induction false} UpdateFresh<K, V>(d: Dict<K, V>, e: Dict<K, V>)
    requires Valid(d + e)
    ensures Update(d, e) == d + e
    decreases |e|
  {
    if |e| > 0 {
      assert (d + e)[|d|] == e[0];
      assert e[0].0 !in Keys(d) by {
        forall i | 0 <= i < |d|
          ensures Keys(d)[i] != e[0].0
        {
          assert (d + e)[i] == d[i];
        }
      }
      SetFresh(d, e[0].0, e[0].1);
      assert (d + [e[0]]) + e[1..] == d + e;
      UpdateFresh(d + [e[0]], e[1..]);
    }
  }
}
