/**
 * A Python dict as the marksheet uses it: an insertion-ordered sequence of
 * (key, value) entries. Assigning to a present key replaces its value where
 * it stands; assigning to a new key appends it. A dict comprehension is the
 * left-to-right sequence of such assignments.
 */
module PyDict {

  import opened Wrappers

  type Entries<V> = seq<(string, V)>

  /** The keys in iteration order (`d.keys()`). */
  function Keys<V>(d: Entries<V>): (ks: seq<string>)
    ensures |ks| == |d|
    ensures forall i :: 0 <= i < |d| ==> ks[i] == d[i].0
  {
    if d == [] then [] else [d[0].0] + Keys(d[1..])
  }

  /** The values in iteration order (`d.values()`). */
  function Values<V>(d: Entries<V>): (vs: seq<V>)
    ensures |vs| == |d|
    ensures forall i :: 0 <= i < |d| ==> vs[i] == d[i].1
  {
    if d == [] then [] else [d[0].1] + Values(d[1..])
  }

  predicate Distinct(s: seq<string>)
  {
    forall i, j :: 0 <= i < j < |s| ==> s[i] != s[j]
  }

  /** `d[k] = v`. */
  function Put<V>(d: Entries<V>, k: string, v: V): Entries<V>
  {
    if d == [] then [(k, v)]
    else if d[0].0 == k then [(k, v)] + d[1..]
    else [d[0]] + Put(d[1..], k, v)
  }

  /** `d[k]`: the value of the key, or None where Python raises KeyError. */
  function Lookup<V>(d: Entries<V>, k: string): Option<V>
  {
    if d == [] then None
    else if d[0].0 == k then Some(d[0].1)
    else Lookup(d[1..], k)
  }

  /** `d.get(k, default)`. */
  function Get<V>(d: Entries<V>, k: string, default: V): V
  {
    match Lookup(d, k)
    case Some(v) => v
    case None => default
  }

  /** `{ks[i]: vs[i] for i in range(len(ks))}`. */
  function Comprehension<V>(ks: seq<string>, vs: seq<V>): Entries<V>
    requires |ks| == |vs|
  {
    if ks == [] then []
    else Put(Comprehension(ks[..|ks| - 1], vs[..|vs| - 1]), ks[|ks| - 1], vs[|vs| - 1])
  }

  /** A key is found exactly when it is one of the keys. */
  lemma {:induction false} LookupPresent<V>(d: Entries<V>, k: string)
    ensures Lookup(d, k).Some? <==> k in Keys(d)
  {
    if d != [] {
      LookupPresent(d[1..], k);
      assert Keys(d) == [d[0].0] + Keys(d[1..]);
    }
  }

  /** Assigning a key keeps the key order, appending only a new key. */
  lemma {:induction false} PutKeys<V>(d: Entries<V>, k: string, v: V)
    ensures Keys(Put(d, k, v)) == if k in Keys(d) then Keys(d) else Keys(d) + [k]
  {
    if d != [] {
      PutKeys(d[1..], k, v);
      assert Keys(d) == [d[0].0] + Keys(d[1..]);
      if d[0].0 != k {
        assert Keys(Put(d, k, v)) == [d[0].0] + Keys(Put(d[1..], k, v));
      }
    }
  }

  /** Assigning a key absent from the dict appends the entry. */
  lemma {:induction false} PutAbsent<V>(d: Entries<V>, k: string, v: V)
    requires k !in Keys(d)
    ensures Put(d, k, v) == d + [(k, v)]
  {
    if d != [] {
      assert Keys(d) == [d[0].0] + Keys(d[1..]);
      PutAbsent(d[1..], k, v);
      assert d == [d[0]] + d[1..];
    }
  }

  /** After `d[k] = v`, `d[k]` is v and every other key reads as before. */
  lemma {:induction false} LookupPut<V>(d: Entries<V>, k: string, v: V, k': string)
    ensures Lookup(Put(d, k, v), k') == if k' == k then Some(v) else Lookup(d, k')
  {
    if d != [] && d[0].0 != k {
      LookupPut(d[1..], k, v, k');
    }
  }

  /**
   * With distinct keys the comprehension holds one entry per key, in the
   * order of the keys, each with its own value.
   */
  lemma {:induction false} ComprehensionZips<V>(ks: seq<string>, vs: seq<V>)
    requires |ks| == |vs|
    requires Distinct(ks)
    ensures |Comprehension(ks, vs)| == |ks|
    ensures forall i :: 0 <= i < |ks| ==> Comprehension(ks, vs)[i] == (ks[i], vs[i])
  {
    if ks != [] {
      var n := |ks| - 1;
      var prefix := Comprehension(ks[..n], vs[..n]);
      ComprehensionZips(ks[..n], vs[..n]);
      assert Keys(prefix) == ks[..n];
      assert ks[n] !in Keys(prefix);
      PutAbsent(prefix, ks[n], vs[n]);
    }
  }

  /** In a dict whose entries have distinct keys, each key looks up its own value. */
  lemma {:induction false} LookupAt<V>(d: Entries<V>, i: nat)
    requires i < |d|
    requires Distinct(Keys(d))
    ensures Lookup(d, d[i].0) == Some(d[i].1)
  {
    if i > 0 {
      assert Keys(d)[0] != Keys(d)[i];
      assert Distinct(Keys(d[1..])) by {
        assert forall j :: 0 <= j < |d| - 1 ==> Keys(d[1..])[j] == Keys(d)[j + 1];
      }
      LookupAt(d[1..], i - 1);
    }
  }
}
