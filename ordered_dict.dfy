/** A Python `dict` with string keys: a sequence of entries in insertion order.
    Assigning to an existing key replaces its value in place; a new key goes last. */
module OrderedDict {

  type Dict<V> = seq<(string, V)>

  function Keys<V>(d: Dict<V>): (ks: seq<string>)
    ensures |ks| == |d|
    ensures forall i {:trigger ks[i]} :: 0 <= i < |d| ==> ks[i] == d[i].0
  {
    seq(|d|, i requires 0 <= i < |d| => d[i].0)
  }

  function Values<V>(d: Dict<V>): (vs: seq<V>)
    ensures |vs| == |d|
    ensures forall i {:trigger vs[i]} :: 0 <= i < |d| ==> vs[i] == d[i].1
  {
    seq(|d|, i requires 0 <= i < |d| => d[i].1)
  }

  /** `k in d` */
  predicate HasKey<V>(d: Dict<V>, k: string) {
    k in Keys(d)
  }

  /** No key appears twice, as in every Python dict. */
  predicate UniqueKeys<V>(d: Dict<V>) {
    forall i, j :: 0 <= i < j < |d| ==> d[i].0 != d[j].0
  }

  /** Position of the entry for `k`. */
  function IndexOf<V>(d: Dict<V>, k: string): (i: nat)
    requires HasKey(d, k)
    ensures i < |d| && d[i].0 == k
    ensures forall j :: 0 <= j < i ==> d[j].0 != k
  {
    if d[0].0 == k then 0
    else
      assert Keys(d) == [d[0].0] + Keys(d[1..]);
      1 + IndexOf(d[1..], k)
  }

  /** `d[k]` */
  function Get<V>(d: Dict<V>, k: string): V
    requires HasKey(d, k)
  {
    d[IndexOf(d, k)].1
  }

  /** `d[k] = v`: overwrites in place when `k` is present, appends otherwise. */
  function Put<V>(d: Dict<V>, k: string, v: V): (r: Dict<V>)
    ensures UniqueKeys(d) ==> UniqueKeys(r)
    ensures Keys(r) == if HasKey(d, k) then Keys(d) else Keys(d) + [k]
    ensures HasKey(r, k) && Get(r, k) == v
    ensures forall k' :: k' != k && HasKey(d, k') ==> Get(r, k') == Get(d, k')
    ensures !HasKey(d, k) ==> r == d + [(k, v)]
  {
    if HasKey(d, k) then
      var r := d[IndexOf(d, k) := (k, v)];
      assert Keys(r) == Keys(d);
      forall k' | HasKey(d, k') ensures IndexOf(r, k') == IndexOf(d, k') {
        IndexOfSameKeys(d, r, k');
      }
      r
    else
      var r := d + [(k, v)];
      assert Keys(r) == Keys(d) + [k];
      forall j | 0 <= j < |d| ensures d[j].0 != k {
        KeyAt(d, j);
      }
      forall k' | HasKey(d, k') ensures IndexOf(r, k') == IndexOf(d, k') {
        IndexOfPrefix(d, r, k');
      }
      r
  }

  /** Assigning to one key does not add another. */
  lemma PutOtherKey<V>(d: Dict<V>, k: string, v: V, k': string)
    requires k' != k
    ensures HasKey(Put(d, k, v), k') <==> HasKey(d, k')
  {
  }

  /** The key of every entry is a key of the map. */
  lemma KeyAt<V>(d: Dict<V>, i: nat)
    requires i < |d|
    ensures HasKey(d, d[i].0)
  {
    assert Keys(d)[i] == d[i].0;
  }

  /** Extending a map at the end does not move the keys it had. */
  lemma IndexOfPrefix<V>(d: Dict<V>, r: Dict<V>, k: string)
    requires HasKey(d, k) && |d| <= |r| && d == r[..|d|]
    ensures HasKey(r, k) && IndexOf(r, k) == IndexOf(d, k)
  {
    var i := IndexOf(d, k);
    assert r[i].0 == k && Keys(r)[i] == k;
  }

  /** Only the keys decide where a key is found. */
  lemma IndexOfSameKeys<V>(d: Dict<V>, r: Dict<V>, k: string)
    requires HasKey(d, k) && Keys(r) == Keys(d)
    ensures HasKey(r, k) && IndexOf(r, k) == IndexOf(d, k)
  {
    var i := IndexOf(d, k);
    assert Keys(r)[i] == Keys(d)[i];
    forall j | 0 <= j < i ensures r[j].0 != k {
      assert Keys(r)[j] == Keys(d)[j];
    }
  }

  /** Assigning to a key that is already present keeps every key where it was:
      a repeated key keeps its first position and takes the later value. */
  lemma {:induction false} PutExistingKeepsOrder<V>(d: Dict<V>, k: string, v: V)
    requires UniqueKeys(d) && HasKey(d, k)
    ensures |Put(d, k, v)| == |d|
    ensures forall i :: 0 <= i < |d| ==> Put(d, k, v)[i] == (if d[i].0 == k then (k, v) else d[i])
  {
  }

  /** The sequence of entries `(k, f(k))` for the keys of `ks`, in order. */
  function FromKeys<V>(ks: seq<string>, f: string -> V): (d: Dict<V>)
    ensures |d| == |ks|
    ensures forall i {:trigger d[i]} :: 0 <= i < |ks| ==> d[i] == (ks[i], f(ks[i]))
  {
    if ks == [] then [] else [(ks[0], f(ks[0]))] + FromKeys(ks[1..], f)
  }
}
