/** A plain JavaScript object with string keys, as the wizard builds them
    (`dataObj`, `formattedData`, form data, representatives): a list of
    properties in insertion order. Assigning to a key that is already there
    replaces its value where it stands; a new key goes at the end. */
module Objects {
  import opened Base

  type Props<V> = seq<(string, V)>

  predicate UniqueKeys<V>(e: Props<V>) {
    forall i, j :: 0 <= i < j < |e| ==> e[i].0 != e[j].0
  }

  /** `Object.keys(e)`. */
  function Keys<V>(e: Props<V>): (ks: seq<string>)
    ensures |ks| == |e|
    ensures forall i :: 0 <= i < |e| ==> ks[i] == e[i].0
  {
    seq(|e|, i requires 0 <= i < |e| => e[i].0)
  }

  /** Where key `k` stands in `e` (its first occurrence), or -1. */
  function KeyIndex<V>(e: Props<V>, k: string): (r: int)
    ensures -1 <= r < |e|
    ensures r == -1 <==> forall i :: 0 <= i < |e| ==> e[i].0 != k
    ensures r >= 0 ==> e[r].0 == k && forall i :: 0 <= i < r ==> e[i].0 != k
  {
    if e == [] then -1
    else if e[0].0 == k then 0
    else
      var j := KeyIndex(e[1..], k);
      if j < 0 then -1 else j + 1
  }

  /** `e[k]`, with `None` for `undefined`. */
  function Get<V>(e: Props<V>, k: string): Option<V> {
    var i := KeyIndex(e, k);
    if i < 0 then None else Some(e[i].1)
  }

  predicate HasKey<V>(e: Props<V>, k: string) {
    KeyIndex(e, k) >= 0
  }

  /** After `e[k] = v` every other key reads as before. */
  lemma GetPut<V>(e: Props<V>, k: string, v: V, k': string)
    ensures Get(Put(e, k, v), k') == if k' == k then Some(v) else Get(e, k')
  {
    if k' != k {
      var i := KeyIndex(e, k);
      if i >= 0 {
        KeyIndexSameKeys(e[i := (k, v)], e, k');
      } else {
        KeyIndexAppend(e, k, v, k');
      }
    }
  }

  /** Two property lists with the same key at every position find every key
      at the same position. */
  lemma KeyIndexSameKeys<V>(e: Props<V>, f: Props<V>, k: string)
    requires |e| == |f|
    requires forall i :: 0 <= i < |e| ==> e[i].0 == f[i].0
    ensures KeyIndex(e, k) == KeyIndex(f, k)
  {
    var a, b := KeyIndex(e, k), KeyIndex(f, k);
    if a >= 0 && b >= 0 {
      assert !(a < b) && !(b < a);
    }
  }

  lemma KeyIndexAppend<V>(e: Props<V>, k: string, v: V, k': string)
    requires !HasKey(e, k)
    ensures KeyIndex(e + [(k, v)], k') == if k' == k then |e| else KeyIndex(e, k')
  {
    var r := e + [(k, v)];
    var a, b := KeyIndex(r, k'), KeyIndex(e, k');
    assert forall i :: 0 <= i < |e| ==> r[i] == e[i];
    if b >= 0 {
      assert r[b].0 == k';
    } else if k' == k {
      assert r[|e|].0 == k;
    } else {
      assert r[|e|].0 != k';
    }
  }

  /** A key in neither of two lists is not in the two together. */
  lemma NoKeyConcat<V>(a: Props<V>, b: Props<V>, k: string)
    requires forall p :: 0 <= p < |a| ==> a[p].0 != k
    requires forall p :: 0 <= p < |b| ==> b[p].0 != k
    ensures !HasKey(a + b, k)
  {
    var c := a + b;
    forall p | 0 <= p < |c| ensures c[p].0 != k {
      if p < |a| {
        assert c[p] == a[p];
      } else {
        assert c[p] == b[p - |a|];
      }
    }
  }

  /** In a list with unique keys, each key finds the value stored with it. */
  lemma GetAt<V>(e: Props<V>, i: int)
    requires UniqueKeys(e) && 0 <= i < |e|
    ensures Get(e, e[i].0) == Some(e[i].1)
  {
    var j := KeyIndex(e, e[i].0);
    assert j >= 0;
    assert !(j < i);
  }

  /** `e[k] = v`. */
  function Put<V>(e: Props<V>, k: string, v: V): (r: Props<V>)
    ensures Get(r, k) == Some(v)
    ensures HasKey(e, k) ==> Keys(r) == Keys(e)
    ensures !HasKey(e, k) ==> r == e + [(k, v)]
    ensures UniqueKeys(e) ==> UniqueKeys(r)
  {
    var i := KeyIndex(e, k);
    if i >= 0 then
      var r := e[i := (k, v)];
      assert forall k' :: KeyIndex(r, k') == KeyIndex(e, k') by {
        forall k' { KeyIndexSameKeys(r, e, k'); }
      }
      r
    else
      var r := e + [(k, v)];
      assert forall k' :: KeyIndex(r, k') == if k' == k then |e| else KeyIndex(e, k') by {
        forall k' { KeyIndexAppend(e, k, v, k'); }
      }
      r
  }

  /** Each property after `e[k] = v` is either the new one or was there
      before. */
  lemma PutFrom<V>(e: Props<V>, k: string, v: V, p: int)
    requires 0 <= p < |Put(e, k, v)|
    ensures Put(e, k, v)[p] == (k, v) || exists q :: 0 <= q < |e| && e[q] == Put(e, k, v)[p]
  {
    var r := Put(e, k, v);
    var i := KeyIndex(e, k);
    if r[p] != (k, v) {
      if i >= 0 {
        assert r == e[i := (k, v)];
        assert e[p] == r[p];
      } else {
        assert r == e + [(k, v)];
        assert e[p] == r[p];
      }
    }
  }

  /** Removing the property at `i` leaves every other key where the rest of
      the list puts it. */
  lemma GetRemoved<V>(e: Props<V>, i: int, k': string)
    requires UniqueKeys(e) && 0 <= i < |e| && k' != e[i].0
    ensures Get(e[..i] + e[i + 1..], k') == Get(e, k')
  {
    var r := e[..i] + e[i + 1..];
    var a, b := KeyIndex(r, k'), KeyIndex(e, k');
    if b >= 0 {
      assert b != i;
      var c := if b < i then b else b - 1;
      assert r[c] == e[b];
    }
  }

  /** `delete e[k]`. */
  function Delete<V>(e: Props<V>, k: string): (r: Props<V>)
    requires UniqueKeys(e)
    ensures UniqueKeys(r)
    ensures Get(r, k) == None
    ensures forall k' :: k' != k ==> Get(r, k') == Get(e, k')
    ensures !HasKey(e, k) ==> r == e
    ensures HasKey(e, k) ==> |r| == |e| - 1
    ensures forall j :: 0 <= j < |r| ==> r[j] in e && r[j].0 != k
  {
    var i := KeyIndex(e, k);
    if i < 0 then e
    else
      var r := e[..i] + e[i + 1..];
      assert forall j :: 0 <= j < |r| ==> r[j] == (if j < i then e[j] else e[j + 1]);
      assert forall k' :: k' != k ==> Get(r, k') == Get(e, k') by {
        forall k' | k' != k ensures Get(r, k') == Get(e, k') {
          GetRemoved(e, i, k');
        }
      }
      r
  }

  /** Assigning the next property of a list with unique keys onto the part
      before it extends that part by the property. */
  lemma PutNext<V>(whole: Props<V>, j: int)
    requires UniqueKeys(whole) && 0 <= j < |whole|
    ensures Put(whole[..j], whole[j].0, whole[j].1) == whole[..j + 1]
  {
    var e := whole[..j];
    assert !HasKey(e, whole[j].0);
    assert e + [whole[j]] == whole[..j + 1];
  }

  /** `PutNext` for a list made of a prefix `a` and the first `q` entries
      of `b`. */
  lemma PutAppend<V>(a: Props<V>, b: Props<V>, q: int)
    requires UniqueKeys(a + b) && 0 <= q < |b|
    ensures Put(a + b[..q], b[q].0, b[q].1) == a + b[..q + 1]
  {
    var whole := a + b;
    PutNext(whole, |a| + q);
    assert whole[..|a| + q] == a + b[..q];
    assert whole[|a| + q] == b[q];
    assert whole[..|a| + q + 1] == a + b[..q + 1];
  }

  lemma UniqueKeysConcat<V>(a: Props<V>, b: Props<V>)
    requires UniqueKeys(a) && UniqueKeys(b)
    requires forall p, q :: 0 <= p < |a| && 0 <= q < |b| ==> a[p].0 != b[q].0
    ensures UniqueKeys(a + b)
  {
    var c := a + b;
    forall i, j | 0 <= i < j < |c| ensures c[i].0 != c[j].0 {
      if j < |a| {
        assert c[i] == a[i] && c[j] == a[j];
      } else if i >= |a| {
        assert c[i] == b[i - |a|] && c[j] == b[j - |a|];
      } else {
        assert c[i] == a[i] && c[j] == b[j - |a|];
      }
    }
  }
}
