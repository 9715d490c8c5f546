/** Small building blocks shared by the wizard's components: an optional value
    and the one-element form of JavaScript's `Array.prototype.splice`. */
module Base {

  datatype Option<T> = None | Some(value: T) {
    function GetOr(default: T): T {
      match this
      case Some(v) => v
      case None => default
    }
  }

  /** The position `splice(start, 1)` actually removes from an array of
      length `len`: a negative start counts from the end, and the result is
      clamped to [0, len] (section 23.1.3.31 of ECMA-262). */
  function SpliceStart(len: nat, start: int): (k: nat)
    ensures k <= len
    ensures 0 <= start <= len ==> k == start
    ensures start > len ==> k == len
    ensures -(len as int) <= start < 0 ==> k == len + start
    ensures start < -(len as int) ==> k == 0
  {
    if start < 0 then (if len + start < 0 then 0 else len + start)
    else if start > len then len
    else start
  }

  /** `s.splice(start, 1)`: the array left after removing at most one element. */
  function SpliceOne<T>(s: seq<T>, start: int): (r: seq<T>)
    ensures SpliceStart(|s|, start) < |s| ==> |r| == |s| - 1
    ensures SpliceStart(|s|, start) == |s| ==> r == s
    ensures forall j :: 0 <= j < SpliceStart(|s|, start) && j < |r| ==> r[j] == s[j]
    ensures forall j :: SpliceStart(|s|, start) <= j < |r| ==> r[j] == s[j + 1]
  {
    var k := SpliceStart(|s|, start);
    if k < |s| then s[..k] + s[k + 1..] else s
  }

  /** Removing position `i` and putting the removed element back at `i`
      gives the original array: nothing but that element was lost, and the
      later ones only shifted down by one. */
  lemma SpliceOneInverse<T>(s: seq<T>, i: nat)
    requires i < |s|
    ensures SpliceOne(s, i)[..i] + [s[i]] + SpliceOne(s, i)[i..] == s
  {
    var r := SpliceOne(s, i);
    var t := r[..i] + [s[i]] + r[i..];
    assert |t| == |s|;
    forall j | 0 <= j < |s| ensures t[j] == s[j] {
      if j < i {
        assert t[j] == r[j];
      } else if j > i {
        assert t[j] == r[j - 1];
      }
    }
  }

  /** An element of a block that starts a prefix sits at the block's
      offset in the whole sequence. */
  lemma PrefixBlockIndex<T>(before: seq<T>, block: seq<T>, whole: seq<T>, q: int)
    requires before + block <= whole && 0 <= q < |block|
    ensures |before| + q < |whole| && whole[|before| + q] == block[q]
  {
    assert (before + block)[|before| + q] == block[q];
  }

  /** A non-empty sequence followed by more is its head, then its tail
      followed by the rest. */
  lemma ConsConcat<T>(a: seq<T>, t: seq<T>)
    requires a != []
    ensures a + t == [a[0]] + (a[1..] + t)
  {
    assert a == [a[0]] + a[1..];
  }

  lemma AppendAssoc<T>(a: seq<T>, b: seq<T>, c: seq<T>)
    ensures a + (b + c) == (a + b) + c
  {
  }
}
