/** The JavaScript array operations the modelled code uses, on sequences. */
module Seqs {

  /** `indexOf`: the index of the first element equal to `x`, or -1. */
  function IndexOf<T(==)>(s: seq<T>, x: T): (r: int)
    ensures -1 <= r < |s|
    ensures r == -1 <==> x !in s
    ensures 0 <= r ==> s[r] == x && x !in s[..r]
  {
    if s == [] then -1
    else if s[0] == x then 0
    else
      var k := IndexOf(s[1..], x);
      assert s[1..] == s[1..];
      if k < 0 then -1
      else
        assert s[..k + 1] == [s[0]] + s[1..][..k];
        k + 1
  }

  /** `splice(offset, 0, x)` with 0 <= offset <= |s|. */
  function InsertAt<T>(s: seq<T>, offset: nat, x: T): (r: seq<T>)
    requires offset <= |s|
    ensures |r| == |s| + 1 && r[offset] == x
    ensures r[..offset] == s[..offset] && r[offset + 1..] == s[offset..]
  {
    s[..offset] + [x] + s[offset..]
  }

  /** `splice(offset, 1)`. */
  function RemoveAt<T>(s: seq<T>, offset: nat): (r: seq<T>)
    requires offset < |s|
    ensures |r| == |s| - 1
    ensures r[..offset] == s[..offset] && r[offset..] == s[offset + 1..]
  {
    s[..offset] + s[offset + 1..]
  }

  /** Removing what was just inserted gives back the original sequence. */
  lemma RemoveInserted<T>(s: seq<T>, offset: nat, x: T)
    requires offset <= |s|
    ensures RemoveAt(InsertAt(s, offset, x), offset) == s
  {
    var r := InsertAt(s, offset, x);
    assert RemoveAt(r, offset) == r[..offset] + r[offset + 1..];
    assert s == s[..offset] + s[offset..];
  }

  /** A fresh element is found exactly where it was inserted. */
  lemma IndexOfInserted<T>(s: seq<T>, offset: nat, x: T)
    requires offset <= |s| && x !in s
    ensures IndexOf(InsertAt(s, offset, x), x) == offset
  {
  }

  /** Where `indexOf` finds `x` in a concatenation. */
  lemma {:induction false} IndexOfAppend<T>(a: seq<T>, b: seq<T>, x: T)
    ensures x in a ==> IndexOf(a + b, x) == IndexOf(a, x)
    ensures x !in a && x in b ==> IndexOf(a + b, x) == |a| + IndexOf(b, x)
    ensures x !in a && x !in b ==> IndexOf(a + b, x) == -1
  {
    if a != [] {
      assert (a + b)[1..] == a[1..] + b;
      IndexOfAppend(a[1..], b, x);
    } else {
      assert a + b == b;
    }
  }

  /** Where `indexOf` finds `x` in `a + (b + c)` when `a` misses it and `b` holds it. */
  lemma IndexOfPast<T>(a: seq<T>, b: seq<T>, c: seq<T>, x: T)
    requires x !in a && x in b
    ensures IndexOf(a + (b + c), x) == |a| + IndexOf(b, x)
  {
    IndexOfAppend(a, b + c, x);
    IndexOfAppend(b, c, x);
  }

  lemma Assoc<T>(a: seq<T>, b: seq<T>, c: seq<T>)
    ensures a + b + c == a + (b + c)
  {
  }

  /**
   * In `a + s + c`, replacing the elements at `|a| + m - 1` and `|a| + m`
   * (both inside `s`) by `x`.
   */
  lemma ReplacePairInside<T>(fs: seq<T>, gs: seq<T>, a: seq<T>, s: seq<T>, c: seq<T>, m: nat, x: T)
    requires 0 < m < |s| && fs == a + s + c && gs == a + (s[..m - 1] + [x] + s[m + 1..]) + c
    ensures var f := |a| + m;
      && 0 < f < |fs| && fs[f] == s[m] && fs[f - 1] == s[m - 1]
      && gs == fs[..f - 1] + [x] + fs[f + 1..]
  {
    var f := |a| + m;
    assert fs[..f - 1] == a + s[..m - 1];
    assert fs[f + 1..] == s[m + 1..] + c;
  }

  /**
   * In `a + p + s + c`, replacing the last element of `p` and the first of
   * `s` by `x`.
   */
  lemma ReplacePairAcross<T>(fs: seq<T>, gs: seq<T>, a: seq<T>, p: seq<T>, s: seq<T>, c: seq<T>, x: T)
    requires p != [] && s != [] && fs == a + p + s + c && gs == a + (p[..|p| - 1] + [x]) + s[1..] + c
    ensures var f := |a| + |p|;
      && 0 < f < |fs| && fs[f] == s[0] && fs[f - 1] == p[|p| - 1]
      && gs == fs[..f - 1] + [x] + fs[f + 1..]
  {
    var f := |a| + |p|;
    assert fs[..f - 1] == a + p[..|p| - 1];
    assert fs[f + 1..] == s[1..] + c;
  }

  /** Regrouping a four-part concatenation whose middle parts are joined. */
  lemma Regroup<T>(a: seq<T>, b: seq<T>, c: seq<T>, d: seq<T>)
    ensures (a + b) + (c + d) == a + (b + c) + d
    ensures a + (b + c) + d == a + b + c + d
  {
  }

  /** A sequence seen around its neighbours `f-1` and `f`. */
  lemma SeqAround<T>(s: seq<T>, f: nat)
    requires 0 < f < |s|
    ensures s == (s[..f - 1] + [s[f - 1]]) + [s[f]] + s[f + 1..]
  {
  }

  /** A sequence seen around its element `i`. */
  lemma Around<T>(s: seq<T>, i: nat)
    requires i < |s|
    ensures s == s[..i] + [s[i]] + s[i + 1..]
  {
  }

  /** A sequence seen around its neighbours `i` and `i+1`. */
  lemma PairAround<T>(s: seq<T>, i: nat)
    requires i + 1 < |s|
    ensures s == s[..i] + [s[i], s[i + 1]] + s[i + 2..]
  {
    assert s == s[..i] + s[i..i + 2] + s[i + 2..];
  }

  /** The two parts of a sequence in which neighbours `f-1` and `f` were replaced by `x`. */
  lemma ReplacedPairParts<T>(a: seq<T>, f: nat, x: T)
    requires 0 < f < |a|
    ensures var r := a[..f - 1] + [x] + a[f + 1..];
      |r| == |a| - 1 && r[..f] == a[..f - 1] + [x] && r[f..] == a[f + 1..]
  {
    var r := a[..f - 1] + [x] + a[f + 1..];
    assert r[..f] == a[..f - 1] + [x];
    assert r[f..] == a[f + 1..];
  }

  /** Two sequences agreeing from positions `f` and `g` on agree from `f+1` and `g+1` on. */
  lemma SuffixStep<T>(a: seq<T>, f: nat, b: seq<T>, g: nat)
    requires f < |a| && g <= |b| && a[f..] == b[g..]
    ensures g < |b| && a[f] == b[g] && a[f + 1..] == b[g + 1..]
    ensures b[..g + 1] == b[..g] + [b[g]] && a[..f + 1] == a[..f] + [a[f]]
  {
    assert a[f..][0] == b[g..][0];
    assert a[f + 1..] == a[f..][1..];
    assert b[g + 1..] == b[g..][1..];
  }

  /** `a` is what is left of `b` once some of its first elements are dropped. */
  predicate IsSuffix<T(==)>(a: seq<T>, b: seq<T>)
  {
    |a| <= |b| && a == b[|b| - |a|..]
  }

  /** Dropping the first element of a suffix leaves a suffix. */
  lemma SuffixTail<T>(a: seq<T>, b: seq<T>)
    requires IsSuffix(a, b) && a != []
    ensures IsSuffix(a[1..], b)
  {
    assert a[1..] == b[|b| - |a|..][1..];
  }

  /** A suffix of a suffix is a suffix. */
  lemma SuffixTrans<T>(a: seq<T>, b: seq<T>, c: seq<T>)
    requires IsSuffix(a, b) && IsSuffix(b, c)
    ensures IsSuffix(a, c)
  {
    assert a == c[|c| - |b|..][|b| - |a|..];
  }
}
