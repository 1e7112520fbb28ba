/**
 * Key signatures of the input layer: a key plus a list of modifier keys,
 * encoded as one string, "the sorted modifier codes, then the key code,
 * joined with '-'" (for example "Alt-Shift-KeyA").
 *
 * JavaScript's default `Array.prototype.sort` orders strings by comparing
 * code units one by one; here that order is `LexLe` on `char`s.
 */
module KeySignatures {

  /** Lexicographic "less than or equal" on strings. */
  predicate LexLe(a: string, b: string)
  {
    a == [] || (b != [] && (a[0] < b[0] || (a[0] == b[0] && LexLe(a[1..], b[1..]))))
  }

  lemma {:induction false} LexLeTotal(a: string, b: string)
    ensures LexLe(a, b) || LexLe(b, a)
  {
    if a != [] && b != [] && a[0] == b[0] {
      LexLeTotal(a[1..], b[1..]);
    }
  }

  lemma {:induction false} LexLeReflexive(a: string)
    ensures LexLe(a, a)
  {
    if a != [] { LexLeReflexive(a[1..]); }
  }

  lemma {:induction false} LexLeAntisymmetric(a: string, b: string)
    requires LexLe(a, b) && LexLe(b, a)
    ensures a == b
  {
    if a != [] && b != [] {
      LexLeAntisymmetric(a[1..], b[1..]);
      assert a == [a[0]] + a[1..] && b == [b[0]] + b[1..];
    }
  }

  lemma {:induction false} LexLeTransitive(a: string, b: string, c: string)
    requires LexLe(a, b) && LexLe(b, c)
    ensures LexLe(a, c)
  {
    if a != [] && b != [] && c != [] && a[0] == b[0] && b[0] == c[0] {
      LexLeTransitive(a[1..], b[1..], c[1..]);
    }
  }

  ghost predicate Sorted(s: seq<string>)
  {
    forall i, j :: 0 <= i < j < |s| ==> LexLe(s[i], s[j])
  }

  /** Inserts `x` into the sorted list `s`, after every element not above it. */
  function InsertSorted(x: string, s: seq<string>): (r: seq<string>)
    requires Sorted(s)
    ensures Sorted(r)
    ensures multiset(r) == multiset(s) + multiset{x}
  {
    if s == [] then [x]
    else if LexLe(s[0], x) then
      SortedTail(s);
      var tail := InsertSorted(x, s[1..]);
      MultisetTail(s);
      HeadBelowInsert(x, s, tail);
      ConsSorted(s[0], tail);
      [s[0]] + tail
    else
      LexLeTotal(s[0], x);
      XBelowAll(x, s);
      ConsSorted(x, s);
      [x] + s
  }

  /** Prepending an element below every element of a sorted list keeps it sorted. */
  lemma ConsSorted(h: string, t: seq<string>)
    requires Sorted(t) && forall j :: 0 <= j < |t| ==> LexLe(h, t[j])
    ensures Sorted([h] + t)
  {
    forall i, j | 0 <= i < j < |t| + 1
      ensures LexLe(([h] + t)[i], ([h] + t)[j])
    {
      assert ([h] + t)[j] == t[j - 1];
      if i > 0 { assert ([h] + t)[i] == t[i - 1]; }
    }
  }

  /** The head of a sorted list, not above `x`, is below `x` inserted into its tail. */
  lemma HeadBelowInsert(x: string, s: seq<string>, tail: seq<string>)
    requires Sorted(s) && s != [] && LexLe(s[0], x)
    requires multiset(tail) == multiset(s[1..]) + multiset{x}
    ensures forall j :: 0 <= j < |tail| ==> LexLe(s[0], tail[j])
  {
    forall j | 0 <= j < |tail|
      ensures LexLe(s[0], tail[j])
    {
      assert tail[j] in multiset(tail);
      if tail[j] != x {
        assert tail[j] in multiset(s[1..]);
        var k :| 0 <= k < |s[1..]| && s[1..][k] == tail[j];
        assert s[k + 1] == tail[j];
      }
    }
  }

  /** An element below the head of a sorted list is below all of it. */
  lemma XBelowAll(x: string, s: seq<string>)
    requires Sorted(s) && s != [] && LexLe(x, s[0])
    ensures forall j :: 0 <= j < |s| ==> LexLe(x, s[j])
  {
    forall j | 0 <= j < |s|
      ensures LexLe(x, s[j])
    {
      if j > 0 { LexLeTransitive(x, s[0], s[j]); }
    }
  }

  /** The sort `getCode` applies to the modifier codes (an insertion sort). */
  function Sort(s: seq<string>): (r: seq<string>)
    ensures Sorted(r)
    ensures multiset(r) == multiset(s)
    ensures |r| == |s|
  {
    if s == [] then []
    else
      assert s == [s[0]] + s[1..];
      var r := InsertSorted(s[0], Sort(s[1..]));
      assert |r| == |multiset(r)|;
      r
  }

  /** The head of a sorted list is below every element of it. */
  lemma SortedHeadIsLeast(a: seq<string>, x: string)
    requires Sorted(a) && x in multiset(a)
    ensures LexLe(a[0], x)
  {
    var i :| 0 <= i < |a| && a[i] == x;
    if i == 0 { LexLeReflexive(x); }
  }

  lemma SortedTail(a: seq<string>)
    requires Sorted(a) && a != []
    ensures Sorted(a[1..])
  {
    forall i, j | 0 <= i < j < |a| - 1
      ensures LexLe(a[1..][i], a[1..][j])
    {
      assert a[1..][i] == a[i + 1] && a[1..][j] == a[j + 1];
    }
  }

  lemma MultisetTail(a: seq<string>)
    requires a != []
    ensures multiset(a[1..]) == multiset(a) - multiset{a[0]}
  {
    assert a == [a[0]] + a[1..];
  }

  /** Two sorted lists holding the same elements start with the same element. */
  lemma SortedSameHead(a: seq<string>, b: seq<string>)
    requires Sorted(a) && Sorted(b) && a != [] && b != []
    requires multiset(a) == multiset(b)
    ensures a[0] == b[0]
  {
    assert a[0] in multiset(a) && b[0] in multiset(b);
    SortedHeadIsLeast(b, a[0]);
    SortedHeadIsLeast(a, b[0]);
    LexLeAntisymmetric(a[0], b[0]);
  }

  /** Two sorted lists holding the same elements are the same list. */
  lemma {:induction false} SortedUnique(a: seq<string>, b: seq<string>)
    requires Sorted(a) && Sorted(b)
    requires multiset(a) == multiset(b)
    ensures a == b
  {
    if a != [] && b != [] {
      SortedSameHead(a, b);
      MultisetTail(a);
      MultisetTail(b);
      SortedTail(a);
      SortedTail(b);
      SortedUnique(a[1..], b[1..]);
      assert a == [a[0]] + a[1..] && b == [b[0]] + b[1..];
    } else {
      assert |a| == |multiset(a)| == |multiset(b)| == |b|;
    }
  }

  /** `Array.prototype.join(sep)`: the parts with `sep` between neighbours. */
  function Join(parts: seq<string>, sep: string): (r: string)
    ensures parts == [] ==> r == []
    ensures |parts| == 1 ==> r == parts[0]
  {
    if parts == [] then []
    else if |parts| == 1 then parts[0]
    else parts[0] + sep + Join(parts[1..], sep)
  }

  lemma {:induction false} JoinSnoc(parts: seq<string>, last: string, sep: string)
    requires parts != []
    ensures Join(parts + [last], sep) == Join(parts, sep) + sep + last
  {
    if |parts| == 1 {
      assert (parts + [last])[1..] == [last];
    } else {
      assert (parts + [last])[1..] == parts[1..] + [last];
      JoinSnoc(parts[1..], last, sep);
    }
  }

  /** A key signature: the key's code and the codes of its modifier keys. */
  datatype KeySignature = KeySignature(key: string, modifiers: seq<string>)
  {
    /** `getCode`: sorted modifier codes, then the key code, joined by "-". */
    function GetCode(): string
    {
      Join(Sort(modifiers) + [key], "-")
    }
  }

  /** The constructor's default: no modifier keys. */
  function Plain(key: string): (k: KeySignature)
    ensures k.modifiers == [] && k.key == key
  {
    KeySignature(key, [])
  }

  /**
   * The code is the modifier codes in sorted order, each followed by "-",
   * then the key code; with no modifiers it is the key code alone.
   */
  lemma CodeShape(k: KeySignature)
    ensures k.modifiers == [] ==> k.GetCode() == k.key
    ensures k.modifiers != [] ==> k.GetCode() == Join(Sort(k.modifiers), "-") + "-" + k.key
  {
    if k.modifiers == [] {
      assert Sort(k.modifiers) + [k.key] == [k.key];
    } else {
      JoinSnoc(Sort(k.modifiers), k.key, "-");
    }
  }

  /** The key code is always the last segment of the code. */
  lemma KeyCodeIsLast(k: KeySignature)
    ensures |k.GetCode()| >= |k.key|
    ensures k.GetCode()[|k.GetCode()| - |k.key|..] == k.key
    ensures k.modifiers != [] ==>
      |k.GetCode()| > |k.key| && k.GetCode()[|k.GetCode()| - |k.key| - 1] == '-'
  {
    CodeShape(k);
  }

  /** The code does not depend on the order in which modifiers are given. */
  lemma CodeIgnoresModifierOrder(k1: KeySignature, k2: KeySignature)
    requires k1.key == k2.key
    requires multiset(k1.modifiers) == multiset(k2.modifiers)
    ensures k1.GetCode() == k2.GetCode()
  {
    SortedUnique(Sort(k1.modifiers), Sort(k2.modifiers));
  }

  /** The default (no modifiers) encodes to the key code alone. */
  lemma PlainCode(key: string)
    ensures Plain(key).GetCode() == key
  {
    CodeShape(Plain(key));
  }
}
