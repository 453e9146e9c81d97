/** The array helpers of src/utils/array.js. */
module ArrayUtils {

  /** A JavaScript array: a mutable list whose length changes in place. */
  class JsArray<T> {
    var items: seq<T>

    constructor (s: seq<T>)
      ensures items == s
    {
      items := s;
    }
  }

  /** An argument that `isArray` either accepts (an array) or rejects. */
  datatype Operand<T> = ArrayOperand(arr: JsArray<T>) | NonArray

  /** Element-wise equality of two lists of the same length. */
  predicate SameContents<T(==)>(s: seq<T>, t: seq<T>)
  {
    |s| == |t| && forall k :: 0 <= k < |s| ==> s[k] == t[k]
  }

  lemma SameContentsIsEquality<T>(s: seq<T>, t: seq<T>)
    ensures SameContents(s, t) <==> s == t
  {
  }

  lemma SameContentsSymmetric<T>(s: seq<T>, t: seq<T>)
    ensures SameContents(s, t) <==> SameContents(t, s)
  {
  }

  /** `arrayContains`: a linear scan that stops at the first equal element. */
  method ArrayContains<T(==)>(a: JsArray<T>, value: T) returns (found: bool)
    ensures found <==> value in a.items
    ensures found <==> exists k :: 0 <= k < |a.items| && a.items[k] == value
    ensures a.items == [] ==> !found
  {
    var i, c := 0, |a.items|;
    while i < c
      invariant 0 <= i <= c == |a.items|
      invariant value !in a.items[..i]
    {
      if a.items[i] == value {
        return true;
      }
      i := i + 1;
    }
    return false;
  }

  /** `arrayContentsMatch`: both arguments are arrays of the same length
      that are strictly equal position by position; compared from the last
      index down. */
  method ArrayContentsMatch<T(==)>(a: Operand<T>, b: Operand<T>) returns (same: bool)
    ensures !a.ArrayOperand? || !b.ArrayOperand? ==> !same
    ensures a.ArrayOperand? && b.ArrayOperand? && |a.arr.items| != |b.arr.items| ==> !same
    ensures same <==> a.ArrayOperand? && b.ArrayOperand? && SameContents(a.arr.items, b.arr.items)
  {
    if !a.ArrayOperand? || !b.ArrayOperand? {
      return false;
    }
    var s, t := a.arr.items, b.arr.items;
    if |s| != |t| {
      return false;
    }
    var i := |s|;
    while i != 0
      invariant 0 <= i <= |s|
      invariant forall k :: i <= k < |s| ==> s[k] == t[k]
    {
      i := i - 1;
      if s[i] != t[i] {
        return false;
      }
    }
    return true;
  }

  /** `Array.prototype.indexOf`: the first index holding `x`, or -1. */
  function IndexOf<T(==)>(s: seq<T>, x: T): (r: int)
    ensures -1 <= r < |s|
    ensures r == -1 <==> x !in s
    ensures 0 <= r ==> s[r] == x && x !in s[..r]
  {
    if s == [] then -1
    else if s[0] == x then 0
    else
      var r := IndexOf(s[1..], x);
      if r == -1 then -1
      else
        assert s[..r + 1] == [s[0]] + s[1..][..r];
        r + 1
  }

  /** The list with its first occurrence of `x` taken out, defined
      independently of indexOf and splice. */
  function WithoutFirst<T(==)>(s: seq<T>, x: T): seq<T>
  {
    if s == [] then []
    else if s[0] == x then s[1..]
    else [s[0]] + WithoutFirst(s[1..], x)
  }

  /** Cutting out the element at the first index of `x` is WithoutFirst. */
  lemma {:induction false} SpliceAtIndexOf<T>(s: seq<T>, x: T)
    requires x in s
    ensures WithoutFirst(s, x) == s[..IndexOf(s, x)] + s[IndexOf(s, x) + 1..]
  {
    if s[0] != x {
      var t := s[1..];
      var i := IndexOf(t, x);
      assert IndexOf(s, x) == i + 1;
      SpliceAtIndexOf(t, x);
      assert s[..i + 1] == [s[0]] + t[..i];
      assert s[i + 2..] == t[i + 1..];
      calc {
        WithoutFirst(s, x);
        [s[0]] + WithoutFirst(t, x);
        [s[0]] + (t[..i] + t[i + 1..]);
        ([s[0]] + t[..i]) + t[i + 1..];
      }
    } else {
      assert s[..0] + s[1..] == s[1..];
    }
  }

  lemma {:induction false} WithoutFirstAbsent<T>(s: seq<T>, x: T)
    requires x !in s
    ensures WithoutFirst(s, x) == s
  {
    if s != [] {
      WithoutFirstAbsent(s[1..], x);
    }
  }

  /** With `x` present, exactly one copy of `x` goes and every other element
      stays, in its order: the list shrinks by one, later duplicates remain. */
  lemma {:induction false} WithoutFirstPresent<T>(s: seq<T>, x: T)
    requires x in s
    ensures |WithoutFirst(s, x)| == |s| - 1
    ensures multiset(WithoutFirst(s, x)) == multiset(s) - multiset{x}
    ensures WithoutFirst(s, x) == s[..IndexOf(s, x)] + s[IndexOf(s, x) + 1..]
  {
    SpliceAtIndexOf(s, x);
    var i := IndexOf(s, x);
    assert s == s[..i] + [s[i]] + s[i + 1..];
    calc {
      multiset(s);
      multiset(s[..i]) + multiset{x} + multiset(s[i + 1..]);
      multiset(s[..i] + s[i + 1..]) + multiset{x};
    }
  }

  /** `removeFromArray`: deletes the element at `indexOf(member)`, if any. */
  method RemoveFromArray<T(==)>(a: JsArray<T>, member: T)
    modifies a
    ensures a.items == WithoutFirst(old(a.items), member)
  {
    var index := IndexOf(a.items, member);
    if index != -1 {
      SpliceAtIndexOf(a.items, member);
      a.items := a.items[..index] + a.items[index + 1..];
    } else {
      WithoutFirstAbsent(a.items, member);
    }
  }
}
