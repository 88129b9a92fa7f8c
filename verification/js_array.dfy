/**
 The three JavaScript built-ins that `off` combines on one line of emit.ts:
 `Array.prototype.indexOf`, the unsigned shift `x >>> 0` (the ToUint32 conversion of
 ECMA-262, section 7.1) and `Array.prototype.splice` (ECMA-262, section 23.1.3), each
 written out with its clamping rules, together with a reference "remove the first
 occurrence" function that the combination is proved to compute.
 */
module JsArray {

  /** 2^32: the modulus of ToUint32. */
  const TwoTo32: int := 0x1_0000_0000

  /** The largest length a JavaScript array can have (2^32 - 1). */
  const MaxArrayLength: int := 0xFFFF_FFFF

  /** `x >>> 0`: the integer x taken modulo 2^32, as a non-negative number. */
  function ToUint32(x: int): (r: nat)
    ensures r < TwoTo32
    ensures 0 <= x < TwoTo32 ==> r == x
    ensures -TwoTo32 <= x < 0 ==> r == x + TwoTo32
  {
    x % TwoTo32
  }

  /** `s.indexOf(x)`: forward search with strict equality; -1 when x does not occur. */
  function IndexOf<T(==)>(s: seq<T>, x: T): (i: int)
    ensures -1 <= i < |s|
    ensures i == -1 <==> x !in s
    ensures 0 <= i ==> s[i] == x && forall j :: 0 <= j < i ==> s[j] != x
  {
    if |s| == 0 then -1
    else if s[0] == x then 0
    else
      var j := IndexOf(s[1..], x);
      if j == -1 then -1 else j + 1
  }

  /** Where splice starts deleting: negative starts count from the end, and every start
      is clamped into [0, len]. */
  function ActualStart(len: nat, start: int): (a: nat)
    ensures a <= len
    ensures 0 <= start <= len ==> a == start
    ensures start >= len ==> a == len
  {
    if start < 0 then (if len + start < 0 then 0 else len + start)
    else if start < len then start
    else len
  }

  /** How many elements splice deletes: the requested count clamped into [0, len - a]. */
  function ActualDeleteCount(len: nat, a: nat, deleteCount: int): (d: nat)
    requires a <= len
    ensures d <= len - a
    ensures deleteCount <= 0 ==> d == 0
    ensures 0 <= deleteCount <= len - a ==> d == deleteCount
  {
    if deleteCount < 0 then 0
    else if deleteCount < len - a then deleteCount
    else len - a
  }

  /** The array that `s.splice(start, deleteCount)` leaves behind (the deleted elements it
      returns are dropped, as emit.ts drops them). */
  function Splice<T>(s: seq<T>, start: int, deleteCount: int): (r: seq<T>)
    ensures |r| <= |s|
    ensures start >= |s| || deleteCount <= 0 ==> r == s
    ensures 0 <= start < |s| && deleteCount == 1 ==> r == s[..start] + s[start + 1..]
    ensures -|s| <= start < 0 && deleteCount == 1 ==> r == s[..|s| + start] + s[|s| + start + 1..]
    ensures start < -|s| && deleteCount == 1 && |s| > 0 ==> r == s[1..]
  {
    var a := ActualStart(|s|, start);
    var d := ActualDeleteCount(|s|, a, deleteCount);
    s[..a] + s[a + d..]
  }

  /** Reference definition: drop the first occurrence of x, keep everything else in order. */
  function RemoveFirst<T(==)>(s: seq<T>, x: T): (r: seq<T>)
    ensures x !in s ==> r == s
    ensures x in s ==> |r| == |s| - 1
  {
    if |s| == 0 then []
    else if s[0] == x then s[1..]
    else [s[0]] + RemoveFirst(s[1..], x)
  }

  /** RemoveFirst takes away exactly one copy of x, if there is one, and nothing else. */
  lemma {:induction false} RemoveFirstMultiset<T>(s: seq<T>, x: T)
    ensures multiset(RemoveFirst(s, x)) == multiset(s) - multiset{x}
  {
    if |s| > 0 {
      assert s == [s[0]] + s[1..];
      if s[0] != x {
        RemoveFirstMultiset(s[1..], x);
      }
    }
  }

  /** The first occurrence of x is exactly what RemoveFirst cuts out: the elements before
      it and the elements after it survive, in their original order. */
  lemma {:induction false} RemoveFirstCutsAt<T>(s: seq<T>, x: T, i: nat)
    requires i < |s| && s[i] == x && forall j :: 0 <= j < i ==> s[j] != x
    ensures RemoveFirst(s, x) == s[..i] + s[i + 1..]
  {
    if i > 0 {
      var t := s[1..];
      RemoveFirstCutsAt(t, x, i - 1);
      assert s[..i] == [s[0]] + t[..i - 1];
      assert s[i + 1..] == t[i..];
    }
  }

  /** Appending an element that was absent and then removing it gives the list back. */
  lemma {:induction false} RemoveFirstOfAppended<T>(s: seq<T>, x: T)
    requires x !in s
    ensures RemoveFirst(s + [x], x) == s
  {
    if |s| > 0 {
      assert (s + [x])[1..] == s[1..] + [x];
      RemoveFirstOfAppended(s[1..], x);
    }
  }

  /** `s.splice(s.indexOf(x) >>> 0, 1)` removes the first occurrence of x, and is a no-op
      when x is absent, for every array length JavaScript allows. */
  lemma SpliceOfUnsignedIndexIsRemoveFirst<T>(s: seq<T>, x: T)
    requires |s| <= MaxArrayLength
    ensures Splice(s, ToUint32(IndexOf(s, x)), 1) == RemoveFirst(s, x)
  {
    if x in s {
      RemoveFirstCutsAt(s, x, IndexOf(s, x));
    }
  }

  /** Without the `>>> 0`, a missing handler would make splice start at -1 and delete the
      LAST element of a non-empty array. */
  lemma SignedIndexWouldDropLast<T>(s: seq<T>, x: T)
    requires x !in s && |s| > 0
    ensures Splice(s, IndexOf(s, x), 1) == s[..|s| - 1]
  {
  }

  /** Removing index 0 (the reading in which `-1 >>> 0` behaves like 0) differs from what
      the code does as soon as the list is non-empty and x is missing. */
  lemma IndexZeroReadingDiffers<T>(s: seq<T>, x: T)
    requires x !in s && 0 < |s| <= MaxArrayLength
    ensures Splice(s, ToUint32(IndexOf(s, x)), 1) == s
    ensures Splice(s, 0, 1) == s[1..] != s
  {
  }
}
