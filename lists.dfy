/** The JavaScript array primitives the controllers apply to id lists:
    `indexOf`, `splice(start, 1)`, and the `for…of` scans that set a flag and
    `break` on the first hit. Ids are compared by equality. */
module Lists {

  /** No value occurs twice: a list that is read as a set. */
  predicate NoDup<T(==)>(s: seq<T>) {
    forall i, j | 0 <= i < j < |s| :: s[i] != s[j]
  }

  /** `s.indexOf(x)`: the first position holding `x`, or -1 when there is none. */
  function IndexOf<T(==)>(s: seq<T>, x: T): (i: int)
    ensures -1 <= i < |s|
    ensures i == -1 <==> x !in s
    ensures 0 <= i ==> s[i] == x && x !in s[..i]
  {
    if |s| == 0 then -1
    else if s[0] == x then 0
    else
      var j := IndexOf(s[1..], x);
      assert 0 <= j ==> s[..j + 1] == [s[0]] + s[1..][..j];
      if j == -1 then -1 else j + 1
  }

  /** Only one position can be the first `x`. */
  lemma IndexOfIsFirst<T>(s: seq<T>, x: T, i: int)
    requires 0 <= i < |s| && s[i] == x && x !in s[..i]
    ensures IndexOf(s, x) == i
  {
  }

  /** The position that `splice(start, 1)` deletes in a list of length `len`:
      a negative start counts back from the end (and stops at 0), a start past
      the end is the end; the result `len` means nothing is deleted. */
  function SpliceIndex(len: nat, start: int): (k: nat)
    ensures k <= len
  {
    if start < 0 then (if len + start < 0 then 0 else len + start)
    else if start > len then len
    else start
  }

  /** The list that `s.splice(start, 1)` leaves behind: the element at
      SpliceIndex is dropped and every other element keeps its order. */
  function Splice<T>(s: seq<T>, start: int): (r: seq<T>)
    ensures var k := SpliceIndex(|s|, start);
      && |r| == (if k < |s| then |s| - 1 else |s|)
      && (forall j | 0 <= j < k && j < |r| :: r[j] == s[j])
      && (forall j | k <= j < |r| :: r[j] == s[j + 1])
  {
    var k := SpliceIndex(|s|, start);
    if k < |s| then s[..k] + s[k + 1..] else s
  }

  /** `s.splice(s.indexOf(x), 1)`, the removal idiom of both controllers: the
      first `x` goes; when `x` is absent, indexOf's -1 makes splice drop the
      LAST element instead, and an empty list stays empty. */
  function SpliceIndexOf<T(==)>(s: seq<T>, x: T): (r: seq<T>)
    ensures |s| > 0 ==> |r| == |s| - 1
    ensures |s| == 0 ==> r == []
    ensures x in s ==> r == s[..IndexOf(s, x)] + s[IndexOf(s, x) + 1..]
    ensures x !in s && |s| > 0 ==> r == s[..|s| - 1]
  {
    Splice(s, IndexOf(s, x))
  }

  /** Removing a present `x` takes out exactly one copy of `x` and nothing else. */
  lemma SpliceIndexOfMultiset<T>(s: seq<T>, x: T)
    requires x in s
    ensures multiset(SpliceIndexOf(s, x)) == multiset(s) - multiset{x}
  {
    var k := IndexOf(s, x);
    assert s == s[..k] + [x] + s[k + 1..];
  }

  /** Removing a present `x` keeps every other value's membership. */
  lemma SpliceIndexOfKeepsOthers<T>(s: seq<T>, x: T)
    requires x in s
    ensures forall y | y != x :: y in SpliceIndexOf(s, x) <==> y in s
  {
    SpliceIndexOfMultiset(s, x);
    forall y | y != x
      ensures y in SpliceIndexOf(s, x) <==> y in s
    {
      assert y in multiset(SpliceIndexOf(s, x)) <==> y in multiset(s);
    }
  }

  /** On a duplicate-free list the removal keeps the list duplicate-free and,
      when `x` was present, leaves no `x` behind. */
  lemma SpliceIndexOfNoDup<T>(s: seq<T>, x: T)
    requires NoDup(s)
    ensures NoDup(SpliceIndexOf(s, x))
    ensures x !in SpliceIndexOf(s, x)
  {
    var r := SpliceIndexOf(s, x);
    var k := SpliceIndex(|s|, IndexOf(s, x));
    forall a, b | 0 <= a < b < |r|
      ensures r[a] != r[b]
    {
      var a', b' := if a < k then a else a + 1, if b < k then b else b + 1;
      assert r[a] == s[a'] && r[b] == s[b'] && a' < b';
    }
    forall j | 0 <= j < |r|
      ensures r[j] != x
    {
      if x in s {
        var i := IndexOf(s, x);
        var j' := if j < k then j else j + 1;
        assert r[j] == s[j'] && j' != i && s[i] == x;
      }
    }
  }

  /** Appending an absent `x` and then removing it gives the list back. */
  lemma AppendThenSpliceIndexOf<T>(s: seq<T>, x: T)
    requires x !in s
    ensures SpliceIndexOf(s + [x], x) == s
  {
    IndexOfIsFirst(s + [x], x, |s|);
    assert (s + [x])[..|s|] == s;
  }

  /** The value a `for…of` flag scan over `s` looking for `x` leaves behind,
      element by element: each element overwrites the flag (true on a hit,
      false otherwise) and a hit breaks out. An empty list keeps the flag's
      earlier value `init`; any other list ends with the membership of `x`. */
  function Scanned<T(==)>(s: seq<T>, x: T, init: bool): (r: bool)
    ensures |s| == 0 ==> r == init
    ensures |s| > 0 ==> (r <==> x in s)
    decreases |s|
  {
    if |s| == 0 then init
    else if s[0] == x then true
    else
      assert forall y | y in s[1..] :: y in s;
      assert forall y | y in s && y != s[0] :: y in s[1..];
      Scanned(s[1..], x, false)
  }

  /** The flag scan itself, step by step. */
  method ScanFor<T(==)>(s: seq<T>, x: T, init: bool) returns (flag: bool)
    ensures flag == Scanned(s, x, init)
  {
    flag := init;
    var i := 0;
    while i < |s|
      invariant 0 <= i <= |s|
      invariant x !in s[..i]
      invariant if i == 0 then flag == init else !flag
    {
      if s[i] == x {
        flag := true;
        break;
      } else {
        flag := false;
      }
      assert s[..i + 1] == s[..i] + [s[i]];
      i := i + 1;
    }
    assert i == |s| ==> s[..i] == s;
  }
}
