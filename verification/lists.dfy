/** The two list idioms the handlers are built from: finding the first
    element that satisfies a test, and Python's `list.remove`, which deletes
    the first element EQUAL to a given value. */
module Lists {
  import opened Wrappers

  /** Position of the first occurrence of `x` in `s`, or None when `x` does
      not occur (the `next((... if ...), None)` lookup). */
  function FirstIndex<T(==)>(s: seq<T>, x: T): (r: Option<nat>)
    ensures r.None? <==> x !in s
    ensures r.Some? ==> r.value < |s| && s[r.value] == x
    ensures r.Some? ==> forall j :: 0 <= j < r.value ==> s[j] != x
  {
    if s == [] then None
    else if s[0] == x then Some(0)
    else
      match FirstIndex(s[1..], x)
      case None => None
      case Some(k) => Some(k + 1)
  }

  /** Python's `list.remove(x)` on a list that holds `x`: the first element
      equal to `x` is deleted. When `x` is absent Python raises; here the list
      is returned unchanged, and no caller reaches that case. */
  function RemoveFirst<T(==)>(s: seq<T>, x: T): (r: seq<T>)
    ensures x in s ==> |r| == |s| - 1 && multiset(r) == multiset(s) - multiset{x}
    ensures x !in s ==> r == s
  {
    if s == [] then []
    else if s[0] == x then
      assert s == [s[0]] + s[1..];
      s[1..]
    else
      var r := [s[0]] + RemoveFirst(s[1..], x);
      assert s == [s[0]] + s[1..];
      r
  }

  /** When the first occurrence of `s[i]` is at `i`, `list.remove(s[i])`
      deletes exactly position `i` and keeps the others in order. */
  lemma {:induction false} RemoveFirstAt<T>(s: seq<T>, i: nat)
    requires i < |s|
    requires s[i] !in s[..i]
    ensures RemoveFirst(s, s[i]) == s[..i] + s[i + 1..]
  {
    if i > 0 {
      assert s[0] in s[..i];
      assert s[..i] == [s[0]] + s[1..][..i - 1];
      RemoveFirstAt(s[1..], i - 1);
    }
  }

  /** The keys of a list of records, in order (the `book['title']` of every entry). */
  function Project<T, K>(s: seq<T>, key: T -> K): seq<K> {
    seq(|s|, j requires 0 <= j < |s| => key(s[j]))
  }

  /** The first record whose key is `k` is equal to no earlier record, so
      deleting that record by value deletes the looked-up position. */
  lemma FirstKeyIsFirst<T, K>(s: seq<T>, key: T -> K, k: K, i: nat)
    requires FirstIndex(Project(s, key), k) == Some(i)
    ensures i < |s| && key(s[i]) == k && s[i] !in s[..i]
  {
    assert forall j :: 0 <= j < i ==> Project(s, key)[j] == key(s[j]);
  }

  /** Appending a record appends its key. */
  lemma ProjectAppend<T, K>(s: seq<T>, x: T, key: T -> K)
    ensures Project(s + [x], key) == Project(s, key) + [key(x)]
  {
    assert forall j :: 0 <= j < |s| ==> (s + [x])[j] == s[j];
  }
}
