/** Arrays used as sets, as the Music and Playlist documents use them: an entry is
    pushed only when absent, and removal filters out every occurrence. */
module ListSet {

  /** No entry occurs twice. */
  predicate NoDup<T(==)>(s: seq<T>) {
    forall i, j :: 0 <= i < j < |s| ==> s[i] != s[j]
  }

  /** `if (!a.includes(x)) a.push(x)`: the old entries stay in front, in order,
      and `x` is present afterwards. */
  function Add<T(==)>(s: seq<T>, x: T): (r: seq<T>)
    ensures x in r
    ensures |s| <= |r| && r[..|s|] == s
    ensures forall i :: 0 <= i < |r| ==> r[i] in s || r[i] == x
  {
    if x in s then s else s + [x]
  }

  /** `a.filter(id => !id.equals(x))`: every occurrence of `x` is gone. */
  function RemoveAll<T(==)>(s: seq<T>, x: T): (r: seq<T>)
    ensures x !in r
    ensures forall i :: 0 <= i < |r| ==> r[i] in s
    ensures |r| <= |s|
  {
    if |s| == 0 then []
    else if s[0] == x then RemoveAll(s[1..], x)
    else [s[0]] + RemoveAll(s[1..], x)
  }

  lemma AddSize<T>(s: seq<T>, x: T)
    ensures |Add(s, x)| == if x in s then |s| else |s| + 1
  {
  }

  /** Adding keeps a duplicate-free list duplicate-free. */
  lemma AddKeepsNoDup<T>(s: seq<T>, x: T)
    requires NoDup(s)
    ensures NoDup(Add(s, x))
  {
  }

  /** Adding twice is adding once. */
  lemma AddIdempotent<T>(s: seq<T>, x: T)
    ensures Add(Add(s, x), x) == Add(s, x)
  {
  }

  /** Removal touches nothing when the entry is absent. */
  lemma {:induction false} RemoveAllAbsent<T>(s: seq<T>, x: T)
    requires x !in s
    ensures RemoveAll(s, x) == s
  {
    if |s| > 0 {
      RemoveAllAbsent(s[1..], x);
      assert [s[0]] + s[1..] == s;
    }
  }

  /** Removal works piecewise, so the surviving entries keep their relative order. */
  lemma {:induction false} RemoveAllAppend<T>(a: seq<T>, b: seq<T>, x: T)
    ensures RemoveAll(a + b, x) == RemoveAll(a, x) + RemoveAll(b, x)
  {
    if |a| > 0 {
      assert (a + b)[1..] == a[1..] + b;
      RemoveAllAppend(a[1..], b, x);
    } else {
      assert a + b == b;
    }
  }

  /** Exactly the occurrences of `x` are dropped: every other entry keeps its multiplicity. */
  lemma {:induction false} RemoveAllMultiset<T>(s: seq<T>, x: T)
    ensures multiset(RemoveAll(s, x)) == multiset(s)[x := 0]
  {
    if |s| > 0 {
      RemoveAllMultiset(s[1..], x);
      assert s == [s[0]] + s[1..];
      assert multiset(s) == multiset([s[0]]) + multiset(s[1..]);
    }
  }

  /** Removing from a duplicate-free list shortens it by one exactly when the entry was there. */
  lemma RemoveAllSize<T>(s: seq<T>, x: T)
    requires NoDup(s)
    ensures |RemoveAll(s, x)| == if x in s then |s| - 1 else |s|
  {
    RemoveAllMultiset(s, x);
    NoDupCount(s, x);
    assert |multiset(RemoveAll(s, x))| == |RemoveAll(s, x)|;
    assert |multiset(s)| == |s|;
  }

  lemma {:induction false} NoDupCount<T>(s: seq<T>, x: T)
    requires NoDup(s)
    ensures multiset(s)[x] == if x in s then 1 else 0
  {
    if |s| > 0 {
      assert s == [s[0]] + s[1..];
      assert multiset(s) == multiset([s[0]]) + multiset(s[1..]);
      NoDupCount(s[1..], x);
    }
  }

  /** Removing keeps a duplicate-free list duplicate-free. */
  lemma {:induction false} RemoveAllKeepsNoDup<T>(s: seq<T>, x: T)
    requires NoDup(s)
    ensures NoDup(RemoveAll(s, x))
  {
    if |s| > 0 {
      RemoveAllKeepsNoDup(s[1..], x);
    }
  }

  /** Removing twice is removing once. */
  lemma RemoveAllIdempotent<T>(s: seq<T>, x: T)
    ensures RemoveAll(RemoveAll(s, x), x) == RemoveAll(s, x)
  {
    RemoveAllAbsent(RemoveAll(s, x), x);
  }

  /** Removal leaves the entries of other values alone. */
  lemma RemoveAllKeepsOthers<T>(s: seq<T>, x: T, y: T)
    requires y != x
    ensures multiset(RemoveAll(s, x))[y] == multiset(s)[y]
  {
    RemoveAllMultiset(s, x);
  }

  /** Adding an absent entry and then removing it restores the list. */
  lemma RemoveAfterAdd<T>(s: seq<T>, x: T)
    requires x !in s
    ensures RemoveAll(Add(s, x), x) == s
  {
    RemoveAllAppend(s, [x], x);
    RemoveAllAbsent(s, x);
  }
}
