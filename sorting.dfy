/**
 * Kotlin's sortedWith(comparator) as a stable insertion sort over an
 * arbitrary comparator, and distinct().sorted() on integers.
 */
module Sorting {

  /** Ordered according to `cmp`: no element compares above a later one. */
  predicate SortedBy<T>(s: seq<T>, cmp: (T, T) -> int) {
    forall i, j :: 0 <= i < j < |s| ==> cmp(s[i], s[j]) <= 0
  }

  /** `cmp` is a total preorder on the elements of `s`. */
  ghost predicate TotalPreorderOn<T>(s: seq<T>, cmp: (T, T) -> int) {
    (forall a, b :: a in s && b in s && cmp(a, b) > 0 ==> cmp(b, a) <= 0)
    && (forall a, b, c :: a in s && b in s && c in s && cmp(a, b) <= 0 && cmp(b, c) <= 0 ==> cmp(a, c) <= 0)
  }

  /** Places `x` before the first element it does not compare above, so it stays ahead of elements equal to it. */
  function InsertBy<T>(x: T, s: seq<T>, cmp: (T, T) -> int): (r: seq<T>)
    ensures multiset(r) == multiset(s) + multiset{x}
  {
    if |s| == 0 then [x]
    else if cmp(x, s[0]) <= 0 then [x] + s
    else
      assert s == [s[0]] + s[1..];
      [s[0]] + InsertBy(x, s[1..], cmp)
  }

  /** Insertion sort: each element inserted, from the last to the first, into the sorted rest. */
  function SortWith<T>(s: seq<T>, cmp: (T, T) -> int): (r: seq<T>)
    ensures multiset(r) == multiset(s)
  {
    if |s| == 0 then []
    else
      assert s == [s[0]] + s[1..];
      InsertBy(s[0], SortWith(s[1..], cmp), cmp)
  }

  lemma InMultiset<T>(x: T, s: seq<T>)
    requires x in multiset(s)
    ensures x in s
  {
  }

  /** A head that compares below every element of a sorted tail keeps the whole sorted. */
  lemma ConsSorted<T>(h: T, tail: seq<T>, cmp: (T, T) -> int)
    requires SortedBy(tail, cmp)
    requires forall j :: 0 <= j < |tail| ==> cmp(h, tail[j]) <= 0
    ensures SortedBy([h] + tail, cmp)
  {
    var r := [h] + tail;
    forall i, j | 0 <= i < j < |r|
      ensures cmp(r[i], r[j]) <= 0
    {
      assert r[j] == tail[j - 1];
      if i > 0 {
        assert r[i] == tail[i - 1];
      }
    }
  }

  /** What is below every element of `s` and below `x` is below every element of any rearrangement of them. */
  lemma BelowAll<T>(h: T, x: T, s: seq<T>, tail: seq<T>, cmp: (T, T) -> int)
    requires multiset(tail) == multiset(s) + multiset{x}
    requires cmp(h, x) <= 0 && forall j :: 0 <= j < |s| ==> cmp(h, s[j]) <= 0
    ensures forall j :: 0 <= j < |tail| ==> cmp(h, tail[j]) <= 0
  {
    forall j | 0 <= j < |tail|
      ensures cmp(h, tail[j]) <= 0
    {
      assert tail[j] in multiset(tail);
      if tail[j] != x {
        assert tail[j] in multiset(s);
        var k :| 0 <= k < |s| && s[k] == tail[j];
      }
    }
  }

  lemma {:induction false} InsertBySorted<T>(x: T, s: seq<T>, cmp: (T, T) -> int, domain: seq<T>)
    requires SortedBy(s, cmp) && TotalPreorderOn(domain, cmp)
    requires x in domain && forall e :: e in s ==> e in domain
    ensures SortedBy(InsertBy(x, s, cmp), cmp)
  {
    if |s| == 0 {
    } else if cmp(x, s[0]) <= 0 {
      forall j | 0 <= j < |s|
        ensures cmp(x, s[j]) <= 0
      {
        if j > 0 {
          assert s[0] in s && s[j] in s;
        }
      }
      ConsSorted(x, s, cmp);
    } else {
      var rest := s[1..];
      assert SortedBy(rest, cmp);
      assert forall e :: e in rest ==> e in s;
      InsertBySorted(x, rest, cmp, domain);
      assert s[0] in s;
      assert cmp(s[0], x) <= 0;
      assert forall j :: 0 <= j < |rest| ==> cmp(s[0], rest[j]) <= 0 by {
        forall j | 0 <= j < |rest|
          ensures cmp(s[0], rest[j]) <= 0
        {
          assert rest[j] == s[j + 1];
        }
      }
      BelowAll(s[0], x, rest, InsertBy(x, rest, cmp), cmp);
      ConsSorted(s[0], InsertBy(x, rest, cmp), cmp);
    }
  }

  /** A total preorder sorts into order. */
  lemma {:induction false} SortWithSorted<T>(s: seq<T>, cmp: (T, T) -> int)
    requires TotalPreorderOn(s, cmp)
    ensures SortedBy(SortWith(s, cmp), cmp)
  {
    if |s| > 0 {
      assert forall e :: e in s[1..] ==> e in s;
      assert TotalPreorderOn(s[1..], cmp);
      SortWithSorted(s[1..], cmp);
      var rest := SortWith(s[1..], cmp);
      forall e | e in rest
        ensures e in s
      {
        assert e in multiset(s[1..]);
        InMultiset(e, s[1..]);
      }
      InsertBySorted(s[0], rest, cmp, s);
    }
  }

  /** The elements in one class, in order. */
  function Only<T>(s: seq<T>, inClass: T -> bool): (r: seq<T>)
    ensures |r| <= |s|
  {
    if |s| == 0 then [] else (if inClass(s[0]) then [s[0]] else []) + Only(s[1..], inClass)
  }

  /** Members of one class compare equal (neither above the other). */
  ghost predicate EqualWithin<T(!new)>(inClass: T -> bool, cmp: (T, T) -> int) {
    forall a, b :: inClass(a) && inClass(b) ==> cmp(a, b) <= 0
  }

  lemma OnlyCons<T>(h: T, t: seq<T>, inClass: T -> bool)
    ensures Only([h] + t, inClass) == (if inClass(h) then [h] else []) + Only(t, inClass)
  {
    assert ([h] + t)[0] == h && ([h] + t)[1..] == t;
  }

  /** Each element of the class occurs as often as in the input; the others not at all. */
  lemma {:induction false} OnlyCount<T>(s: seq<T>, inClass: T -> bool, x: T)
    ensures multiset(Only(s, inClass))[x] == if inClass(x) then multiset(s)[x] else 0
  {
    if |s| > 0 {
      OnlyCount(s[1..], inClass, x);
      assert s == [s[0]] + s[1..];
    }
  }

  /** Keeping one class and then another keeps the elements of both, in order. */
  lemma {:induction false} OnlyBoth<T(!new)>(s: seq<T>, first: T -> bool, second: T -> bool, both: T -> bool)
    requires forall x :: both(x) == (first(x) && second(x))
    ensures Only(Only(s, first), second) == Only(s, both)
  {
    if |s| > 0 {
      OnlyBoth(s[1..], first, second, both);
      if first(s[0]) {
        OnlyCons(s[0], Only(s[1..], first), second);
      } else {
        assert Only(s, first) == Only(s[1..], first);
      }
    }
  }

  lemma {:induction false} InsertByStable<T(!new)>(x: T, s: seq<T>, cmp: (T, T) -> int, inClass: T -> bool)
    requires EqualWithin(inClass, cmp)
    ensures Only(InsertBy(x, s, cmp), inClass) == (if inClass(x) then [x] else []) + Only(s, inClass)
  {
    if |s| == 0 {
      OnlyCons(x, s, inClass);
      assert InsertBy(x, s, cmp) == [x] + s;
    } else if cmp(x, s[0]) <= 0 {
      OnlyCons(x, s, inClass);
    } else {
      var tail := InsertBy(x, s[1..], cmp);
      InsertByStable(x, s[1..], cmp, inClass);
      OnlyCons(s[0], tail, inClass);
      OnlyCons(s[0], s[1..], inClass);
      assert s == [s[0]] + s[1..];
      var head: seq<T> := if inClass(s[0]) then [s[0]] else [];
      var mine: seq<T> := if inClass(x) then [x] else [];
      assert head == [] || mine == [];
    }
  }

  /** The sort is stable: the members of a class whose members compare equal keep their order. */
  lemma {:induction false} SortWithStable<T(!new)>(s: seq<T>, cmp: (T, T) -> int, inClass: T -> bool)
    requires EqualWithin(inClass, cmp)
    ensures Only(SortWith(s, cmp), inClass) == Only(s, inClass)
  {
    if |s| > 0 {
      SortWithStable(s[1..], cmp, inClass);
      InsertByStable(s[0], SortWith(s[1..], cmp), cmp, inClass);
    }
  }

  predicate StrictlyAscending(s: seq<int>) {
    forall i, j :: 0 <= i < j < |s| ==> s[i] < s[j]
  }

  lemma AscendingCons(h: int, t: seq<int>)
    requires StrictlyAscending(t) && forall j :: 0 <= j < |t| ==> h < t[j]
    ensures StrictlyAscending([h] + t)
  {
    var r := [h] + t;
    forall i, j | 0 <= i < j < |r|
      ensures r[i] < r[j]
    {
      assert r[j] == t[j - 1];
      if i > 0 {
        assert r[i] == t[i - 1];
      }
    }
  }

  lemma AscendingTail(s: seq<int>)
    requires StrictlyAscending(s) && |s| > 0
    ensures StrictlyAscending(s[1..])
    ensures forall v :: v in s[1..] ==> s[0] < v
  {
    forall v | v in s[1..]
      ensures s[0] < v
    {
      var k :| 0 <= k < |s[1..]| && s[1..][k] == v;
      assert s[k + 1] == v;
    }
  }

  /** Adds `x` to a strictly ascending sequence unless it is already there. */
  function InsertDistinct(x: int, s: seq<int>): (r: seq<int>)
    requires StrictlyAscending(s)
    ensures StrictlyAscending(r)
    ensures forall v :: v in r <==> v == x || v in s
  {
    if |s| == 0 then [x]
    else if x < s[0] then
      AscendingCons(x, s);
      [x] + s
    else if x == s[0] then s
    else
      AscendingTail(s);
      var tail := InsertDistinct(x, s[1..]);
      assert s == [s[0]] + s[1..];
      assert forall j :: 0 <= j < |tail| ==> s[0] < tail[j] by {
        forall j | 0 <= j < |tail|
          ensures s[0] < tail[j]
        {
          assert tail[j] in tail;
        }
      }
      AscendingCons(s[0], tail);
      [s[0]] + tail
  }

  /** distinct().sorted(): the values of `s`, each once, ascending. */
  function DistinctSorted(s: seq<int>): (r: seq<int>)
    ensures StrictlyAscending(r)
    ensures forall v :: v in r <==> v in s
  {
    if |s| == 0 then []
    else
      assert forall v :: v in s <==> v == s[0] || v in s[1..];
      InsertDistinct(s[0], DistinctSorted(s[1..]))
  }
}
