/** `Array.prototype.sort` with a comparator, as the application uses it: a stable sort
    under the total preorder the comparator induces. `le(a, b)` means the
    comparator does not put `b` before `a` (it returns a value <= 0). */
module Sorting {

  /** `le` is total and transitive, as every comparator the application passes is. */
  ghost predicate TotalPreorder<T(!new)>(le: (T, T) -> bool) {
    Total(le) && Transitive(le)
  }

  ghost predicate Total<T(!new)>(le: (T, T) -> bool) {
    forall a, b :: le(a, b) || le(b, a)
  }

  ghost predicate Transitive<T(!new)>(le: (T, T) -> bool) {
    forall a, b, c :: le(a, b) && le(b, c) ==> le(a, c)
  }

  predicate Sorted<T>(s: seq<T>, le: (T, T) -> bool) {
    forall i, j :: 0 <= i < j < |s| ==> le(s[i], s[j])
  }

  /** Inserts `x` after every element that is not after it. */
  function Insert<T>(x: T, s: seq<T>, le: (T, T) -> bool): (r: seq<T>)
    ensures |r| == |s| + 1
    ensures multiset(r) == multiset(s) + multiset{x}
  {
    if |s| == 0 || !le(s[0], x) then [x] + s
    else
      var t := Insert(x, s[1..], le);
      assert s == [s[0]] + s[1..];
      [s[0]] + t
  }

  /** Insertion sort, taking the elements in their original order. */
  function Sort<T>(s: seq<T>, le: (T, T) -> bool): (r: seq<T>)
    ensures |r| == |s|
    ensures multiset(r) == multiset(s)
  {
    if |s| == 0 then []
    else
      var init := s[..|s| - 1];
      assert s == init + [s[|s| - 1]];
      Insert(s[|s| - 1], Sort(init, le), le)
  }

  lemma {:induction false} InsertSorted<T(!new)>(x: T, s: seq<T>, le: (T, T) -> bool)
    requires TotalPreorder(le) && Sorted(s, le)
    ensures Sorted(Insert(x, s, le), le)
  {
    if |s| > 0 && le(s[0], x) {
      var t := Insert(x, s[1..], le);
      SortedTail(s, le);
      InsertSorted(x, s[1..], le);
      forall k | 0 <= k < |t| ensures le(s[0], t[k]) {
        HeadBelow(x, s, t[k], le);
      }
      SortedCons(s[0], t, le);
    } else if |s| > 0 {
      forall k | 0 <= k < |s| ensures le(x, s[k]) {
        assert k == 0 || le(s[0], s[k]);
      }
      SortedCons(x, s, le);
    }
  }

  /** Every element of `Insert(x, s[1..])` is not before the head of a sorted `s`
      that is not after `x`. */
  lemma HeadBelow<T>(x: T, s: seq<T>, y: T, le: (T, T) -> bool)
    requires Sorted(s, le) && |s| > 0 && le(s[0], x)
    requires y in multiset(Insert(x, s[1..], le))
    ensures le(s[0], y)
  {
    assert y in multiset(s[1..]) + multiset{x};
    if y != x {
      var j :| 0 <= j < |s| - 1 && s[1..][j] == y;
      assert s[1..][j] == s[j + 1];
    }
  }

  /** A head not after any element of a sorted tail keeps it sorted. */
  lemma SortedCons<T>(h: T, t: seq<T>, le: (T, T) -> bool)
    requires Sorted(t, le) && forall k :: 0 <= k < |t| ==> le(h, t[k])
    ensures Sorted([h] + t, le)
  {
    forall i, j | 0 <= i < j < |t| + 1 ensures le(([h] + t)[i], ([h] + t)[j]) {
      assert ([h] + t)[j] == t[j - 1];
      if i > 0 {
        assert ([h] + t)[i] == t[i - 1];
      }
    }
  }

  /** The result is ordered and is a permutation of the input. */
  lemma {:induction false} SortSorted<T(!new)>(s: seq<T>, le: (T, T) -> bool)
    requires TotalPreorder(le)
    ensures Sorted(Sort(s, le), le)
    ensures multiset(Sort(s, le)) == multiset(s)
  {
    if |s| > 0 {
      SortSorted(s[..|s| - 1], le);
      InsertSorted(s[|s| - 1], Sort(s[..|s| - 1], le), le);
    }
  }

  /** Neither element comes before the other. */
  predicate Tied<T>(a: T, b: T, le: (T, T) -> bool) {
    le(a, b) && le(b, a)
  }

  /** `[x]` when `x` is tied with `z`, else nothing. */
  function TiedPart<T>(z: T, x: T, le: (T, T) -> bool): seq<T> {
    if Tied(z, x, le) then [x] else []
  }

  /** The elements of `s` tied with `z`, in their order in `s`. */
  function TiedWith<T>(s: seq<T>, z: T, le: (T, T) -> bool): seq<T> {
    if |s| == 0 then []
    else TiedPart(z, s[0], le) + TiedWith(s[1..], z, le)
  }

  /** The elements tied with `z` in `[x] + s`: `x` when it is tied, then those of `s`. */
  lemma TiedWithCons<T>(x: T, s: seq<T>, z: T, le: (T, T) -> bool)
    ensures TiedWith([x] + s, z, le) == TiedPart(z, x, le) + TiedWith(s, z, le)
  {
    assert ([x] + s)[0] == x && ([x] + s)[1..] == s;
  }

  lemma {:induction false} TiedWithAppend<T>(a: seq<T>, b: seq<T>, z: T, le: (T, T) -> bool)
    ensures TiedWith(a + b, z, le) == TiedWith(a, z, le) + TiedWith(b, z, le)
    decreases |a|
  {
    if |a| == 0 {
      assert a + b == b;
    } else {
      var h: seq<T> := TiedPart(z, a[0], le);
      TiedWithAppend(a[1..], b, z, le);
      assert a + b == [a[0]] + (a[1..] + b);
      TiedWithCons(a[0], a[1..] + b, z, le);
      assert a == [a[0]] + a[1..];
      TiedWithCons(a[0], a[1..], z, le);
      assert h + (TiedWith(a[1..], z, le) + TiedWith(b, z, le))
          == (h + TiedWith(a[1..], z, le)) + TiedWith(b, z, le);
    }
  }

  lemma {:induction false} TiedWithNone<T(!new)>(s: seq<T>, x: T, z: T, le: (T, T) -> bool)
    requires Transitive(le) && Tied(z, x, le)
    requires forall k :: 0 <= k < |s| ==> !le(s[k], x)
    ensures TiedWith(s, z, le) == []
  {
    if |s| > 0 {
      TiedWithNone(s[1..], x, z, le);
    }
  }

  lemma {:induction false} InsertTied<T(!new)>(x: T, s: seq<T>, z: T, le: (T, T) -> bool)
    requires TotalPreorder(le) && Sorted(s, le)
    ensures TiedWith(Insert(x, s, le), z, le)
         == TiedWith(s, z, le) + TiedPart(z, x, le)
    decreases |s|
  {
    if |s| == 0 || !le(s[0], x) {
      InsertTiedFrontOk(x, s, z, le);
      InsertTiedFront(x, s, z, le);
    } else {
      SortedTail(s, le);
      InsertTied(x, s[1..], z, le);
      InsertTiedLater(x, s, z, le);
    }
  }

  /** `x` goes in front: when it is tied with `z`, no element of `s` is. */
  lemma InsertTiedFront<T>(x: T, s: seq<T>, z: T, le: (T, T) -> bool)
    requires |s| == 0 || !le(s[0], x)
    requires Tied(z, x, le) ==> TiedWith(s, z, le) == []
    ensures TiedWith(Insert(x, s, le), z, le)
         == TiedWith(s, z, le) + TiedPart(z, x, le)
  {
    InsertInFront(x, s, le);
    TiedWithCons(x, s, z, le);
    if !Tied(z, x, le) {
      assert TiedPart(z, x, le) == [];
      assert [] + TiedWith(s, z, le) == TiedWith(s, z, le) + [];
    }
  }

  /** When `x` is inserted in front of `s`, `x` is not tied with `z` or nothing of `s` is. */
  lemma InsertTiedFrontOk<T(!new)>(x: T, s: seq<T>, z: T, le: (T, T) -> bool)
    requires Transitive(le) && Sorted(s, le)
    requires |s| == 0 || !le(s[0], x)
    ensures Tied(z, x, le) ==> TiedWith(s, z, le) == []
  {
    if Tied(z, x, le) {
      NoneTiedAfter(x, s, z, le);
    }
  }

  /** When `x` is tied with `z` and goes in front, nothing of `s` is tied with `z`. */
  lemma NoneTiedAfter<T(!new)>(x: T, s: seq<T>, z: T, le: (T, T) -> bool)
    requires Transitive(le) && Sorted(s, le) && Tied(z, x, le)
    requires |s| == 0 || !le(s[0], x)
    ensures TiedWith(s, z, le) == []
  {
    if |s| > 0 {
      AllAfter(x, s, le);
      TiedWithNone(s, x, z, le);
    }
  }

  /** When `s` is empty or its head is after `x`, `x` goes in front. */
  lemma InsertInFront<T>(x: T, s: seq<T>, le: (T, T) -> bool)
    requires |s| == 0 || !le(s[0], x)
    ensures Insert(x, s, le) == [x] + s
  {
  }

  /** Every element of a sorted sequence whose head is after `x` is after `x`. */
  lemma AllAfter<T(!new)>(x: T, s: seq<T>, le: (T, T) -> bool)
    requires Transitive(le) && Sorted(s, le) && |s| > 0 && !le(s[0], x)
    ensures forall k :: 0 <= k < |s| ==> !le(s[k], x)
  {
    forall k | 0 <= k < |s| ensures !le(s[k], x) {
      assert k == 0 || le(s[0], s[k]);
    }
  }

  /** `x` goes after the head of `s`: the head's contribution comes first on both sides. */
  lemma InsertTiedLater<T>(x: T, s: seq<T>, z: T, le: (T, T) -> bool)
    requires |s| > 0 && le(s[0], x)
    requires TiedWith(Insert(x, s[1..], le), z, le)
          == TiedWith(s[1..], z, le) + TiedPart(z, x, le)
    ensures TiedWith(Insert(x, s, le), z, le)
         == TiedWith(s, z, le) + TiedPart(z, x, le)
  {
    var t := Insert(x, s[1..], le);
    InsertAfterHead(x, s, le);
    TiedWithCons(s[0], t, z, le);
    SeqAssoc(TiedPart(z, s[0], le), TiedWith(s[1..], z, le), TiedPart(z, x, le));
  }

  /** When the head of `s` is not after `x`, `x` is inserted into the tail. */
  lemma InsertAfterHead<T>(x: T, s: seq<T>, le: (T, T) -> bool)
    requires |s| > 0 && le(s[0], x)
    ensures Insert(x, s, le) == [s[0]] + Insert(x, s[1..], le)
  {
  }

  lemma SeqAssoc<T>(a: seq<T>, b: seq<T>, c: seq<T>)
    ensures a + (b + c) == (a + b) + c
  {
  }

  /** Stability: elements that compare equal keep their original relative order. */
  lemma {:induction false} SortStable<T(!new)>(s: seq<T>, z: T, le: (T, T) -> bool)
    requires TotalPreorder(le)
    ensures TiedWith(Sort(s, le), z, le) == TiedWith(s, z, le)
  {
    if |s| > 0 {
      var init, last := s[..|s| - 1], s[|s| - 1];
      SortStable(init, z, le);
      SortSorted(init, le);
      InsertTied(last, Sort(init, le), z, le);
      assert Sort(s, le) == Insert(last, Sort(init, le), le);
      SnocTied(s, z, le);
    }
  }

  /** The elements tied with `z` in `s` are those of all but its last element,
      then the last element when it is tied. */
  lemma SnocTied<T>(s: seq<T>, z: T, le: (T, T) -> bool)
    requires |s| > 0
    ensures TiedWith(s, z, le)
         == TiedWith(s[..|s| - 1], z, le) + TiedPart(z, s[|s| - 1], le)
  {
    var init, last := s[..|s| - 1], s[|s| - 1];
    assert s == init + [last];
    TiedWithAppend(init, [last], z, le);
    TiedWithCons(last, [], z, le);
    assert [last] + [] == [last];
  }

  /** `s[i]` is not after any element, and every earlier element is after it. */
  predicate FirstMinimalAt<T>(s: seq<T>, i: int, le: (T, T) -> bool)
    requires 0 <= i < |s|
  {
    && (forall k :: 0 <= k < |s| ==> le(s[i], s[k]))
    && (forall k :: 0 <= k < i ==> !le(s[k], s[i]))
  }

  lemma FirstMinimalLast<T(!new)>(s: seq<T>, i: int, le: (T, T) -> bool)
    requires TotalPreorder(le) && 0 <= i < |s| - 1
    requires FirstMinimalAt(s[..|s| - 1], i, le) && !le(s[i], s[|s| - 1])
    ensures FirstMinimalAt(s, |s| - 1, le)
  {
    var init, last := s[..|s| - 1], s[|s| - 1];
    forall k | 0 <= k < |s| ensures le(last, s[k]) {
      if k < |s| - 1 {
        assert s[k] == init[k] && le(init[i], init[k]);
      }
    }
    forall k | 0 <= k < |s| - 1 ensures !le(s[k], last) {
      assert s[k] == init[k] && le(init[i], init[k]);
    }
  }

  lemma FirstMinimalKeep<T>(s: seq<T>, i: int, le: (T, T) -> bool)
    requires 0 <= i < |s| - 1
    requires FirstMinimalAt(s[..|s| - 1], i, le) && le(s[i], s[|s| - 1])
    ensures FirstMinimalAt(s, i, le)
  {
    var init := s[..|s| - 1];
    forall k | 0 <= k < |s| ensures le(s[i], s[k]) {
      if k < |s| - 1 { assert s[k] == init[k]; }
    }
    forall k | 0 <= k < i ensures !le(s[k], s[i]) {
      assert s[k] == init[k];
    }
  }

  /** The first element of the sorted sequence is the earliest element of the
      input that is not after any other. */
  lemma {:induction false} SortHead<T(!new)>(s: seq<T>, le: (T, T) -> bool)
    requires TotalPreorder(le) && |s| > 0
    ensures exists i :: 0 <= i < |s| && Sort(s, le)[0] == s[i] && FirstMinimalAt(s, i, le)
  {
    var init, last := s[..|s| - 1], s[|s| - 1];
    if |init| == 0 {
      assert Sort(s, le)[0] == s[0] && FirstMinimalAt(s, 0, le);
    } else {
      SortHead(init, le);
      var i :| 0 <= i < |init| && Sort(init, le)[0] == init[i] && FirstMinimalAt(init, i, le);
      var sorted := Sort(init, le);
      assert Sort(s, le) == Insert(last, sorted, le);
      assert s[i] == init[i];
      if !le(sorted[0], last) {
        FirstMinimalLast(s, i, le);
        assert Sort(s, le)[0] == s[|s| - 1];
      } else {
        FirstMinimalKeep(s, i, le);
        assert Sort(s, le)[0] == s[i];
      }
    }
  }

  /** No two distinct elements are tied: the order is a total order. */
  ghost predicate Antisymmetric<T(!new)>(le: (T, T) -> bool) {
    forall a, b :: le(a, b) && le(b, a) ==> a == b
  }

  /** Under a total order there is only one sorted arrangement of a multiset. */
  lemma {:induction false} SortedUnique<T(!new)>(p: seq<T>, q: seq<T>, le: (T, T) -> bool)
    requires Antisymmetric(le) && Sorted(p, le) && Sorted(q, le)
    requires multiset(p) == multiset(q)
    ensures p == q
    decreases |p|
  {
    assert |p| == |multiset(p)| == |multiset(q)| == |q|;
    if |p| > 0 {
      HeadsEqual(p, q, le);
      MultisetTails(p, q);
      SortedTail(p, le);
      SortedTail(q, le);
      SortedUnique(p[1..], q[1..], le);
      assert p == [p[0]] + p[1..] && q == [q[0]] + q[1..];
    }
  }

  /** Two sorted arrangements of one multiset start with the same element. */
  lemma HeadsEqual<T(!new)>(p: seq<T>, q: seq<T>, le: (T, T) -> bool)
    requires Antisymmetric(le) && Sorted(p, le) && Sorted(q, le)
    requires multiset(p) == multiset(q) && |p| > 0 && |q| > 0
    ensures p[0] == q[0]
  {
    assert p[0] in multiset(q) && q[0] in multiset(p);
    var j :| 0 <= j < |q| && q[j] == p[0];
    var i :| 0 <= i < |p| && p[i] == q[0];
    assert j == 0 || le(q[0], q[j]);
    assert i == 0 || le(p[0], p[i]);
  }

  lemma MultisetCons<T>(s: seq<T>)
    requires |s| > 0
    ensures multiset(s) == multiset{s[0]} + multiset(s[1..])
  {
    assert s == [s[0]] + s[1..];
  }

  /** Removing one equal head from two equal multisets leaves equal multisets. */
  lemma MultisetTails<T>(p: seq<T>, q: seq<T>)
    requires |p| > 0 && |q| > 0 && p[0] == q[0] && multiset(p) == multiset(q)
    ensures multiset(p[1..]) == multiset(q[1..])
  {
    MultisetCons(p);
    MultisetCons(q);
    assert multiset(p[1..]) == multiset(p) - multiset{p[0]};
    assert multiset(q[1..]) == multiset(q) - multiset{q[0]};
  }

  lemma SortedTail<T>(s: seq<T>, le: (T, T) -> bool)
    requires Sorted(s, le) && |s| > 0
    ensures Sorted(s[1..], le)
  {
    forall i, j | 0 <= i < j < |s| - 1 ensures le(s[1..][i], s[1..][j]) {
      assert s[1..][i] == s[i + 1] && s[1..][j] == s[j + 1];
    }
  }

  /** Sorting under a total order forgets the input's arrangement: any two
      permutations of the same elements sort to the same sequence. */
  lemma SortForgetsOrder<T(!new)>(a: seq<T>, b: seq<T>, le: (T, T) -> bool)
    requires TotalPreorder(le) && Antisymmetric(le)
    requires multiset(a) == multiset(b)
    ensures Sort(a, le) == Sort(b, le)
  {
    SortSorted(a, le);
    SortSorted(b, le);
    SortedUnique(Sort(a, le), Sort(b, le), le);
  }
}
