/**
 * Filtering and stable sorting of sequences, as `Array.prototype.filter` and
 * `Array.prototype.sort` do them. A comparator follows the ECMAScript
 * convention: negative means "first argument before second", positive means
 * "second before first", zero means "equivalent". Since the 2019 edition of
 * ECMA-262 the sort is required to be stable (section 23.1.3.30 in the 2023
 * edition), and for a consistent comparator a stable sort has exactly one
 * possible result (StableSortIsUnique); insertion sort is used here as that
 * result.
 */
module StableSort {

  /**
   * A consistent comparator in the sense of ECMA-262: the sign flips when the
   * arguments are swapped, and "not after" is transitive. Together these make
   * `cmp(a, b) <= 0` a total preorder.
   */
  ghost predicate ConsistentComparator<T(!new)>(cmp: (T, T) -> int) {
    && (forall a, b :: cmp(a, b) > 0 <==> cmp(b, a) < 0)
    && (forall a, b, c :: cmp(a, b) <= 0 && cmp(b, c) <= 0 ==> cmp(a, c) <= 0)
  }

  /** No element is placed after one that the comparator puts after it. */
  ghost predicate Sorted<T>(cmp: (T, T) -> int, s: seq<T>) {
    forall i, j :: 0 <= i < j < |s| ==> cmp(s[i], s[j]) <= 0
  }

  /** The elements of `s` that satisfy `f`, in their order in `s`. */
  function Filter<T>(f: T -> bool, s: seq<T>): (r: seq<T>)
    ensures |r| <= |s|
    ensures forall i :: 0 <= i < |r| ==> f(r[i]) && r[i] in s
  {
    if s == [] then [] else (if f(s[0]) then [s[0]] else []) + Filter(f, s[1..])
  }

  /** The elements of `s` that the comparator reports equivalent to `x`, in their order in `s`. */
  function Equivalents<T>(cmp: (T, T) -> int, x: T, s: seq<T>): seq<T> {
    Filter(y => cmp(x, y) == 0, s)
  }

  /** Equivalents, one element at a time. */
  lemma EquivalentsCons<T>(cmp: (T, T) -> int, x: T, s: seq<T>)
    requires s != []
    ensures Equivalents(cmp, x, s) == (if cmp(x, s[0]) == 0 then [s[0]] else []) + Equivalents(cmp, x, s[1..])
  {
  }

  /** `output` keeps the relative order of every class of equivalent elements of `input`. */
  ghost predicate Stable<T(!new)>(cmp: (T, T) -> int, input: seq<T>, output: seq<T>) {
    forall x :: Equivalents(cmp, x, output) == Equivalents(cmp, x, input)
  }

  /** Inserts `x` into `s` after the last element that is not after `x`. */
  function Insert<T>(cmp: (T, T) -> int, x: T, s: seq<T>): (r: seq<T>)
    ensures |r| == |s| + 1
  {
    if s == [] || cmp(s[|s| - 1], x) <= 0 then s + [x]
    else Insert(cmp, x, s[..|s| - 1]) + [s[|s| - 1]]
  }

  /** Insertion sort: each element in turn is inserted into the sorted prefix before it. */
  function Sort<T>(cmp: (T, T) -> int, s: seq<T>): (r: seq<T>)
    ensures |r| == |s|
  {
    if s == [] then [] else Insert(cmp, s[|s| - 1], Sort(cmp, s[..|s| - 1]))
  }

  lemma {:induction false} FilterConcat<T>(f: T -> bool, a: seq<T>, b: seq<T>)
    ensures Filter(f, a + b) == Filter(f, a) + Filter(f, b)
  {
    if a == [] {
      assert a + b == b;
    } else {
      assert (a + b)[1..] == a[1..] + b;
      FilterConcat(f, a[1..], b);
    }
  }

  /** Filtering keeps every element that satisfies `f` as often as it occurs, and no other. */
  lemma {:induction false} FilterMultiplicity<T>(f: T -> bool, s: seq<T>, x: T)
    ensures multiset(Filter(f, s))[x] == if f(x) then multiset(s)[x] else 0
  {
    if s != [] {
      assert s == [s[0]] + s[1..];
      FilterMultiplicity(f, s[1..], x);
    }
  }

  lemma {:induction false} InsertMultiset<T>(cmp: (T, T) -> int, x: T, s: seq<T>)
    ensures multiset(Insert(cmp, x, s)) == multiset(s) + multiset{x}
  {
    if s == [] || cmp(s[|s| - 1], x) <= 0 {
    } else {
      var init, last := s[..|s| - 1], s[|s| - 1];
      assert s == init + [last];
      InsertMultiset(cmp, x, init);
    }
  }

  /** Sorting only reorders: the output is a permutation of the input. */
  lemma {:induction false} SortIsPermutation<T>(cmp: (T, T) -> int, s: seq<T>)
    ensures multiset(Sort(cmp, s)) == multiset(s)
  {
    if s != [] {
      var init, last := s[..|s| - 1], s[|s| - 1];
      assert s == init + [last];
      SortIsPermutation(cmp, init);
      InsertMultiset(cmp, last, Sort(cmp, init));
    }
  }

  lemma {:induction false} InsertSorted<T(!new)>(cmp: (T, T) -> int, x: T, s: seq<T>)
    requires ConsistentComparator(cmp)
    requires Sorted(cmp, s)
    ensures Sorted(cmp, Insert(cmp, x, s))
  {
    if s == [] || cmp(s[|s| - 1], x) <= 0 {
      var r := s + [x];
      forall i, j | 0 <= i < j < |r| ensures cmp(r[i], r[j]) <= 0 {
        if j == |s| && i < |s| - 1 {
          assert cmp(s[i], s[|s| - 1]) <= 0;
        }
      }
    } else {
      var init, last := s[..|s| - 1], s[|s| - 1];
      assert Sorted(cmp, init);
      InsertSorted(cmp, x, init);
      InsertMultiset(cmp, x, init);
      var ins := Insert(cmp, x, init);
      var r := ins + [last];
      forall i | 0 <= i < |ins| ensures cmp(ins[i], last) <= 0 {
        assert ins[i] in multiset(ins);
        if ins[i] != x {
          var k :| 0 <= k < |init| && init[k] == ins[i];
          assert cmp(s[k], s[|s| - 1]) <= 0;
        }
      }
      assert Sorted(cmp, r);
    }
  }

  /** The output of Sort is ordered by the comparator. */
  lemma {:induction false} SortIsSorted<T(!new)>(cmp: (T, T) -> int, s: seq<T>)
    requires ConsistentComparator(cmp)
    ensures Sorted(cmp, Sort(cmp, s))
  {
    if s != [] {
      SortIsSorted(cmp, s[..|s| - 1]);
      InsertSorted(cmp, s[|s| - 1], Sort(cmp, s[..|s| - 1]));
    }
  }

  lemma {:induction false} InsertEquivalents<T(!new)>(cmp: (T, T) -> int, x: T, s: seq<T>, y: T)
    requires ConsistentComparator(cmp)
    ensures Equivalents(cmp, y, Insert(cmp, x, s)) == Equivalents(cmp, y, s) + Equivalents(cmp, y, [x])
  {
    var f := z => cmp(y, z) == 0;
    if s == [] || cmp(s[|s| - 1], x) <= 0 {
      FilterConcat(f, s, [x]);
    } else {
      var init, last := s[..|s| - 1], s[|s| - 1];
      assert s == init + [last];
      InsertEquivalents(cmp, x, init, y);
      FilterConcat(f, Insert(cmp, x, init), [last]);
      FilterConcat(f, init, [last]);
      // x and last are not equivalent, so at most one of them joins y's class.
      assert f(x) ==> !f(last);
    }
  }

  /** Sorting keeps the input order among equivalent elements. */
  lemma {:induction false} SortIsStable<T(!new)>(cmp: (T, T) -> int, s: seq<T>)
    requires ConsistentComparator(cmp)
    ensures Stable(cmp, s, Sort(cmp, s))
  {
    forall y ensures Equivalents(cmp, y, Sort(cmp, s)) == Equivalents(cmp, y, s) {
      SortEquivalents(cmp, s, y);
    }
  }

  lemma {:induction false} SortEquivalents<T(!new)>(cmp: (T, T) -> int, s: seq<T>, y: T)
    requires ConsistentComparator(cmp)
    ensures Equivalents(cmp, y, Sort(cmp, s)) == Equivalents(cmp, y, s)
  {
    if s != [] {
      var init, last := s[..|s| - 1], s[|s| - 1];
      assert s == init + [last];
      SortEquivalents(cmp, init, y);
      InsertEquivalents(cmp, last, Sort(cmp, init), y);
      FilterConcat(z => cmp(y, z) == 0, init, [last]);
    }
  }

  /**
   * Two sequences that are both sorted and have the same classes of
   * equivalent elements, each in the same order, are equal.
   */
  lemma {:induction false} StableSortIsUnique<T(!new)>(cmp: (T, T) -> int, t: seq<T>, u: seq<T>)
    requires ConsistentComparator(cmp)
    requires Sorted(cmp, t) && Sorted(cmp, u)
    requires forall y :: Equivalents(cmp, y, t) == Equivalents(cmp, y, u)
    ensures t == u
  {
    BothEmptyOrNeither(cmp, t, u);
    if t != [] {
      var a, b := t[0], u[0];
      FirstNotAfter(cmp, u, a);
      FirstNotAfter(cmp, t, b);
      assert cmp(a, b) == 0;
      assert Equivalents(cmp, a, t)[0] == a;
      assert Equivalents(cmp, a, u)[0] == b;
      forall y ensures Equivalents(cmp, y, t[1..]) == Equivalents(cmp, y, u[1..]) {
        DropEquivalent(cmp, y, t, u);
      }
      StableSortIsUnique(cmp, t[1..], u[1..]);
      assert t == [a] + t[1..] && u == [b] + u[1..];
    }
  }

  /** Sequences with the same equivalence classes are either both empty or both not. */
  lemma BothEmptyOrNeither<T(!new)>(cmp: (T, T) -> int, t: seq<T>, u: seq<T>)
    requires ConsistentComparator(cmp)
    requires forall y :: Equivalents(cmp, y, t) == Equivalents(cmp, y, u)
    ensures t == [] <==> u == []
  {
    if t != [] {
      assert Equivalents(cmp, t[0], u) != [];
    }
    if u != [] {
      assert Equivalents(cmp, u[0], t) != [];
    }
  }

  /** In a sorted sequence holding something equivalent to `a`, the first element is not after `a`. */
  lemma FirstNotAfter<T(!new)>(cmp: (T, T) -> int, u: seq<T>, a: T)
    requires ConsistentComparator(cmp)
    requires Sorted(cmp, u)
    requires Equivalents(cmp, a, u) != []
    ensures cmp(u[0], a) <= 0
  {
    var e := Equivalents(cmp, a, u)[0];
    var k :| 0 <= k < |u| && u[k] == e;
    assert cmp(u[0], u[k]) <= 0 && cmp(u[k], a) <= 0;
  }

  /** Dropping one and the same first element from two sequences keeps their equivalence classes equal. */
  lemma DropEquivalent<T>(cmp: (T, T) -> int, y: T, t: seq<T>, u: seq<T>)
    requires t != [] && u != [] && t[0] == u[0]
    requires Equivalents(cmp, y, t) == Equivalents(cmp, y, u)
    ensures Equivalents(cmp, y, t[1..]) == Equivalents(cmp, y, u[1..])
  {
    var p := if cmp(y, t[0]) == 0 then [t[0]] else [];
    assert Equivalents(cmp, y, t) == p + Equivalents(cmp, y, t[1..]);
    assert Equivalents(cmp, y, u) == p + Equivalents(cmp, y, u[1..]);
    assert Equivalents(cmp, y, t[1..]) == Equivalents(cmp, y, t)[|p|..];
  }

  /** Any stable sort of `s` under a consistent comparator returns what Sort returns. */
  lemma StableSortIsSort<T(!new)>(cmp: (T, T) -> int, s: seq<T>, t: seq<T>)
    requires ConsistentComparator(cmp)
    requires Sorted(cmp, t) && Stable(cmp, s, t)
    ensures t == Sort(cmp, s)
  {
    SortIsSorted(cmp, s);
    SortIsStable(cmp, s);
    StableSortIsUnique(cmp, t, Sort(cmp, s));
  }

  /** Sorts `a` in place, as `Array.prototype.sort(cmp)` does. */
  method SortInPlace<T>(a: array<T>, cmp: (T, T) -> int)
    modifies a
    ensures a[..] == Sort(cmp, old(a[..]))
  {
    ghost var input := a[..];
    for i := 0 to a.Length
      invariant a[..i] == Sort(cmp, input[..i])
      invariant a[i..] == input[i..]
    {
      InsertLast(a, i, cmp);
      assert input[..i + 1][..i] == input[..i];
    }
    assert input[..a.Length] == input;
  }

  /** Moves `a[i]` back into the prefix `a[..i]`, past every element the comparator puts after it. */
  method InsertLast<T>(a: array<T>, i: nat, cmp: (T, T) -> int)
    requires i < a.Length
    modifies a
    ensures a[..i + 1] == Insert(cmp, old(a[i]), old(a[..i]))
    ensures a[i + 1..] == old(a[i + 1..])
  {
    var x := a[i];
    ghost var s := a[..i];
    var j := i;
    while j > 0 && cmp(a[j - 1], x) > 0
      invariant 0 <= j <= i
      invariant forall k :: 0 <= k < j ==> a[k] == s[k]
      invariant forall k :: j < k <= i ==> a[k] == s[k - 1]
      invariant forall k :: i < k < a.Length ==> a[k] == old(a[k])
      invariant forall k :: j <= k < i ==> cmp(s[k], x) > 0
    {
      a[j] := a[j - 1];
      j := j - 1;
    }
    InsertAt(cmp, x, s, j);
    a[j] := x;
    assert a[..i + 1] == s[..j] + [x] + s[j..] by {
      ghost var t := s[..j] + [x] + s[j..];
      forall k | 0 <= k <= i
        ensures a[k] == t[k]
      {
        if k < j {
          assert t[k] == s[k];
        } else if j < k {
          assert t[k] == s[k - 1];
        }
      }
    }
    assert a[i + 1..] == old(a[i + 1..]);
  }

  /**
   * `x` lands at position `j` when the element before `j` (if any) is not
   * after it and every element from `j` on is after it.
   */
  lemma {:induction false} InsertAt<T>(cmp: (T, T) -> int, x: T, s: seq<T>, j: nat)
    requires j <= |s|
    requires j == 0 || cmp(s[j - 1], x) <= 0
    requires forall k :: j <= k < |s| ==> cmp(s[k], x) > 0
    ensures Insert(cmp, x, s) == s[..j] + [x] + s[j..]
    decreases |s|
  {
    if j < |s| {
      var init := s[..|s| - 1];
      assert init[..j] == s[..j];
      assert j == 0 || init[j - 1] == s[j - 1];
      InsertAt(cmp, x, init, j);
      assert init[j..] + [s[|s| - 1]] == s[j..];
    } else {
      assert s[..j] == s && s[j..] == [];
    }
  }
}
