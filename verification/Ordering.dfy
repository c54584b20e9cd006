/** Strict orders, sorting and the lexicographic order on strings.

    The C++ and Python sources sort with library routines.  Here a sort is an insertion sort, and
    `SortedPermutationIsUnique` shows that on lists whose keys are totally ordered every correct
    sort returns the same list, so nothing below depends on the algorithm. */
module Ordering {

  ghost predicate StrictOrder<T(!new)>(less: (T, T) -> bool) {
    && (forall x :: !less(x, x))
    && (forall x, y, z :: less(x, y) && less(y, z) ==> less(x, z))
  }

  // Distinct elements of s are comparable.
  ghost predicate TotalOn<T(!new)>(less: (T, T) -> bool, s: seq<T>) {
    forall x, y :: x in s && y in s && x != y ==> less(x, y) || less(y, x)
  }

  ghost predicate Sorted<T>(less: (T, T) -> bool, s: seq<T>) {
    forall i, j :: 0 <= i < j < |s| ==> !less(s[j], s[i])
  }

  ghost predicate Distinct<T>(s: seq<T>) {
    forall i, j :: 0 <= i < j < |s| ==> s[i] != s[j]
  }

  // Puts x before the first element that is greater than x.
  function Insert<T>(less: (T, T) -> bool, x: T, s: seq<T>): (r: seq<T>)
    ensures multiset(r) == multiset(s) + multiset{x}
    ensures |r| == |s| + 1
  {
    if s == [] || less(x, s[0]) then
      assert multiset([x] + s) == multiset{x} + multiset(s);
      [x] + s
    else
      var r := [s[0]] + Insert(less, x, s[1..]);
      assert s == [s[0]] + s[1..];
      r
  }

  function Sort<T>(less: (T, T) -> bool, s: seq<T>): (r: seq<T>)
    ensures multiset(r) == multiset(s)
    ensures |r| == |s|
  {
    if s == [] then [] else
      var n := |s| - 1;
      assert s == s[..n] + [s[n]];
      Insert(less, s[n], Sort(less, s[..n]))
  }

  lemma {:induction false} InsertKeepsSorted<T(!new)>(less: (T, T) -> bool, x: T, s: seq<T>)
    requires StrictOrder(less) && Sorted(less, s)
    ensures Sorted(less, Insert(less, x, s))
  {
    if s != [] && !less(x, s[0]) {
      InsertKeepsSorted(less, x, s[1..]);
      var r := Insert(less, x, s[1..]);
      forall k | 0 <= k < |r| ensures !less(r[k], s[0]) {
        assert r[k] in multiset(r);
        assert r[k] == x || r[k] in s[1..];
      }
    }
  }

  lemma {:induction false} SortSorts<T(!new)>(less: (T, T) -> bool, s: seq<T>)
    requires StrictOrder(less)
    ensures Sorted(less, Sort(less, s))
  {
    if s != [] {
      var n := |s| - 1;
      SortSorts(less, s[..n]);
      InsertKeepsSorted(less, s[n], Sort(less, s[..n]));
    }
  }

  lemma {:induction false} SameElements<T>(s: seq<T>, t: seq<T>)
    requires multiset(s) == multiset(t)
    ensures |s| == |t|
    ensures forall x :: x in s <==> x in t
  {
    assert |multiset(s)| == |s| && |multiset(t)| == |t|;
    forall x ensures x in s <==> x in t {
      assert x in s <==> x in multiset(s);
      assert x in t <==> x in multiset(t);
    }
  }

  lemma {:induction false} DropFirst<T>(s: seq<T>)
    requires s != []
    ensures multiset(s[1..]) == multiset(s) - multiset{s[0]}
  {
    assert s == [s[0]] + s[1..];
  }

  lemma {:induction false} SortedPermutationIsUnique<T(!new)>(less: (T, T) -> bool, s: seq<T>, t: seq<T>)
    requires StrictOrder(less) && TotalOn(less, s)
    requires Sorted(less, s) && Sorted(less, t) && multiset(s) == multiset(t)
    ensures s == t
  {
    SameElements(s, t);
    if s != [] {
      assert s[0] in t && t[0] in s;
      assert s[0] == t[0];
      DropFirst(s);
      DropFirst(t);
      SortedPermutationIsUnique(less, s[1..], t[1..]);
    }
  }

  // Sorting forgets the input order.
  lemma {:induction false} SortIgnoresOrder<T(!new)>(less: (T, T) -> bool, s: seq<T>, t: seq<T>)
    requires StrictOrder(less) && TotalOn(less, s) && multiset(s) == multiset(t)
    ensures Sort(less, s) == Sort(less, t)
  {
    SortSorts(less, s);
    SortSorts(less, t);
    SameElements(s, Sort(less, s));
    SortedPermutationIsUnique(less, Sort(less, s), Sort(less, t));
  }

  lemma {:induction false} DistinctIsMultisetProperty<T>(s: seq<T>, t: seq<T>)
    requires Distinct(s) && multiset(s) == multiset(t)
    ensures Distinct(t)
  {
    SameElements(s, t);
    forall x | x in s ensures multiset(s)[x] == 1 {
      DistinctCounts(s, x);
    }
    forall i, j | 0 <= i < j < |t| ensures t[i] != t[j] { RepeatCountsTwice(t, i, j); }
  }

  lemma {:induction false} RepeatCountsTwice<T>(t: seq<T>, i: nat, j: nat)
    requires i < j < |t|
    ensures t[i] == t[j] ==> multiset(t)[t[j]] >= 2
  {
    assert t == t[..j] + [t[j]] + t[j + 1..];
    assert t[i] in t[..j];
  }

  lemma {:induction false} DistinctCounts<T>(s: seq<T>, x: T)
    requires Distinct(s)
    ensures multiset(s)[x] == if x in s then 1 else 0
  {
    if s != [] {
      assert s == [s[0]] + s[1..];
      DistinctCounts(s[1..], x);
    }
  }

  // Two duplicate-free lists of the same elements are permutations of each other.
  lemma {:induction false} DistinctSameElements<T(!new)>(s: seq<T>, t: seq<T>)
    requires Distinct(s) && Distinct(t) && forall x :: x in s <==> x in t
    ensures multiset(s) == multiset(t)
  {
    forall x ensures multiset(s)[x] == multiset(t)[x] {
      DistinctCounts(s, x);
      DistinctCounts(t, x);
    }
  }

  lemma {:induction false} DistinctConcat<T>(s: seq<T>, t: seq<T>)
    requires Distinct(s) && Distinct(t) && forall x :: x in s ==> x !in t
    ensures Distinct(s + t)
  {
    forall i, j | 0 <= i < j < |s + t| ensures (s + t)[i] != (s + t)[j] {
      if i < |s| && j >= |s| { assert s[i] in s && t[j - |s|] in t; }
    }
  }

  lemma {:induction false} ConcatSameElements<T>(a: seq<T>, b: seq<T>, c: seq<T>, d: seq<T>)
    requires multiset(a) == multiset(c) && multiset(b) == multiset(d)
    ensures multiset(a + b) == multiset(c + d)
  {
  }

  function Min(a: int, b: int): int { if a < b then a else b }

  function Sum(s: seq<nat>): nat {
    if s == [] then 0 else Sum(s[..|s| - 1]) + s[|s| - 1]
  }

  // ----- totals over a list do not depend on its order -----

  // The count a table holds for a key.
  function Lookup<K(==)>(table: map<K, nat>, k: K): nat { if k in table then table[k] else 0 }

  function Total<T>(weight: T -> nat, s: seq<T>): nat {
    if s == [] then 0 else weight(s[0]) + Total(weight, s[1..])
  }

  lemma {:induction false} TotalConcat<T>(weight: T -> nat, s: seq<T>, t: seq<T>)
    ensures Total(weight, s + t) == Total(weight, s) + Total(weight, t)
  {
    if s == [] {
      assert s + t == t;
    } else {
      assert (s + t)[1..] == s[1..] + t;
      TotalConcat(weight, s[1..], t);
    }
  }

  lemma {:induction false} TotalAppend<T>(weight: T -> nat, s: seq<T>, x: T)
    ensures Total(weight, s + [x]) == Total(weight, s) + weight(x)
  {
    TotalConcat(weight, s, [x]);
    assert [x][1..] == [];
  }

  lemma {:induction false} TotalRemove<T>(weight: T -> nat, t: seq<T>, i: nat)
    requires i < |t|
    ensures Total(weight, t) == weight(t[i]) + Total(weight, t[..i] + t[i + 1..])
    ensures multiset(t[..i] + t[i + 1..]) == multiset(t) - multiset{t[i]}
  {
    var rest := [t[i]] + t[i + 1..];
    assert t == t[..i] + rest;
    TotalConcat(weight, t[..i], rest);
    TotalConcat(weight, t[..i], t[i + 1..]);
    assert rest[1..] == t[i + 1..];
  }

  lemma {:induction false} TotalIgnoresOrder<T>(weight: T -> nat, s: seq<T>, t: seq<T>)
    requires multiset(s) == multiset(t)
    ensures Total(weight, s) == Total(weight, t)
  {
    SameElements(s, t);
    if s != [] {
      assert s[0] in t;
      var i :| 0 <= i < |t| && t[i] == s[0];
      TotalRemove(weight, t, i);
      DropFirst(s);
      TotalIgnoresOrder(weight, s[1..], t[..i] + t[i + 1..]);
    }
  }

  lemma {:induction false} TotalPointwise<T>(a: T -> nat, b: T -> nat, s: seq<T>)
    requires forall x :: x in s ==> a(x) == b(x)
    ensures Total(a, s) == Total(b, s)
  {
    if s != [] { TotalPointwise(a, b, s[1..]); }
  }

  lemma {:induction false} TotalOfOnes<T>(weight: T -> nat, s: seq<T>)
    requires forall x :: x in s ==> weight(x) == 1
    ensures Total(weight, s) == |s|
  {
    if s != [] { TotalOfOnes(weight, s[1..]); }
  }

  lemma {:induction false} TotalSplit<T>(a: T -> nat, b: T -> nat, c: T -> nat, s: seq<T>)
    requires forall x :: x in s ==> a(x) == b(x) + c(x)
    ensures Total(a, s) == Total(b, s) + Total(c, s)
  {
    if s != [] { TotalSplit(a, b, c, s[1..]); }
  }

  // ----- the lexicographic order of std::string and str -----

  predicate StringLess(a: string, b: string) {
    if b == "" then false
    else if a == "" then true
    else a[0] < b[0] || (a[0] == b[0] && StringLess(a[1..], b[1..]))
  }

  lemma {:induction false} StringLessIrreflexive(a: string)
    ensures !StringLess(a, a)
  {
    if a != "" { StringLessIrreflexive(a[1..]); }
  }

  lemma {:induction false} StringLessTransitive(a: string, b: string, c: string)
    requires StringLess(a, b) && StringLess(b, c)
    ensures StringLess(a, c)
  {
    if a != "" && a[0] == b[0] && b[0] == c[0] { StringLessTransitive(a[1..], b[1..], c[1..]); }
  }

  lemma {:induction false} StringLessTotal(a: string, b: string)
    ensures a == b || StringLess(a, b) || StringLess(b, a)
  {
    if a != "" && b != "" && a[0] == b[0] {
      StringLessTotal(a[1..], b[1..]);
      if a[1..] == b[1..] { assert a == [a[0]] + a[1..] && b == [b[0]] + b[1..]; }
    }
  }

  lemma {:induction false} StringLessIsTotalOrder()
    ensures StrictOrder(StringLess)
    ensures forall a, b :: a == b || StringLess(a, b) || StringLess(b, a)
  {
    forall a ensures !StringLess(a, a) { StringLessIrreflexive(a); }
    forall a, b, c | StringLess(a, b) && StringLess(b, c) ensures StringLess(a, c) {
      StringLessTransitive(a, b, c);
    }
    forall a, b ensures a == b || StringLess(a, b) || StringLess(b, a) { StringLessTotal(a, b); }
  }

  // ----- the order of std::tie on strings -----

  predicate ListLess(a: seq<string>, b: seq<string>) {
    if b == [] then false
    else if a == [] then true
    else StringLess(a[0], b[0]) || (a[0] == b[0] && ListLess(a[1..], b[1..]))
  }

  lemma {:induction false} ListLessIrreflexive(a: seq<string>)
    ensures !ListLess(a, a)
  {
    if a != [] {
      StringLessIrreflexive(a[0]);
      ListLessIrreflexive(a[1..]);
    }
  }

  lemma {:induction false} ListLessTransitive(a: seq<string>, b: seq<string>, c: seq<string>)
    requires ListLess(a, b) && ListLess(b, c)
    ensures ListLess(a, c)
  {
    if a != [] {
      if StringLess(a[0], b[0]) && StringLess(b[0], c[0]) { StringLessTransitive(a[0], b[0], c[0]); }
      if a[0] == b[0] && b[0] == c[0] && ListLess(a[1..], b[1..]) && ListLess(b[1..], c[1..]) {
        ListLessTransitive(a[1..], b[1..], c[1..]);
      }
    }
  }

  lemma {:induction false} ListLessTotal(a: seq<string>, b: seq<string>)
    ensures a == b || ListLess(a, b) || ListLess(b, a)
  {
    if a != [] && b != [] {
      StringLessTotal(a[0], b[0]);
      ListLessTotal(a[1..], b[1..]);
      if a[0] == b[0] && a[1..] == b[1..] { assert a == [a[0]] + a[1..] && b == [b[0]] + b[1..]; }
    }
  }

  lemma {:induction false} ListLessIsTotalOrder()
    ensures StrictOrder(ListLess)
    ensures forall a, b :: a == b || ListLess(a, b) || ListLess(b, a)
  {
    forall a ensures !ListLess(a, a) { ListLessIrreflexive(a); }
    forall a, b, c | ListLess(a, b) && ListLess(b, c) ensures ListLess(a, c) { ListLessTransitive(a, b, c); }
    forall a, b ensures a == b || ListLess(a, b) || ListLess(b, a) { ListLessTotal(a, b); }
  }
}
