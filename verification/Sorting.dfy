/** Stable sorting by a string key, as `Array.prototype.sort` does it, and why its result does not depend
    on the order of the input when no two keys coincide. */
module Sorting {

  /** Lexicographic order by UTF-16 code unit. */
  predicate Le(a: string, b: string) {
    a == "" || (b != "" && (a[0] < b[0] || (a[0] == b[0] && Le(a[1..], b[1..]))))
  }

  lemma LeTotal(a: string, b: string)
    ensures Le(a, b) || Le(b, a)
  {
    if a != "" && b != "" { LeTotal(a[1..], b[1..]); }
  }

  lemma {:induction false} LeAntisymmetric(a: string, b: string)
    requires Le(a, b) && Le(b, a)
    ensures a == b
  {
    if a != "" && b != "" {
      LeAntisymmetric(a[1..], b[1..]);
      assert a == [a[0]] + a[1..] && b == [b[0]] + b[1..];
    }
  }

  lemma {:induction false} LeTransitive(a: string, b: string, c: string)
    requires Le(a, b) && Le(b, c)
    ensures Le(a, c)
  {
    if a != "" && a[0] == b[0] && b[0] == c[0] { LeTransitive(a[1..], b[1..], c[1..]); }
  }

  function Insert<T>(x: T, xs: seq<T>, key: T -> string): seq<T> {
    if xs == [] || Le(key(x), key(xs[0])) then [x] + xs else [xs[0]] + Insert(x, xs[1..], key)
  }

  function SortBy<T>(xs: seq<T>, key: T -> string): seq<T> {
    if xs == [] then [] else Insert(xs[0], SortBy(xs[1..], key), key)
  }

  ghost predicate Sorted<T>(xs: seq<T>, key: T -> string) {
    |xs| <= 1 || (Le(key(xs[0]), key(xs[1])) && Sorted(xs[1..], key))
  }

  function Mapped<T, U>(xs: seq<T>, f: T -> U): (ys: seq<U>)
    ensures |ys| == |xs| && forall i | 0 <= i < |xs| :: ys[i] == f(xs[i])
  {
    if xs == [] then [] else [f(xs[0])] + Mapped(xs[1..], f)
  }

  /** No key occurs twice. */
  ghost predicate DistinctKeys<T>(xs: seq<T>, key: T -> string) {
    forall k :: multiset(Mapped(xs, key))[k] <= 1
  }

  lemma {:induction false} InsertPermutes<T>(x: T, xs: seq<T>, key: T -> string)
    ensures multiset(Insert(x, xs, key)) == multiset([x] + xs)
    decreases |xs|
  {
    if xs != [] && !Le(key(x), key(xs[0])) {
      InsertPermutes(x, xs[1..], key);
      assert xs == [xs[0]] + xs[1..];
    }
  }

  lemma {:induction false} SortPermutes<T>(xs: seq<T>, key: T -> string)
    ensures multiset(SortBy(xs, key)) == multiset(xs)
    ensures |SortBy(xs, key)| == |xs|
    decreases |xs|
  {
    if xs != [] {
      SortPermutes(xs[1..], key);
      InsertPermutes(xs[0], SortBy(xs[1..], key), key);
      assert xs == [xs[0]] + xs[1..];
    }
    assert |multiset(SortBy(xs, key))| == |SortBy(xs, key)| && |multiset(xs)| == |xs|;
  }

  lemma {:induction false} InsertSorts<T>(x: T, xs: seq<T>, key: T -> string)
    requires Sorted(xs, key)
    ensures Sorted(Insert(x, xs, key), key)
    decreases |xs|
  {
    if xs == [] {
    } else if Le(key(x), key(xs[0])) {
      assert ([x] + xs)[1..] == xs;
    } else {
      LeTotal(key(x), key(xs[0]));
      InsertSorts(x, xs[1..], key);
      var rest := Insert(x, xs[1..], key);
      assert ([xs[0]] + rest)[1..] == rest && (rest[0] == x || rest[0] == xs[1]);
    }
  }

  lemma {:induction false} SortSorts<T>(xs: seq<T>, key: T -> string)
    ensures Sorted(SortBy(xs, key), key)
    decreases |xs|
  {
    if xs != [] {
      SortSorts(xs[1..], key);
      InsertSorts(xs[0], SortBy(xs[1..], key), key);
    }
  }

  lemma RemoveAt<T>(xs: seq<T>, i: nat)
    requires i < |xs|
    ensures multiset(xs) == multiset(xs[..i] + xs[i + 1..]) + multiset{xs[i]}
  {
    assert xs == xs[..i] + [xs[i]] + xs[i + 1..];
  }

  lemma Cancel<T>(a: multiset<T>, b: multiset<T>, x: T)
    requires a + multiset{x} == b + multiset{x}
    ensures a == b
  {
    forall v ensures a[v] == b[v] {
      assert (a + multiset{x})[v] == (b + multiset{x})[v];
    }
  }

  lemma RemoveSame<T>(xs: seq<T>, i: nat, ys: seq<T>, j: nat)
    requires i < |xs| && j < |ys| && xs[i] == ys[j] && multiset(xs) == multiset(ys)
    ensures multiset(xs[..i] + xs[i + 1..]) == multiset(ys[..j] + ys[j + 1..])
  {
    RemoveAt(xs, i);
    RemoveAt(ys, j);
    Cancel(multiset(xs[..i] + xs[i + 1..]), multiset(ys[..j] + ys[j + 1..]), xs[i]);
  }

  lemma {:induction false} HeadIsLeast<T>(xs: seq<T>, j: nat, key: T -> string)
    requires Sorted(xs, key) && j < |xs|
    ensures Le(key(xs[0]), key(xs[j]))
    decreases |xs|
  {
    if j == 0 {
      LeTotal(key(xs[0]), key(xs[0]));
    } else {
      HeadIsLeast(xs[1..], j - 1, key);
      LeTransitive(key(xs[0]), key(xs[1]), key(xs[j]));
    }
  }

  lemma CountAt<T>(xs: seq<T>, i: nat, j: nat)
    requires i < j < |xs| && xs[i] == xs[j]
    ensures multiset(xs)[xs[i]] >= 2
  {
    assert xs == xs[..i] + [xs[i]] + xs[i + 1..j] + [xs[j]] + xs[j + 1..];
  }

  lemma {:induction false} SortedHeadsAgree<T>(xs: seq<T>, ys: seq<T>, key: T -> string)
    requires Sorted(xs, key) && Sorted(ys, key) && DistinctKeys(xs, key)
    requires multiset(xs) == multiset(ys) && xs != [] && ys != []
    ensures xs[0] == ys[0]
  {
    assert xs[0] in multiset(ys) && ys[0] in multiset(xs);
    var i :| 0 <= i < |ys| && ys[i] == xs[0];
    var j :| 0 <= j < |xs| && xs[j] == ys[0];
    HeadIsLeast(ys, i, key);
    HeadIsLeast(xs, j, key);
    LeAntisymmetric(key(xs[0]), key(ys[0]));
    if j != 0 { CountAt(Mapped(xs, key), 0, j); }
  }

  lemma DistinctTail<T>(xs: seq<T>, key: T -> string)
    requires xs != [] && DistinctKeys(xs, key)
    ensures DistinctKeys(xs[1..], key)
  {
    forall k ensures multiset(Mapped(xs[1..], key))[k] <= 1 {
      assert multiset(Mapped(xs, key))[k] <= 1;
    }
  }

  /** Two sorted sequences with the same elements and pairwise different keys are the same sequence. */
  lemma {:induction false} SortedIsUnique<T>(xs: seq<T>, ys: seq<T>, key: T -> string)
    requires Sorted(xs, key) && Sorted(ys, key) && DistinctKeys(xs, key)
    requires multiset(xs) == multiset(ys)
    ensures xs == ys
    decreases |xs|
  {
    assert |xs| == |multiset(xs)| == |multiset(ys)| == |ys|;
    if xs != [] {
      SortedHeadsAgree(xs, ys, key);
      RemoveSame(xs, 0, ys, 0);
      DistinctTail(xs, key);
      assert xs[..0] + xs[1..] == xs[1..] && ys[..0] + ys[1..] == ys[1..];
      SortedIsUnique(xs[1..], ys[1..], key);
      assert xs == [xs[0]] + xs[1..] && ys == [ys[0]] + ys[1..];
    }
  }

  lemma {:induction false} MappedRemoveAt<T, U>(xs: seq<T>, i: nat, f: T -> U)
    requires i < |xs|
    ensures multiset(Mapped(xs, f)) == multiset(Mapped(xs[..i] + xs[i + 1..], f)) + multiset{f(xs[i])}
  {
    var rest := xs[..i] + xs[i + 1..];
    var ys := Mapped(xs, f);
    assert Mapped(rest, f) == ys[..i] + ys[i + 1..];
    RemoveAt(ys, i);
  }

  lemma MappedAddSame<T, U>(xs: seq<T>, i: nat, ys: seq<T>, j: nat, f: T -> U)
    requires i < |xs| && j < |ys| && xs[i] == ys[j]
    requires multiset(Mapped(xs[..i] + xs[i + 1..], f)) == multiset(Mapped(ys[..j] + ys[j + 1..], f))
    ensures multiset(Mapped(xs, f)) == multiset(Mapped(ys, f))
  {
    MappedRemoveAt(xs, i, f);
    MappedRemoveAt(ys, j, f);
  }

  lemma HeadHasAPlace<T>(xs: seq<T>, ys: seq<T>) returns (i: nat)
    requires multiset(xs) == multiset(ys) && xs != []
    ensures i < |ys| && ys[i] == xs[0]
  {
    assert xs[0] in multiset(xs);
    assert xs[0] in ys;
    i :| 0 <= i < |ys| && ys[i] == xs[0];
  }

  /** A mapped permutation is a permutation of the mapped sequence. */
  lemma {:induction false} MappedPermutes<T, U>(xs: seq<T>, ys: seq<T>, f: T -> U)
    requires multiset(xs) == multiset(ys)
    ensures multiset(Mapped(xs, f)) == multiset(Mapped(ys, f))
    decreases |xs|
  {
    if xs == [] {
      assert |ys| == |multiset(ys)| == 0;
    } else {
      var i := HeadHasAPlace(xs, ys);
      RemoveSame(xs, 0, ys, i);
      MappedPermutes(xs[..0] + xs[1..], ys[..i] + ys[i + 1..], f);
      MappedAddSame(xs, 0, ys, i, f);
    }
  }

  /** Sorting does not see the order of its input. */
  lemma {:induction false} SortIsOrderBlind<T>(xs: seq<T>, ys: seq<T>, key: T -> string)
    requires multiset(xs) == multiset(ys) && DistinctKeys(xs, key)
    ensures SortBy(xs, key) == SortBy(ys, key)
  {
    SortPermutes(xs, key);
    SortPermutes(ys, key);
    SortSorts(xs, key);
    SortSorts(ys, key);
    MappedPermutes(xs, SortBy(xs, key), key);
    SortedIsUnique(SortBy(xs, key), SortBy(ys, key), key);
  }

  lemma {:induction false} TwiceMeansTwoPlaces<T>(ks: seq<T>, k: T)
    requires multiset(ks)[k] > 1
    ensures exists i, j :: 0 <= i < j < |ks| && ks[i] == k && ks[j] == k
  {
    assert k in multiset(ks);
    var i :| 0 <= i < |ks| && ks[i] == k;
    var rest := ks[..i] + ks[i + 1..];
    RemoveAt(ks, i);
    assert k in multiset(rest);
    var r :| 0 <= r < |rest| && rest[r] == k;
    if r < i { assert ks[r] == k; } else { assert ks[r + 1] == k; }
  }

  /** `new Set(keys).size === keys.length`, position by position. */
  lemma {:induction false} DistinctByPosition<T>(xs: seq<T>, key: T -> string)
    ensures DistinctKeys(xs, key) <==> forall i, j | 0 <= i < j < |xs| :: key(xs[i]) != key(xs[j])
  {
    var ks := Mapped(xs, key);
    if DistinctKeys(xs, key) {
      forall i, j | 0 <= i < j < |xs| ensures key(xs[i]) != key(xs[j]) {
        if ks[i] == ks[j] { CountAt(ks, i, j); }
      }
    } else {
      var k :| multiset(ks)[k] > 1;
      TwiceMeansTwoPlaces(ks, k);
    }
  }

  lemma RestIsContained<T>(xs: seq<T>, ys: seq<T>, i: nat, key: T -> string)
    requires xs != [] && DistinctKeys(xs, key) && i < |ys| && ys[i] == xs[0]
    requires forall x | x in xs :: x in ys
    ensures forall x | x in xs[1..] :: x in ys[..i] + ys[i + 1..]
  {
    DistinctByPosition(xs, key);
    forall x | x in xs[1..]
      ensures x in ys[..i] + ys[i + 1..]
    {
      var j :| 0 <= j < |xs[1..]| && xs[1..][j] == x;
      assert key(xs[0]) != key(xs[j + 1]);
      assert x in xs;
      var k :| 0 <= k < |ys| && ys[k] == x;
      assert x == (ys[..i] + ys[i + 1..])[if k < i then k else k - 1];
    }
  }

  lemma RemoveFirstAndAt<T>(xs: seq<T>, ys: seq<T>, i: nat)
    requires xs != [] && i < |ys| && ys[i] == xs[0]
    requires multiset(xs[1..]) == multiset(ys[..i] + ys[i + 1..])
    ensures multiset(xs) == multiset(ys)
  {
    assert xs == [xs[0]] + xs[1..];
    RemoveAt(ys, i);
  }

  /** Two sequences of the same length with distinct keys, the first contained in the second, are permutations. */
  lemma {:induction false} ContainedIsPermuted<T>(xs: seq<T>, ys: seq<T>, key: T -> string)
    requires |xs| == |ys| && DistinctKeys(xs, key)
    requires forall x | x in xs :: x in ys
    ensures multiset(xs) == multiset(ys)
    decreases |xs|
  {
    if xs != [] {
      assert xs[0] in ys;
      var i :| 0 <= i < |ys| && ys[i] == xs[0];
      RestIsContained(xs, ys, i, key);
      DistinctTail(xs, key);
      ContainedIsPermuted(xs[1..], ys[..i] + ys[i + 1..], key);
      RemoveFirstAndAt(xs, ys, i);
    }
  }

  /** Sorted results agree exactly when the inputs hold the same elements. */
  lemma {:induction false} SortsAgree<T>(xs: seq<T>, ys: seq<T>, key: T -> string)
    requires DistinctKeys(xs, key)
    ensures SortBy(xs, key) == SortBy(ys, key) <==> |xs| == |ys| && forall x | x in xs :: x in ys
  {
    SortPermutes(xs, key);
    SortPermutes(ys, key);
    if SortBy(xs, key) == SortBy(ys, key) {
      forall x | x in xs ensures x in ys {
        assert x in multiset(xs);
        assert x in multiset(ys);
      }
    } else if |xs| == |ys| && forall x | x in xs :: x in ys {
      ContainedIsPermuted(xs, ys, key);
      SortIsOrderBlind(xs, ys, key);
    }
  }

  lemma {:induction false} SortOfSorted<T>(xs: seq<T>, key: T -> string)
    requires Sorted(xs, key)
    ensures SortBy(xs, key) == xs
    decreases |xs|
  {
    if xs != [] { SortOfSorted(xs[1..], key); }
  }
}
