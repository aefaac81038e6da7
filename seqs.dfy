/** Sequence helpers for tables held as sequences of rows in primary-key
    order: selection, lookup by key and key uniqueness. */
module Seqs {

  import opened Outcomes

  /** The rows of `s` that satisfy `p`, in their original order (a queryset `filter`). */
  function Filter<T(==,!new)>(s: seq<T>, p: T -> bool): (r: seq<T>)
    ensures |r| <= |s|
    ensures forall x :: x in r <==> x in s && p(x)
    decreases |s|
  {
    if s == [] then []
    else if p(s[0]) then [s[0]] + Filter(s[1..], p)
    else Filter(s[1..], p)
  }

  lemma {:induction false} FilterConcat<T(!new)>(a: seq<T>, b: seq<T>, p: T -> bool)
    ensures Filter(a + b, p) == Filter(a, p) + Filter(b, p)
    decreases |a|
  {
    if a != [] {
      assert (a + b)[0] == a[0] && (a + b)[1..] == a[1..] + b;
      FilterConcat(a[1..], b, p);
    } else {
      assert a + b == b;
    }
  }

  lemma {:induction false} FilterAll<T(!new)>(s: seq<T>, p: T -> bool)
    requires forall x :: x in s ==> p(x)
    ensures Filter(s, p) == s
    decreases |s|
  {
    if s != [] {
      FilterAll(s[1..], p);
    }
  }

  lemma {:induction false} FilterNone<T(!new)>(s: seq<T>, p: T -> bool)
    requires forall x :: x in s ==> !p(x)
    ensures Filter(s, p) == []
    decreases |s|
  {
    if s != [] {
      FilterNone(s[1..], p);
    }
  }

  /** The first row whose key is `k` (`objects.get(pk=k)`, or nothing). */
  function FindBy<T(==,!new)>(s: seq<T>, key: T -> nat, k: nat): (r: Option<T>)
    ensures r.Some? ==> r.value in s && key(r.value) == k
    ensures r.None? ==> forall x :: x in s ==> key(x) != k
    decreases |s|
  {
    if s == [] then None
    else if key(s[0]) == k then Some(s[0])
    else FindBy(s[1..], key, k)
  }

  /** Position of the first row whose key is `k`. */
  function IndexBy<T(==,!new)>(s: seq<T>, key: T -> nat, k: nat): (r: Option<nat>)
    ensures r.Some? ==> r.value < |s| && key(s[r.value]) == k
    ensures r.Some? ==> forall j :: 0 <= j < r.value ==> key(s[j]) != k
    ensures r.None? ==> forall x :: x in s ==> key(x) != k
    decreases |s|
  {
    if s == [] then None
    else if key(s[0]) == k then Some(0)
    else
      match IndexBy(s[1..], key, k)
      case None => None
      case Some(j) => Some(j + 1)
  }

  predicate DistinctKeys<T>(s: seq<T>, key: T -> nat) {
    forall i, j :: 0 <= i < j < |s| ==> key(s[i]) != key(s[j])
  }

  predicate KeysBelow<T(==,!new)>(s: seq<T>, key: T -> nat, bound: nat) {
    forall x :: x in s ==> key(x) < bound
  }

  /** With distinct keys, the row found by key is the only row with that key. */
  lemma FindByUnique<T(!new)>(s: seq<T>, key: T -> nat, x: T)
    requires DistinctKeys(s, key) && x in s
    ensures FindBy(s, key, key(x)) == Some(x)
  {
    var r := FindBy(s, key, key(x));
    var i :| 0 <= i < |s| && s[i] == x;
    var j :| 0 <= j < |s| && s[j] == r.value;
    assert key(s[i]) == key(s[j]);
  }

  /** With distinct keys, two positions holding the same key are one position. */
  lemma DistinctKeysIndex<T>(s: seq<T>, key: T -> nat, i: nat, j: nat)
    requires DistinctKeys(s, key) && i < |s| && j < |s| && key(s[i]) == key(s[j])
    ensures i == j
  {
  }

  /** With distinct keys, the position found by a row's key is that row's position. */
  lemma IndexByUnique<T(!new)>(s: seq<T>, key: T -> nat, i: nat)
    requires DistinctKeys(s, key) && i < |s|
    ensures IndexBy(s, key, key(s[i])) == Some(i)
  {
    assert s[i] in s;
    var r := IndexBy(s, key, key(s[i]));
    assert key(s[r.value]) == key(s[i]);
  }

  /** Removing rows keeps keys distinct. */
  lemma FilterDistinct<T(!new)>(s: seq<T>, key: T -> nat, p: T -> bool)
    requires DistinctKeys(s, key)
    ensures DistinctKeys(Filter(s, p), key)
    decreases |s|
  {
    if s != [] {
      FilterDistinct(s[1..], key, p);
      var r := Filter(s[1..], p);
      forall x | x in r ensures key(x) != key(s[0]) {
        var j :| 0 <= j < |s[1..]| && s[1..][j] == x;
        assert s[j + 1] == x;
      }
    }
  }

  /** Replace the row at position `i`. */
  function Update<T>(s: seq<T>, i: nat, x: T): (r: seq<T>)
    requires i < |s|
    ensures |r| == |s| && r[i] == x
    ensures forall j :: 0 <= j < |s| && j != i ==> r[j] == s[j]
  {
    s[i := x]
  }

  /** Number of rows satisfying `p`. */
  function Count<T(==,!new)>(s: seq<T>, p: T -> bool): (n: nat)
    ensures n <= |s|
  {
    |Filter(s, p)|
  }

  /** Sum of a sequence of integers. */
  function Sum(s: seq<int>): int {
    if s == [] then 0 else s[0] + Sum(s[1..])
  }

  lemma {:induction false} SumConcat(a: seq<int>, b: seq<int>)
    ensures Sum(a + b) == Sum(a) + Sum(b)
    decreases |a|
  {
    if a != [] {
      assert (a + b)[0] == a[0] && (a + b)[1..] == a[1..] + b;
      SumConcat(a[1..], b);
    } else {
      assert a + b == b;
    }
  }

  /** The values of the first `k` present cells, in order. */
  function Somes<T>(s: seq<Option<T>>, k: nat): (r: seq<T>)
    requires k <= |s|
    ensures |r| <= k
  {
    if k == 0 then [] else Somes(s, k - 1) + (if s[k - 1].Some? then [s[k - 1].value] else [])
  }

  /** Every value collected comes from a present cell among the first `k`. */
  lemma {:induction false} SomesSound<T>(s: seq<Option<T>>, k: nat)
    requires k <= |s|
    ensures forall x :: x in Somes(s, k) ==> exists i :: 0 <= i < k && s[i] == Some(x)
  {
    if k > 0 {
      SomesSound(s, k - 1);
      forall x | x in Somes(s, k) ensures exists i :: 0 <= i < k && s[i] == Some(x) {
        if x !in Somes(s, k - 1) {
          assert s[k - 1] == Some(x);
        }
      }
    }
  }

  /** Every present cell among the first `k` is collected. */
  lemma {:induction false} SomesComplete<T>(s: seq<Option<T>>, k: nat)
    requires k <= |s|
    ensures forall i :: 0 <= i < k && s[i].Some? ==> s[i].value in Somes(s, k)
  {
    if k > 0 {
      SomesComplete(s, k - 1);
    }
  }

  /** No present cell, nothing collected. */
  lemma {:induction false} SomesEmpty<T>(s: seq<Option<T>>, k: nat)
    requires k <= |s| && forall i :: 0 <= i < k ==> s[i].None?
    ensures Somes(s, k) == []
  {
    if k > 0 {
      SomesEmpty(s, k - 1);
    }
  }

  /** Present cells with pairwise different keys give values with pairwise
      different keys. */
  lemma {:induction false} SomesDistinct<T, K>(s: seq<Option<T>>, k: nat, key: T -> K)
    requires k <= |s|
    requires forall i, j :: 0 <= i < j < k && s[i].Some? && s[j].Some? ==> key(s[i].value) != key(s[j].value)
    ensures forall a, b :: 0 <= a < b < |Somes(s, k)| ==> key(Somes(s, k)[a]) != key(Somes(s, k)[b])
  {
    if k > 0 {
      SomesDistinct(s, k - 1, key);
      SomesSound(s, k - 1);
      var prev := Somes(s, k - 1);
      var r := Somes(s, k);
      forall a, b | 0 <= a < b < |r| ensures key(r[a]) != key(r[b]) {
        if b < |prev| {
          assert r[a] == prev[a] && r[b] == prev[b];
          assert key(prev[a]) != key(prev[b]);
        } else {
          assert s[k - 1].Some? && r[b] == s[k - 1].value;
          assert r[a] == prev[a];
          assert r[a] in prev;
          var i :| 0 <= i < k - 1 && s[i] == Some(r[a]);
          assert key(s[i].value) != key(s[k - 1].value);
        }
      }
    }
  }

  /** When every cell but one is empty, the values collected are that cell's value, if any. */
  lemma {:induction false} SomesOnly<T>(s: seq<Option<T>>, k: nat, j: nat)
    requires j < k <= |s|
    requires forall i :: 0 <= i < k && i != j ==> s[i].None?
    ensures Somes(s, k) == (if s[j].Some? then [s[j].value] else [])
  {
    if k - 1 == j {
      SomesEmpty(s, j);
    } else {
      SomesOnly(s, k - 1, j);
      assert s[k - 1].None?;
    }
  }

  /** The parts `step(xs[j], ys[j])` for `j < k`, concatenated in order. */
  function Log<X, Y, R>(xs: seq<X>, ys: seq<Y>, step: (X, Y) -> seq<R>, k: nat): seq<R>
    requires k <= |xs| && k <= |ys|
  {
    if k == 0 then [] else Log(xs, ys, step, k - 1) + step(xs[k - 1], ys[k - 1])
  }

  /** Every element of every part is in the concatenation ... */
  lemma {:induction false} LogComplete<X, Y, R>(xs: seq<X>, ys: seq<Y>, step: (X, Y) -> seq<R>, k: nat)
    requires k <= |xs| && k <= |ys|
    ensures forall j, r :: 0 <= j < k && r in step(xs[j], ys[j]) ==> r in Log(xs, ys, step, k)
  {
    if k > 0 {
      LogComplete(xs, ys, step, k - 1);
    }
  }

  /** ... and the concatenation holds nothing else. */
  lemma {:induction false} LogSound<X, Y, R>(xs: seq<X>, ys: seq<Y>, step: (X, Y) -> seq<R>, k: nat)
    requires k <= |xs| && k <= |ys|
    ensures forall r :: r in Log(xs, ys, step, k) ==> exists j :: 0 <= j < k && r in step(xs[j], ys[j])
  {
    if k > 0 {
      LogSound(xs, ys, step, k - 1);
      forall r | r in Log(xs, ys, step, k) ensures exists j :: 0 <= j < k && r in step(xs[j], ys[j]) {
        if r !in Log(xs, ys, step, k - 1) {
          assert r in step(xs[k - 1], ys[k - 1]);
        }
      }
    }
  }

  /** A sequence with no element is empty. */
  lemma NoMembersEmpty<T>(s: seq<T>)
    ensures (forall x :: x !in s) ==> s == []
  {
    if s != [] {
      assert s[0] in s;
    }
  }

  /** Concatenation is associative. */
  lemma AppendAssoc<T>(x: seq<T>, y: seq<T>, z: seq<T>)
    ensures (x + y) + z == x + (y + z)
  {
  }

  /** The three parts of a concatenation, read back by slicing. */
  lemma Parts3<T>(x: seq<T>, y: seq<T>, z: seq<T>)
    ensures |x + y + z| == |x| + |y| + |z|
    ensures (x + y + z)[..|x|] == x && (x + y + z)[|x|..|x| + |y|] == y && (x + y + z)[|x| + |y|..] == z
  {
    var r := x + y + z;
    assert r[..|x|] == x;
    assert r[|x|..|x| + |y|] == y;
    assert r[|x| + |y|..] == z;
  }
}
