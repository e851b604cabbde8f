/**
 * The three `itertools` generators the settlement engine expands bets with:
 * `combinations(xs, r)`, `permutations(xs, r)` and `product(*groups)`, each in
 * itertools' own output order, with their members and their sizes.
 */
module Combinatorics {

  /** `[[x] + t for t in ts]`. */
  function PrependAll<T>(x: T, ts: seq<seq<T>>): seq<seq<T>> {
    seq(|ts|, k requires 0 <= k < |ts| => [x] + ts[k])
  }

  lemma PrependAllMembers<T>(x: T, ts: seq<seq<T>>, t: seq<T>)
    ensures t in PrependAll(x, ts) <==> t != [] && t[0] == x && t[1..] in ts
  {
    var ps := PrependAll(x, ts);
    if t in ps {
      var k :| 0 <= k < |ps| && ps[k] == t;
      assert t[1..] == ts[k];
    }
    if t != [] && t[0] == x && t[1..] in ts {
      var k :| 0 <= k < |ts| && ts[k] == t[1..];
      assert ps[k] == t;
    }
  }

  // ---------------------------------------------------------------------------
  // combinations
  // ---------------------------------------------------------------------------

  /**
   * `itertools.combinations(xs, r)`: the length-`r` subsequences of `xs`, in
   * lexicographic order of the positions they are taken from.
   */
  function Combinations<T>(xs: seq<T>, r: nat): seq<seq<T>>
    decreases |xs|
  {
    if r == 0 then [[]]
    else if xs == [] then []
    else PrependAll(xs[0], Combinations(xs[1..], r - 1)) + Combinations(xs[1..], r)
  }

  /** `c` is `xs` with some elements deleted, the rest kept in order. */
  predicate IsSubsequence<T(==)>(c: seq<T>, xs: seq<T>)
    decreases |xs|
  {
    c == [] || (xs != [] && ((c[0] == xs[0] && IsSubsequence(c[1..], xs[1..])) || IsSubsequence(c, xs[1..])))
  }

  /** The members of `combinations(xs, r)` are exactly the length-`r` subsequences of `xs`. */
  lemma CombinationsMembers<T>(xs: seq<T>, r: nat, c: seq<T>)
    ensures c in Combinations(xs, r) <==> |c| == r && IsSubsequence(c, xs)
  {
    if c in Combinations(xs, r) {
      CombinationsSound(xs, r, c);
    }
    if |c| == r && IsSubsequence(c, xs) {
      CombinationsComplete(xs, r, c);
    }
  }

  lemma {:induction false} CombinationsSound<T>(xs: seq<T>, r: nat, c: seq<T>)
    requires c in Combinations(xs, r)
    ensures |c| == r && IsSubsequence(c, xs)
    decreases |xs|
  {
    if r != 0 {
      var head := CombinationsCases(xs, r, c);
      if head {
        CombinationsSound(xs[1..], r - 1, c[1..]);
        SubsequenceCons(c, xs);
      } else {
        CombinationsSound(xs[1..], r, c);
        SubsequenceSkip(c, xs);
      }
    }
  }

  /** A member of `combinations(xs, r)`, `r > 0`, either starts with `xs[0]` or is a combination of the rest. */
  lemma CombinationsCases<T>(xs: seq<T>, r: nat, c: seq<T>) returns (head: bool)
    requires r != 0 && c in Combinations(xs, r)
    ensures xs != []
    ensures head ==> c != [] && c[0] == xs[0] && c[1..] in Combinations(xs[1..], r - 1)
    ensures !head ==> c in Combinations(xs[1..], r)
  {
    var left := Combinations(xs[1..], r - 1);
    assert Combinations(xs, r) == PrependAll(xs[0], left) + Combinations(xs[1..], r);
    PrependAllMembers(xs[0], left, c);
    head := c in PrependAll(xs[0], left);
  }

  lemma SubsequenceCons<T>(c: seq<T>, xs: seq<T>)
    requires c != [] && xs != [] && c[0] == xs[0] && IsSubsequence(c[1..], xs[1..])
    ensures IsSubsequence(c, xs)
  {
  }

  lemma SubsequenceSkip<T>(c: seq<T>, xs: seq<T>)
    requires xs != [] && IsSubsequence(c, xs[1..])
    ensures IsSubsequence(c, xs)
  {
  }

  lemma {:induction false} CombinationsComplete<T>(xs: seq<T>, r: nat, c: seq<T>)
    requires |c| == r && IsSubsequence(c, xs)
    ensures c in Combinations(xs, r)
    decreases |xs|
  {
    if r == 0 {
      assert c == [];
    } else {
      assert xs != [];
      var left := Combinations(xs[1..], r - 1);
      var right := Combinations(xs[1..], r);
      assert Combinations(xs, r) == PrependAll(xs[0], left) + right;
      SubsequenceStep(c, xs);
      if c[0] == xs[0] && IsSubsequence(c[1..], xs[1..]) {
        CombinationsComplete(xs[1..], r - 1, c[1..]);
        PrependAllMembers(xs[0], left, c);
      } else {
        CombinationsComplete(xs[1..], r, c);
      }
    }
  }

  lemma SubsequenceStep<T>(c: seq<T>, xs: seq<T>)
    requires c != [] && xs != []
    ensures IsSubsequence(c, xs) <==>
              (c[0] == xs[0] && IsSubsequence(c[1..], xs[1..])) || IsSubsequence(c, xs[1..])
  {
  }

  /** A one-element subsequence is an element of `xs`. */
  lemma {:induction false} SubsequenceOfOne<T>(c: seq<T>, xs: seq<T>)
    requires |c| == 1 && IsSubsequence(c, xs)
    ensures exists j :: 0 <= j < |xs| && c[0] == xs[j]
    decreases |xs|
  {
    if c[0] != xs[0] {
      assert IsSubsequence(c, xs[1..]);
      SubsequenceOfOne(c, xs[1..]);
      var j :| 0 <= j < |xs[1..]| && c[0] == xs[1..][j];
      assert c[0] == xs[j + 1];
    }
  }

  /** A two-element subsequence is a pair of elements of `xs` at increasing positions. */
  lemma {:induction false} SubsequenceOfTwo<T>(c: seq<T>, xs: seq<T>)
    requires |c| == 2 && IsSubsequence(c, xs)
    ensures exists i, j :: 0 <= i < j < |xs| && c == [xs[i], xs[j]]
    decreases |xs|
  {
    if c[0] == xs[0] && IsSubsequence(c[1..], xs[1..]) {
      SubsequenceOfOne(c[1..], xs[1..]);
      var j :| 0 <= j < |xs[1..]| && c[1..][0] == xs[1..][j];
      assert c == [xs[0], xs[j + 1]];
    } else {
      assert IsSubsequence(c, xs[1..]);
      SubsequenceOfTwo(c, xs[1..]);
      var i, j :| 0 <= i < j < |xs[1..]| && c == [xs[1..][i], xs[1..][j]];
      assert c == [xs[i + 1], xs[j + 1]];
    }
  }

  /** The element at any position forms a one-element subsequence. */
  lemma {:induction false} OneIndexSubsequence<T>(xs: seq<T>, j: nat)
    requires j < |xs|
    ensures IsSubsequence([xs[j]], xs)
    decreases j
  {
    if j > 0 {
      OneIndexSubsequence(xs[1..], j - 1);
      assert xs[1..][j - 1] == xs[j];
    } else {
      assert [xs[j]][1..] == [];
    }
  }

  /** Two elements at increasing positions form a subsequence. */
  lemma {:induction false} TwoIndicesSubsequence<T>(xs: seq<T>, i: nat, j: nat)
    requires i < j < |xs|
    ensures IsSubsequence([xs[i], xs[j]], xs)
    decreases i
  {
    if i > 0 {
      TwoIndicesSubsequence(xs[1..], i - 1, j - 1);
      assert [xs[1..][i - 1], xs[1..][j - 1]] == [xs[i], xs[j]];
    } else {
      OneIndexSubsequence(xs[1..], j - 1);
      assert [xs[i], xs[j]][1..] == [xs[1..][j - 1]];
    }
  }

  /** The full-length permutations of a pair are the pair and its reverse. */
  lemma PermutationsOfPair<T>(pair: seq<T>, p: seq<T>)
    requires |pair| == 2
    ensures p in Permutations(pair, 2) <==> p == pair || p == [pair[1], pair[0]]
  {
    PermutationsMembers(pair, 2, p);
    assert pair == [pair[0], pair[1]];
    assert multiset(pair) == multiset{pair[0], pair[1]};
    if |p| == 2 && multiset(p) <= multiset(pair) {
      PairSubMultiset(p, pair[0], pair[1]);
    }
    if p == [pair[1], pair[0]] {
      assert multiset(p) == multiset(pair);
    }
  }

  /** Two elements drawn from the multiset of a pair are the pair, in one order or the other. */
  lemma PairSubMultiset<T>(p: seq<T>, x: T, y: T)
    requires |p| == 2 && multiset(p) <= multiset{x, y}
    ensures p == [x, y] || p == [y, x]
  {
    assert p == [p[0], p[1]];
    assert multiset(p) == multiset{p[0], p[1]};
    assert p[0] in multiset{x, y};
    if p[0] == x {
      assert multiset{p[1]} <= multiset{y};
    } else {
      assert p[0] == y;
      assert multiset{p[1]} <= multiset{x};
    }
  }

  /** A subsequence never holds an element more often than `xs` does. */
  lemma {:induction false} SubsequenceMultiset<T>(c: seq<T>, xs: seq<T>)
    requires IsSubsequence(c, xs)
    ensures multiset(c) <= multiset(xs)
    decreases |xs|
  {
    if c != [] {
      assert xs == [xs[0]] + xs[1..];
      if c[0] == xs[0] && IsSubsequence(c[1..], xs[1..]) {
        SubsequenceMultiset(c[1..], xs[1..]);
        assert c == [c[0]] + c[1..];
      } else {
        SubsequenceMultiset(c, xs[1..]);
      }
    }
  }

  /** Pascal's rule: the binomial coefficient C(n, k). */
  function Choose(n: nat, k: nat): nat {
    if k == 0 then 1 else if n == 0 then 0 else Choose(n - 1, k - 1) + Choose(n - 1, k)
  }

  /** `combinations(xs, r)` yields C(|xs|, r) tuples (counting positions, so for any pool). */
  lemma {:induction false} CombinationsCount<T>(xs: seq<T>, r: nat)
    ensures |Combinations(xs, r)| == Choose(|xs|, r)
    decreases |xs|
  {
    if r > 0 && xs != [] {
      CombinationsCount(xs[1..], r - 1);
      CombinationsCount(xs[1..], r);
    }
  }

  // ---------------------------------------------------------------------------
  // permutations
  // ---------------------------------------------------------------------------

  function RemoveAt<T>(xs: seq<T>, i: nat): seq<T>
    requires i < |xs|
  {
    xs[..i] + xs[i + 1..]
  }

  lemma RemoveAtMultiset<T>(xs: seq<T>, i: nat)
    requires i < |xs|
    ensures |RemoveAt(xs, i)| == |xs| - 1
    ensures multiset(RemoveAt(xs, i)) + multiset{xs[i]} == multiset(xs)
  {
    assert xs == xs[..i] + [xs[i]] + xs[i + 1..];
  }

  /**
   * `itertools.permutations(xs, r)`: the length-`r` arrangements of elements at
   * distinct positions of `xs`, in lexicographic order of those positions.
   */
  function Permutations<T>(xs: seq<T>, r: nat): seq<seq<T>>
    decreases r, |xs| + 1
  {
    if r == 0 then [[]] else PermutationsFrom(xs, r, 0)
  }

  /** The arrangements whose first element is taken from position `i` or later. */
  function PermutationsFrom<T>(xs: seq<T>, r: nat, i: nat): seq<seq<T>>
    requires 0 < r && i <= |xs|
    decreases r, |xs| - i
  {
    if i == |xs| then []
    else PrependAll(xs[i], Permutations(RemoveAt(xs, i), r - 1)) + PermutationsFrom(xs, r, i + 1)
  }

  lemma {:induction false} PermutationsFromMembers<T>(xs: seq<T>, r: nat, i: nat, p: seq<T>)
    requires 0 < r && i <= |xs|
    ensures p in PermutationsFrom(xs, r, i) <==>
              p != [] && exists j :: i <= j < |xs| && xs[j] == p[0] && p[1..] in Permutations(RemoveAt(xs, j), r - 1)
    decreases |xs| - i
  {
    if i < |xs| {
      PrependAllMembers(xs[i], Permutations(RemoveAt(xs, i), r - 1), p);
      PermutationsFromMembers(xs, r, i + 1, p);
    }
  }

  /** Every member of `permutations(xs, r)` has length `r` and is drawn from `xs` without replacement. */
  lemma {:induction false} PermutationsSound<T>(xs: seq<T>, r: nat, p: seq<T>)
    requires p in Permutations(xs, r)
    ensures |p| == r && multiset(p) <= multiset(xs)
    decreases r
  {
    if r > 0 {
      PermutationsFromMembers(xs, r, 0, p);
      var j :| 0 <= j < |xs| && xs[j] == p[0] && p[1..] in Permutations(RemoveAt(xs, j), r - 1);
      PermutationsSound(RemoveAt(xs, j), r - 1, p[1..]);
      RemoveAtMultiset(xs, j);
      assert p == [p[0]] + p[1..];
      assert multiset(p) == multiset(p[1..]) + multiset{xs[j]};
    }
  }

  /** Every length-`r` sequence drawn from `xs` without replacement is a member of `permutations(xs, r)`. */
  lemma {:induction false} PermutationsComplete<T>(xs: seq<T>, r: nat, p: seq<T>)
    requires |p| == r && multiset(p) <= multiset(xs)
    ensures p in Permutations(xs, r)
    decreases r
  {
    if r == 0 {
      assert p == [];
    } else {
      assert p == [p[0]] + p[1..];
      assert p[0] in multiset(xs);
      var j :| 0 <= j < |xs| && xs[j] == p[0];
      RemoveAtMultiset(xs, j);
      assert multiset(p) == multiset(p[1..]) + multiset{xs[j]};
      forall x
        ensures multiset(p[1..])[x] <= multiset(RemoveAt(xs, j))[x]
      {
        assert multiset(p)[x] <= multiset(xs)[x];
      }
      assert multiset(p[1..]) <= multiset(RemoveAt(xs, j));
      PermutationsComplete(RemoveAt(xs, j), r - 1, p[1..]);
      PermutationsFromMembers(xs, r, 0, p);
    }
  }

  /**
   * The members of `permutations(xs, r)` are exactly the length-`r` sequences
   * whose elements can all be drawn from `xs` without replacement.
   */
  lemma PermutationsMembers<T>(xs: seq<T>, r: nat, p: seq<T>)
    ensures p in Permutations(xs, r) <==> |p| == r && multiset(p) <= multiset(xs)
  {
    if p in Permutations(xs, r) {
      PermutationsSound(xs, r, p);
    }
    if |p| == r && multiset(p) <= multiset(xs) {
      PermutationsComplete(xs, r, p);
    }
  }

  /** The falling factorial n * (n - 1) * ... * (n - k + 1), that is n! / (n - k)!. */
  function FallingFactorial(n: nat, k: nat): nat {
    if k == 0 then 1 else if n == 0 then 0 else n * FallingFactorial(n - 1, k - 1)
  }

  lemma {:induction false} PermutationsFromCount<T>(xs: seq<T>, r: nat, i: nat)
    requires 0 < r && i <= |xs|
    ensures |xs| > 0 ==> |PermutationsFrom(xs, r, i)| == (|xs| - i) * FallingFactorial(|xs| - 1, r - 1)
    ensures |xs| == 0 ==> |PermutationsFrom(xs, r, i)| == 0
    decreases r, |xs| - i
  {
    if i < |xs| {
      PermutationsCount(RemoveAt(xs, i), r - 1);
      PermutationsFromCount(xs, r, i + 1);
    }
  }

  /** `permutations(xs, r)` yields |xs|! / (|xs| - r)! tuples (zero when r > |xs|). */
  lemma {:induction false} PermutationsCount<T>(xs: seq<T>, r: nat)
    ensures |Permutations(xs, r)| == FallingFactorial(|xs|, r)
    decreases r, |xs| + 1
  {
    if r > 0 {
      PermutationsFromCount(xs, r, 0);
    }
  }

  // ---------------------------------------------------------------------------
  // Counting identities
  // ---------------------------------------------------------------------------

  function Factorial(n: nat): nat {
    if n == 0 then 1 else n * Factorial(n - 1)
  }

  /** FallingFactorial(n, k) * (n - k)! == n!. */
  lemma {:induction false} FallingFactorialIsQuotient(n: nat, k: nat)
    requires k <= n
    ensures FallingFactorial(n, k) * Factorial(n - k) == Factorial(n)
  {
    if k > 0 {
      FallingFactorialIsQuotient(n - 1, k - 1);
      var a, f := FallingFactorial(n - 1, k - 1), Factorial(n - k);
      assert FallingFactorial(n, k) == n * a;
      assert n - k == (n - 1) - (k - 1);
      assert Factorial(n) == n * Factorial(n - 1);
      MulAssoc(n, a, f);
    }
  }

  lemma MulAssoc(x: int, y: int, z: int)
    ensures (x * y) * z == x * (y * z)
  {
  }

  lemma {:induction false} FallingFactorialBeyond(n: nat, k: nat)
    requires k > n
    ensures FallingFactorial(n, k) == 0
  {
    if n > 0 {
      FallingFactorialBeyond(n - 1, k - 1);
    }
  }

  lemma {:induction false} FallingFactorialStep(n: nat, k: nat)
    ensures FallingFactorial(n, k + 1) == FallingFactorial(n, k) * (n - k)
  {
    if k > n {
      FallingFactorialBeyond(n, k);
      FallingFactorialBeyond(n, k + 1);
    } else if k == 0 {
    } else {
      FallingFactorialStep(n - 1, k - 1);
      calc {
        FallingFactorial(n, k + 1);
        n * FallingFactorial(n - 1, k);
        n * (FallingFactorial(n - 1, k - 1) * ((n - 1) - (k - 1)));
        (n * FallingFactorial(n - 1, k - 1)) * (n - k);
      }
    }
  }

  /** C(n, k) * k! == n! / (n - k)!, so C(n, k) is the usual binomial coefficient. */
  lemma {:induction false} ChooseTimesFactorial(n: nat, k: nat)
    ensures Choose(n, k) * Factorial(k) == FallingFactorial(n, k)
  {
    if k > 0 && n > 0 {
      ChooseTimesFactorial(n - 1, k - 1);
      ChooseTimesFactorial(n - 1, k);
      FallingFactorialStep(n - 1, k - 1);
      var a := FallingFactorial(n - 1, k - 1);
      assert Factorial(k) == k * Factorial(k - 1);
      PascalArithmetic(Choose(n - 1, k - 1), Choose(n - 1, k), k, Factorial(k - 1), a, n);
    }
  }

  lemma PascalArithmetic(c1: int, c2: int, k: int, f: int, a: int, n: int)
    requires c1 * f == a && c2 * (k * f) == a * (n - k)
    ensures (c1 + c2) * (k * f) == n * a
  {
    calc {
      (c1 + c2) * (k * f);
      c1 * (k * f) + c2 * (k * f);
      { assert c1 * (k * f) == k * (c1 * f); }
      k * a + a * (n - k);
      n * a;
    }
  }

  // ---------------------------------------------------------------------------
  // product
  // ---------------------------------------------------------------------------

  /** Every `[h] + t` with `h` from `heads` (outer) and `t` from `tails` (inner). */
  function ExtendAll<T>(heads: seq<T>, tails: seq<seq<T>>): seq<seq<T>> {
    if heads == [] then [] else PrependAll(heads[0], tails) + ExtendAll(heads[1..], tails)
  }

  /** `itertools.product(*groups)`: one element from each group, in group order. */
  function Product<T>(groups: seq<seq<T>>): seq<seq<T>> {
    if groups == [] then [[]] else ExtendAll(groups[0], Product(groups[1..]))
  }

  lemma {:induction false} ExtendAllMembers<T>(heads: seq<T>, tails: seq<seq<T>>, t: seq<T>)
    ensures t in ExtendAll(heads, tails) <==> t != [] && t[0] in heads && t[1..] in tails
  {
    if heads != [] {
      PrependAllMembers(heads[0], tails, t);
      ExtendAllMembers(heads[1..], tails, t);
      assert heads == [heads[0]] + heads[1..];
    }
  }

  lemma {:induction false} ExtendAllCount<T>(heads: seq<T>, tails: seq<seq<T>>)
    ensures |ExtendAll(heads, tails)| == |heads| * |tails|
  {
    if heads != [] {
      ExtendAllCount(heads[1..], tails);
    }
  }

  /** The members of `product(*groups)`: one entry per group, entry `i` taken from group `i`. */
  lemma {:induction false} ProductMembers<T>(groups: seq<seq<T>>, t: seq<T>)
    ensures t in Product(groups) <==>
              |t| == |groups| && forall i :: 0 <= i < |groups| ==> t[i] in groups[i]
  {
    if groups == [] {
      assert |t| == 0 ==> t == [];
    } else {
      ExtendAllMembers(groups[0], Product(groups[1..]), t);
      if t != [] {
        ProductMembers(groups[1..], t[1..]);
        if |t| == |groups| && forall i :: 0 <= i < |groups| ==> t[i] in groups[i] {
          assert forall i :: 0 <= i < |groups| - 1 ==> t[1..][i] == t[i + 1];
        }
        if t in Product(groups) {
          forall i | 0 <= i < |groups|
            ensures t[i] in groups[i]
          {
            if i > 0 {
              assert t[i] == t[1..][i - 1];
            }
          }
        }
      }
    }
  }

  /** The product of the group sizes. */
  function SizeProduct<T>(groups: seq<seq<T>>): nat {
    if groups == [] then 1 else |groups[0]| * SizeProduct(groups[1..])
  }

  /** `product(*groups)` yields as many tuples as the product of the group sizes. */
  lemma {:induction false} ProductCount<T>(groups: seq<seq<T>>)
    ensures |Product(groups)| == SizeProduct(groups)
  {
    if groups != [] {
      ProductCount(groups[1..]);
      ExtendAllCount(groups[0], Product(groups[1..]));
    }
  }
}
