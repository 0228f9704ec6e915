/**
 The two randomised utilities of the game: a Fisher-Yates `shuffle` over a copy of its
 input, and `pickRandom`, which draws items without replacement by splicing them out of a
 copy. `Math.random` is an oracle: a stream of reals, each in [0, 1), consumed front to back.
 Sequences are values, so the input is never modified, as the source's clone guarantees.
 */
module Shuffling {

  /** What `Math.random` promises of every value it returns. */
  predicate IsRandomStream(rand: seq<real>) {
    forall k :: 0 <= k < |rand| ==> 0.0 <= rand[k] < 1.0
  }

  /** `Math.floor(u * n)` on exact reals: for a draw `u` it is always an index below `n`. */
  function ScaledIndex(u: real, n: nat): (j: nat)
    requires 0.0 <= u < 1.0
    requires 0 < n
    ensures j < n
  {
    var x := u * n as real;
    assert 0.0 <= x < n as real;
    x.Floor
  }

  /** The index is the floor of `u * n`: the largest integer not above it. */
  lemma ScaledIndexIsFloor(u: real, n: nat)
    requires 0.0 <= u < 1.0 && 0 < n
    ensures var j := ScaledIndex(u, n); j as real <= u * n as real < j as real + 1.0
  {
  }

  /** Exchanging two positions, the destructuring assignment of the shuffle loop. */
  function Swap<T>(s: seq<T>, i: nat, j: nat): (r: seq<T>)
    requires i < |s| && j < |s|
    ensures |r| == |s|
    ensures r[i] == s[j] && r[j] == s[i]
    ensures forall k :: 0 <= k < |s| && k != i && k != j ==> r[k] == s[k]
    ensures multiset(r) == multiset(s)
  {
    s[i := s[j]][j := s[i]]
  }

  /** How many draws the shuffle loop makes: one per index from |a| - 1 down to 1. */
  function ShuffleRounds(n: nat): nat {
    if n == 0 then 0 else n - 1
  }

  /**
   The shuffle loop from index `i` down to 1: each round draws `j` in 0..i and swaps
   positions `i` and `j`. Positions above `i` are already final and are never touched.
   */
  function ShuffleFrom<T>(clone: seq<T>, i: nat, rand: seq<real>): (r: seq<T>)
    requires i < |clone|
    requires IsRandomStream(rand) && i <= |rand|
    ensures |r| == |clone|
    ensures multiset(r) == multiset(clone)
    ensures forall k :: i < k < |clone| ==> r[k] == clone[k]
    decreases i
  {
    if i == 0 then clone
    else
      var j := ScaledIndex(rand[0], i + 1);
      ShuffleFrom(Swap(clone, i, j), i - 1, rand[1..])
  }

  /** `shuffle`: a permutation of `a`, chosen by the first ShuffleRounds(|a|) draws. */
  function Shuffle<T>(a: seq<T>, rand: seq<real>): (r: seq<T>)
    requires IsRandomStream(rand) && ShuffleRounds(|a|) <= |rand|
    ensures |r| == |a|
    ensures multiset(r) == multiset(a)
  {
    if |a| == 0 then a else ShuffleFrom(a, |a| - 1, rand)
  }

  /** The first round fixes position `i` to the element at the drawn index. */
  lemma {:induction false} ShuffleFromTop<T>(clone: seq<T>, i: nat, rand: seq<real>)
    requires 0 < i < |clone|
    requires IsRandomStream(rand) && i <= |rand|
    ensures ShuffleFrom(clone, i, rand)[i] == clone[ScaledIndex(rand[0], i + 1)]
  {
    var swapped := Swap(clone, i, ScaledIndex(rand[0], i + 1));
    assert IsRandomStream(rand[1..]);
    assert ShuffleFrom(swapped, i - 1, rand[1..])[i] == swapped[i];
  }

  /** The first draw alone decides which element ends up last, as in Fisher-Yates. */
  lemma {:induction false} ShuffleLastIsFirstDraw<T>(a: seq<T>, rand: seq<real>)
    requires 2 <= |a|
    requires IsRandomStream(rand) && ShuffleRounds(|a|) <= |rand|
    ensures Shuffle(a, rand)[|a| - 1] == a[ScaledIndex(rand[0], |a|)]
  {
    ShuffleFromTop(a, |a| - 1, rand);
  }

  /** The draw t / n scales back to index t. */
  lemma DrawForIndex(t: nat, n: nat)
    requires t < n
    ensures 0.0 <= t as real / n as real < 1.0
    ensures ScaledIndex(t as real / n as real, n) == t
  {
    var u := t as real / n as real;
    assert u * n as real == t as real;
  }

  /** Every element can be the one placed last: the draw t / n selects index t. */
  lemma {:induction false} ShuffleCanPlaceAnyLast<T>(a: seq<T>, t: nat)
    requires 2 <= |a| && t < |a|
    ensures var rand := [t as real / |a| as real] + seq(|a| - 2, _ => 0.0);
            IsRandomStream(rand) && ShuffleRounds(|a|) <= |rand| &&
            Shuffle(a, rand)[|a| - 1] == a[t]
  {
    var n := |a|;
    var u := t as real / n as real;
    DrawForIndex(t, n);
    var rand := [u] + seq(n - 2, _ => 0.0);
    assert rand[0] == u;
    assert IsRandomStream(rand);
    ShuffleLastIsFirstDraw(a, rand);
  }

  /**
   The `pickRandom` loop: each round draws an index below the current length of the
   clone and splices that element out. Returns the picks, in order, and what is left.
   */
  function PickFrom<T>(clone: seq<T>, items: nat, rand: seq<real>): (r: (seq<T>, seq<T>))
    requires items <= |clone|
    requires IsRandomStream(rand) && items <= |rand|
    ensures |r.0| == items && |r.1| == |clone| - items
    ensures multiset(r.0) + multiset(r.1) == multiset(clone)
    decreases items
  {
    if items == 0 then ([], clone)
    else
      var random := ScaledIndex(rand[0], |clone|);
      var rest := Splice(clone, random);
      var more := PickFrom(rest, items - 1, rand[1..]);
      ([clone[random]] + more.0, more.1)
  }

  /** `clone.splice(random, 1)`: the sequence without position `i`. */
  function Splice<T>(s: seq<T>, i: nat): (r: seq<T>)
    requires i < |s|
    ensures |r| == |s| - 1
    ensures multiset(r) + multiset{s[i]} == multiset(s)
  {
    assert s == s[..i] + [s[i]] + s[i + 1..];
    s[..i] + s[i + 1..]
  }

  /** `pickRandom`: `items` elements of `pool`, never the same position twice. */
  function PickRandom<T>(pool: seq<T>, items: nat, rand: seq<real>): (r: seq<T>)
    requires items <= |pool|
    requires IsRandomStream(rand) && items <= |rand|
    ensures |r| == items
    ensures multiset(r) <= multiset(pool)
  {
    PickFrom(pool, items, rand).0
  }

  /** No element occurs at two positions. */
  predicate Distinct<T(==)>(s: seq<T>) {
    forall i, j :: 0 <= i < j < |s| ==> s[i] != s[j]
  }

  /** In a sequence without repetitions every value occurs at most once. */
  lemma {:induction false} DistinctOccursOnce<T>(s: seq<T>, x: T)
    requires Distinct(s)
    ensures multiset(s)[x] <= 1
  {
    if |s| > 0 {
      assert s == [s[0]] + s[1..];
      assert Distinct(s[1..]) by {
        forall i, j | 0 <= i < j < |s[1..]| ensures s[1..][i] != s[1..][j] {
          assert s[1..][i] == s[i + 1] && s[1..][j] == s[j + 1];
        }
      }
      DistinctOccursOnce(s[1..], x);
      if s[0] == x {
        assert x !in s[1..] by {
          forall k | 0 <= k < |s[1..]| ensures s[1..][k] != x {
            assert s[1..][k] == s[k + 1];
          }
        }
      }
    }
  }
}
