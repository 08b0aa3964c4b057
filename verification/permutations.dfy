/**
 * Orders over the goal indices 0..n-1: the random visiting orders drawn by the
 * planners and the sequence returned by the external TSP solver.
 */
module Permutations {

  /** `s` lists every index 0..n-1 exactly once. */
  predicate IsPermutation(s: seq<nat>, n: nat) {
    && |s| == n
    && (forall i :: 0 <= i < |s| ==> s[i] < n)
    && (forall i, j :: 0 <= i < j < |s| ==> s[i] != s[j])
  }

  /** The index set {0, ..., n-1}. */
  function Range(n: nat): (r: set<nat>)
    ensures |r| == n
    ensures forall k: nat :: k in r <==> k < n
  {
    if n == 0 then {} else Range(n - 1) + {n - 1}
  }

  /** The set of elements of a sequence. */
  function Elements(s: seq<nat>): set<nat> {
    set x | x in s
  }

  /** The elements of a sequence without repetitions are as many as its positions. */
  lemma {:induction false} DistinctElements(s: seq<nat>)
    requires forall i, j :: 0 <= i < j < |s| ==> s[i] != s[j]
    ensures |Elements(s)| == |s|
  {
    if s != [] {
      var rest := s[1..];
      DistinctElements(rest);
      assert Elements(s) == Elements(rest) + {s[0]} by {
        forall x | x in Elements(s) ensures x in Elements(rest) + {s[0]} {
          var i :| 0 <= i < |s| && s[i] == x;
          if i > 0 { assert rest[i - 1] == x; }
        }
      }
      assert s[0] !in Elements(rest) by {
        forall i | 0 <= i < |rest| ensures rest[i] != s[0] {
          assert rest[i] == s[i + 1];
        }
      }
    }
  }

  /** A subset is no larger than its superset. */
  lemma {:induction false} SubsetSize(a: set<nat>, b: set<nat>)
    requires a <= b
    ensures |a| <= |b|
    decreases |b|
  {
    if b != {} {
      var y :| y in b;
      SubsetSize(a - {y}, b - {y});
      if y in a {
        assert a == (a - {y}) + {y};
      } else {
        assert a == a - {y};
      }
      assert b == (b - {y}) + {y};
    }
  }

  /** A subset as large as its superset is the superset. */
  lemma SubsetOfEqualSize(a: set<nat>, b: set<nat>)
    requires a <= b && |a| == |b|
    ensures a == b
  {
    if a != b {
      var x :| x in b && x !in a;
      SubsetSize(a, b - {x});
    }
  }

  /** Pigeonhole: a permutation of 0..n-1 contains every index below n. */
  lemma PermutationCovers(s: seq<nat>, n: nat)
    requires IsPermutation(s, n)
    ensures forall g: nat :: g < n ==> g in s
  {
    DistinctElements(s);
    SubsetOfEqualSize(Elements(s), Range(n));
    forall g: nat | g < n ensures g in s {
      assert g in Elements(s);
    }
  }

  /** Each index below n stands at exactly one position of a permutation of 0..n-1. */
  lemma PermutationPosition(s: seq<nat>, n: nat, g: nat) returns (idx: nat)
    requires IsPermutation(s, n) && g < n
    ensures idx < |s| && s[idx] == g
    ensures forall j :: 0 <= j < |s| && s[j] == g ==> j == idx
  {
    PermutationCovers(s, n);
    assert g in s;
    idx :| 0 <= idx < |s| && s[idx] == g;
  }

  /** Reading a permutation backwards gives a permutation. */
  function Reverse(s: seq<nat>): (r: seq<nat>)
    ensures |r| == |s|
    ensures forall i :: 0 <= i < |s| ==> r[i] == s[|s| - 1 - i]
  {
    seq(|s|, i requires 0 <= i < |s| => s[|s| - 1 - i])
  }

  lemma ReversePermutation(s: seq<nat>, n: nat)
    requires IsPermutation(s, n)
    ensures IsPermutation(Reverse(s), n)
  {
    var r := Reverse(s);
    forall i, j | 0 <= i < j < |r| ensures r[i] != r[j] {
      assert r[i] == s[|s| - 1 - i] && r[j] == s[|s| - 1 - j];
    }
  }
}
