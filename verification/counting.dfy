/** Counting the positions of a sequence whose element satisfies a test. */
module Counting {

  /** The positions `i` of `s` where `f(s[i])` holds. */
  ghost function Positions<T>(s: seq<T>, f: T -> bool): set<nat>
  {
    set i: nat | i < |s| && f(s[i])
  }

  /** Appending one element adds its position exactly when it passes. */
  lemma PositionsAppend<T>(s: seq<T>, x: T, f: T -> bool)
    ensures Positions(s + [x], f) == Positions(s, f) + (if f(x) then {|s|} else {})
    ensures |Positions(s + [x], f)| == |Positions(s, f)| + (if f(x) then 1 else 0)
  {
    var before := Positions(s, f);
    assert |s| !in before;
    if f(x) {
      assert Positions(s + [x], f) == before + {|s|};
    } else {
      assert Positions(s + [x], f) == before;
    }
  }

  lemma PositionsEmpty<T>(s: seq<T>, f: T -> bool)
    requires |s| == 0
    ensures Positions(s, f) == {}
  {
  }

  /** The sum of `f` over the elements of `s`, in order. */
  ghost function Sum<T>(s: seq<T>, f: T -> int): int
  {
    if |s| == 0 then 0 else Sum(s[..|s| - 1], f) + f(s[|s| - 1])
  }

  lemma {:induction false} SumAppend<T>(a: seq<T>, b: seq<T>, f: T -> int)
    ensures Sum(a + b, f) == Sum(a, f) + Sum(b, f)
  {
    if |b| > 0 {
      assert (a + b)[..|a + b| - 1] == a + b[..|b| - 1];
      SumAppend(a, b[..|b| - 1], f);
    } else {
      assert a + b == a;
    }
  }

  /** A sum does not depend on the order of the summands. */
  lemma {:induction false} SumPermutation<T>(a: seq<T>, b: seq<T>, f: T -> int)
    requires multiset(a) == multiset(b)
    ensures Sum(a, f) == Sum(b, f)
    decreases |a|
  {
    if |a| > 0 {
      var x := a[|a| - 1];
      var front := a[..|a| - 1];
      assert a == front + [x];
      assert x in multiset(b);
      var j :| 0 <= j < |b| && b[j] == x;
      var rest := b[..j] + b[j + 1..];
      assert b == b[..j] + [x] + b[j + 1..];
      assert multiset(b) == multiset(b[..j]) + multiset{x} + multiset(b[j + 1..]);
      assert multiset(a) == multiset(front) + multiset{x};
      assert multiset(rest) == multiset(b[..j]) + multiset(b[j + 1..]);
      assert multiset(front) == multiset(a) - multiset{x};
      assert multiset(rest) == multiset(b) - multiset{x};
      SumPermutation(front, rest, f);
      SumAppend(b[..j] + [x], b[j + 1..], f);
      SumAppend(b[..j], [x], f);
      SumAppend(b[..j], b[j + 1..], f);
      assert Sum([x], f) == f(x);
    } else {
      assert |b| == |multiset(b)| == 0;
    }
  }
}
