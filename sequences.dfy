/** Facts about sequences that are permutations of each other, used to show
    that totals and alert lists do not depend on the order of the rows. */
module Sequences {

  /** Removing the first element of `a` from a permutation `b` of `a` leaves a
      permutation of the rest of `a`. */
  lemma PermutationSplit<T>(a: seq<T>, b: seq<T>) returns (i: nat)
    requires a != [] && multiset(a) == multiset(b)
    ensures i < |b| && b[i] == a[0]
    ensures b == b[..i] + [a[0]] + b[i + 1..]
    ensures multiset(a[1..]) == multiset(b[..i] + b[i + 1..])
  {
    assert a == [a[0]] + a[1..];
    assert multiset(a) == multiset{a[0]} + multiset(a[1..]);
    assert a[0] in multiset(b);
    i :| 0 <= i < |b| && b[i] == a[0];
    assert b == b[..i] + [a[0]] + b[i + 1..];
    assert multiset(b) == multiset(b[..i]) + multiset{a[0]} + multiset(b[i + 1..]);
    assert multiset(b[..i] + b[i + 1..]) == multiset(b[..i]) + multiset(b[i + 1..]);
    calc {
      multiset(a[1..]);
      multiset(a) - multiset{a[0]};
      multiset(b) - multiset{a[0]};
      multiset(b[..i]) + multiset(b[i + 1..]);
    }
  }

  /** Two permutations with the same head have permutations as tails. */
  lemma PermutationTail<T>(a: seq<T>, b: seq<T>)
    requires a != [] && b != [] && a[0] == b[0] && multiset(a) == multiset(b)
    ensures multiset(a[1..]) == multiset(b[1..])
  {
    assert a == [a[0]] + a[1..] && b == [b[0]] + b[1..];
    assert multiset(a) == multiset{a[0]} + multiset(a[1..]);
    assert multiset(b) == multiset{b[0]} + multiset(b[1..]);
    calc {
      multiset(a[1..]);
      multiset(a) - multiset{a[0]};
      multiset(b) - multiset{b[0]};
      multiset(b[1..]);
    }
  }

  lemma EmptyPermutation<T>(a: seq<T>, b: seq<T>)
    requires a == [] && multiset(a) == multiset(b)
    ensures b == []
  {
    assert |multiset(b)| == |b|;
  }
}
