/** The two JavaScript array queries the engine relies on: indexOf and a filtered count. */
module Seqs {

  /** `s.indexOf(x)` searching from position `i`: the first index holding `x`, or -1. */
  function IndexOfFrom<T(==)>(s: seq<T>, x: T, i: nat): (r: int)
    requires i <= |s|
    ensures r == -1 <==> forall j | i <= j < |s| :: s[j] != x
    ensures r != -1 ==> i <= r < |s| && s[r] == x && forall j | i <= j < r :: s[j] != x
    decreases |s| - i
  {
    if i == |s| then -1
    else if s[i] == x then i
    else IndexOfFrom(s, x, i + 1)
  }

  /** `s.indexOf(x)`. */
  function IndexOf<T(==)>(s: seq<T>, x: T): (r: int)
    ensures r == -1 <==> x !in s
    ensures r != -1 ==> 0 <= r < |s| && s[r] == x && x !in s[..r]
  {
    IndexOfFrom(s, x, 0)
  }

  /** Searching from `i` stops at the first occurrence at or after `i`. */
  lemma {:induction false} IndexOfFromFinds<T>(s: seq<T>, x: T, i: nat, k: nat)
    requires i <= k < |s| && s[k] == x
    requires forall j | i <= j < k :: s[j] != x
    ensures IndexOfFrom(s, x, i) == k
    decreases k - i
  {
    if i < k {
      IndexOfFromFinds(s, x, i + 1, k);
    }
  }

  /** indexOf returns a position whose element occurs nowhere before it. */
  lemma IndexOfFinds<T>(s: seq<T>, k: nat)
    requires k < |s|
    requires forall j | 0 <= j < k :: s[j] != s[k]
    ensures IndexOf(s, s[k]) == k
  {
    IndexOfFromFinds(s, s[k], 0, k);
  }

  /** `s.filter(y => y === x).length`. */
  function Count<T(==)>(s: seq<T>, x: T): nat {
    if s == [] then 0
    else (if s[0] == x then 1 else 0) + Count(s[1..], x)
  }

  /** The filtered count is the multiplicity of `x` in the multiset of `s`. */
  lemma {:induction false} CountIsMultiplicity<T>(s: seq<T>, x: T)
    ensures Count(s, x) == multiset(s)[x]
  {
    if s != [] {
      CountIsMultiplicity(s[1..], x);
      assert s == [s[0]] + s[1..];
      assert multiset(s) == multiset{s[0]} + multiset(s[1..]);
    }
  }

  /** Appending one element adds one to its own count and nothing to others'. */
  lemma CountAppend<T>(s: seq<T>, y: T, x: T)
    ensures Count(s + [y], x) == Count(s, x) + (if y == x then 1 else 0)
  {
    CountIsMultiplicity(s + [y], x);
    CountIsMultiplicity(s, x);
    assert multiset(s + [y]) == multiset(s) + multiset{y};
  }
}
