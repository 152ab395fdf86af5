/**
  Facts about every reachable enumerator state: what it has left to emit is a tail
  of the reference solution, and the chain of live enumerators is no deeper than
  the height.
 */
module Invariants {
  import opened Moves
  import opened Enumeration

  /** a is a tail of b. */
  predicate IsSuffix(a: seq<Move>, b: seq<Move>)
  {
    |a| <= |b| && a == b[|b| - |a|..]
  }

  lemma SuffixAppend(a: seq<Move>, b: seq<Move>, x: seq<Move>)
    requires IsSuffix(a, b)
    ensures IsSuffix(a + x, b + x)
  {
  }

  lemma SuffixOfTail(a: seq<Move>, b: seq<Move>, x: seq<Move>)
    requires IsSuffix(a, b)
    ensures IsSuffix(a, x + b)
  {
  }

  /**
    Whatever state a valid enumerator is in, the moves it has yet to emit are the
    last ones of the reference solution for its height and poles.
   */
  lemma {:induction false} RemainingIsSuffix(e: Enum)
    requires Valid(e)
    ensures IsSuffix(Remaining(e), Hanoi(e.n, e.src, e.dst, e.buf))
    decreases e
  {
    var first := Hanoi(e.n - 1, e.src, e.buf, e.dst);
    var largest := [Move(e.src, e.dst)];
    var second := Hanoi(e.n - 1, e.buf, e.dst, e.src);
    assert Hanoi(e.n, e.src, e.dst, e.buf) == first + largest + second;
    match e.phase
    case BasisCase =>
      HanoiOne(e.src, e.dst, e.buf);
    case FirstRecursion =>
      RemainingIsSuffix(e.child.value);
      SuffixAppend(Remaining(e.child.value), first, largest + second);
      assert Remaining(e) == Remaining(e.child.value) + (largest + second);
      assert first + largest + second == first + (largest + second);
    case InBetween =>
      SuffixOfTail(largest + second, largest + second, first);
    case SecondRecursion =>
      RemainingIsSuffix(e.child.value);
      SuffixOfTail(Remaining(e), second, first + largest);
    case Done =>
  }

  /** Hence a valid enumerator never has more than 2^n - 1 moves left. */
  lemma RemainingBounded(e: Enum)
    requires Valid(e)
    ensures |Remaining(e)| <= Pow2(e.n) - 1
  {
    RemainingIsSuffix(e);
    HanoiLength(e.n, e.src, e.dst, e.buf);
  }

  /** The number of live enumerators on the ownership chain starting at e. */
  function Depth(e: Enum): nat
    decreases e
  {
    match e.child
    case None => 1
    case Some(c) => 1 + Depth(c)
  }

  /** At most one enumerator per level is alive: the chain is at most as deep as the height. */
  lemma {:induction false} DepthBounded(e: Enum)
    requires Valid(e)
    ensures Depth(e) <= e.n
    decreases e
  {
    match e.child
    case None =>
    case Some(c) => DepthBounded(c);
  }
}
