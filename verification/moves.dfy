/**
  The reference solution of the Towers of Hanoi: the classic all-at-once
  recursive decomposition that the lazy enumerator must reproduce move by move.
 */
module Moves {

  /** A move of the topmost disc from one pole to another. Poles are labelled by characters. */
  datatype Move = Move(from: char, to: char)

  /** 2^n, the count that bounds every tower's solution. */
  function Pow2(n: nat): (r: nat)
    ensures r >= 1
  {
    if n == 0 then 1 else 2 * Pow2(n - 1)
  }

  /**
    The moves that transfer a tower of height n from src to dst using buf as spare:
    the top n-1 discs go src -> buf (with dst as spare), the largest disc goes
    src -> dst, and the n-1 discs go buf -> dst (with src as spare).
    A tower of height 0 needs no moves.
   */
  function Hanoi(n: nat, src: char, dst: char, buf: char): seq<Move>
  {
    if n == 0 then []
    else Hanoi(n - 1, src, buf, dst) + [Move(src, dst)] + Hanoi(n - 1, buf, dst, src)
  }

  /** A move between two different poles, both among the three given ones. */
  predicate ProperMove(m: Move, src: char, dst: char, buf: char)
  {
    && m.from != m.to
    && m.from in {src, dst, buf}
    && m.to in {src, dst, buf}
  }

  predicate Distinct(src: char, dst: char, buf: char)
  {
    src != dst && dst != buf && src != buf
  }

  /** The solution of a tower of height n has exactly 2^n - 1 moves. */
  lemma {:induction false} HanoiLength(n: nat, src: char, dst: char, buf: char)
    ensures |Hanoi(n, src, dst, buf)| == Pow2(n) - 1
  {
    if n > 0 {
      HanoiLength(n - 1, src, buf, dst);
      HanoiLength(n - 1, buf, dst, src);
    }
  }

  /** On three distinct poles, every move of the solution goes between two different ones of them. */
  lemma {:induction false} HanoiProperMoves(n: nat, src: char, dst: char, buf: char)
    requires Distinct(src, dst, buf)
    ensures forall m :: m in Hanoi(n, src, dst, buf) ==> ProperMove(m, src, dst, buf)
  {
    if n > 0 {
      HanoiProperMoves(n - 1, src, buf, dst);
      HanoiProperMoves(n - 1, buf, dst, src);
    }
  }

  /** A single disc is moved straight from the source to the destination. */
  lemma HanoiOne(src: char, dst: char, buf: char)
    ensures Hanoi(1, src, dst, buf) == [Move(src, dst)]
  {
  }

  /** The solutions for heights two and three on the default poles A, C, B. */
  lemma HanoiSmall()
    ensures Hanoi(2, 'A', 'C', 'B') == [Move('A', 'B'), Move('A', 'C'), Move('B', 'C')]
    ensures Hanoi(3, 'A', 'C', 'B') ==
              [Move('A', 'C'), Move('A', 'B'), Move('C', 'B'), Move('A', 'C'),
               Move('B', 'A'), Move('B', 'C'), Move('A', 'C')]
  {
  }
}
