/**
  The enumeration protocol as a caller drives it: ask hasMoreElements, and while it
  answers true take nextElement.
 */
module Drain {
  import opened Moves
  import opened Enumeration

  /** Pulls every remaining move out of a valid enumerator, in order. */
  method Drain(start: Enum) returns (moves: seq<Move>)
    requires Valid(start)
    ensures moves == Remaining(start)
  {
    var e := start;
    moves := [];
    while HasMore(e)
      invariant Valid(e)
      invariant moves + Remaining(e) == Remaining(start)
      decreases |Remaining(e)|
    {
      var (m, e') := Next(e);
      moves := moves + [m];
      e := e';
    }
  }

  /**
    Constructs an enumerator of height n on the default poles and drains it: a
    non-positive height is rejected, any other yields the reference solution,
    which has 2^n - 1 moves.
   */
  method Enumerate(n: int) returns (r: Result<seq<Move>>)
    ensures r.Failure? <==> n <= 0
    ensures r.Failure? ==> r.error == InvalidArgument(n)
    ensures r.Success? ==>
              && r.value == Hanoi(n, 'A', 'C', 'B')
              && r.value == Hanoi(n - 1, 'A', 'B', 'C') + [Move('A', 'C')] + Hanoi(n - 1, 'B', 'C', 'A')
              && |r.value| == Pow2(n) - 1
              && forall m :: m in r.value ==> ProperMove(m, 'A', 'C', 'B')
  {
    var created := OfHeight(n);
    if created.Failure? {
      return Failure(created.error);
    }
    var moves := Drain(created.value);
    HanoiLength(n, 'A', 'C', 'B');
    HanoiProperMoves(n, 'A', 'C', 'B');
    r := Success(moves);
  }
}
