/**
  The lazy enumerator of Hanoi moves as an explicit state machine. An enumerator
  for height n holds a phase and, while it delegates, exactly one enumerator for
  height n-1; each step emits one move. The state is an immutable value: a step
  returns the emitted move together with the successor state.
 */
module Enumeration {
  import opened Moves

  /** Where the enumerator stands in the three-part decomposition. */
  datatype Phase = BasisCase | FirstRecursion | SecondRecursion | InBetween | Done
  {
    /** The phases during which the enumerator forwards to a child of height n-1. */
    predicate Delegating()
    {
      this == FirstRecursion || this == SecondRecursion
    }
  }

  datatype Option<T> = None | Some(value: T)

  datatype Error =
    | InvalidArgument(height: int)  // construction with a non-positive height
    | Exhausted                     // a move requested after the last one

  datatype Result<T> = Success(value: T) | Failure(error: Error)

  /** An enumerator: its phase, height, pole labelling and owned child (if any). */
  datatype Enum = Enum(phase: Phase, n: nat, src: char, dst: char, buf: char, child: Option<Enum>)

  /** True until the last move has been emitted. */
  predicate HasMore(e: Enum)
  {
    e.phase != Done
  }

  /** The child's pole labelling, according to which sub-tower is being moved. */
  predicate ChildPoles(e: Enum, c: Enum)
  {
    match e.phase
    case FirstRecursion => c.src == e.src && c.dst == e.buf && c.buf == e.dst
    case SecondRecursion => c.src == e.buf && c.dst == e.dst && c.buf == e.src
    case _ => false
  }

  /**
    The states the enumerator can be in: positive height; a child present exactly
    while delegating, itself valid, one smaller, on the permuted poles and not yet
    exhausted (an exhausted child is released at once); the basis phase only for
    height 1, the recursive phases only above it.
   */
  predicate Valid(e: Enum)
    decreases e
  {
    && e.n >= 1
    && (e.phase.Delegating() <==> e.child.Some?)
    && (e.phase == BasisCase ==> e.n == 1)
    && (e.phase in {FirstRecursion, InBetween, SecondRecursion} ==> e.n > 1)
    && match e.child
       case None => true
       case Some(c) => Valid(c) && c.n == e.n - 1 && ChildPoles(e, c) && HasMore(c)
  }

  /** The sub-problem an enumerator solves: its height and its source, destination and buffer poles. */
  function Task(e: Enum): (nat, char, char, char)
  {
    (e.n, e.src, e.dst, e.buf)
  }

  /** The moves a valid enumerator has yet to emit, in order. */
  function Remaining(e: Enum): (r: seq<Move>)
    requires Valid(e)
    ensures |r| > 0 <==> HasMore(e)
    decreases e
  {
    match e.phase
    case BasisCase => [Move(e.src, e.dst)]
    case FirstRecursion =>
      Remaining(e.child.value) + [Move(e.src, e.dst)] + Hanoi(e.n - 1, e.buf, e.dst, e.src)
    case InBetween => [Move(e.src, e.dst)] + Hanoi(e.n - 1, e.buf, e.dst, e.src)
    case SecondRecursion => Remaining(e.child.value)
    case Done => []
  }

  /**
    The enumerator built by the constructor for a positive height: the basis phase for
    height 1, otherwise the first recursion with a child for the top n-1 discs
    moving from src to buf.
   */
  function Fresh(n: nat, src: char, dst: char, buf: char): (r: Enum)
    requires n >= 1
    ensures Valid(r) && HasMore(r)
    ensures Task(r) == (n, src, dst, buf)
    ensures Remaining(r) == Hanoi(n, src, dst, buf)
    ensures n == 1 ==> r.phase == BasisCase && r.child == None
    ensures n > 1 ==> r.phase == FirstRecursion && r.child.Some?
                      && Task(r.child.value) == (n - 1, src, buf, dst)
  {
    if n == 1 then Enum(BasisCase, 1, src, dst, buf, None)
    else Enum(FirstRecursion, n, src, dst, buf, Some(Fresh(n - 1, src, buf, dst)))
  }

  /** The constructor on an arbitrary height: non-positive heights are rejected. */
  function Create(n: int, src: char, dst: char, buf: char): (r: Result<Enum>)
    ensures r.Failure? <==> n <= 0
    ensures r.Failure? ==> r.error == InvalidArgument(n)
    ensures r.Success? ==> Valid(r.value) && Task(r.value) == (n, src, dst, buf)
                           && Remaining(r.value) == Hanoi(n, src, dst, buf)
  {
    if n < 1 then Failure(InvalidArgument(n)) else Success(Fresh(n, src, dst, buf))
  }

  /** The public one-argument constructor: poles A (source), C (destination), B (buffer). */
  function OfHeight(n: int): (r: Result<Enum>)
    ensures r.Failure? <==> n <= 0
    ensures r.Failure? ==> r.error == InvalidArgument(n)
    ensures r.Success? ==> Valid(r.value) && Task(r.value) == (n, 'A', 'C', 'B')
                           && Remaining(r.value) == Hanoi(n, 'A', 'C', 'B')
  {
    Create(n, 'A', 'C', 'B')
  }

  /** The public default constructor: height 3 on poles A, C, B, the classic seven moves. */
  function Default(): (r: Enum)
    ensures Valid(r) && Task(r) == (3, 'A', 'C', 'B')
    ensures Remaining(r) ==
              [Move('A', 'C'), Move('A', 'B'), Move('C', 'B'), Move('A', 'C'),
               Move('B', 'A'), Move('B', 'C'), Move('A', 'C')]
  {
    HanoiSmall();
    OfHeight(3).value
  }

  /**
    One step: emit the next move and return the successor state. The emitted move is
    the first of the remaining ones and the successor has exactly the rest to emit,
    so the remaining count drops by one on every step.
   */
  function Next(e: Enum): (r: (Move, Enum))
    requires Valid(e) && HasMore(e)
    ensures Valid(r.1) && Task(r.1) == Task(e)
    ensures Remaining(e) == [r.0] + Remaining(r.1)
    // the basis case and the move of the largest disc emit src -> dst
    ensures e.phase in {BasisCase, InBetween} ==> r.0 == Move(e.src, e.dst)
    ensures e.phase == BasisCase ==> r.1.phase == Done
    ensures e.phase == InBetween ==>
              r.1.phase == SecondRecursion && r.1.child == Some(Fresh(e.n - 1, e.buf, e.dst, e.src))
    // a delegating step forwards to the child and releases it exactly when it runs out
    ensures e.phase.Delegating() ==>
              var (m, c') := Next(e.child.value);
              && r.0 == m
              && (HasMore(c') ==> r.1.phase == e.phase && r.1.child == Some(c'))
              && (!HasMore(c') ==> r.1.child == None &&
                                   r.1.phase == if e.phase == FirstRecursion then InBetween else Done)
    decreases e
  {
    match e.phase
    case BasisCase => (Move(e.src, e.dst), e.(phase := Done))
    case FirstRecursion =>
      var (m, c') := Next(e.child.value);
      if HasMore(c') then (m, e.(child := Some(c')))
      else (m, e.(phase := InBetween, child := None))
    case InBetween =>
      (Move(e.src, e.dst), e.(phase := SecondRecursion, child := Some(Fresh(e.n - 1, e.buf, e.dst, e.src))))
    case SecondRecursion =>
      var (m, c') := Next(e.child.value);
      if HasMore(c') then (m, e.(child := Some(c')))
      else (m, e.(phase := Done, child := None))
  }

  /** nextElement with its failure: asking an exhausted enumerator for a move fails. */
  function NextElement(e: Enum): (r: Result<(Move, Enum)>)
    requires Valid(e)
    ensures r.Failure? <==> Remaining(e) == []
    ensures r.Failure? ==> r.error == Exhausted
    ensures r.Success? ==> Valid(r.value.1) && Remaining(e) == [r.value.0] + Remaining(r.value.1)
  {
    if HasMore(e) then Success(Next(e)) else Failure(Exhausted)
  }
}
