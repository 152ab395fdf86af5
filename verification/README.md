# Lazy Towers of Hanoi enumerator, modelled in Dafny

`HanoiEnumeration` produces the moves of the Towers of Hanoi one at a time.
It does not compute the whole solution up front. Its approach is to turn the classic
recursion into an explicit state machine. An enumerator for height `n` knows
its poles `(src, dst, buf)` and its phase: `BASIS_CASE`, `FIRST_RECURSION`,
`IN_BETWEEN`, `SECOND_RECURSION` or `DONE`. While it is in one of the two
recursion phases, it also owns a single enumerator for height `n-1`.
Each `nextElement` call does one of three things: it emits `src->dst`, it forwards
to the child, or it installs the second child.

The model has four modules:

- `Moves` (`moves.dfy`) holds the reference solution `Hanoi(n, src, dst, buf)`:
  `Hanoi(n-1, src, buf, dst) + [src->dst] + Hanoi(n-1, buf, dst, src)`.
  It also holds its length `2^n - 1` and the fact that every move goes between two
  different poles.
- `Enumeration` (`enumeration.dfy`) holds the enumerator as an immutable
  recursive datatype `Enum`. The phase is a datatype and the child is an
  `Option<Enum>`. The module also holds the constructors, `HasMore`
  (`hasMoreElements`) and the step `Next` (`nextElement`).
  `Remaining(e)` is the sequence of moves the state `e` has yet to emit.
  `Valid(e)` is the invariant that every reachable state satisfies.
- `Invariants` (`invariants.dfy`) proves two facts. First, what a state has
  left is always a tail of the reference solution. Second, the chain of live
  enumerators is never deeper than the height.
- `Drain` (`drain.dfy`) holds the caller's loop `while (hasMoreElements()) nextElement()`.
  A fresh enumerator drained by this loop yields exactly the reference solution.

A step returns the emitted move together with the successor state. Object
mutation is therefore modelled by threading values. `hasMoreElements` is a
predicate of the state, so repeated queries with no step in between agree.

The height-3 solution from A to C with buffer B, as the code's decomposition
produces it, is `A->C, A->B, C->B, A->C, B->A, B->C, A->C`.
`Enumeration.Default` states this. The solution `Hanoi(3, A, B, C)` ends on
pole B instead, and it starts `A->B, A->C, B->C`.

## Model

| member | source | states |
|---|---|---|
| Moves.HanoiLength | HanoiEnumeration.java:19-27 | The recursive solution for height n has exactly 2^n - 1 moves. |
| Moves.HanoiProperMoves | HanoiEnumeration.java:19-27 | On three distinct poles, every move of the solution goes from one of them to a different one of them. |
| Enumeration.Remaining | HanoiEnumeration.java:80-98 | For a valid state, `hasMoreElements` is true if and only if some move is still to be emitted. |
| Enumeration.Fresh | HanoiEnumeration.java:66-78 | Height 1 starts in BASIS_CASE with no child. A larger height starts in FIRST_RECURSION with a child of height n-1 on poles (src, buf, dst). The new state is valid, and what it will emit is exactly the reference solution for (n, src, dst, buf). |
| Enumeration.Create | HanoiEnumeration.java:66-78 | Construction fails with an invalid-argument error exactly when n <= 0. Otherwise it yields a valid enumerator of that height and those poles, which will emit the reference solution. |
| Enumeration.OfHeight | HanoiEnumeration.java:62 | The one-argument constructor rejects a non-positive height with an invalid-argument error carrying that height. Otherwise it builds a valid enumerator of height n on poles (A, C, B), which will emit the reference solution from A to C with B as buffer. |
| Enumeration.Default | HanoiEnumeration.java:60 | The default enumerator is valid, has height 3 on poles (A, C, B), and will emit the seven moves A->C, A->B, C->B, A->C, B->A, B->C, A->C. |
| Enumeration.Next | HanoiEnumeration.java:100-128 | A step keeps the state valid and its task unchanged. The emitted move is the first remaining one, and the successor has exactly the rest, so the count drops by one. BASIS_CASE and IN_BETWEEN emit src->dst. IN_BETWEEN installs a fresh child on (buf, dst, src). A delegating step emits the child's move and releases the child exactly when it has no more: FIRST goes to IN_BETWEEN, SECOND goes to DONE. |
| Enumeration.NextElement | HanoiEnumeration.java:100-135 | Asking for a move fails with an exhausted error if and only if nothing remains. Otherwise it yields the first remaining move and a valid successor that holds the rest. |
| Invariants.RemainingIsSuffix | HanoiEnumeration.java:29-41 | In every valid state, the moves not yet emitted are a tail of the reference solution for the enumerator's height and poles. |
| Invariants.RemainingBounded | HanoiEnumeration.java:19-27 | A valid state never has more than 2^n - 1 moves left. |
| Invariants.DepthBounded | HanoiEnumeration.java:56-58 | The chain of live enumerators owned from a valid state is at most n long: one per level. |
| Drain.Drain | HanoiEnumeration.java:80-135 | Pulling moves while `hasMoreElements` holds terminates and yields exactly the moves the state had left, in order. |
| Drain.Enumerate | HanoiEnumeration.java:62 | A non-positive height is rejected. Otherwise draining yields the reference solution, which is the solution for (n-1, A, B, C), then A->C, then the solution for (n-1, B, C, A). It has 2^n - 1 moves, each between two different poles. |

## Left out

- The `java.util.Enumeration` interface and the `Object` return type are not modelled. A move is a pole pair `Move(from, to)`, not the string `"src->dst"`.
- The `default: throw new RuntimeException("Unknown phase")` branches are not modelled. The phase is a datatype with exactly the five phases, so these branches cannot be reached.
- The exception class thrown in phase DONE is not modelled. That class is never imported in the file, so it carries no meaning. The failure is modelled as `Exhausted`: `NextElement` returns it, and `Next` instead has the precondition `HasMore`.
- Garbage collection is not modelled. Releasing a child is modelled only as the child becoming `None`.
- In-place mutation and object identity are not modelled. Each step returns a new state value instead.
- Java `int` overflow is not modelled. The heights are unbounded, and every valid height is at least 1, so `n-1` never wraps.
