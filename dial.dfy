/** Day 1 (2025/1/main.rs): a dial numbered 0 to 99 starts at 50 and is turned by
    lines such as `L68` or `R48`. Part 1 counts the turns that leave the dial at 0;
    part 2 counts every click that brings the dial to 0, during a turn or at its end. */
module Dial {
  import opened Text

  const DIAL_SIZE: nat := 100
  const START_POSITION: nat := 50

  /** The value a `State` holds, used by the specification functions. */
  datatype Reading = Reading(position: nat, zeroCount: nat, exactlyZeroCount: nat)

  /** +1 for 'R', -1 for 'L', 0 for any other leading character. */
  function Direction(c: char): int {
    if c == 'R' then 1 else if c == 'L' then -1 else 0
  }

  /** A trimmed line is a move when it has a first character and the rest parses as
      an `i32`; the move turns the dial by `direction * rotations` clicks. */
  function ParseMove(line: string): (move: Option<int>)
    ensures move.Some? <==> line != [] && ParseSigned(line[1..], I32_MIN, I32_MAX).Some?
    ensures move.Some? ==> move.value == Direction(line[0]) * ParseSigned(line[1..], I32_MIN, I32_MAX).value
  {
    if line == [] then None
    else match ParseSigned(line[1..], I32_MIN, I32_MAX)
      case Some(rotations) => Some(Direction(line[0]) * rotations)
      case None => None
  }

  // ------------------------------------------------------------- counting zeros

  /** What part 2 means to count: the clicks of a turn by `delta` from `position`
      after which the dial shows 0, one click at a time. */
  function ClicksOnZero(position: int, delta: int): nat
    decreases if delta < 0 then -delta else delta
  {
    if delta == 0 then 0
    else if delta > 0 then ClicksOnZero(position, delta - 1) + (if (position + delta) % DIAL_SIZE == 0 then 1 else 0)
    else ClicksOnZero(position, delta + 1) + (if (position + delta) % DIAL_SIZE == 0 then 1 else 0)
  }

  /** The increment of `zero_count` as the source computes it:
      `|next.div_euclid(100)|`, less one when a turn starts at 0 and goes negative.
      (Dafny's `/` and `%` on `int` are Euclidean, as are `div_euclid`/`rem_euclid`
      for a positive divisor.) */
  function ZeroPassesAsWritten(position: int, next: int): int {
    (if next / DIAL_SIZE < 0 then -(next / DIAL_SIZE) else next / DIAL_SIZE)
      - (if next < 0 && position == 0 then 1 else 0)
  }

  /** The corrected increment: as written, plus one when a left turn ends on 0. */
  function ZeroPasses(position: int, delta: int): int {
    ZeroPassesAsWritten(position, position + delta)
      + (if delta < 0 && (position + delta) % DIAL_SIZE == 0 then 1 else 0)
  }

  /** One click moves `m - 1` to `m`; it lands on 0 exactly when `m` is a multiple of 100. */
  lemma FloorStep(m: int)
    ensures m / DIAL_SIZE - (m - 1) / DIAL_SIZE == (if m % DIAL_SIZE == 0 then 1 else 0)
  {
  }

  /** Closed forms of the click count: a right turn passes the multiples of 100 in
      `(position, next]`, a left turn those in `[next, position)`. */
  lemma {:induction false} ClicksClosedForm(position: int, delta: int)
    requires 0 <= position < DIAL_SIZE
    ensures delta >= 0 ==> ClicksOnZero(position, delta) == (position + delta) / DIAL_SIZE
    ensures delta < 0 ==> ClicksOnZero(position, delta) == (position - 1) / DIAL_SIZE - (position + delta - 1) / DIAL_SIZE
    decreases if delta < 0 then -delta else delta
  {
    if delta > 0 {
      ClicksClosedForm(position, delta - 1);
      FloorStep(position + delta);
    } else if delta < 0 {
      ClicksClosedForm(position, delta + 1);
      FloorStep(position + delta);
    }
  }

  /** The corrected increment counts exactly the clicks that reach 0. */
  lemma ZeroPassesCountsClicks(position: int, delta: int)
    requires 0 <= position < DIAL_SIZE
    ensures ZeroPasses(position, delta) == ClicksOnZero(position, delta)
  {
    ClicksClosedForm(position, delta);
  }

  /** The source's increment misses exactly one click: the last one of a left turn
      that ends on 0. */
  lemma AsWrittenMissesLeftLanding(position: int, delta: int)
    requires 0 <= position < DIAL_SIZE
    ensures ZeroPassesAsWritten(position, position + delta)
         == ClicksOnZero(position, delta) - (if delta < 0 && (position + delta) % DIAL_SIZE == 0 then 1 else 0)
  {
    ZeroPassesCountsClicks(position, delta);
  }

  /** Concretely: from 1, `L1` lands on 0, which the source does not count. */
  lemma AsWrittenCounterexample()
    ensures ZeroPassesAsWritten(1, 0) == 0 && ClicksOnZero(1, -1) == 1
  {
  }

  /** The `zero_count -= 1` of the source never takes the count below its old value:
      when a turn starts at 0 and goes negative, `|next.div_euclid(100)| >= 1`. */
  lemma AsWrittenNeverUnderflows(position: int, next: int)
    requires 0 <= position < DIAL_SIZE
    ensures ZeroPassesAsWritten(position, next) >= 0
    ensures next < 0 && position == 0 ==> next / DIAL_SIZE <= -1
  {
  }

  // ------------------------------------------------------------ specification

  /** One turn, with the corrected count of part 2. */
  function Turn(r: Reading, delta: int): (r': Reading)
    requires r.position < DIAL_SIZE
    ensures r'.position < DIAL_SIZE
  {
    var position := (r.position + delta) % DIAL_SIZE;
    Reading(position,
            r.zeroCount + ZeroPasses(r.position, delta),
            r.exactlyZeroCount + (if position == 0 then 1 else 0))
  }

  /** A turn adds to part 2 the clicks that reach 0 and to part 1 a landing on 0. */
  lemma TurnCounts(r: Reading, delta: int)
    requires r.position < DIAL_SIZE
    ensures Turn(r, delta).position == (r.position + delta) % DIAL_SIZE
    ensures Turn(r, delta).zeroCount == r.zeroCount + ClicksOnZero(r.position, delta)
    ensures Turn(r, delta).exactlyZeroCount
         == r.exactlyZeroCount + (if (r.position + delta) % DIAL_SIZE == 0 then 1 else 0)
  {
    ZeroPassesCountsClicks(r.position, delta);
  }

  /** The turns of a sequence of moves, applied in order. */
  function RunMoves(r: Reading, deltas: seq<int>): (r': Reading)
    requires r.position < DIAL_SIZE
    ensures r'.position < DIAL_SIZE
  {
    if deltas == [] then r else Turn(RunMoves(r, deltas[..|deltas| - 1]), deltas[|deltas| - 1])
  }

  /** The moves of the lines, each line trimmed; a line that is not a move is skipped. */
  function Moves(lines: seq<string>): seq<int> {
    if lines == [] then []
    else
      Moves(lines[..|lines| - 1])
        + (match ParseMove(Trim(lines[|lines| - 1])) case Some(d) => [d] case None => [])
  }

  const START: Reading := Reading(START_POSITION, 0, 0)

  /** The password counters of an input: `(zero_count, exactly_zero_count)`. */
  function Passwords(input: string): (r: Reading) {
    RunMoves(START, Moves(Split(input, '\n')))
  }

  /** A line turns the dial by its move; a line that is not a move changes nothing. */
  function Step(r: Reading, line: string): (r': Reading)
    requires r.position < DIAL_SIZE
    ensures r'.position < DIAL_SIZE
  {
    match ParseMove(Trim(line))
    case Some(d) => Turn(r, d)
    case None => r
  }

  /** The reading after the first `i` lines. */
  function ReadingAfter(lines: seq<string>, i: nat): (r: Reading)
    requires i <= |lines|
    ensures r.position < DIAL_SIZE
  {
    RunMoves(START, Moves(lines[..i]))
  }

  /** Running the moves of one more line is one more `Step`. */
  lemma RunOneMoreLine(lines: seq<string>, i: nat)
    requires i < |lines|
    ensures ReadingAfter(lines, i + 1) == Step(ReadingAfter(lines, i), lines[i])
  {
    assert lines[..i + 1][..i] == lines[..i];
    var ms := Moves(lines[..i]);
    match ParseMove(Trim(lines[i])) {
      case Some(d) => assert (ms + [d])[..|ms|] == ms;
      case None => assert ms + [] == ms;
    }
  }

  // ---------------------------------------------------------------- the state

  /** The fold accumulator of `simulate_dial_position`. */
  class State {
    var exactlyZeroCount: nat
    var zeroCount: nat
    var position: nat

    ghost predicate Valid()
      reads this
    {
      position < DIAL_SIZE
    }

    function View(): Reading
      reads this
    {
      Reading(position, zeroCount, exactlyZeroCount)
    }

    /** `State::new`: the dial at 50, both counters at 0. */
    constructor ()
      ensures Valid() && View() == START
    {
      exactlyZeroCount := 0;
      zeroCount := 0;
      position := START_POSITION;
    }

    /** The body of the fold for a line that parsed as a move of `delta` clicks
        (with the corrected count of part 2). */
    method TurnBy(delta: int)
      requires Valid()
      modifies this
      ensures Valid()
      ensures position == (old(position) + delta) % DIAL_SIZE
      ensures zeroCount == old(zeroCount) + ClicksOnZero(old(position), delta)
      ensures exactlyZeroCount == old(exactlyZeroCount) + (if position == 0 then 1 else 0)
      ensures View() == Turn(old(View()), delta)
    {
      var next := delta + position;
      ZeroPassesCountsClicks(position, delta);
      AsWrittenNeverUnderflows(position, next);
      var passes := if next / DIAL_SIZE < 0 then -(next / DIAL_SIZE) else next / DIAL_SIZE;
      if next < 0 && position == 0 {
        passes := passes - 1;
      }
      if delta < 0 && next % DIAL_SIZE == 0 {
        passes := passes + 1;
      }
      zeroCount := zeroCount + passes;
      position := next % DIAL_SIZE;
      if position == 0 {
        exactlyZeroCount := exactlyZeroCount + 1;
      }
    }

    /** One step of the fold: a line that is not a move leaves the state unchanged. */
    method ApplyLine(line: string)
      requires Valid()
      modifies this
      ensures Valid()
      ensures View() == Step(old(View()), line)
    {
      match ParseMove(Trim(line)) {
        case Some(delta) => TurnBy(delta);
        case None =>
      }
    }
  }

  /** `simulate_dial_position`: the lines of the input folded into a fresh state. */
  method SimulateDialPosition(input: string) returns (state: State)
    ensures fresh(state) && state.Valid()
    ensures state.View() == Passwords(input)
  {
    state := FoldLines(Split(input, '\n'));
  }

  /** The fold itself, over the input's lines. */
  method FoldLines(lines: seq<string>) returns (state: State)
    ensures fresh(state) && state.Valid()
    ensures state.View() == RunMoves(START, Moves(lines))
  {
    state := new State();
    var i := 0;
    while i < |lines|
      invariant 0 <= i <= |lines|
      invariant state.Valid()
      invariant state.View() == ReadingAfter(lines, i)
    {
      state.ApplyLine(lines[i]);
      assert state.View() == ReadingAfter(lines, i + 1) by {
        RunOneMoreLine(lines, i);
      }
      i := i + 1;
    }
    assert lines[..i] == lines;
  }

  /** `get_part1_password`: the number of turns that ended on 0. */
  method GetPart1Password(input: string) returns (password: nat)
    ensures password == Passwords(input).exactlyZeroCount
  {
    var state := SimulateDialPosition(input);
    password := state.exactlyZeroCount;
  }

  /** `get_part2_password`: the number of clicks that reached 0. */
  method GetPart2Password(input: string) returns (password: nat)
    ensures password == Passwords(input).zeroCount
  {
    var state := SimulateDialPosition(input);
    password := state.zeroCount;
  }

  // --------------------------------------------------------------- examples

  /** The moves of the worked example: L68 L30 R48 L5 R60 L55 L1 L99 R14 L82. */
  const EXAMPLE_MOVES: seq<int> := [-68, -30, 48, -5, 60, -55, -1, -99, 14, -82]

  /** Running the moves up to index `k + 1` is one more turn from where the moves
      up to `k` left the dial. */
  lemma RunPrefix(ds: seq<int>, k: nat, r: Reading, r': Reading)
    requires k < |ds| && RunMoves(START, ds[..k]) == r && Turn(r, ds[k]) == r'
    ensures RunMoves(START, ds[..k + 1]) == r'
  {
    assert ds[..k + 1][..k] == ds[..k];
  }

  /** Part 1 of the worked example is 3 and part 2 is 6. */
  lemma ExamplePasswords()
    ensures RunMoves(START, EXAMPLE_MOVES) == Reading(32, 6, 3)
  {
    var ds := EXAMPLE_MOVES;
    RunPrefix(ds, 0, START, Reading(82, 1, 0));
    RunPrefix(ds, 1, Reading(82, 1, 0), Reading(52, 1, 0));
    RunPrefix(ds, 2, Reading(52, 1, 0), Reading(0, 2, 1));
    RunPrefix(ds, 3, Reading(0, 2, 1), Reading(95, 2, 1));
    RunPrefix(ds, 4, Reading(95, 2, 1), Reading(55, 3, 1));
    RunPrefix(ds, 5, Reading(55, 3, 1), Reading(0, 4, 2));
    RunPrefix(ds, 6, Reading(0, 4, 2), Reading(99, 4, 2));
    RunPrefix(ds, 7, Reading(99, 4, 2), Reading(0, 5, 3));
    RunPrefix(ds, 8, Reading(0, 5, 3), Reading(14, 5, 3));
    RunPrefix(ds, 9, Reading(14, 5, 3), Reading(32, 6, 3));
    assert ds[..10] == ds;
  }

  /** The moves of the second test: L51 R2 L1 R1 L1. */
  const SECOND_TEST_MOVES: seq<int> := [-51, 2, -1, 1, -1]

  /** The second test expects part 2 to be 4: both `L1` turns from 1 land on 0. */
  lemma SecondTestPassword()
    ensures RunMoves(START, SECOND_TEST_MOVES).zeroCount == 4
  {
    var ds := SECOND_TEST_MOVES;
    RunPrefix(ds, 0, START, Reading(99, 1, 0));
    RunPrefix(ds, 1, Reading(99, 1, 0), Reading(1, 2, 0));
    RunPrefix(ds, 2, Reading(1, 2, 0), Reading(0, 3, 1));
    RunPrefix(ds, 3, Reading(0, 3, 1), Reading(1, 3, 1));
    RunPrefix(ds, 4, Reading(1, 3, 1), Reading(0, 4, 2));
    assert ds[..5] == ds;
  }

  // ------------------------------------------------------- the fold as written

  /** One turn exactly as the source's fold computes it: `zero_count` grows by the
      uncorrected increment. */
  function TurnAsWritten(r: Reading, delta: int): (r': Reading)
    requires r.position < DIAL_SIZE
    ensures r'.position < DIAL_SIZE
  {
    var position := (r.position + delta) % DIAL_SIZE;
    Reading(position,
            r.zeroCount + ZeroPassesAsWritten(r.position, r.position + delta),
            r.exactlyZeroCount + (if position == 0 then 1 else 0))
  }

  function RunMovesAsWritten(r: Reading, deltas: seq<int>): (r': Reading)
    requires r.position < DIAL_SIZE
    ensures r'.position < DIAL_SIZE
  {
    if deltas == [] then r else TurnAsWritten(RunMovesAsWritten(r, deltas[..|deltas| - 1]), deltas[|deltas| - 1])
  }

  /** The passwords the source computes for an input. */
  function PasswordsAsWritten(input: string): Reading {
    RunMovesAsWritten(START, Moves(Split(input, '\n')))
  }

  /** Part 1 never differs: the landings on 0 are counted alike. */
  lemma {:induction false} AsWrittenSamePart1(deltas: seq<int>)
    ensures RunMovesAsWritten(START, deltas).position == RunMoves(START, deltas).position
    ensures RunMovesAsWritten(START, deltas).exactlyZeroCount == RunMoves(START, deltas).exactlyZeroCount
  {
    if deltas != [] {
      AsWrittenSamePart1(deltas[..|deltas| - 1]);
    }
  }

  /** One more turn of the fold as written, given the quotient `q` of the unreduced
      position by 100 (so that the example steps need no division). */
  lemma RunPrefixAsWritten(ds: seq<int>, k: nat, r: Reading, delta: int, q: int, r': Reading)
    requires k < |ds| && ds[k] == delta && RunMovesAsWritten(START, ds[..k]) == r
    requires r.position < DIAL_SIZE
    requires q * DIAL_SIZE <= r.position + delta < q * DIAL_SIZE + DIAL_SIZE
    requires r'.position == r.position + delta - q * DIAL_SIZE
    requires r'.zeroCount == r.zeroCount + (if q < 0 then -q else q) - (if r.position + delta < 0 && r.position == 0 then 1 else 0)
    requires r'.exactlyZeroCount == r.exactlyZeroCount + (if r'.position == 0 then 1 else 0)
    ensures RunMovesAsWritten(START, ds[..k + 1]) == r'
  {
    assert ds[..k + 1][..k] == ds[..k];
    assert (r.position + delta) / DIAL_SIZE == q;
  }

  /** As written, the worked example's part 2 is 4, not the 6 its test expects: the
      turns L55 and L99 end on 0 and are not counted. */
  lemma AsWrittenExample()
    ensures RunMovesAsWritten(START, EXAMPLE_MOVES) == Reading(32, 4, 3)
  {
    var ds := EXAMPLE_MOVES;
    AsWrittenExampleStart();
    RunPrefixAsWritten(ds, 5, Reading(55, 3, 1), -55, 0, Reading(0, 3, 2));
    RunPrefixAsWritten(ds, 6, Reading(0, 3, 2), -1, -1, Reading(99, 3, 2));
    RunPrefixAsWritten(ds, 7, Reading(99, 3, 2), -99, 0, Reading(0, 3, 3));
    RunPrefixAsWritten(ds, 8, Reading(0, 3, 3), 14, 0, Reading(14, 3, 3));
    RunPrefixAsWritten(ds, 9, Reading(14, 3, 3), -82, -1, Reading(32, 4, 3));
    assert ds[..10] == ds;
  }

  /** The first five turns of the example, as written. */
  lemma AsWrittenExampleStart()
    ensures RunMovesAsWritten(START, EXAMPLE_MOVES[..5]) == Reading(55, 3, 1)
  {
    var ds := EXAMPLE_MOVES;
    RunPrefixAsWritten(ds, 0, START, -68, -1, Reading(82, 1, 0));
    RunPrefixAsWritten(ds, 1, Reading(82, 1, 0), -30, 0, Reading(52, 1, 0));
    RunPrefixAsWritten(ds, 2, Reading(52, 1, 0), 48, 1, Reading(0, 2, 1));
    RunPrefixAsWritten(ds, 3, Reading(0, 2, 1), -5, -1, Reading(95, 2, 1));
    RunPrefixAsWritten(ds, 4, Reading(95, 2, 1), 60, 1, Reading(55, 3, 1));
  }

  /** As written, the second test's part 2 is 2, not 4. */
  lemma AsWrittenSecondTest()
    ensures RunMovesAsWritten(START, SECOND_TEST_MOVES).zeroCount == 2
  {
    var ds := SECOND_TEST_MOVES;
    RunPrefixAsWritten(ds, 0, START, -51, -1, Reading(99, 1, 0));
    RunPrefixAsWritten(ds, 1, Reading(99, 1, 0), 2, 1, Reading(1, 2, 0));
    RunPrefixAsWritten(ds, 2, Reading(1, 2, 0), -1, 0, Reading(0, 2, 1));
    RunPrefixAsWritten(ds, 3, Reading(0, 2, 1), 1, 0, Reading(1, 2, 1));
    RunPrefixAsWritten(ds, 4, Reading(1, 2, 1), -1, 0, Reading(0, 2, 2));
    assert ds[..5] == ds;
  }
}
