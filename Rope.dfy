/**
 * Rope bridge (day 9). A rope of knots starts with every knot at the origin.
 * Each move steps the head one unit at a time in its direction; after every
 * unit step each following knot catches up with the knot before it, and the
 * position of the last knot is recorded. The answer is the number of distinct
 * positions the last knot has visited.
 */
module Rope {
  import opened Text

  datatype Direction = Up | Down | Left | Right

  /** `num` unit steps in direction `dir`. */
  datatype Move = Move(dir: Direction, num: int)

  datatype Point = Point(x: int, y: int)

  const Origin := Point(0, 0)

  function Abs(v: int): nat {
    if v < 0 then -v else v
  }

  /** `i32::signum`. */
  function Signum(v: int): (r: int)
    ensures -1 <= r <= 1 && r * v >= 0 && (r == 0 <==> v == 0)
  {
    if v > 0 then 1 else if v < 0 then -1 else 0
  }

  // -------------------------------------------------------------- parsing

  /** The direction letter of `Move::build`: any letter other than U, D, L or R means up. */
  function DirectionOf(c: char): Direction {
    match c
    case 'U' => Up
    case 'D' => Down
    case 'L' => Left
    case 'R' => Right
    case _ => Up
  }

  function Letter(d: Direction): char {
    match d
    case Up => 'U'
    case Down => 'D'
    case Left => 'L'
    case Right => 'R'
  }

  /** Every direction has its own letter, and every other letter is read as up. */
  lemma DirectionLetters(d: Direction, c: char)
    ensures DirectionOf(Letter(d)) == d
    ensures c !in "UDLR" ==> DirectionOf(c) == Up
  {
  }

  /**
   * What `Move::build` demands to not panic: a direction word one byte long
   * in UTF-8, so one character below U+0080, then a count.
   */
  predicate Buildable(line: string) {
    var parts := Split(line, ' ');
    |parts| >= 2 && |parts[0]| == 1 && (parts[0][0] as int) < 0x80 && IsInteger(parts[1])
  }

  /** A direction letter that takes two bytes in UTF-8, as in "é 4", fails the length check. */
  lemma MultiByteLetterRejected(line: string)
    requires line == "\U{E9} 4"
    ensures !Buildable(line)
  {
    var parts := Split(line, ' ');
    assert parts[0] == "\U{E9}" by {
      SplitPrefix("\U{E9}", " 4", ' ');
      assert Split(" 4", ' ')[0] == "";
    }
  }

  /** `Move::build`: the direction from the first letter, the count from the second word. */
  function MoveBuild(line: string): (m: Move)
    requires Buildable(line)
    ensures m.dir == DirectionOf(line[0])
  {
    var parts := Split(line, ' ');
    assert parts[0][0] == line[0] by { SplitFirst(line, ' '); }
    Move(DirectionOf(parts[0][0]), ParseInt(parts[1]))
  }

  /** The first piece of a split is a prefix of the string. */
  lemma {:induction false} SplitFirst(s: string, sep: char)
    ensures |Split(s, sep)[0]| <= |s| && Split(s, sep)[0] == s[..|Split(s, sep)[0]|]
  {
    if |s| > 0 && s[0] != sep {
      SplitFirst(s[1..], sep);
    }
  }

  /** A move as the puzzle input writes it. */
  function FormatMove(m: Move): string {
    [Letter(m.dir)] + " " + ShowInt(m.num)
  }

  /** Building a move from its written form gives the move back. */
  lemma BuildFormatMove(m: Move)
    ensures Buildable(FormatMove(m))
    ensures MoveBuild(FormatMove(m)) == m
  {
    var parts := [[Letter(m.dir)], ShowInt(m.num)];
    assert Join(parts[1..], ' ') == ShowInt(m.num);
    assert Join(parts, ' ') == FormatMove(m);
    SplitJoin(parts, ' ');
    ParseShowInt(m.num);
  }

  /** The two moves of the unit tests. */
  lemma MoveBuildExamples()
    ensures Buildable("U 4") && MoveBuild("U 4") == Move(Up, 4)
    ensures Buildable("D 12") && MoveBuild("D 12") == Move(Down, 12)
  {
    assert ShowInt(4) == "4";
    assert FormatMove(Move(Up, 4)) == "U 4";
    BuildFormatMove(Move(Up, 4));
    assert ShowInt(12) == "12" by {
      assert ShowNat(12) == ShowNat(1) + [DigitChar(2)];
    }
    assert FormatMove(Move(Down, 12)) == "D 12";
    BuildFormatMove(Move(Down, 12));
  }

  // ---------------------------------------------------------- one knot

  /** Two knots touch when they are at most one apart in each coordinate. */
  predicate Touching(a: Point, b: Point) {
    Abs(a.x - b.x) <= 1 && Abs(a.y - b.y) <= 1
  }

  /** The point one unit step away in direction `d`. */
  function Stepped(p: Point, d: Direction): (q: Point)
    ensures Abs(q.x - p.x) + Abs(q.y - p.y) == 1
    ensures q.x == p.x <==> d == Up || d == Down
    ensures q.y > p.y <==> d == Up
    ensures q.x > p.x <==> d == Right
  {
    match d
    case Up => p.(y := p.y + 1)
    case Down => p.(y := p.y - 1)
    case Left => p.(x := p.x - 1)
    case Right => p.(x := p.x + 1)
  }

  /** `move_head`: steps the knot at `i` one unit in the move's direction. */
  method MoveHead(mov: Move, knots: array<Point>, i: nat)
    requires i < knots.Length
    modifies knots
    ensures knots[..] == old(knots[..])[i := Stepped(old(knots[i]), mov.dir)]
  {
    match mov.dir {
      case Up => knots[i] := knots[i].(y := knots[i].y + 1);
      case Down => knots[i] := knots[i].(y := knots[i].y - 1);
      case Left => knots[i] := knots[i].(x := knots[i].x - 1);
      case Right => knots[i] := knots[i].(x := knots[i].x + 1);
    }
  }

  /** Where the tail `t` goes when the knot before it is at `h`. */
  function Follow(h: Point, t: Point): (r: Point)
    ensures Touching(h, t) ==> r == t
    ensures Touching(r, t)
    ensures r.x == t.x || r.x == t.x + Signum(h.x - t.x)
    ensures r.y == t.y || r.y == t.y + Signum(h.y - t.y)
  {
    var dx, dy := h.x - t.x, h.y - t.y;
    if Abs(dx) + Abs(dy) >= 3 then Point(t.x + Signum(dx), t.y + Signum(dy))
    else if Abs(dx) >= 2 then t.(x := t.x + Signum(dx))
    else if Abs(dy) >= 2 then t.(y := t.y + Signum(dy))
    else t
  }

  /** A tail at most two away in each coordinate touches its knot again after following. */
  lemma FollowCatchesUp(h: Point, t: Point)
    requires Abs(h.x - t.x) <= 2 && Abs(h.y - t.y) <= 2
    ensures Touching(h, Follow(h, t))
  {
  }

  /** A tail that does not touch its knot moves, and never onto the knot itself. */
  lemma FollowApproaches(h: Point, t: Point)
    ensures !Touching(h, t) ==> Follow(h, t) != t && Follow(h, t) != h
  {
  }

  /** `move_tail`: the knot at `i` follows the knot at `i - 1`. */
  method MoveTail(knots: array<Point>, i: nat)
    requires 1 <= i < knots.Length
    modifies knots
    ensures knots[..] == old(knots[..])[i := Follow(old(knots[i - 1]), old(knots[i]))]
  {
    var h, t := knots[i - 1], knots[i];
    var dx, dy := h.x - t.x, h.y - t.y;
    if Abs(dx) + Abs(dy) >= 3 {
      knots[i] := Point(t.x + Signum(dx), t.y + Signum(dy));
    } else if Abs(dx) >= 2 {
      knots[i] := t.(x := t.x + Signum(dx));
    } else if Abs(dy) >= 2 {
      knots[i] := t.(y := t.y + Signum(dy));
    }
  }

  // ---------------------------------------------------------- the rope

  /** Every knot touches the knot before it. */
  predicate Connected(knots: seq<Point>) {
    forall i :: 1 <= i < |knots| ==> Touching(knots[i - 1], knots[i])
  }

  /** The knots after knots 1 to `k - 1` have followed their predecessors, in order. */
  function Pulled(knots: seq<Point>, k: nat): (r: seq<Point>)
    requires 1 <= k <= |knots|
    ensures |r| == |knots| && r[0] == knots[0]
  {
    if k == 1 then knots
    else
      var p := Pulled(knots, k - 1);
      p[k - 1 := Follow(p[k - 2], p[k - 1])]
  }

  /** One unit step of the whole rope: the head steps, then every knot follows in turn. */
  function RopeStep(knots: seq<Point>, d: Direction): (r: seq<Point>)
    requires |knots| >= 1
    ensures |r| == |knots|
    ensures r[0] == Stepped(knots[0], d)
  {
    Pulled(knots[0 := Stepped(knots[0], d)], |knots|)
  }

  /** While pulling, the knots pulled so far touch, the rest are untouched, and the last one pulled moved at most one per coordinate. */
  lemma {:induction false} PulledInvariant(knots: seq<Point>, d: Direction, k: nat)
    requires 1 <= k <= |knots| && Connected(knots)
    ensures var p := Pulled(knots[0 := Stepped(knots[0], d)], k);
      && (forall i :: 1 <= i < k ==> Touching(p[i - 1], p[i]))
      && (forall i :: k <= i < |knots| ==> p[i] == knots[i])
      && Touching(p[k - 1], knots[k - 1])
  {
    var start := knots[0 := Stepped(knots[0], d)];
    if k > 1 {
      PulledInvariant(knots, d, k - 1);
      var p := Pulled(start, k - 1);
      assert Touching(knots[k - 2], knots[k - 1]);
      FollowCatchesUp(p[k - 2], p[k - 1]);
    }
  }

  /** A step of the rope keeps every knot touching the knot before it. */
  lemma RopeStepKeepsConnected(knots: seq<Point>, d: Direction)
    requires |knots| >= 1 && Connected(knots)
    ensures Connected(RopeStep(knots, d))
  {
    PulledInvariant(knots, d, |knots|);
  }

  /** `0..num` is empty for a count below one. */
  function StepCount(num: int): nat {
    if num < 0 then 0 else num
  }

  /** The knots and the positions the last knot has visited. */
  datatype State = State(knots: seq<Point>, visited: set<Point>)

  function Last(knots: seq<Point>): Point
    requires |knots| >= 1
  {
    knots[|knots| - 1]
  }

  /** `n` unit steps in direction `d`, recording the last knot after each. */
  function Steps(s: State, d: Direction, n: nat): (r: State)
    requires |s.knots| >= 1
    ensures |r.knots| == |s.knots|
  {
    if n == 0 then s
    else
      var prev := Steps(s, d, n - 1);
      var knots := RopeStep(prev.knots, d);
      State(knots, prev.visited + {Last(knots)})
  }

  /** A rope of `numKnots` knots at the origin, with the origin visited. */
  function Initial(numKnots: nat): State {
    State(seq(numKnots, _ => Origin), {Origin})
  }

  /** The state after all the moves, each taken as its count of unit steps. */
  function Simulate(moves: seq<Move>, numKnots: nat): (r: State)
    requires numKnots >= 1
    ensures |r.knots| == numKnots
  {
    if moves == [] then Initial(numKnots)
    else
      var mov := moves[|moves| - 1];
      Steps(Simulate(moves[..|moves| - 1], numKnots), mov.dir, StepCount(mov.num))
  }

  /** One unit step of the rope stored in `knots`. */
  method StepRope(mov: Move, knots: array<Point>)
    requires knots.Length >= 1
    modifies knots
    ensures knots[..] == RopeStep(old(knots[..]), mov.dir)
  {
    ghost var start := old(knots[..])[0 := Stepped(old(knots[0]), mov.dir)];
    MoveHead(mov, knots, 0);
    for i := 1 to knots.Length
      invariant knots[..] == Pulled(start, i)
    {
      MoveTail(knots, i);
    }
  }

  /** The body of `solve`'s loop over the moves: `num` unit steps, recording the last knot after each. */
  method MoveRope(mov: Move, heads: array<Point>, tails: set<Point>) returns (visited: set<Point>)
    requires heads.Length >= 1
    modifies heads
    ensures State(heads[..], visited) == Steps(State(old(heads[..]), tails), mov.dir, StepCount(mov.num))
  {
    ghost var before := State(heads[..], tails);
    visited := tails;
    for j := 0 to StepCount(mov.num)
      invariant heads[..] == Steps(before, mov.dir, j).knots
      invariant visited == Steps(before, mov.dir, j).visited
    {
      StepRope(mov, heads);
      visited := visited + {heads[heads.Length - 1]};
    }
  }

  /** `solve`: the number of distinct positions the last of `numKnots` knots visits. */
  method Solve(moves: seq<Move>, numKnots: nat) returns (count: nat)
    requires numKnots >= 1
    ensures count == |Simulate(moves, numKnots).visited|
  {
    var tails: set<Point> := {Origin};
    var heads := new Point[numKnots](_ => Origin);
    assert heads[..] == Initial(numKnots).knots;
    for m := 0 to |moves|
      invariant State(heads[..], tails) == Simulate(moves[..m], numKnots)
    {
      tails := MoveRope(moves[m], heads, tails);
      assert moves[..m + 1][..m] == moves[..m];
    }
    assert moves[..|moves|] == moves;
    count := |tails|;
  }


  // ------------------------------------------------------- properties

  /** Unit steps only add visited positions, at most one each, and record where the last knot ends. */
  lemma {:induction false} StepsVisit(s: State, d: Direction, n: nat)
    requires |s.knots| >= 1
    ensures s.visited <= Steps(s, d, n).visited
    ensures n > 0 ==> Last(Steps(s, d, n).knots) in Steps(s, d, n).visited
    ensures |Steps(s, d, n).visited| <= |s.visited| + n
  {
    if n > 0 {
      StepsVisit(s, d, n - 1);
      var prev := Steps(s, d, n - 1);
      var knots := RopeStep(prev.knots, d);
      assert |prev.visited + {Last(knots)}| <= |prev.visited| + 1;
    }
  }

  /** Unit steps keep the rope connected. */
  lemma {:induction false} StepsConnected(s: State, d: Direction, n: nat)
    requires |s.knots| >= 1 && Connected(s.knots)
    ensures Connected(Steps(s, d, n).knots)
  {
    if n > 0 {
      StepsConnected(s, d, n - 1);
      RopeStepKeepsConnected(Steps(s, d, n - 1).knots, d);
    }
  }

  /** `n` unit steps take the head `n` units along. */
  lemma {:induction false} StepsMoveHead(s: State, d: Direction, n: nat)
    requires |s.knots| >= 1
    ensures Steps(s, d, n).knots[0] == Travel(s.knots[0], d, n)
  {
    if n > 0 {
      StepsMoveHead(s, d, n - 1);
    }
  }

  /** The point `n` units away in direction `d`. */
  function Travel(p: Point, d: Direction, n: nat): Point {
    match d
    case Up => p.(y := p.y + n)
    case Down => p.(y := p.y - n)
    case Left => p.(x := p.x - n)
    case Right => p.(x := p.x + n)
  }

  /** The total number of unit steps of a list of moves. */
  function TotalSteps(moves: seq<Move>): nat {
    if moves == [] then 0 else TotalSteps(moves[..|moves| - 1]) + StepCount(moves[|moves| - 1].num)
  }

  /**
   * After any list of moves the knots touch, the origin and the last knot's
   * position are visited, and at most one new position per unit step is.
   */
  lemma {:induction false} SimulateFacts(moves: seq<Move>, numKnots: nat)
    requires numKnots >= 1
    ensures var r := Simulate(moves, numKnots);
      && Connected(r.knots)
      && Origin in r.visited
      && Last(r.knots) in r.visited
      && 1 <= |r.visited| <= 1 + TotalSteps(moves)
  {
    if moves != [] {
      var mov := moves[|moves| - 1];
      var prev := Simulate(moves[..|moves| - 1], numKnots);
      SimulateFacts(moves[..|moves| - 1], numKnots);
      StepsVisit(prev, mov.dir, StepCount(mov.num));
      StepsConnected(prev, mov.dir, StepCount(mov.num));
    } else {
      assert Last(Initial(numKnots).knots) == Origin;
    }
  }

  /** The visited positions of a prefix of the moves are visited after all of them. */
  lemma {:induction false} VisitedGrows(moves: seq<Move>, numKnots: nat, k: nat)
    requires numKnots >= 1 && k <= |moves|
    ensures Simulate(moves[..k], numKnots).visited <= Simulate(moves, numKnots).visited
    decreases |moves|
  {
    if k < |moves| {
      var init := moves[..|moves| - 1];
      assert init[..k] == moves[..k];
      VisitedGrows(init, numKnots, k);
      StepsVisit(Simulate(init, numKnots), moves[|moves| - 1].dir, StepCount(moves[|moves| - 1].num));
    } else {
      assert moves[..k] == moves;
    }
  }

  /** A move takes the head exactly its count of units in its direction. */
  lemma HeadTravels(moves: seq<Move>, numKnots: nat)
    requires numKnots >= 1 && moves != []
    ensures var mov := moves[|moves| - 1];
      Simulate(moves, numKnots).knots[0] == Travel(Simulate(moves[..|moves| - 1], numKnots).knots[0], mov.dir, StepCount(mov.num))
  {
    var init := moves[..|moves| - 1];
    StepsMoveHead(Simulate(init, numKnots), moves[|moves| - 1].dir, StepCount(moves[|moves| - 1].num));
  }

  /** `solve` answers at least one, since the origin is always visited. */
  lemma SolveAtLeastOne(moves: seq<Move>, numKnots: nat)
    requires numKnots >= 1
    ensures |Simulate(moves, numKnots).visited| >= 1
  {
    SimulateFacts(moves, numKnots);
  }

  lemma PullTwo(knots: seq<Point>)
    requires |knots| == 2
    ensures Pulled(knots, 2) == [knots[0], Follow(knots[0], knots[1])]
  {
  }

  /** Two steps right with two knots: the tail visits the origin and (1, 0). */
  lemma TwoStepsRight()
    ensures Simulate([Move(Right, 2)], 2).visited == {Origin, Point(1, 0)}
  {
    var s0 := Initial(2);
    assert [Move(Right, 2)][..0] == [];
    assert s0.knots == [Origin, Origin];
    assert s0.knots[0 := Stepped(s0.knots[0], Right)] == [Point(1, 0), Origin];
    PullTwo([Point(1, 0), Origin]);
    assert RopeStep(s0.knots, Right) == [Point(1, 0), Origin];
    var s1 := Steps(s0, Right, 1);
    assert s1.knots == [Point(1, 0), Origin];
    assert s1.knots[0 := Stepped(s1.knots[0], Right)] == [Point(2, 0), Origin];
    PullTwo([Point(2, 0), Origin]);
    assert RopeStep(s1.knots, Right) == [Point(2, 0), Point(1, 0)];
  }
}
