/**
 * Rock-paper-scissors scoring (day 2). Every line names the elf's shape and a
 * second letter; part one reads the second letter as my shape, part two as
 * the outcome I must reach. A round scores my shape (1, 2 or 3) plus the
 * outcome (0 lost, 3 draw, 6 won), both looked up in row-major 3x3 tables.
 */
module RockPaperScissors {

  import opened Wrappers

  datatype HandShape = Rock | Paper | Scissors

  datatype ExpectedResult = Lose | Draw | Win

  /** Part one or part two: which scoring function `solve` is given. */
  datatype Strategy = Part1 | Part2

  function ShapeIdx(shape: HandShape): nat {
    match shape
    case Rock => 0
    case Paper => 1
    case Scissors => 2
  }

  function ResultIdx(result: ExpectedResult): nat {
    match result
    case Lose => 0
    case Draw => 1
    case Win => 2
  }

  /** The rules of the game, independent of the tables: who beats whom. */
  predicate Beats(a: HandShape, b: HandShape) {
    (a == Rock && b == Scissors) || (a == Paper && b == Rock) || (a == Scissors && b == Paper)
  }

  /** Points for the outcome of a round. */
  function OutcomePoints(result: ExpectedResult): int {
    match result
    case Lose => 0
    case Draw => 3
    case Win => 6
  }

  /** The value of the shape I play. */
  function Score(shape: HandShape): (r: int)
    ensures 1 <= r <= 3
  {
    ShapeIdx(shape) + 1
  }

  /** Outcome points for me; row: the elf's shape, column: mine. */
  const OutcomeTable: seq<int> := [3, 6, 0,
                                   0, 3, 6,
                                   6, 0, 3]

  /** A round: my shape's value plus 3 for a draw, 6 when my shape beats the elf's, 0 otherwise. */
  function ScoreRound(elfShape: HandShape, myShape: HandShape): (r: int)
    ensures r == Score(myShape) + (if elfShape == myShape then 3 else if Beats(myShape, elfShape) then 6 else 0)
    ensures 1 <= r <= 9
  {
    Score(myShape) + OutcomeTable[ShapeIdx(elfShape) * 3 + ShapeIdx(myShape)]
  }

  lemma ScoreRoundExamples()
    ensures ScoreRound(Rock, Rock) == 4 && ScoreRound(Paper, Paper) == 5 && ScoreRound(Scissors, Scissors) == 6
    ensures ScoreRound(Scissors, Rock) == 7 && ScoreRound(Rock, Paper) == 8 && ScoreRound(Paper, Scissors) == 9
    ensures ScoreRound(Paper, Rock) == 1 && ScoreRound(Scissors, Paper) == 2 && ScoreRound(Rock, Scissors) == 3
  {
  }

  /** The letters the strategy guide uses for the elf's shape and for mine. */
  function ElfLetter(shape: HandShape): char {
    match shape
    case Rock => 'A'
    case Paper => 'B'
    case Scissors => 'C'
  }

  function MyLetter(shape: HandShape): char {
    match shape
    case Rock => 'X'
    case Paper => 'Y'
    case Scissors => 'Z'
  }

  function ResultLetter(result: ExpectedResult): char {
    match result
    case Lose => 'X'
    case Draw => 'Y'
    case Win => 'Z'
  }

  /** A shape letter of either column; any other character is rejected. */
  function NewShape(c: char): (r: Option<HandShape>)
    ensures r.Some? <==> c in "ABCXYZ"
    ensures r.Some? ==> c == ElfLetter(r.value) || c == MyLetter(r.value)
  {
    match c
    case 'A' => Some(Rock)
    case 'X' => Some(Rock)
    case 'B' => Some(Paper)
    case 'Y' => Some(Paper)
    case 'C' => Some(Scissors)
    case 'Z' => Some(Scissors)
    case _ => None
  }

  /** A result letter; any other character is rejected. */
  function ExpectedResultOf(c: char): (r: Option<ExpectedResult>)
    ensures r.Some? <==> c in "XYZ"
    ensures r.Some? ==> c == ResultLetter(r.value)
  {
    match c
    case 'X' => Some(Lose)
    case 'Y' => Some(Draw)
    case 'Z' => Some(Win)
    case _ => None
  }

  /** Reading a letter back recovers the shape or result it was written for. */
  lemma LettersRoundTrip(shape: HandShape, result: ExpectedResult)
    ensures NewShape(ElfLetter(shape)) == Some(shape)
    ensures NewShape(MyLetter(shape)) == Some(shape)
    ensures ExpectedResultOf(ResultLetter(result)) == Some(result)
  {
  }

  /** My shape for the wanted result; row: the elf's shape, column: the result. */
  const ShapeTable: seq<HandShape> := [Scissors, Rock, Paper,
                                       Rock, Paper, Scissors,
                                       Paper, Scissors, Rock]

  /** The shape that reaches `result` against the elf: the round then scores exactly that result's points. */
  function DetermineMyShape(elfShape: HandShape, result: ExpectedResult): (r: HandShape)
    ensures ScoreRound(elfShape, r) == Score(r) + OutcomePoints(result)
  {
    ShapeTable[ShapeIdx(elfShape) * 3 + ResultIdx(result)]
  }

  lemma DetermineMyShapeExamples()
    ensures DetermineMyShape(Paper, Lose) == Rock && DetermineMyShape(Scissors, Lose) == Paper && DetermineMyShape(Rock, Lose) == Scissors
    ensures DetermineMyShape(Paper, Draw) == Paper && DetermineMyShape(Scissors, Draw) == Scissors && DetermineMyShape(Rock, Draw) == Rock
    ensures DetermineMyShape(Paper, Win) == Scissors && DetermineMyShape(Scissors, Win) == Rock && DetermineMyShape(Rock, Win) == Paper
  {
  }

  /** No other shape reaches the same result: the choice is forced. */
  lemma DetermineMyShapeUnique(elfShape: HandShape, result: ExpectedResult, other: HandShape)
    requires ScoreRound(elfShape, other) == Score(other) + OutcomePoints(result)
    ensures other == DetermineMyShape(elfShape, result)
  {
  }

  /** The first and third characters of a line; the second is skipped unread. */
  function ParseChars(line: string): (char, char)
    requires |line| >= 3
  {
    (line[0], line[2])
  }

  /** A guide line as written: two letters and a space between them. */
  function FormatLine(first: char, second: char): string {
    [first, ' ', second]
  }

  lemma ParseFormatLine(first: char, second: char)
    ensures ParseChars(FormatLine(first, second)) == (first, second)
  {
  }

  /** Part one's score of a line's two letters: both are shapes. */
  function ScorePart1(elfChar: char, myChar: char): (r: int)
    requires NewShape(elfChar).Some? && NewShape(myChar).Some?
    ensures 1 <= r <= 9
  {
    ScoreRound(NewShape(elfChar).value, NewShape(myChar).value)
  }

  /** Part two's score: the shape reaching the wanted result, plus that result's points. */
  function ScorePart2(elfChar: char, myChar: char): (r: int)
    requires NewShape(elfChar).Some? && ExpectedResultOf(myChar).Some?
    ensures r == Score(DetermineMyShape(NewShape(elfChar).value, ExpectedResultOf(myChar).value))
               + OutcomePoints(ExpectedResultOf(myChar).value)
  {
    var elfShape := NewShape(elfChar).value;
    ScoreRound(elfShape, DetermineMyShape(elfShape, ExpectedResultOf(myChar).value))
  }

  /** A line the chosen strategy can score without panicking. */
  predicate ValidLine(line: string, strategy: Strategy) {
    |line| >= 3 &&
    NewShape(line[0]).Some? &&
    match strategy
    case Part1 => NewShape(line[2]).Some?
    case Part2 => ExpectedResultOf(line[2]).Some?
  }

  function LineScore(line: string, strategy: Strategy): int
    requires ValidLine(line, strategy)
  {
    var (elfChar, myChar) := ParseChars(line);
    match strategy
    case Part1 => ScorePart1(elfChar, myChar)
    case Part2 => ScorePart2(elfChar, myChar)
  }

  /** The total over a guide, summed line by line. */
  function TotalScore(lines: seq<string>, strategy: Strategy): int
    requires forall i :: 0 <= i < |lines| ==> ValidLine(lines[i], strategy)
  {
    if lines == [] then 0
    else TotalScore(lines[..|lines| - 1], strategy) + LineScore(lines[|lines| - 1], strategy)
  }

  /** `solve`: the running total over all lines; every round scores between 1 and 9. */
  method Solve(lines: seq<string>, strategy: Strategy) returns (total: int)
    requires forall i :: 0 <= i < |lines| ==> ValidLine(lines[i], strategy)
    ensures total == TotalScore(lines, strategy)
    ensures |lines| <= total <= 9 * |lines|
  {
    total := 0;
    for i := 0 to |lines|
      invariant total == TotalScore(lines[..i], strategy)
      invariant i <= total <= 9 * i
    {
      assert lines[..i + 1][..i] == lines[..i];
      var (elfChar, myChar) := ParseChars(lines[i]);
      var s := match strategy
        case Part1 => ScorePart1(elfChar, myChar)
        case Part2 => ScorePart2(elfChar, myChar);
      total := total + s;
    }
    assert lines[..|lines|] == lines;
  }
}
