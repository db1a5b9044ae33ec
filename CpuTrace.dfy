/**
 * Cathode-ray tube (day 10). A program of `noop` and `addx v` instructions
 * runs on a CPU with one register X, starting at 1. `noop` takes one cycle,
 * `addx v` two cycles after which X grows by v. The trace holds X at the
 * start (entry 0) and during every cycle (entry c for cycle c). Part one sums
 * the signal strength cycle * X over six sample cycles; part two lights the
 * pixel at column x of a 40-wide row when the three-pixel sprite centred on X
 * covers it.
 */
module CpuTrace {
  import opened Text

  datatype Op = NoOp | AddX(v: int)

  // -------------------------------------------------------------- parsing

  /** What `Op::build` demands to not panic: an `addx` line has a second word that is a number. */
  predicate Buildable(line: string) {
    var parts := Split(line, ' ');
    Contains(line, "addx") ==> |parts| >= 2 && IsInteger(parts[1])
  }

  /** `Op::build`: a line mentioning "addx" adds its second word, every other line is a no-op. */
  function OpBuild(line: string): (op: Op)
    requires Buildable(line)
    ensures op.AddX? <==> Contains(line, "addx")
  {
    if Contains(line, "addx") then AddX(ParseInt(Split(line, ' ')[1])) else NoOp
  }

  /** An instruction as the puzzle input writes it. */
  function FormatOp(op: Op): string {
    match op
    case NoOp => "noop"
    case AddX(v) => "addx " + ShowInt(v)
  }

  /** Building an instruction from its written form gives it back. */
  lemma BuildFormatOp(op: Op)
    ensures Buildable(FormatOp(op))
    ensures OpBuild(FormatOp(op)) == op
  {
    var line := FormatOp(op);
    match op
    case NoOp =>
      ContainsChar(line, 'a');
      ContainsAfter(line, "", "addx");
      assert line + "" == line;
    case AddX(v) =>
      assert OccursAt(line, "addx", 0);
      var parts := ["addx", ShowInt(v)];
      assert Join(parts[1..], ' ') == ShowInt(v);
      assert Join(parts, ' ') == line;
      SplitJoin(parts, ' ');
      ParseShowInt(v);
  }

  /** The two instructions of the unit tests. */
  lemma OpBuildExamples()
    ensures Buildable("addx 42") && OpBuild("addx 42") == AddX(42)
    ensures Buildable("noop") && OpBuild("noop") == NoOp
  {
    assert ShowInt(42) == "42" by {
      assert ShowNat(42) == ShowNat(4) + [DigitChar(2)];
    }
    assert FormatOp(AddX(42)) == "addx 42";
    BuildFormatOp(AddX(42));
    BuildFormatOp(NoOp);
  }

  // --------------------------------------------------------------- the trace

  /** The cycles an instruction takes. */
  function Cycles(op: Op): nat {
    if op.AddX? then 2 else 1
  }

  /** The cycles a program takes. */
  function TotalCycles(ops: seq<Op>): nat {
    if ops == [] then 0 else TotalCycles(ops[..|ops| - 1]) + Cycles(ops[|ops| - 1])
  }

  /** The amount an instruction adds to X once it completes. */
  function Added(op: Op): int {
    if op.AddX? then op.v else 0
  }

  /** X after the whole program has run. */
  function FinalX(ops: seq<Op>): int {
    if ops == [] then 1 else FinalX(ops[..|ops| - 1]) + Added(ops[|ops| - 1])
  }

  /** The trace `run_ops` builds: 1, then X once per cycle of every instruction, as it was when the instruction began. */
  function Trace(ops: seq<Op>): (xs: seq<int>)
    ensures |xs| >= 1
  {
    if ops == [] then [1]
    else
      var init := ops[..|ops| - 1];
      var x := FinalX(init);
      Trace(init) + if ops[|ops| - 1].AddX? then [x, x] else [x]
  }

  /** `run_ops`: pushes X once for a no-op, twice for an addx and only then adds to X. */
  method RunOps(ops: seq<Op>) returns (xs: seq<int>)
    ensures xs == Trace(ops)
  {
    var x := 1;
    xs := [x];
    for i := 0 to |ops|
      invariant x == FinalX(ops[..i]) && xs == Trace(ops[..i])
    {
      assert ops[..i + 1][..i] == ops[..i];
      match ops[i] {
        case AddX(v) =>
          xs := xs + [x];
          xs := xs + [x];
          x := x + v;
        case NoOp =>
          xs := xs + [x];
      }
    }
    assert ops[..|ops|] == ops;
  }

  function NoOps(ops: seq<Op>): nat {
    if ops == [] then 0 else NoOps(ops[..|ops| - 1]) + if ops[|ops| - 1].NoOp? then 1 else 0
  }

  function AddXs(ops: seq<Op>): nat {
    if ops == [] then 0 else AddXs(ops[..|ops| - 1]) + if ops[|ops| - 1].AddX? then 1 else 0
  }

  /** The trace starts at 1 and has one entry per cycle besides it: one per no-op and two per addx. */
  lemma {:induction false} TraceShape(ops: seq<Op>)
    ensures Trace(ops)[0] == 1
    ensures |Trace(ops)| == 1 + TotalCycles(ops) == 1 + NoOps(ops) + 2 * AddXs(ops)
    ensures NoOps(ops) + AddXs(ops) == |ops|
  {
    if ops != [] {
      TraceShape(ops[..|ops| - 1]);
    }
  }

  /**
   * X during cycle `c` (counting from 1), defined by cycles: 1 plus what
   * every instruction that completed before cycle `c` added.
   */
  function XDuring(ops: seq<Op>, c: nat): int {
    if ops == [] then 1
    else
      var init := ops[..|ops| - 1];
      XDuring(init, c) + if TotalCycles(ops) < c then Added(ops[|ops| - 1]) else 0
  }

  /** Once every instruction has completed, X is the final X. */
  lemma {:induction false} XDuringAfterEnd(ops: seq<Op>, c: nat)
    requires c > TotalCycles(ops)
    ensures XDuring(ops, c) == FinalX(ops)
  {
    if ops != [] {
      XDuringAfterEnd(ops[..|ops| - 1], c);
    }
  }

  /**
   * Every trace entry after the first is X during that cycle, so the value
   * X takes after the last instruction completes is never recorded.
   */
  lemma {:induction false} TraceIsRegister(ops: seq<Op>, c: nat)
    requires 1 <= c < |Trace(ops)|
    ensures Trace(ops)[c] == XDuring(ops, c)
  {
    var init := ops[..|ops| - 1];
    TraceShape(init);
    TraceShape(ops);
    if c < |Trace(init)| {
      TraceIsRegister(init, c);
    } else {
      XDuringAfterEnd(init, c);
    }
  }

  /** The small program "noop", "addx 3", "addx -5": X is 1 for three cycles, then 4 for two, and ends at -1. */
  lemma TraceExample(ops: seq<Op>)
    requires ops == [NoOp, AddX(3), AddX(-5)]
    ensures Trace(ops) == [1, 1, 1, 1, 4, 4]
    ensures FinalX(ops) == -1
  {
    assert ops[..2][..1] == [NoOp] && [NoOp][..0] == [];
    assert ops[..2] == [NoOp, AddX(3)];
    assert Trace([NoOp]) == [1, 1];
    assert FinalX([NoOp]) == 1;
    assert Trace(ops[..2]) == [1, 1, 1, 1];
    assert FinalX(ops[..2]) == 4;
  }

  /** The trace of a program that is a prefix of another is a prefix of its trace. */
  lemma {:induction false} TracePrefix(ops: seq<Op>, k: nat)
    requires k <= |ops|
    ensures Trace(ops[..k]) <= Trace(ops)
    decreases |ops|
  {
    if k < |ops| {
      var init := ops[..|ops| - 1];
      assert init[..k] == ops[..k];
      TracePrefix(init, k);
    } else {
      assert ops[..k] == ops;
    }
  }

  // ----------------------------------------------------------- part one

  /** `signal_strength`: the cycle number times the trace entry for it. */
  function SignalStrength(xs: seq<int>, cycle: nat): int
    requires cycle < |xs|
  {
    xs[cycle] * cycle
  }

  /** On a program's trace, the signal strength is the cycle number times X during that cycle. */
  lemma SignalStrengthOfTrace(ops: seq<Op>, cycle: nat)
    requires 1 <= cycle < |Trace(ops)|
    ensures SignalStrength(Trace(ops), cycle) == cycle * XDuring(ops, cycle)
  {
    TraceIsRegister(ops, cycle);
  }

  /** The cycles whose signal strengths part one sums. */
  const SampleCycles: seq<nat> := [20, 60, 100, 140, 180, 220]

  function SumStrengths(xs: seq<int>, cycles: seq<nat>): int
    requires forall i :: 0 <= i < |cycles| ==> cycles[i] < |xs|
  {
    if cycles == [] then 0
    else SumStrengths(xs, cycles[..|cycles| - 1]) + SignalStrength(xs, cycles[|cycles| - 1])
  }

  /** `total_signal_strength`: the signal strengths at cycles 20, 60, 100, 140, 180 and 220, summed. */
  function TotalSignalStrength(xs: seq<int>): int
    requires |xs| > 220
  {
    SumStrengths(xs, SampleCycles)
  }

  /** The sum of `c * X during cycle c` over `cycles`, defined by cycles rather than by the trace. */
  function SumRegister(ops: seq<Op>, cycles: seq<nat>): int {
    if cycles == [] then 0
    else SumRegister(ops, cycles[..|cycles| - 1]) + cycles[|cycles| - 1] * XDuring(ops, cycles[|cycles| - 1])
  }

  /** On a program's trace, summing signal strengths sums each cycle times X during it. */
  lemma {:induction false} SumStrengthsOfTrace(ops: seq<Op>, cycles: seq<nat>)
    requires forall i :: 0 <= i < |cycles| ==> 1 <= cycles[i] < |Trace(ops)|
    ensures SumStrengths(Trace(ops), cycles) == SumRegister(ops, cycles)
  {
    if cycles != [] {
      SumStrengthsOfTrace(ops, cycles[..|cycles| - 1]);
      SignalStrengthOfTrace(ops, cycles[|cycles| - 1]);
    }
  }

  /** Part one's answer for a program that runs past cycle 220: the six sampled cycles, each times X during it. */
  lemma TotalSignalStrengthOfProgram(ops: seq<Op>)
    requires |Trace(ops)| > 220
    ensures TotalSignalStrength(Trace(ops)) ==
            20 * XDuring(ops, 20) + 60 * XDuring(ops, 60) + 100 * XDuring(ops, 100) +
            140 * XDuring(ops, 140) + 180 * XDuring(ops, 180) + 220 * XDuring(ops, 220)
  {
    SumStrengthsOfTrace(ops, SampleCycles);
    var x := (c: nat) => c * XDuring(ops, c);
    assert [20][..0] == [];
    assert SumRegister(ops, [20]) == x(20);
    assert [20, 60][..1] == [20];
    assert SumRegister(ops, [20, 60]) == x(20) + x(60);
    assert [20, 60, 100][..2] == [20, 60];
    assert SumRegister(ops, [20, 60, 100]) == x(20) + x(60) + x(100);
    assert [20, 60, 100, 140][..3] == [20, 60, 100];
    assert SumRegister(ops, [20, 60, 100, 140]) == x(20) + x(60) + x(100) + x(140);
    assert [20, 60, 100, 140, 180][..4] == [20, 60, 100, 140];
    assert SumRegister(ops, [20, 60, 100, 140, 180]) == x(20) + x(60) + x(100) + x(140) + x(180);
    assert SampleCycles[..5] == [20, 60, 100, 140, 180];
  }

  function SumCycles(cycles: seq<nat>): nat {
    if cycles == [] then 0 else SumCycles(cycles[..|cycles| - 1]) + cycles[|cycles| - 1]
  }

  /** Where X holds `v` on every sampled cycle, the sum is `v` times the sum of the cycles. */
  lemma {:induction false} SumStrengthsConstant(xs: seq<int>, cycles: seq<nat>, v: int)
    requires forall i :: 0 <= i < |cycles| ==> cycles[i] < |xs| && xs[cycles[i]] == v
    ensures SumStrengths(xs, cycles) == v * SumCycles(cycles)
  {
    if cycles != [] {
      var init := cycles[..|cycles| - 1];
      SumStrengthsConstant(xs, init, v);
      var c := cycles[|cycles| - 1];
      assert v * SumCycles(cycles) == v * SumCycles(init) + v * c;
    }
  }

  /** A program without addx keeps X at 1 throughout. */
  lemma {:induction false} NoAddXKeepsOne(ops: seq<Op>)
    requires AddXs(ops) == 0
    ensures forall c :: 0 <= c < |Trace(ops)| ==> Trace(ops)[c] == 1
    ensures FinalX(ops) == 1
  {
    if ops != [] {
      NoAddXKeepsOne(ops[..|ops| - 1]);
    }
  }

  /** A program of at least 220 no-ops scores 720, the sum of the sample cycles. */
  lemma NoOpsScore(ops: seq<Op>)
    requires AddXs(ops) == 0 && |ops| >= 220
    ensures |Trace(ops)| > 220 && TotalSignalStrength(Trace(ops)) == 720
  {
    TraceShape(ops);
    NoAddXKeepsOne(ops);
    var xs := Trace(ops);
    assert forall i :: 0 <= i < |SampleCycles| ==> SampleCycles[i] <= 220;
    SumStrengthsConstant(xs, SampleCycles, 1);
    SampleCyclesSum();
  }

  lemma SampleCyclesSum()
    ensures SumCycles(SampleCycles) == 720
  {
    assert SumCycles([]) == 0;
    assert [20][..0] == [];
    assert SumCycles([20]) == 20;
    assert [20, 60][..1] == [20];
    assert SumCycles([20, 60]) == 80;
    assert [20, 60, 100][..2] == [20, 60];
    assert SumCycles([20, 60, 100]) == 180;
    assert [20, 60, 100, 140][..3] == [20, 60, 100];
    assert SumCycles([20, 60, 100, 140]) == 320;
    assert [20, 60, 100, 140, 180][..4] == [20, 60, 100, 140];
    assert SumCycles([20, 60, 100, 140, 180]) == 500;
    assert SampleCycles[..5] == [20, 60, 100, 140, 180];
  }

  // ----------------------------------------------------------- part two

  const Width: nat := 40
  const Height: nat := 6

  /** The trace `draw` expects: the initial entry and one per pixel. */
  predicate IsScreenTrace(xs: seq<int>) {
    |xs| == 1 + Height * Width
  }

  /** The pixel predicate of `draw`: the pixel is lit when X during its cycle is within one of its column. */
  predicate PixelLit(xs: seq<int>, x: nat, y: nat)
    requires IsScreenTrace(xs) && x < Width && y < Height
  {
    var sprite := xs[y * Width + x + 1];
    sprite - 1 <= x && sprite + 1 >= x
  }

  /** The rows `draw` prints, '#' for a lit pixel and '.' for a dark one. */
  function Screen(xs: seq<int>): (rows: seq<string>)
    requires IsScreenTrace(xs)
    ensures |rows| == Height
    ensures forall y :: 0 <= y < Height ==> |rows[y]| == Width
    ensures forall y, x :: 0 <= y < Height && 0 <= x < Width ==> (rows[y][x] == '#' <==> PixelLit(xs, x, y))
    ensures forall y, x :: 0 <= y < Height && 0 <= x < Width ==> rows[y][x] in "#."
  {
    seq(Height, y requires 0 <= y < Height =>
      seq(Width, x requires 0 <= x < Width => if PixelLit(xs, x, y) then '#' else '.'))
  }

  /** On a program's trace the pixel at (x, y) is drawn in cycle 40y + x + 1 and lit when X then is within one of x. */
  lemma PixelOfProgram(ops: seq<Op>, x: nat, y: nat)
    requires IsScreenTrace(Trace(ops)) && x < Width && y < Height
    ensures PixelLit(Trace(ops), x, y) <==> -1 <= XDuring(ops, y * Width + x + 1) - x <= 1
  {
    TraceIsRegister(ops, y * Width + x + 1);
  }

  /** A program that draws the screen takes exactly 240 cycles. */
  lemma ScreenProgramCycles(ops: seq<Op>)
    ensures IsScreenTrace(Trace(ops)) <==> TotalCycles(ops) == Height * Width
  {
    TraceShape(ops);
  }
}
