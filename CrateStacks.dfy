/**
 * Supply stacks (day 5). The drawing of the stacks is parsed column by
 * column into a vector of stacks, bottom crate first; then every move line
 * takes crates from the top of one stack to the top of another, either one
 * crate at a time (which reverses them) or as one block (which keeps their
 * order). The answer is the top crate of every non-empty stack, in order.
 */
module CrateStacks {
  import opened Wrappers
  import opened Text
  import opened Seqs

  datatype Crate = Crate(name: char)

  /** The stacks, indexed from 0; each lists its crates from the bottom up. */
  type Stacks = seq<seq<Crate>>

  // ------------------------------------------------------ the stack numbers

  /** The number of tokens that parse as unsigned numbers. */
  function CountNumbers(tokens: seq<string>): (n: nat)
    ensures n <= |tokens|
  {
    if tokens == [] then 0
    else CountNumbers(tokens[..|tokens| - 1]) + if IsUnsigned(tokens[|tokens| - 1]) then 1 else 0
  }

  /** `parse_num_stacks`: how many of the space-separated tokens of the number line are numbers. */
  function ParseNumStacks(line: string): nat {
    CountNumbers(Split(line, ' '))
  }

  /** A line made of space-free tokens joined by single spaces counts the tokens that are numbers. */
  lemma ParseNumStacksJoin(tokens: seq<string>)
    requires |tokens| >= 1 && forall i :: 0 <= i < |tokens| ==> ' ' !in tokens[i]
    ensures ParseNumStacks(Join(tokens, ' ')) == CountNumbers(tokens)
  {
    SplitJoin(tokens, ' ');
  }

  /** The number line " 1 21 42    5  60 " has five stack numbers. */
  lemma ParseNumStacksExample(line: string)
    requires line == " 1 21 42    5  60 "
    ensures ParseNumStacks(line) == 5
  {
    var tokens := ["", "1", "21", "42", "", "", "", "5", "", "60", ""];
    ExampleTokensJoin(tokens, line);
    CountExampleTokens(tokens);
    assert ParseNumStacks(line) == CountNumbers(tokens) by { ParseNumStacksJoin(tokens); }
  }

  lemma ExampleTokensJoin(tokens: seq<string>, line: string)
    requires tokens == ["", "1", "21", "42", "", "", "", "5", "", "60", ""]
    requires line == " 1 21 42    5  60 "
    ensures Join(tokens, ' ') == line
  {
    var head, tail := tokens[..4], tokens[4..];
    ExampleTailJoin(tail);
    assert Join(head[3..], ' ') == "42";
    assert Join(head[2..], ' ') == "21 42";
    assert Join(head[1..], ' ') == "1 21 42";
    assert Join(head, ' ') == " 1 21 42";
    JoinAppend(head, tail, ' ');
    assert tokens == head + tail;
  }

  lemma ExampleTailJoin(tail: seq<string>)
    requires tail == ["", "", "", "5", "", "60", ""]
    ensures Join(tail, ' ') == "   5  60 "
  {
    assert Join(tail[6..], ' ') == "";
    assert Join(tail[5..], ' ') == "60 ";
    assert Join(tail[4..], ' ') == " 60 ";
    assert Join(tail[3..], ' ') == "5  60 ";
    assert Join(tail[2..], ' ') == " 5  60 ";
    assert Join(tail[1..], ' ') == "  5  60 ";
  }

  /** The number line of the drawing test, " 1   2   3 ", has three stack numbers. */
  lemma ThreeStacksExample(line: string)
    requires line == " 1   2   3 "
    ensures ParseNumStacks(line) == 3
  {
    var tokens := ["", "1", "", "", "2", "", "", "3", ""];
    ThreeStacksJoin(tokens, line);
    CountThreeStacksTokens(tokens);
    assert ParseNumStacks(line) == CountNumbers(tokens) by { ParseNumStacksJoin(tokens); }
  }

  lemma ThreeStacksJoin(tokens: seq<string>, line: string)
    requires tokens == ["", "1", "", "", "2", "", "", "3", ""]
    requires line == " 1   2   3 "
    ensures Join(tokens, ' ') == line
  {
    assert Join(tokens[8..], ' ') == "";
    assert Join(tokens[7..], ' ') == "3 ";
    assert Join(tokens[6..], ' ') == " 3 ";
    assert Join(tokens[5..], ' ') == "  3 ";
    assert Join(tokens[4..], ' ') == "2   3 ";
    assert Join(tokens[3..], ' ') == " 2   3 ";
    assert Join(tokens[2..], ' ') == "  2   3 ";
    assert Join(tokens[1..], ' ') == "1   2   3 ";
  }

  lemma CountThreeStacksTokens(tokens: seq<string>)
    requires tokens == ["", "1", "", "", "2", "", "", "3", ""]
    ensures forall i :: 0 <= i < |tokens| ==> ' ' !in tokens[i]
    ensures CountNumbers(tokens) == 3
  {
    assert CountNumbers(tokens[..1]) == 0 by { assert tokens[..1][..0] == []; assert !IsUnsigned(tokens[0]); }
    assert CountNumbers(tokens[..2]) == 1 by { assert tokens[..2][..1] == tokens[..1]; assert IsUnsigned(tokens[1]); }
    assert CountNumbers(tokens[..3]) == 1 by { assert tokens[..3][..2] == tokens[..2]; assert !IsUnsigned(tokens[2]); }
    assert CountNumbers(tokens[..4]) == 1 by { assert tokens[..4][..3] == tokens[..3]; assert !IsUnsigned(tokens[3]); }
    assert CountNumbers(tokens[..5]) == 2 by { assert tokens[..5][..4] == tokens[..4]; assert IsUnsigned(tokens[4]); }
    assert CountNumbers(tokens[..6]) == 2 by { assert tokens[..6][..5] == tokens[..5]; assert !IsUnsigned(tokens[5]); }
    assert CountNumbers(tokens[..7]) == 2 by { assert tokens[..7][..6] == tokens[..6]; assert !IsUnsigned(tokens[6]); }
    assert CountNumbers(tokens[..8]) == 3 by { assert tokens[..8][..7] == tokens[..7]; assert IsUnsigned(tokens[7]); }
    assert CountNumbers(tokens[..9]) == 3 by { assert tokens[..9][..8] == tokens[..8]; assert !IsUnsigned(tokens[8]); }
    assert tokens[..9] == tokens;
  }

  lemma CountExampleTokens(tokens: seq<string>)
    requires tokens == ["", "1", "21", "42", "", "", "", "5", "", "60", ""]
    ensures forall i :: 0 <= i < |tokens| ==> ' ' !in tokens[i]
    ensures CountNumbers(tokens) == 5
  {
    assert CountNumbers(tokens[..0]) == 0;
    assert CountNumbers(tokens[..1]) == 0 by { assert tokens[..1][..0] == tokens[..0]; assert !IsUnsigned(tokens[0]); }
    assert CountNumbers(tokens[..2]) == 1 by { assert tokens[..2][..1] == tokens[..1]; assert IsUnsigned(tokens[1]); }
    assert CountNumbers(tokens[..3]) == 2 by { assert tokens[..3][..2] == tokens[..2]; assert IsUnsigned(tokens[2]); }
    assert CountNumbers(tokens[..4]) == 3 by { assert tokens[..4][..3] == tokens[..3]; assert IsUnsigned(tokens[3]); }
    assert CountNumbers(tokens[..5]) == 3 by { assert tokens[..5][..4] == tokens[..4]; assert !IsUnsigned(tokens[4]); }
    assert CountNumbers(tokens[..6]) == 3 by { assert tokens[..6][..5] == tokens[..5]; assert !IsUnsigned(tokens[5]); }
    assert CountNumbers(tokens[..7]) == 3 by { assert tokens[..7][..6] == tokens[..6]; assert !IsUnsigned(tokens[6]); }
    assert CountNumbers(tokens[..8]) == 4 by { assert tokens[..8][..7] == tokens[..7]; assert IsUnsigned(tokens[7]); }
    assert CountNumbers(tokens[..9]) == 4 by { assert tokens[..9][..8] == tokens[..8]; assert !IsUnsigned(tokens[8]); }
    assert CountNumbers(tokens[..10]) == 5 by { assert tokens[..10][..9] == tokens[..9]; assert IsUnsigned(tokens[9]); }
    assert CountNumbers(tokens[..11]) == 5 by { assert tokens[..11][..10] == tokens[..10]; assert !IsUnsigned(tokens[10]); }
    assert tokens[..11] == tokens;
  }

  // ---------------------------------------------------------- the drawing

  /** Line `line` draws a crate on stack `i`: "[x]" starts at column 4i and fits on the line. */
  predicate HasCrate(line: string, i: nat) {
    4 * i + 3 <= |line| && line[4 * i] == '['
  }

  /** `Crate::build`: the character after the opening bracket. */
  function CrateBuild(text: string): Crate
    requires |text| >= 2
  {
    Crate(text[1])
  }

  /** The crate, if any, that a line draws on stack `i`. */
  function Drawn(line: string, i: nat): (cs: seq<Crate>)
    ensures |cs| <= 1
  {
    if HasCrate(line, i) then [CrateBuild(line[4 * i..4 * i + 3])] else []
  }

  /** Stack `i` after reading `lines` from the top: each line's crate goes underneath the ones read before it. */
  function Column(lines: seq<string>, i: nat): seq<Crate> {
    if lines == [] then [] else Drawn(lines[|lines| - 1], i) + Column(lines[..|lines| - 1], i)
  }

  /** The crates drawn on stack `i`, as the drawing shows them from the top down. */
  function TopDown(lines: seq<string>, i: nat): seq<Crate> {
    if lines == [] then [] else Drawn(lines[0], i) + TopDown(lines[1..], i)
  }

  lemma {:induction false} TopDownSnoc(lines: seq<string>, line: string, i: nat)
    ensures TopDown(lines + [line], i) == TopDown(lines, i) + Drawn(line, i)
  {
    if lines == [] {
      assert lines + [line] == [line];
    } else {
      assert (lines + [line])[1..] == lines[1..] + [line];
      TopDownSnoc(lines[1..], line, i);
    }
  }

  /** Every stack holds its drawn crates upside down: the topmost drawn crate ends up last, on top. */
  lemma {:induction false} ColumnIsTopDownReversed(lines: seq<string>, i: nat)
    ensures Column(lines, i) == Reverse(TopDown(lines, i))
  {
    if lines != [] {
      var init, last := lines[..|lines| - 1], lines[|lines| - 1];
      ColumnIsTopDownReversed(init, i);
      assert init + [last] == lines;
      TopDownSnoc(init, last, i);
      ReverseConcat(TopDown(init, i), Drawn(last, i));
      assert Reverse(Drawn(last, i)) == Drawn(last, i);
    }
  }

  /** The inner loop of `parse_stacks`: every crate the line draws goes underneath its stack. */
  method PutUnderneath(stacks: array<seq<Crate>>, chars: string)
    modifies stacks
    ensures forall i :: 0 <= i < stacks.Length ==> stacks[i] == Drawn(chars, i) + old(stacks[i])
  {
    for i := 0 to stacks.Length
      invariant forall j :: 0 <= j < i ==> stacks[j] == Drawn(chars, j) + old(stacks[j])
      invariant forall j :: i <= j < stacks.Length ==> stacks[j] == old(stacks[j])
    {
      var startIdx := i * 4;
      var endIdx := (i + 1) * 4 - 1;
      if endIdx <= |chars| && chars[startIdx] == '[' {
        stacks[i] := [CrateBuild(chars[startIdx..endIdx])] + stacks[i];
      }
    }
  }

  /** `parse_stacks`: one empty stack per number on the last line, then every line puts its crates underneath. */
  method ParseStacks(lines: seq<string>) returns (stacks: array<seq<Crate>>)
    requires |lines| >= 1
    ensures fresh(stacks)
    ensures stacks.Length == ParseNumStacks(lines[|lines| - 1])
    ensures forall i :: 0 <= i < stacks.Length ==> stacks[i] == Column(lines, i)
  {
    var numStacks := ParseNumStacks(lines[|lines| - 1]);
    stacks := new seq<Crate>[numStacks](_ => []);
    for k := 0 to |lines|
      invariant stacks.Length == numStacks
      invariant forall i :: 0 <= i < numStacks ==> stacks[i] == Column(lines[..k], i)
    {
      assert lines[..k + 1][..k] == lines[..k];
      PutUnderneath(stacks, lines[k]);
    }
    assert lines[..|lines|] == lines;
  }

  // ---------------------------------------------------------------- moves

  /** Part one moves crates one at a time, part two as a block. */
  datatype MoveType = Pt1 | Pt2

  /** A move of `num` crates from stack `src` to stack `dst`, both counted from 0. */
  datatype Move = Move(src: nat, dst: nat, num: nat, kind: MoveType)

  /** What `Move::build` demands: six tokens, numbers at positions 1, 3 and 5, stack numbers from 1. */
  predicate Buildable(line: string) {
    var t := Split(line, ' ');
    |t| >= 6 && IsUnsigned(t[1]) && IsUnsigned(t[3]) && IsUnsigned(t[5]) &&
    ParseUnsigned(t[3]) >= 1 && ParseUnsigned(t[5]) >= 1
  }

  /** `Move::build`: "move N from S to D", with the 1-based stack numbers made 0-based. */
  function MoveBuild(line: string, kind: MoveType): Move
    requires Buildable(line)
  {
    var t := Split(line, ' ');
    Move(ParseUnsigned(t[3]) - 1, ParseUnsigned(t[5]) - 1, ParseUnsigned(t[1]), kind)
  }

  lemma NoSpaceInDigits(s: string)
    requires IsDigits(s)
    ensures ' ' !in s
  {
  }

  /** The six words of a written move line, with 1-based stack numbers. */
  function MoveTokens(m: Move): seq<string> {
    ["move", ShowNat(m.num), "from", ShowNat(m.src + 1), "to", ShowNat(m.dst + 1)]
  }

  /** A move line as the puzzle input writes it: its six words separated by single spaces. */
  function FormatMove(m: Move): string {
    Join(MoveTokens(m), ' ')
  }

  /** Six words joined by a separator, written out. */
  lemma {:induction false} JoinSix(w: seq<string>, sep: char)
    requires |w| == 6
    ensures Join(w, sep) == w[0] + [sep] + w[1] + [sep] + w[2] + [sep] + w[3] + [sep] + w[4] + [sep] + w[5]
  {
    assert Join(w[5..], sep) == w[5];
    assert Join(w[4..], sep) == w[4] + [sep] + w[5] by { assert w[4..][1..] == w[5..]; }
    assert Join(w[3..], sep) == w[3] + [sep] + (w[4] + [sep] + w[5]) by { assert w[3..][1..] == w[4..]; }
    assert Join(w[2..], sep) == w[2] + [sep] + (w[3] + [sep] + (w[4] + [sep] + w[5])) by { assert w[2..][1..] == w[3..]; }
    assert Join(w[1..], sep) == w[1] + [sep] + (w[2] + [sep] + (w[3] + [sep] + (w[4] + [sep] + w[5]))) by { assert w[1..][1..] == w[2..]; }
    assert Join(w, sep) == w[0] + [sep] + (w[1] + [sep] + (w[2] + [sep] + (w[3] + [sep] + (w[4] + [sep] + w[5])))) by { assert w[1..] == w[1..]; }
  }

  /** Splitting a written move line on spaces gives its six tokens. */
  lemma SplitMoveLine(m: Move)
    ensures Split(FormatMove(m), ' ') == MoveTokens(m)
  {
    var tokens := MoveTokens(m);
    NoSpaceInDigits(tokens[1]);
    NoSpaceInDigits(tokens[3]);
    NoSpaceInDigits(tokens[5]);
    assert forall i :: 0 <= i < |tokens| ==> ' ' !in tokens[i];
    SplitJoin(tokens, ' ');
  }

  /** Building a move from its written line gives the move back, with 0-based stacks. */
  lemma BuildFormatMove(m: Move)
    ensures Buildable(FormatMove(m))
    ensures MoveBuild(FormatMove(m), m.kind) == m
  {
    SplitMoveLine(m);
    ParseShowNat(m.num);
    ParseShowNat(m.src + 1);
    ParseShowNat(m.dst + 1);
  }

  /** The stacks a move may touch exist: the source when it moves anything, the target when the source is not empty. */
  predicate CanApply(ss: Stacks, m: Move) {
    (m.num > 0 ==> m.src < |ss|) &&
    (m.num > 0 && m.src < |ss| && ss[m.src] != [] ==> m.dst < |ss|)
  }

  /** The number of crates a move takes: `num`, or all of them when the source holds fewer. */
  function Taken(ss: Stacks, m: Move): nat
    requires m.src < |ss|
  {
    Min(m.num, |ss[m.src]|)
  }

  /** The stacks with the top `k` crates of `src` taken off. */
  function Popped(ss: Stacks, src: nat, k: nat): (r: Stacks)
    requires src < |ss| && k <= |ss[src]|
    ensures |r| == |ss|
  {
    ss[src := ss[src][..|ss[src]| - k]]
  }

  /** The top `k` crates of `src`, bottom one first. */
  function Top(ss: Stacks, src: nat, k: nat): seq<Crate>
    requires src < |ss| && k <= |ss[src]|
  {
    ss[src][|ss[src]| - k..]
  }

  /** The top `k` crates of `src` put onto `dst` one at a time, so in reversed order; within one stack nothing changes. */
  function TakeReversed(ss: Stacks, src: nat, dst: nat, k: nat): (r: Stacks)
    requires src < |ss| && k <= |ss[src]| && (k > 0 ==> dst < |ss|)
    ensures |r| == |ss|
  {
    if k == 0 || src == dst then ss
    else
      var rest := Popped(ss, src, k);
      rest[dst := rest[dst] + Reverse(Top(ss, src, k))]
  }

  /** The top `k` crates of `src` put onto `dst` as one block, in their order. */
  function TakeBlock(ss: Stacks, src: nat, dst: nat, k: nat): (r: Stacks)
    requires src < |ss| && k <= |ss[src]| && (k > 0 ==> dst < |ss|)
    ensures |r| == |ss|
  {
    if k == 0 then ss
    else
      var rest := Popped(ss, src, k);
      rest[dst := rest[dst] + Top(ss, src, k)]
  }

  /** Part one's move: the taken crates land on the target in reversed order. */
  function MovePt1(ss: Stacks, m: Move): Stacks
    requires CanApply(ss, m)
  {
    if m.num == 0 then ss else TakeReversed(ss, m.src, m.dst, Taken(ss, m))
  }

  /** Part two's move: the taken crates land on the target as a block, in their order. */
  function MovePt2(ss: Stacks, m: Move): Stacks
    requires CanApply(ss, m)
  {
    if m.num == 0 then ss else TakeBlock(ss, m.src, m.dst, Taken(ss, m))
  }

  /** One pop from `src` and, when it yields a crate, one push onto `dst`. */
  function PopPush(ss: Stacks, src: nat, dst: nat): Stacks
    requires src < |ss| && (ss[src] != [] ==> dst < |ss|)
  {
    if ss[src] == [] then ss
    else
      var s := ss[src];
      var rest := ss[src := s[..|s| - 1]];
      rest[dst := rest[dst] + [s[|s| - 1]]]
  }

  /** Popping a crate and pushing it back onto the same stack changes nothing. */
  lemma PopPushSame(ss: Stacks, src: nat)
    requires src < |ss|
    ensures PopPush(ss, src, src) == ss
  {
    var s := ss[src];
    if s != [] {
      assert s[..|s| - 1] + [s[|s| - 1]] == s;
    }
  }

  /** Taking `k + 1` crates one at a time is taking `k` and then one more pop and push. */
  lemma TakeReversedStep(ss: Stacks, src: nat, dst: nat, k: nat)
    requires src < |ss| && dst < |ss| && k < |ss[src]|
    ensures TakeReversed(ss, src, dst, k + 1) == PopPush(TakeReversed(ss, src, dst, k), src, dst)
  {
    var s := ss[src];
    var n := |s|;
    if src == dst {
      PopPushSame(ss, src);
    } else if k == 0 {
      assert s[..n] == s;
      assert ss[src := s] == ss;
      assert Top(ss, src, 1) == [s[n - 1]];
      assert Reverse(Top(ss, src, 1)) == [s[n - 1]];
    } else {
      var mid := TakeReversed(ss, src, dst, k);
      assert mid[src] == s[..n - k];
      assert s[..n - k][..n - k - 1] == s[..n - k - 1];
      assert Top(ss, src, k + 1)[1..] == Top(ss, src, k);
      assert Reverse(Top(ss, src, k + 1)) == Reverse(Top(ss, src, k)) + [s[n - k - 1]];
      assert mid[dst] == ss[dst] + Reverse(Top(ss, src, k));
      var p := PopPush(mid, src, dst);
      var q := TakeReversed(ss, src, dst, k + 1);
      assert |p| == |q|;
      forall i | 0 <= i < |p| ensures p[i] == q[i] {
        if i == dst {
          assert p[i] == mid[dst] + [s[n - k - 1]];
        } else if i == src {
          assert p[i] == s[..n - k - 1];
        }
      }
    }
  }

  /** `apply_pt1`: `num` times, pop a crate from the source and push it onto the target. */
  method ApplyPt1(m: Move, stacks: array<seq<Crate>>)
    requires CanApply(stacks[..], m)
    modifies stacks
    ensures stacks[..] == MovePt1(old(stacks[..]), m)
  {
    ghost var o := stacks[..];
    for j := 0 to m.num
      invariant m.num == 0 ==> stacks[..] == o
      invariant m.num > 0 ==> stacks[..] == TakeReversed(o, m.src, m.dst, Min(j, |o[m.src]|))
    {
      ghost var before := stacks[..];
      ghost var k := Min(j, |o[m.src]|);
      if stacks[m.src] != [] {
        var c := stacks[m.src][|stacks[m.src]| - 1];
        stacks[m.src] := stacks[m.src][..|stacks[m.src]| - 1];
        stacks[m.dst] := stacks[m.dst] + [c];
      }
      assert stacks[..] == PopPush(before, m.src, m.dst);
      if k < |o[m.src]| {
        TakeReversedStep(o, m.src, m.dst, k);
      } else if m.src == m.dst {
        PopPushSame(before, m.src);
      } else {
        assert before[m.src] == o[m.src][..0];
      }
    }
  }

  /** Pulling one more crate off the source: the stack shrinks by the crate `k` places below the top. */
  lemma PoppedStep(ss: Stacks, src: nat, k: nat)
    requires src < |ss| && k < |ss[src]|
    ensures var p := Popped(ss, src, k)[src];
            p != [] && Popped(ss, src, k + 1) == Popped(ss, src, k)[src := p[..|p| - 1]] &&
            p[|p| - 1] == ss[src][|ss[src]| - k - 1]
  {
    var s := ss[src];
    assert s[..|s| - k][..|s| - k - 1] == s[..|s| - k - 1];
  }

  /** The top `k` crates of `src` in the order they come off the stack: topmost first. */
  function Buffered(ss: Stacks, src: nat, k: nat): seq<Crate>
    requires src < |ss| && k <= |ss[src]|
  {
    if k == 0 then [] else Buffered(ss, src, k - 1) + [ss[src][|ss[src]| - k]]
  }

  /** Popping the top `k` crates one by one yields them reversed. */
  lemma {:induction false} BufferedIsReversed(ss: Stacks, src: nat, k: nat)
    requires src < |ss| && k <= |ss[src]|
    ensures Buffered(ss, src, k) == Reverse(Top(ss, src, k))
  {
    if k > 0 {
      BufferedIsReversed(ss, src, k - 1);
      assert Top(ss, src, k)[1..] == Top(ss, src, k - 1);
    }
  }

  /** Taking nothing off a stack leaves the stacks as they are. */
  lemma PoppedNone(ss: Stacks, src: nat)
    requires src < |ss|
    ensures Popped(ss, src, 0) == ss && Top(ss, src, 0) == []
  {
    assert ss[src][..|ss[src]|] == ss[src];
  }

  /** The first loop of `apply_pt2`: `num` pops from the source, each crate pushed onto a buffer. */
  method PopIntoBuffer(m: Move, stacks: array<seq<Crate>>) returns (temp: seq<Crate>)
    requires CanApply(stacks[..], m)
    modifies stacks
    ensures m.num == 0 ==> stacks[..] == old(stacks[..]) && temp == []
    ensures m.num > 0 ==> m.src < stacks.Length &&
                          stacks[..] == Popped(old(stacks[..]), m.src, Taken(old(stacks[..]), m)) &&
                          temp == Reverse(Top(old(stacks[..]), m.src, Taken(old(stacks[..]), m)))
  {
    temp := [];
    if m.num == 0 {
      return;
    }
    ghost var o := stacks[..];
    PoppedNone(o, m.src);
    for j := 0 to m.num
      invariant stacks[..] == Popped(o, m.src, Min(j, |o[m.src]|))
      invariant temp == Buffered(o, m.src, Min(j, |o[m.src]|))
    {
      ghost var k := Min(j, |o[m.src]|);
      assert stacks[m.src] == o[m.src][..|o[m.src]| - k];
      if stacks[m.src] != [] {
        ghost var before := stacks[..];
        PoppedStep(o, m.src, k);
        var c := stacks[m.src][|stacks[m.src]| - 1];
        stacks[m.src] := stacks[m.src][..|stacks[m.src]| - 1];
        temp := temp + [c];
        assert stacks[..] == Popped(o, m.src, k + 1) by {
          assert stacks[..] == before[m.src := before[m.src][..|before[m.src]| - 1]];
        }
        assert Min(j + 1, |o[m.src]|) == k + 1;
      } else {
        assert Min(j + 1, |o[m.src]|) == k;
      }
    }
    BufferedIsReversed(o, m.src, Taken(o, m));
  }

  /** The second loop of `apply_pt2`: the buffer's crates, last one first, pushed onto the target. */
  method PushReversed(stacks: array<seq<Crate>>, dst: nat, temp: seq<Crate>)
    requires |temp| > 0 ==> dst < stacks.Length
    modifies stacks
    ensures |temp| == 0 ==> stacks[..] == old(stacks[..])
    ensures |temp| > 0 ==> stacks[..] == old(stacks[..])[dst := old(stacks[dst]) + Reverse(temp)]
  {
    ghost var mid := stacks[..];
    if |temp| > 0 {
      assert Reverse(temp)[..0] == [];
      assert mid[dst] + Reverse(temp)[..0] == mid[dst];
      assert mid[dst := mid[dst]] == mid;
    }
    for i := 0 to |temp|
      invariant |temp| == 0 ==> stacks[..] == mid
      invariant |temp| > 0 ==> stacks[..] == mid[dst := mid[dst] + Reverse(temp)[..i]]
    {
      var c := temp[|temp| - 1 - i];
      ReverseAt(temp, i);
      assert Reverse(temp)[..i + 1] == Reverse(temp)[..i] + [c];
      stacks[dst] := stacks[dst] + [c];
      assert stacks[..] == mid[dst := mid[dst] + Reverse(temp)[..i] + [c]];
      assert mid[dst] + Reverse(temp)[..i + 1] == mid[dst] + Reverse(temp)[..i] + [c];
    }
    if |temp| > 0 {
      assert Reverse(temp)[..|temp|] == Reverse(temp);
    }
  }

  /** `apply_pt2`: pop up to `num` crates into a buffer, then push the buffer back in reverse. */
  method ApplyPt2(m: Move, stacks: array<seq<Crate>>)
    requires CanApply(stacks[..], m)
    modifies stacks
    ensures stacks[..] == MovePt2(old(stacks[..]), m)
  {
    ghost var o := stacks[..];
    var temp := PopIntoBuffer(m, stacks);
    PushReversed(stacks, m.dst, temp);
    if m.num > 0 {
      if |temp| > 0 {
        ReverseReverse(Top(o, m.src, Taken(o, m)));
      } else {
        PoppedNone(o, m.src);
      }
    }
  }

  /** Reversing twice gives the sequence back. */
  lemma {:induction false} ReverseReverse<T>(s: seq<T>)
    ensures Reverse(Reverse(s)) == s
  {
    if s != [] {
      ReverseReverse(s[1..]);
      ReverseConcat(Reverse(s[1..]), [s[0]]);
      assert Reverse([s[0]]) == [s[0]];
      assert s == [s[0]] + s[1..];
    }
  }

  /** The effect of one move of either kind. */
  function MoveEffect(ss: Stacks, m: Move): Stacks
    requires CanApply(ss, m)
  {
    match m.kind
    case Pt1 => MovePt1(ss, m)
    case Pt2 => MovePt2(ss, m)
  }

  /** `Move::apply`: dispatches on the kind of the move. */
  method Apply(m: Move, stacks: array<seq<Crate>>)
    requires CanApply(stacks[..], m)
    modifies stacks
    ensures stacks[..] == MoveEffect(old(stacks[..]), m)
  {
    match m.kind
    case Pt1 => ApplyPt1(m, stacks);
    case Pt2 => ApplyPt2(m, stacks);
  }

  // ---------------------------------------------------- what moves keep

  /** Every crate of every stack, counted with multiplicity. */
  function AllCrates(ss: Stacks): multiset<Crate> {
    if ss == [] then multiset{} else AllCrates(ss[..|ss| - 1]) + multiset(ss[|ss| - 1])
  }

  lemma {:induction false} AllCratesUpdate(ss: Stacks, i: nat, x: seq<Crate>)
    requires i < |ss|
    ensures AllCrates(ss[i := x]) + multiset(ss[i]) == AllCrates(ss) + multiset(x)
  {
    var n := |ss|;
    var init := ss[..n - 1];
    if i < n - 1 {
      AllCratesUpdate(init, i, x);
      assert init[i] == ss[i];
      AllCratesUpdateFront(ss, i, x);
    } else {
      assert ss[i := x][..n - 1] == init;
    }
  }

  /** Replacing a stack below the last one: the last stack adds the same crates on both sides. */
  lemma AllCratesUpdateFront(ss: Stacks, i: nat, x: seq<Crate>)
    requires i < |ss| - 1
    requires AllCrates(ss[..|ss| - 1][i := x]) + multiset(ss[i]) == AllCrates(ss[..|ss| - 1]) + multiset(x)
    ensures AllCrates(ss[i := x]) + multiset(ss[i]) == AllCrates(ss) + multiset(x)
  {
    var t := ss[i := x];
    var n := |ss|;
    var init, tInit := ss[..n - 1], t[..n - 1];
    assert tInit == init[i := x];
    assert t[n - 1] == ss[n - 1];
    assert AllCrates(t) == AllCrates(tInit) + multiset(ss[n - 1]);
    assert AllCrates(ss) == AllCrates(init) + multiset(ss[n - 1]);
    forall c ensures (AllCrates(t) + multiset(ss[i]))[c] == (AllCrates(ss) + multiset(x))[c] {
      assert (AllCrates(tInit) + multiset(ss[i]))[c] == (AllCrates(init) + multiset(x))[c];
    }
    assert AllCrates(t) + multiset(ss[i]) == AllCrates(ss) + multiset(x);
  }

  /** Taking `k` crates off the top and putting them elsewhere keeps the crates. */
  lemma TakeAndPut(ss: Stacks, src: nat, dst: nat, k: nat, put: seq<Crate>)
    requires src < |ss| && dst < |ss| && k <= |ss[src]|
    requires multiset(put) == multiset(Top(ss, src, k))
    ensures var rest := Popped(ss, src, k);
            AllCrates(rest[dst := rest[dst] + put]) == AllCrates(ss)
  {
    var s := ss[src];
    var low := s[..|s| - k];
    var rest := Popped(ss, src, k);
    var final := rest[dst := rest[dst] + put];
    AllCratesUpdate(ss, src, low);
    AllCratesUpdate(rest, dst, rest[dst] + put);
    assert s == low + Top(ss, src, k);
    assert multiset(s) == multiset(low) + multiset(put);
    assert multiset(rest[dst] + put) == multiset(rest[dst]) + multiset(put);
    forall x ensures AllCrates(final)[x] == AllCrates(ss)[x] {
      assert (AllCrates(rest) + multiset(s))[x] == (AllCrates(ss) + multiset(low))[x];
      assert (AllCrates(final) + multiset(rest[dst]))[x] == (AllCrates(rest) + multiset(rest[dst] + put))[x];
      assert multiset(s)[x] == multiset(low)[x] + multiset(put)[x];
      assert multiset(rest[dst] + put)[x] == multiset(rest[dst])[x] + multiset(put)[x];
    }
    assert AllCrates(final) == AllCrates(ss);
  }

  /**
   * Both kinds of move keep the number of stacks and every crate, and leave
   * every stack other than the source and the target as it was.
   */
  lemma MovePreserves(ss: Stacks, m: Move)
    requires CanApply(ss, m)
    ensures |MoveEffect(ss, m)| == |ss|
    ensures AllCrates(MoveEffect(ss, m)) == AllCrates(ss)
    ensures forall i :: 0 <= i < |ss| && i != m.src && i != m.dst ==> MoveEffect(ss, m)[i] == ss[i]
  {
    if m.num == 0 {
      assert MoveEffect(ss, m) == ss;
    } else if ss[m.src] == [] {
      assert Taken(ss, m) == 0;
      assert MoveEffect(ss, m) == ss;
    } else {
      var k := Taken(ss, m);
      match m.kind
      case Pt1 =>
        MovePt1Preserves(ss, m, k);
        assert MoveEffect(ss, m) == MovePt1(ss, m);
      case Pt2 =>
        MovePt2Preserves(ss, m, k);
        assert MoveEffect(ss, m) == MovePt2(ss, m);
    }
  }

  lemma MovePt1Preserves(ss: Stacks, m: Move, k: nat)
    requires CanApply(ss, m) && m.num > 0 && ss[m.src] != [] && k == Taken(ss, m)
    ensures AllCrates(MovePt1(ss, m)) == AllCrates(ss)
    ensures forall i :: 0 <= i < |ss| && i != m.src && i != m.dst ==> MovePt1(ss, m)[i] == ss[i]
  {
    if m.src != m.dst {
      ReversePermutes(Top(ss, m.src, k));
      TakeAndPut(ss, m.src, m.dst, k, Reverse(Top(ss, m.src, k)));
    }
  }

  lemma MovePt2Preserves(ss: Stacks, m: Move, k: nat)
    requires CanApply(ss, m) && m.num > 0 && ss[m.src] != [] && k == Taken(ss, m)
    ensures AllCrates(MovePt2(ss, m)) == AllCrates(ss)
    ensures forall i :: 0 <= i < |ss| && i != m.src && i != m.dst ==> MovePt2(ss, m)[i] == ss[i]
  {
    TakeAndPut(ss, m.src, m.dst, k, Top(ss, m.src, k));
  }

  /** A move within one stack puts the crates back where they were. */
  lemma MoveWithinStack(ss: Stacks, m: Move)
    requires CanApply(ss, m) && m.src == m.dst
    ensures MoveEffect(ss, m) == ss
  {
    if m.num > 0 && ss[m.src] != [] && m.kind == Pt2 {
      var s := ss[m.src];
      var k := Taken(ss, m);
      assert s[..|s| - k] + Top(ss, m.src, k) == s;
    }
  }

  // ------------------------------------------------------ all the moves

  /** The stacks after the moves in order, or `None` when a move would index a stack that does not exist. */
  function ApplyAll(ss: Stacks, moves: seq<Move>): Option<Stacks> {
    if moves == [] then Some(ss)
    else
      match ApplyAll(ss, moves[..|moves| - 1])
      case None => None
      case Some(t) =>
        if CanApply(t, moves[|moves| - 1]) then Some(MoveEffect(t, moves[|moves| - 1])) else None
  }

  /** All moves keep the number of stacks and every crate. */
  lemma {:induction false} ApplyAllPreserves(ss: Stacks, moves: seq<Move>)
    requires ApplyAll(ss, moves).Some?
    ensures |ApplyAll(ss, moves).value| == |ss|
    ensures AllCrates(ApplyAll(ss, moves).value) == AllCrates(ss)
  {
    if moves != [] {
      ApplyAllPreserves(ss, moves[..|moves| - 1]);
      MovePreserves(ApplyAll(ss, moves[..|moves| - 1]).value, moves[|moves| - 1]);
    }
  }

  predicate AllBuildable(lines: seq<string>) {
    forall i :: 0 <= i < |lines| ==> Buildable(lines[i])
  }

  /** The moves of the move lines, all of one kind. */
  function Moves(lines: seq<string>, kind: MoveType): (moves: seq<Move>)
    requires AllBuildable(lines)
    ensures |moves| == |lines|
  {
    seq(|lines|, i requires 0 <= i < |lines| => MoveBuild(lines[i], kind))
  }

  /** `apply_moves`: builds every line's move and applies it, in order. */
  method ApplyMoves(stacks: array<seq<Crate>>, lines: seq<string>, kind: MoveType)
    requires AllBuildable(lines)
    requires ApplyAll(stacks[..], Moves(lines, kind)).Some?
    modifies stacks
    ensures stacks[..] == ApplyAll(old(stacks[..]), Moves(lines, kind)).value
  {
    ghost var moves := Moves(lines, kind);
    for i := 0 to |lines|
      invariant ApplyAll(old(stacks[..]), moves[..i]) == Some(stacks[..])
    {
      assert moves[..i + 1][..i] == moves[..i];
      ApplyAllPrefix(old(stacks[..]), moves, i + 1);
      var mov := MoveBuild(lines[i], kind);
      Apply(mov, stacks);
    }
    assert moves[..|lines|] == moves;
  }

  /** A run of moves that applies completely applies on every prefix. */
  lemma {:induction false} ApplyAllPrefix(ss: Stacks, moves: seq<Move>, n: nat)
    requires n <= |moves| && ApplyAll(ss, moves).Some?
    ensures ApplyAll(ss, moves[..n]).Some?
    decreases |moves| - n
  {
    if n < |moves| {
      ApplyAllPrefix(ss, moves, n + 1);
      assert moves[..n + 1][..n] == moves[..n];
    } else {
      assert moves[..n] == moves;
    }
  }

  // ------------------------------------------------------------ the answer

  /** `get_top_crates`: the top crate's name of every non-empty stack, in stack order. */
  function TopCrates(ss: Stacks): (r: string)
    ensures |r| <= |ss|
  {
    if ss == [] then []
    else (if ss[0] == [] then [] else [ss[0][|ss[0]| - 1].name]) + TopCrates(ss[1..])
  }

  /** The number of non-empty stacks. */
  function NonEmptyCount(ss: Stacks): nat {
    if ss == [] then 0 else NonEmptyCount(ss[..|ss| - 1]) + if ss[|ss| - 1] != [] then 1 else 0
  }

  lemma {:induction false} TopCratesConcat(a: Stacks, b: Stacks)
    ensures TopCrates(a + b) == TopCrates(a) + TopCrates(b)
  {
    if a == [] {
      assert a + b == b;
    } else {
      assert (a + b)[1..] == a[1..] + b;
      TopCratesConcat(a[1..], b);
    }
  }

  /** One name per non-empty stack. */
  lemma {:induction false} TopCratesLength(ss: Stacks)
    ensures |TopCrates(ss)| == NonEmptyCount(ss)
  {
    if ss != [] {
      var init := ss[..|ss| - 1];
      TopCratesLength(init);
      assert ss == init + [ss[|ss| - 1]];
      TopCratesConcat(init, [ss[|ss| - 1]]);
    }
  }

  /** When no stack is empty, the answer names every stack's top crate at that stack's position. */
  lemma {:induction false} TopCratesAllNonEmpty(ss: Stacks)
    requires forall i :: 0 <= i < |ss| ==> ss[i] != []
    ensures |TopCrates(ss)| == |ss|
    ensures forall i :: 0 <= i < |ss| ==> TopCrates(ss)[i] == ss[i][|ss[i]| - 1].name
  {
    if ss != [] {
      TopCratesAllNonEmpty(ss[1..]);
      assert forall i :: 1 <= i < |ss| ==> ss[i] == ss[1..][i - 1];
    }
  }

  /** An empty stack adds nothing to the answer, wherever it stands. */
  lemma TopCratesSkipsEmpty(a: Stacks, b: Stacks)
    ensures TopCrates(a + [[]] + b) == TopCrates(a + b)
  {
    TopCratesConcat(a + [[]], b);
    TopCratesConcat(a, [[]]);
    TopCratesConcat(a, b);
  }

  /** The stacks `parse_stacks` builds from a drawing, as values. */
  function Drawing(lines: seq<string>): (ss: Stacks)
    requires |lines| >= 1
    ensures |ss| == ParseNumStacks(lines[|lines| - 1])
    ensures forall i :: 0 <= i < |ss| ==> ss[i] == Reverse(TopDown(lines, i))
  {
    forall i | 0 <= i < ParseNumStacks(lines[|lines| - 1]) ensures Column(lines, i) == Reverse(TopDown(lines, i)) {
      ColumnIsTopDownReversed(lines, i);
    }
    seq(ParseNumStacks(lines[|lines| - 1]), i requires 0 <= i => Column(lines, i))
  }

  /** `solve` once the file is split: parse the drawing, apply the moves, read the top crates. */
  method Solve(stackLines: seq<string>, moveLines: seq<string>, kind: MoveType) returns (top: string)
    requires |stackLines| >= 1 && AllBuildable(moveLines)
    requires ApplyAll(Drawing(stackLines), Moves(moveLines, kind)).Some?
    ensures top == TopCrates(ApplyAll(Drawing(stackLines), Moves(moveLines, kind)).value)
    ensures |top| <= ParseNumStacks(stackLines[|stackLines| - 1])
  {
    var stacks := ParseStacks(stackLines);
    assert stacks[..] == Drawing(stackLines);
    ApplyMoves(stacks, moveLines, kind);
    ApplyAllPreserves(Drawing(stackLines), Moves(moveLines, kind));
    top := TopCrates(stacks[..]);
  }

  /** The drawing of the parse test: stacks "ZND", "MC" and "P", bottom first. */
  lemma DrawingExample(lines: seq<string>)
    requires lines == ["[D]        ", "[N] [C]    ", "[Z] [M] [P]", " 1   2   3 "]
    ensures ParseNumStacks(lines[3]) == 3
    ensures Column(lines, 0) == [Crate('Z'), Crate('N'), Crate('D')]
    ensures Column(lines, 1) == [Crate('M'), Crate('C')]
    ensures Column(lines, 2) == [Crate('P')]
  {
    var l0, l1, l2, l3 := lines[0], lines[1], lines[2], lines[3];
    assert l3[0] == ' ' && l3[4] == ' ' && l3[8] == ' ';
    assert l2[0] == '[' && l2[1] == 'Z' && l2[4] == '[' && l2[5] == 'M' && l2[8] == '[' && l2[9] == 'P';
    assert l1[0] == '[' && l1[1] == 'N' && l1[4] == '[' && l1[5] == 'C' && l1[8] == ' ';
    assert l0[0] == '[' && l0[1] == 'D' && l0[4] == ' ' && l0[8] == ' ';
    assert lines[..3] == [l0, l1, l2] && lines[..3][..2] == [l0, l1] && lines[..3][..2][..1] == [l0];
    assert lines[..3][..2][..1][..0] == [];
    var p1, p2, p3 := lines[..1], lines[..2], lines[..3];
    assert p3[..2] == p2 && p2[..1] == p1 && p1[..0] == [];
    assert Drawn(l0, 0) == [Crate('D')] && Drawn(l0, 1) == [] && Drawn(l0, 2) == [];
    assert Drawn(l1, 0) == [Crate('N')] && Drawn(l1, 1) == [Crate('C')] && Drawn(l1, 2) == [];
    assert Drawn(l2, 0) == [Crate('Z')] && Drawn(l2, 1) == [Crate('M')] && Drawn(l2, 2) == [Crate('P')];
    assert Drawn(l3, 0) == [] && Drawn(l3, 1) == [] && Drawn(l3, 2) == [];
    assert p1 == [l0] && Column(p1[..0], 1) == [] && Column(p1[..0], 2) == [];
    assert Column(p1, 0) == [Crate('D')] && Column(p1, 1) == [] && Column(p1, 2) == [];
    assert Column(p2, 0) == [Crate('N'), Crate('D')] && Column(p2, 1) == [Crate('C')] && Column(p2, 2) == [];
    assert Column(p3, 0) == [Crate('Z'), Crate('N'), Crate('D')];
    assert Column(p3, 1) == [Crate('M'), Crate('C')] && Column(p3, 2) == [Crate('P')];
    assert ParseNumStacks(l3) == 3 by { ThreeStacksExample(l3); }
  }

  /** The three moves of the two-stack example, one at a time, as part one moves crates. */
  lemma ExampleStepsPt1(a: Crate, b: Crate, x: Crate)
    ensures MovePt1([[a, b], [x]], Move(1, 0, 1, Pt1)) == [[a, b, x], []]
    ensures MovePt1([[a, b, x], []], Move(0, 1, 3, Pt1)) == [[], [x, b, a]]
    ensures MovePt1([[], [x, b, a]], Move(1, 0, 1, Pt1)) == [[a], [x, b]]
  {
    var s0: Stacks := [[a, b], [x]];
    var s1: Stacks := [[a, b, x], []];
    assert Top(s0, 1, 1) == [x] && Popped(s0, 1, 1) == [[a, b], []];
    assert Reverse([x]) == [x];
    assert [a, b] + [x] == [a, b, x];
    assert [a, b, x][..0] == [] && [a, b, x][0..] == [a, b, x];
    assert [] + [x, b, a] == [x, b, a];
    assert Top(s1, 0, 3) == [a, b, x] && Popped(s1, 0, 3) == [[], []];
    assert Reverse([a, b, x]) == [x, b, a] by {
      assert [a, b, x][1..] == [b, x] && [b, x][1..] == [x];
    }
    var s2: Stacks := [[], [x, b, a]];
    assert [x, b, a][..2] == [x, b] && [x, b, a][2..] == [a];
    assert Top(s2, 1, 1) == [a] && Popped(s2, 1, 1) == [[], [x, b]];
    assert Reverse([a]) == [a];
  }

  /** The three moves of the two-stack example, one at a time, as part two moves crates. */
  lemma ExampleStepsPt2(a: Crate, b: Crate, x: Crate)
    ensures MovePt2([[a, b], [x]], Move(1, 0, 1, Pt2)) == [[a, b, x], []]
    ensures MovePt2([[a, b, x], []], Move(0, 1, 3, Pt2)) == [[], [a, b, x]]
    ensures MovePt2([[], [a, b, x]], Move(1, 0, 1, Pt2)) == [[x], [a, b]]
  {
    var s0: Stacks := [[a, b], [x]];
    var s1: Stacks := [[a, b, x], []];
    assert Top(s0, 1, 1) == [x] && Popped(s0, 1, 1) == [[a, b], []];
    assert [a, b] + [x] == [a, b, x];
    assert [a, b, x][..0] == [] && [a, b, x][0..] == [a, b, x];
    assert [] + [a, b, x] == [a, b, x];
    assert Top(s1, 0, 3) == [a, b, x] && Popped(s1, 0, 3) == [[], []];
    var s3: Stacks := [[], [a, b, x]];
    assert [a, b, x][..2] == [a, b] && [a, b, x][2..] == [x];
    assert Top(s3, 1, 1) == [x] && Popped(s3, 1, 1) == [[], [a, b]];
    assert [] + [x] == [x];
  }

  /** Three moves that each apply, applied in order. */
  lemma ApplyThree(s0: Stacks, m1: Move, m2: Move, m3: Move, s1: Stacks, s2: Stacks, s3: Stacks)
    requires CanApply(s0, m1) && MoveEffect(s0, m1) == s1
    requires CanApply(s1, m2) && MoveEffect(s1, m2) == s2
    requires CanApply(s2, m3) && MoveEffect(s2, m3) == s3
    ensures ApplyAll(s0, [m1, m2, m3]) == Some(s3)
  {
    var moves := [m1, m2, m3];
    assert moves[..2][..1] == [m1] && [m1][..0] == [];
    assert ApplyAll(s0, [m1]) == Some(s1);
    assert moves[..2] == [m1, m2];
    assert ApplyAll(s0, [m1, m2]) == Some(s2);
  }

  /** The two-stack example: part one's moves on "AB" and "X". */
  lemma ApplyMovesExample()
    ensures ApplyAll([[Crate('A'), Crate('B')], [Crate('X')]],
                     [Move(1, 0, 1, Pt1), Move(0, 1, 3, Pt1), Move(1, 0, 1, Pt1)])
            == Some([[Crate('A')], [Crate('X'), Crate('B')]])
  {
    var a, b, x := Crate('A'), Crate('B'), Crate('X');
    ExampleStepsPt1(a, b, x);
    ApplyThree([[a, b], [x]], Move(1, 0, 1, Pt1), Move(0, 1, 3, Pt1), Move(1, 0, 1, Pt1),
               [[a, b, x], []], [[], [x, b, a]], [[a], [x, b]]);
  }

  /** The same example with part two's moves: the crates keep their order. */
  lemma ApplyMovesExamplePt2()
    ensures ApplyAll([[Crate('A'), Crate('B')], [Crate('X')]],
                     [Move(1, 0, 1, Pt2), Move(0, 1, 3, Pt2), Move(1, 0, 1, Pt2)])
            == Some([[Crate('X')], [Crate('A'), Crate('B')]])
  {
    var a, b, x := Crate('A'), Crate('B'), Crate('X');
    ExampleStepsPt2(a, b, x);
    ApplyThree([[a, b], [x]], Move(1, 0, 1, Pt2), Move(0, 1, 3, Pt2), Move(1, 0, 1, Pt2),
               [[a, b, x], []], [[], [a, b, x]], [[x], [a, b]]);
  }

  /** The move line "move 3 from 1 to 2" takes three crates from stack 0 to stack 1. */
  lemma MoveBuildExample(line: string)
    requires line == "move 3 from 1 to 2"
    ensures Buildable(line) && MoveBuild(line, Pt1) == Move(0, 1, 3, Pt1)
  {
    BuildFormatMove(Move(0, 1, 3, Pt1));
    ExampleMoveLine();
  }

  lemma ExampleMoveLine()
    ensures FormatMove(Move(0, 1, 3, Pt1)) == "move 3 from 1 to 2"
  {
    var w := MoveTokens(Move(0, 1, 3, Pt1));
    ExampleMoveTokens();
    JoinSix(w, ' ');
    ExampleMoveConcat(w);
  }

  lemma ExampleMoveTokens()
    ensures MoveTokens(Move(0, 1, 3, Pt1)) == ["move", "3", "from", "1", "to", "2"]
  {
    assert ShowNat(3) == "3" && ShowNat(1) == "1" && ShowNat(2) == "2";
  }

  lemma ExampleMoveConcat(w: seq<string>)
    requires w == ["move", "3", "from", "1", "to", "2"]
    ensures w[0] + [' '] + w[1] + [' '] + w[2] + [' '] + w[3] + [' '] + w[4] + [' '] + w[5] == "move 3 from 1 to 2"
  {
  }
}
