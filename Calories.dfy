/**
 * Calorie counting (day 1). Each elf's inventory is a run of lines holding
 * one number each; runs are ended by a blank line. The solver collects one
 * total per run, then answers with the largest total and with the sum of
 * the last three totals in list order.
 */
module Calories {
  import opened Text
  import opened Seqs

  /** A line the reader accepts: blank once trimmed, or a number `u32::from_str` reads once trimmed. */
  predicate IsInventoryLine(line: string) {
    Trim(line) == [] || IsUnsigned(Trim(line))
  }

  predicate ValidLines(lines: seq<string>) {
    forall i :: 0 <= i < |lines| ==> IsInventoryLine(lines[i])
  }

  lemma ConcatLines(a: seq<string>, b: seq<string>)
    requires ValidLines(a) && ValidLines(b)
    ensures ValidLines(a + b)
  {
    forall i | 0 <= i < |a + b| ensures IsInventoryLine((a + b)[i]) {
      if i < |a| { assert (a + b)[i] == a[i]; } else { assert (a + b)[i] == b[i - |a|]; }
    }
  }

  /** What the reader has after some lines: the emitted totals and the running count. */
  datatype Tally = Tally(calories: seq<nat>, count: nat)

  /** The reader's state after `lines`, one line at a time. */
  function TallyOf(lines: seq<string>): Tally
    requires ValidLines(lines)
  {
    if lines == [] then Tally([], 0)
    else
      assert IsInventoryLine(lines[|lines| - 1]);
      var t := TallyOf(lines[..|lines| - 1]);
      var line := Trim(lines[|lines| - 1]);
      if line == [] then Tally(t.calories + [t.count], 0)
      else Tally(t.calories, t.count + ParseUnsigned(line))
  }

  /** The totals of `read_calories`, over the file's lines. */
  method ReadCalories(lines: seq<string>) returns (calories: seq<nat>)
    requires ValidLines(lines)
    ensures calories == TallyOf(lines).calories
  {
    var count: nat := 0;
    calories := [];
    for i := 0 to |lines|
      invariant TallyOf(lines[..i]) == Tally(calories, count)
    {
      assert lines[..i + 1][..i] == lines[..i];
      var trimmed := Trim(lines[i]);
      if trimmed == [] {
        calories := calories + [count];
        count := 0;
      } else {
        count := count + ParseUnsigned(trimmed);
      }
    }
    assert lines[..|lines|] == lines;
  }

  function BlankCount(lines: seq<string>): nat {
    if lines == [] then 0
    else BlankCount(lines[..|lines| - 1]) + (if Trim(lines[|lines| - 1]) == [] then 1 else 0)
  }

  /** One total per blank line: a last run with no blank line after it is never emitted. */
  lemma {:induction false} TotalsAreBlankLines(lines: seq<string>)
    requires ValidLines(lines)
    ensures |TallyOf(lines).calories| == BlankCount(lines)
  {
    if lines != [] {
      TotalsAreBlankLines(lines[..|lines| - 1]);
    }
  }

  // The file layout the reader expects: each inventory's lines, then a blank line.

  function Layout(inventories: seq<seq<nat>>): seq<string> {
    if inventories == [] then []
    else Layout(inventories[..|inventories| - 1]) + Numbers(inventories[|inventories| - 1]) + [""]
  }

  function Numbers(items: seq<nat>): (lines: seq<string>)
    ensures |lines| == |items|
  {
    if items == [] then [] else Numbers(items[..|items| - 1]) + [ShowNat(items[|items| - 1])]
  }

  function Totals(inventories: seq<seq<nat>>): (r: seq<nat>)
    ensures |r| == |inventories|
  {
    if inventories == [] then []
    else Totals(inventories[..|inventories| - 1]) + [SumNat(inventories[|inventories| - 1])]
  }

  function SumNat(items: seq<nat>): nat {
    if items == [] then 0 else SumNat(items[..|items| - 1]) + items[|items| - 1]
  }

  lemma ShowNatTrimmed(n: nat)
    ensures Trim(ShowNat(n)) == ShowNat(n)
  {
    var s := ShowNat(n);
    assert !IsWhitespace(s[0]) && !IsWhitespace(s[|s| - 1]);
    TrimKeeps(s);
  }

  lemma {:induction false} NumbersLines(items: seq<nat>)
    ensures ValidLines(Numbers(items))
  {
    if items != [] {
      var last := items[|items| - 1];
      NumbersLines(items[..|items| - 1]);
      ShowNatTrimmed(last);
      ConcatLines(Numbers(items[..|items| - 1]), [ShowNat(last)]);
    }
  }

  lemma {:induction false} LayoutLines(inventories: seq<seq<nat>>)
    ensures ValidLines(Layout(inventories))
  {
    if inventories != [] {
      var init := inventories[..|inventories| - 1];
      LayoutLines(init);
      NumbersLines(inventories[|inventories| - 1]);
      ConcatLines(Layout(init), Numbers(inventories[|inventories| - 1]));
      assert Trim("") == [];
      ConcatLines(Layout(init) + Numbers(inventories[|inventories| - 1]), [""]);
    }
  }

  /** Number lines after a prefix only add to the running count. */
  lemma {:induction false} CountNumbers(prefix: seq<string>, items: seq<nat>)
    requires ValidLines(prefix)
    ensures ValidLines(prefix + Numbers(items))
    ensures TallyOf(prefix + Numbers(items)) ==
            Tally(TallyOf(prefix).calories, TallyOf(prefix).count + SumNat(items))
  {
    NumbersLines(items);
    ConcatLines(prefix, Numbers(items));
    if items == [] {
      assert prefix + Numbers(items) == prefix;
    } else {
      var init := items[..|items| - 1];
      var last := items[|items| - 1];
      CountNumbers(prefix, init);
      var pre := prefix + Numbers(init);
      var lines := prefix + Numbers(items);
      assert Numbers(items) == Numbers(init) + [ShowNat(last)];
      assert lines == pre + [ShowNat(last)];
      assert lines[..|lines| - 1] == pre;
      ShowNatTrimmed(last);
      ParseShowNat(last);
      var t := TallyOf(pre);
      assert TallyOf(lines) == Tally(t.calories, t.count + ParseUnsigned(ShowNat(last)));
    }
  }

  /**
   * The reader recovers every inventory's total from the layout, in order,
   * and a trailing inventory without a blank line after it only stays in the
   * running count.
   */
  lemma {:induction false} ReadLayout(inventories: seq<seq<nat>>, trailing: seq<nat>)
    ensures ValidLines(Layout(inventories) + Numbers(trailing))
    ensures TallyOf(Layout(inventories) + Numbers(trailing)) == Tally(Totals(inventories), SumNat(trailing))
  {
    LayoutLines(inventories);
    CountNumbers(Layout(inventories), trailing);
    if inventories != [] {
      var init := inventories[..|inventories| - 1];
      var last := inventories[|inventories| - 1];
      ReadLayout(init, last);
      var body := Layout(init) + Numbers(last);
      assert Layout(inventories) == body + [""];
      assert (body + [""])[..|body|] == body;
      assert Trim("") == [];
    } else {
      assert Layout(inventories) == [];
    }
  }

  /** `solve_pt1`: the largest total, 0 when there is none. */
  function MaxCalories(calories: seq<nat>): (r: nat)
    ensures forall i :: 0 <= i < |calories| ==> calories[i] <= r
    ensures (calories == [] && r == 0) || r in calories
  {
    if calories == [] then 0
    else
      var m := MaxCalories(calories[..|calories| - 1]);
      assert calories == calories[..|calories| - 1] + [calories[|calories| - 1]];
      if calories[|calories| - 1] > m then calories[|calories| - 1] else m
  }

  /** `solve_pt2`: walks the totals backwards, takes three and adds them up. */
  function SumLastThree(calories: seq<nat>): (r: int)
    ensures r == Sum(calories[|calories| - Min(3, |calories|)..])
  {
    var c: seq<int> := calories;
    var k := Min(3, |c|);
    ReversePrefix(c, k);
    SumReverse(c[|c| - k..]);
    Sum(Reverse(c)[..k])
  }

  /** A leading '+' and Unicode white space around a number, both of which `trim` and `parse` accept. */
  lemma ReadPaddedLines(lines: seq<string>)
    requires lines == ["+5", "\U{A0}7\U{C}", " "]
    ensures ValidLines(lines) && TallyOf(lines) == Tally([12], 0)
  {
    var a, b, c := lines[0], lines[1], lines[2];
    assert Trim(a) == "+5" by { TrimKeeps(a); }
    assert Trim(b) == "7" by {
      assert TrimStart(b) == TrimStart(b[1..]) == b[1..];
      assert TrimEnd(b[1..]) == TrimEnd(b[1..][..1]) == "7";
    }
    assert Trim(c) == [] by { TrimEmpty(c); }
    assert ParseUnsigned("+5") == 5 && ParseUnsigned("7") == 7;
    assert lines[..1][..0] == [] && lines[..2][..1] == lines[..1] && lines[..2] == lines[..|lines| - 1];
    assert TallyOf(lines[..1]) == Tally([], 5);
    assert TallyOf(lines[..2]) == Tally([], 12);
  }

  lemma SolveExample()
    ensures MaxCalories([6000, 4000, 11000, 24000, 10000]) == 24000
    ensures SumLastThree([6000, 4000, 11000, 24000, 10000]) == 45000
  {
    var c: seq<nat> := [6000, 4000, 11000, 24000, 10000];
    assert c[2..] == [11000, 24000, 10000];
  }

  lemma SolveEmpty()
    ensures MaxCalories([]) == 0 && SumLastThree([]) == 0
  {
  }
}
