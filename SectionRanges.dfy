/**
 * Camp cleanup (day 4). Every line holds the section ranges of two elves,
 * "a-b,c-d". Part one counts the lines where one range contains the other,
 * part two the lines where the ranges overlap at all; `solve` takes the
 * decision as a function value and counts the lines it accepts.
 */
module SectionRanges {
  import opened Wrappers
  import opened Text

  /** The sections `start` to `end`, both included. */
  datatype Range = Range(start: nat, end: nat)
  {
    /** `Range::contains`: every section of `r` lies inside this range's bounds. */
    predicate Contains(r: Range) {
      start <= r.start && end >= r.end
    }

    predicate Covers(section: nat) {
      start <= section <= end
    }

    predicate WellFormed() {
      start <= end
    }
  }

  /** Every range contains itself, and containment both ways means equal bounds. */
  lemma ContainsReflexive(a: Range, b: Range)
    ensures a.Contains(a)
    ensures a.Contains(b) && b.Contains(a) <==> a == b
  {
  }

  /** Containment by bounds is containment of the covered sections, when the inner range is not empty. */
  lemma ContainsMeansSubset(outer: Range, inner: Range)
    requires inner.WellFormed()
    ensures outer.Contains(inner) <==> forall x :: inner.Covers(x) ==> outer.Covers(x)
  {
    if forall x :: inner.Covers(x) ==> outer.Covers(x) {
      assert inner.Covers(inner.start) && inner.Covers(inner.end);
    }
  }

  /** `is_contained`: one of the two ranges contains the other. */
  predicate IsContained(lhs: Range, rhs: Range) {
    lhs.Contains(rhs) || rhs.Contains(lhs)
  }

  /** For non-empty ranges, `is_contained` holds exactly when the sections of one range all lie in the other. */
  lemma IsContainedMeansSubset(lhs: Range, rhs: Range)
    requires lhs.WellFormed() && rhs.WellFormed()
    ensures IsContained(lhs, rhs) <==>
            (forall x :: rhs.Covers(x) ==> lhs.Covers(x)) || (forall x :: lhs.Covers(x) ==> rhs.Covers(x))
  {
    ContainsMeansSubset(lhs, rhs);
    ContainsMeansSubset(rhs, lhs);
  }

  /** `has_overlap`: the start of one range lies within the other. */
  predicate HasOverlap(lhs: Range, rhs: Range) {
    (lhs.start >= rhs.start && lhs.start <= rhs.end) || (rhs.start >= lhs.start && rhs.start <= lhs.end)
  }

  /** Two non-empty ranges overlap exactly when some section lies in both. */
  lemma HasOverlapMeansShared(lhs: Range, rhs: Range)
    requires lhs.WellFormed() && rhs.WellFormed()
    ensures HasOverlap(lhs, rhs) <==> exists x :: lhs.Covers(x) && rhs.Covers(x)
  {
    if exists x :: lhs.Covers(x) && rhs.Covers(x) {
      var x: nat :| lhs.Covers(x) && rhs.Covers(x);
      if lhs.start >= rhs.start {
        assert lhs.start <= x <= rhs.end;
      }
    } else if lhs.start >= rhs.start && lhs.start <= rhs.end {
      assert lhs.Covers(lhs.start) && rhs.Covers(lhs.start);
    } else if rhs.start >= lhs.start && rhs.start <= lhs.end {
      assert lhs.Covers(rhs.start) && rhs.Covers(rhs.start);
    }
  }

  /** Neither decision depends on the order of the two ranges. */
  lemma DecisionsSymmetric(lhs: Range, rhs: Range)
    ensures IsContained(lhs, rhs) == IsContained(rhs, lhs)
    ensures HasOverlap(lhs, rhs) == HasOverlap(rhs, lhs)
  {
  }

  /** Containment implies overlap, so part one never counts more lines than part two. */
  lemma ContainedOverlaps(lhs: Range, rhs: Range)
    requires lhs.WellFormed() && rhs.WellFormed()
    ensures IsContained(lhs, rhs) ==> HasOverlap(lhs, rhs)
  {
  }

  lemma DecisionExamples()
    ensures IsContained(Range(2, 4), Range(2, 8)) && !IsContained(Range(2, 4), Range(5, 8))
    ensures HasOverlap(Range(2, 4), Range(3, 8)) && !HasOverlap(Range(2, 4), Range(5, 8))
  {
  }

  // -------------------------------------------------------------- parsing

  /** A separator occurs in a string exactly when splitting on it gives more than one piece. */
  lemma {:induction false} SplitSingle(s: string, sep: char)
    ensures |Split(s, sep)| == 1 <==> sep !in s
  {
    if |s| > 0 {
      SplitSingle(s[1..], sep);
      assert s == [s[0]] + s[1..];
    }
  }

  /** What `Range::build` demands to not panic: when there are two pieces, both parse as numbers. */
  predicate Buildable(s: string) {
    var parts := Split(s, '-');
    |parts| >= 2 ==> IsUnsigned(parts[0]) && IsUnsigned(parts[1])
  }

  /**
   * `Range::build`: the numbers before the first and second '-'. A string
   * without '-' has no second piece and is refused; pieces after the second
   * are ignored.
   */
  function RangeBuild(s: string): (r: Result<Range, string>)
    requires Buildable(s)
    ensures r.Err? <==> '-' !in s
    ensures r.Err? ==> r.error == "invalid range"
  {
    SplitSingle(s, '-');
    var parts := Split(s, '-');
    if |parts| < 2 then Err("invalid range")
    else Ok(Range(ParseUnsigned(parts[0]), ParseUnsigned(parts[1])))
  }

  /** A range written as the puzzle input writes it. */
  function FormatRange(r: Range): (s: string)
    ensures ',' !in s
  {
    ShowNat(r.start) + "-" + ShowNat(r.end)
  }

  /** Building a range from its written form gives the range back. */
  lemma BuildFormatRange(r: Range)
    ensures Buildable(FormatRange(r))
    ensures RangeBuild(FormatRange(r)) == Ok(r)
  {
    var a, b := ShowNat(r.start), ShowNat(r.end);
    assert Join([a, b], '-') == FormatRange(r);
    SplitJoin([a, b], '-');
    assert IsUnsigned(a) && IsUnsigned(b);
    ParseShowNat(r.start);
    ParseShowNat(r.end);
  }

  /** A line `parse_line` turns into ranges: every comma-separated piece builds one. */
  predicate ParsableLine(line: string) {
    var pieces := Split(line, ',');
    forall i :: 0 <= i < |pieces| ==> Buildable(pieces[i]) && '-' in pieces[i]
  }

  /** The ranges of a line, one per comma-separated piece. */
  function Ranges(line: string): (rs: seq<Range>)
    requires ParsableLine(line)
    ensures |rs| == |Split(line, ',')|
  {
    var pieces := Split(line, ',');
    seq(|pieces|, i requires 0 <= i < |pieces| => RangeBuild(pieces[i]).value)
  }

  /** `parse_line`: builds the range of every piece, in order. */
  method ParseLine(line: string) returns (result: seq<Range>)
    requires ParsableLine(line)
    ensures result == Ranges(line)
  {
    result := [];
    var pieces := Split(line, ',');
    for i := 0 to |pieces|
      invariant result == Ranges(line)[..i]
    {
      var range := RangeBuild(pieces[i]);
      result := result + [range.value];
    }
  }

  function FormatRanges(rs: seq<Range>): (texts: seq<string>)
    ensures |texts| == |rs|
  {
    seq(|rs|, i requires 0 <= i < |rs| => FormatRange(rs[i]))
  }

  /** A line as the puzzle input writes it: the ranges, separated by commas. */
  function FormatLine(rs: seq<Range>): string
    requires |rs| >= 1
  {
    Join(FormatRanges(rs), ',')
  }

  /** Parsing a written line gives its ranges back, in order. */
  lemma ParseFormatLine(rs: seq<Range>)
    requires |rs| >= 1
    ensures ParsableLine(FormatLine(rs))
    ensures Ranges(FormatLine(rs)) == rs
  {
    var texts := FormatRanges(rs);
    SplitJoin(texts, ',');
    forall i | 0 <= i < |rs| ensures Buildable(texts[i]) && '-' in texts[i] && RangeBuild(texts[i]) == Ok(rs[i]) {
      BuildFormatRange(rs[i]);
    }
  }

  // -------------------------------------------------------------- solving

  /** A line `solve` can score: it parses into exactly two ranges. */
  predicate ValidLine(line: string) {
    ParsableLine(line) && |Ranges(line)| == 2
  }

  /** The number of lines whose two ranges the decision accepts. */
  function Count(lines: seq<string>, decide: (Range, Range) -> bool): (n: nat)
    requires forall i :: 0 <= i < |lines| ==> ValidLine(lines[i])
    ensures n <= |lines|
  {
    if lines == [] then 0
    else
      assert ValidLine(lines[|lines| - 1]);
      var ranges := Ranges(lines[|lines| - 1]);
      Count(lines[..|lines| - 1], decide) + if decide(ranges[0], ranges[1]) then 1 else 0
  }

  /** `solve`: counts the lines whose two ranges `decisionFn` accepts. */
  method Solve(lines: seq<string>, decisionFn: (Range, Range) -> bool) returns (totalScore: nat)
    requires forall i :: 0 <= i < |lines| ==> ValidLine(lines[i])
    ensures totalScore == Count(lines, decisionFn)
  {
    totalScore := 0;
    for i := 0 to |lines|
      invariant totalScore == Count(lines[..i], decisionFn)
    {
      assert lines[..i + 1][..i] == lines[..i];
      assert ValidLine(lines[i]);
      var ranges := ParseLine(lines[i]);
      totalScore := totalScore + if decisionFn(ranges[0], ranges[1]) then 1 else 0;
    }
    assert lines[..|lines|] == lines;
  }

  predicate WellFormedLines(lines: seq<string>)
    requires forall i :: 0 <= i < |lines| ==> ValidLine(lines[i])
  {
    forall i :: 0 <= i < |lines| ==> ValidLine(lines[i]) && Ranges(lines[i])[0].WellFormed() && Ranges(lines[i])[1].WellFormed()
  }

  /** With non-empty ranges, part one's answer never exceeds part two's. */
  lemma {:induction false} ContainedCountAtMostOverlapCount(lines: seq<string>)
    requires forall i :: 0 <= i < |lines| ==> ValidLine(lines[i])
    requires WellFormedLines(lines)
    ensures Count(lines, IsContained) <= Count(lines, HasOverlap)
  {
    if lines != [] {
      var ranges := Ranges(lines[|lines| - 1]);
      ContainedCountAtMostOverlapCount(lines[..|lines| - 1]);
      ContainedOverlaps(ranges[0], ranges[1]);
    }
  }

  lemma FormatLineExample()
    ensures FormatLine([Range(2, 4), Range(12, 42)]) == "2-4,12-42"
  {
    assert ShowNat(2) == "2" && ShowNat(4) == "4";
    assert ShowNat(12) == "12" && ShowNat(42) == "42";
    var texts := FormatRanges([Range(2, 4), Range(12, 42)]);
    assert texts[0] == FormatRange(Range(2, 4)) == "2-4";
    assert texts[1] == FormatRange(Range(12, 42)) == "12-42";
    assert texts == ["2-4", "12-42"];
    assert Join(texts, ',') == "2-4" + [','] + Join(["12-42"], ',');
  }

  /** The example line "2-4,12-42" parses into the ranges 2-4 and 12-42. */
  lemma ParseLineExample()
    ensures ParsableLine("2-4,12-42") && Ranges("2-4,12-42") == [Range(2, 4), Range(12, 42)]
  {
    FormatLineExample();
    ParseFormatLine([Range(2, 4), Range(12, 42)]);
  }
}
