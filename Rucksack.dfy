/**
 * Rucksack priorities (day 3). Items are letters; 'a'..'z' have priorities
 * 1..26 and 'A'..'Z' have 27..52. Part one splits every line into its two
 * halves and adds the priority of the item both halves share; part two groups
 * the lines in threes and adds the priority of the item all three share.
 * "Shared" always means: the first item of the last list, in order, that the
 * other lists also hold.
 */
module Rucksack {

  predicate IsItem(c: char) {
    ('a' <= c <= 'z') || ('A' <= c <= 'Z')
  }

  /** `item_priority`: a bijection from the 52 letters onto 1..52, lower case first. */
  function ItemPriority(item: char): (p: nat)
    requires IsItem(item)
    ensures 1 <= p <= 52
    ensures ('a' <= item <= 'z') <==> p <= 26
  {
    if 'A' <= item <= 'Z' then item as int - 'A' as int + 27
    else item as int - 'a' as int + 1
  }

  /** The item of a priority, the inverse of `ItemPriority`. */
  function ItemOfPriority(p: nat): (item: char)
    requires 1 <= p <= 52
    ensures IsItem(item)
  {
    if p <= 26 then ('a' as int + p - 1) as char else ('A' as int + p - 27) as char
  }

  /** Priorities and items correspond one to one. */
  lemma PriorityBijection(item: char, p: nat)
    requires IsItem(item) && 1 <= p <= 52
    ensures ItemOfPriority(ItemPriority(item)) == item
    ensures ItemPriority(ItemOfPriority(p)) == p
  {
  }

  lemma PriorityExamples()
    ensures ItemPriority('b') == 2 && ItemPriority('t') == 20
    ensures ItemPriority('B') == 28 && ItemPriority('L') == 38
  {
  }

  // ------------------------------------------------------------ two lists

  predicate HaveCommon(left: seq<char>, right: seq<char>) {
    exists k :: 0 <= k < |right| && right[k] in left
  }

  /** The first item of `right`, in order, that `left` holds as well. */
  function FirstCommon(left: seq<char>, right: seq<char>): char
    requires HaveCommon(left, right)
  {
    if right[0] in left then right[0]
    else
      assert HaveCommon(left, right[1..]) by {
        var k :| 0 <= k < |right| && right[k] in left;
        assert right[1..][k - 1] == right[k];
      }
      FirstCommon(left, right[1..])
  }

  /** `FirstCommon` is in both lists, and every item of `right` before it is missing from `left`. */
  lemma {:induction false} FirstCommonIsFirst(left: seq<char>, right: seq<char>)
    requires HaveCommon(left, right)
    ensures exists k :: 0 <= k < |right| && right[k] == FirstCommon(left, right) &&
                        forall j :: 0 <= j < k ==> right[j] !in left
    ensures FirstCommon(left, right) in left
  {
    if right[0] !in left {
      assert HaveCommon(left, right[1..]) by {
        var k :| 0 <= k < |right| && right[k] in left;
        assert right[1..][k - 1] == right[k];
      }
      FirstCommonIsFirst(left, right[1..]);
      var k :| 0 <= k < |right| - 1 && right[1..][k] == FirstCommon(left, right[1..]) &&
               forall j :: 0 <= j < k ==> right[1..][j] !in left;
      assert right[k + 1] == FirstCommon(left, right);
      forall j | 0 <= j < k + 1 ensures right[j] !in left {
        if j > 0 { assert right[j] == right[1..][j - 1]; }
      }
    } else {
      assert right[0] == FirstCommon(left, right);
    }
  }

  /**
   * `find_duplicated`: collects the items of `left` in a set, then returns
   * the first item of `right` found in it.
   */
  method FindDuplicated(left: seq<char>, right: seq<char>) returns (item: char)
    requires HaveCommon(left, right)
    ensures item == FirstCommon(left, right)
    ensures item in left && item in right
  {
    var mapLeft: set<char> := {};
    for i := 0 to |left|
      invariant forall c :: c in mapLeft <==> c in left[..i]
    {
      assert left[..i + 1] == left[..i] + [left[i]];
      mapLeft := mapLeft + {left[i]};
    }
    assert left[..|left|] == left;
    FirstCommonIsFirst(left, right);
    ghost var k :| 0 <= k < |right| && right[k] == FirstCommon(left, right) &&
                   forall j :: 0 <= j < k ==> right[j] !in left;
    var n := 0;
    while right[n] !in mapLeft
      invariant 0 <= n <= k
      decreases k - n
    {
      n := n + 1;
    }
    item := right[n];
  }

  // ---------------------------------------------------------- three lists

  predicate HaveThreewayCommon(left: seq<char>, mid: seq<char>, right: seq<char>) {
    exists k :: 0 <= k < |right| && right[k] in left && right[k] in mid
  }

  /** The first item of `right`, in order, that both `left` and `mid` hold. */
  function FirstThreewayCommon(left: seq<char>, mid: seq<char>, right: seq<char>): char
    requires HaveThreewayCommon(left, mid, right)
  {
    if right[0] in left && right[0] in mid then right[0]
    else
      assert HaveThreewayCommon(left, mid, right[1..]) by {
        var k :| 0 <= k < |right| && right[k] in left && right[k] in mid;
        assert right[1..][k - 1] == right[k];
      }
      FirstThreewayCommon(left, mid, right[1..])
  }

  /** `FirstThreewayCommon` is in all three lists, and nothing earlier in `right` is in both others. */
  lemma {:induction false} FirstThreewayCommonIsFirst(left: seq<char>, mid: seq<char>, right: seq<char>)
    requires HaveThreewayCommon(left, mid, right)
    ensures exists k :: 0 <= k < |right| && right[k] == FirstThreewayCommon(left, mid, right) &&
                        forall j :: 0 <= j < k ==> !(right[j] in left && right[j] in mid)
    ensures FirstThreewayCommon(left, mid, right) in left
    ensures FirstThreewayCommon(left, mid, right) in mid
  {
    if !(right[0] in left && right[0] in mid) {
      assert HaveThreewayCommon(left, mid, right[1..]) by {
        var k :| 0 <= k < |right| && right[k] in left && right[k] in mid;
        assert right[1..][k - 1] == right[k];
      }
      FirstThreewayCommonIsFirst(left, mid, right[1..]);
      var k :| 0 <= k < |right| - 1 && right[1..][k] == FirstThreewayCommon(left, mid, right[1..]) &&
               forall j :: 0 <= j < k ==> !(right[1..][j] in left && right[1..][j] in mid);
      assert right[k + 1] == FirstThreewayCommon(left, mid, right);
      forall j | 0 <= j < k + 1 ensures !(right[j] in left && right[j] in mid) {
        if j > 0 { assert right[j] == right[1..][j - 1]; }
      }
    } else {
      assert right[0] == FirstThreewayCommon(left, mid, right);
    }
  }

  /** `find_threeway_duplicated`: two sets, then the first item of `right` in both. */
  method FindThreewayDuplicated(left: seq<char>, mid: seq<char>, right: seq<char>) returns (item: char)
    requires HaveThreewayCommon(left, mid, right)
    ensures item == FirstThreewayCommon(left, mid, right)
    ensures item in left && item in mid && item in right
  {
    var mapLeft: set<char> := {};
    var mapMid: set<char> := {};
    for i := 0 to |left|
      invariant forall c :: c in mapLeft <==> c in left[..i]
    {
      assert left[..i + 1] == left[..i] + [left[i]];
      mapLeft := mapLeft + {left[i]};
    }
    for i := 0 to |mid|
      invariant forall c :: c in mapMid <==> c in mid[..i]
    {
      assert mid[..i + 1] == mid[..i] + [mid[i]];
      mapMid := mapMid + {mid[i]};
    }
    assert left[..|left|] == left && mid[..|mid|] == mid;
    FirstThreewayCommonIsFirst(left, mid, right);
    ghost var k :| 0 <= k < |right| && right[k] == FirstThreewayCommon(left, mid, right) &&
                   forall j :: 0 <= j < k ==> !(right[j] in left && right[j] in mid);
    var n := 0;
    while !(right[n] in mapLeft && right[n] in mapMid)
      invariant 0 <= n <= k
      decreases k - n
    {
      n := n + 1;
    }
    item := right[n];
  }

  // ------------------------------------------------------------ part one

  /** A line part one can score: even length, halves with an item in common, and that item a letter. */
  predicate ValidRucksack(line: string) {
    |line| % 2 == 0 && HaveCommon(line[..|line| / 2], line[|line| / 2..]) &&
    IsItem(FirstCommon(line[..|line| / 2], line[|line| / 2..]))
  }

  function RucksackPriority(line: string): (p: nat)
    requires ValidRucksack(line)
    ensures 1 <= p <= 52
  {
    var item := FirstCommon(line[..|line| / 2], line[|line| / 2..]);
    ItemPriority(item)
  }

  function TotalPt1(lines: seq<string>): nat
    requires forall i :: 0 <= i < |lines| ==> ValidRucksack(lines[i])
  {
    if lines == [] then 0 else TotalPt1(lines[..|lines| - 1]) + RucksackPriority(lines[|lines| - 1])
  }

  /** `solve_pt1`: the priorities of the items both halves of each line share. */
  method SolvePt1(lines: seq<string>) returns (totalSum: nat)
    requires forall i :: 0 <= i < |lines| ==> ValidRucksack(lines[i])
    ensures totalSum == TotalPt1(lines)
    ensures |lines| <= totalSum <= 52 * |lines|
  {
    totalSum := 0;
    for i := 0 to |lines|
      invariant totalSum == TotalPt1(lines[..i])
      invariant i <= totalSum <= 52 * i
    {
      assert lines[..i + 1][..i] == lines[..i];
      var line := lines[i];
      var head, tail := line[..|line| / 2], line[|line| / 2..];
      var item := FindDuplicated(head, tail);
      totalSum := totalSum + ItemPriority(item);
    }
    assert lines[..|lines|] == lines;
  }

  // ------------------------------------------------------------ part two

  /** `lines.windows(3)`: every run of three consecutive lines, overlapping. */
  function Windows3<T>(lines: seq<T>): (ws: seq<seq<T>>)
    ensures |ws| == if |lines| >= 3 then |lines| - 2 else 0
  {
    seq(if |lines| >= 3 then |lines| - 2 else 0, i requires 0 <= i && i + 3 <= |lines| => lines[i..i + 3])
  }

  /** `.step_by(3)`: the elements at positions 0, 3, 6, ... */
  function StepBy3<T>(ws: seq<T>): (r: seq<T>)
    ensures |r| == (|ws| + 2) / 3
  {
    seq((|ws| + 2) / 3, k requires 0 <= k < (|ws| + 2) / 3 => ws[3 * k])
  }

  /** The groups of part two are consecutive, non-overlapping triples from the first line; one or two lines left over are ignored. */
  lemma GroupsAreTriples<T>(lines: seq<T>)
    ensures |StepBy3(Windows3(lines))| == |lines| / 3
    ensures forall k :: 0 <= k < |lines| / 3 ==> StepBy3(Windows3(lines))[k] == lines[3 * k..3 * k + 3]
  {
  }

  predicate ValidGroup(group: seq<string>) {
    |group| == 3 && HaveThreewayCommon(group[0], group[1], group[2]) &&
    IsItem(FirstThreewayCommon(group[0], group[1], group[2]))
  }

  function GroupPriority(group: seq<string>): (p: nat)
    requires ValidGroup(group)
    ensures 1 <= p <= 52
  {
    ItemPriority(FirstThreewayCommon(group[0], group[1], group[2]))
  }

  function TotalPt2(groups: seq<seq<string>>): nat
    requires forall i :: 0 <= i < |groups| ==> ValidGroup(groups[i])
  {
    if groups == [] then 0 else TotalPt2(groups[..|groups| - 1]) + GroupPriority(groups[|groups| - 1])
  }

  /** `solve_pt2`: the priorities of the items shared by each group of three lines. */
  method SolvePt2(lines: seq<string>) returns (totalSum: nat)
    requires forall i :: 0 <= i < |StepBy3(Windows3(lines))| ==> ValidGroup(StepBy3(Windows3(lines))[i])
    ensures totalSum == TotalPt2(StepBy3(Windows3(lines)))
    ensures |lines| / 3 <= totalSum <= 52 * (|lines| / 3)
  {
    var groups := StepBy3(Windows3(lines));
    GroupsAreTriples(lines);
    totalSum := 0;
    for i := 0 to |groups|
      invariant totalSum == TotalPt2(groups[..i])
      invariant i <= totalSum <= 52 * i
    {
      assert groups[..i + 1][..i] == groups[..i];
      var window := groups[i];
      var item := FindThreewayDuplicated(window[0], window[1], window[2]);
      totalSum := totalSum + ItemPriority(item);
    }
    assert groups[..|groups|] == groups;
  }

  lemma FindDuplicatedExample()
    ensures HaveCommon(['a', 't', 'x'], ['c', 'b', 't'])
    ensures FirstCommon(['a', 't', 'x'], ['c', 'b', 't']) == 't'
    ensures HaveThreewayCommon(['a', 't', 'x', 'x', 'x'], ['z', 't', 'a', 'x', 'c'], ['c', 'b', 't', 'b', 'b'])
    ensures FirstThreewayCommon(['a', 't', 'x', 'x', 'x'], ['z', 't', 'a', 'x', 'c'], ['c', 'b', 't', 'b', 'b']) == 't'
  {
    var right: seq<char> := ['c', 'b', 't'];
    assert right[2] in ['a', 't', 'x'];
    var right3: seq<char> := ['c', 'b', 't', 'b', 'b'];
    assert right3[2] in ['a', 't', 'x', 'x', 'x'] && right3[2] in ['z', 't', 'a', 'x', 'c'];
  }
}
