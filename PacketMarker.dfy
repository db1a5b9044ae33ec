/**
 * Tuning trouble (day 6). The answer is the number of characters read when
 * the first window of `windowSize` pairwise different characters ends; when
 * no window qualifies, it is the length of the stream.
 */
module PacketMarker {

  /** No character occurs twice. */
  predicate AllDistinct(w: seq<char>) {
    forall i, j :: 0 <= i < j < |w| ==> w[i] != w[j]
  }

  /** A reference definition that looks at one character at a time. */
  function Distinct(w: seq<char>): (b: bool)
    ensures b <==> AllDistinct(w)
  {
    if w == [] then true
    else
      assert forall j :: 0 < j < |w| ==> w[j] == w[1..][j - 1];
      w[0] !in w[1..] && Distinct(w[1..])
  }

  /** `is_start_of_packet`: inserts the characters into a set and fails at the first one already there. */
  method IsStartOfPacket(window: seq<char>) returns (b: bool)
    ensures b <==> AllDistinct(window)
  {
    var seen: set<char> := {};
    for k := 0 to |window|
      invariant forall c :: c in seen <==> c in window[..k]
      invariant AllDistinct(window[..k])
    {
      if window[k] in seen {
        var i :| 0 <= i < k && window[..k][i] == window[k];
        assert window[i] == window[k];
        return false;
      }
      assert window[..k + 1] == window[..k] + [window[k]];
      seen := seen + {window[k]};
    }
    assert window[..|window|] == window;
    return true;
  }

  /** The window of `windowSize` characters starting at `idx` exists and holds no repeat. */
  predicate IsMarkerAt(stream: seq<char>, windowSize: nat, idx: nat) {
    idx + windowSize <= |stream| && AllDistinct(stream[idx..idx + windowSize])
  }

  /** The first window from `idx` on that qualifies, or the stream length when none does. */
  function MarkerFrom(stream: seq<char>, windowSize: nat, idx: nat): (r: nat)
    decreases |stream| - idx
  {
    if idx + windowSize > |stream| then |stream|
    else if Distinct(stream[idx..idx + windowSize]) then idx + windowSize
    else MarkerFrom(stream, windowSize, idx + 1)
  }

  function Marker(stream: seq<char>, windowSize: nat): nat {
    MarkerFrom(stream, windowSize, 0)
  }

  /** The answer is the end of the first qualifying window, or the stream length when there is none. */
  ghost predicate IsAnswer(stream: seq<char>, windowSize: nat, r: nat) {
    (exists idx: nat :: IsMarkerAt(stream, windowSize, idx) && r == idx + windowSize &&
                       forall j: nat :: j < idx ==> !IsMarkerAt(stream, windowSize, j)) ||
    (r == |stream| && forall j: nat :: !IsMarkerAt(stream, windowSize, j))
  }

  lemma {:induction false} MarkerFromIsFirst(stream: seq<char>, windowSize: nat, idx: nat)
    requires forall j: nat :: j < idx ==> !IsMarkerAt(stream, windowSize, j)
    ensures IsAnswer(stream, windowSize, MarkerFrom(stream, windowSize, idx))
    decreases |stream| - idx
  {
    if idx + windowSize > |stream| {
      forall j: nat ensures !IsMarkerAt(stream, windowSize, j) {
        if j >= idx { assert j + windowSize > |stream|; }
      }
    } else if Distinct(stream[idx..idx + windowSize]) {
      assert IsMarkerAt(stream, windowSize, idx);
    } else {
      MarkerFromIsFirst(stream, windowSize, idx + 1);
    }
  }

  /** `Marker` is the answer, and the answer is unique. */
  lemma MarkerIsAnswer(stream: seq<char>, windowSize: nat, r: nat)
    ensures IsAnswer(stream, windowSize, Marker(stream, windowSize))
    ensures IsAnswer(stream, windowSize, r) ==> r == Marker(stream, windowSize)
  {
    MarkerFromIsFirst(stream, windowSize, 0);
  }

  /** The answer never exceeds the stream length, and is at least the window size when a window fits. */
  lemma MarkerBounds(stream: seq<char>, windowSize: nat)
    ensures Marker(stream, windowSize) <= |stream|
    ensures windowSize <= |stream| ==> windowSize <= Marker(stream, windowSize)
  {
    MarkerFromIsFirst(stream, windowSize, 0);
  }

  /** `solve_day6`: tries the windows in order and returns where the first packet start ends. */
  method SolveDay6(stream: seq<char>, windowSize: nat) returns (r: nat)
    requires windowSize > 0
    ensures IsAnswer(stream, windowSize, r)
    ensures r == Marker(stream, windowSize)
  {
    MarkerIsAnswer(stream, windowSize, 0);
    if windowSize > |stream| {
      return |stream|;
    }
    for idx := 0 to |stream| - windowSize + 1
      invariant MarkerFrom(stream, windowSize, idx) == Marker(stream, windowSize)
    {
      var found := IsStartOfPacket(stream[idx..idx + windowSize]);
      if found {
        return idx + windowSize;
      }
    }
    return |stream|;
  }

  /** Two equal characters inside a window keep it from being a marker. */
  lemma RepeatInWindow(s: seq<char>, windowSize: nat, idx: nat, a: nat, b: nat)
    requires idx <= a < b < idx + windowSize <= |s| && s[a] == s[b]
    ensures !IsMarkerAt(s, windowSize, idx)
  {
    assert s[idx..idx + windowSize][a - idx] == s[idx..idx + windowSize][b - idx];
  }

  /** The characters of the first example stream that its two examples look at. */
  lemma FirstStreamChars(s: string)
    requires s == "mjqjpqmgbljsphdztnvjfqwrcgsmlb"
    ensures |s| == 30
    ensures s[0] == 'm' && s[1] == 'j' && s[2] == 'q' && s[3] == 'j' && s[4] == 'p' && s[5] == 'q' && s[6] == 'm'
    ensures s[7] == 'g' && s[8] == 'b' && s[9] == 'l' && s[10] == 'j' && s[11] == 's' && s[12] == 'p'
    ensures s[13] == 'h' && s[14] == 'd' && s[15] == 'z' && s[16] == 't' && s[17] == 'n' && s[18] == 'v'
  {
    FirstStreamHead(s);
    FirstStreamMiddle(s);
    FirstStreamTail(s);
  }

  lemma FirstStreamHead(s: string)
    requires s == "mjqjpqmgbljsphdztnvjfqwrcgsmlb"
    ensures |s| == 30
    ensures s[0] == 'm' && s[1] == 'j' && s[2] == 'q' && s[3] == 'j' && s[4] == 'p' && s[5] == 'q' && s[6] == 'm'
  {
  }

  lemma FirstStreamMiddle(s: string)
    requires s == "mjqjpqmgbljsphdztnvjfqwrcgsmlb"
    ensures s[7] == 'g' && s[8] == 'b' && s[9] == 'l' && s[10] == 'j' && s[11] == 's' && s[12] == 'p'
  {
  }

  lemma FirstStreamTail(s: string)
    requires s == "mjqjpqmgbljsphdztnvjfqwrcgsmlb"
    ensures s[13] == 'h' && s[14] == 'd' && s[15] == 'z' && s[16] == 't' && s[17] == 'n' && s[18] == 'v'
  {
  }

  /** The first example stream: its first start of packet ends after character 7. */
  lemma PacketExample(s: string)
    requires s == "mjqjpqmgbljsphdztnvjfqwrcgsmlb"
    ensures Marker(s, 4) == 7
  {
    FirstStreamChars(s);
    PacketAfterSeven(s);
  }

  lemma PacketAfterSeven(s: string)
    requires |s| >= 7
    requires s[0] == 'm' && s[1] == 'j' && s[2] == 'q' && s[3] == 'j' && s[4] == 'p' && s[5] == 'q' && s[6] == 'm'
    ensures Marker(s, 4) == 7
  {
    RepeatInWindow(s, 4, 0, 1, 3);
    RepeatInWindow(s, 4, 1, 1, 3);
    RepeatInWindow(s, 4, 2, 2, 5);
    assert IsMarkerAt(s, 4, 3);
    assert forall j: nat :: j < 3 ==> !IsMarkerAt(s, 4, j);
    MarkerIsAnswer(s, 4, 7);
  }

  /** The second example stream: its first start of packet ends after character 5. */
  lemma SecondPacketExample(s: string)
    requires s == "bvwbjplbgvbhsrlpgdmjqwftvncz"
    ensures Marker(s, 4) == 5
  {
    SecondStreamChars(s);
    PacketAfterFive(s);
  }

  lemma SecondStreamChars(s: string)
    requires s == "bvwbjplbgvbhsrlpgdmjqwftvncz"
    ensures |s| == 28 && s[0] == 'b' && s[1] == 'v' && s[2] == 'w' && s[3] == 'b' && s[4] == 'j'
  {
  }

  lemma PacketAfterFive(s: string)
    requires |s| >= 5 && s[0] == 'b' && s[1] == 'v' && s[2] == 'w' && s[3] == 'b' && s[4] == 'j'
    ensures Marker(s, 4) == 5
  {
    RepeatInWindow(s, 4, 0, 0, 3);
    assert IsMarkerAt(s, 4, 1);
    forall j: nat | j < 1 ensures !IsMarkerAt(s, 4, j) {
      assert j == 0;
    }
    MarkerIsAnswer(s, 4, 5);
  }

  /** The first example stream again: its first start of message ends after character 19. */
  lemma MessageExample(s: string)
    requires s == "mjqjpqmgbljsphdztnvjfqwrcgsmlb"
    ensures Marker(s, 14) == 19
  {
    FirstStreamChars(s);
    MessageAfterNineteen(s);
  }

  lemma MessageAfterNineteen(s: string)
    requires |s| >= 19
    requires s[0] == 'm' && s[1] == 'j' && s[2] == 'q' && s[3] == 'j' && s[4] == 'p' && s[5] == 'q' && s[6] == 'm'
    requires s[7] == 'g' && s[8] == 'b' && s[9] == 'l' && s[10] == 'j' && s[11] == 's' && s[12] == 'p'
    requires s[13] == 'h' && s[14] == 'd' && s[15] == 'z' && s[16] == 't' && s[17] == 'n' && s[18] == 'v'
    ensures Marker(s, 14) == 19
  {
    MessageWindowDistinct(s[5..19]);
    assert IsMarkerAt(s, 14, 5);
    forall j: nat | j < 5 ensures !IsMarkerAt(s, 14, j) {
      if j <= 1 {
        RepeatInWindow(s, 14, j, 1, 3);
      } else if j == 2 {
        RepeatInWindow(s, 14, 2, 2, 5);
      } else if j == 3 {
        RepeatInWindow(s, 14, 3, 3, 10);
      } else {
        RepeatInWindow(s, 14, 4, 4, 12);
      }
    }
    assert IsAnswer(s, 14, 19);
    MarkerIsAnswer(s, 14, 19);
  }

  /** The fourteen characters "qmgbljsphdztnv" are pairwise different. */
  lemma MessageWindowDistinct(w: string)
    requires |w| == 14
    requires w[0] == 'q' && w[1] == 'm' && w[2] == 'g' && w[3] == 'b' && w[4] == 'l' && w[5] == 'j' && w[6] == 's'
    requires w[7] == 'p' && w[8] == 'h' && w[9] == 'd' && w[10] == 'z' && w[11] == 't' && w[12] == 'n' && w[13] == 'v'
    ensures AllDistinct(w)
  {
  }
}
