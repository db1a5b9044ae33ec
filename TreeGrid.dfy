/**
 * Treetop tree house (day 8). The input is a grid of digit heights, kept
 * row by row in one vector. Part one counts the trees visible from outside
 * the grid: a tree is visible when every tree between it and an edge, in
 * one of the four directions, is strictly lower. Part two finds the largest
 * scenic score, the product of how far one can see in each direction.
 */
module TreeGrid {
  import opened Text

  function Max(a: nat, b: nat): nat { if a < b then b else a }

  /** The grid: `height` rows of `width` heights, stored row after row. */
  datatype Map = Map(trees: seq<nat>, width: nat, height: nat)
  {
    /** Every row is complete. */
    predicate Valid() {
      width > 0 && |trees| == width * height
    }

    /** Where the tree at column `x` of row `y` is stored. */
    function Idx(x: nat, y: nat): (i: nat)
      requires x < width && y < height
      ensures i < width * height
    {
      MulLe(y + 1, height, width);
      y * width + x
    }

    /** The column and the row of the cell stored at `i`. */
    function Col(i: nat): nat
      requires width > 0
    {
      i % width
    }

    function Row(i: nat): nat
      requires width > 0
    {
      i / width
    }

    /** `Map::get`: the height of the tree at column `x` of row `y`. */
    function Get(x: nat, y: nat): nat
      requires Valid() && x < width && y < height
    {
      trees[Idx(x, y)]
    }

    /** `Map::inside`: the point lies on the grid. */
    predicate Inside(x: int, y: int) {
      0 <= x < width && 0 <= y < height
    }
  }

  // ------------------------------------------------------ index arithmetic

  lemma MulLe(a: nat, b: nat, c: nat)
    requires a <= b
    ensures a * c <= b * c
  {
  }

  /** Division by `w` undoes the row-major layout. */
  lemma DivModUnique(n: nat, w: nat, q: nat, r: nat)
    requires w > 0 && r < w && n == q * w + r
    ensures n / w == q && n % w == r
  {
    var q', r' := n / w, n % w;
    assert n == q' * w + r';
    if q' < q {
      MulLe(q' + 1, q, w);
      assert false;
    } else if q < q' {
      MulLe(q + 1, q', w);
      assert false;
    }
  }

  /** Every cell has its own place inside the vector. */
  lemma IdxFacts(m: Map, x: nat, y: nat)
    requires x < m.width && y < m.height
    ensures m.Row(m.Idx(x, y)) == y && m.Col(m.Idx(x, y)) == x
  {
    DivModUnique(m.Idx(x, y), m.width, y, x);
  }

  /** Every place inside the vector holds a cell of the grid. */
  lemma Coord(m: Map, i: nat)
    requires m.Valid() && i < |m.trees|
    ensures m.Col(i) < m.width && m.Row(i) < m.height && m.Idx(m.Col(i), m.Row(i)) == i
  {
    var q, r := i / m.width, i % m.width;
    if q >= m.height {
      MulLe(m.height, q, m.width);
    }
  }

  /** `Map::inside` holds exactly for the points that name a stored tree. */
  lemma InsideIffStored(m: Map, x: int, y: int)
    requires m.Valid()
    ensures m.Inside(x, y) <==> exists i :: 0 <= i < |m.trees| && m.Col(i) == x && m.Row(i) == y
  {
    if m.Inside(x, y) {
      IdxFacts(m, x, y);
      assert m.Col(m.Idx(x, y)) == x && m.Row(m.Idx(x, y)) == y;
    }
    forall i | 0 <= i < |m.trees| && m.Col(i) == x && m.Row(i) == y ensures m.Inside(x, y) {
      Coord(m, i);
    }
  }

  /** Two cells stored at the same place are the same cell. */
  lemma IdxInjective(m: Map, x: nat, y: nat)
    requires x < m.width && y < m.height
    ensures forall xx: nat, yy: nat :: xx < m.width && yy < m.height && m.Idx(xx, yy) == m.Idx(x, y) ==> xx == x && yy == y
  {
    IdxFacts(m, x, y);
    forall xx: nat, yy: nat | xx < m.width && yy < m.height && m.Idx(xx, yy) == m.Idx(x, y) ensures xx == x && yy == y {
      IdxFacts(m, xx, yy);
    }
  }

  // ------------------------------------------------ the tallest tree before

  /** The tallest tree left of the cell in its row, or 0 when there is none. */
  function MaxLeft(m: Map, x: nat, y: nat): nat
    requires m.Valid() && x < m.width && y < m.height
  {
    if x == 0 then 0 else Max(MaxLeft(m, x - 1, y), m.Get(x - 1, y))
  }

  /** The tallest tree right of the cell in its row, or 0 when there is none. */
  function MaxRight(m: Map, x: nat, y: nat): nat
    requires m.Valid() && x < m.width && y < m.height
    decreases m.width - x
  {
    if x == m.width - 1 then 0 else Max(MaxRight(m, x + 1, y), m.Get(x + 1, y))
  }

  /** The tallest tree above the cell (smaller `y`) in its column, or 0 when there is none. */
  function MaxTop(m: Map, x: nat, y: nat): nat
    requires m.Valid() && x < m.width && y < m.height
  {
    if y == 0 then 0 else Max(MaxTop(m, x, y - 1), m.Get(x, y - 1))
  }

  /** The tallest tree below the cell (larger `y`) in its column, or 0 when there is none. */
  function MaxBottom(m: Map, x: nat, y: nat): nat
    requires m.Valid() && x < m.width && y < m.height
    decreases m.height - y
  {
    if y == m.height - 1 then 0 else Max(MaxBottom(m, x, y + 1), m.Get(x, y + 1))
  }

  /** `MaxLeft` is the maximum of the trees left of the cell: no tree there is taller, and one is as tall. */
  lemma {:induction false} MaxLeftIsMax(m: Map, x: nat, y: nat)
    requires m.Valid() && x < m.width && y < m.height
    ensures forall i :: 0 <= i < x ==> m.Get(i, y) <= MaxLeft(m, x, y)
    ensures x == 0 ==> MaxLeft(m, x, y) == 0
    ensures x > 0 ==> exists i :: 0 <= i < x && m.Get(i, y) == MaxLeft(m, x, y)
  {
    if x > 0 {
      MaxLeftIsMax(m, x - 1, y);
      if m.Get(x - 1, y) >= MaxLeft(m, x - 1, y) {
        assert m.Get(x - 1, y) == MaxLeft(m, x, y);
      } else {
        var i :| 0 <= i < x - 1 && m.Get(i, y) == MaxLeft(m, x - 1, y);
        assert m.Get(i, y) == MaxLeft(m, x, y);
      }
    }
  }

  lemma {:induction false} MaxRightIsMax(m: Map, x: nat, y: nat)
    requires m.Valid() && x < m.width && y < m.height
    ensures forall i :: x < i < m.width ==> m.Get(i, y) <= MaxRight(m, x, y)
    ensures x == m.width - 1 ==> MaxRight(m, x, y) == 0
    ensures x < m.width - 1 ==> exists i :: x < i < m.width && m.Get(i, y) == MaxRight(m, x, y)
    decreases m.width - x
  {
    if x < m.width - 1 {
      MaxRightIsMax(m, x + 1, y);
      if m.Get(x + 1, y) >= MaxRight(m, x + 1, y) {
        assert m.Get(x + 1, y) == MaxRight(m, x, y);
      } else {
        var i :| x + 1 < i < m.width && m.Get(i, y) == MaxRight(m, x + 1, y);
        assert m.Get(i, y) == MaxRight(m, x, y);
      }
    }
  }

  lemma {:induction false} MaxTopIsMax(m: Map, x: nat, y: nat)
    requires m.Valid() && x < m.width && y < m.height
    ensures forall j :: 0 <= j < y ==> m.Get(x, j) <= MaxTop(m, x, y)
    ensures y == 0 ==> MaxTop(m, x, y) == 0
    ensures y > 0 ==> exists j :: 0 <= j < y && m.Get(x, j) == MaxTop(m, x, y)
  {
    if y > 0 {
      MaxTopIsMax(m, x, y - 1);
      if m.Get(x, y - 1) >= MaxTop(m, x, y - 1) {
        assert m.Get(x, y - 1) == MaxTop(m, x, y);
      } else {
        var j :| 0 <= j < y - 1 && m.Get(x, j) == MaxTop(m, x, y - 1);
        assert m.Get(x, j) == MaxTop(m, x, y);
      }
    }
  }

  lemma {:induction false} MaxBottomIsMax(m: Map, x: nat, y: nat)
    requires m.Valid() && x < m.width && y < m.height
    ensures forall j :: y < j < m.height ==> m.Get(x, j) <= MaxBottom(m, x, y)
    ensures y == m.height - 1 ==> MaxBottom(m, x, y) == 0
    ensures y < m.height - 1 ==> exists j :: y < j < m.height && m.Get(x, j) == MaxBottom(m, x, y)
    decreases m.height - y
  {
    if y < m.height - 1 {
      MaxBottomIsMax(m, x, y + 1);
      if m.Get(x, y + 1) >= MaxBottom(m, x, y + 1) {
        assert m.Get(x, y + 1) == MaxBottom(m, x, y);
      } else {
        var j :| y + 1 < j < m.height && m.Get(x, j) == MaxBottom(m, x, y + 1);
        assert m.Get(x, j) == MaxBottom(m, x, y);
      }
    }
  }

  // ------------------------------------------------------------ visibility

  /** Every tree between the cell and the left edge is strictly lower. */
  predicate ClearLeft(m: Map, x: nat, y: nat)
    requires m.Valid() && x < m.width && y < m.height
  {
    forall i :: 0 <= i < x ==> m.Get(i, y) < m.Get(x, y)
  }

  predicate ClearRight(m: Map, x: nat, y: nat)
    requires m.Valid() && x < m.width && y < m.height
  {
    forall i :: x < i < m.width ==> m.Get(i, y) < m.Get(x, y)
  }

  predicate ClearTop(m: Map, x: nat, y: nat)
    requires m.Valid() && x < m.width && y < m.height
  {
    forall j :: 0 <= j < y ==> m.Get(x, j) < m.Get(x, y)
  }

  predicate ClearBottom(m: Map, x: nat, y: nat)
    requires m.Valid() && x < m.width && y < m.height
  {
    forall j :: y < j < m.height ==> m.Get(x, j) < m.Get(x, y)
  }

  /** The tree can be seen from outside the grid along one of the four directions. */
  predicate VisibleFromOutside(m: Map, x: nat, y: nat)
    requires m.Valid() && x < m.width && y < m.height
  {
    ClearLeft(m, x, y) || ClearRight(m, x, y) || ClearTop(m, x, y) || ClearBottom(m, x, y)
  }

  predicate OnEdge(m: Map, x: nat, y: nat) {
    x == 0 || y == 0 || x == m.width - 1 || y == m.height - 1
  }

  /** The test `solve_pt1` applies to an inner tree: it is taller than the tallest tree before it in some scan. */
  predicate TallerThanAScan(m: Map, x: nat, y: nat)
    requires m.Valid() && x < m.width && y < m.height
  {
    var h := m.Get(x, y);
    MaxLeft(m, x, y) < h || MaxRight(m, x, y) < h || MaxTop(m, x, y) < h || MaxBottom(m, x, y) < h
  }

  /** Edge trees are visible, and an inner tree is visible exactly when it beats one of the four scans. */
  lemma VisibleIffScans(m: Map, x: nat, y: nat)
    requires m.Valid() && x < m.width && y < m.height
    ensures VisibleFromOutside(m, x, y) <==> OnEdge(m, x, y) || TallerThanAScan(m, x, y)
  {
    var h := m.Get(x, y);
    MaxLeftIsMax(m, x, y);
    MaxRightIsMax(m, x, y);
    MaxTopIsMax(m, x, y);
    MaxBottomIsMax(m, x, y);
    if x > 0 && MaxLeft(m, x, y) >= h {
      var i :| 0 <= i < x && m.Get(i, y) == MaxLeft(m, x, y);
    }
    if x < m.width - 1 && MaxRight(m, x, y) >= h {
      var i :| x < i < m.width && m.Get(i, y) == MaxRight(m, x, y);
    }
    if y > 0 && MaxTop(m, x, y) >= h {
      var j :| 0 <= j < y && m.Get(x, j) == MaxTop(m, x, y);
    }
    if y < m.height - 1 && MaxBottom(m, x, y) >= h {
      var j :| y < j < m.height && m.Get(x, j) == MaxBottom(m, x, y);
    }
  }

  // ------------------------------------------------------------ the scans

  /** What each scan should leave at place `i` of its vector. */
  function LeftAt(m: Map, i: nat): nat
    requires m.Valid() && i < |m.trees|
  {
    Coord(m, i);
    MaxLeft(m, m.Col(i), m.Row(i))
  }

  function RightAt(m: Map, i: nat): nat
    requires m.Valid() && i < |m.trees|
  {
    Coord(m, i);
    MaxRight(m, m.Col(i), m.Row(i))
  }

  function TopAt(m: Map, i: nat): nat
    requires m.Valid() && i < |m.trees|
  {
    Coord(m, i);
    MaxTop(m, m.Col(i), m.Row(i))
  }

  function BottomAt(m: Map, i: nat): nat
    requires m.Valid() && i < |m.trees|
  {
    Coord(m, i);
    MaxBottom(m, m.Col(i), m.Row(i))
  }

  /** The scans visit every cell, so every place of the vector has been written. */
  lemma AllPlaces(m: Map)
    requires m.Valid()
    ensures forall i :: 0 <= i < |m.trees| ==> m.Col(i) < m.width && m.Row(i) < m.height && m.Idx(m.Col(i), m.Row(i)) == i
  {
    forall i | 0 <= i < |m.trees| ensures m.Col(i) < m.width && m.Row(i) < m.height && m.Idx(m.Col(i), m.Row(i)) == i {
      Coord(m, i);
    }
  }

  /** The `left_to_right` scan of `solve_pt1`: each cell gets the tallest tree left of it in its row. */
  method ScanLeftToRight(m: Map) returns (buf: array<nat>)
    requires m.Valid()
    ensures fresh(buf) && buf.Length == m.width * m.height
    ensures forall i :: 0 <= i < buf.Length ==> buf[i] == LeftAt(m, i)
  {
    buf := new nat[m.width * m.height](_ => 0);
    AllPlaces(m);
    for y := 0 to m.height
      invariant forall i :: 0 <= i < buf.Length && m.Row(i) < y ==> buf[i] == LeftAt(m, i)
    {
      var rowMax := 0;
      for x := 0 to m.width
        invariant forall i :: 0 <= i < buf.Length && m.Row(i) < y ==> buf[i] == LeftAt(m, i)
        invariant forall i :: 0 <= i < buf.Length && m.Row(i) == y && m.Col(i) < x ==> buf[i] == LeftAt(m, i)
        invariant x < m.width ==> rowMax == MaxLeft(m, x, y)
      {
        IdxFacts(m, x, y);
        buf[m.Idx(x, y)] := rowMax;
        rowMax := Max(rowMax, m.Get(x, y));
      }
    }
  }

  /** The `right_to_left` scan: each cell gets the tallest tree right of it in its row. */
  method ScanRightToLeft(m: Map) returns (buf: array<nat>)
    requires m.Valid()
    ensures fresh(buf) && buf.Length == m.width * m.height
    ensures forall i :: 0 <= i < buf.Length ==> buf[i] == RightAt(m, i)
  {
    buf := new nat[m.width * m.height](_ => 0);
    AllPlaces(m);
    for y := 0 to m.height
      invariant forall i :: 0 <= i < buf.Length && m.Row(i) < y ==> buf[i] == RightAt(m, i)
    {
      var rowMax := 0;
      var x := m.width;
      while x > 0
        invariant x <= m.width
        invariant forall i :: 0 <= i < buf.Length && m.Row(i) < y ==> buf[i] == RightAt(m, i)
        invariant forall i :: 0 <= i < buf.Length && m.Row(i) == y && x <= m.Col(i) ==> buf[i] == RightAt(m, i)
        invariant x > 0 ==> rowMax == MaxRight(m, x - 1, y)
      {
        x := x - 1;
        IdxFacts(m, x, y);
        buf[m.Idx(x, y)] := rowMax;
        rowMax := Max(rowMax, m.Get(x, y));
      }
    }
  }

  /** The `top_to_bottom` scan: each cell gets the tallest tree above it in its column. */
  method ScanTopToBottom(m: Map) returns (buf: array<nat>)
    requires m.Valid()
    ensures fresh(buf) && buf.Length == m.width * m.height
    ensures forall i :: 0 <= i < buf.Length ==> buf[i] == TopAt(m, i)
  {
    buf := new nat[m.width * m.height](_ => 0);
    AllPlaces(m);
    for x := 0 to m.width
      invariant forall i :: 0 <= i < buf.Length && m.Col(i) < x ==> buf[i] == TopAt(m, i)
    {
      var colMax := 0;
      for y := 0 to m.height
        invariant forall i :: 0 <= i < buf.Length && m.Col(i) < x ==> buf[i] == TopAt(m, i)
        invariant forall i :: 0 <= i < buf.Length && m.Col(i) == x && m.Row(i) < y ==> buf[i] == TopAt(m, i)
        invariant y < m.height ==> colMax == MaxTop(m, x, y)
      {
        IdxFacts(m, x, y);
        buf[m.Idx(x, y)] := colMax;
        colMax := Max(colMax, m.Get(x, y));
      }
    }
  }

  /** The `bottom_to_top` scan: each cell gets the tallest tree below it in its column. */
  method ScanBottomToTop(m: Map) returns (buf: array<nat>)
    requires m.Valid()
    ensures fresh(buf) && buf.Length == m.width * m.height
    ensures forall i :: 0 <= i < buf.Length ==> buf[i] == BottomAt(m, i)
  {
    buf := new nat[m.width * m.height](_ => 0);
    AllPlaces(m);
    for x := 0 to m.width
      invariant forall i :: 0 <= i < buf.Length && m.Col(i) < x ==> buf[i] == BottomAt(m, i)
    {
      var colMax := 0;
      var y := m.height;
      while y > 0
        invariant y <= m.height
        invariant forall i :: 0 <= i < buf.Length && m.Col(i) < x ==> buf[i] == BottomAt(m, i)
        invariant forall i :: 0 <= i < buf.Length && m.Col(i) == x && y <= m.Row(i) ==> buf[i] == BottomAt(m, i)
        invariant y > 0 ==> colMax == MaxBottom(m, x, y - 1)
      {
        y := y - 1;
        IdxFacts(m, x, y);
        buf[m.Idx(x, y)] := colMax;
        colMax := Max(colMax, m.Get(x, y));
      }
    }
  }

  // -------------------------------------------------------------- part one

  /** The number of trees visible from outside among the first `k` of row `y`. */
  function VisibleInRow(m: Map, y: nat, k: nat): (n: nat)
    requires m.Valid() && y < m.height && k <= m.width
    ensures n <= k
  {
    if k == 0 then 0
    else VisibleInRow(m, y, k - 1) + if VisibleFromOutside(m, k - 1, y) then 1 else 0
  }

  /** The number of trees visible from outside among the first `k` rows. */
  function VisibleInRows(m: Map, k: nat): (n: nat)
    requires m.Valid() && k <= m.height
  {
    if k == 0 then 0 else VisibleInRows(m, k - 1) + VisibleInRow(m, k - 1, m.width)
  }

  /** The answer to part one: every tree of the grid visible from outside. */
  function CountVisible(m: Map): nat
    requires m.Valid()
  {
    VisibleInRows(m, m.height)
  }

  /** The number of inner trees of row `y`, from column 1 up to `k` excluded, that beat a scan. */
  function InnerInRow(m: Map, y: nat, k: nat): (n: nat)
    requires m.Valid() && y < m.height && k <= m.width
    ensures n < Max(k, 1)
  {
    if k <= 1 then 0
    else InnerInRow(m, y, k - 1) + if TallerThanAScan(m, k - 1, y) then 1 else 0
  }

  /** The number of inner trees, in rows 1 up to `k` excluded, that beat a scan. */
  function InnerInRows(m: Map, k: nat): nat
    requires m.Valid() && m.width >= 1 && k <= m.height
  {
    if k <= 1 then 0 else InnerInRows(m, k - 1) + InnerInRow(m, k - 1, m.width - 1)
  }

  /** A top or bottom row is visible in full. */
  lemma {:induction false} EdgeRowVisible(m: Map, y: nat, k: nat)
    requires m.Valid() && y < m.height && k <= m.width && (y == 0 || y == m.height - 1)
    ensures VisibleInRow(m, y, k) == k
  {
    if k > 0 {
      EdgeRowVisible(m, y, k - 1);
      VisibleIffScans(m, k - 1, y);
    }
  }

  /** In an inner row, the first tree is visible, and the inner ones count when they beat a scan. */
  lemma {:induction false} InnerRowVisible(m: Map, y: nat, k: nat)
    requires m.Valid() && 0 < y < m.height - 1 && 1 <= k <= m.width - 1
    ensures VisibleInRow(m, y, k) == 1 + InnerInRow(m, y, k)
  {
    if k == 1 {
      FirstColumnVisible(m, y);
    } else {
      InnerRowVisible(m, y, k - 1);
      InnerCellCounts(m, y, k);
    }
  }

  /** A tree in the leftmost column has no tree to its left, so a row's count starts at one. */
  lemma FirstColumnVisible(m: Map, y: nat)
    requires m.Valid() && y < m.height
    ensures VisibleInRow(m, y, 1) == 1 + InnerInRow(m, y, 1)
  {
    assert ClearLeft(m, 0, y);
  }

  /** An inner tree adds to the visible count of its row exactly when it adds to the count of trees beating a scan. */
  lemma InnerCellCounts(m: Map, y: nat, k: nat)
    requires m.Valid() && 0 < y < m.height - 1 && 1 < k < m.width
    requires VisibleInRow(m, y, k - 1) == 1 + InnerInRow(m, y, k - 1)
    ensures VisibleInRow(m, y, k) == 1 + InnerInRow(m, y, k)
  {
    VisibleIffScans(m, k - 1, y);
  }

  /** The rows up to `k` hold a full top row, two edge trees for each inner row, and the inner trees that beat a scan. */
  lemma {:induction false} RowsVisible(m: Map, k: nat)
    requires m.Valid() && m.width >= 2 && m.height >= 2 && 1 <= k <= m.height - 1
    ensures VisibleInRows(m, k) == m.width + 2 * (k - 1) + InnerInRows(m, k)
  {
    if k == 1 {
      EdgeRowVisible(m, 0, m.width);
    } else {
      RowsVisible(m, k - 1);
      RowsVisibleStep(m, k);
    }
  }

  /** An inner row adds its two edge trees and the inner trees that beat a scan. */
  lemma RowsVisibleStep(m: Map, k: nat)
    requires m.Valid() && m.width >= 2 && m.height >= 2 && 2 <= k <= m.height - 1
    requires VisibleInRows(m, k - 1) == m.width + 2 * (k - 2) + InnerInRows(m, k - 1)
    ensures VisibleInRows(m, k) == m.width + 2 * (k - 1) + InnerInRows(m, k)
  {
    var y := k - 1;
    InnerRowVisible(m, y, m.width - 1);
    LastColumnVisible(m, y);
    assert VisibleInRows(m, k) == VisibleInRows(m, y) + VisibleInRow(m, y, m.width);
    assert InnerInRows(m, k) == InnerInRows(m, y) + InnerInRow(m, y, m.width - 1);
  }

  /** A tree in the rightmost column has no tree to its right, so it adds one to its row's count. */
  lemma LastColumnVisible(m: Map, y: nat)
    requires m.Valid() && m.width >= 1 && y < m.height
    ensures VisibleInRow(m, y, m.width) == VisibleInRow(m, y, m.width - 1) + 1
  {
    assert ClearRight(m, m.width - 1, y);
  }

  /** Counting the edge trees as `solve_pt1` does and adding the inner ones that beat a scan counts every visible tree. */
  lemma CountVisibleSplit(m: Map)
    requires m.Valid() && m.width >= 2 && m.height >= 2
    ensures CountVisible(m) == 2 * (m.width - 2) + 2 * m.height + InnerInRows(m, m.height - 1)
  {
    RowsVisible(m, m.height - 1);
    EdgeRowVisible(m, m.height - 1, m.width);
  }

  /** Counting one more row adds that row's inner trees that beat a scan. */
  lemma InnerInRowsStep(m: Map, k: nat)
    requires m.Valid() && m.width >= 1 && 2 <= k <= m.height
    ensures InnerInRows(m, k) == InnerInRows(m, k - 1) + InnerInRow(m, k - 1, m.width - 1)
  {
  }

  /** The results of the four scans, as `solve_pt1` reads them. */
  ghost predicate Scanned(m: Map, l: array<nat>, r: array<nat>, t: array<nat>, b: array<nat>)
    requires m.Valid()
    reads l, r, t, b
  {
    l.Length == r.Length == t.Length == b.Length == m.width * m.height &&
    (forall i :: 0 <= i < l.Length ==> l[i] == LeftAt(m, i)) &&
    (forall i :: 0 <= i < r.Length ==> r[i] == RightAt(m, i)) &&
    (forall i :: 0 <= i < t.Length ==> t[i] == TopAt(m, i)) &&
    (forall i :: 0 <= i < b.Length ==> b[i] == BottomAt(m, i))
  }

  /** The inner loop of `solve_pt1`: adds the inner trees of row `y` that beat one of the scans. */
  method CountInnerRow(m: Map, l: array<nat>, r: array<nat>, t: array<nat>, b: array<nat>, y: nat, sum: nat)
    returns (sumVisible: nat)
    requires m.Valid() && m.width >= 2 && y < m.height && Scanned(m, l, r, t, b)
    ensures sumVisible == sum + InnerInRow(m, y, m.width - 1)
  {
    sumVisible := sum;
    for x := 1 to m.width - 1
      invariant sumVisible == sum + InnerInRow(m, y, x)
    {
      var h := m.Get(x, y);
      var i := m.Idx(x, y);
      IdxFacts(m, x, y);
      if l[i] < h || r[i] < h || t[i] < h || b[i] < h {
        sumVisible := sumVisible + 1;
      }
    }
  }

  /** The number of edge trees as `solve_pt1` writes it, `2 * (width - 2) + 2 * height`. */
  function EdgeTreesAsWritten(m: Map): int {
    2 * (m.width - 2) + 2 * m.height
  }

  /**
   * On a grid one row high `solve_pt1` has no inner row, so its answer is
   * the edge count as written, `2 * width - 2`. Every tree of that row is
   * visible, so for three or more columns the answer counts `width - 2`
   * trees twice.
   */
  lemma OneRowAsWrittenOvercounts(m: Map)
    requires m.Valid() && m.height == 1 && m.width >= 2
    ensures CountVisible(m) == m.width
    ensures EdgeTreesAsWritten(m) == CountVisible(m) + (m.width - 2)
  {
    EdgeRowVisible(m, 0, m.width);
    assert VisibleInRows(m, 1) == VisibleInRows(m, 0) + VisibleInRow(m, 0, m.width);
  }

  /** The smallest such grid: three trees in a row, all visible, counted as four. */
  lemma OneRowExample(m: Map)
    requires m == Map([1, 2, 3], 3, 1)
    ensures CountVisible(m) == 3 && EdgeTreesAsWritten(m) == 4
  {
    OneRowAsWrittenOvercounts(m);
  }

  /**
   * `solve_pt1`: runs the four scans, starts from the number of edge trees
   * and adds every inner tree taller than the tallest tree before it in
   * some scan. The result is the number of trees visible from outside.
   * A grid one row high has only edge trees, `width` of them.
   */
  method SolvePt1(m: Map) returns (sumVisible: nat)
    requires m.Valid() && m.width >= 2 && m.height >= 1
    ensures sumVisible == CountVisible(m)
  {
    var leftToRight := ScanLeftToRight(m);
    var rightToLeft := ScanRightToLeft(m);
    var topToBottom := ScanTopToBottom(m);
    var bottomToTop := ScanBottomToTop(m);

    if m.height == 1 {
      sumVisible := m.width;
      OneRowAsWrittenOvercounts(m);
      return;
    }
    var numEdgeTrees := 2 * (m.width - 2) + 2 * m.height;
    sumVisible := numEdgeTrees;
    assert Scanned(m, leftToRight, rightToLeft, topToBottom, bottomToTop);
    for y := 1 to m.height - 1
      invariant sumVisible == numEdgeTrees + InnerInRows(m, y)
      invariant Scanned(m, leftToRight, rightToLeft, topToBottom, bottomToTop)
    {
      sumVisible := CountInnerRow(m, leftToRight, rightToLeft, topToBottom, bottomToTop, y, sumVisible);
      InnerInRowsStep(m, y + 1);
    }
    CountVisibleSplit(m);
  }

  // -------------------------------------------------------------- part two

  /** One of the four unit steps `compute_scenic_score` looks along. */
  predicate IsUnitStep(sx: int, sy: int) {
    (sx == 0 && (sy == 1 || sy == -1)) || (sy == 0 && (sx == 1 || sx == -1))
  }

  /** The point `k` steps from `c` along `s`, in one coordinate. */
  function Ahead(c: int, s: int, k: nat): int {
    if s == 1 then c + k else if s == -1 then c - k else c
  }

  /** How many steps from (cx, cy) along (sx, sy) stay on the grid. */
  function StepsToEdge(m: Map, cx: int, cy: int, sx: int, sy: int): nat
    requires IsUnitStep(sx, sy) && m.Inside(cx, cy)
  {
    if sx == 1 then m.width - 1 - cx
    else if sx == -1 then cx
    else if sy == 1 then m.height - 1 - cy
    else cy
  }

  /**
   * The viewing distance from (cx, cy) along (sx, sy) for a tree of height
   * `h`: the steps up to and including the first tree at least `h` tall, or
   * up to the edge when there is none.
   */
  function View(m: Map, h: nat, cx: int, cy: int, sx: int, sy: int): nat
    requires m.Valid() && IsUnitStep(sx, sy) && m.Inside(cx, cy)
    decreases StepsToEdge(m, cx, cy, sx, sy)
  {
    var nx, ny := cx + sx, cy + sy;
    if !m.Inside(nx, ny) then 0
    else if m.Get(nx, ny) >= h then 1
    else 1 + View(m, h, nx, ny, sx, sy)
  }

  /** The viewing distance never passes the edge, and is 0 only at the edge. */
  lemma {:induction false} ViewWithinGrid(m: Map, h: nat, cx: int, cy: int, sx: int, sy: int)
    requires m.Valid() && IsUnitStep(sx, sy) && m.Inside(cx, cy)
    ensures View(m, h, cx, cy, sx, sy) <= StepsToEdge(m, cx, cy, sx, sy)
    ensures View(m, h, cx, cy, sx, sy) == 0 <==> StepsToEdge(m, cx, cy, sx, sy) == 0
    decreases StepsToEdge(m, cx, cy, sx, sy)
  {
    var nx, ny := cx + sx, cy + sy;
    if m.Inside(nx, ny) && m.Get(nx, ny) < h {
      ViewWithinGrid(m, h, nx, ny, sx, sy);
    }
  }

  /** Every tree up to the last one seen is on the grid, and every one before the last is lower. */
  lemma {:induction false} ViewPassesLowerTrees(m: Map, h: nat, cx: int, cy: int, sx: int, sy: int)
    requires m.Valid() && IsUnitStep(sx, sy) && m.Inside(cx, cy)
    ensures forall k: nat :: 1 <= k <= View(m, h, cx, cy, sx, sy) ==> m.Inside(Ahead(cx, sx, k), Ahead(cy, sy, k))
    ensures forall k: nat :: 1 <= k < View(m, h, cx, cy, sx, sy) ==>
      m.Inside(Ahead(cx, sx, k), Ahead(cy, sy, k)) && m.Get(Ahead(cx, sx, k), Ahead(cy, sy, k)) < h
    decreases StepsToEdge(m, cx, cy, sx, sy)
  {
    var nx, ny := cx + sx, cy + sy;
    if m.Inside(nx, ny) && m.Get(nx, ny) < h {
      ViewPassesLowerTrees(m, h, nx, ny, sx, sy);
      var d := View(m, h, nx, ny, sx, sy);
      assert View(m, h, cx, cy, sx, sy) == d + 1;
      forall k: nat | 1 <= k <= d + 1
        ensures m.Inside(Ahead(cx, sx, k), Ahead(cy, sy, k))
        ensures k <= d ==> m.Get(Ahead(cx, sx, k), Ahead(cy, sy, k)) < h
      {
        if k > 1 {
          AheadShift(cx, sx, k);
          AheadShift(cy, sy, k);
        }
      }
    }
  }

  /** Walking `k` steps is one step and then `k - 1` more. */
  lemma AheadShift(c: int, s: int, k: nat)
    requires k >= 1 && -1 <= s <= 1
    ensures Ahead(c, s, k) == Ahead(c + s, s, k - 1)
  {
  }

  /** The view ends at the edge or at a tree at least as tall. */
  lemma {:induction false} ViewStopsAtTallTree(m: Map, h: nat, cx: int, cy: int, sx: int, sy: int)
    requires m.Valid() && IsUnitStep(sx, sy) && m.Inside(cx, cy)
    ensures var d := View(m, h, cx, cy, sx, sy);
      d == StepsToEdge(m, cx, cy, sx, sy) ||
      (m.Inside(Ahead(cx, sx, d), Ahead(cy, sy, d)) && m.Get(Ahead(cx, sx, d), Ahead(cy, sy, d)) >= h)
    decreases StepsToEdge(m, cx, cy, sx, sy)
  {
    var nx, ny := cx + sx, cy + sy;
    if m.Inside(nx, ny) && m.Get(nx, ny) < h {
      ViewStopsAtTallTree(m, h, nx, ny, sx, sy);
      var d := View(m, h, nx, ny, sx, sy);
      assert View(m, h, cx, cy, sx, sy) == d + 1;
      assert StepsToEdge(m, cx, cy, sx, sy) == StepsToEdge(m, nx, ny, sx, sy) + 1;
      assert Ahead(cx, sx, d + 1) == Ahead(nx, sx, d) && Ahead(cy, sy, d + 1) == Ahead(ny, sy, d);
    }
  }

  /** `score`: walks from the tree along (sx, sy), counting trees, until it leaves the grid or meets a tree at least as tall. */
  method Score(m: Map, px: int, py: int, sx: int, sy: int) returns (score: nat)
    requires m.Valid() && IsUnitStep(sx, sy) && m.Inside(px, py)
    ensures score == View(m, m.Get(px, py), px, py, sx, sy)
  {
    var h := m.Get(px, py);
    var cx, cy := px, py;
    score := 0;
    while true
      invariant m.Inside(cx, cy)
      invariant score + View(m, h, cx, cy, sx, sy) == View(m, h, px, py, sx, sy)
      decreases StepsToEdge(m, cx, cy, sx, sy)
    {
      cx := cx + sx;
      cy := cy + sy;
      if !m.Inside(cx, cy) {
        return score;
      }
      score := score + 1;
      if m.Get(cx, cy) >= h {
        return score;
      }
    }
  }

  /** The product of four viewing distances. */
  function Product(down: nat, up: nat, left: nat, right: nat): nat {
    down * up * left * right
  }

  /** The scenic score of a tree: the product of its four viewing distances. */
  function ScenicScore(m: Map, x: nat, y: nat): nat
    requires m.Valid() && x < m.width && y < m.height
  {
    var h := m.Get(x, y);
    Product(View(m, h, x, y, 0, -1), View(m, h, x, y, 0, 1), View(m, h, x, y, -1, 0), View(m, h, x, y, 1, 0))
  }

  /** A tree scores 0 exactly when it stands on the edge, where it sees nothing in one direction. */
  lemma ScenicScoreZero(m: Map, x: nat, y: nat)
    requires m.Valid() && x < m.width && y < m.height
    ensures ScenicScore(m, x, y) == 0 <==> OnEdge(m, x, y)
  {
    var h := m.Get(x, y);
    ViewWithinGrid(m, h, x, y, 0, -1);
    ViewWithinGrid(m, h, x, y, 0, 1);
    ViewWithinGrid(m, h, x, y, -1, 0);
    ViewWithinGrid(m, h, x, y, 1, 0);
    var a, b, c, d := View(m, h, x, y, 0, -1), View(m, h, x, y, 0, 1), View(m, h, x, y, -1, 0), View(m, h, x, y, 1, 0);
    if a > 0 && b > 0 && c > 0 && d > 0 {
      assert a * b > 0;
      assert a * b * c > 0;
    }
  }

  /** `compute_scenic_score`: the product of the four scores. */
  method ComputeScenicScore(m: Map, x: int, y: int) returns (product: nat)
    requires m.Valid() && m.Inside(x, y)
    ensures product == ScenicScore(m, x, y)
  {
    var scoreRight := Score(m, x, y, 1, 0);
    var scoreLeft := Score(m, x, y, -1, 0);
    var scoreUp := Score(m, x, y, 0, 1);
    var scoreDown := Score(m, x, y, 0, -1);
    product := Product(scoreDown, scoreUp, scoreLeft, scoreRight);
  }

  /** `solve_pt2`: the largest scenic score of any tree, or 0 for an empty grid. */
  method SolvePt2(m: Map) returns (scenicScore: nat)
    requires m.Valid()
    ensures forall x: nat, y: nat :: x < m.width && y < m.height ==> ScenicScore(m, x, y) <= scenicScore
    ensures m.height > 0 ==> exists x: nat, y: nat :: x < m.width && y < m.height && ScenicScore(m, x, y) == scenicScore
    ensures m.height == 0 ==> scenicScore == 0
  {
    scenicScore := 0;
    if m.height == 0 {
      return;
    }
    ScenicScoreZero(m, 0, 0);
    ghost var bestX: nat, bestY: nat := 0, 0;
    for x := 0 to m.width
      invariant bestX < m.width && bestY < m.height && ScenicScore(m, bestX, bestY) == scenicScore
      invariant forall xx: nat, yy: nat :: xx < x && yy < m.height ==> ScenicScore(m, xx, yy) <= scenicScore
    {
      for y := 0 to m.height
        invariant bestX < m.width && bestY < m.height && ScenicScore(m, bestX, bestY) == scenicScore
        invariant forall xx: nat, yy: nat :: xx < x && yy < m.height ==> ScenicScore(m, xx, yy) <= scenicScore
        invariant forall yy: nat :: yy < y ==> ScenicScore(m, x, yy) <= scenicScore
      {
        var score := ComputeScenicScore(m, x, y);
        if score > scenicScore {
          scenicScore := score;
          bestX, bestY := x, y;
        }
      }
    }
  }

  // ------------------------------------------------------------- building

  /** Every character is a digit, as `to_digit(10).unwrap()` demands. */
  predicate DigitLine(line: string) {
    forall j :: 0 <= j < |line| ==> IsDigit(line[j])
  }

  predicate AllDigits(lines: seq<string>) {
    forall i :: 0 <= i < |lines| ==> DigitLine(lines[i])
  }

  /** The heights of one line, in order. */
  function RowHeights(line: string): (hs: seq<nat>)
    requires DigitLine(line)
  {
    if line == [] then [] else RowHeights(line[..|line| - 1]) + [DigitValue(line[|line| - 1])]
  }

  /** The heights of all lines, row after row. */
  function Heights(lines: seq<string>): seq<nat>
    requires AllDigits(lines)
  {
    if lines == [] then []
    else Heights(lines[..|lines| - 1]) + RowHeights(lines[|lines| - 1])
  }

  /** Each height is the value of its digit. */
  lemma {:induction false} RowHeightsAt(line: string)
    requires DigitLine(line)
    ensures |RowHeights(line)| == |line|
    ensures forall j :: 0 <= j < |line| ==> RowHeights(line)[j] == DigitValue(line[j])
  {
    if line != [] {
      RowHeightsAt(line[..|line| - 1]);
    }
  }

  /**
   * `Map::build`: pushes the value of every digit, line after line; the
   * width is the length of the first line and the height the number of
   * trees divided by it.
   */
  method Build(lines: seq<string>) returns (m: Map)
    requires AllDigits(lines)
    requires |lines| > 0 ==> |lines[0]| > 0
    ensures m.trees == Heights(lines)
    ensures m.width == if lines == [] then 1 else |lines[0]|
    ensures m.height == |m.trees| / m.width
  {
    var trees: seq<nat> := [];
    var width: nat := 1;
    for idx := 0 to |lines|
      invariant trees == Heights(lines[..idx])
      invariant width == if idx == 0 then 1 else |lines[0]|
    {
      assert lines[..idx + 1][..idx] == lines[..idx];
      trees := PushDigits(trees, lines[idx]);
      if idx == 0 {
        width := |trees|;
        RowHeightsAt(lines[idx]);
      }
    }
    assert lines[..|lines|] == lines;
    var height: nat := |trees| / width;
    m := Map(trees, width, height);
  }

  /** The inner loop of `Map::build`: pushes the value of every digit of the line. */
  method PushDigits(trees: seq<nat>, line: string) returns (pushed: seq<nat>)
    requires DigitLine(line)
    ensures pushed == trees + RowHeights(line)
  {
    pushed := trees;
    for j := 0 to |line|
      invariant pushed == trees + RowHeights(line[..j])
    {
      assert line[..j + 1][..j] == line[..j];
      pushed := pushed + [DigitValue(line[j])];
    }
    assert line[..|line|] == line;
  }

  /** Lines of equal length `w` build a valid grid with one row per line, whose trees are the digits. */
  lemma {:induction false} BuildRectangular(lines: seq<string>, w: nat)
    requires AllDigits(lines) && w > 0
    requires forall i :: 0 <= i < |lines| ==> |lines[i]| == w
    ensures |Heights(lines)| == w * |lines| && |Heights(lines)| / w == |lines|
    ensures Map(Heights(lines), w, |lines|).Valid()
    ensures forall x: nat, y: nat :: x < w && y < |lines| ==> Map(Heights(lines), w, |lines|).Get(x, y) == DigitValue(lines[y][x])
  {
    var m := Map(Heights(lines), w, |lines|);
    if lines != [] {
      var n := |lines| - 1;
      var init := lines[..n];
      BuildRectangular(init, w);
      RowHeightsAt(lines[n]);
      assert |Heights(lines)| == w * n + w;
      forall x: nat, y: nat | x < w && y < |lines| ensures m.Get(x, y) == DigitValue(lines[y][x]) {
        if y < n {
          MulLe(y + 1, n, w);
          assert m.Get(x, y) == Map(Heights(init), w, n).Get(x, y);
        } else {
          assert m.Idx(x, y) == w * n + x;
        }
      }
    }
    DivModUnique(|Heights(lines)|, w, |lines|, 0);
  }

  /** On the grid built from lines of equal length, `Map::get` at (x, y) is the digit at column x of line y. */
  lemma GetIsDigit(lines: seq<string>, w: nat, x: nat, y: nat)
    requires AllDigits(lines) && w > 0
    requires forall i :: 0 <= i < |lines| ==> |lines[i]| == w
    requires x < w && y < |lines|
    ensures Map(Heights(lines), w, |lines|).Valid()
    ensures Map(Heights(lines), w, |lines|).Get(x, y) == DigitValue(lines[y][x])
  {
    BuildRectangular(lines, w);
  }

  // -------------------------------------------------------------- examples

  /** The example grid of the puzzle, row after row. */
  function ExampleMap(): Map {
    Map([3, 0, 3, 7, 3] +
        [2, 5, 5, 1, 2] +
        [6, 5, 3, 3, 2] +
        [3, 3, 5, 4, 9] +
        [3, 5, 3, 9, 0], 5, 5)
  }

  /** A line of digits whose values are `hs` has the heights `hs`. */
  lemma RowHeightsAre(line: string, hs: seq<nat>)
    requires DigitLine(line) && |line| == |hs|
    requires forall j :: 0 <= j < |line| ==> DigitValue(line[j]) == hs[j]
    ensures RowHeights(line) == hs
  {
    RowHeightsAt(line);
  }

  /** Adding a line adds its heights at the end. */
  lemma HeightsSnoc(lines: seq<string>, line: string)
    requires AllDigits(lines) && DigitLine(line)
    ensures AllDigits(lines + [line])
    ensures Heights(lines + [line]) == Heights(lines) + RowHeights(line)
  {
    assert (lines + [line])[..|lines|] == lines;
  }

  /** Three lines build their heights one after the other. */
  lemma HeightsOfThree(a: string, b: string, c: string)
    requires DigitLine(a) && DigitLine(b) && DigitLine(c)
    ensures AllDigits([a, b, c])
    ensures Heights([a, b, c]) == RowHeights(a) + RowHeights(b) + RowHeights(c)
  {
    var s1 := [] + [a];
    HeightsSnoc([], a);
    assert Heights(s1) == RowHeights(a);
    var s2 := s1 + [b];
    HeightsSnoc(s1, b);
    var s3 := s2 + [c];
    HeightsSnoc(s2, c);
    assert s3 == [a, b, c];
  }

  /** Five lines build their heights one after the other. */
  lemma HeightsOfFive(a: string, b: string, c: string, d: string, e: string)
    requires DigitLine(a) && DigitLine(b) && DigitLine(c) && DigitLine(d) && DigitLine(e)
    ensures AllDigits([a, b, c, d, e])
    ensures Heights([a, b, c, d, e]) == RowHeights(a) + RowHeights(b) + RowHeights(c) + RowHeights(d) + RowHeights(e)
  {
    var s3 := [a, b, c];
    HeightsOfThree(a, b, c);
    var s4 := s3 + [d];
    HeightsSnoc(s3, d);
    var s5 := s4 + [e];
    HeightsSnoc(s4, e);
    assert s5 == [a, b, c, d, e];
  }

  /** The five example lines build the example grid: width 5, height 5, 25 trees. */
  lemma BuildExample(lines: seq<string>)
    requires lines == ["30373", "25512", "65332", "33549", "35390"]
    ensures AllDigits(lines) && |lines[0]| == 5
    ensures Heights(lines) == ExampleMap().trees
    ensures |Heights(lines)| == 25 && |Heights(lines)| / 5 == 5
  {
    var a, b, c, d, e := lines[0], lines[1], lines[2], lines[3], lines[4];
    ExampleTopRows(a, b, c);
    ExampleBottomRows(d, e);
    assert lines == [a, b, c, d, e];
    HeightsOfFive(a, b, c, d, e);
  }

  lemma ExampleTopRows(a: string, b: string, c: string)
    requires a == "30373" && b == "25512" && c == "65332"
    ensures DigitLine(a) && DigitLine(b) && DigitLine(c)
    ensures RowHeights(a) == [3, 0, 3, 7, 3] && RowHeights(b) == [2, 5, 5, 1, 2] && RowHeights(c) == [6, 5, 3, 3, 2]
  {
    RowHeightsAre(a, [3, 0, 3, 7, 3]);
    RowHeightsAre(b, [2, 5, 5, 1, 2]);
    RowHeightsAre(c, [6, 5, 3, 3, 2]);
  }

  lemma ExampleBottomRows(d: string, e: string)
    requires d == "33549" && e == "35390"
    ensures DigitLine(d) && DigitLine(e)
    ensures RowHeights(d) == [3, 3, 5, 4, 9] && RowHeights(e) == [3, 5, 3, 9, 0]
  {
    RowHeightsAre(d, [3, 3, 5, 4, 9]);
    RowHeightsAre(e, [3, 5, 3, 9, 0]);
  }

  /** Reads a height of the example grid off its row-major list. */
  lemma ExampleGet(x: nat, y: nat, v: nat)
    requires x < 5 && y < 5 && ExampleMap().trees[5 * y + x] == v
    ensures ExampleMap().Valid() && ExampleMap().Get(x, y) == v
  {
  }

  /** The tree in the middle of the fourth row sees 2 trees up, 2 left, 1 down and 2 right: it scores 8. */
  lemma ScenicScoreExample()
    ensures ScenicScore(ExampleMap(), 2, 3) == 8
  {
    ExampleGet(2, 3, 5);
    ExampleViews();
  }

  lemma ExampleViews()
    ensures ExampleMap().Valid()
    ensures View(ExampleMap(), 5, 2, 3, 0, -1) == 2 && View(ExampleMap(), 5, 2, 3, 0, 1) == 1
    ensures View(ExampleMap(), 5, 2, 3, -1, 0) == 2 && View(ExampleMap(), 5, 2, 3, 1, 0) == 2
  {
    ExampleGet(2, 2, 3);
    ExampleGet(2, 1, 5);
    ExampleGet(2, 4, 3);
    ExampleGet(1, 3, 3);
    ExampleGet(0, 3, 3);
    ExampleGet(3, 3, 4);
    ExampleGet(4, 3, 9);
  }

  /** The tree of height 5 at column 1 of row 1 is visible from the top. */
  lemma VisibleExample()
    ensures VisibleFromOutside(ExampleMap(), 1, 1)
  {
    ExampleGet(1, 0, 0);
    ExampleGet(1, 1, 5);
    SeenFromTop(ExampleMap(), 1);
  }

  /** A tree in the second row that is taller than the tree above it is visible. */
  lemma SeenFromTop(m: Map, x: nat)
    requires m.Valid() && x < m.width && 1 < m.height && m.Get(x, 0) < m.Get(x, 1)
    ensures VisibleFromOutside(m, x, 1)
  {
    assert ClearTop(m, x, 1);
  }

  /** The tree of height 1 at column 3 of row 1 is hidden from all four sides. */
  lemma HiddenExample()
    ensures !VisibleFromOutside(ExampleMap(), 3, 1)
  {
    ExampleGet(3, 1, 1);
    ExampleGet(2, 1, 5);
    ExampleGet(4, 1, 2);
    ExampleGet(3, 0, 7);
    ExampleGet(3, 2, 3);
  }

  // --------------------------------------------------- the scans as written

  /** Where the scans of `solve_pt1` as written store the cell at column `x` of row `y`: the row is scaled by the height. */
  function WrittenIdx(m: Map, x: nat, y: nat): nat {
    y * m.height + x
  }

  /** With no more rows than columns the written place stays inside the vector. */
  lemma WrittenIdxBound(m: Map, x: nat, y: nat)
    requires m.Valid() && m.height <= m.width && x < m.width && y < m.height
    ensures WrittenIdx(m, x, y) < |m.trees|
  {
    MulLe(y, m.height - 1, m.height);
    MulLe(m.height, m.width, m.height - 1);
    assert (m.height - 1) * m.width + m.width == m.height * m.width;
  }

  /** With more rows than columns the last write, for the bottom right cell, runs past the end of the vector. */
  lemma WrittenIdxPastEnd(m: Map)
    requires m.Valid() && m.height > m.width
    ensures WrittenIdx(m, m.width - 1, m.height - 1) >= |m.trees|
  {
    var a, b := m.height - 1, m.height - m.width;
    MulLe(1, a, b);
    assert a * b == m.height * m.height - m.height * m.width - m.height + m.width;
    assert WrittenIdx(m, m.width - 1, m.height - 1) == a * m.height + m.width - 1;
    assert a * m.height == m.height * m.height - m.height;
  }

  /** The four scans of `solve_pt1`, in the order it runs them. */
  datatype Scan = LeftToRight | RightToLeft | TopToBottom | BottomToTop

  lemma DivBelow(k: nat, a: nat, b: nat)
    requires b > 0 && k < a * b
    ensures k / b < a
  {
    if k / b >= a {
      MulLe(a, k / b, b);
    }
  }

  /**
   * The cell that write number `k` of scan `s` fills, in the order of its
   * loops: the row scans go row by row, the column scans column by column,
   * and the reversed scans walk each row or column from its far end.
   */
  function ScanCell(m: Map, s: Scan, k: nat): (c: (nat, nat))
    requires m.Valid() && k < |m.trees|
    ensures c.0 < m.width && c.1 < m.height
  {
    Coord(m, k);
    DivBelow(k, m.width, m.height);
    match s
    case LeftToRight => (k % m.width, k / m.width)
    case RightToLeft => (m.width - 1 - k % m.width, k / m.width)
    case TopToBottom => (k / m.height, k % m.height)
    case BottomToTop => (k / m.height, m.height - 1 - k % m.height)
  }

  /** The value scan `s` stores for the cell at column `x` of row `y`: the tallest tree before it. */
  function ScanValue(m: Map, s: Scan, x: nat, y: nat): nat
    requires m.Valid() && x < m.width && y < m.height
  {
    match s
    case LeftToRight => MaxLeft(m, x, y)
    case RightToLeft => MaxRight(m, x, y)
    case TopToBottom => MaxTop(m, x, y)
    case BottomToTop => MaxBottom(m, x, y)
  }

  /** The place write number `k` of scan `s` stores to as written. */
  function WrittenPlace(m: Map, s: Scan, k: nat): nat
    requires m.Valid() && k < |m.trees|
  {
    var c := ScanCell(m, s, k);
    WrittenIdx(m, c.0, c.1)
  }

  /**
   * The vector scan `s` of `solve_pt1` as written fills, after its first
   * `k` writes in the order of its loops: each write stores the tallest
   * tree before its cell at `WrittenIdx`.
   */
  function ScanAsWritten(m: Map, s: Scan, k: nat): (buf: seq<nat>)
    requires m.Valid() && m.height <= m.width && k <= |m.trees|
    ensures |buf| == |m.trees|
  {
    if k == 0 then seq(|m.trees|, _ => 0)
    else
      var c := ScanCell(m, s, k - 1);
      WrittenIdxBound(m, c.0, c.1);
      ScanAsWritten(m, s, k - 1)[WrittenPlace(m, s, k - 1) := ScanValue(m, s, c.0, c.1)]
  }

  /** Write number `k` changes only the place it writes. */
  lemma AsWrittenStep(m: Map, s: Scan, k: nat, j: nat)
    requires m.Valid() && m.height <= m.width && k < |m.trees| && j < |m.trees|
    ensures WrittenPlace(m, s, k) != j ==> ScanAsWritten(m, s, k + 1)[j] == ScanAsWritten(m, s, k)[j]
    ensures WrittenPlace(m, s, k) == j ==>
      ScanAsWritten(m, s, k + 1)[j] == ScanValue(m, s, ScanCell(m, s, k).0, ScanCell(m, s, k).1)
  {
  }

  /** Whether the count of `solve_pt1` as written adds the inner tree at column `x` of row `y`: it reads each vector at `y * width + x`. */
  predicate CountedAsWritten(m: Map, x: nat, y: nat)
    requires m.Valid() && m.height <= m.width && x < m.width && y < m.height
  {
    var h, i := m.Get(x, y), m.Idx(x, y);
    ScanAsWritten(m, LeftToRight, |m.trees|)[i] < h || ScanAsWritten(m, RightToLeft, |m.trees|)[i] < h
    || ScanAsWritten(m, TopToBottom, |m.trees|)[i] < h || ScanAsWritten(m, BottomToTop, |m.trees|)[i] < h
  }

  /** The number of inner trees of row `y`, from column 1 up to `k` excluded, that the count as written adds. */
  function InnerAsWrittenInRow(m: Map, y: nat, k: nat): (n: nat)
    requires m.Valid() && m.height <= m.width && y < m.height && k <= m.width
    ensures n < Max(k, 1)
  {
    if k <= 1 then 0
    else InnerAsWrittenInRow(m, y, k - 1) + if CountedAsWritten(m, k - 1, y) then 1 else 0
  }

  /** The number of inner trees, in rows 1 up to `k` excluded, that the count as written adds. */
  function InnerAsWrittenInRows(m: Map, k: nat): (n: nat)
    requires m.Valid() && m.height <= m.width && k <= m.height
    ensures n <= k * m.width
  {
    if k <= 1 then 0
    else
      var r := InnerAsWrittenInRow(m, k - 1, m.width - 1);
      InnerAsWrittenInRows(m, k - 1) + r
  }

  /** The answer of `solve_pt1` as written, on a grid at least two wide with no more rows than columns. */
  function SolvePt1AsWritten(m: Map): int
    requires m.Valid() && m.height <= m.width && m.width >= 2 && m.height >= 1
  {
    EdgeTreesAsWritten(m) + InnerAsWrittenInRows(m, m.height - 1)
  }

  /** A grid four wide and three high, whose tree at column 1 of row 1 is visible from the left. */
  function WideExample(): Map {
    Map([9, 9, 9, 9] +
        [0, 5, 9, 9] +
        [9, 9, 9, 9], 4, 3)
  }

  lemma WideExampleFacts(m: Map)
    requires m == WideExample()
    ensures m.Valid() && |m.trees| == 12 && m.Idx(1, 1) == 5 && m.Idx(2, 1) == 6
    ensures m.Get(1, 1) == 5 && m.Get(2, 1) == 9
    ensures ClearLeft(m, 1, 1) && MaxLeft(m, 1, 1) == 0 && MaxLeft(m, 2, 1) == 5 && MaxLeft(m, 0, 2) == 0
    ensures MaxRight(m, 2, 1) == 9 && MaxRight(m, 0, 2) == 9
    ensures MaxTop(m, 2, 1) == 9 && MaxTop(m, 3, 1) == 9
    ensures MaxBottom(m, 2, 1) == 9 && MaxBottom(m, 3, 1) == 9
  {
    WideExampleRow1(m);
    WideExampleRight(m);
    WideExampleColumns(m);
  }

  /** The trees left of the two inner trees of the grid. */
  lemma WideExampleRow1(m: Map)
    requires m == WideExample()
    ensures m.Valid() && |m.trees| == 12 && m.Idx(1, 1) == 5 && m.Idx(2, 1) == 6
    ensures m.Get(1, 1) == 5 && m.Get(2, 1) == 9
    ensures ClearLeft(m, 1, 1) && MaxLeft(m, 1, 1) == 0 && MaxLeft(m, 2, 1) == 5 && MaxLeft(m, 0, 2) == 0
  {
    assert m.Get(0, 1) == 0 && m.Get(1, 1) == 5 && m.Get(2, 1) == 9;
    assert MaxLeft(m, 1, 1) == 0;
  }

  /** The trees right of column 2 of row 1 and of column 0 of row 2. */
  lemma WideExampleRight(m: Map)
    requires m == WideExample()
    ensures m.Valid() && MaxRight(m, 2, 1) == 9 && MaxRight(m, 0, 2) == 9
  {
    assert m.Get(3, 1) == 9 && m.Get(3, 2) == 9 && m.Get(1, 2) == 9;
    assert MaxRight(m, 2, 2) == 9;
    assert MaxRight(m, 1, 2) == 9;
  }

  /** The trees above and below row 1 in columns 2 and 3. */
  lemma WideExampleColumns(m: Map)
    requires m == WideExample()
    ensures m.Valid() && MaxTop(m, 2, 1) == 9 && MaxTop(m, 3, 1) == 9
    ensures MaxBottom(m, 2, 1) == 9 && MaxBottom(m, 3, 1) == 9
  {
    assert m.Valid() && m.Get(2, 0) == 9 && m.Get(3, 0) == 9 && m.Get(2, 2) == 9 && m.Get(3, 2) == 9;
    ThreeRowsColumn(m, 2);
    ThreeRowsColumn(m, 3);
  }

  /** In a grid three rows high, the middle tree of a column sees only the top tree above it and only the bottom tree below it. */
  lemma ThreeRowsColumn(m: Map, x: nat)
    requires m.Valid() && m.height == 3 && x < m.width
    ensures MaxTop(m, x, 1) == m.Get(x, 0) && MaxBottom(m, x, 1) == m.Get(x, 2)
  {
  }

  /**
   * On a grid that is wider than high, the place `solve_pt1` reads for the
   * tree at column 1 of row 1 holds 5, the height of that tree, though the
   * only tree left of it has height 0: the scan as written misses a tree
   * that is visible from the left, while the corrected scan finds it.
   */
  lemma LeftToRightAsWrittenMisses(m: Map)
    requires m == WideExample()
    ensures m.Valid() && m.Get(1, 1) == 5
    ensures ClearLeft(m, 1, 1) && MaxLeft(m, 1, 1) < m.Get(1, 1)
    ensures ScanAsWritten(m, LeftToRight, |m.trees|)[m.Idx(1, 1)] == m.Get(1, 1)
  {
    WideExampleFacts(m);
    LastWritesLeftToRight(m);
  }

  /**
   * On the same grid `solve_pt1` as written answers 11, while 12 trees are
   * visible: every vector holds the values of column 2 of row 1 at place 5,
   * which the tree at column 1 reads and none of which is below 5.
   */
  lemma WideExampleAsWritten(m: Map)
    requires m == WideExample()
    ensures m.Valid() && m.height <= m.width && m.width >= 2
    ensures SolvePt1AsWritten(m) == 11 && CountVisible(m) == 12
  {
    WideExampleReads(m);
    SolvePt1AsWrittenFourByThree(m);
    WideExampleVisible(m);
  }

  /** On any four by three grid the answer as written is the 10 edge trees as written plus those of its two inner trees that it counts. */
  lemma SolvePt1AsWrittenFourByThree(m: Map)
    requires m.Valid() && m.width == 4 && m.height == 3
    ensures SolvePt1AsWritten(m) ==
      10 + (if CountedAsWritten(m, 1, 1) then 1 else 0) + (if CountedAsWritten(m, 2, 1) then 1 else 0)
  {
    assert InnerAsWrittenInRow(m, 1, 2) == if CountedAsWritten(m, 1, 1) then 1 else 0;
    assert InnerAsWrittenInRows(m, 2) == InnerAsWrittenInRow(m, 1, 3);
  }

  /** What the count as written finds for the two inner trees of the grid: the tree at column 1 is missed, the one at column 2 is added. */
  lemma WideExampleReads(m: Map)
    requires m == WideExample()
    ensures m.Valid() && m.height <= m.width
    ensures !CountedAsWritten(m, 1, 1) && CountedAsWritten(m, 2, 1)
  {
    WideExampleFacts(m);
    CountedAsWrittenFourByThree(m);
  }

  /**
   * On any four by three grid the count as written tests the tree at
   * column 1 of row 1 against the values stored for column 2 of row 1, and
   * the tree at column 2 against those of column 0 of row 2 and of column 3
   * of row 1.
   */
  lemma CountedAsWrittenFourByThree(m: Map)
    requires m.Valid() && m.width == 4 && m.height == 3
    ensures CountedAsWritten(m, 1, 1) <==>
      var h := m.Get(1, 1);
      MaxLeft(m, 2, 1) < h || MaxRight(m, 2, 1) < h || MaxTop(m, 2, 1) < h || MaxBottom(m, 2, 1) < h
    ensures CountedAsWritten(m, 2, 1) <==>
      var h := m.Get(2, 1);
      MaxLeft(m, 0, 2) < h || MaxRight(m, 0, 2) < h || MaxTop(m, 3, 1) < h || MaxBottom(m, 3, 1) < h
  {
    assert |m.trees| == 12 && m.Idx(1, 1) == 5 && m.Idx(2, 1) == 6;
    LastWritesLeftToRight(m);
    LastWritesRightToLeft(m);
    LastWritesTopToBottom(m);
    LastWritesBottomToTop(m);
  }

  /** Every edge tree of the grid and both of its inner trees are visible. */
  lemma WideExampleVisible(m: Map)
    requires m == WideExample()
    ensures m.Valid() && m.width >= 2 && m.height >= 2
    ensures CountVisible(m) == 12
  {
    WideExampleFacts(m);
    CountVisibleSplit(m);
    assert TallerThanAScan(m, 1, 1) && TallerThanAScan(m, 2, 1);
    assert InnerInRow(m, 1, 2) == 1;
    assert InnerInRow(m, 1, 3) == 2;
    assert InnerInRows(m, 2) == 2;
  }

  /** On any four by three grid: the last writes of `left_to_right` to places 5 and 6 are those of column 2 of row 1 and of column 0 of row 2. */
  lemma LastWritesLeftToRight(m: Map)
    requires m.Valid() && m.width == 4 && m.height == 3
    ensures ScanAsWritten(m, LeftToRight, 12)[5] == MaxLeft(m, 2, 1)
    ensures ScanAsWritten(m, LeftToRight, 12)[6] == MaxLeft(m, 0, 2)
  {
    var s := LeftToRight;
    AsWrittenStep(m, s, 6, 5);
    AsWrittenStep(m, s, 7, 5);
    AsWrittenStep(m, s, 8, 5);
    AsWrittenStep(m, s, 9, 5);
    AsWrittenStep(m, s, 10, 5);
    AsWrittenStep(m, s, 11, 5);
    AsWrittenStep(m, s, 8, 6);
    AsWrittenStep(m, s, 9, 6);
    AsWrittenStep(m, s, 10, 6);
    AsWrittenStep(m, s, 11, 6);
  }

  /** On any four by three grid: `right_to_left` last writes place 5 for column 2 of row 1 and place 6 for column 0 of row 2. */
  lemma LastWritesRightToLeft(m: Map)
    requires m.Valid() && m.width == 4 && m.height == 3
    ensures ScanAsWritten(m, RightToLeft, 12)[5] == MaxRight(m, 2, 1)
    ensures ScanAsWritten(m, RightToLeft, 12)[6] == MaxRight(m, 0, 2)
  {
    var s := RightToLeft;
    AsWrittenStep(m, s, 5, 5);
    AsWrittenStep(m, s, 6, 5);
    AsWrittenStep(m, s, 7, 5);
    AsWrittenStep(m, s, 8, 5);
    AsWrittenStep(m, s, 9, 5);
    AsWrittenStep(m, s, 10, 5);
    AsWrittenStep(m, s, 11, 5);
    AsWrittenStep(m, s, 11, 6);
  }

  /** On any four by three grid: `top_to_bottom` last writes place 5 for column 2 of row 1 and place 6 for column 3 of row 1. */
  lemma LastWritesTopToBottom(m: Map)
    requires m.Valid() && m.width == 4 && m.height == 3
    ensures ScanAsWritten(m, TopToBottom, 12)[5] == MaxTop(m, 2, 1)
    ensures ScanAsWritten(m, TopToBottom, 12)[6] == MaxTop(m, 3, 1)
  {
    var s := TopToBottom;
    AsWrittenStep(m, s, 7, 5);
    AsWrittenStep(m, s, 8, 5);
    AsWrittenStep(m, s, 9, 5);
    AsWrittenStep(m, s, 10, 5);
    AsWrittenStep(m, s, 11, 5);
    AsWrittenStep(m, s, 10, 6);
    AsWrittenStep(m, s, 11, 6);
  }

  /** On any four by three grid: `bottom_to_top` last writes place 5 for column 2 of row 1 and place 6 for column 3 of row 1. */
  lemma LastWritesBottomToTop(m: Map)
    requires m.Valid() && m.width == 4 && m.height == 3
    ensures ScanAsWritten(m, BottomToTop, 12)[5] == MaxBottom(m, 2, 1)
    ensures ScanAsWritten(m, BottomToTop, 12)[6] == MaxBottom(m, 3, 1)
  {
    var s := BottomToTop;
    AsWrittenStep(m, s, 7, 5);
    AsWrittenStep(m, s, 8, 5);
    AsWrittenStep(m, s, 9, 5);
    AsWrittenStep(m, s, 10, 5);
    AsWrittenStep(m, s, 11, 5);
    AsWrittenStep(m, s, 10, 6);
    AsWrittenStep(m, s, 11, 6);
  }
}
