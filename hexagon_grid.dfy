/**
 * The hexagon background itself (class HexagonBackground in hexagon-bg.js):
 * the grid of cells that `createHexGrid` lays out, and the frame that `loop`
 * runs, which first picks some cells at random and then steps every cell.
 */
module HexagonGrid {
  import opened JsMath
  import opened HexCell

  /** The three Math.random() draws of one pick in `loop`: the cell, then its colour and duration. */
  datatype PickDraw = PickDraw(index: Draw, color: Draw, duration: Draw)

  /** Where createHexGrid puts a cell: the outer loop's column and the inner loop's row, from 0. */
  datatype GridPos = GridPos(column: nat, row: nat)

  /** The rows 0 .. rows-1 of column c, top to bottom. */
  function Column(c: nat, rows: nat): (s: seq<GridPos>)
    ensures |s| == rows
    ensures forall r :: 0 <= r < rows ==> s[r] == GridPos(c, r)
  {
    if rows == 0 then [] else Column(c, rows - 1) + [GridPos(c, rows - 1)]
  }

  /** Column after column: the order in which createHexGrid pushes its cells. */
  function GridOrder(columns: nat, rows: nat): (s: seq<GridPos>)
    ensures |s| == columns * rows
  {
    if columns == 0 then [] else GridOrder(columns - 1, rows) + Column(columns - 1, rows)
  }

  /** Cell (c, r) sits at index c * rows + r of the grid. */
  lemma {:induction false} GridOrderAt(columns: nat, rows: nat, c: nat, r: nat)
    requires c < columns && r < rows
    ensures c * rows + r < columns * rows
    ensures GridOrder(columns, rows)[c * rows + r] == GridPos(c, r)
  {
    var prefix := GridOrder(columns - 1, rows);
    assert |prefix| == (columns - 1) * rows;
    if c == columns - 1 {
      assert GridOrder(columns, rows)[c * rows + r] == Column(c, rows)[r];
    } else {
      GridOrderAt(columns - 1, rows, c, r);
    }
  }

  /** Whether some pick among the draws lands on cell j of a grid of n cells. */
  predicate Hit(draws: seq<PickDraw>, n: nat, j: int)
  {
    exists i :: 0 <= i < |draws| && ScaledFloor(draws[i].index, n) == j
  }

  /**
   * The cells after the pick phase of one frame (hexagon-bg.js:92-95): each
   * draw picks the cell at Math.floor(r * length), in draw order. A cell no
   * draw lands on is left as it was.
   */
  function PickPhase(cells: seq<Cell>, draws: seq<PickDraw>, opts: Options): (out: seq<Cell>)
    requires |draws| > 0 ==> |cells| > 0
    requires |opts.colors| > 0
    ensures |out| == |cells|
    ensures forall j :: 0 <= j < |cells| && !Hit(draws, |cells|, j) ==> out[j] == cells[j]
    ensures forall j :: 0 <= j < |cells| && Hit(draws, |cells|, j) ==> out[j].picked && out[j].time == 0
    ensures forall j :: 0 <= j < |cells| && cells[j].Coloured() ==> out[j].Coloured()
    decreases |draws|
  {
    if draws == [] then cells
    else
      var prev := PickPhase(cells, draws[..|draws| - 1], opts);
      var d := draws[|draws| - 1];
      var out := prev[ScaledFloor(d.index, |cells|) := Activate(opts, d.color, d.duration)];
      assert forall j :: Hit(draws, |cells|, j) && !Hit(draws[..|draws| - 1], |cells|, j) ==>
        j == ScaledFloor(d.index, |cells|);
      assert forall j :: Hit(draws[..|draws| - 1], |cells|, j) ==> Hit(draws, |cells|, j);
      out
  }

  /**
   * When several draws land on one cell, the last of them decides its
   * state: picking again restarts the animation.
   */
  lemma {:induction false} LastPickWins(cells: seq<Cell>, draws: seq<PickDraw>, opts: Options, i: nat)
    requires |cells| > 0 && |opts.colors| > 0
    requires i < |draws|
    requires forall i' :: i < i' < |draws| ==>
               ScaledFloor(draws[i'].index, |cells|) != ScaledFloor(draws[i].index, |cells|)
    ensures PickPhase(cells, draws, opts)[ScaledFloor(draws[i].index, |cells|)]
              == Activate(opts, draws[i].color, draws[i].duration)
    decreases |draws|
  {
    if i < |draws| - 1 {
      var front := draws[..|draws| - 1];
      LastPickWins(cells, front, opts, i);
    }
  }

  /** The step phase (hexagon-bg.js:98): every cell advances once. */
  function AdvanceAll(cells: seq<Cell>): (out: seq<Cell>)
    ensures |out| == |cells|
    ensures forall j :: 0 <= j < |cells| ==> out[j] == Advance(cells[j])
  {
    seq(|cells|, j requires 0 <= j < |cells| => Advance(cells[j]))
  }

  /** What the step phase draws, cell by cell in array order. */
  function Appearances(cells: seq<Cell>, strokeColor: string): (out: seq<Paint>)
    requires forall j :: 0 <= j < |cells| ==> cells[j].Coloured()
    ensures |out| == |cells|
    ensures forall j :: 0 <= j < |cells| ==> out[j] == Appearance(cells[j], strokeColor)
  {
    seq(|cells|, j requires 0 <= j < |cells| => Appearance(cells[j], strokeColor))
  }

  /**
   * The first frame on a grid of idle cells, with picksParTick = 1, a fixed
   * duration (addedTime = 0) and baseTime >= 2: afterwards exactly one cell
   * is picked, the one the draw chose, with time 1 and target baseTime.
   */
  lemma FirstFrame(cells: seq<Cell>, d: PickDraw, opts: Options)
    requires |cells| > 0 && |opts.colors| > 0
    requires forall j :: 0 <= j < |cells| ==> !cells[j].picked
    requires opts.addedTime == 0 && opts.baseTime >= 2
    ensures forall j :: 0 <= j < |cells| ==>
      (AdvanceAll(PickPhase(cells, [d], opts))[j].picked <==> j == ScaledFloor(d.index, |cells|))
    ensures AdvanceAll(PickPhase(cells, [d], opts))[ScaledFloor(d.index, |cells|)].time == 1
    ensures AdvanceAll(PickPhase(cells, [d], opts))[ScaledFloor(d.index, |cells|)].targetTime == opts.baseTime
  {
    var i := ScaledFloor(d.index, |cells|);
    LastPickWins(cells, [d], opts, 0);
    forall j | 0 <= j < |cells| && j != i
      ensures !Hit([d], |cells|, j)
    {
    }
  }

  /** Divides a real loop of createHexGrid into whole steps, for its termination measure. */
  lemma FloorStep(limit: real, x: real, step: real)
    requires step > 0.0 && x < limit
    ensures 0 <= ((limit - x) / step).Floor
    ensures ((limit - (x + step)) / step).Floor < ((limit - x) / step).Floor
  {
    assert step / step == 1.0;
    assert ((limit - x) - step) / step == (limit - x) / step - step / step;
  }

  /** The states of the given cells, in order. */
  ghost function StatesOf(hs: seq<Hex>): (s: seq<Cell>)
    reads hs
    ensures |s| == |hs|
    ensures forall k :: 0 <= k < |hs| ==> s[k] == hs[k].State()
  {
    seq(|hs|, k requires 0 <= k < |hs| reads hs => hs[k].State())
  }

  /** No cell object appears twice in the array. */
  ghost predicate Distinct(hs: seq<Hex>)
  {
    forall i, j :: 0 <= i < j < |hs| ==> hs[i] != hs[j]
  }

  /** The animated background (hexagon-bg.js:3-116). */
  class HexagonBackground {
    const options: Options
    const geometry: Geometry
    /** sqrt(3) * side / 2: half the distance between two columns. */
    const difX: real
    /** 3 * side / 2: the distance between two rows. */
    const difY: real
    var width: real
    var height: real
    var hexs: seq<Hex>
    var tick: real
    /** How many columns and rows the last createHexGrid laid out, and where each cell is. */
    ghost var columns: nat
    ghost var rows: nat
    ghost var positions: seq<GridPos>

    /** The geometry and options the background needs, and a container of real size. */
    ghost predicate Configured()
      reads this
    {
      && |options.colors| > 0
      && options.side > 0.0
      && geometry.side == options.side && geometry.cos > 0.0 && geometry.sin > 0.0
      && difX > 0.0 && difY == options.side * 3.0 / 2.0
      && width >= 0.0 && height >= 0.0
    }

    /** Configured, the cells are distinct objects, and a picked cell has a colour. */
    ghost predicate Valid()
      reads this, hexs
    {
      && Configured()
      && Distinct(hexs)
      && (forall i :: 0 <= i < |hexs| ==> hexs[i].State().Coloured())
    }

    /** The x of column c: the outer loop starts at -difX and moves 2 * difX. */
    ghost function ColumnX(c: nat): real
    {
      -difX + c as real * (2.0 * difX)
    }

    /** The y of row r: the inner loop starts at -side and moves difY. */
    ghost function RowY(r: nat): real
    {
      -options.side + r as real * difY
    }

    lemma NextRowAndColumn(n: nat)
      ensures RowY(n + 1) == RowY(n) + difY
      ensures ColumnX(n + 1) == ColumnX(n) + 2.0 * difX
    {
    }

    /** A cell's x: its column's x, shifted by difX when its 1-based row counter is odd. */
    ghost function CellX(p: GridPos): real
    {
      ColumnX(p.column) + difX * ((p.row + 1) % 2) as real
    }

    /** Cell h has the centre and corners createHexGrid gives position p. */
    ghost predicate Placed(h: Hex, p: GridPos)
    {
      && h.x == CellX(p)
      && h.y == RowY(p.row)
      && (h.xs, h.ys) == Vertices(h.x, h.y, geometry)
    }

    /** n columns: every column x below width + difX, and the next one not. */
    ghost predicate IsColumnCount(n: nat)
      reads this
    {
      ColumnX(n) >= width + difX && forall c :: 0 <= c < n ==> ColumnX(c) < width + difX
    }

    /** n rows: every row y below height + side, and the next one not. */
    ghost predicate IsRowCount(n: nat)
      reads this
    {
      RowY(n) >= height + options.side && forall r :: 0 <= r < n ==> RowY(r) < height + options.side
    }

    /** The grid createHexGrid builds for the current width and height (hexagon-bg.js:70-82). */
    ghost predicate LaidOut()
      reads this
    {
      && IsColumnCount(columns) && IsRowCount(rows)
      && columns >= 1 && rows >= 1
      && positions == GridOrder(columns, rows)
      && |hexs| == |positions|
      && forall k :: 0 <= k < |hexs| ==> Placed(hexs[k], positions[k])
    }

    lemma RowCountUnique(n: nat, m: nat)
      requires IsRowCount(n) && IsRowCount(m)
      ensures n == m
    {
    }

    /**
     * constructor + init, without the canvas: the caller's options are
     * merged onto the defaults, then calculateHexParams and resize to the
     * container's size (hexagon-bg.js:4-58). sqrt(3)*side/2, cos(pi/6)*side
     * and sin(pi/6)*side come in as difX, cos and sin.
     */
    constructor (overrides: Overrides, difX: real, cos: real, sin: real, width: real, height: real)
      requires |Merge(overrides).colors| > 0 && Merge(overrides).side > 0.0
      requires difX > 0.0 && cos > 0.0 && sin > 0.0
      requires width >= 0.0 && height >= 0.0
      ensures options == Merge(overrides) && this.difX == difX
      ensures geometry == Geometry(options.side, cos, sin)
      ensures this.width == width && this.height == height && tick == 0.0
      ensures Valid() && LaidOut()
      ensures forall k :: 0 <= k < |hexs| ==> fresh(hexs[k]) && hexs[k].State() == Fresh
    {
      var options := Merge(overrides);
      this.options := options;
      this.difX := difX;
      this.difY := options.side * 3.0 / 2.0;
      this.geometry := Geometry(options.side, cos, sin);
      this.width := width;
      this.height := height;
      this.tick := 0.0;
      this.hexs := [];
      new;
      CreateHexGrid();
    }

    /** resize(): take the container's new size and rebuild the grid from scratch. */
    method Resize(width: real, height: real)
      requires Configured()
      requires width >= 0.0 && height >= 0.0
      modifies this`width, this`height, this`hexs, this`columns, this`rows, this`positions
      ensures this.width == width && this.height == height
      ensures Valid() && LaidOut()
      ensures forall k :: 0 <= k < |hexs| ==> fresh(hexs[k]) && hexs[k].State() == Fresh
    {
      this.width := width;
      this.height := height;
      CreateHexGrid();
    }

    /**
     * createHexGrid(): a new array of new, idle cells, column after column;
     * no cell of the old grid survives. The inner loop, one column, is the
     * method CreateColumn.
     */
    method CreateHexGrid()
      requires Configured()
      modifies this`hexs, this`columns, this`rows, this`positions
      ensures Valid() && LaidOut()
      ensures forall k :: 0 <= k < |hexs| ==> fresh(hexs[k]) && hexs[k].State() == Fresh
    {
      var cells: seq<Hex> := [];
      ghost var pos: seq<GridPos> := [];
      ghost var c: nat := 0;
      ghost var rowCount: nat := 0;
      var x := -difX;
      while x < width + difX
        invariant x == ColumnX(c)
        invariant forall c' :: 0 <= c' < c ==> ColumnX(c') < width + difX
        invariant c > 0 ==> IsRowCount(rowCount) && rowCount >= 1
        invariant pos == GridOrder(c, rowCount) && |cells| == |pos|
        invariant Distinct(cells)
        invariant forall k :: 0 <= k < |cells| ==> fresh(cells[k]) && cells[k].State() == Fresh
        invariant forall k :: 0 <= k < |cells| ==> Placed(cells[k], pos[k])
        decreases ((width + difX - x) / (2.0 * difX)).Floor
      {
        var column, r := CreateColumn(x, c);
        if c > 0 {
          RowCountUnique(r, rowCount);
        }
        rowCount := r;
        cells := cells + column;
        pos := pos + Column(c, r);
        c := c + 1;
        FloorStep(width + difX, x, 2.0 * difX);
        x := x + difX * 2.0;
        NextRowAndColumn(c - 1);
      }
      assert ColumnX(0) < width + difX;
      hexs := cells;
      columns := c;
      rows := rowCount;
      positions := pos;
    }

    /**
     * The inner loop of createHexGrid (hexagon-bg.js:76-80): the cells of
     * column c, whose x is x, top to bottom, with the row counter i
     * deciding the offset.
     */
    method CreateColumn(x: real, ghost c: nat) returns (column: seq<Hex>, ghost r: nat)
      requires Configured()
      requires x == ColumnX(c)
      ensures IsRowCount(r) && r >= 1 && |column| == r
      ensures Distinct(column)
      ensures forall k :: 0 <= k < r ==> fresh(column[k]) && column[k].State() == Fresh
      ensures forall k :: 0 <= k < r ==> Placed(column[k], GridPos(c, k))
    {
      column := [];
      r := 0;
      var i := 0;
      var y := -options.side;
      while y < height + options.side
        invariant i == r && y == RowY(r) && |column| == r
        invariant forall r' :: 0 <= r' < r ==> RowY(r') < height + options.side
        invariant Distinct(column)
        invariant forall k :: 0 <= k < r ==> fresh(column[k]) && column[k].State() == Fresh
        invariant forall k :: 0 <= k < r ==> Placed(column[k], GridPos(c, k))
        decreases ((height + options.side - y) / difY).Floor
      {
        i := i + 1;
        var h := new Hex(x + difX * (i % 2) as real, y, geometry);
        assert Placed(h, GridPos(c, r));
        column := column + [h];
        r := r + 1;
        FloorStep(height + options.side, y, difY);
        y := y + difY;
        NextRowAndColumn(r - 1);
      }
      assert RowY(0) < height + options.side;
    }

    /**
     * loop(): one frame. The tick advances by hueSpeed; the draws pick
     * picksParTick cells, in order (PickCells); then every cell steps once,
     * in array order (StepCells), and what each step draws is returned in
     * that order. A frame with picks needs a non-empty grid, as
     * Math.floor(r * 0) indexes an empty array.
     */
    method Loop(draws: seq<PickDraw>) returns (paints: seq<Paint>)
      requires Valid()
      requires |draws| == options.picksParTick
      requires |draws| > 0 ==> |hexs| > 0
      modifies this`tick, hexs
      ensures Valid()
      ensures tick == old(tick) + options.hueSpeed
      ensures StatesOf(hexs) == AdvanceAll(PickPhase(old(StatesOf(hexs)), draws, options))
      ensures paints == Appearances(PickPhase(old(StatesOf(hexs)), draws, options), options.strokeColor)
    {
      tick := tick + options.hueSpeed;
      PickCells(draws);
      paints := StepCells();
    }

    /** The pick loop of loop() (hexagon-bg.js:92-95). */
    method PickCells(draws: seq<PickDraw>)
      requires Valid()
      requires |draws| == options.picksParTick
      requires |draws| > 0 ==> |hexs| > 0
      modifies hexs
      ensures Valid()
      ensures StatesOf(hexs) == PickPhase(old(StatesOf(hexs)), draws, options)
    {
      ghost var before := StatesOf(hexs);
      var i := 0;
      while i < options.picksParTick
        invariant 0 <= i <= |draws|
        invariant Valid()
        invariant StatesOf(hexs) == PickPhase(before, draws[..i], options)
      {
        var index := ScaledFloor(draws[i].index, |hexs|);
        ghost var mid := StatesOf(hexs);
        hexs[index].Pick(options, draws[i].color, draws[i].duration);
        forall k | 0 <= k < |hexs| && k != index
          ensures hexs[k].State() == mid[k]
        {
          assert hexs[k] != hexs[index];
        }
        assert StatesOf(hexs) == mid[index := Activate(options, draws[i].color, draws[i].duration)];
        assert draws[..i + 1][..i] == draws[..i];
        i := i + 1;
      }
      assert draws[..i] == draws;
    }

    /** The step phase of loop() (hexagon-bg.js:98): hexs.forEach(hex => hex.step()). */
    method StepCells() returns (paints: seq<Paint>)
      requires Valid()
      modifies hexs
      ensures Valid()
      ensures StatesOf(hexs) == AdvanceAll(old(StatesOf(hexs)))
      ensures paints == Appearances(old(StatesOf(hexs)), options.strokeColor)
    {
      ghost var before := StatesOf(hexs);
      paints := [];
      var j := 0;
      while j < |hexs|
        invariant 0 <= j <= |hexs| && |paints| == j
        invariant forall k :: 0 <= k < |hexs| ==> before[k].Coloured()
        invariant forall k :: 0 <= k < j ==>
          hexs[k].State() == Advance(before[k]) && paints[k] == Appearance(before[k], options.strokeColor)
        invariant forall k :: j <= k < |hexs| ==> hexs[k].State() == before[k]
      {
        var paint := hexs[j].Step(options.strokeColor);
        paints := paints + [paint];
        j := j + 1;
      }
      assert StatesOf(hexs) == AdvanceAll(before);
    }
  }
}
