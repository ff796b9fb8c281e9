/**
 * One cell of the animated hexagon background (class Hex in hexagon-bg.js).
 *
 * A cell is a small state machine over `picked`, `time` and `targetTime`:
 * `pick` switches it on with a random duration and colour, and every frame
 * `step` counts one more frame and switches it off once the duration is used
 * up. The state of a cell is the value `Cell`; the functions `Activate`,
 * `Advance` and `Appearance` say what `Hex.Pick` and `Hex.Step` do to it, and
 * the lemmas at the end follow a cell through its whole life.
 */
module HexCell {
  import opened JsMath

  /**
   * The options of a background (hexagon-bg.js:6-15). The colours are
   * templates in which the word `alp` is later replaced by an opacity.
   */
  datatype Options = Options(
    side: real,
    picksParTick: nat,
    baseTime: int,
    addedTime: int,
    colors: seq<string>,
    strokeColor: string,
    repaintAlpha: real,
    hueSpeed: real)

  /** The defaults (hexagon-bg.js:7-14) that `Merge` puts the caller's options onto. */
  const DefaultOptions := Options(25.0, 2, 40, 10, ["rgba(180,30,30,alp)", "rgba(255,255,255,alp)"],
                                  "rgb(100,0,0)", 1.0, 0.4)

  /** The options a caller passes to the constructor: each one may be given or absent. */
  datatype Overrides = Overrides(
    side: Option<real>,
    picksParTick: Option<nat>,
    baseTime: Option<int>,
    addedTime: Option<int>,
    colors: Option<seq<string>>,
    strokeColor: Option<string>,
    repaintAlpha: Option<real>,
    hueSpeed: Option<real>)

  /** A caller that passes no options (the `options = {}` default). */
  const NoOverrides := Overrides(None, None, None, None, None, None, None, None)

  function OrElse<T>(given: Option<T>, default: T): T
  {
    if given.Some? then given.value else default
  }

  /**
   * Object.assign of the caller's options onto the defaults
   * (hexagon-bg.js:6-15): an option the caller gives wins, and every other
   * option keeps its default.
   */
  function Merge(o: Overrides): (opts: Options)
    ensures o.side.Some? ==> opts.side == o.side.value
    ensures o.side.None? ==> opts.side == DefaultOptions.side
    ensures o.picksParTick.Some? ==> opts.picksParTick == o.picksParTick.value
    ensures o.picksParTick.None? ==> opts.picksParTick == DefaultOptions.picksParTick
    ensures o.baseTime.Some? ==> opts.baseTime == o.baseTime.value
    ensures o.baseTime.None? ==> opts.baseTime == DefaultOptions.baseTime
    ensures o.addedTime.Some? ==> opts.addedTime == o.addedTime.value
    ensures o.addedTime.None? ==> opts.addedTime == DefaultOptions.addedTime
    ensures o.colors.Some? ==> opts.colors == o.colors.value
    ensures o.colors.None? ==> opts.colors == DefaultOptions.colors
    ensures o.strokeColor.Some? ==> opts.strokeColor == o.strokeColor.value
    ensures o.strokeColor.None? ==> opts.strokeColor == DefaultOptions.strokeColor
    ensures o.repaintAlpha.Some? ==> opts.repaintAlpha == o.repaintAlpha.value
    ensures o.repaintAlpha.None? ==> opts.repaintAlpha == DefaultOptions.repaintAlpha
    ensures o.hueSpeed.Some? ==> opts.hueSpeed == o.hueSpeed.value
    ensures o.hueSpeed.None? ==> opts.hueSpeed == DefaultOptions.hueSpeed
  {
    Options(
      OrElse(o.side, DefaultOptions.side),
      OrElse(o.picksParTick, DefaultOptions.picksParTick),
      OrElse(o.baseTime, DefaultOptions.baseTime),
      OrElse(o.addedTime, DefaultOptions.addedTime),
      OrElse(o.colors, DefaultOptions.colors),
      OrElse(o.strokeColor, DefaultOptions.strokeColor),
      OrElse(o.repaintAlpha, DefaultOptions.repaintAlpha),
      OrElse(o.hueSpeed, DefaultOptions.hueSpeed))
  }

  /** Passing no options gives the defaults, and passing all of them ignores the defaults. */
  lemma MergeExtremes(opts: Options)
    ensures Merge(NoOverrides) == DefaultOptions
    ensures Merge(Overrides(Some(opts.side), Some(opts.picksParTick), Some(opts.baseTime),
                            Some(opts.addedTime), Some(opts.colors), Some(opts.strokeColor),
                            Some(opts.repaintAlpha), Some(opts.hueSpeed))) == opts
  {
  }

  /**
   * The geometry a cell reads from its background: the side length and
   * cos(pi/6)*side, sin(pi/6)*side. The trigonometry is not modelled; the
   * two products are taken as given positive reals.
   */
  datatype Geometry = Geometry(side: real, cos: real, sin: real)

  /** The mutable part of a cell; `color` is undefined until the first pick. */
  datatype Cell = Cell(picked: bool, time: int, targetTime: int, color: Option<string>)
  {
    /** A picked cell always has a colour to fill with. */
    predicate Coloured() {
      picked ==> color.Some?
    }
  }

  /** The state the constructor gives every new cell (hexagon-bg.js:124-126). */
  const Fresh := Cell(false, 0, 0, None)

  /** What one `step` draws: a fill at progress elapsed/target, or the outline. */
  datatype Paint = Fill(template: string, elapsed: int, target: int) | Stroke(color: string)

  /** Math.floor(baseTime + addedTime * r): the length of an animation, in frames. */
  function Duration(baseTime: int, addedTime: int, r: Draw): (t: int)
    ensures addedTime > 0 ==> baseTime <= t <= baseTime + addedTime - 1
    ensures addedTime == 0 ==> t == baseTime
    ensures addedTime < 0 ==> baseTime + addedTime <= t <= baseTime
  {
    AddedBelow(addedTime, r);
    (baseTime as real + addedTime as real * r).Floor
  }

  lemma AddedBelow(addedTime: int, r: Draw)
    ensures addedTime >= 0 ==> 0.0 <= addedTime as real * r
    ensures addedTime > 0 ==> addedTime as real * r < addedTime as real
    ensures addedTime < 0 ==> addedTime as real < addedTime as real * r <= 0.0
  {
    if addedTime >= 0 {
      ScaledBelow(r, addedTime);
    } else {
      ScaledBelow(r, -addedTime);
      assert addedTime as real * r == -(r * (-addedTime) as real);
    }
  }

  /**
   * The state `pick` leaves behind (hexagon-bg.js:155-161). It does not
   * depend on the state before: picking an active cell restarts it.
   */
  function Activate(opts: Options, rColor: Draw, rTime: Draw): (c: Cell)
    requires |opts.colors| > 0
    ensures c.picked && c.time == 0 && c.Coloured()
    ensures c.color.value in opts.colors
    ensures c.targetTime == Duration(opts.baseTime, opts.addedTime, rTime)
  {
    Cell(true, 0, Duration(opts.baseTime, opts.addedTime, rTime),
         Some(opts.colors[ScaledFloor(rColor, |opts.colors|)]))
  }

  /**
   * The state `step` leaves behind (hexagon-bg.js:177-183): a picked cell
   * counts one frame and is released once the count reaches its target; an
   * idle cell is only outlined and keeps its state.
   */
  function Advance(c: Cell): (d: Cell)
    ensures c.picked ==> d.time == c.time + 1 && d.targetTime == c.targetTime && d.color == c.color
    ensures c.picked ==> (d.picked <==> d.time < c.targetTime)
    ensures !c.picked ==> d == c
    ensures c.Coloured() ==> d.Coloured()
  {
    if c.picked then
      var t := c.time + 1;
      c.(time := t, picked := !(t >= c.targetTime))
    else
      c
  }

  /**
   * What `step` draws for a cell in state c (hexagon-bg.js:165-191). The
   * progress time/targetTime is taken before the frame is counted; the sine
   * that turns it into an opacity is not modelled.
   */
  function Appearance(c: Cell, strokeColor: string): (p: Paint)
    requires c.Coloured()
    ensures p.Fill? <==> c.picked
    ensures p.Fill? ==> p.template == c.color.value && p.elapsed == c.time && p.target == c.targetTime
    ensures p.Stroke? ==> p.color == strokeColor
  {
    if c.picked then Fill(c.color.value, c.time, c.targetTime) else Stroke(strokeColor)
  }

  /**
   * The state after k frames without a pick. Frames never change a cell's
   * target or colour.
   */
  function Steps(c: Cell, k: nat): (d: Cell)
    ensures d.targetTime == c.targetTime && d.color == c.color
    ensures c.Coloured() ==> d.Coloured()
    decreases k
  {
    if k == 0 then c else Steps(Advance(c), k - 1)
  }

  /** How many frames a picked cell still has to live: at least one. */
  function Remaining(c: Cell): nat
  {
    if c.targetTime - c.time >= 1 then c.targetTime - c.time else 1
  }

  /**
   * A picked cell counts up one per frame and stays picked for exactly
   * Remaining(c) more frames.
   */
  lemma {:induction false} ActiveCountsUp(c: Cell, k: nat)
    requires c.picked && c.time >= 0
    requires k <= Remaining(c)
    ensures Steps(c, k) == c.(time := c.time + k, picked := k < Remaining(c))
    decreases k
  {
    if k > 0 {
      var d := Advance(c);
      if Remaining(c) == 1 {
        assert k == 1;
        assert Steps(c, k) == Steps(d, 0) == d;
      } else {
        assert d.picked && Remaining(d) == Remaining(c) - 1;
        ActiveCountsUp(d, k - 1);
      }
    }
  }

  /** An idle cell stays idle, and unchanged, for as long as it is not picked. */
  lemma {:induction false} IdleStaysIdle(c: Cell, k: nat)
    requires !c.picked
    ensures Steps(c, k) == c
    decreases k
  {
    if k > 0 {
      IdleStaysIdle(Advance(c), k - 1);
    }
  }

  /** Steps compose: k + m frames are k frames followed by m frames. */
  lemma {:induction false} StepsAdd(c: Cell, k: nat, m: nat)
    ensures Steps(c, k + m) == Steps(Steps(c, k), m)
    decreases k
  {
    if k > 0 {
      StepsAdd(Advance(c), k - 1, m);
    }
  }

  /**
   * The life of one activation: a cell just picked (as Activate leaves it)
   * with target T >= 1 is picked during exactly the frames 0 .. T-1, is
   * filled at progress k/T in frame k of them, and is idle, with time T,
   * from frame T on, for as long as it is not picked again.
   */
  lemma Lifetime(c: Cell, k: nat, strokeColor: string)
    requires c.picked && c.time == 0 && c.targetTime >= 1 && c.Coloured()
    ensures Steps(c, k).picked <==> k < c.targetTime
    ensures k < c.targetTime ==> Appearance(Steps(c, k), strokeColor) == Fill(c.color.value, k, c.targetTime)
    ensures k >= c.targetTime ==> Steps(c, k).time == c.targetTime
  {
    var t := c.targetTime;
    if k <= t {
      ActiveCountsUp(c, k);
    } else {
      ActiveCountsUp(c, t);
      StepsAdd(c, t, k - t);
      IdleStaysIdle(Steps(c, t), k - t);
    }
  }

  /**
   * The six corners of a cell centred at (x, y) (hexagon-bg.js:136-152),
   * xs and ys in drawing order.
   */
  function Vertices(x: real, y: real, g: Geometry): (v: (seq<real>, seq<real>))
    ensures |v.0| == 6 && |v.1| == 6
    ensures forall k :: 0 <= k < 3 ==> v.0[k] + v.0[k + 3] == 2.0 * x && v.1[k] + v.1[k + 3] == 2.0 * y
    ensures v.0[1] == v.0[4] == x && v.1[1] == y - g.side && v.1[4] == y + g.side
  {
    ([x + g.cos, x, x - g.cos, x - g.cos, x, x + g.cos],
     [y - g.sin, y - g.side, y - g.sin, y + g.sin, y + g.side, y + g.sin])
  }

  /** The z component of the cross product of the edges a->b and b->c. */
  function Turn(ax: real, ay: real, bx: real, b_y: real, cx: real, cy: real): real
  {
    (bx - ax) * (cy - b_y) - (b_y - ay) * (cx - bx)
  }

  /** The turn the outline makes at corner k + 1 (indices taken modulo 6). */
  function CornerTurn(x: real, y: real, g: Geometry, k: nat): real
    requires k < 6
  {
    var (xs, ys) := Vertices(x, y, g);
    Turn(xs[k], ys[k], xs[(k + 1) % 6], ys[(k + 1) % 6], xs[(k + 2) % 6], ys[(k + 2) % 6])
  }

  /**
   * When 0 < sin < side and cos > 0, as for cos(pi/6)*side and sin(pi/6)*side,
   * the outline turns the same way at every corner, so the path the step
   * strokes is a convex hexagon traced in one direction.
   */
  lemma OutlineTurnsOneWay(x: real, y: real, g: Geometry)
    requires g.cos > 0.0 && 0.0 < g.sin < g.side
    ensures forall k :: 0 <= k < 6 ==> CornerTurn(x, y, g, k) < 0.0
  {
    var s := g.side - g.sin;
    assert g.cos * s > 0.0;
    assert g.cos * g.sin > 0.0;
    forall k | 0 <= k < 6
      ensures CornerTurn(x, y, g, k) < 0.0
    {
      if k == 0 || k == 3 {
        assert CornerTurn(x, y, g, k) == -2.0 * (g.cos * s);
      } else {
        assert CornerTurn(x, y, g, k) == -2.0 * (g.cos * g.sin);
      }
    }
  }

  /** The default options give every activation 40 to 49 frames and a colour. */
  lemma DefaultDurations(rColor: Draw, rTime: Draw)
    ensures 40 <= Activate(DefaultOptions, rColor, rTime).targetTime <= 49
  {
  }

  /** A cell of the background (class Hex, hexagon-bg.js:119-194). */
  class Hex {
    const x: real
    const y: real
    const xs: seq<real>
    const ys: seq<real>
    var picked: bool
    var time: int
    var targetTime: int
    var color: Option<string>

    function State(): Cell
      reads this
    {
      Cell(picked, time, targetTime, color)
    }

    /** new Hex(x, y, hexBg), with its corners computed once (hexagon-bg.js:120-130). */
    constructor (x: real, y: real, g: Geometry)
      ensures this.x == x && this.y == y
      ensures (xs, ys) == Vertices(x, y, g)
      ensures State() == Fresh
    {
      this.x := x;
      this.y := y;
      var v := Vertices(x, y, g);
      xs := v.0;
      ys := v.1;
      picked := false;
      time := 0;
      targetTime := 0;
      color := None;
    }

    /** pick(): rColor and rTime are the two Math.random() draws, in call order. */
    method Pick(opts: Options, rColor: Draw, rTime: Draw)
      requires |opts.colors| > 0
      modifies this
      ensures State() == Activate(opts, rColor, rTime)
    {
      color := Some(opts.colors[ScaledFloor(rColor, |opts.colors|)]);
      picked := true;
      time := 0;
      targetTime := Duration(opts.baseTime, opts.addedTime, rTime);
    }

    /** step(): returns what it draws instead of drawing it. */
    method Step(strokeColor: string) returns (paint: Paint)
      requires State().Coloured()
      modifies this
      ensures State() == Advance(old(State()))
      ensures paint == Appearance(old(State()), strokeColor)
    {
      if picked {
        paint := Fill(color.value, time, targetTime);
        time := time + 1;
        if time >= targetTime {
          picked := false;
        }
      } else {
        paint := Stroke(strokeColor);
      }
    }
  }
}
