/**
 * `ClockApp::renderClock`: a 60 x 60 renderer, a world holding one clock
 * set to the requested time, one rendering pass and the buffer as text.
 * The process exit that sends the text is replaced by returning it.
 */
module App {

  import opened PhpMath
  import opened Palette
  import opened Cursor
  import opened Raster
  import opened ClockTime
  import opened Renderer
  import opened Scene

  /** Cells per side of the clock's square buffer. */
  const Side: int := 60

  /** The buffer `setSize(60, 60)` makes from an empty one: 60 entries of
      60 black cells. */
  function Blank(): (g: Grid)
    ensures |g| == Side && Rows(g, Side) && Bright(g)
    ensures forall i, j :: 0 <= i < Side && 0 <= j < Side ==> g[i][j] == 0.0
  {
    seq(Side, _ => Zeros(Side))
  }

  /** The middle of the 60 x 60 buffer, where the face and hands are centred. */
  function ClockCentre(): Point
  {
    Centre((Side, Side))
  }

  /** The pixels of one rendering pass: the face, then the hour, minute and
      second hands. */
  function ClockPlots(time: int, trig: Trig): (ps: seq<Plot>)
    ensures |ps| == |trig.circle| + 45
    ensures forall k :: 0 <= k < |trig.circle| ==> ps[k].a == 1.0
    ensures forall k :: |trig.circle| <= k < |ps| ==> 0.25 <= ps[k].a <= 0.75
  {
    FacePlots(ClockCentre(), trig.circle) + HandPlots(ClockCentre(), SplitTime(time), trig)
  }

  /** The picture of the clock at `time`: every pixel of the face and the
      hands written, in drawing order, over a black buffer. */
  ghost function Picture(time: int, trig: Trig): (g: Grid)
    ensures |g| == Side && Rows(g, Side) && Bright(g)
  {
    PlotsBright(time, trig);
    Replay(Blank(), ClockPlots(time, trig))
  }

  /** The face and the hands are centred at (30, 30), and a face of radius
      22 about it lies inside the buffer. */
  lemma FaceFits()
    ensures ClockCentre() == Point(30.0, 30.0)
    ensures BoxFits(ClockCentre(), FaceRadius, (Side, Side))
  {
    CeilHalf(Side);
  }

  /** Every pixel of the clock has a brightness the palette can show: the
      face is at 1 and the hands at 0.75, 0.5 and 0.25. */
  lemma PlotsBright(time: int, trig: Trig)
    ensures forall k :: 0 <= k < |ClockPlots(time, trig)| ==> 0.0 <= ClockPlots(time, trig)[k].a <= 1.0
    ensures Bright(Replay(Blank(), ClockPlots(time, trig)))
  {
    var ps := ClockPlots(time, trig);
    var face := FacePlots(ClockCentre(), trig.circle);
    var t := SplitTime(time);
    var hour := LinePlots(ClockCentre(), trig.sinCos(HourAngle(t)), 10, 0.75);
    var minute := LinePlots(ClockCentre(), trig.sinCos(MinuteAngle(t)), 15, 0.5);
    var second := LinePlots(ClockCentre(), trig.sinCos(SecondAngle(t)), 20, 0.25);
    assert ps == face + hour + minute + second;
    forall k | 0 <= k < |ps|
      ensures 0.0 <= ps[k].a <= 1.0
    {
      if k < |face| {
        assert ps[k] == face[k];
      } else if k < |face| + |hour| {
        assert ps[k] == hour[k - |face|];
      } else if k < |face| + |hour| + |minute| {
        assert ps[k] == minute[k - |face| - |hour|];
      } else {
        assert ps[k] == second[k - |face| - |hour| - |minute|];
      }
    }
    ReplayKeepsBright(Blank(), ps);
  }

  /** At half past any minute the second hand points straight down: its
      tip is 20 cells below the centre. */
  lemma SecondHandAtHalfMinute(t: int, trig: Trig)
    requires ValidTrig(trig) && t % 60 == 30
    ensures HandPlots(ClockCentre(), SplitTime(t), trig)[44] == Plot(30.0, 50.0, 0.25)
  {
    var c := SplitTime(t);
    SecondAngleOfTimestamp(t);
    FaceFits();
    var dir := trig.sinCos(SecondAngle(c));
    LinePlotAt(ClockCentre(), dir, 20, 0.25, 19);
    assert HandPlots(ClockCentre(), c, trig)[44] == LinePlots(ClockCentre(), dir, 20, 0.25)[19];
  }

  /** At a quarter past any hour the minute hand points right: its `k`-th
      pixel is `k + 1` cells right of the centre. */
  lemma MinuteHandAtQuarterPast(t: int, trig: Trig, k: int)
    requires ValidTrig(trig) && t % 3600 == 900 && 0 <= k < 15
    ensures HandPlots(ClockCentre(), SplitTime(t), trig)[10 + k] == Plot(30.0 + (k + 1) as real, 30.0, 0.5)
  {
    var c := SplitTime(t);
    MinuteAngleOfTimestamp(t);
    FaceFits();
    var dir := trig.sinCos(MinuteAngle(c));
    LinePlotAt(ClockCentre(), dir, 15, 0.5, k);
    assert HandPlots(ClockCentre(), c, trig)[10 + k] == LinePlots(ClockCentre(), dir, 15, 0.5)[k];
  }

  /** At twelve o'clock the hour hand reads 360 degrees and points straight
      up: its `k`-th pixel is `k + 1` cells above the centre. */
  lemma HourHandAtTwelve(t: int, trig: Trig, k: int)
    requires ValidTrig(trig) && t % 43200 == 0 && 0 <= k < 10
    ensures HandPlots(ClockCentre(), SplitTime(t), trig)[k] == Plot(30.0, 30.0 - (k + 1) as real, 0.75)
  {
    var c := SplitTime(t);
    HourAngleOfTimestamp(t);
    assert HourAngle(c) == 360.0;
    assert trig.sinCos(360.0) == trig.sinCos(0.0);
    FaceFits();
    var dir := trig.sinCos(HourAngle(c));
    LinePlotAt(ClockCentre(), dir, 10, 0.75, k);
    assert HandPlots(ClockCentre(), c, trig)[k] == LinePlots(ClockCentre(), dir, 10, 0.75)[k];
  }

  /** Reading the clock's text: line `r`, characters `2c` and `2c + 1`
      show the glyph of the last clock pixel that rounds to cell `(r, c)`,
      or a blank when none does. */
  lemma ClockText(time: int, trig: Trig, r: int, c: int)
    requires 0 <= r < Side && 0 <= c < Side
    ensures var lines := Explode(Serialize(Picture(time, trig)));
      var a := LastWrite(0.0, ClockPlots(time, trig), r, c);
      && |lines| == Side && |lines[r]| == 2 * Side && 0.0 <= a <= 1.0
      && lines[r][2 * c] == lines[r][2 * c + 1] == Pixels[GlyphIndex(a)]
  {
    var g := Picture(time, trig);
    SerializeLines(g);
    ReplayCell(Blank(), ClockPlots(time, trig), r, c);
    LineOfAt(g[r], c);
  }

  /** A world holding one clock draws exactly the clock's pixels. */
  lemma LoneClockDrawn(time: int, trig: Trig)
    ensures DrawnAll([Node(Clock(time), 0.0, 0.0, [])], (Side, Side), trig) == ClockPlots(time, trig)
  {
    var size := (Side, Side);
    var clock := Node(Clock(time), 0.0, 0.0, []);
    assert [clock][..0] == [];
    assert DrawnAll([clock], size, trig) == Drawn(clock, size, trig);
    assert Drawn(clock, size, trig)
        == FacePlots(Centre(size), trig.circle) + [] + HandPlots(Centre(size), SplitTime(time), trig);
    assert FacePlots(Centre(size), trig.circle) + [] == FacePlots(Centre(size), trig.circle);
  }

  /** The scene of `renderClock`: a world whose only child is a clock set
      to `time`, at the origin and without children of its own. */
  method NewWorld(time: int) returns (world: Container)
    ensures fresh(world.Repr) && world.Valid() && world.kind.World?
    ensures Shapes(world.children, world.rank) == [Node(Clock(time), 0.0, 0.0, [])]
  {
    world := new Container.World();
    var clock := new Container.ClockActor();
    clock.SetTime(time);
    world.AddChild(clock);
    LoneShape(clock, world.rank);
  }

  /** `renderClock`: the text of the clock at `time` is the serialised
      picture; it has 60 lines of 120 characters. */
  method RenderClock(time: int, trig: Trig) returns (output: string)
    requires ValidTrig(trig)
    ensures output == Serialize(Picture(time, trig))
    ensures |Explode(output)| == Side
    ensures forall i :: 0 <= i < Side ==> |Explode(output)[i]| == 2 * Side
  {
    var renderer := new AsciiRenderer();
    renderer.SetSize(Side, Side);
    assert renderer.buffer == Blank();
    var world := NewWorld(time);
    FaceFits();
    RenderContainer(renderer, world, trig);
    LoneClockDrawn(time, trig);
    PlotsBright(time, trig);
    output := renderer.GetBuffer();
    SerializeLines(renderer.buffer);
  }
}
