/**
 * The scene graph and its traversal. A node is a `Container` with a list of
 * child nodes; what it draws depends on its kind: the world (draws nothing),
 * a clock (draws its face, then appends its three hands as children) or a
 * line (draws a straight run of pixels from its anchor). The renderer visits
 * a node, lets it draw, and only then reads its children, so children that a
 * node appends while drawing itself are visited too.
 *
 * `sin` and `cos` are not modelled: a `Trig` value supplies the unit-circle
 * points of the clock face and the (sine, cosine) pair of every hand angle.
 */
module Scene {

  import opened PhpMath
  import opened Cursor
  import opened Raster
  import opened ClockTime
  import opened Renderer

  /** The source's classes `World`, `ClockActor` and `LineActor`, with the
      fields each adds to `Actor`. */
  datatype Kind = World | Clock(time: int) | Line(angle: real, length: int, colour: real)

  /** What PHP computes with `cos` and `sin`: the points `(cos t, sin t)` the
      face loop visits, and for an angle `d` in degrees the pair
      `(sin(d * pi / 180), cos(d * pi / 180))`. */
  datatype Trig = Trig(circle: seq<(real, real)>, sinCos: real -> (real, real))

  /** The squared length of a vector. */
  function Norm2(v: (real, real)): real
  {
    v.0 * v.0 + v.1 * v.1
  }

  /** Sines and cosines lie in [-1, 1], and every (cosine, sine) or
      (sine, cosine) pair is a point of the unit circle. An angle of 0
      degrees points up (sine 0, cosine 1), 90 right, 180 down and 270
      left, and a full turn of 360 degrees changes nothing. */
  ghost predicate ValidTrig(trig: Trig)
  {
    && (forall i :: 0 <= i < |trig.circle| ==>
          && -1.0 <= trig.circle[i].0 <= 1.0 && -1.0 <= trig.circle[i].1 <= 1.0
          && Norm2(trig.circle[i]) == 1.0)
    && (forall d: real ::
          && -1.0 <= trig.sinCos(d).0 <= 1.0 && -1.0 <= trig.sinCos(d).1 <= 1.0
          && Norm2(trig.sinCos(d)) == 1.0)
    && trig.sinCos(0.0) == (0.0, 1.0) && trig.sinCos(90.0) == (1.0, 0.0)
    && trig.sinCos(180.0) == (0.0, -1.0) && trig.sinCos(270.0) == (-1.0, 0.0)
    && (forall d: real, e: real :: e == d + 360.0 ==> trig.sinCos(e) == trig.sinCos(d))
  }

  /** Radius of the clock face in cells. */
  const FaceRadius: real := 22.0

  /** The middle of the grid as the clock computes it from `getSize()`:
      `(ceil(size[0] / 2), ceil(size[1] / 2))`. */
  function Centre(size: (int, int)): (c: Point)
    ensures size.0 as real / 2.0 <= c.x < size.0 as real / 2.0 + 1.0
    ensures size.1 as real / 2.0 <= c.y < size.1 as real / 2.0 + 1.0
    ensures size.0 >= 0 ==> c.x == ((size.0 + 1) / 2) as real
    ensures size.1 >= 0 ==> c.y == ((size.1 + 1) / 2) as real
  {
    var cx, cy := Ceil(size.0 as real / 2.0), Ceil(size.1 as real / 2.0);
    assert size.0 >= 0 ==> cx == (size.0 + 1) / 2 by {
      if size.0 >= 0 { CeilHalf(size.0); }
    }
    assert size.1 >= 0 ==> cy == (size.1 + 1) / 2 by {
      if size.1 >= 0 { CeilHalf(size.1); }
    }
    Point(cx as real, cy as real)
  }

  /** Every point within `reach` of `p` (in each coordinate) lands in the
      buffer: the `y` coordinate selects one of `size.0` outer entries, the
      `x` coordinate one of `size.1` cells. */
  predicate BoxFits(p: Point, reach: real, size: (int, int))
  {
    && 0.0 <= p.y - reach && p.y + reach <= (size.0 - 1) as real
    && 0.0 <= p.x - reach && p.x + reach <= (size.1 - 1) as real
  }

  /** The unit steps of a line along `dir`: `k` relative moves by `(sin, -cos)`. */
  function Steps(dir: (real, real), k: nat): (ms: seq<Move>)
    ensures |ms| == k && AllRelative(ms)
  {
    seq(k, _ => Move(dir.0, -dir.1, false))
  }

  /** The pixels a line draws: `length` of them (none for a negative
      length), the `k`-th one where `k + 1` unit steps from the anchor
      leave the cursor; the anchor itself is not drawn. */
  function LinePlots(p: Point, dir: (real, real), length: int, colour: real): (ps: seq<Plot>)
    ensures |ps| == if length < 0 then 0 else length
    ensures forall k :: 0 <= k < |ps| ==> ps[k].a == colour
  {
    seq(if length < 0 then 0 else length,
        k requires 0 <= k => var q := Follow(p, Steps(dir, k + 1)); Plot(q.x, q.y, colour))
  }

  /** The face pixel for one point of the unit circle. */
  function FacePlot(centre: Point, point: (real, real)): (q: Plot)
    ensures q.a == 1.0
    ensures -1.0 <= point.0 <= 1.0 && -1.0 <= point.1 <= 1.0 ==>
      && centre.x - FaceRadius <= q.x <= centre.x + FaceRadius
      && centre.y - FaceRadius <= q.y <= centre.y + FaceRadius
    ensures Norm2(point) == 1.0 ==> Norm2((q.x - centre.x, q.y - centre.y)) == FaceRadius * FaceRadius
  {
    assert -1.0 <= point.0 <= 1.0 ==> -FaceRadius <= FaceRadius * point.0 <= FaceRadius by {
      if -1.0 <= point.0 <= 1.0 { ScaledWithin(FaceRadius, point.0); }
    }
    assert -1.0 <= point.1 <= 1.0 ==> -FaceRadius <= FaceRadius * point.1 <= FaceRadius by {
      if -1.0 <= point.1 <= 1.0 { ScaledWithin(FaceRadius, point.1); }
    }
    Plot(centre.x + FaceRadius * point.0, centre.y + FaceRadius * point.1, 1.0)
  }

  /** The pixels of the clock face: one full-brightness pixel per circle
      point, at `centre + 22 * (cos, sin)`. */
  function FacePlots(centre: Point, circle: seq<(real, real)>): (ps: seq<Plot>)
    ensures |ps| == |circle|
    ensures forall i :: 0 <= i < |ps| ==> ps[i].a == 1.0
    ensures forall i :: 0 <= i < |ps| && -1.0 <= circle[i].0 <= 1.0 && -1.0 <= circle[i].1 <= 1.0 ==>
      && centre.x - FaceRadius <= ps[i].x <= centre.x + FaceRadius
      && centre.y - FaceRadius <= ps[i].y <= centre.y + FaceRadius
    ensures forall i :: 0 <= i < |ps| && Norm2(circle[i]) == 1.0 ==>
      Norm2((ps[i].x - centre.x, ps[i].y - centre.y)) == FaceRadius * FaceRadius
  {
    seq(|circle|, i requires 0 <= i < |circle| => FacePlot(centre, circle[i]))
  }

  /** The pixels of the three hands, in the order the clock appends them:
      hour (length 10, brightness 0.75), minute (15, 0.5), second (20, 0.25). */
  function HandPlots(centre: Point, t: Time, trig: Trig): (ps: seq<Plot>)
    requires 1 <= t.hour <= 12 && 0 <= t.minute < 60 && 0 <= t.second < 60
    ensures |ps| == 45
    ensures forall k :: 0 <= k < 10 ==> ps[k].a == 0.75
    ensures forall k :: 10 <= k < 25 ==> ps[k].a == 0.5
    ensures forall k :: 25 <= k < 45 ==> ps[k].a == 0.25
  {
    LinePlots(centre, trig.sinCos(HourAngle(t)), 10, 0.75)
      + LinePlots(centre, trig.sinCos(MinuteAngle(t)), 15, 0.5)
      + LinePlots(centre, trig.sinCos(SecondAngle(t)), 20, 0.25)
  }

  /** A multiple of a sine or cosine stays within the multiplier. */
  lemma ScaledWithin(k: real, s: real)
    requires 0.0 <= k && -1.0 <= s <= 1.0
    ensures -k <= k * s <= k
  {
    var below, above := 1.0 + s, 1.0 - s;
    assert k * below >= 0.0;
    assert k * above >= 0.0;
    assert k * s == k * below - k;
    assert k * s == k - k * above;
  }

  /** `n` steps of at most one cell each stay within a reach of at least `n`. */
  lemma ScaledWithinReach(n: real, s: real, reach: real)
    requires 0.0 <= n <= reach && -1.0 <= s <= 1.0
    ensures -reach <= n * s <= reach
  {
    ScaledWithin(n, s);
  }

  /** A point within a box that fits rounds to a cell of the buffer. */
  lemma InsideRounds(g: Grid, q: Point, p: Point, reach: real, size: (int, int))
    requires |g| == size.0 && Rows(g, size.1)
    requires BoxFits(p, reach, size)
    requires p.x - reach <= q.x <= p.x + reach && p.y - reach <= q.y <= p.y + reach
    ensures InGrid(g, Round(q.y), Round(q.x))
  {
    RoundBetween(q.y, 0, size.0 - 1);
    RoundBetween(q.x, 0, size.1 - 1);
  }

  /** The `k`-th pixel of a line lies `k + 1` unit steps from the anchor. */
  lemma LinePlotAt(p: Point, dir: (real, real), length: int, colour: real, k: int)
    requires 0 <= k < length
    ensures LinePlots(p, dir, length, colour)[k]
         == Plot(p.x + (k + 1) as real * dir.0, p.y - (k + 1) as real * dir.1, colour)
  {
    RepeatedMove(p, dir.0, -dir.1, k + 1);
  }

  /** Along a unit direction, the `k`-th pixel of a line lies at distance
      `k + 1` from the anchor. */
  lemma LinePlotDistance(p: Point, dir: (real, real), length: int, colour: real, k: int)
    requires 0 <= k < length && Norm2(dir) == 1.0
    ensures var q := LinePlots(p, dir, length, colour)[k];
      Norm2((q.x - p.x, q.y - p.y)) == ((k + 1) * (k + 1)) as real
  {
    LinePlotAt(p, dir, length, colour, k);
  }

  /** Every pixel of a line that fits lands in the buffer. */
  lemma LinePlotFits(g: Grid, g0: Grid, p: Point, dir: (real, real), length: int, colour: real, k: int, size: (int, int))
    requires SameShape(g0, g) && |g0| == size.0 && Rows(g0, size.1)
    requires BoxFits(p, if length < 0 then 0.0 else length as real, size)
    requires -1.0 <= dir.0 <= 1.0 && -1.0 <= dir.1 <= 1.0
    requires 0 <= k < length
    ensures InGrid(g, Round(LinePlots(p, dir, length, colour)[k].y), Round(LinePlots(p, dir, length, colour)[k].x))
  {
    var q := LinePlots(p, dir, length, colour)[k];
    var n := (k + 1) as real;
    LinePlotAt(p, dir, length, colour, k);
    ScaledWithinReach(n, dir.0, length as real);
    ScaledWithinReach(n, dir.1, length as real);
    InsideRounds(g0, Point(q.x, q.y), p, length as real, size);
  }

  /** Every pixel of a face that fits lands in the buffer. */
  lemma FacePlotFits(g: Grid, centre: Point, point: (real, real), size: (int, int))
    requires |g| == size.0 && Rows(g, size.1)
    requires BoxFits(centre, FaceRadius, size)
    requires -1.0 <= point.0 <= 1.0 && -1.0 <= point.1 <= 1.0
    ensures InGrid(g, Round(FacePlot(centre, point).y), Round(FacePlot(centre, point).x))
  {
    ScaledWithinReach(FaceRadius, point.0, FaceRadius);
    ScaledWithinReach(FaceRadius, point.1, FaceRadius);
    InsideRounds(g, Point(centre.x + FaceRadius * point.0, centre.y + FaceRadius * point.1), centre, FaceRadius, size);
  }

  /** The face loop of `ClockActor::render`: one full-brightness pixel at
      `centre + 22 * (cos, sin)` for every point of the circle, each reached
      by an absolute move. */
  method DrawFace(r: AsciiRenderer, mid: Point, trig: Trig)
    requires ValidTrig(trig) && Rows(r.buffer, r.GetSize().1) && BoxFits(mid, FaceRadius, r.GetSize())
    modifies r
    ensures r.buffer == Replay(old(r.buffer), FacePlots(mid, trig.circle))
  {
    ghost var size := r.GetSize();
    ghost var ps := FacePlots(mid, trig.circle);
    var i := 0;
    while i < |trig.circle|
      invariant 0 <= i <= |trig.circle|
      invariant r.buffer == Replay(old(r.buffer), ps[..i])
    {
      DrawFacePoint(r, mid, trig.circle[i]);
      ReplayPrefix(old(r.buffer), ps, i);
      i := i + 1;
    }
    assert ps[..i] == ps;
  }

  /** One pass of the face loop: an absolute move to the face point and a
      full-brightness pixel there. */
  method DrawFacePoint(r: AsciiRenderer, mid: Point, point: (real, real))
    requires Rows(r.buffer, r.GetSize().1) && BoxFits(mid, FaceRadius, r.GetSize())
    requires -1.0 <= point.0 <= 1.0 && -1.0 <= point.1 <= 1.0
    modifies r
    ensures r.buffer == Replay(old(r.buffer), [FacePlot(mid, point)])
  {
    r.Translate(mid.x + FaceRadius * point.0, mid.y + FaceRadius * point.1, true);
    FacePlotFits(r.buffer, mid, point, r.GetSize());
    r.DrawPixel(1.0);
  }

  /** A `LineActor` configured as a clock hand: angle, length and brightness
      set, anchored at `at`. */
  method NewHand(angle: real, length: int, colour: real, at: Point) returns (hand: Container)
    ensures fresh(hand) && hand.Valid() && hand.Repr == {hand} && hand.rank == 0
    ensures hand.kind == Line(angle, length, colour) && hand.x == at.x && hand.y == at.y && hand.children == []
  {
    hand := new Container.LineActor();
    hand.SetAngle(angle);
    hand.SetLength(length);
    hand.SetColour(colour);
    hand.x, hand.y := at.x, at.y;
  }

  /** A shorter hand from the same centre fits wherever the face does. */
  lemma HandFits(centre: Point, length: int, size: (int, int))
    requires BoxFits(centre, FaceRadius, size) && 0 <= length <= 22
    ensures BoxFits(centre, length as real, size)
  {
  }

  /** The snapshot of a childless hand with the given settings at `centre`. */
  function HandTree(angle: real, length: int, colour: real, centre: Point): Tree
  {
    Node(Line(angle, length, colour), centre.x, centre.y, [])
  }

  /** The snapshots of the three hands a clock appends, hour first. */
  function HandTrees(centre: Point, t: Time): (ts: seq<Tree>)
    requires 1 <= t.hour <= 12 && 0 <= t.minute < 60 && 0 <= t.second < 60
    ensures |ts| == 3
    ensures forall i :: 0 <= i < 3 ==>
      && ts[i].kind.Line? && ts[i].kids == [] && Point(ts[i].x, ts[i].y) == centre
      && 0 < ts[i].kind.length <= 22 && 0.0 < ts[i].kind.colour < 1.0
    ensures ts[0].kind.angle == HourAngle(t) && ts[1].kind.angle == MinuteAngle(t)
         && ts[2].kind.angle == SecondAngle(t)
    ensures ts[0].kind.length < ts[1].kind.length < ts[2].kind.length
    ensures ts[0].kind.colour > ts[1].kind.colour > ts[2].kind.colour
  {
    [HandTree(HourAngle(t), 10, 0.75, centre), HandTree(MinuteAngle(t), 15, 0.5, centre),
     HandTree(SecondAngle(t), 20, 0.25, centre)]
  }

  /** The children an actor of the given kind appends while drawing itself
      in a buffer of the given size. */
  function Appended(kind: Kind, size: (int, int)): seq<Tree>
  {
    if kind.Clock? then HandTrees(Centre(size), SplitTime(kind.time)) else []
  }

  class Container {
    var kind: Kind
    /** The actor's position; unused for the world. */
    var x: real
    var y: real
    var children: seq<Container>
    /** This node and every node below it. */
    ghost var Repr: set<Container>
    /** Exceeds the rank of every child; a clock's is at least 1, so the
        hands it appends (rank 0) fit under it. Bounds the traversal. */
    ghost var rank: nat

    /** The children form a tree: each owns its own disjoint part of `Repr`,
        none contains its parent, and none is the world. */
    ghost predicate Valid()
      reads this, Repr
      decreases rank
    {
      && this in Repr
      && (kind.Clock? ==> rank >= 1)
      && (forall i :: 0 <= i < |children| ==>
            && children[i] in Repr && children[i].Repr <= Repr && this !in children[i].Repr
            && children[i].rank < rank && !children[i].kind.World?)
      && (forall i, j :: 0 <= i < j < |children| ==> children[i].Repr !! children[j].Repr)
      && (forall i :: 0 <= i < |children| ==> children[i].Valid())
    }

    /** `new World`: an empty root container. */
    constructor World()
      ensures Valid() && Repr == {this} && rank == 0
      ensures kind == Kind.World && children == []
    {
      kind := Kind.World;
      x, y := 0.0, 0.0;
      children := [];
      Repr := {this};
      rank := 0;
    }

    /** `new ClockActor`: time 0, at the origin, no children. */
    constructor ClockActor()
      ensures Valid() && Repr == {this} && rank == 1
      ensures kind == Clock(0) && x == 0.0 && y == 0.0 && children == []
    {
      kind := Clock(0);
      x, y := 0.0, 0.0;
      children := [];
      Repr := {this};
      rank := 1;
    }

    /** `new LineActor`: angle 0, length 0, full brightness, at the origin. */
    constructor LineActor()
      ensures Valid() && Repr == {this} && rank == 0
      ensures kind == Line(0.0, 0, 1.0) && x == 0.0 && y == 0.0 && children == []
    {
      kind := Line(0.0, 0, 1.0);
      x, y := 0.0, 0.0;
      children := [];
      Repr := {this};
      rank := 0;
    }

    /** `addChild`: appends `child` after the existing children. */
    method AddChild(child: Container)
      requires Valid() && child.Valid() && !child.kind.World? && Repr !! child.Repr
      modifies this`children, this`Repr, this`rank
      ensures Valid()
      ensures children == old(children) + [child]
      ensures Repr == old(Repr) + child.Repr
      ensures rank == if child.rank < old(rank) then old(rank) else child.rank + 1
    {
      children := children + [child];
      Repr := Repr + child.Repr;
      if rank <= child.rank {
        rank := child.rank + 1;
      }
    }

    /** `ClockActor::setTime`. */
    method SetTime(timestamp: int)
      requires Valid() && kind.Clock?
      modifies this`kind
      ensures Valid() && kind == Clock(timestamp)
    {
      kind := Clock(timestamp);
    }

    /** `LineActor::setAngle`. */
    method SetAngle(angle: real)
      requires Valid() && kind.Line?
      modifies this`kind
      ensures Valid() && kind == old(kind).(angle := angle)
    {
      kind := kind.(angle := angle);
    }

    /** `LineActor::setLength`. */
    method SetLength(length: int)
      requires Valid() && kind.Line?
      modifies this`kind
      ensures Valid() && kind == old(kind).(length := length)
    {
      kind := kind.(length := length);
    }

    /** `LineActor::setColour`. */
    method SetColour(colour: real)
      requires Valid() && kind.Line?
      modifies this`kind
      ensures Valid() && kind == old(kind).(colour := colour)
    {
      kind := kind.(colour := colour);
    }

    /** `LineActor::render`: one absolute move to the anchor, then `length`
        times a relative unit step along `(sin, -cos)` of the angle followed
        by a pixel of the line's brightness. */
    method LineRender(r: AsciiRenderer, trig: Trig)
      requires kind.Line? && ValidTrig(trig)
      requires Rows(r.buffer, r.GetSize().1)
      requires BoxFits(Point(x, y), if kind.length < 0 then 0.0 else kind.length as real, r.GetSize())
      modifies r
      ensures SameShape(old(r.buffer), r.buffer)
      ensures r.buffer == Replay(old(r.buffer), LinePlots(Point(x, y), trig.sinCos(kind.angle), kind.length, kind.colour))
    {
      ghost var size := r.GetSize();
      ghost var ps := LinePlots(Point(x, y), trig.sinCos(kind.angle), kind.length, kind.colour);
      r.Translate(x, y, true);
      var dir := trig.sinCos(kind.angle);
      var i := 0;
      while i < kind.length
        invariant 0 <= i <= |ps|
        invariant r.Position() == Follow(Point(x, y), Steps(dir, i))
        invariant r.buffer == Replay(old(r.buffer), ps[..i])
      {
        r.Translate(dir.0, -dir.1, false);
        FollowSnoc(Point(x, y), Steps(dir, i), Move(dir.0, -dir.1, false));
        assert Steps(dir, i) + [Move(dir.0, -dir.1, false)] == Steps(dir, i + 1);
        LinePlotFits(r.buffer, old(r.buffer), Point(x, y), dir, kind.length, kind.colour, i, size);
        r.DrawPixel(kind.colour);
        ReplayPrefix(old(r.buffer), ps, i);
        i := i + 1;
      }
      assert ps[..i] == ps;
    }

    /** `ClockActor::render`: draws the face around the centre of the grid,
        then reads hour, minute and second from the timestamp and appends an
        hour, a minute and a second hand, in that order. */
    method ClockRender(r: AsciiRenderer, trig: Trig)
      requires Valid() && kind.Clock? && ValidTrig(trig)
      requires Rows(r.buffer, r.GetSize().1) && BoxFits(Centre(r.GetSize()), FaceRadius, r.GetSize())
      modifies this`children, this`Repr, this`rank, r
      ensures Valid() && rank == old(rank) && fresh(Repr - old(Repr))
      ensures SameShape(old(r.buffer), r.buffer)
      ensures |children| == |old(children)| + 3 && children[..|old(children)|] == old(children)
      ensures Shapes(children, rank) == old(Shapes(children, rank)) + HandTrees(Centre(r.GetSize()), SplitTime(kind.time))
      ensures r.buffer == Replay(old(r.buffer), FacePlots(Centre(r.GetSize()), trig.circle))
    {
      var size := r.GetSize();
      var mid := Centre(size);
      DrawFace(r, mid, trig);
      AddHands(SplitTime(kind.time), mid);
      assert r.GetSize() == size;
    }

    /** The end of `ClockActor::render`: the hour, minute and second hands,
        anchored at the centre, are appended in that order. (The source
        builds them in the opposite order before appending them; building
        one has no effect on the others.) */
    method AddHands(t: Time, mid: Point)
      requires Valid() && kind.Clock?
      requires 1 <= t.hour <= 12 && 0 <= t.minute < 60 && 0 <= t.second < 60
      modifies this`children, this`Repr, this`rank
      ensures Valid() && rank == old(rank) && fresh(Repr - old(Repr))
      ensures |children| == |old(children)| + 3 && children[..|old(children)|] == old(children)
      ensures Shapes(children, rank) == old(Shapes(children, rank)) + HandTrees(mid, t)
    {
      ghost var cs, before := children, Shapes(children, rank);
      ghost var h0 := HandTree(HourAngle(t), 10, 0.75, mid);
      ghost var h1 := HandTree(MinuteAngle(t), 15, 0.5, mid);
      ghost var h2 := HandTree(SecondAngle(t), 20, 0.25, mid);
      var hourHand := AddHand(HourAngle(t), 10, 0.75, mid);
      var minuteHand := AddHand(MinuteAngle(t), 15, 0.5, mid);
      assert fresh(Repr - old(Repr));
      var secondHand := AddHand(SecondAngle(t), 20, 0.25, mid);
      Grown(cs, hourHand, minuteHand, secondHand);
      Grown(before, h0, h1, h2);
    }

    /** A `LineActor` hand with the given settings, anchored at `mid`, built
        and appended as a child. */
    method AddHand(angle: real, length: int, colour: real, mid: Point) returns (hand: Container)
      requires Valid() && kind.Clock?
      modifies this`children, this`Repr, this`rank
      ensures Valid() && rank == old(rank) && fresh(hand) && Repr == old(Repr) + {hand}
      ensures children == old(children) + [hand]
      ensures Shapes(children, rank) == old(Shapes(children, rank)) + [HandTree(angle, length, colour, mid)]
    {
      ghost var cs := children;
      ghost var before := Shapes(cs, rank);
      hand := NewHand(angle, length, colour, mid);
      AddChild(hand);
      assert Shapes(cs, rank) == before;
      ShapesAppend(cs, [hand], rank);
      LoneShape(hand, rank);
    }

    /** The actor's own `render`, as PHP dispatches it on the actor's class. */
    method Render(r: AsciiRenderer, trig: Trig)
      requires Valid() && !kind.World? && ValidTrig(trig)
      requires Rows(r.buffer, r.GetSize().1) && OwnFits(kind, Point(x, y), r.GetSize())
      modifies this`children, this`Repr, this`rank, r
      ensures Valid() && rank == old(rank) && fresh(Repr - old(Repr))
      ensures SameShape(old(r.buffer), r.buffer)
      ensures Shapes(children, rank) == old(Shapes(children, rank)) + Appended(kind, r.GetSize())
      ensures |children| >= |old(children)| && children[..|old(children)|] == old(children)
      ensures kind.Line? ==> children == old(children) && Repr == old(Repr)
      ensures r.buffer == Replay(old(r.buffer), OwnDrawn(kind, Point(x, y), r.GetSize(), trig))
    {
      if kind.Clock? {
        ClockRender(r, trig);
      } else {
        LineRender(r, trig);
      }
    }
  }

  /** Three single appends make one append of three, which leaves the
      front alone. */
  lemma Grown<T>(a: seq<T>, x: T, y: T, z: T)
    ensures a + [x] + [y] + [z] == a + [x, y, z] && (a + [x, y, z])[..|a|] == a
  {
  }

  /** The snapshot list of a single childless actor. */
  lemma LoneShape(a: Container, bound: nat)
    requires a.Valid() && a.rank < bound && a.children == []
    ensures Shapes([a], bound) == [Node(a.kind, a.x, a.y, [])]
  {
    assert [a][1..] == [];
  }

  /** What an actor of the given kind, anchored at `p`, draws itself stays
      inside the buffer. */
  predicate OwnFits(kind: Kind, p: Point, size: (int, int))
  {
    match kind
    case World => true
    case Clock(_) => BoxFits(Centre(size), FaceRadius, size)
    case Line(_, length, _) => BoxFits(p, if length < 0 then 0.0 else length as real, size)
  }

  /** Every actor of a subtree draws inside the buffer. */
  predicate Fits(t: Tree, size: (int, int))
  {
    && OwnFits(t.kind, Point(t.x, t.y), size)
    && forall i :: 0 <= i < |t.kids| ==> Fits(t.kids[i], size)
  }

  /** Every line actor of a subtree has a brightness the palette can show. */
  predicate LinesBright(t: Tree)
  {
    && (t.kind.Line? ==> 0.0 <= t.kind.colour <= 1.0)
    && forall i :: 0 <= i < |t.kids| ==> LinesBright(t.kids[i])
  }

  /** Every subtree of a list draws inside the buffer. */
  predicate AllFit(ts: seq<Tree>, size: (int, int))
  {
    forall i :: 0 <= i < |ts| ==> Fits(ts[i], size)
  }

  /** The hands a clock whose face fits appends fit as well. */
  lemma AppendedFit(kind: Kind, size: (int, int))
    requires kind.Clock? ==> BoxFits(Centre(size), FaceRadius, size)
    ensures AllFit(Appended(kind, size), size)
  {
    if kind.Clock? {
      HandFits(Centre(size), 10, size);
      HandFits(Centre(size), 15, size);
      HandFits(Centre(size), 20, size);
    }
  }

  /** A snapshot of a subtree as a value: each actor's kind and anchor, and
      the snapshots of its children in insertion order. */
  datatype Tree = Node(kind: Kind, x: real, y: real, kids: seq<Tree>)

  /** The snapshot of the subtree below `a` in the current state. */
  ghost function Shape(a: Container): (t: Tree)
    requires a.Valid()
    reads a.Repr
    decreases a.rank + 1, 0
  {
    Node(a.kind, a.x, a.y, Shapes(a.children, a.rank))
  }

  /** The snapshots of several subtrees, one after the other. */
  ghost function Shapes(cs: seq<Container>, bound: nat): (ts: seq<Tree>)
    requires forall i :: 0 <= i < |cs| ==> cs[i].Valid() && cs[i].rank < bound
    reads cs, set i, o | 0 <= i < |cs| && o in cs[i].Repr :: o
    ensures |ts| == |cs|
    decreases bound, |cs|
  {
    if cs == [] then [] else [Shape(cs[0])] + Shapes(cs[1..], bound)
  }

  /** The `i`-th snapshot is the snapshot of the `i`-th subtree. */
  lemma {:induction false} ShapesAt(cs: seq<Container>, bound: nat)
    requires forall i :: 0 <= i < |cs| ==> cs[i].Valid() && cs[i].rank < bound
    ensures forall i :: 0 <= i < |cs| ==> Shapes(cs, bound)[i] == Shape(cs[i])
    decreases |cs|
  {
    if cs != [] {
      ShapesAt(cs[1..], bound);
      forall i | 0 < i < |cs|
        ensures Shapes(cs, bound)[i] == Shape(cs[i])
      {
        assert cs[1..][i - 1] == cs[i];
      }
    }
  }

  /** Snapshots of joined lists are the joined snapshots. */
  lemma {:induction false} ShapesAppend(xs: seq<Container>, ys: seq<Container>, bound: nat)
    requires forall i :: 0 <= i < |xs| ==> xs[i].Valid() && xs[i].rank < bound
    requires forall i :: 0 <= i < |ys| ==> ys[i].Valid() && ys[i].rank < bound
    ensures Shapes(xs + ys, bound) == Shapes(xs, bound) + Shapes(ys, bound)
    decreases |xs|
  {
    if xs == [] {
      assert xs + ys == ys;
    } else {
      assert (xs + ys)[1..] == xs[1..] + ys;
      ShapesAppend(xs[1..], ys, bound);
    }
  }

  /** The pixels `processActor` draws for a subtree, in drawing order: the
      actor's own, then those of each child in insertion order, and for a
      clock finally those of the hour, minute and second hands it appended
      while drawing itself. */
  function Drawn(t: Tree, size: (int, int), trig: Trig): (ps: seq<Plot>)
    ensures LinesBright(t) ==> BrightPlots(ps)
    decreases t, 1
  {
    match t.kind
    case World => DrawnAll(t.kids, size, trig)
    case Clock(time) =>
      FacePlots(Centre(size), trig.circle) + DrawnAll(t.kids, size, trig)
        + HandPlots(Centre(size), SplitTime(time), trig)
    case Line(angle, length, colour) =>
      LinePlots(Point(t.x, t.y), trig.sinCos(angle), length, colour) + DrawnAll(t.kids, size, trig)
  }

  /** The pixels of several subtrees, one after the other. */
  function DrawnAll(ts: seq<Tree>, size: (int, int), trig: Trig): (ps: seq<Plot>)
    ensures ts == [] ==> ps == []
    ensures (forall i :: 0 <= i < |ts| ==> LinesBright(ts[i])) ==> BrightPlots(ps)
    decreases ts, 0
  {
    if ts == [] then [] else DrawnAll(ts[..|ts| - 1], size, trig) + Drawn(ts[|ts| - 1], size, trig)
  }

  /** Processing two lists of subtrees one after the other draws what each draws. */
  lemma {:induction false} DrawnAllAppend(xs: seq<Tree>, ys: seq<Tree>, size: (int, int), trig: Trig)
    ensures DrawnAll(xs + ys, size, trig) == DrawnAll(xs, size, trig) + DrawnAll(ys, size, trig)
    decreases |ys|
  {
    if ys == [] {
      assert xs + ys == xs;
    } else {
      var n := |ys| - 1;
      assert (xs + ys)[..|xs + ys| - 1] == xs + ys[..n];
      DrawnAllAppend(xs, ys[..n], size, trig);
    }
  }

  /** The three hand snapshots draw exactly the hand pixels. */
  lemma HandTreesDrawn(centre: Point, t: Time, size: (int, int), trig: Trig)
    requires 1 <= t.hour <= 12 && 0 <= t.minute < 60 && 0 <= t.second < 60
    ensures DrawnAll(HandTrees(centre, t), size, trig) == HandPlots(centre, t, trig)
  {
    var ts := HandTrees(centre, t);
    forall i | 0 <= i < 3
      ensures Drawn(ts[i], size, trig)
           == LinePlots(centre, trig.sinCos(ts[i].kind.angle), ts[i].kind.length, ts[i].kind.colour)
    {
      assert ts[i].kids == [];
    }
    assert ts[..2][..1] == [ts[0]] && [ts[0]][..0] == [];
    assert DrawnAll([ts[0]], size, trig) == Drawn(ts[0], size, trig);
    assert DrawnAll(ts[..2], size, trig) == Drawn(ts[0], size, trig) + Drawn(ts[1], size, trig);
    assert ts[..3] == ts;
  }

  /** The pixels an actor of the given kind, anchored at `p`, draws itself. */
  function OwnDrawn(kind: Kind, p: Point, size: (int, int), trig: Trig): (ps: seq<Plot>)
    ensures forall k :: 0 <= k < |ps| ==> ps[k].a == if kind.Line? then kind.colour else 1.0
    ensures kind.World? ==> ps == []
    ensures kind.Clock? ==> |ps| == |trig.circle|
    ensures kind.Line? ==> |ps| == if kind.length < 0 then 0 else kind.length
  {
    match kind
    case World => []
    case Clock(_) => FacePlots(Centre(size), trig.circle)
    case Line(angle, length, colour) => LinePlots(p, trig.sinCos(angle), length, colour)
  }

  /** A subtree draws its own pixels first, then those of its children
      including the ones it appends while drawing itself. */
  lemma DrawnSplit(t: Tree, size: (int, int), trig: Trig)
    requires !t.kind.World?
    ensures Drawn(t, size, trig)
         == OwnDrawn(t.kind, Point(t.x, t.y), size, trig) + DrawnAll(t.kids + Appended(t.kind, size), size, trig)
  {
    DrawnAllAppend(t.kids, Appended(t.kind, size), size, trig);
    if t.kind.Clock? {
      HandTreesDrawn(Centre(size), SplitTime(t.kind.time), size, trig);
    } else {
      assert t.kids + [] == t.kids;
    }
  }

  /** The children of a subtree that fits, with those it appends, fit. */
  lemma KidsFit(t: Tree, size: (int, int))
    requires Fits(t, size)
    ensures AllFit(t.kids + Appended(t.kind, size), size)
  {
    AppendedFit(t.kind, size);
  }

  /** Replaying a subtree's own pixels and then those of its children and
      appended hands is replaying what the subtree draws. */
  lemma ReplaySplit(g: Grid, t: Tree, size: (int, int), trig: Trig)
    requires !t.kind.World?
    ensures Replay(Replay(g, OwnDrawn(t.kind, Point(t.x, t.y), size, trig)), DrawnAll(t.kids + Appended(t.kind, size), size, trig))
         == Replay(g, Drawn(t, size, trig))
  {
    DrawnSplit(t, size, trig);
    ReplayAppend(g, OwnDrawn(t.kind, Point(t.x, t.y), size, trig), DrawnAll(t.kids + Appended(t.kind, size), size, trig));
  }

  /** `processActor`: the actor draws itself, then the children it has after
      drawing (including any it appended meanwhile) are processed in order. */
  method ProcessActor(r: AsciiRenderer, a: Container, trig: Trig)
    requires a.Valid() && !a.kind.World? && ValidTrig(trig)
    requires Rows(r.buffer, r.GetSize().1) && Fits(Shape(a), r.GetSize())
    modifies r, a.Repr
    decreases a.rank, 2
    ensures SameShape(old(r.buffer), r.buffer)
    ensures r.buffer == Replay(old(r.buffer), Drawn(old(Shape(a)), r.GetSize(), trig))
  {
    ghost var size := r.GetSize();
    ghost var shape := Shape(a);
    a.Render(r, trig);
    KidsFit(shape, size);
    RenderContainer(r, a, trig);
    ReplaySplit(old(r.buffer), shape, size, trig);
  }

  /** `AsciiRenderer::render`: processes the container's children in order. */
  method RenderContainer(r: AsciiRenderer, c: Container, trig: Trig)
    requires c.Valid() && ValidTrig(trig) && Rows(r.buffer, r.GetSize().1)
    requires AllFit(Shapes(c.children, c.rank), r.GetSize())
    modifies r, c.Repr
    decreases c.rank, 1
    ensures SameShape(old(r.buffer), r.buffer)
    ensures r.buffer == Replay(old(r.buffer), DrawnAll(old(Shapes(c.children, c.rank)), r.GetSize(), trig))
  {
    ghost var size := r.GetSize();
    ghost var bound := c.rank;
    var cs := c.children;
    ghost var shapes := Shapes(cs, bound);
    ghost var parts := Reprs(cs);
    PendingStart(c);
    var j := 0;
    while j < |cs|
      invariant j <= |cs|
      invariant Pending(cs, j, shapes, parts, bound)
      invariant forall i :: 0 <= i < |parts| ==> parts[i] <= old(c.Repr)
      invariant Progress(r, old(r.buffer), shapes, j, size, trig)
    {
      ProcessNext(r, cs, j, shapes, parts, bound, old(r.buffer), size, trig);
      j := j + 1;
    }
    assert shapes[..j] == shapes;
  }

  /** The parts of several subtrees, one per subtree. */
  ghost function Reprs(cs: seq<Container>): (rs: seq<set<Container>>)
    reads cs
    ensures |rs| == |cs| && forall i :: 0 <= i < |cs| ==> rs[i] == cs[i].Repr
  {
    seq(|cs|, i requires 0 <= i < |cs| reads cs => cs[i].Repr)
  }

  /** A child not yet processed: a valid subtree of rank below `bound` whose
      parts and snapshot are still `repr` and `shape`. */
  ghost predicate Intact(c: Container, shape: Tree, repr: set<Container>, bound: nat)
    reads c, c.Repr
  {
    c.Valid() && !c.kind.World? && c.rank < bound && c.Repr == repr && Shape(c) == shape
  }

  /** The children from the `j`-th on, not yet processed: intact subtrees
      whose parts are pairwise disjoint. */
  ghost predicate Pending(cs: seq<Container>, j: nat, shapes: seq<Tree>, parts: seq<set<Container>>, bound: nat)
    reads cs, set i, o | j <= i < |cs| && o in cs[i].Repr :: o
  {
    && |cs| == |shapes| == |parts|
    && (forall i :: j <= i < |cs| ==> Intact(cs[i], shapes[i], parts[i], bound))
    && (forall i, k :: j <= i < k < |cs| ==> parts[i] !! parts[k])
  }

  /** The buffer, still of the given size, holds what the first `j`
      subtrees draw, replayed over `start`. */
  ghost predicate Progress(r: AsciiRenderer, start: Grid, shapes: seq<Tree>, j: nat, size: (int, int), trig: Trig)
    reads r
  {
    && j <= |shapes| && r.GetSize() == size && Rows(r.buffer, size.1)
    && r.buffer == Replay(start, DrawnAll(shapes[..j], size, trig))
  }

  /** Before the loop, every child of a valid container is pending. */
  lemma PendingStart(c: Container)
    requires c.Valid()
    ensures Pending(c.children, 0, Shapes(c.children, c.rank), Reprs(c.children), c.rank)
    ensures forall i :: 0 <= i < |c.children| ==> Reprs(c.children)[i] <= c.Repr
  {
    ShapesAt(c.children, c.rank);
  }

  /** One step of `render`'s loop: the `j`-th child is processed; the
      children after it are apart from it and stay as they were. */
  method ProcessNext(r: AsciiRenderer, cs: seq<Container>, j: nat, ghost shapes: seq<Tree>,
                     ghost parts: seq<set<Container>>, ghost bound: nat,
                     ghost start: Grid, ghost size: (int, int), trig: Trig)
    requires j < |cs| && Pending(cs, j, shapes, parts, bound)
    requires ValidTrig(trig) && AllFit(shapes, size) && Progress(r, start, shapes, j, size, trig)
    modifies r, parts[j]
    decreases bound, 0
    ensures Pending(cs, j + 1, shapes, parts, bound)
    ensures Progress(r, start, shapes, j + 1, size, trig)
  {
    ProcessActor(r, cs[j], trig);
    ReplayNext(start, shapes, j, size, trig);
  }

  /** Replaying the pixels of one more subtree extends the replay of the
      ones before it. */
  lemma ReplayNext(g: Grid, ts: seq<Tree>, j: nat, size: (int, int), trig: Trig)
    requires j < |ts|
    ensures Replay(Replay(g, DrawnAll(ts[..j], size, trig)), Drawn(ts[j], size, trig))
         == Replay(g, DrawnAll(ts[..j + 1], size, trig))
  {
    assert ts[..j + 1][..j] == ts[..j];
    ReplayAppend(g, DrawnAll(ts[..j], size, trig), Drawn(ts[j], size, trig));
  }
}
