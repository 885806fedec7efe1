/**
 * `AsciiRenderer`: owns the brightness buffer and the drawing cursor, and
 * offers actors the two drawing primitives (`translate` and `drawPixel`),
 * the size query and the serialisation of the buffer to text.
 *
 * The buffer keeps the source's own indexing: `setSize(w, h)` builds `w`
 * outer entries of `h` cells each, `drawPixel` writes entry `round(y)`, cell
 * `round(x)`, and `getBuffer` prints one line per outer entry.
 */
module Renderer {

  import opened PhpMath
  import opened Cursor
  import opened Palette
  import opened Raster

  /** One `drawPixel` call: where the cursor stood (before rounding) and the
      brightness written. */
  datatype Plot = Plot(x: real, y: real, a: real)

  /** Every pixel of the series has a brightness the palette can show. */
  predicate BrightPlots(ps: seq<Plot>)
  {
    forall k :: 0 <= k < |ps| ==> 0.0 <= ps[k].a <= 1.0
  }

  /** The buffer after a series of pixel writes, each to the cell its cursor
      position rounds to; a write outside the buffer (which callers never
      issue) leaves it alone. */
  ghost function Replay(g: Grid, ps: seq<Plot>): (g': Grid)
    ensures SameShape(g, g')
    decreases |ps|
  {
    if ps == [] then g
    else
      var before := Replay(g, ps[..|ps| - 1]);
      var p := ps[|ps| - 1];
      if InGrid(before, Round(p.y), Round(p.x)) then Write(before, Round(p.y), Round(p.x), p.a) else before
  }

  /** The value a cell ends with: that of the last write to it, or its
      initial value when nothing was written there. */
  ghost function LastWrite(initial: real, ps: seq<Plot>, r: int, c: int): real
    decreases |ps|
  {
    if ps == [] then initial
    else
      var p := ps[|ps| - 1];
      if Round(p.y) == r && Round(p.x) == c then p.a else LastWrite(initial, ps[..|ps| - 1], r, c)
  }

  /** Last write wins, cell by cell. */
  lemma {:induction false} ReplayCell(g: Grid, ps: seq<Plot>, r: int, c: int)
    requires InGrid(g, r, c)
    ensures Replay(g, ps)[r][c] == LastWrite(g[r][c], ps, r, c)
    decreases |ps|
  {
    if ps != [] {
      ReplayCell(g, ps[..|ps| - 1], r, c);
    }
  }

  /** Replaying two series one after the other is replaying them joined. */
  lemma {:induction false} ReplayAppend(g: Grid, ps: seq<Plot>, qs: seq<Plot>)
    ensures Replay(Replay(g, ps), qs) == Replay(g, ps + qs)
    decreases |qs|
  {
    if qs == [] {
      assert ps + qs == ps;
    } else {
      ReplayAppend(g, ps, qs[..|qs| - 1]);
      assert (ps + qs)[..|ps + qs| - 1] == ps + qs[..|qs| - 1];
    }
  }

  /** Replaying one more plot of a series extends the replay of the shorter
      prefix by that single plot. */
  lemma ReplayPrefix(g: Grid, ps: seq<Plot>, i: int)
    requires 0 <= i < |ps|
    ensures ps[..i + 1] == ps[..i] + [ps[i]]
    ensures Replay(g, ps[..i + 1]) == Replay(Replay(g, ps[..i]), [ps[i]])
  {
    assert ps[..i + 1] == ps[..i] + [ps[i]];
    ReplayAppend(g, ps[..i], [ps[i]]);
  }

  /** Writes of brightness values keep the buffer printable. */
  lemma {:induction false} ReplayKeepsBright(g: Grid, ps: seq<Plot>)
    requires Bright(g)
    requires forall k :: 0 <= k < |ps| ==> 0.0 <= ps[k].a <= 1.0
    ensures Bright(Replay(g, ps))
    decreases |ps|
  {
    if ps != [] {
      ReplayKeepsBright(g, ps[..|ps| - 1]);
      var before := Replay(g, ps[..|ps| - 1]);
      var p := ps[|ps| - 1];
      if InGrid(before, Round(p.y), Round(p.x)) {
        WriteKeepsBright(before, Round(p.y), Round(p.x), p.a);
      }
    }
  }

  class AsciiRenderer {
    /** Outer entries are the lines of the output. */
    var buffer: Grid
    var xPos: real
    var yPos: real

    /** A new renderer: no buffer yet, cursor at the origin (PHP reads the
        unset position fields as zero on the first move). */
    constructor ()
      ensures buffer == [] && xPos == 0.0 && yPos == 0.0
    {
      buffer := [];
      xPos, yPos := 0.0, 0.0;
    }

    function Position(): Point
      reads this
    {
      Point(xPos, yPos)
    }

    /** The cursor, once rounded, addresses a cell of the buffer. */
    predicate CursorInBounds()
      reads this
    {
      InGrid(buffer, Round(yPos), Round(xPos))
    }

    /** `setSize`: entries `0 .. width - 1` become rows of `height` zeros;
        entries beyond `width` from an earlier call are kept. */
    method SetSize(width: int, height: int)
      modifies this`buffer
      ensures |buffer| == if width > |old(buffer)| then width else |old(buffer)|
      ensures forall i :: 0 <= i < width ==> buffer[i] == Zeros(if height < 0 then 0 else height)
      ensures forall i :: 0 <= i < |old(buffer)| && i >= width ==> buffer[i] == old(buffer)[i]
      ensures width > 0 && |old(buffer)| <= width ==> GetSize() == (width, if height < 0 then 0 else height)
    {
      var x := 0;
      while x < width
        invariant 0 <= x <= if width < 0 then 0 else width
        invariant |buffer| == if x > |old(buffer)| then x else |old(buffer)|
        invariant forall i :: 0 <= i < x ==> buffer[i] == Zeros(if height < 0 then 0 else height)
        invariant forall i :: x <= i < |old(buffer)| ==> buffer[i] == old(buffer)[i]
      {
        var row: seq<real> := [];
        var y := 0;
        while y < height
          invariant 0 <= y <= if height < 0 then 0 else height
          invariant row == Zeros(y)
        {
          row := row + [0.0];
          y := y + 1;
        }
        buffer := if x < |buffer| then buffer[x := row] else buffer + [row];
        x := x + 1;
      }
    }

    /** `getSize`: the number of outer entries and the length of the first
        one (zero when there is none, as PHP counts a missing entry). */
    function GetSize(): (size: (int, int))
      reads this
      ensures size.0 == |buffer| >= 0 && size.1 >= 0
      ensures |buffer| > 0 ==> size.1 == |buffer[0]|
      ensures |buffer| == 0 ==> size.1 == 0
    {
      (|buffer|, if |buffer| == 0 then 0 else |buffer[0]|)
    }

    /** `translate`: an absolute move puts the cursor at the offset, a
        relative one adds the offset to it. */
    method Translate(x: real, y: real, absolute: bool)
      modifies this`xPos, this`yPos
      ensures Position() == Step(old(Position()), Move(x, y, absolute))
    {
      if absolute {
        xPos := 0.0;
        yPos := 0.0;
      }
      xPos := xPos + x;
      yPos := yPos + y;
    }

    /** `drawPixel`: the cell under the rounded cursor becomes `a`; the
        entry index comes from `y`, the cell index from `x`. */
    method DrawPixel(a: real)
      requires CursorInBounds()
      modifies this`buffer
      ensures buffer == Write(old(buffer), Round(yPos), Round(xPos), a)
      ensures buffer == Replay(old(buffer), [Plot(xPos, yPos, a)])
    {
      var x := Round(xPos);
      var y := Round(yPos);
      buffer := buffer[y := buffer[y][x := a]];
    }

    /** `getBuffer`: every cell as its doubled glyph, the cells of an entry
        concatenated into a line, the lines joined by line breaks. */
    method GetBuffer() returns (output: string)
      requires Bright(buffer)
      ensures output == Serialize(buffer)
    {
      var lines: seq<string> := [];
      for i := 0 to |buffer|
        invariant lines == LinesOf(buffer)[..i]
      {
        var row := buffer[i];
        var line := "";
        for j := 0 to |row|
          invariant line == LineOf(row[..j])
        {
          assert row[..j + 1][..j] == row[..j];
          line := line + RedrawPixelToAscii(row[j]);
        }
        assert row[..|row|] == row;
        lines := lines + [line];
      }
      assert lines == LinesOf(buffer);
      output := Implode(lines);
    }
  }
}
