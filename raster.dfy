/**
 * The renderer's brightness buffer as a value: a list of rows of brightness
 * values, the single-cell write that `drawPixel` performs on it, and its
 * serialisation to text (each cell as a doubled glyph, rows joined by line
 * breaks).
 */
module Raster {

  import opened Palette

  /** Nested PHP arrays of brightness values; rows need not have equal length. */
  type Grid = seq<seq<real>>

  /** A row of `n` black cells. */
  function Zeros(n: nat): (row: seq<real>)
    ensures |row| == n && forall j :: 0 <= j < n ==> row[j] == 0.0
  {
    seq(n, _ => 0.0)
  }

  /** `(r, c)` addresses an existing cell of `g`. */
  predicate InGrid(g: Grid, r: int, c: int)
  {
    0 <= r < |g| && 0 <= c < |g[r]|
  }

  /** Every row of `g` has `h` cells. */
  predicate Rows(g: Grid, h: int)
  {
    forall i :: 0 <= i < |g| ==> |g[i]| == h
  }

  /** `g` and `g'` have the same number of rows, row for row of the same length. */
  predicate SameShape(g: Grid, g': Grid)
  {
    |g| == |g'| && forall i :: 0 <= i < |g| ==> |g[i]| == |g'[i]|
  }

  /** Every cell holds a brightness the palette can show. */
  predicate Bright(g: Grid)
  {
    forall i, j :: 0 <= i < |g| && 0 <= j < |g[i]| ==> 0.0 <= g[i][j] <= 1.0
  }

  /** One pixel write: cell `(r, c)` becomes `a`, every other cell is kept. */
  function Write(g: Grid, r: int, c: int, a: real): (g': Grid)
    requires InGrid(g, r, c)
    ensures SameShape(g, g')
    ensures forall i, j :: InGrid(g, i, j) ==> g'[i][j] == if i == r && j == c then a else g[i][j]
  {
    g[r := g[r][c := a]]
  }

  /** A later write to the same cell replaces the earlier one. */
  lemma LastWriteWins(g: Grid, r: int, c: int, a: real, b: real)
    requires InGrid(g, r, c)
    ensures Write(Write(g, r, c, a), r, c, b) == Write(g, r, c, b)
  {
    assert g[r][c := a][c := b] == g[r][c := b];
  }

  /** Writes to different cells do not interfere, whatever their order. */
  lemma DistinctWritesCommute(g: Grid, r: int, c: int, a: real, r': int, c': int, b: real)
    requires InGrid(g, r, c) && InGrid(g, r', c') && (r, c) != (r', c')
    ensures Write(Write(g, r, c, a), r', c', b) == Write(Write(g, r', c', b), r, c, a)
  {
    var x := Write(Write(g, r, c, a), r', c', b);
    var y := Write(Write(g, r', c', b), r, c, a);
    assert |x| == |y|;
    forall i | 0 <= i < |x| ensures x[i] == y[i] {
      assert |x[i]| == |y[i]|;
    }
  }

  /** A write keeps every cell in the palette's range when its value is. */
  lemma WriteKeepsBright(g: Grid, r: int, c: int, a: real)
    requires InGrid(g, r, c) && Bright(g) && 0.0 <= a <= 1.0
    ensures Bright(Write(g, r, c, a))
  {
  }

  /** One output line: the doubled glyph of every cell of a row, left to right. */
  function LineOf(row: seq<real>): (s: string)
    requires forall j :: 0 <= j < |row| ==> 0.0 <= row[j] <= 1.0
    ensures |s| == 2 * |row|
  {
    if row == [] then "" else LineOf(row[..|row| - 1]) + RedrawPixelToAscii(row[|row| - 1])
  }

  /** Characters `2j` and `2j + 1` of a line are both the glyph of cell `j`. */
  lemma {:induction false} LineOfAt(row: seq<real>, j: int)
    requires forall k :: 0 <= k < |row| ==> 0.0 <= row[k] <= 1.0
    requires 0 <= j < |row|
    ensures LineOf(row)[2 * j] == LineOf(row)[2 * j + 1] == Pixels[GlyphIndex(row[j])]
  {
    if j < |row| - 1 {
      LineOfAt(row[..|row| - 1], j);
    }
  }

  /** A line holds no line break. */
  lemma {:induction false} LineOfNoNewline(row: seq<real>)
    requires forall k :: 0 <= k < |row| ==> 0.0 <= row[k] <= 1.0
    ensures '\n' !in LineOf(row)
  {
    if row != [] {
      LineOfNoNewline(row[..|row| - 1]);
      NoNewlineGlyph(row[|row| - 1]);
    }
  }

  /** `implode("\n", $lines)`: the lines with one line break between
      neighbours and none at the end; no lines give the empty text. */
  function Implode(lines: seq<string>): (s: string)
    ensures |lines| == 0 ==> s == ""
    ensures |lines| >= 1 ==> |s| == TotalLength(lines) + |lines| - 1
    ensures |lines| >= 1 ==> s[..|lines[0]|] == lines[0]
    ensures |lines| >= 1 ==> |lines[|lines| - 1]| <= |s| && s[|s| - |lines[|lines| - 1]|..] == lines[|lines| - 1]
  {
    if |lines| == 0 then ""
    else if |lines| == 1 then lines[0]
    else
      var rest := Implode(lines[1..]);
      var s := lines[0] + "\n" + rest;
      assert lines[1..][|lines| - 2] == lines[|lines| - 1];
      assert s[|s| - |rest|..] == rest;
      s
  }

  /** The number of characters in all the lines together. */
  function TotalLength(lines: seq<string>): nat
  {
    if lines == [] then 0 else |lines[0]| + TotalLength(lines[1..])
  }

  /** The text split at every line break: the pieces between breaks. */
  function Explode(s: string): (lines: seq<string>)
    ensures |lines| >= 1
  {
    if s == [] then [""]
    else
      var rest := Explode(s[1..]);
      if s[0] == '\n' then [""] + rest else [[s[0]] + rest[0]] + rest[1..]
  }

  /** A text without line breaks splits into itself alone. */
  lemma {:induction false} ExplodeSingle(s: string)
    requires '\n' !in s
    ensures Explode(s) == [s]
  {
    if s != [] {
      ExplodeSingle(s[1..]);
      assert [s[0]] + s[1..] == s;
    }
  }

  /** Splitting `a + "\n" + b` yields `a` and then the pieces of `b`. */
  lemma {:induction false} ExplodeJoined(a: string, b: string)
    requires '\n' !in a
    ensures Explode(a + "\n" + b) == [a] + Explode(b)
  {
    if a == [] {
      assert a + "\n" + b == "\n" + b;
      assert ("\n" + b)[1..] == b;
    } else {
      assert (a + "\n" + b)[1..] == a[1..] + "\n" + b;
      ExplodeJoined(a[1..], b);
      assert [a[0]] + a[1..] == a;
    }
  }

  /** Splitting undoes joining, for at least one line and lines without breaks. */
  lemma {:induction false} ExplodeImplode(lines: seq<string>)
    requires |lines| >= 1
    requires forall i :: 0 <= i < |lines| ==> '\n' !in lines[i]
    ensures Explode(Implode(lines)) == lines
  {
    if |lines| == 1 {
      ExplodeSingle(lines[0]);
    } else {
      ExplodeJoined(lines[0], Implode(lines[1..]));
      ExplodeImplode(lines[1..]);
    }
  }

  /** The lines of the buffer, one per outer entry. */
  function LinesOf(g: Grid): (lines: seq<string>)
    requires Bright(g)
    ensures |lines| == |g|
    ensures forall i :: 0 <= i < |g| ==> |lines[i]| == 2 * |g[i]|
  {
    seq(|g|, i requires 0 <= i < |g| => LineOf(g[i]))
  }

  /** The text `getBuffer` returns for a buffer. */
  function Serialize(g: Grid): (s: string)
    requires Bright(g)
    ensures |g| == 0 ==> s == ""
    ensures |g| >= 1 ==> |s| == TotalLength(LinesOf(g)) + |g| - 1
    ensures |g| >= 1 ==> s[..2 * |g[0]|] == LineOf(g[0])
    ensures |g| >= 1 ==> 2 * |g[|g| - 1]| <= |s| && s[|s| - 2 * |g[|g| - 1]|..] == LineOf(g[|g| - 1])
  {
    Implode(LinesOf(g))
  }

  /** The text has one line per outer buffer entry, each twice as long as
      that entry, and nothing else: splitting it at line breaks gives back
      exactly the lines. An empty buffer gives the empty text. */
  lemma SerializeLines(g: Grid)
    requires Bright(g)
    ensures |g| == 0 ==> Serialize(g) == ""
    ensures |g| >= 1 ==> Explode(Serialize(g)) == LinesOf(g)
    ensures |g| >= 1 ==> |Explode(Serialize(g))| == |g|
    ensures forall i :: 0 <= i < |g| ==> |LinesOf(g)[i]| == 2 * |g[i]|
  {
    if |g| >= 1 {
      var lines := LinesOf(g);
      forall i | 0 <= i < |lines| ensures '\n' !in lines[i] {
        LineOfNoNewline(g[i]);
      }
      ExplodeImplode(lines);
    }
  }
}
