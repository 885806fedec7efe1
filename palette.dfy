/**
 * Brightness-to-glyph mapping of the ASCII renderer: a brightness in [0, 1]
 * picks one character of a fixed 94-character palette (darkest first) by
 * rounding `93 * brightness` up, and the character is emitted twice to make
 * up for terminal cells being twice as tall as they are wide.
 */
module Palette {

  import opened PhpMath

  /** The palette, from darkest (a space) to brightest (`Q`), written in
      pieces so that the verifier can look up single characters. */
  const Pixels: string :=
    " .`-_':,;^=+/\"|)" +
    "\\<>)iv%xclrs{*}I" +
    "?!][1taeo7zjLunT" +
    "#JCwfy325Fp6mqSg" +
    "hVd4EgXPGZbYkOA&" +
    "8U$@KHDBWNMR0Q"

  /** The highest palette index, `strlen($pixels) - 1` in the source. */
  const MaxIndex: int := |Pixels| - 1

  /** The palette index of a brightness: `ceil(93 * p)`. */
  function GlyphIndex(p: real): (i: int)
    requires 0.0 <= p <= 1.0
    ensures 0 <= i <= MaxIndex
    ensures 93.0 * p <= i as real < 93.0 * p + 1.0
  {
    Ceil(MaxIndex as real * p)
  }

  /** `redrawPixelToAscii`: the glyph of a brightness, written twice. */
  function RedrawPixelToAscii(p: real): (s: string)
    requires 0.0 <= p <= 1.0
    ensures |s| == 2 && s[0] == s[1] == Pixels[GlyphIndex(p)]
  {
    [Pixels[GlyphIndex(p)]] + [Pixels[GlyphIndex(p)]]
  }

  /** A brighter pixel never gets a lower palette index. */
  lemma GlyphIndexMonotone(p: real, q: real)
    requires 0.0 <= p <= q <= 1.0
    ensures GlyphIndex(p) <= GlyphIndex(q)
  {
  }

  /** Black is two spaces and full brightness is the last glyph twice. */
  lemma GlyphExtremes()
    ensures RedrawPixelToAscii(0.0) == "  "
    ensures RedrawPixelToAscii(1.0) == "QQ"
  {
    assert GlyphIndex(0.0) == 0;
    assert GlyphIndex(1.0) == 93;
  }

  /** No glyph is a line break, so serialised rows can be split again. */
  lemma NoNewlineGlyph(p: real)
    requires 0.0 <= p <= 1.0
    ensures '\n' !in RedrawPixelToAscii(p)
  {
    assert '\n' !in Pixels;
  }
}
