/**
 * The terminal renderer (src/render/terminal_renderer.rs, with the glyph table of
 * src/render/mod.rs): the render mode it switches between and the character
 * cells a frame becomes.
 */
module Render {
  import opened Input
  import opened Screen
  import opened Image

  const PixelTypeCount: nat := 21

  /** The black-and-white glyphs, from darkest to brightest, two characters each. */
  const PixelTypes: seq<string> := [
    "  ",
    " .", "..",
    ".,", ",,",
    ",:", "::",
    ":;", ";;",
    ";~", "~~",
    "~=", "==",
    "=+", "++",
    "+*", "**",
    "*#", "##",
    "#@", "@@"
  ]

  /**
   * The glyph for an intensity: `(intensity * 21).floor() as usize`, where the cast
   * saturates negative values to 0, then clamped to the last glyph.
   */
  function GlyphIndex(intensity: real): (r: nat)
    ensures r < PixelTypeCount && r < |PixelTypes|
  {
    var scaled := (intensity * PixelTypeCount as real).Floor;
    var index := if scaled < 0 then 0 else scaled;
    if index >= PixelTypeCount then PixelTypeCount - 1 else index
  }

  /**
   * The table splits [0, 1] into 21 equal bands: intensity in [k/21, (k+1)/21)
   * picks glyph k, anything below 1/21 (negative values too) picks the first, and
   * anything from 20/21 up picks the last; a brighter pixel never gets a darker glyph.
   */
  lemma GlyphBands(intensity: real, k: nat, brighter: real)
    ensures k < PixelTypeCount - 1 && k as real / 21.0 <= intensity < (k + 1) as real / 21.0 ==> GlyphIndex(intensity) == k
    ensures intensity < 1.0 / 21.0 ==> GlyphIndex(intensity) == 0
    ensures 20.0 / 21.0 <= intensity ==> GlyphIndex(intensity) == PixelTypeCount - 1
    ensures intensity <= brighter ==> GlyphIndex(intensity) <= GlyphIndex(brighter)
  {
    var s := intensity * 21.0;
    if k < PixelTypeCount - 1 && k as real / 21.0 <= intensity < (k + 1) as real / 21.0 {
      assert k as real <= s < (k + 1) as real;
    }
    if intensity <= brighter {
      assert s <= brighter * 21.0;
    }
  }

  datatype RenderType = Colored | BlackAndWhite

  function Flipped(t: RenderType): (r: RenderType) {
    match t
    case Colored => BlackAndWhite
    case BlackAndWhite => Colored
  }

  /**
   * One piece of terminal output: a line break, a two-character glyph, or a
   * two-space swatch whose background is the pixel's colour.
   */
  datatype Cell = Newline | Glyph(text: string) | Swatch(pixel: Pixel)

  /** The cell a pixel is drawn as in each render mode. */
  function PixelCell(t: RenderType, p: Pixel): (r: Cell) {
    match t
    case Colored => Swatch(p)
    case BlackAndWhite => Glyph(PixelTypes[GlyphIndex(p.Intensity())])
  }

  /** The cells for the first n pixels: each pixel's cell, preceded by a line break when its index starts a row. */
  function FrameCells(t: RenderType, pixels: seq<Pixel>, n: nat): (r: seq<Cell>)
    requires n <= |pixels|
  {
    if n == 0 then []
    else
      var k := n - 1;
      FrameCells(t, pixels, k) + (if k % ScreenWidth == 0 then [Newline] else []) + [PixelCell(t, pixels[k])]
  }

  lemma FrameCellsStep(t: RenderType, pixels: seq<Pixel>, k: nat)
    requires k < |pixels|
    ensures FrameCells(t, pixels, k + 1)
         == FrameCells(t, pixels, k) + (if k % ScreenWidth == 0 then [Newline] else []) + [PixelCell(t, pixels[k])]
  {
  }

  /** Dividing by the width, one step past k: one more row starts exactly when k is a multiple of the width. */
  lemma RowStep(k: nat)
    ensures (k + ScreenWidth) / ScreenWidth == k / ScreenWidth + 1
    ensures (k + ScreenWidth - 1) / ScreenWidth + (if k % ScreenWidth == 0 then 1 else 0) == (k + ScreenWidth) / ScreenWidth
    ensures k % ScreenWidth == 0 ==> (k + ScreenWidth - 1) / ScreenWidth == k / ScreenWidth
    ensures k % ScreenWidth != 0 ==> (k + ScreenWidth - 1) / ScreenWidth == k / ScreenWidth + 1
  {
    ScreenDimensions();
    var q, r := k / 213, k % 213;
    assert k == 213 * q + r;
    assert k + 213 == 213 * (q + 1) + r;
    if r == 0 {
      assert k + 212 == 213 * q + 212;
    } else {
      assert k + 212 == 213 * (q + 1) + (r - 1);
    }
  }

  /** Within a row, stepping back one index stays in the same row. */
  lemma SameRow(i: nat)
    requires i % ScreenWidth != 0
    ensures 0 < i && (i - 1) / ScreenWidth == i / ScreenWidth
  {
    ScreenDimensions();
    var q, r := i / 213, i % 213;
    assert i - 1 == 213 * q + (r - 1);
  }

  /** The first n pixels give n cells and ceil(n / width) line breaks. */
  lemma {:induction false} FrameLength(t: RenderType, pixels: seq<Pixel>, n: nat)
    requires n <= |pixels|
    ensures |FrameCells(t, pixels, n)| == n + (n + ScreenWidth - 1) / ScreenWidth
    decreases n
  {
    ScreenDimensions();
    if n > 0 {
      FrameLength(t, pixels, n - 1);
      RowStep(n - 1);
    }
  }

  /** Pixel n-1 adds its own cell, plus one line break when it starts a row. */
  lemma LineBreakStep(t: RenderType, pixels: seq<Pixel>, n: nat)
    requires 0 < n <= |pixels|
    ensures var bump := if (n - 1) % ScreenWidth == 0 then 1 else 0;
            multiset(FrameCells(t, pixels, n))[Newline] == multiset(FrameCells(t, pixels, n - 1))[Newline] + bump &&
            |FrameCells(t, pixels, n)| == |FrameCells(t, pixels, n - 1)| + bump + 1
  {
    var k := n - 1;
    var breaks: seq<Cell> := if k % ScreenWidth == 0 then [Newline] else [];
    assert FrameCells(t, pixels, n) == FrameCells(t, pixels, k) + breaks + [PixelCell(t, pixels[k])];
    assert PixelCell(t, pixels[k]) != Newline;
  }

  /** Each pixel adds exactly one cell that is not a line break. */
  lemma OneNonBreakPerPixel(t: RenderType, pixels: seq<Pixel>, k: nat, n: nat)
    requires n == k + 1 && n <= |pixels|
    ensures |FrameCells(t, pixels, n)| - multiset(FrameCells(t, pixels, n))[Newline]
         == |FrameCells(t, pixels, k)| - multiset(FrameCells(t, pixels, k))[Newline] + 1
  {
    LineBreakStep(t, pixels, n);
  }

  /** Every cell of a frame that is not a line break is one pixel's cell: there are n of them. */
  lemma {:induction false} NonBreaksArePixels(t: RenderType, pixels: seq<Pixel>, n: nat)
    requires n <= |pixels|
    ensures multiset(FrameCells(t, pixels, n))[Newline] + n == |FrameCells(t, pixels, n)|
    decreases n
  {
    if n > 0 {
      var k := n - 1;
      NonBreaksArePixels(t, pixels, k);
      OneNonBreakPerPixel(t, pixels, k, n);
    }
  }

  /** Of the cells for the first n pixels, exactly ceil(n / width) are line breaks. */
  lemma FrameLineBreaks(t: RenderType, pixels: seq<Pixel>, n: nat)
    requires n <= |pixels|
    ensures multiset(FrameCells(t, pixels, n))[Newline] == (n + ScreenWidth - 1) / ScreenWidth
  {
    FrameLength(t, pixels, n);
    NonBreaksArePixels(t, pixels, n);
  }

  /** Adding pixel k's cells keeps every earlier cell where it was. */
  lemma PrefixCellsKept(t: RenderType, pixels: seq<Pixel>, k: nat, j: nat)
    requires k < |pixels| && j < |FrameCells(t, pixels, k)|
    ensures j < |FrameCells(t, pixels, k + 1)|
    ensures FrameCells(t, pixels, k + 1)[j] == FrameCells(t, pixels, k)[j]
  {
    FrameCellsStep(t, pixels, k);
  }

  /** Pixel k's own cells: a line break first when k starts a row, then its cell at k + k/width + 1. */
  lemma LastCellPosition(t: RenderType, pixels: seq<Pixel>, k: nat)
    requires k < |pixels|
    ensures k + k / ScreenWidth + 1 < |FrameCells(t, pixels, k + 1)|
    ensures FrameCells(t, pixels, k + 1)[k + k / ScreenWidth + 1] == PixelCell(t, pixels[k])
    ensures k % ScreenWidth == 0 ==> FrameCells(t, pixels, k + 1)[k + k / ScreenWidth] == Newline
  {
    FrameCellsStep(t, pixels, k);
    FrameLength(t, pixels, k);
    RowStep(k);
  }

  /**
   * Pixel i's cell sits at position i + i/width + 1 of the frame, and the position
   * just before it holds a line break when i starts a row (`CellBeforePixel` gives
   * it when i does not).
   */
  lemma {:induction false} PixelCellPosition(t: RenderType, pixels: seq<Pixel>, n: nat, i: nat)
    requires i < n <= |pixels|
    ensures i + i / ScreenWidth + 1 < |FrameCells(t, pixels, n)|
    ensures FrameCells(t, pixels, n)[i + i / ScreenWidth + 1] == PixelCell(t, pixels[i])
    ensures i % ScreenWidth == 0 ==> FrameCells(t, pixels, n)[i + i / ScreenWidth] == Newline
    decreases n
  {
    ScreenDimensions();
    var k := n - 1;
    if i < k {
      var p: nat := i + i / ScreenWidth;
      PixelCellPosition(t, pixels, k, i);
      PrefixCellsKept(t, pixels, k, p);
      PrefixCellsKept(t, pixels, k, p + 1);
    } else {
      LastCellPosition(t, pixels, k);
    }
  }

  /** Inside a row no line break separates two pixels: the cell before pixel i's is pixel i-1's. */
  lemma CellBeforePixel(t: RenderType, pixels: seq<Pixel>, n: nat, i: nat)
    requires i < n <= |pixels| && i % ScreenWidth != 0
    ensures 0 < i && i + i / ScreenWidth < |FrameCells(t, pixels, n)|
    ensures FrameCells(t, pixels, n)[i + i / ScreenWidth] == PixelCell(t, pixels[i - 1])
  {
    SameRow(i);
    PixelCellPosition(t, pixels, n, i - 1);
    PixelCellPosition(t, pixels, n, i);
  }

  /** A whole frame has one line break per row: `PIXEL_COUNT` pixel cells and `SCREEN_HEIGHT` line breaks. */
  lemma WholeFrameLayout(t: RenderType, pixels: seq<Pixel>)
    requires |pixels| == PixelCount
    ensures |FrameCells(t, pixels, PixelCount)| == PixelCount + ScreenHeight
    ensures multiset(FrameCells(t, pixels, PixelCount))[Newline] == ScreenHeight
  {
    ScreenDimensions();
    FrameLength(t, pixels, PixelCount);
    FrameLineBreaks(t, pixels, PixelCount);
  }

  class TerminalRenderer {
    var charsBuffer: seq<Cell>
    var renderType: RenderType
    /** Everything written to standard output so far. */
    var written: seq<Cell>

    constructor (renderType: RenderType)
      ensures this.renderType == renderType && charsBuffer == [] && written == []
    {
      this.renderType := renderType;
      charsBuffer, written := [], [];
    }

    /** `tick`: the mode flips once if any action is `ChangeRenderType`, however many there are. */
    method Tick(actions: seq<InputAction>)
      modifies this
      ensures renderType == if ChangeRenderType in actions then Flipped(old(renderType)) else old(renderType)
      ensures charsBuffer == old(charsBuffer) && written == old(written)
    {
      if ChangeRenderType in actions {
        renderType := Flipped(renderType);
      }
    }

    /**
     * `render`: the frame's cells are appended to the buffer, the buffer is written
     * out, and the buffer is left empty.
     */
    method Render(image: Image)
      modifies this
      ensures written == old(written) + old(charsBuffer) + FrameCells(renderType, image.pixels[..], image.pixels.Length)
      ensures charsBuffer == [] && renderType == old(renderType)
    {
      ghost var start := charsBuffer;
      ghost var pixels := image.pixels[..];
      for index := 0 to image.pixels.Length
        invariant charsBuffer == start + FrameCells(renderType, pixels, index)
        invariant renderType == old(renderType) && written == old(written)
      {
        var pixel := image.pixels[index];
        assert pixel == pixels[index];
        if index % ScreenWidth == 0 {
          charsBuffer := charsBuffer + [Newline];
        }
        var c := match renderType
          case Colored => Swatch(pixel)
          case BlackAndWhite =>
            var glyph := GlyphIndex(pixel.Intensity());
            Glyph(PixelTypes[glyph]);
        assert c == PixelCell(renderType, pixels[index]);
        charsBuffer := charsBuffer + [c];
        FrameCellsStep(renderType, pixels, index);
      }
      written := written + charsBuffer;
      charsBuffer := [];
    }
  }

  /** Two flips restore the mode, so a mode seen at two ticks differs exactly when one of them flipped. */
  lemma FlipTwiceRestores(t: RenderType)
    ensures Flipped(Flipped(t)) == t && Flipped(t) != t
  {
  }
}
