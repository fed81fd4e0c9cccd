/** The frame buffer's dimensions and its index arithmetic (src/core/image.rs). */
module Screen {

  /** A dimension of the screen: never zero, so indices can be divided by it. */
  type Dimension = n: nat | 0 < n witness 1

  const WidthToHeightRatio: real := 16.0 / 9.0
  const ScreenHeight: Dimension := 120
  /**
   * `(SCREEN_HEIGHT as f32 * WIDTH_TO_HEIGHT_RATIO) as usize`, written as the value
   * the truncating cast yields; `ScreenDimensions` proves it is that cast.
   */
  const ScreenWidth: Dimension := 213
  const PixelCount: nat := ScreenWidth * ScreenHeight

  /** The width is the height times 16/9, truncated, so the buffer holds 213 * 120 pixels. */
  lemma ScreenDimensions()
    ensures ScreenWidth == ((ScreenHeight as real) * WidthToHeightRatio).Floor
    ensures ScreenWidth == 213 && ScreenHeight == 120
    ensures PixelCount == 25560
  {
    assert (ScreenHeight as real) * WidthToHeightRatio == 213.0 + 1.0 / 3.0;
  }

  /** The column `write` derives from a buffer index. */
  function Column(i: nat): (r: nat)
  {
    ScreenDimensions();
    i % ScreenWidth
  }

  /** The row `write` derives from a buffer index. */
  function Row(i: nat): (r: nat)
  {
    ScreenDimensions();
    i / ScreenWidth
  }

  /** Every buffer index is a cell of the screen: it splits into an in-range column and row that rebuild it. */
  lemma IndexSplitsIntoCell(i: nat)
    requires i < PixelCount
    ensures Column(i) < ScreenWidth && Row(i) < ScreenHeight
    ensures Row(i) * ScreenWidth + Column(i) == i
  {
    ScreenDimensions();
  }

  /** Every cell of the screen is exactly one buffer index: rebuilding then splitting gives the cell back. */
  lemma CellJoinsIntoIndex(column: nat, row: nat)
    requires column < ScreenWidth && row < ScreenHeight
    ensures row * ScreenWidth + column < PixelCount
    ensures Column(row * ScreenWidth + column) == column && Row(row * ScreenWidth + column) == row
  {
    ScreenDimensions();
    var i := row * ScreenWidth + column;
    assert i == row * 213 + column;
    assert i / 213 == row && i % 213 == column;
  }
}
