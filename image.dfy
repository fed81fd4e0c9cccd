/** The frame buffer: one colour per character cell, filled by tracing a ray per cell (src/core/image.rs). */
module Image {
  import opened Vectors
  import opened Screen
  import opened TerminalInput
  import opened Scene

  datatype Pixel = Pixel(color: Vec3) {
    /** The mean of the three channels. */
    function Intensity(): (r: real) {
      (color.x + color.y + color.z) / 3.0
    }
  }

  /**
   * The intensity is the mean of the channels: it lies between the least and the
   * greatest channel, is the channel value itself for a grey pixel, and so lies in
   * [0, 1] when every channel does.
   */
  lemma IntensityIsMean(p: Pixel)
    ensures var c := p.color;
            Min3(c.x, c.y, c.z) <= p.Intensity() <= Max3(c.x, c.y, c.z)
    ensures p.color == FromValue(p.color.x) ==> p.Intensity() == p.color.x
    ensures 0.0 <= p.color.x <= 1.0 && 0.0 <= p.color.y <= 1.0 && 0.0 <= p.color.z <= 1.0 ==>
      0.0 <= p.Intensity() <= 1.0
  {
  }

  function Min3(a: real, b: real, c: real): (r: real) {
    if a <= b && a <= c then a else if b <= c then b else c
  }

  function Max3(a: real, b: real, c: real): (r: real) {
    if a >= b && a >= c then a else if b >= c then b else c
  }

  /** The screen-space point `write` aims the camera ray of buffer index i at. */
  function ScreenPoint(i: nat): (r: Vec2)
    requires i < PixelCount
  {
    IndexSplitsIntoCell(i);
    ScreenDimensions();
    PixelToScreenSpace(Column(i), Row(i))
  }

  /** The colour `write` stores at buffer index i: the scene traced along the camera ray through that cell. */
  function TracedPixel(m: Maths, scene: Scene, i: nat): (r: Pixel)
    requires i < PixelCount
    reads scene, scene.camera, scene.camera.movement
  {
    Pixel(Shade(m, scene.spheres, scene.lights, scene.ambientLightColor, scene.camera.GetRay(m, ScreenPoint(i))))
  }

  class Image {
    const pixels: array<Pixel>

    /** The buffer is a fixed-size array of `PIXEL_COUNT` pixels. */
    ghost predicate Valid()
      reads this
    {
      pixels.Length == PixelCount
    }

    /** `Image::new`: pixel i is (values[i], 0, 0). */
    constructor (values: seq<real>)
      requires |values| == PixelCount
      ensures Valid() && fresh(pixels)
      ensures forall i :: 0 <= i < pixels.Length ==> pixels[i] == Pixel(Vec3(values[i], 0.0, 0.0))
    {
      pixels := new Pixel[|values|](i requires 0 <= i < |values| => Pixel(Vec3(values[i], 0.0, 0.0)));
    }

    /**
     * `write`: every slot is overwritten with the colour traced along the camera
     * ray through its own cell, so each slot depends on its own index alone.
     */
    method Write(m: Maths, scene: Scene)
      requires Valid()
      modifies pixels
      ensures forall i :: 0 <= i < pixels.Length ==> pixels[i] == TracedPixel(m, scene, i)
    {
      ScreenDimensions();
      for i := 0 to pixels.Length
        invariant forall j :: 0 <= j < i ==> pixels[j] == TracedPixel(m, scene, j)
      {
        IndexSplitsIntoCell(i);
        var col := i % ScreenWidth;
        var row := i / ScreenWidth;
        var pixelInScreenSpace := PixelToScreenSpace(col, row);
        var ray := scene.camera.GetRay(m, pixelInScreenSpace);
        var color := scene.Trace(m, ray);
        assert Pixel(color) == TracedPixel(m, scene, i);
        pixels[i] := Pixel(color);
      }
    }
  }
}
