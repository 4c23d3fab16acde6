/**
  The raster images the plotter draws on. An image is its size, its
  background colour and the ordered log of the draw commands issued on it;
  rasterising those commands is the imaging library's business and is not
  modelled.
*/
module Canvas {
  /** A pixel position (x, y); y grows downwards. */
  type Pixel = (real, real)

  datatype Color = Rgb(red: int, green: int, blue: int)

  const BLACK: Color := Rgb(0, 0, 0)
  const BLUE: Color := Rgb(0, 0, 255)
  const WHITE: Color := Rgb(255, 255, 255)

  datatype DrawCmd =
    | Polygon(points: seq<Pixel>, outline: Color)
    | Ellipse(corner: Pixel, opposite: Pixel, fill: Color)
    | Line(start: Pixel, stop: Pixel, fill: Color, lineWidth: int)

  datatype Image = Image(width: int, height: int, background: Color, commands: seq<DrawCmd>) {
    /** Issue one more draw command. */
    function Draw(c: DrawCmd): Image {
      this.(commands := commands + [c])
    }

    /** Issue a sequence of draw commands, in order. */
    function DrawAll(cs: seq<DrawCmd>): Image {
      this.(commands := commands + cs)
    }
  }

  /** `Image.new("RGB", (width, height), (255, 255, 255))` */
  function Blank(width: int, height: int): Image {
    Image(width, height, WHITE, [])
  }
}
