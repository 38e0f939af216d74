/**
 * Pixel-mode normalisation before JPEG encoding, shared by the command-line converter and the web
 * handler. The image codec (decoding, mode conversion, pasting, encoding) is not modelled: its
 * decoder and encoder are injected as a `Codec`, and the mode conversions and pastes the converter
 * asks for are recorded in a symbolic `Raster` so that what was asked of the codec can be stated.
 */
module Pixels {
  import opened Common

  datatype Colour = Colour(red: nat, green: nat, blue: nat)

  /** The suffix of every file the converter produces. */
  const JpgSuffix := ".jpg"

  /** The background that transparent pixels are flattened onto. */
  const White := Colour(255, 255, 255)

  /** The pixels of an image, as the sequence of codec calls that produced them. */
  datatype Raster =
    | Decoded(id: nat)                                         // what the decoder produced
    | Filled(colour: Colour)                                   // `Image.new(mode, size, colour)`
    | Converted(source: Raster, fromMode: string, toMode: string)  // `image.convert(toMode)`
    | Pasted(base: Raster, over: Raster, mask: Option<string>)     // `base.paste(over, mask=band)`

  /** A decoded image: its pixel mode as the codec names it ("RGB", "RGBA", "LA", "P", "L", ...), size and pixels. */
  datatype Image = Image(mode: string, width: nat, height: nat, raster: Raster)

  /**
   * The image codec as the converter sees it: a decoder from the bytes of an HEIC file, and a JPEG
   * encoder taking an image and a quality. Either may fail with a message.
   */
  datatype Codec = Codec(open: Bytes -> Result<Image, string>, encode: (Image, int) -> Result<Bytes, string>)

  /** Modes flattened onto a white canvas. */
  const TransparentModes: set<string> := {"RGBA", "LA", "P"}

  /** Modes whose last band is an alpha channel. */
  const AlphaModes: set<string> := {"RGBA", "LA"}

  /** `image.getbands()` for the modes whose bands the converter splits. */
  function Bands(mode: string): (bands: seq<string>)
    requires mode in AlphaModes
    ensures |bands| > 0
  {
    if mode == "RGBA" then ["R", "G", "B", "A"] else ["L", "A"]
  }

  function NewImage(mode: string, width: nat, height: nat, colour: Colour): Image {
    Image(mode, width, height, Filled(colour))
  }

  function Convert(image: Image, mode: string): Image {
    Image(mode, image.width, image.height, Converted(image.raster, image.mode, mode))
  }

  /** `canvas.paste(image, mask=...)`: the canvas keeps its mode and size. */
  function Paste(canvas: Image, image: Image, mask: Option<string>): Image {
    canvas.(raster := Pasted(canvas.raster, image.raster, mask))
  }

  /**
   * The mode-normalisation branch. Images with transparency or a palette are pasted onto a white RGB
   * canvas through their alpha band (a palette image is first converted to RGBA, so the mask is
   * never absent); any other mode but RGB is converted directly; RGB is left untouched.
   */
  function NormaliseForJpeg(image: Image): (r: Image)
    ensures r.mode == "RGB" && r.width == image.width && r.height == image.height
    ensures r == image <==> image.mode == "RGB"
    ensures image.mode in TransparentModes ==>
      r.raster.Pasted? && r.raster.base == Filled(White) && r.raster.mask == Some("A")
    ensures image.mode in TransparentModes ==>
      r.raster.over == (if image.mode == "P" then Converted(image.raster, "P", "RGBA") else image.raster)
    ensures image.mode !in TransparentModes && image.mode != "RGB" ==>
      r.raster == Converted(image.raster, image.mode, "RGB")
  {
    if image.mode in TransparentModes then
      var canvas := NewImage("RGB", image.width, image.height, White);
      var source := if image.mode == "P" then Convert(image, "RGBA") else image;
      var bands := if source.mode in AlphaModes then Bands(source.mode) else [];
      Paste(canvas, source, if source.mode in AlphaModes then Some(bands[|bands| - 1]) else None)
    else if image.mode != "RGB" then
      Convert(image, "RGB")
    else
      image
  }
}
