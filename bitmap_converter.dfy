/** SKBitmapConverter: turns the emulator's 256x240 frame of 8-bit palette
    indices into a 32-bit colour bitmap, and fills a frame with noise. */
module BitmapConverters {

  /** The frame size of the emulator's picture. */
  const Width: nat := 256
  const Height: nat := 240

  /** System.Drawing.Color: the four 8-bit channels the palette is given in. */
  datatype DrawingColor = DrawingColor(a: bv8, r: bv8, g: bv8, b: bv8)

  /** SKColor: one 32-bit value, alpha in the top byte, then red, green, blue. */
  datatype SKColor = SKColor(color: bv32) {
    function Alpha(): bv8 { (color >> 24) as bv8 }
    function Red(): bv8 { ((color >> 16) & 0xff) as bv8 }
    function Green(): bv8 { ((color >> 8) & 0xff) as bv8 }
    function Blue(): bv8 { (color & 0xff) as bv8 }
  }

  /** new SKColor(red, green, blue, alpha): packs the four channels, and each
      channel reads back as given. */
  function MakeColor(red: bv8, green: bv8, blue: bv8, alpha: bv8): (c: SKColor)
    ensures c.Red() == red && c.Green() == green && c.Blue() == blue && c.Alpha() == alpha
  {
    SKColor((alpha as bv32 << 24) | (red as bv32 << 16) | (green as bv32 << 8) | blue as bv32)
  }

  /** Every colour is the packing of its own four channels, so two colours
      with the same channels are the same colour. */
  lemma ColorFromChannels(c: SKColor)
    ensures MakeColor(c.Red(), c.Green(), c.Blue(), c.Alpha()) == c
  {
  }

  /** The constructor's palette conversion: one SKColor per palette entry, in
      palette order, with the entry's four channels. */
  function ConvertPalette(palette: seq<DrawingColor>): (r: seq<SKColor>)
    ensures |r| == |palette|
    ensures forall i :: 0 <= i < |r| ==>
      r[i].Red() == palette[i].r && r[i].Green() == palette[i].g
      && r[i].Blue() == palette[i].b && r[i].Alpha() == palette[i].a
  {
    seq(|palette|, i requires 0 <= i < |palette| => MakeColor(palette[i].r, palette[i].g, palette[i].b, palette[i].a))
  }

  /** Where pixel (x, y) of the frame is stored in the index buffer. */
  function PixelOffset(x: nat, y: nat): nat {
    y * Width + x
  }

  /** Every pixel of the frame reads its own byte of the first Width * Height:
      the offset lies in range, and gives its pixel back. */
  lemma PixelOffsetRoundTrip(x: nat, y: nat)
    requires x < Width && y < Height
    ensures PixelOffset(x, y) < Width * Height
    ensures PixelOffset(x, y) / Width == y && PixelOffset(x, y) % Width == x
  {
    var o := PixelOffset(x, y);
    assert o == y * 256 + x;
    assert o / 256 == y && o % 256 == x;
  }

  /** Different pixels read different bytes. */
  lemma PixelOffsetInjective(x: nat, y: nat, x': nat, y': nat)
    requires x < Width && y < Height && x' < Width && y' < Height
    requires PixelOffset(x, y) == PixelOffset(x', y')
    ensures x == x' && y == y'
  {
    PixelOffsetRoundTrip(x, y);
    PixelOffsetRoundTrip(x', y');
  }

  class SKBitmapConverter {
    /** `_bitmap`: the one 256x240 bitmap every Render writes, indexed [x, y]. */
    const bitmap: array2<SKColor>
    /** `_colorPalette`. */
    const colorPalette: seq<SKColor>

    ghost predicate Valid()
      reads this
    {
      bitmap.Length0 == Width && bitmap.Length1 == Height
    }

    /** SKBitmapConverter(palette): converts the palette and allocates the bitmap. */
    constructor (palette: seq<DrawingColor>)
      ensures Valid() && fresh(bitmap)
      ensures colorPalette == ConvertPalette(palette)
    {
      bitmap := new SKColor[Width, Height];
      colorPalette := ConvertPalette(palette);
    }

    /** Render: every pixel (x, y) of the bitmap becomes the palette colour named
        by byte y * 256 + x of the frame; the same bitmap is returned each time.
        The frame must hold Width * Height indices, each within the palette. */
    method Render(frame: array<bv8>) returns (r: array2<SKColor>)
      requires Valid()
      requires frame.Length >= Width * Height
      requires forall i :: 0 <= i < Width * Height ==> frame[i] as int < |colorPalette|
      modifies bitmap
      ensures r == bitmap
      ensures forall x, y :: 0 <= x < Width && 0 <= y < Height ==>
        bitmap[x, y] == colorPalette[frame[PixelOffset(x, y)]]
    {
      for y := 0 to Height
        invariant forall x', y' :: 0 <= x' < Width && 0 <= y' < y ==>
          bitmap[x', y'] == colorPalette[frame[PixelOffset(x', y')]]
      {
        for x := 0 to Width
          invariant forall x', y' :: 0 <= x' < Width && 0 <= y' < y ==>
            bitmap[x', y'] == colorPalette[frame[PixelOffset(x', y')]]
          invariant forall x' :: 0 <= x' < x ==>
            bitmap[x', y] == colorPalette[frame[PixelOffset(x', y)]]
        {
          PixelOffsetRoundTrip(x, y);
          bitmap[x, y] := colorPalette[frame[y * Width + x]];
        }
      }
      r := bitmap;
    }

    /** GenerateNoise: every byte of the buffer becomes 0x0d or 0x30 (black or
        white in the emulator's palette), each chosen by a roll of 0..9; the
        same buffer is returned. */
    method GenerateNoise(buffer: array<bv8>) returns (r: array<bv8>)
      modifies buffer
      ensures r == buffer
      ensures forall i :: 0 <= i < buffer.Length ==> buffer[i] == 0x0d || buffer[i] == 0x30
    {
      for i := 0 to buffer.Length
        invariant forall j :: 0 <= j < i ==> buffer[j] == 0x0d || buffer[j] == 0x30
      {
        var roll: int :| 0 <= roll < 10;
        buffer[i] := if roll <= 5 then 0x0d else 0x30;
      }
      r := buffer;
    }
  }
}
