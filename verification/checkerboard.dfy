/** `GenerateTextureData`: the procedurally generated black-and-white
    checkerboard uploaded as the triangle's texture.

    The generator walks the RGBA8 image one texel (4 bytes) at a time and
    decides the texel's colour from its byte offset alone, with unsigned
    integer arithmetic only. `TexelByte` is that decision for a single byte;
    `ReferenceBlack` is the picture it is meant to draw, stated in pixel
    coordinates; `GenerateTextureData` is the array fill. */
module Checkerboard {
  import opened Layout
  import opened Arith

  /** `UINT8`. */
  type byte = b: int | 0 <= b < 0x100

  /** Bytes in one row of the texture. */
  const RowPitch: nat := TextureWidth * TexturePixelSize
  /** Width of one checker cell in bytes, `rowPitch >> 3`. */
  const CellPitch: nat := RowPitch / 8
  /** Height of one checker cell in rows, `TextureWidth >> 3` (the source takes
      it from the width; the texture is square, so this is also height / 8). */
  const CellHeight: nat := TextureWidth / 8
  /** Size of the generated buffer in bytes. */
  const TextureSize: nat := RowPitch * TextureHeight

  /** The generator's colour test for the texel starting at byte offset `n`:
      black when the cell column and the cell row have the same parity. */
  predicate IsBlackTexel(n: nat) {
    ((n % RowPitch) / CellPitch) % 2 == ((n / RowPitch) / CellHeight) % 2
  }

  /** The byte the generator stores at offset `n`: R, G and B are 0x00 on a black
      texel and 0xff on a white one; A is always 0xff. */
  function TexelByte(n: nat): byte {
    var start := (n / TexturePixelSize) * TexturePixelSize;
    if n % TexturePixelSize == 3 then 0xff
    else if IsBlackTexel(start) then 0x00
    else 0xff
  }

  /** The intended picture: 8 x 8 square cells, the top-left one black. */
  predicate ReferenceBlack(px: nat, py: nat) {
    (px / (TextureWidth / 8) + py / (TextureHeight / 8)) % 2 == 0
  }

  /** Column and row of the texel holding byte `n`. */
  function PixelX(n: nat): nat { (n % RowPitch) / TexturePixelSize }
  function PixelY(n: nat): nat { n / RowPitch }

  /** Byte offset of channel `c` of texel `(px, py)` in a buffer whose rows are
      `RowPitch` bytes apart, as the upload describes it with
      `RowPitch = TextureWidth * TexturePixelSize` and
      `SlicePitch = RowPitch * TextureHeight`. */
  function ByteOffset(px: nat, py: nat, c: nat): nat {
    py * RowPitch + px * TexturePixelSize + c
  }

  lemma Constants()
    ensures RowPitch == 1024 && CellPitch == 128 && CellHeight == 32 && TextureSize == 262144
    ensures TextureWidth / 8 == 32 && TextureHeight / 8 == 32
  {
  }

  /** Pixel coordinates and byte offsets are inverse to each other over the whole
      texture: the generator's `x`/`y` decomposition of `n` reads back exactly the
      texel the upload places there. */
  lemma {:induction false} ByteOffsetRoundTrip(px: nat, py: nat, c: nat)
    requires px < TextureWidth && py < TextureHeight && c < TexturePixelSize
    ensures ByteOffset(px, py, c) < TextureSize
    ensures PixelX(ByteOffset(px, py, c)) == px
    ensures PixelY(ByteOffset(px, py, c)) == py
    ensures ByteOffset(px, py, c) % TexturePixelSize == c
  {
    Constants();
    var n := ByteOffset(px, py, c);
    var within := px * 4 + c;
    assert 0 <= within < 1024;
    assert n == py * 1024 + within;
    DivModUnique(n, 1024, py, within);
    assert n % 1024 == within;
    DivModUnique(within, 4, px, c);
    assert n < 262144 by {
      assert py * 1024 <= 255 * 1024;
    }
    DivModUnique(n, 4, py * 256 + px, c);
  }

  /** The converse of `ByteOffsetRoundTrip`: every byte offset inside the
      texture is the offset of its own pixel coordinates and channel, so the
      generator's loop over `n` visits every texel's bytes and nothing else. */
  lemma {:induction false} OffsetDecomposes(n: nat)
    requires n < TextureSize
    ensures PixelX(n) < TextureWidth && PixelY(n) < TextureHeight
    ensures n == ByteOffset(PixelX(n), PixelY(n), n % TexturePixelSize)
  {
    Constants();
    var x := n % 1024;
    assert n == (n / 1024) * 1024 + x;
    assert x == (x / 4) * 4 + x % 4;
    assert x % 4 == n % 4 by {
      DivModUnique(n, 4, (n / 1024) * 256 + x / 4, x % 4);
    }
    DivBelow(n, 1024, 256);
  }

  /** The generator's colour test agrees with the intended picture: the texel at
      byte `n` is black exactly when its cell column plus cell row is even. */
  lemma {:induction false} ColourRule(n: nat)
    requires n < TextureSize
    ensures IsBlackTexel(n) <==> ReferenceBlack(PixelX(n), PixelY(n))
  {
    Constants();
    var x := n % 1024;
    var px := x / 4;
    assert x == px * 4 + x % 4;
    DivModUnique(x, 128, px / 32, (px % 32) * 4 + x % 4);
    assert x / 128 == px / 32;
  }

  /** Every texel has opaque alpha and equal R, G and B that are all 0x00 (black)
      or all 0xff (white), black exactly where the reference board is black. */
  lemma {:induction false} TexelShape(n: nat)
    requires n < TextureSize && n % TexturePixelSize == 0
    ensures TexelByte(n + 3) == 0xff
    ensures TexelByte(n) == TexelByte(n + 1) == TexelByte(n + 2)
    ensures TexelByte(n) == 0x00 || TexelByte(n) == 0xff
    ensures TexelByte(n) == 0x00 <==> ReferenceBlack(PixelX(n), PixelY(n))
  {
    SameTexel(n, 1);
    SameTexel(n, 2);
    SameTexel(n, 3);
    assert (n / 4) * 4 == n;
    ColourRule(n);
  }

  lemma SameTexel(n: nat, c: nat)
    requires n % TexturePixelSize == 0 && c < TexturePixelSize
    ensures ((n + c) / TexturePixelSize) * TexturePixelSize == n
    ensures (n + c) % TexturePixelSize == c
  {
    DivModUnique(n + c, 4, n / 4, c);
  }

  /** The four bytes of the texel starting at `n`, given the generator's colour
      test for it. */
  lemma TexelBytesAt(n: nat, black: bool)
    requires n % TexturePixelSize == 0
    requires black <==> IsBlackTexel(n)
    ensures TexelByte(n) == TexelByte(n + 1) == TexelByte(n + 2) == (if black then 0x00 else 0xff)
    ensures TexelByte(n + 3) == 0xff
  {
    SameTexel(n, 1);
    SameTexel(n, 2);
    SameTexel(n, 3);
    assert (n / 4) * 4 == n;
  }

  /** A texel that starts inside the buffer ends inside it, where the next
      texel starts. */
  lemma TexelFits(n: nat)
    requires n % TexturePixelSize == 0 && n < TextureSize
    ensures n + TexturePixelSize <= TextureSize
    ensures (n + TexturePixelSize) % TexturePixelSize == 0
  {
    Constants();
    DivModUnique(n + 4, 4, n / 4 + 1, 0);
  }

  /** The four bytes the upload reads for texel `(px, py)` of a buffer. */
  function Texel(data: seq<byte>, px: nat, py: nat): seq<byte>
    requires px < TextureWidth && py < TextureHeight && |data| == TextureSize
  {
    ByteOffsetRoundTrip(px, py, 3);
    data[ByteOffset(px, py, 0) .. ByteOffset(px, py, 0) + TexturePixelSize]
  }

  /** The texture as a value: byte `n` is `TexelByte(n)`. */
  function TextureData(): (data: seq<byte>)
    ensures |data| == TextureSize
  {
    seq(TextureSize, n requires 0 <= n => TexelByte(n))
  }

  /** Upload round trip: every texel the GPU samples from the generated buffer is
      opaque black where the reference board is black and opaque white elsewhere. */
  lemma {:induction false} SampledTexel(data: seq<byte>, px: nat, py: nat)
    requires data == TextureData()
    requires px < TextureWidth && py < TextureHeight
    ensures ReferenceBlack(px, py) ==> Texel(data, px, py) == [0x00, 0x00, 0x00, 0xff]
    ensures !ReferenceBlack(px, py) ==> Texel(data, px, py) == [0xff, 0xff, 0xff, 0xff]
  {
    var n := ByteOffset(px, py, 0);
    ByteOffsetRoundTrip(px, py, 0);
    ByteOffsetRoundTrip(px, py, 3);
    TexelShape(n);
    var t := Texel(data, px, py);
    assert t == [data[n], data[n + 1], data[n + 2], data[n + 3]];
  }

  /** The generator loop. The buffer starts zero-filled and `n` steps through
      it one texel at a time; each step writes the four bytes of texel `n`, R,
      G, B then A, and no others, so every byte is written by exactly one step.
      The result is `TextureSize` bytes and byte `n` is `TexelByte(n)`. */
  method GenerateTextureData() returns (texture: seq<byte>)
    ensures |texture| == TextureSize
    ensures forall n :: 0 <= n < |texture| ==> texture[n] == TexelByte(n)
  {
    var data := new byte[TextureSize](_ => 0);
    var n := 0;
    while n < TextureSize
      invariant n % TexturePixelSize == 0 && n <= TextureSize
      invariant forall k :: 0 <= k < n ==> data[k] == TexelByte(k)
    {
      var x := n % RowPitch;
      var y := n / RowPitch;
      var i := x / CellPitch;
      var j := y / CellHeight;
      TexelFits(n);
      WriteTexel(data, n, i % 2 == j % 2);
      n := n + TexturePixelSize;
    }
    texture := data[..];
  }

  /** One step of the generator: the four bytes of the texel at `n`, black when
      the colour test says so, leaving every other byte as it was. */
  method WriteTexel(data: array<byte>, n: nat, black: bool)
    requires n % TexturePixelSize == 0 && n + TexturePixelSize <= data.Length
    requires black <==> IsBlackTexel(n)
    modifies data
    ensures forall k :: n <= k < n + TexturePixelSize ==> data[k] == TexelByte(k)
    ensures forall k :: 0 <= k < data.Length && !(n <= k < n + TexturePixelSize) ==> data[k] == old(data[k])
  {
    TexelBytesAt(n, black);
    if black {
      data[n] := 0x00;        // R
      data[n + 1] := 0x00;    // G
      data[n + 2] := 0x00;    // B
      data[n + 3] := 0xff;    // A
    } else {
      data[n] := 0xff;
      data[n + 1] := 0xff;
      data[n + 2] := 0xff;
      data[n + 3] := 0xff;
    }
  }
}
