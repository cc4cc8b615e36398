/**
 * Buffer geometry of the analysis decode: 720x480 RGBA pixels, with each line and the
 * number of lines rounded up to a multiple of 32 as the video core requires.
 */
module Stride {

  /** The C# `uint` type: arithmetic on it wraps modulo 2^32. */
  newtype uint32 = x: int | 0 <= x < 0x1_0000_0000

  const Width: uint32 := 720
  const Height: uint32 := 480
  const BytePerPixel: uint32 := 4
  const Alignment: int := 32

  /** The result of an unchecked `uint` multiplication. */
  function MulU32(a: uint32, b: uint32): (r: uint32)
    ensures a as int * b as int < 0x1_0000_0000 ==> r as int == a as int * b as int
  {
    var p := a as int * b as int;
    if p < 0x1_0000_0000 then p as uint32 else (p % 0x1_0000_0000) as uint32
  }

  /**
   * `Align`: a size already on a multiple of 32 is kept, any other is moved to the next
   * multiple, computed in unchecked 32-bit arithmetic.
   */
  function Align(size: uint32): (r: uint32)
    ensures r as int % Alignment == 0
    ensures size as int <= 0xFFFF_FFE0 ==> size <= r && r as int < size as int + Alignment
    ensures size as int % Alignment == 0 ==> r == size
    ensures size as int > 0xFFFF_FFE0 ==> r == 0
  {
    if size as int % 32 == 0 then size
    else ((((size as int / 32) + 1) * 32) % 0x1_0000_0000) as uint32
  }

  /** Below the wrap-around, `Align` yields the least multiple of 32 that holds `size`. */
  lemma AlignIsLeastMultiple(size: uint32, m: int)
    requires size as int <= 0xFFFF_FFE0
    requires m % Alignment == 0 && size as int <= m
    ensures Align(size) as int <= m
  {
    var q := size as int / 32;
    if size as int % 32 != 0 {
      assert Align(size) as int == (q + 1) * 32;
      assert m / 32 * 32 == m;
      assert q * 32 < size as int;
      assert q < m / 32;
    }
  }

  /** Aligning twice is aligning once. */
  lemma AlignIdempotent(size: uint32)
    ensures Align(Align(size)) == Align(size)
  {
  }

  /** Bytes per line of the decoded picture (`Pitch`). */
  const Pitch: uint32 := Align(MulU32(Width, BytePerPixel))

  /** Number of lines of the decoded picture (`Lines`). */
  const Lines: uint32 := Align(Height)

  /** Size in bytes of one frame buffer, `Pitch * Lines`. */
  const BufferSize: uint32 := MulU32(Pitch, Lines)

  lemma GeometryValues()
    ensures Pitch == 2880 && Lines == 480
    ensures BufferSize as int == Pitch as int * Lines as int == 1_382_400
  {
  }
}
