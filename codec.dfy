/** Fixed-width integers, the f32 values the builder produces, and the packed
    4 x 8-bit attribute words of `src/asset/oct_dag.rs`. */
module Codec {

  type u8 = x: int | 0 <= x < 0x100
  type u32 = x: int | 0 <= x < 0x1_0000_0000

  /** Four bytes, byte 0 first (the source's `(u8, u8, u8, u8)`). */
  type Bytes = (u8, u8, u8, u8)

  const MASK_8BIT: u32 := 0xFF

  /** A finite four-channel vector (glam's `Vec4`), over the reals. */
  datatype Vec4 = Vec4(x: real, y: real, z: real, w: real)

  /** One f32 as far as the builder can produce it: a finite value, an
      infinity, or the not-a-number that `0.0 / 0.0` yields. */
  datatype Float = Finite(value: real) | PosInf | NegInf | NaN

  /** `data >> 24 & MASK_8BIT` and its siblings: a shift right followed by the
      low-byte mask. */
  function ShiftMask(w: u32, shift: nat): u8
    requires shift == 0 || shift == 8 || shift == 16 || shift == 24
  {
    if shift == 24 then (w / 0x100_0000) % 0x100
    else if shift == 16 then (w / 0x1_0000) % 0x100
    else if shift == 8 then (w / 0x100) % 0x100
    else w % 0x100
  }

  /** A word is the place-value sum of its four bytes. */
  lemma Decompose(w: u32)
    ensures w == ShiftMask(w, 24) * 0x100_0000 + ShiftMask(w, 16) * 0x1_0000
               + ShiftMask(w, 8) * 0x100 + ShiftMask(w, 0)
  {
    var q0, b3 := w / 0x100, w % 0x100;
    var q1, b2 := q0 / 0x100, q0 % 0x100;
    var b0, b1 := q1 / 0x100, q1 % 0x100;
    assert w == q1 * 0x1_0000 + (b2 * 0x100 + b3);
    assert w / 0x1_0000 == q1;
    assert w == b0 * 0x100_0000 + (b1 * 0x1_0000 + b2 * 0x100 + b3);
    assert w / 0x100_0000 == b0;
  }

  /** `pack_u8_u32`: byte 0 shifted into the top eight bits, byte 3 in the
      bottom eight. The four fields do not overlap, so the bitwise or of the
      shifted bytes is their sum. */
  function PackU8(b: Bytes): u32
  {
    b.0 * 0x100_0000 + b.1 * 0x1_0000 + b.2 * 0x100 + b.3
  }

  /** Byte 0 is the top eight bits of the packed word and byte 3 the bottom
      eight. */
  lemma PackU8Ends(b: Bytes)
    ensures PackU8(b) / 0x100_0000 == b.0
    ensures PackU8(b) % 0x100 == b.3
  {
    var w := PackU8(b);
    assert w == b.0 * 0x100_0000 + (b.1 * 0x1_0000 + b.2 * 0x100 + b.3);
    assert w == (b.0 * 0x1_0000 + b.1 * 0x100 + b.2) * 0x100 + b.3;
  }

  /** `unpack_u8_u32`: the four bytes of a word, most significant first. Every
      word is the packing of the bytes it unpacks to. */
  function UnpackU8(w: u32): (b: Bytes)
    ensures PackU8(b) == w
  {
    Decompose(w);
    (ShiftMask(w, 24), ShiftMask(w, 16), ShiftMask(w, 8), ShiftMask(w, 0))
  }

  /** Packing then unpacking gives the bytes back. */
  lemma UnpackPackU8(b: Bytes)
    ensures UnpackU8(PackU8(b)) == b
  {
    var w := PackU8(b);
    var hi2 := b.0 * 0x100 + b.1;
    var hi3 := hi2 * 0x100 + b.2;
    assert w == hi3 * 0x100 + b.3;
    assert w / 0x100 == hi3 && w % 0x100 == b.3;
    assert w == hi2 * 0x1_0000 + (b.2 * 0x100 + b.3);
    assert w / 0x1_0000 == hi2;
    assert w == b.0 * 0x100_0000 + (b.1 * 0x1_0000 + b.2 * 0x100 + b.3);
    assert w / 0x100_0000 == b.0;
  }

  /** `x * 255.0` on an f32 that may not be finite. */
  function Times255(f: Float): Float
  {
    match f
    case Finite(v) => Finite(v * 255.0)
    case _ => f
  }

  /** IEEE division of two finite values: by zero it gives an infinity of the
      numerator's sign, or not-a-number when the numerator is zero too. */
  function Quot(a: real, b: real): Float
  {
    if b != 0.0 then Finite(a / b)
    else if a > 0.0 then PosInf
    else if a < 0.0 then NegInf
    else NaN
  }

  /** Division by a non-zero value is exact; only zero over zero gives
      not-a-number. */
  lemma QuotSpec(a: real, b: real)
    ensures b != 0.0 ==> Quot(a, b) == Finite(a / b)
    ensures Quot(a, b).NaN? <==> a == 0.0 && b == 0.0
    ensures b == 0.0 && a > 0.0 ==> Quot(a, b) == PosInf
    ensures b == 0.0 && a < 0.0 ==> Quot(a, b) == NegInf
  {
  }

  /** Rust's `f as u8` on an f32: truncation toward zero, saturating at 0 and
      255, with not-a-number cast to 0. */
  function CastU8(f: Float): u8
  {
    match f
    case Finite(v) => if v <= 0.0 then 0 else if v >= 255.0 then 255 else v.Floor
    case PosInf => 255
    case NegInf => 0
    case NaN => 0
  }

  /** The cast truncates a finite value in range toward zero, saturates at
      255 above the range and at 0 below it, and sends not-a-number to 0. */
  lemma CastU8Spec(f: Float)
    ensures f.Finite? && f.value >= 0.0 ==> CastU8(f) as real <= f.value
    ensures f.Finite? && f.value < 255.0 ==> f.value < CastU8(f) as real + 1.0
    ensures f.Finite? && f.value >= 255.0 ==> CastU8(f) == 255
    ensures f.Finite? && f.value <= 0.0 ==> CastU8(f) == 0
    ensures f.NaN? || f.NegInf? ==> CastU8(f) == 0
    ensures f.PosInf? ==> CastU8(f) == 255
  {
  }

  /** `pack_f32_u32` on four f32 channels: each channel times 255, cast to a
      byte, packed with channel 0 most significant. */
  function PackFloats(x: Float, y: Float, z: Float, w: Float): u32
  {
    PackU8((CastU8(Times255(x)), CastU8(Times255(y)), CastU8(Times255(z)), CastU8(Times255(w))))
  }

  /** Unpacking packed channels gives each channel's cast byte back. */
  lemma UnpackPackFloats(x: Float, y: Float, z: Float, w: Float)
    ensures UnpackU8(PackFloats(x, y, z, w)) ==
      (CastU8(Times255(x)), CastU8(Times255(y)), CastU8(Times255(z)), CastU8(Times255(w)))
  {
    UnpackPackU8((CastU8(Times255(x)), CastU8(Times255(y)), CastU8(Times255(z)), CastU8(Times255(w))));
  }

  /** `pack_f32_u32` on a finite vector. */
  function PackF32(v: Vec4): u32
  {
    PackFloats(Finite(v.x), Finite(v.y), Finite(v.z), Finite(v.w))
  }

  /** `unpack_f32_u32`: every byte of `unpack_u8_u32` divided by 255, so
      every channel is in [0, 1]. */
  function UnpackF32(data: u32): (v: Vec4)
    ensures 0.0 <= v.x <= 1.0 && 0.0 <= v.y <= 1.0 && 0.0 <= v.z <= 1.0 && 0.0 <= v.w <= 1.0
  {
    Vec4(ShiftMask(data, 24) as real / 255.0, ShiftMask(data, 16) as real / 255.0,
         ShiftMask(data, 8) as real / 255.0, ShiftMask(data, 0) as real / 255.0)
  }

  /** Packing an unpacked word gives the word back. */
  lemma PackUnpackF32(data: u32)
    ensures PackF32(UnpackF32(data)) == data
  {
    var b := UnpackU8(data);
    var v := UnpackF32(data);
    assert v == Vec4(b.0 as real / 255.0, b.1 as real / 255.0, b.2 as real / 255.0, b.3 as real / 255.0);
    ByteRoundTrip(b.0);
    ByteRoundTrip(b.1);
    ByteRoundTrip(b.2);
    ByteRoundTrip(b.3);
    var c := (CastU8(Times255(Finite(v.x))), CastU8(Times255(Finite(v.y))),
              CastU8(Times255(Finite(v.z))), CastU8(Times255(Finite(v.w))));
    assert c == b;
    assert PackF32(v) == PackU8(c);
  }

  /** A byte over 255, times 255 and cast, is the byte again. */
  lemma ByteRoundTrip(b: u8)
    ensures CastU8(Times255(Finite(b as real / 255.0))) == b
  {
    assert (b as real / 255.0) * 255.0 == b as real;
  }

  /** One channel in [0, 1] survives a pack and an unpack to within 1/255,
      never rounding up. */
  lemma {:induction false} ChannelWithin(v: real)
    requires 0.0 <= v <= 1.0
    ensures var u := CastU8(Times255(Finite(v))) as real / 255.0;
      u <= v < u + 1.0 / 255.0 || (v == 1.0 && u == 1.0)
  {
    var b := CastU8(Times255(Finite(v)));
    if v < 1.0 {
      assert b as real <= v * 255.0 < b as real + 1.0;
    }
  }

  /** The packing is lossy by at most 1/255 per channel for channels in [0, 1]. */
  lemma PackUnpackF32Within(v: Vec4)
    requires 0.0 <= v.x <= 1.0 && 0.0 <= v.y <= 1.0 && 0.0 <= v.z <= 1.0 && 0.0 <= v.w <= 1.0
    ensures var u := UnpackF32(PackF32(v));
      u.x <= v.x && v.x - u.x < 1.0 / 255.0 &&
      u.y <= v.y && v.y - u.y < 1.0 / 255.0 &&
      u.z <= v.z && v.z - u.z < 1.0 / 255.0 &&
      u.w <= v.w && v.w - u.w < 1.0 / 255.0
  {
    var b := (CastU8(Times255(Finite(v.x))), CastU8(Times255(Finite(v.y))),
              CastU8(Times255(Finite(v.z))), CastU8(Times255(Finite(v.w))));
    UnpackPackU8(b);
    ChannelWithin(v.x);
    ChannelWithin(v.y);
    ChannelWithin(v.z);
    ChannelWithin(v.w);
  }

  /** Packing (1.0, 0.0, 0.5, 1.0) gives the bytes (255, 0, 127, 255). */
  lemma PackHalfExample()
    ensures UnpackU8(PackF32(Vec4(1.0, 0.0, 0.5, 1.0))) == (255, 0, 127, 255)
    ensures UnpackF32(PackF32(Vec4(1.0, 0.0, 0.5, 1.0))) == Vec4(1.0, 0.0, 127.0 / 255.0, 1.0)
  {
    assert CastU8(Times255(Finite(0.5))) == 127 by {
      assert (127.5).Floor == 127;
    }
    assert PackF32(Vec4(1.0, 0.0, 0.5, 1.0)) == PackU8((255, 0, 127, 255));
    UnpackPackU8((255, 0, 127, 255));
  }
}
