/** `VolumeType::new`: the signed-distance evaluators, over the reals. */
module Volumes {
  import opened Codec
  import opened Octants

  datatype VolumeType = Perimeter | Plane | Pillar

  function Abs(r: real): (a: real)
    ensures a >= 0.0 && (a == r || a == -r)
  {
    if r < 0.0 then -r else r
  }

  function Max(a: real, b: real): real
  {
    if a < b then b else a
  }

  /** The largest coordinate magnitude of a position. */
  function MaxAbs(p: Pos): real
  {
    Max(Abs(p.x as real), Max(Abs(p.y as real), Abs(p.z as real)))
  }

  /** The box walls: the distance is how far the largest coordinate magnitude
      lies below `max_level_size - 1`, and the direction is the unit axis of
      the first coordinate (in the order x, y, z) with that magnitude. */
  function PerimeterAt(p: Pos, maxLevelSize: real): Vec4
  {
    var (x, y, z) := (Abs(p.x as real), Abs(p.y as real), Abs(p.z as real));
    var (dist1, norm1) := (x, (1.0, 0.0, 0.0));
    var (dist2, norm2) := if y > dist1 then (y, (0.0, 1.0, 0.0)) else (dist1, norm1);
    var (dist3, norm3) := if z > dist2 then (z, (0.0, 0.0, 1.0)) else (dist2, norm2);
    Vec4(maxLevelSize - dist3 - 1.0, norm3.0, norm3.1, norm3.2)
  }

  /** The perimeter's distance and direction as described above: the
      direction is exactly one unit axis. */
  lemma PerimeterAtSpec(p: Pos, maxLevelSize: real)
    ensures var r := PerimeterAt(p, maxLevelSize);
      && r.x == maxLevelSize - MaxAbs(p) - 1.0
      && (r.y == 1.0 <==> Abs(p.x as real) >= Abs(p.y as real) && Abs(p.x as real) >= Abs(p.z as real))
      && (r.z == 1.0 <==> Abs(p.y as real) > Abs(p.x as real) && Abs(p.y as real) >= Abs(p.z as real))
      && (r.w == 1.0 <==> Abs(p.z as real) > Abs(p.x as real) && Abs(p.z as real) > Abs(p.y as real))
      && (r.y, r.z, r.w) in {(1.0, 0.0, 0.0), (0.0, 1.0, 0.0), (0.0, 0.0, 1.0)}
  {
  }

  /** The inclined plane with normal (1, 1, 10): the distance is positive
      exactly below the plane `z = (x + y) / 10 + max_level_size`. */
  function PlaneAt(p: Pos, maxLevelSize: real): Vec4
  {
    var plane := (1.0, 1.0, 10.0);
    var z := ((p.x as real * plane.0 + p.y as real * plane.1) / plane.2 + maxLevelSize) - p.z as real;
    Vec4(z, plane.0, plane.1, plane.2)
  }

  /** The plane's distance is positive exactly below the plane, and its
      direction is the constant (1, 1, 10). */
  lemma PlaneAtSpec(p: Pos, maxLevelSize: real)
    ensures var r := PlaneAt(p, maxLevelSize);
      && 10.0 * r.x == p.x as real + p.y as real + 10.0 * maxLevelSize - 10.0 * p.z as real
      && (r.x > 0.0 <==> (p.z as real) < (p.x as real + p.y as real) / 10.0 + maxLevelSize)
      && (r.y, r.z, r.w) == (1.0, 1.0, 10.0)
  {
  }

  /** The pillar: a vertical cylinder about x = -max_level_size / 2, z = 0 of
      radius `0.2 * max_level_size`; the distance is the radial distance minus
      the radius, and the direction is the raw offset from the axis. `sqrt`
      stands for `f32::sqrt`. */
  function PillarAt(p: Pos, maxLevelSize: real, sqrt: real -> real): Vec4
  {
    var dx := p.x as real + maxLevelSize * 0.5;
    var dz := p.z as real;
    Vec4(sqrt(SumOfSquares(dx, dz)) - maxLevelSize * 0.2, dx, p.y as real, dz)
  }

  /** With a square root that is one, the pillar's distance is negative
      exactly inside the cylinder, zero exactly on its surface, and never
      below minus the radius; its direction is the offset from the axis. */
  lemma PillarAtSpec(p: Pos, maxLevelSize: real, sqrt: real -> real)
    requires maxLevelSize > 0.0
    requires forall a :: a >= 0.0 ==> sqrt(a) >= 0.0 && sqrt(a) * sqrt(a) == a
    ensures var r := PillarAt(p, maxLevelSize, sqrt);
      var radius := 0.2 * maxLevelSize;
      var d := SumOfSquares(p.x as real + maxLevelSize / 2.0, p.z as real);
      && (r.x < 0.0 <==> d < radius * radius)
      && (r.x == 0.0 <==> d == radius * radius)
      && r.x >= -radius
      && (r.y, r.z, r.w) == (p.x as real + maxLevelSize / 2.0, p.y as real, p.z as real)
  {
    var dx := p.x as real + maxLevelSize * 0.5;
    var d := SumOfSquares(dx, p.z as real);
    SquaresNonNegative(dx, p.z as real);
    var q := sqrt(d);
    SquareMonotone(q, 0.2 * maxLevelSize);
  }

  /** A sum of squares is never negative. */
  lemma SquaresNonNegative(a: real, b: real)
    ensures SumOfSquares(a, b) >= 0.0
  {
    assert a * a >= 0.0 && b * b >= 0.0;
  }

  /** On non-negative reals, squaring keeps order and equality. */
  lemma SquareMonotone(a: real, b: real)
    requires a >= 0.0 && b > 0.0
    ensures a < b <==> a * a < b * b
    ensures a == b <==> a * a == b * b
  {
    if a < b {
      calc {
        a * a;
      <= { ScaleLe(a, a, b); }
        a * b;
      < { ScaleLt(b, a, b); }
        b * b;
      }
    } else if a > b {
      calc {
        b * b;
      <= { ScaleLe(b, b, a); }
        b * a;
      < { ScaleLt(a, b, a); }
        a * a;
      }
    }
  }

  lemma ScaleLe(x: real, y: real, z: real)
    requires x >= 0.0 && y <= z
    ensures x * y <= x * z
  {
  }

  lemma ScaleLt(x: real, y: real, z: real)
    requires y < x && z > 0.0
    ensures y * z < x * z
  {
  }

  /** `a.powi(2) + b.powi(2)`. */
  function SumOfSquares(a: real, b: real): real
  {
    a * a + b * b
  }

  /** `VolumeType::new`: x is the signed distance, (y, z, w) the direction. */
  function Evaluate(v: VolumeType, p: Pos, maxLevelSize: real, sqrt: real -> real): Vec4
  {
    match v
    case Perimeter => PerimeterAt(p, maxLevelSize)
    case Plane => PlaneAt(p, maxLevelSize)
    case Pillar => PillarAt(p, maxLevelSize, sqrt)
  }
}

/** `ColourType::new`: the integer colour bakers. */
module Colours {
  import opened Codec
  import opened Octants

  datatype ColourType = TiledSpectrum | RedZGradient | ClearBlue | ColouredWalls

  /** `pack_f32_u32` of opaque red, green and blue (see WallConstants). */
  const RED: u32 := 0xFF00_00FF
  const GREEN: u32 := 0x00FF_00FF
  const BLUE: u32 := 0x0000_FFFF

  /** Integer division on i32, which truncates toward zero. */
  function DivTrunc(a: int, b: int): int
    requires b > 0
  {
    if a >= 0 then a / b else -((-a) / b)
  }

  /** The truncated quotient brackets the dividend from below for a
      non-negative dividend and from above for a negative one. */
  lemma DivTruncSpec(a: int, b: int)
    requires b > 0
    ensures a >= 0 ==> DivTrunc(a, b) * b <= a < (DivTrunc(a, b) + 1) * b
    ensures a < 0 ==> -DivTrunc(a, b) * b <= -a < (-DivTrunc(a, b) + 1) * b
  {
    var n := if a >= 0 then a else -a;
    var q, r := n / b, n % b;
    assert n == q * b + r && 0 <= r < b;
    assert (q + 1) * b == q * b + b;
  }

  /** `as u8` on an i32 keeps the low eight bits (two's complement). */
  function AsU8(a: int): u8
  {
    a % 0x100
  }

  function IAbs(a: int): nat
  {
    if a < 0 then -a else a
  }

  /** A negative coordinate c is moved to `max_level_size + c`. */
  function Tile(c: int, maxLevelSize: int): int
  {
    if c >= 0 then c else maxLevelSize + c
  }

  /** One spectrum channel: the tiled coordinate scaled to 0..255. */
  function TiledChannel(c: int, maxLevelSize: int): u8
    requires maxLevelSize > 0
  {
    AsU8(DivTrunc(Tile(c, maxLevelSize) * 255, maxLevelSize))
  }

  /** For a coordinate inside the scene the spectrum channel is the floor of
      `tiled * 255 / max`, and stays below 255. */
  lemma TiledChannelSpec(c: int, m: int)
    requires m > 0 && -m <= c < m
    ensures var t := Tile(c, m);
      var r := TiledChannel(c, m);
      0 <= t < m && r < 255 && r * m <= t * 255 < (r + 1) * m
  {
    var t := Tile(c, m);
    ScaledBelow255(t, m);
    DivTruncSpec(t * 255, m);
  }

  /** Scaling a coordinate in [0, max] to 0..255 gives a quotient in
      [0, 255], below 255 for a coordinate below `max`. */
  lemma ScaledBelow255(t: int, m: int)
    requires m > 0 && 0 <= t <= m
    ensures 0 <= DivTrunc(t * 255, m) <= 255
    ensures t < m ==> DivTrunc(t * 255, m) < 255
  {
    var a := t * 255;
    DivTruncSpec(a, m);
    var q := DivTrunc(a, m);
    assert q * m <= a;
    MulLe(t, m, 255);
    if q >= 256 || (t < m && q >= 255) {
      MulLe(255, q, m);
      if t < m {
        MulMonotone(t, m, 255);
      } else {
        MulLe(256, q, m);
      }
    }
  }

  lemma MulMonotone(a: int, b: int, k: int)
    requires a < b && k > 0
    ensures a * k < b * k
  {
    assert (b - a) * k > 0;
  }

  lemma MulLe(a: int, b: int, k: int)
    requires a <= b && k >= 0
    ensures a * k <= b * k
  {
    assert (b - a) * k >= 0;
  }

  /** The red channel of the z gradient. */
  function GradientRed(z: int, maxLevelSize: int): u8
    requires maxLevelSize > 0
  {
    AsU8(DivTrunc(z * 255, maxLevelSize))
  }

  /** Above z = 0 the red channel is the floor of `z * 255 / max`. Below it
      the truncated quotient is negative and the byte cast wraps it: red is
      then 256 minus the floor of `|z| * 255 / max`, or 0. */
  lemma GradientRedSpec(z: int, m: int)
    requires m > 0 && -m <= z < m
    ensures 0 <= z ==> GradientRed(z, m) * m <= z * 255 < (GradientRed(z, m) + 1) * m
    ensures z < 0 ==>
      var q := (0x100 - GradientRed(z, m)) % 0x100;
      q * m <= -z * 255 < (q + 1) * m
  {
    if z >= 0 {
      ScaledBelow255(z, m);
      DivTruncSpec(z * 255, m);
    } else {
      var e := GradientRedBelow(z, m);
      var q := (0x100 - GradientRed(z, m)) % 0x100;
      assert q == e;
    }
  }

  /** Below z = 0 the wrapped red byte undoes to the floor of
      `|z| * 255 / max`. */
  lemma GradientRedBelow(z: int, m: int) returns (e: int)
    requires m > 0 && -m <= z < 0
    ensures e * m <= -z * 255 < (e + 1) * m
    ensures (0x100 - GradientRed(z, m)) % 0x100 == e
  {
    var n := -z * 255;
    e := DivTrunc(n, m);
    ScaledBelow255(-z, m);
    DivTruncSpec(n, m);
    assert z * 255 == -n;
    assert DivTrunc(z * 255, m) == -e;
    NegatedByteWraps(e);
  }

  /** The byte of -q, for a byte value q, is 256 - q (or 0 when q is 0). */
  lemma NegatedByteWraps(q: int)
    requires 0 <= q < 0x100
    ensures (0x100 - AsU8(-q)) % 0x100 == q
  {
  }

  /** The walls colour: red for the x walls, green where |y| beats |x|, and
      blue only where |z| beats both (ties keep the earlier axis). */
  function WallColour(p: Pos): (c: u32)
    ensures c == RED <==> IAbs(p.y) <= IAbs(p.x) && IAbs(p.z) <= IAbs(p.x)
    ensures c == GREEN <==> IAbs(p.y) > IAbs(p.x) && IAbs(p.z) <= IAbs(p.y)
    ensures c == BLUE <==> IAbs(p.z) > IAbs(p.x) && IAbs(p.z) > IAbs(p.y)
  {
    var (c1, d1) := (RED, IAbs(p.x));
    var (c2, d2) := if IAbs(p.y) > d1 then (GREEN, IAbs(p.y)) else (c1, d1);
    if IAbs(p.z) > d2 then BLUE else c2
  }

  /** The three wall colours are pure red, green and blue, fully opaque. */
  lemma WallConstants()
    ensures PackF32(Vec4(1.0, 0.0, 0.0, 1.0)) == RED
    ensures PackF32(Vec4(0.0, 1.0, 0.0, 1.0)) == GREEN
    ensures PackF32(Vec4(0.0, 0.0, 1.0, 1.0)) == BLUE
  {
    assert CastU8(Times255(Finite(1.0))) == 255;
    assert CastU8(Times255(Finite(0.0))) == 0;
  }

  /** `ColourType::new`: an octant with no child and a zero normal whose
      colour the material gives. */
  function ColourOf(t: ColourType, p: Pos, maxLevelSize: int): Octant
    requires maxLevelSize > 0
  {
    match t
    case TiledSpectrum =>
      Octant(Null, PackU8((TiledChannel(p.x, maxLevelSize), TiledChannel(p.y, maxLevelSize), TiledChannel(p.z, maxLevelSize), 255)), 0, 0)
    case RedZGradient =>
      Octant(Null, PackU8((GradientRed(p.z, maxLevelSize), 50, 50, 255)), 0, 0)
    case ClearBlue =>
      Octant(Null, PackF32(Vec4(0.1, 0.1, 0.5, 0.01)), 0, 0)
    case ColouredWalls =>
      Octant(Null, WallColour(p), 0, 0)
  }

  /** What each material bakes, as bytes: the spectrum's channels, the
      gradient's red over constant green and blue, the quantised translucent
      blue, and one of the three opaque wall colours. No material sets a
      child, a normal or the spare word. */
  lemma ColourOfSpec(t: ColourType, p: Pos, maxLevelSize: int)
    requires maxLevelSize > 0
    ensures var o := ColourOf(t, p, maxLevelSize);
      && o.index.Null? && o.normal == 0 && o.extra == 0
      && (t == TiledSpectrum ==>
            UnpackU8(o.colour) == (TiledChannel(p.x, maxLevelSize), TiledChannel(p.y, maxLevelSize), TiledChannel(p.z, maxLevelSize), 255))
      && (t == RedZGradient ==> UnpackU8(o.colour) == (GradientRed(p.z, maxLevelSize), 50, 50, 255))
      && (t == ClearBlue ==> UnpackU8(o.colour) == (25, 25, 127, 2))
      && (t == ColouredWalls ==> o.colour in {RED, GREEN, BLUE})
  {
    match t
    case TiledSpectrum =>
      UnpackPackU8((TiledChannel(p.x, maxLevelSize), TiledChannel(p.y, maxLevelSize), TiledChannel(p.z, maxLevelSize), 255));
    case RedZGradient =>
      UnpackPackU8((GradientRed(p.z, maxLevelSize), 50, 50, 255));
    case ClearBlue =>
      ClearBlueBytes();
    case ColouredWalls =>
  }

  /** The translucent blue quantises to (25, 25, 127, 2). */
  lemma ClearBlueBytes()
    ensures UnpackU8(PackF32(Vec4(0.1, 0.1, 0.5, 0.01))) == (25, 25, 127, 2)
  {
    assert CastU8(Times255(Finite(0.1))) == 25 by { assert (25.5).Floor == 25; }
    assert CastU8(Times255(Finite(0.5))) == 127 by { assert (127.5).Floor == 127; }
    assert CastU8(Times255(Finite(0.01))) == 2 by { assert (2.55).Floor == 2; }
    UnpackPackU8((25, 25, 127, 2));
  }

  /** At (5, 2, 1) the x wall wins: the colour decodes to (1, 0, 0, 1). */
  lemma WallsExample()
    ensures UnpackF32(ColourOf(ColouredWalls, Pos(5, 2, 1), 8).colour) == Vec4(1.0, 0.0, 0.0, 1.0)
  {
    UnpackPackU8((255, 0, 0, 255));
  }

  /** At (2, -1, 3) in a scene of size 4 the tiled position is (2, 3, 3) and
      the colour bytes are (127, 191, 191, 255). */
  lemma SpectrumExample()
    ensures UnpackU8(ColourOf(TiledSpectrum, Pos(2, -1, 3), 4).colour) == (127, 191, 191, 255)
  {
    assert TiledChannel(2, 4) == 127;
    assert TiledChannel(-1, 4) == 191;
    assert TiledChannel(3, 4) == 191;
    UnpackPackU8((127, 191, 191, 255));
  }
}

/** `TestDagType::new`: the preset scenes. */
module Presets {
  import opened Wrappers
  import opened Volumes
  import opened Colours

  datatype TestDagType = BoxScene | PillarScene

  /** An ordered list of (volume, material) pairs. */
  type Scene = seq<(VolumeType, ColourType)>

  /** The preset's own depth minimum was not met (the source panics). */
  datatype PresetError = DepthBelowPresetMinimum

  function MinDepth(t: TestDagType): nat
  {
    match t
    case BoxScene => 2
    case PillarScene => 4
  }

  /** `TestDagType::new`: Box needs depth 2 and is the coloured perimeter;
      Pillar needs depth 4 and is the perimeter, the plane and the pillar. */
  function SceneOf(t: TestDagType, depth: nat): (r: Result<Scene, PresetError>)
    ensures r.Ok? <==> depth >= MinDepth(t)
    ensures r.Ok? ==> |r.value| > 0 && r.value[0].0 == Perimeter
    ensures r.Ok? && t == BoxScene ==> r.value == [(Perimeter, ColouredWalls)]
    ensures r.Ok? && t == PillarScene ==>
      && |r.value| == 3 && r.value[0] == (Perimeter, TiledSpectrum)
      && r.value[1] == (Plane, RedZGradient) && r.value[2] == (Pillar, ClearBlue)
  {
    match t
    case BoxScene =>
      if depth < 2 then Err(DepthBelowPresetMinimum) else Ok([(Perimeter, ColouredWalls)])
    case PillarScene =>
      if depth < 4 then Err(DepthBelowPresetMinimum)
      else Ok([(Perimeter, TiledSpectrum), (Plane, RedZGradient), (Pillar, ClearBlue)])
  }
}
