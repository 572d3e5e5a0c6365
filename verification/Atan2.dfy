/** atan2Lerp of my_math.c: the angle of a vector by octants, a table of the arc tangent and
    linear interpolation between its entries. A half turn is 2^16. */
module Atan2 {
  import opened Arithmetic

  // ---------------------------------------------------------------- the table

  /** Eight entries of atanLUT, the arc tangent of i / 128, where an eighth of a turn is 0x8000. */
  function Row(r: nat): (s: seq<nat>)
    requires r <= 16
    ensures |s| == if r == 16 then 2 else 8
  {
    match r
    case 0 => [0x0000, 0x0146, 0x028C, 0x03D2, 0x0517, 0x065D, 0x07A2, 0x08E7]
    case 1 => [0x0A2C, 0x0B71, 0x0CB5, 0x0DF9, 0x0F3C, 0x107F, 0x11C1, 0x1303]
    case 2 => [0x1444, 0x1585, 0x16C5, 0x1804, 0x1943, 0x1A80, 0x1BBD, 0x1CFA]
    case 3 => [0x1E35, 0x1F6F, 0x20A9, 0x21E1, 0x2319, 0x2450, 0x2585, 0x26BA]
    case 4 => [0x27ED, 0x291F, 0x2A50, 0x2B80, 0x2CAF, 0x2DDC, 0x2F08, 0x3033]
    case 5 => [0x315D, 0x3285, 0x33AC, 0x34D2, 0x35F6, 0x3719, 0x383A, 0x395A]
    case 6 => [0x3A78, 0x3B95, 0x3CB1, 0x3DCB, 0x3EE4, 0x3FFB, 0x4110, 0x4224]
    case 7 => [0x4336, 0x4447, 0x4556, 0x4664, 0x4770, 0x487A, 0x4983, 0x4A8B]
    case 8 => [0x4B90, 0x4C94, 0x4D96, 0x4E97, 0x4F96, 0x5093, 0x518F, 0x5289]
    case 9 => [0x5382, 0x5478, 0x556E, 0x5661, 0x5753, 0x5843, 0x5932, 0x5A1E]
    case 10 => [0x5B0A, 0x5BF3, 0x5CDB, 0x5DC1, 0x5EA6, 0x5F89, 0x606A, 0x614A]
    case 11 => [0x6228, 0x6305, 0x63E0, 0x64B9, 0x6591, 0x6667, 0x673B, 0x680E]
    case 12 => [0x68E0, 0x69B0, 0x6A7E, 0x6B4B, 0x6C16, 0x6CDF, 0x6DA8, 0x6E6E]
    case 13 => [0x6F33, 0x6FF7, 0x70B9, 0x717A, 0x7239, 0x72F6, 0x73B3, 0x746D]
    case 14 => [0x7527, 0x75DF, 0x7695, 0x774A, 0x77FE, 0x78B0, 0x7961, 0x7A10]
    case 15 => [0x7ABF, 0x7B6B, 0x7C17, 0x7CC1, 0x7D6A, 0x7E11, 0x7EB7, 0x7F5C]
    case _ => [0x8000, 0x80A2]
  }

  function Lut(i: nat): nat
    requires i < 130
  {
    Row(i / 8)[i % 8]
  }

  lemma RowGrows(r: nat, j: nat)
    requires r < 16 && j < 8
    ensures var next := if j < 7 then Row(r)[j + 1] else Row(r + 1)[0];
            Row(r)[j] < next <= Row(r)[j] + 326
  {
  }

  lemma LutGrows(i: nat)
    requires i < 128
    ensures Lut(i) < Lut(i + 1) <= Lut(i) + 326
  {
    hide Row;
    RowGrows(i / 8, i % 8);
  }

  lemma LutEnds()
    ensures Lut(0) == 0 && Lut(128) == 0x8000
  {
  }

  lemma {:induction false} LutRises(i: nat, j: nat)
    requires i <= j <= 128
    ensures Lut(i) <= Lut(j) <= 0x8000
    decreases 128 - i
  {
    hide Lut;
    LutEnds();
    if i < j {
      LutGrows(i);
      LutRises(i + 1, j);
    } else if i < 128 {
      LutGrows(i);
      LutRises(i + 1, 128);
    }
  }

  // ---------------------------------------------------------------- interpolation

  lemma IndexInTable(t: nat, stride: nat)
    requires stride > 0 && t < 128 * stride
    ensures t / stride < 128
  {
    QuotientBelow(t, 128, stride);
  }

  function LerpAt(fa: nat, fb: nat, h: nat, stride: nat): nat
    requires stride > 0 && fa <= fb
  {
    fa + (fb - fa) * h / stride
  }

  /** Interpolation in the table, whose entries are `stride` apart. */
  function Lerp(t: nat, stride: nat): nat
    requires stride > 0 && t < 128 * stride
  {
    hide Lut;
    IndexInTable(t, stride);
    LutGrows(t / stride);
    LerpAt(Lut(t / stride), Lut(t / stride + 1), t % stride, stride)
  }

  lemma LerpBetween(fa: nat, fb: nat, h: nat, stride: nat)
    requires stride > 0 && fa < fb && h < stride
    ensures fa <= LerpAt(fa, fb, h, stride) < fb
  {
    Multiplied(h, stride, fb - fa);
    QuotientBelow(h * (fb - fa), fb - fa, stride);
  }

  lemma LerpRisesInStep(fa: nat, fb: nat, h: nat, k: nat, stride: nat)
    requires stride > 0 && fa <= fb && h <= k
    ensures LerpAt(fa, fb, h, stride) <= LerpAt(fa, fb, k, stride)
  {
    assert (fb - fa) * h <= (fb - fa) * k;
    QuotientRises((fb - fa) * h, (fb - fa) * k, stride);
  }

  lemma LerpRange(t: nat, stride: nat)
    requires stride > 0 && t < 128 * stride
    ensures t / stride < 128 && Lut(t / stride) <= Lerp(t, stride) < Lut(t / stride + 1) <= 0x8000
  {
    hide Lut, LerpAt;
    IndexInTable(t, stride);
    Division(t, stride);
    LutGrows(t / stride);
    LutRises(t / stride + 1, 128);
    LerpBetween(Lut(t / stride), Lut(t / stride + 1), t % stride, stride);
  }

  /** Interpolation keeps the order. */
  lemma LerpRises(t: nat, u: nat, stride: nat)
    requires stride > 0 && t <= u < 128 * stride
    ensures Lerp(t, stride) <= Lerp(u, stride)
  {
    hide Lut, LerpAt;
    QuotientRises(t, u, stride);
    LerpRange(t, stride);
    LerpRange(u, stride);
    var i := t / stride;
    if i == u / stride {
      LutGrows(i);
      Division(t, stride);
      Division(u, stride);
      LerpRisesInStep(Lut(i), Lut(i + 1), t % stride, u % stride, stride);
    } else {
      LutRises(i + 1, u / stride);
    }
  }

  // ---------------------------------------------------------------- octants

  /** A vector turned into the first half quadrant, 0 <= y < x, and by how many eighths. */
  datatype Turned = Turned(x: int, y: int, octant: nat)

  /** OCTANTIFY. */
  function Octantify(x: int, y: int): Turned {
    var (x1, y1, o1) := if y < 0 then (-x, -y, 4) else (x, y, 0);
    var (x2, y2, o2) := if x1 <= 0 then (y1, -x1, o1 + 2) else (x1, y1, o1);
    if x2 <= y2 then Turned(x2 + y2, y2 - x2, o2 + 1) else Turned(x2, y2, o2)
  }

  /** The eighth of the plane a vector lies in, counted from the positive x axis; an eighth
      begins with its first ray and ends before the next. */
  function Octant(x: int, y: int): nat {
    if y > 0 || (y == 0 && x >= 0) then
      if x > 0 then if y < x then 0 else 1
      else if -x < y then 2 else 3
    else
      if x < 0 then if -y < -x then 4 else 5
      else if x < -y then 6 else 7
  }

  lemma OctantifyTurns(x: int, y: int)
    requires y != 0
    ensures var r := Octantify(x, y);
            0 <= r.y < r.x && r.octant == Octant(x, y) < 8
  {
  }

  /** Twice the area between two vectors, positive if the second lies to the left. */
  function Cross(px: int, py: int, qx: int, qy: int): int {
    px * qy - py * qx
  }

  lemma TurnsKeepCross(px: int, py: int, qx: int, qy: int)
    ensures Cross(-px, -py, -qx, -qy) == Cross(px, py, qx, qy)
    ensures Cross(py, -px, qy, -qx) == Cross(px, py, qx, qy)
    ensures Cross(px + py, py - px, qx + qy, qy - qx) == 2 * Cross(px, py, qx, qy)
  {
    assert (px + py) * (qy - qx) == px * qy - px * qx + py * qy - py * qx;
    assert (py - px) * (qx + qy) == py * qx + py * qy - px * qx - px * qy;
  }

  /** Turning two vectors of one octant keeps which way the second lies from the first. */
  lemma OctantifyKeepsCross(px: int, py: int, qx: int, qy: int)
    requires py != 0 && qy != 0 && Octant(px, py) == Octant(qx, qy)
    ensures var p, q := Octantify(px, py), Octantify(qx, qy);
            Cross(p.x, p.y, q.x, q.y) == Cross(px, py, qx, qy) * if Octant(px, py) % 2 == 1 then 2 else 1
  {
    hide Cross;
    var down := py < 0;
    TurnsKeepCross(px, py, qx, qy);
    var (px1, py1) := if down then (-px, -py) else (px, py);
    var (qx1, qy1) := if down then (-qx, -qy) else (qx, qy);
    TurnsKeepCross(px1, py1, qx1, qy1);
    var left := px1 <= 0;
    var (px2, py2) := if left then (py1, -px1) else (px1, py1);
    var (qx2, qy2) := if left then (qy1, -qx1) else (qx1, qy1);
    TurnsKeepCross(px2, py2, qx2, qy2);
  }

  // ---------------------------------------------------------------- the angle

  lemma Scaled(y: nat, x: nat, scale: nat)
    requires y < x && scale > 0
    ensures y * scale / x < scale
  {
    Multiplied(y, x, scale);
    assert x * scale == scale * x;
    QuotientBelow(y * scale, scale, x);
  }

  lemma Scales(shift: nat)
    requires shift >= 7
    ensures Pow2(shift) == 128 * Pow2(shift - 7)
  {
    assert Pow2(shift) == 2 * Pow2(shift - 1) && Pow2(shift - 1) == 2 * Pow2(shift - 2);
    assert Pow2(shift - 2) == 2 * Pow2(shift - 3) && Pow2(shift - 3) == 2 * Pow2(shift - 4);
    assert Pow2(shift - 4) == 2 * Pow2(shift - 5) && Pow2(shift - 5) == 2 * Pow2(shift - 6);
    assert Pow2(shift - 6) == 2 * Pow2(shift - 7);
  }

  /** The quotient y / x scaled by 2^shift (my_div on such vectors). */
  function Slope(r: Turned, shift: nat): (t: nat)
    requires 0 <= r.y < r.x && shift >= 7
    ensures t < 128 * Pow2(shift - 7)
  {
    hide Pow2;
    Scales(shift);
    Scaled(r.y, r.x, Pow2(shift));
    r.y * Pow2(shift) / r.x
  }

  /** The result of atan2Lerp; the quotient y / x is scaled by 2^shift. */
  function Angle(y: int, x: int, shift: nat): nat
    requires shift >= 7
  {
    if y == 0 then if x >= 0 then 0 else 0x1_0000
    else
      OctantifyTurns(x, y);
      var r := Octantify(x, y);
      r.octant * 0x4000 + Lerp(Slope(r, shift), Pow2(shift - 7)) / 2
  }

  lemma {:induction false} HalfBelow(a: nat)
    requires a < 0x8000
    ensures a / 2 < 0x4000
  {
  }

  /** The angle lies in the octant of the vector, within a full turn. */
  lemma {:induction false} AngleInOctant(y: int, x: int, shift: nat)
    requires shift >= 7 && (x != 0 || y != 0)
    ensures Angle(y, x, shift) < 0x2_0000
    ensures Angle(y, x, shift) / 0x4000 == Octant(x, y)
  {
    hide Lerp, Lut, Octantify, Slope, Pow2;
    if y != 0 {
      OctantifyTurns(x, y);
      var r := Octantify(x, y);
      LerpRange(Slope(r, shift), Pow2(shift - 7));
      HalfBelow(Lerp(Slope(r, shift), Pow2(shift - 7)));
    }
  }

  /** Of two vectors turned into the first half quadrant, the steeper has the larger quotient. */
  lemma QuotientOfSteeper(py: nat, px: nat, qy: nat, qx: nat, scale: nat)
    requires py < px && qy < qx && scale > 0 && py * qx <= qy * px
    ensures py * scale / px <= qy * scale / qx
  {
    var t := py * scale / px;
    Division(py * scale, px);
    Multiplied(t * px, py * scale, qx);
    Multiplied(py * qx, qy * px, scale);
    Swapped(t, px, qx);
    Swapped(py, scale, qx);
    Swapped(qy, px, scale);
    Cancelled(t * qx, qy * scale, px);
    QuotientAtLeast(t, qy * scale, qx);
  }

  lemma Swapped(a: nat, b: nat, c: nat)
    ensures a * b * c == a * c * b
  {
  }

  lemma Cancelled(a: nat, b: nat, d: nat)
    requires d > 0 && a * d <= b * d
    ensures a <= b
  {
    if b < a {
      Multiplied(b, a, d);
    }
  }

  /** In one octant the angle grows with the true angle: if q does not lie to the right of p, it
      does not have a smaller angle. */
  lemma {:induction false} AngleGrows(py: int, px: int, qy: int, qx: int, shift: nat)
    requires shift >= 7 && (px != 0 || py != 0) && (qx != 0 || qy != 0)
    requires Octant(px, py) == Octant(qx, qy) && px * qy - py * qx >= 0
    ensures Angle(py, px, shift) <= Angle(qy, qx, shift)
  {
    if py == 0 {
      AngleInOctant(qy, qx, shift);
    } else if qy == 0 {
      NotAgainstAxis(px, py, qx);
    } else {
      hide Lerp, Octantify, Octant, Pow2;
      OctantifyTurns(px, py);
      OctantifyTurns(qx, qy);
      var p, q := Octantify(px, py), Octantify(qx, qy);
      TurnedCross(px, py, qx, qy);
      QuotientOfSteeper(p.y, p.x, q.y, q.x, Pow2(shift));
      LerpRises(Slope(p, shift), Slope(q, shift), Pow2(shift - 7));
      HalfRises(Lerp(Slope(p, shift), Pow2(shift - 7)), Lerp(Slope(q, shift), Pow2(shift - 7)));
    }
  }

  lemma HalfRises(a: nat, b: nat)
    requires a <= b
    ensures a / 2 <= b / 2
  {
  }

  lemma NotAgainstAxis(px: int, py: int, qx: int)
    requires py != 0 && qx != 0 && Octant(px, py) == Octant(qx, 0)
    ensures px * 0 - py * qx < 0
  {
  }

  lemma TurnedCross(px: int, py: int, qx: int, qy: int)
    requires py != 0 && qy != 0 && Octant(px, py) == Octant(qx, qy) && px * qy - py * qx >= 0
    ensures var p, q := Octantify(px, py), Octantify(qx, qy);
            p.y * q.x <= q.y * p.x
  {
    hide Octantify;
    OctantifyKeepsCross(px, py, qx, qy);
    var p, q := Octantify(px, py), Octantify(qx, qy);
    assert q.y * p.x == p.x * q.y;
  }

  /** A vector in an earlier octant has a smaller angle. */
  lemma {:induction false} AngleGrowsWithOctant(py: int, px: int, qy: int, qx: int, shift: nat)
    requires shift >= 7 && (px != 0 || py != 0) && (qx != 0 || qy != 0)
    requires Octant(px, py) < Octant(qx, qy)
    ensures Angle(py, px, shift) < Angle(qy, qx, shift)
  {
    hide Angle, Octant;
    AngleInOctant(py, px, shift);
    AngleInOctant(qy, qx, shift);
  }

  // ---------------------------------------------------------------- in machine words

  function Abs(x: int): nat {
    if x < 0 then -x else x
  }

  /** The vectors on which no step of the turn leaves the signed words: both sides can be negated,
      and their sum fits if the last step, which adds them, is taken. */
  predicate TurnFits(x: int, y: int) {
    y == 0 ||
    (Abs(x) < 0x8000_0000 && Abs(y) < 0x8000_0000 && (Octant(x, y) % 2 == 1 ==> Abs(x) + Abs(y) < 0x8000_0000))
  }

  lemma Pow2Values()
    ensures Pow2(23) == 0x80_0000 && Pow2(30) == 0x4000_0000
  {
    assert Pow2(5) == 32 && Pow2(10) == 1024 && Pow2(15) == 0x8000 && Pow2(20) == 0x10_0000;
    assert Pow2(25) == 0x200_0000;
  }

  lemma ProductFits(a: nat, b: nat, m: nat, n: nat)
    requires a <= m && b <= n
    ensures a * b <= m * n
  {
    Multiplied(a, m, b);
    Multiplied(b, n, m);
  }

  /** atan2Lerp, on exactly the vectors on which no step overflows. */
  method Atan2Lerp(y0: Int32, x0: Int32, shift: nat) returns (angle: Uint32)
    requires 7 <= shift <= 30
    requires TurnFits(x0, y0)
    ensures angle == Angle(y0, x0, shift)
  {
    hide Lerp, Slope, Octantify, Pow2;
    if y0 == 0 {
      return if x0 >= 0 then 0 else 0x1_0000;
    }
    var x, y, phi := TurnIntoOctant(x0, y0);
    var t := MyDiv(y, x, shift, phi);
    var turned := Interpolate(t, shift);
    AngleInOctant(y0, x0, shift);
    phi := phi * 0x4000;
    angle := phi + turned / 2;
  }

  /** my_div, on a turned vector. */
  method MyDiv(y: Int32, x: Int32, shift: nat, ghost o: nat) returns (t: Uint32)
    requires 0 <= y < x && 7 <= shift <= 30
    ensures t == Slope(Turned(x, y, o), shift)
  {
    hide Pow2, Slope;
    var scale := Pow2(shift);
    SlopeIs(y, x, shift, o);
    var numerator: Int64 := y * scale;
    t := numerator / x;
  }

  lemma SlopeIs(y: nat, x: nat, shift: nat, o: nat)
    requires y < x < 0x8000_0000 && 7 <= shift <= 30
    ensures Slope(Turned(x, y, o), shift) == y * Pow2(shift) / x < 0x1_0000_0000
    ensures y * Pow2(shift) <= 0x8000_0000 * 0x4000_0000
  {
    hide Pow2;
    Pow2Values();
    Pow2Rises(shift, 30);
    ProductFits(y, Pow2(shift), 0x8000_0000, 0x4000_0000);
    Scaled(y, x, Pow2(shift));
  }

  method Interpolate(t: Uint32, shift: nat) returns (r: Uint32)
    requires 7 <= shift <= 30 && t < 128 * Pow2(shift - 7)
    ensures r == Lerp(t, Pow2(shift - 7)) < 0x8000
  {
    hide Lut, Pow2;
    Pow2Values();
    Pow2Rises(shift - 7, 23);
    var stride: Uint32 := Pow2(shift - 7);
    LerpRange(t, stride);
    Division(t, stride);
    var h: Uint32 := t % stride;
    LutGrows(t / stride);
    LutRises(t / stride, t / stride + 1);
    var fa: Uint32 := Lut(t / stride);
    var fb: Uint32 := Lut(t / stride + 1);
    ProductFits(fb - fa, h, 326, 0x80_0000);
    var between: Uint32 := (fb - fa) * h;
    r := fa + between / stride;
  }

  /** The macro OCTANTIFY. */
  method TurnIntoOctant(x0: Int32, y0: Int32) returns (x: Int32, y: Int32, o: nat)
    requires y0 != 0 && TurnFits(x0, y0)
    ensures Turned(x, y, o) == Octantify(x0, y0) && 0 <= y < x && o < 8
  {
    x, y, o := x0, y0, 0;
    if y < 0 {
      x := -x;
      y := -y;
      o := o + 4;
    }
    if x <= 0 {
      var t: Int32 := x;
      x := y;
      y := -t;
      o := o + 2;
    }
    if x <= y {
      var t: Int32 := y - x;
      x := x + y;
      y := t;
      o := o + 1;
    }
    OctantifyTurns(x0, y0);
  }
}
