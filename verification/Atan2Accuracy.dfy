/** How close atan2Lerp is to the angle of its vector. The angle between two rays is not a rational
    number, but it lies between sine times cosine and the tangent, which are; and so it does for each
    two neighbours of a fan of rays, however fine. */
module Atan2Accuracy {
  import opened Arithmetic
  import opened Atan2

  // ---------------------------------------------------------------- rays

  /** The vector product of the vectors (1, a) and (1, b). */
  function Across(a: real, b: real): real {
    b - a
  }

  /** And their scalar product. */
  function Dot(a: real, b: real): real {
    1.0 + a * b
  }

  /** The tangent of the angle from the ray of slope a to the ray of slope b. */
  function Tan(a: real, b: real): real
    requires 0.0 <= a && 0.0 <= b
  {
    assert 0.0 <= a * b;
    Across(a, b) / Dot(a, b)
  }

  function Grid(i: nat): (s: real)
    ensures s >= 0.0
  {
    i as real / 128.0
  }

  /** The sum of the tangents between the first rays of the table. */
  function Arc(i: nat): real {
    if i == 0 then 0.0 else Arc(i - 1) + Tan(Grid(i - 1), Grid(i))
  }

  function Base(i: nat): (n: real)
    ensures n >= 16384.0
  {
    assert i * i >= 0;
    (16384 + i * i) as real
  }

  lemma GridTan(i: nat)
    ensures Base(i) + i as real == (16384 + i * i + i) as real
    ensures Tan(Grid(i), Grid(i + 1)) == 128.0 / (Base(i) + i as real)
  {
    var a, b, n := Grid(i), Grid(i + 1), (16384 + i * i + i) as real;
    assert b - a == 1.0 / 128.0;
    assert a * b == (i * i + i) as real / 16384.0 by {
      assert (i as real) * ((i + 1) as real) == (i * i + i) as real;
    }
    assert 1.0 + a * b == n / 16384.0;
    assert (1.0 / 128.0) / (n / 16384.0) == 128.0 / n;
  }

  // ---------------------------------------------------------------- the table

  // 41721.5 units of the table are one radian.

  /** A tangent between neighbouring rays in 4096ths of a unit, rounded down. */
  predicate TangentOf(i: nat, tangent: nat) {
    var n := 16384 + i * i + i;
    tangent * n <= 21874081792 < (tangent + 1) * n
  }

  /** A sum of such tangents. */
  predicate SumOf(i: nat, sum: nat) {
    sum as real <= 4096.0 * 41721.5 * Arc(i) <= (sum + i) as real
  }

  lemma Between(a: real, t: real, b: real, n: real)
    requires n > 0.0 && a * n <= t * n <= b * n
    ensures a <= t <= b
  {
    assert t < a ==> (a - t) * n > 0.0;
    assert b < t ==> (t - b) * n > 0.0;
  }

  lemma SumMore(i: nat, sum: nat, tangent: nat)
    requires SumOf(i, sum) && TangentOf(i, tangent)
    ensures SumOf(i + 1, sum + tangent)
  {
    GridTan(i);
    hide Tan, Base;
    var n := 16384 + i * i + i;
    var t := 4096.0 * 41721.5 * (128.0 / n as real);
    assert t * n as real == 21874081792.0;
    assert tangent as real * n as real <= 21874081792.0 && 21874081792.0 <= (tangent + 1) as real * n as real;
    Between(tangent as real, t, (tangent + 1) as real, n as real);
  }

  predicate Near(entry: nat, sum: nat) {
    -3801 < entry * 4096 - sum < 1277
  }

  /** The entry of the table for a slope, and how far it is from the arc, in units. */
  predicate NearArc(i: nat)
    requires i <= 128
  {
    -1.0 < Lut(i) as real - 41721.5 * Arc(i) < 0.32
  }

  predicate RowNear(r: nat)
    requires r < 16
  {
    forall i :: 8 * r <= i < 8 * r + 8 ==> NearArc(i)
  }

  lemma NearBySum(r: nat, j: nat, sum: nat)
    requires r < 16 && j < 8 && SumOf(8 * r + j, sum) && Near(Row(r)[j], sum)
    ensures NearArc(8 * r + j)
  {
    assert (8 * r + j) / 8 == r && (8 * r + j) % 8 == j;
    hide Row, Arc;
  }

  /** A row of the table, given the sum of the tangents before it and the tangents in it. */
  lemma RowChain(r: nat, q: nat, t0: nat, t1: nat, t2: nat, t3: nat, t4: nat, t5: nat, t6: nat, t7: nat)
    requires r < 16 && SumOf(8 * r, q)
    requires TangentOf(8 * r, t0) && TangentOf(8 * r + 1, t1) && TangentOf(8 * r + 2, t2) && TangentOf(8 * r + 3, t3)
    requires TangentOf(8 * r + 4, t4) && TangentOf(8 * r + 5, t5) && TangentOf(8 * r + 6, t6) && TangentOf(8 * r + 7, t7)
    requires Near(Row(r)[0], q) && Near(Row(r)[1], q + t0) && Near(Row(r)[2], q + t0 + t1)
    requires Near(Row(r)[3], q + t0 + t1 + t2) && Near(Row(r)[4], q + t0 + t1 + t2 + t3)
    requires Near(Row(r)[5], q + t0 + t1 + t2 + t3 + t4) && Near(Row(r)[6], q + t0 + t1 + t2 + t3 + t4 + t5)
    requires Near(Row(r)[7], q + t0 + t1 + t2 + t3 + t4 + t5 + t6)
    ensures RowNear(r) && SumOf(8 * r + 8, q + t0 + t1 + t2 + t3 + t4 + t5 + t6 + t7)
  {
    hide SumOf, TangentOf, Near, NearArc, Row;
    var i := 8 * r;
    SumMore(i, q, t0);
    SumMore(i + 1, q + t0, t1);
    SumMore(i + 2, q + t0 + t1, t2);
    SumMore(i + 3, q + t0 + t1 + t2, t3);
    SumMore(i + 4, q + t0 + t1 + t2 + t3, t4);
    SumMore(i + 5, q + t0 + t1 + t2 + t3 + t4, t5);
    SumMore(i + 6, q + t0 + t1 + t2 + t3 + t4 + t5, t6);
    SumMore(i + 7, q + t0 + t1 + t2 + t3 + t4 + t5 + t6, t7);
    NearBySum(r, 0, q);
    NearBySum(r, 1, q + t0);
    NearBySum(r, 2, q + t0 + t1);
    NearBySum(r, 3, q + t0 + t1 + t2);
    NearBySum(r, 4, q + t0 + t1 + t2 + t3);
    NearBySum(r, 5, q + t0 + t1 + t2 + t3 + t4);
    NearBySum(r, 6, q + t0 + t1 + t2 + t3 + t4 + t5);
    NearBySum(r, 7, q + t0 + t1 + t2 + t3 + t4 + t5 + t6);
  }

  lemma RowsFrom0()
    requires SumOf(0, 0)
    ensures RowNear(0) && RowNear(1) && SumOf(16, 21251604)
  {
    hide SumOf, RowNear;
    RowChain(0, 0, 1335088, 1334925, 1334599, 1334110, 1333460, 1332647, 1331674, 1330540);
    RowChain(1, 10667043, 1329246, 1327794, 1326184, 1324417, 1322495, 1320420, 1318192, 1315813);
  }

  lemma RowsFrom2()
    requires SumOf(16, 21251604)
    ensures RowNear(2) && RowNear(3) && SumOf(32, 41865518)
  {
    hide SumOf, RowNear;
    RowChain(2, 21251604, 1313285, 1310610, 1307789, 1304824, 1301718, 1298473, 1295090, 1291573);
    RowChain(3, 31674966, 1287922, 1284142, 1280234, 1276200, 1272044, 1267768, 1263375, 1258867);
  }

  lemma RowsFrom4()
    requires SumOf(32, 41865518)
    ensures RowNear(4) && RowNear(5) && SumOf(48, 61311900)
  {
    hide SumOf, RowNear;
    RowChain(4, 41865518, 1254247, 1249519, 1244684, 1239746, 1234707, 1229571, 1224341, 1219019);
    RowChain(5, 51761352, 1213608, 1208112, 1202533, 1196874, 1191139, 1185330, 1179450, 1173502);
  }

  lemma RowsFrom6()
    requires SumOf(48, 61311900)
    ensures RowNear(6) && RowNear(7) && SumOf(64, 79234703)
  {
    hide SumOf, RowNear;
    RowChain(6, 61311900, 1167489, 1161414, 1155280, 1149090, 1142846, 1136552, 1130209, 1123822);
    RowChain(7, 70478602, 1117392, 1110923, 1104416, 1097876, 1091303, 1084701, 1078072, 1071418);
  }

  lemma RowsFrom8()
    requires SumOf(64, 79234703)
    ensures RowNear(8) && RowNear(9) && SumOf(80, 95461304)
  {
    hide SumOf, RowNear;
    RowChain(8, 79234703, 1064743, 1058047, 1051335, 1044607, 1037866, 1031115, 1024355, 1017588);
    RowChain(9, 87564359, 1010817, 1004043, 997268, 990494, 983723, 976957, 970197, 963446);
  }

  lemma RowsFrom10()
    requires SumOf(80, 95461304)
    ensures RowNear(10) && RowNear(11) && SumOf(96, 109970409)
  {
    hide SumOf, RowNear;
    RowChain(10, 95461304, 956704, 949973, 943254, 936550, 929862, 923190, 916537, 909903);
    RowChain(11, 102927277, 903290, 896699, 890131, 883587, 877068, 870575, 864110, 857672);
  }

  lemma RowsFrom12()
    requires SumOf(96, 109970409)
    ensures RowNear(12) && RowNear(13) && SumOf(112, 122843546)
  {
    hide SumOf, RowNear;
    RowChain(12, 109970409, 851264, 844885, 838537, 832220, 825935, 819683, 813465, 807280);
    RowChain(13, 116603678, 801131, 795016, 788937, 782894, 776888, 770919, 764988, 759095);
  }

  lemma RowsFrom14()
    requires SumOf(112, 122843546)
    ensures RowNear(14) && RowNear(15) && SumOf(128, 134219522)
  {
    hide SumOf, RowNear;
    RowChain(14, 122843546, 753239, 747423, 741645, 735906, 730207, 724547, 718927, 713347);
    RowChain(15, 128708787, 707807, 702307, 696848, 691430, 686051, 680714, 675417, 670161);
  }

  /** Every entry of the table is the arc tangent of its slope to within one unit. */
  lemma TableIsArc(i: nat)
    requires i <= 128
    ensures NearArc(i)
  {
    hide NearArc, SumOf, RowNear;
    NoSum();
    RowsFrom0();
    RowsFrom2();
    RowsFrom4();
    RowsFrom6();
    RowsFrom8();
    RowsFrom10();
    RowsFrom12();
    RowsFrom14();
    if i == 128 {
      LastEntry();
    } else {
      InRow(i / 8, i);
    }
  }

  lemma NoSum()
    ensures SumOf(0, 0)
  {
  }

  lemma LastEntry()
    requires SumOf(128, 134219522)
    ensures NearArc(128)
  {
    LutEnds();
    hide Arc, Lut;
  }

  lemma InRow(r: nat, i: nat)
    requires r < 16 && RowNear(r) && 8 * r <= i < 8 * r + 8
    ensures NearArc(i)
  {
    hide NearArc;
  }

  /** Each step of the table is the step of the arc tangent to within one unit. */
  predicate StepOfArc(i: nat, entry: nat, next: nat) {
    var n := 16384 + i * i + i;
    Abs(2 * (next - entry) * n - 83443 * 128) < 2 * n
  }

  lemma LowerSteps(r: nat, j: nat)
    requires r < 8 && j < 8
    ensures StepOfArc(8 * r + j, Row(r)[j], if j < 7 then Row(r)[j + 1] else Row(r + 1)[0])
  {
  }

  lemma UpperSteps(r: nat, j: nat)
    requires 8 <= r < 16 && j < 8
    ensures StepOfArc(8 * r + j, Row(r)[j], if j < 7 then Row(r)[j + 1] else Row(r + 1)[0])
  {
  }

  lemma TableStep(i: nat)
    requires i < 128
    ensures StepOfArc(i, Lut(i), Lut(i + 1))
  {
    hide Row, StepOfArc, Lut;
    NextEntry(i / 8, i % 8);
    if i < 64 {
      LowerSteps(i / 8, i % 8);
    } else {
      UpperSteps(i / 8, i % 8);
    }
  }

  lemma NextEntry(r: nat, j: nat)
    requires r < 16 && j < 8
    ensures Lut(8 * r + j) == Row(r)[j]
    ensures Lut(8 * r + j + 1) == if j < 7 then Row(r)[j + 1] else Row(r + 1)[0]
  {
    hide Row;
    assert (8 * r + j) / 8 == r && (8 * r + j) % 8 == j;
    assert j < 7 ==> (8 * r + j + 1) / 8 == r && (8 * r + j + 1) % 8 == j + 1;
    assert j == 7 ==> (8 * r + j + 1) / 8 == r + 1 && (8 * r + j + 1) % 8 == 0;
  }


  // ---------------------------------------------------------------- interpolation

  /** The rays of the table between which a slope lies begin with this one. */
  function Cell(s: real): nat
    requires 0.0 <= s
  {
    (128.0 * s).Floor
  }

  /** The sum of the tangents up to a slope. */
  function ArcTo(s: real): real
    requires 0.0 <= s
  {
    Arc(Cell(s)) + Tan(Grid(Cell(s)), s)
  }

  lemma NotNegative(a: real, b: real)
    requires a >= 0.0 && b >= 0.0
    ensures a * b >= 0.0
  {
  }

  lemma HalfProduct(f: real)
    requires 0.0 <= f <= 1.0
    ensures 0.0 <= f * (1.0 - f) <= 0.25
  {
    NotNegative(f, 1.0 - f);
    assert 0.25 - f * (1.0 - f) == (f - 0.5) * (f - 0.5);
  }

  /** Between two rays of the table the tangent is a little above its chord. */
  lemma ChordOfTangent(n: real, k: real, f: real)
    requires n >= 16384.0 && 0.0 <= k <= 127.0 && 0.0 <= f <= 1.0
    ensures n + k * f >= n && n + k > 0.0
    ensures f * (128.0 / (n + k)) <= 128.0 * f / (n + k * f) <= f * (128.0 / (n + k)) + 1.0 / 65536.0
  {
    var m, d := n + k, n + k * f;
    assert k * f >= 0.0;
    assert m - d == k * (1.0 - f);
    ExcessIs(f, d, m, k);
    HalfProduct(f);
    SmallProduct(k, f * (1.0 - f));
    LargeProduct(d, m);
    SmallQuotient(128.0 * k * (f * (1.0 - f)), d * m);
  }

  lemma SmallProduct(k: real, g: real)
    requires 0.0 <= k <= 127.0 && 0.0 <= g <= 0.25
    ensures 0.0 <= 128.0 * k * g <= 4064.0
  {
    assert 128.0 * k * g == 128.0 * (k * g);
    NotNegative(k, g);
    NotNegative(k, 0.25 - g);
    assert k * (0.25 - g) == k * 0.25 - k * g;
  }

  lemma LargeProduct(d: real, m: real)
    requires d >= 16384.0 && m >= 16384.0
    ensures d * m >= 268435456.0
  {
    assert d * m >= 16384.0 * m;
  }

  lemma ExcessIs(f: real, d: real, m: real, k: real)
    requires d > 0.0 && m > 0.0 && m - d == k * (1.0 - f)
    ensures d * m > 0.0
    ensures 128.0 * f / d - f * (128.0 / m) == 128.0 * k * (f * (1.0 - f)) / (d * m)
  {
    assert d * m > 0.0;
    assert 128.0 * f / d == 128.0 * f * m / (d * m);
    assert f * (128.0 / m) == 128.0 * f * d / (d * m);
    assert 128.0 * f * m - 128.0 * f * d == 128.0 * f * (m - d);
    assert 128.0 * f * (k * (1.0 - f)) == 128.0 * k * (f * (1.0 - f));
  }

  lemma SmallQuotient(p: real, q: real)
    requires 0.0 <= p <= 4064.0 && q >= 268435456.0
    ensures 0.0 <= p / q <= 1.0 / 65536.0
  {
    assert p * 65536.0 <= q;
    assert p / q * q == p;
    Between(0.0, p / q, 1.0 / 65536.0, q);
  }

  lemma Ordered(a: real, b: real, n: real)
    requires n > 0.0
    ensures a <= b <==> a * n <= b * n
    ensures a < b <==> a * n < b * n
  {
    assert b * n - a * n == (b - a) * n;
    if a < b {
      assert (b - a) * n > 0.0;
    } else {
      NotNegative(a - b, n);
      assert (a - b) * n == a * n - b * n;
    }
  }

  function Times(a: real, b: real): real {
    a * b
  }

  lemma TimesOrdered(a: real, b: real, n: real)
    requires n > 0.0
    ensures Times(a, n) <= Times(b, n) ==> a <= b
    ensures Times(a, n) < Times(b, n) ==> a < b
  {
    Ordered(a, b, n);
  }

  lemma RoundsBelow(d: real, f: real, w: real, h: real, q: real, c: real)
    requires 0.0 <= d <= 326.0 && w > 0.0 && h <= Times(f, w) < h + 1.0 && Times(c, w) == 326.0
    requires Times(q, w) <= Times(d, h) < Times(q + 1.0, w)
    ensures q <= Times(d, f) < q + 1.0 + c
  {
    hide Times;
    WithinStep(d, Times(f, w), h);
    Regroup(d, f, w, q, c);
    TimesOrdered(q, Times(d, f), w);
    TimesOrdered(Times(d, f), q + 1.0 + c, w);
  }

  lemma Regroup(d: real, f: real, w: real, q: real, c: real)
    ensures Times(Times(d, f), w) == Times(d, Times(f, w))
    ensures Times(q + 1.0 + c, w) == Times(q + 1.0, w) + Times(c, w)
  {
  }

  lemma WithinStep(d: real, g: real, h: real)
    requires d >= 0.0 && h <= g < h + 1.0
    ensures Times(d, h) <= Times(d, g) <= Times(d, h) + d
  {
    NotNegative(d, g - h);
    NotNegative(d, h + 1.0 - g);
    assert d * (g - h) == d * g - d * h;
    assert d * (h + 1.0 - g) == d * h + d - d * g;
  }

  /** Interpolation in whole numbers is a little below interpolation. */
  lemma LerpRounds(fa: nat, fb: nat, h: nat, stride: nat, f: real)
    requires fa <= fb <= fa + 326 && stride > 0
    requires h as real <= f * stride as real < h as real + 1.0
    ensures var exact := fa as real + (fb - fa) as real * f;
            exact - 1.0 - 326.0 / stride as real < LerpAt(fa, fb, h, stride) as real <= exact
  {
    var d, q := fb - fa, (fb - fa) * h / stride;
    RoundedDown(d, h, stride);
    ToReal(d, h, q, stride);
    var c := 326.0 / stride as real;
    assert c * stride as real == 326.0;
    RoundsBelow(d as real, f, stride as real, h as real, q as real, c);
  }

  lemma RoundedDown(d: nat, h: nat, stride: nat)
    requires stride > 0
    ensures var q := d * h / stride;
            q * stride <= d * h < (q + 1) * stride
  {
    Division(d * h, stride);
  }

  lemma ToReal(d: nat, h: nat, q: nat, w: nat)
    requires q * w <= d * h < (q + 1) * w
    ensures q as real * w as real <= d as real * h as real < (q as real + 1.0) * w as real
  {
    assert (q * w) as real == q as real * w as real;
    assert (d * h) as real == d as real * h as real;
    assert ((q + 1) * w) as real == (q as real + 1.0) * w as real;
  }

  /** Where a quotient lies in the table. */
  lemma Position(t: nat, stride: nat, v: real)
    requires stride > 0 && t as real <= v * stride as real < t as real + 1.0
    ensures var i, h := t / stride, t % stride;
            && i as real <= v < i as real + 1.0
            && h as real <= (v - i as real) * stride as real < h as real + 1.0
  {
    Division(t, stride);
    var i, h, w := t / stride, t % stride, stride as real;
    assert (i * stride) as real == i as real * w;
    assert (v - i as real) * w == v * w - i as real * w;
    assert (i as real + 1.0) * w == i as real * w + w;
    Ordered(i as real, v, w);
    Ordered(v, i as real + 1.0, w);
  }

  lemma CellTan(i: nat, f: real)
    requires 0.0 <= f
    ensures Base(i) + i as real * f > 0.0
    ensures Grid(i) + f / 128.0 >= 0.0
    ensures Tan(Grid(i), Grid(i) + f / 128.0) == 128.0 * f / (Base(i) + i as real * f)
  {
    var k := i as real;
    NotNegative(k, f);
    var d := 16384.0 + k * k + k * f;
    assert (16384 + i * i) as real == 16384.0 + k * k;
    var a := Grid(i);
    assert a * (a + f / 128.0) == (k * k + k * f) / 16384.0;
    assert 1.0 + a * (a + f / 128.0) == d / 16384.0;
    assert (f / 128.0) / (d / 16384.0) == 128.0 * f / d;
  }

  lemma Mixed(a: real, b: real, f: real, low: real, high: real)
    requires 0.0 <= f <= 1.0 && low < a < high && low < b < high
    ensures low < (1.0 - f) * a + f * b < high
  {
    var g := 1.0 - f;
    if f == 0.0 {
    } else {
      NotNegative(g, a - low);
      NotNegative(g, high - a);
      assert f * (b - low) > 0.0 && f * (high - b) > 0.0;
      assert g * (a - low) == g * a - g * low && g * (high - a) == g * high - g * a;
      assert f * (b - low) == f * b - f * low && f * (high - b) == f * high - f * b;
      assert g * low + f * low == low && g * high + f * high == high;
    }
  }

  lemma Combined(l: real, fa: real, fb: real, f: real, arc: real, step: real, tan: real, w: real)
    requires 0.0 <= f < 1.0
    requires -1.0 < fa - 41721.5 * arc < 0.32 && -1.0 < fb - 41721.5 * (arc + step) < 0.32
    requires f * step <= tan <= f * step + 1.0 / 65536.0
    requires fa + (fb - fa) * f - 1.0 - w < l <= fa + (fb - fa) * f
    ensures -2.64 - w < l - 41721.5 * (arc + tan) < 0.32
  {
    var e0, e1 := fa - 41721.5 * arc, fb - 41721.5 * (arc + step);
    Mixed(e0, e1, f, -1.0, 0.32);
    assert fa + (fb - fa) * f == (1.0 - f) * fa + f * fb;
    assert (1.0 - f) * e0 + f * e1 == (1.0 - f) * fa + f * fb - 41721.5 * (arc + f * step) by {
      assert (1.0 - f) * (41721.5 * arc) + f * (41721.5 * (arc + step)) == 41721.5 * (arc + f * step);
    }
  }

  lemma QuotientIn(t: real, x: real, y: real, p: real)
    requires x > 0.0 && t * x <= y * p < (t + 1.0) * x
    ensures t <= y / x * p < t + 1.0
  {
    var s := y / x;
    assert s * x == y;
    assert s * p * x == y * p;
    Ordered(t, s * p, x);
    Ordered(s * p, t + 1.0, x);
  }

  lemma SlopeCut(r: Turned, shift: nat)
    requires 0 <= r.y < r.x && shift >= 7
    ensures var t := Slope(r, shift);
            t * r.x <= r.y * Pow2(shift) < (t + 1) * r.x
  {
    hide Pow2;
    Division(r.y * Pow2(shift), r.x);
  }

  /** A slope y / x as it is read from the table. */
  lemma SlopeRead(r: Turned, shift: nat)
    requires 0 <= r.y < r.x && shift >= 7
    ensures var v := 128.0 * (r.y as real / r.x as real);
            Slope(r, shift) as real <= v * Pow2(shift - 7) as real < Slope(r, shift) as real + 1.0
  {
    hide Pow2, Slope;
    Scales(shift);
    SlopeCut(r, shift);
    ProductsToReal(Slope(r, shift), r.x, r.y, Pow2(shift));
    QuotientIn(Slope(r, shift) as real, r.x as real, r.y as real, Pow2(shift) as real);
  }

  lemma ProductsToReal(t: nat, x: nat, y: nat, p: nat)
    requires t * x <= y * p < (t + 1) * x
    ensures t as real * x as real <= y as real * p as real < (t as real + 1.0) * x as real
  {
    assert (t * x) as real == t as real * x as real;
    assert (y * p) as real == y as real * p as real;
    assert ((t + 1) * x) as real == (t as real + 1.0) * x as real;
  }

  lemma InCell(t: nat, stride: nat, s: real)
    requires stride > 0 && t < 128 * stride && 0.0 <= s
    requires t as real <= 128.0 * s * stride as real < t as real + 1.0
    ensures var i, f := t / stride, 128.0 * s - (t / stride) as real;
            && i < 128 && Cell(s) == i && Grid(i) + f / 128.0 == s && 0.0 <= f < 1.0
            && (t % stride) as real <= f * stride as real < (t % stride) as real + 1.0
  {
    Position(t, stride, 128.0 * s);
    IndexInTable(t, stride);
  }

  /** What is read from the table for a slope is its arc, within three units and what the slope is cut
      off by. */
  lemma LerpNear(r: Turned, shift: nat)
    requires 0 <= r.y < r.x && shift >= 7
    ensures var s := r.y as real / r.x as real;
            && 0.0 <= s
            && -2.64 - 326.0 / Pow2(shift - 7) as real
             < Lerp(Slope(r, shift), Pow2(shift - 7)) as real - 41721.5 * ArcTo(s) < 0.32
  {
    hide Pow2, Slope, Lerp, ArcTo;
    SlopeRead(r, shift);
    LerpNearIn(Slope(r, shift), Pow2(shift - 7), r.y as real / r.x as real);
  }

  lemma LerpNearIn(t: nat, stride: nat, s: real)
    requires stride > 0 && t < 128 * stride && 0.0 <= s
    requires t as real <= 128.0 * s * stride as real < t as real + 1.0
    ensures -2.64 - 326.0 / stride as real < Lerp(t, stride) as real - 41721.5 * ArcTo(s) < 0.32
  {
    hide Lut, LerpAt, Arc, Tan, Grid, Cell;
    InCell(t, stride, s);
    var i, f := t / stride, 128.0 * s - (t / stride) as real;
    var a, b := Lut(i), Lut(i + 1);
    LutGrows(i);
    LerpRounds(a, b, t % stride, stride, f);
    NearEntries(i);
    CellArc(i, f);
    Combined(LerpAt(a, b, t % stride, stride) as real, a as real, b as real, f, Arc(i), Tan(Grid(i), Grid(i + 1)),
             Tan(Grid(i), s), 326.0 / stride as real);
  }

  lemma NearEntries(i: nat)
    requires i < 128
    ensures -1.0 < Lut(i) as real - 41721.5 * Arc(i) < 0.32
    ensures -1.0 < Lut(i + 1) as real - 41721.5 * (Arc(i) + Tan(Grid(i), Grid(i + 1))) < 0.32
  {
    hide Lut, Tan;
    TableIsArc(i);
    TableIsArc(i + 1);
  }

  lemma CellArc(i: nat, f: real)
    requires i < 128 && 0.0 <= f < 1.0
    ensures Grid(i) + f / 128.0 >= 0.0
    ensures var step, tan := Tan(Grid(i), Grid(i + 1)), Tan(Grid(i), Grid(i) + f / 128.0);
            f * step <= tan <= f * step + 1.0 / 65536.0
  {
    hide Tan, Grid, Base;
    GridTan(i);
    CellTan(i, f);
    ChordIs(Base(i), i as real, f, Tan(Grid(i), Grid(i + 1)), Tan(Grid(i), Grid(i) + f / 128.0));
  }

  lemma ChordIs(n: real, k: real, f: real, step: real, tan: real)
    requires n >= 16384.0 && 0.0 <= k <= 127.0 && 0.0 <= f <= 1.0
    requires n + k > 0.0 && n + k * f > 0.0 && step == 128.0 / (n + k) && tan == 128.0 * f / (n + k * f)
    ensures f * step <= tan <= f * step + 1.0 / 65536.0
  {
    ChordOfTangent(n, k, f);
  }

  // ---------------------------------------------------------------- the angle between two rays

  /** Sine times cosine of the angle from the ray of slope a to the ray of slope b. */
  function SinCos(a: real, b: real): real
    requires 0.0 <= a && 0.0 <= b
  {
    assert Dot(a, a) * Dot(b, b) > 0.0;
    Across(a, b) * Dot(a, b) / (Dot(a, a) * Dot(b, b))
  }

  lemma TanTimes(a: real, b: real)
    requires 0.0 <= a && 0.0 <= b
    ensures Dot(a, b) >= 1.0 && Tan(a, b) * Dot(a, b) == Across(a, b)
    ensures a <= b ==> Tan(a, b) >= 0.0 && Across(a, b) >= 0.0
  {
    NotNegative(a, b);
    Ordered(0.0, Tan(a, b), Dot(a, b));
  }

  lemma SinCosTimes(a: real, b: real)
    requires 0.0 <= a && 0.0 <= b
    ensures Dot(a, a) >= 1.0 && Dot(b, b) >= 1.0
    ensures SinCos(a, b) * (Dot(a, a) * Dot(b, b)) == Across(a, b) * Dot(a, b)
  {
    NotNegative(a, a);
    NotNegative(b, b);
    AtLeastOne(Dot(a, a), Dot(b, b));
  }

  lemma AtLeastOne(p: real, q: real)
    requires p >= 1.0 && q >= 1.0
    ensures p * q >= 1.0
  {
    NotNegative(p - 1.0, q - 1.0);
    assert p * q == p + q - 1.0 + (p - 1.0) * (q - 1.0);
  }

  /** A quotient of which the divisor is at least one. */
  predicate Quotient(t: real, c: real, d: real) {
    d >= 1.0 && t * d == c
  }

  lemma TanIs(a: real, b: real)
    requires 0.0 <= a <= b
    ensures Tan(a, b) >= 0.0 && Quotient(Tan(a, b), Across(a, b), Dot(a, b))
  {
    TanTimes(a, b);
  }

  lemma SinCosIs(a: real, b: real)
    requires 0.0 <= a && 0.0 <= b
    ensures Dot(a, a) >= 1.0 && Quotient(SinCos(a, b), Across(a, b) * Dot(a, b), Dot(a, a) * Dot(b, b))
  {
    SinCosTimes(a, b);
    AtLeastOne(Dot(a, a), Dot(b, b));
  }

  /** Seen from a third ray before them, less than 1 / 128 away, the tangents of two rays differ by the
      tangent of the angle between them, and a little. */
  lemma TangentsDiffer(a: real, b: real, g: real)
    requires 0.0 <= g <= a <= b <= g + 1.0 / 128.0
    ensures Tan(a, b) <= Tan(g, b) - Tan(g, a) <= Tan(a, b) * (1.0 + 1.0 / 16384.0)
  {
    hide Tan, Dot, Across, Quotient, FromThird;
    TanIs(g, a);
    TanIs(g, b);
    TanIs(a, b);
    Products(a, b, g);
    DifferenceIs(Dot(g, a), Dot(g, b), Dot(a, b), Dot(g, g), Across(g, a), Across(g, b), Across(a, b), Tan(g, a), Tan(g, b), Tan(a, b));
  }

  /** How the products of two vectors follow from those with a third one. */
  predicate FromThird(p: real, q: real, r: real, k: real, u: real, v: real, w: real) {
    v * p - u * q == w * k && r * k == p * q + u * v && 0.0 <= u * v <= 1.0 / 16384.0
  }

  lemma Products(a: real, b: real, g: real)
    requires 0.0 <= g <= a <= b <= g + 1.0 / 128.0
    ensures FromThird(Dot(g, a), Dot(g, b), Dot(a, b), Dot(g, g), Across(g, a), Across(g, b), Across(a, b))
  {
    SmallSquare(a - g, b - g);
    assert Dot(a, b) * Dot(g, g) == Dot(g, a) * Dot(g, b) + Across(g, a) * Across(g, b);
    assert Across(g, b) * Dot(g, a) - Across(g, a) * Dot(g, b) == Across(a, b) * Dot(g, g);
  }

  lemma SmallSquare(x: real, y: real)
    requires 0.0 <= x <= 1.0 / 128.0 && 0.0 <= y <= 1.0 / 128.0
    ensures 0.0 <= x * y <= 1.0 / 16384.0
  {
    NotNegative(x, y);
    NotNegative(1.0 / 128.0 - x, y);
    assert (1.0 / 128.0 - x) * y == 1.0 / 128.0 * y - x * y;
  }

  lemma DifferenceIs(p: real, q: real, r: real, k: real, u: real, v: real, w: real, ta: real, tb: real, t: real)
    requires t >= 0.0 && Quotient(ta, u, p) && Quotient(tb, v, q) && Quotient(t, w, r)
    requires FromThird(p, q, r, k, u, v, w)
    ensures t <= tb - ta <= t * (1.0 + 1.0 / 16384.0)
  {
    AtLeastOne(p, q);
    var n, e := p * q, u * v;
    assert (tb - ta) * n == tb * q * p - ta * p * q;
    assert t * r * k == t * (n + e);
    Excess(tb - ta, t, n, e);
  }

  lemma Excess(d: real, t: real, n: real, e: real)
    requires d * n == t * (n + e) && n >= 1.0 && 0.0 <= e <= 1.0 / 16384.0 && t >= 0.0
    ensures t <= d <= t * (1.0 + 1.0 / 16384.0)
  {
    var c := 1.0 / 16384.0;
    NotNegative(t, e);
    NotNegative(t, c - e);
    NotNegative(t, n - 1.0);
    assert t * (n + e) == t * n + t * e && t * (c - e) == t * c - t * e && t * (n - 1.0) == t * n - t;
    assert t * (1.0 + c) * n == t * n + c * (t * n);
    Ordered(t, d, n);
    Ordered(d, t * (1.0 + c), n);
  }

  /** A tangent is at least the sum of the tangents of two parts of its angle. */
  lemma TangentsAdd(a: real, m: real, b: real)
    requires 0.0 <= a <= m <= b
    ensures Tan(a, m) + Tan(m, b) <= Tan(a, b)
  {
    hide Tan, Dot, Across;
    TanTimes(a, m);
    TanTimes(m, b);
    TanTimes(a, b);
    ThreeTangents(a, m, b);
    SumBelow(Dot(a, m), Dot(m, b), Dot(a, b), Across(a, m), Across(m, b), Tan(a, m), Tan(m, b), Tan(a, b));
  }

  lemma ThreeTangents(a: real, m: real, b: real)
    ensures var u, v := Across(a, m), Across(m, b);
            && u + v == Across(a, b)
            && (u + v) * (Dot(a, m) * Dot(m, b)) == u * (Dot(m, b) * Dot(a, b)) + v * (Dot(a, m) * Dot(a, b)) + u * v * (u + v)
  {
  }

  lemma SumBelow(p: real, q: real, r: real, u: real, v: real, x: real, y: real, z: real)
    requires p >= 1.0 && q >= 1.0 && r >= 1.0 && u >= 0.0 && v >= 0.0
    requires x * p == u && y * q == v && z * r == u + v
    requires (u + v) * (p * q) == u * (q * r) + v * (p * r) + u * v * (u + v)
    ensures x + y <= z
  {
    AtLeastOne(p, q);
    AtLeastOne(p * q, r);
    NotNegative(u, v);
    NotNegative(u * v, u + v);
    var n := p * q * r;
    assert x * n == x * p * (q * r) && y * n == y * q * (p * r) && z * n == z * r * (p * q);
    assert (x + y) * n == x * n + y * n;
    Ordered(x + y, z, n);
  }

  /** Sine times cosine is at most the sum of those of two parts of its angle. */
  lemma SinCosAdd(a: real, m: real, b: real)
    requires 0.0 <= a <= m <= b
    ensures SinCos(a, b) <= SinCos(a, m) + SinCos(m, b)
  {
    hide SinCos, Dot, Across, Quotient, InTwoParts;
    SinCosIs(a, m);
    SinCosIs(m, b);
    SinCosIs(a, b);
    ThreeSinCos(a, m, b);
    SumAbove(Dot(a, a), Dot(m, m), Dot(b, b), Across(a, m) * Dot(a, m), Across(m, b) * Dot(m, b), Across(a, b) * Dot(a, b),
             SinCos(a, m), SinCos(m, b), SinCos(a, b));
  }

  predicate InTwoParts(p: real, q: real, r: real, u: real, v: real, w: real) {
    p >= 1.0 && q >= 1.0 && r >= 1.0 && w * q <= u * r + v * p
  }

  lemma ThreeSinCos(a: real, m: real, b: real)
    requires 0.0 <= a <= m <= b
    ensures InTwoParts(Dot(a, a), Dot(m, m), Dot(b, b), Across(a, m) * Dot(a, m), Across(m, b) * Dot(m, b), Across(a, b) * Dot(a, b))
  {
    var u, v := m - a, b - m;
    NotNegative(a, a);
    NotNegative(m, m);
    NotNegative(b, b);
    NotNegative(u, v);
    NotNegative(u * v, u + v);
    assert u * Dot(a, m) * Dot(b, b) + v * Dot(m, b) * Dot(a, a) == (u + v) * Dot(a, b) * Dot(m, m) + 2.0 * (u * v * (u + v));
  }

  lemma SumAbove(p: real, q: real, r: real, u: real, v: real, w: real, x: real, y: real, z: real)
    requires Quotient(x, u, p * q) && Quotient(y, v, q * r) && Quotient(z, w, p * r) && InTwoParts(p, q, r, u, v, w)
    ensures z <= x + y
  {
    AtLeastOne(p, q);
    AtLeastOne(p * q, r);
    var n := p * q * r;
    assert x * n == x * (p * q) * r && y * n == y * (q * r) * p && z * n == z * (p * r) * q;
    assert (x + y) * n == x * n + y * n;
    Ordered(z, x + y, n);
  }

  /** Sine times cosine is at most the tangent. */
  lemma SinCosBelow(a: real, b: real)
    requires 0.0 <= a <= b
    ensures SinCos(a, b) <= Tan(a, b)
  {
    hide SinCos, Tan, Dot, Across;
    SinCosTimes(a, b);
    TanTimes(a, b);
    Squares(a, b);
    SinBelowTan(Dot(a, a) * Dot(b, b), Dot(a, b), Across(a, b), SinCos(a, b), Tan(a, b));
  }

  lemma Squares(a: real, b: real)
    ensures Dot(a, a) * Dot(b, b) == Dot(a, b) * Dot(a, b) + Across(a, b) * Across(a, b)
  {
  }

  lemma SinBelowTan(n: real, r: real, w: real, s: real, t: real)
    requires r >= 1.0 && t >= 0.0 && s * n == w * r && t * r == w && n == r * r + w * w
    ensures s <= t
  {
    AtLeastOne(r, r);
    NotNegative(w, w);
    NotNegative(t, w * w);
    assert t * n == t * r * r + t * (w * w);
    Ordered(s, t, n);
  }

  // ---------------------------------------------------------------- the arc along the table

  lemma CellIs(s: real)
    requires 0.0 <= s
    ensures Grid(Cell(s)) <= s < Grid(Cell(s)) + 1.0 / 128.0
  {
  }

  lemma ArcAtGrid(i: nat)
    ensures Cell(Grid(i)) == i && ArcTo(Grid(i)) == Arc(i) && Grid(i + 1) == Grid(i) + 1.0 / 128.0
  {
    assert Tan(Grid(i), Grid(i)) == 0.0;
    hide Arc, Tan;
  }

  /** The step to the end of a cell. */
  lemma ArcToEnd(a: real)
    requires 0.0 <= a
    ensures var m := Grid(Cell(a) + 1);
            a <= m && Tan(a, m) <= ArcTo(m) - ArcTo(a) <= Tan(a, m) * (1.0 + 1.0 / 16384.0)
  {
    hide Tan, Grid;
    var i := Cell(a);
    CellIs(a);
    ArcAtGrid(i);
    ArcAtGrid(i + 1);
    TangentsDiffer(a, Grid(i + 1), Grid(i));
  }

  lemma ArcInCell(a: real, b: real)
    requires 0.0 <= a <= b && Cell(a) == Cell(b)
    ensures Tan(a, b) <= ArcTo(b) - ArcTo(a) <= Tan(a, b) * (1.0 + 1.0 / 16384.0)
  {
    hide Tan, Grid, Cell;
    CellIs(a);
    CellIs(b);
    TangentsDiffer(a, b, Grid(Cell(a)));
  }

  /** The arc between two rays lies between sine times cosine and the tangent of the angle between
      them, and a little. */
  lemma {:induction false} ArcBetween(a: real, b: real)
    requires 0.0 <= a <= b
    ensures SinCos(a, b) <= ArcTo(b) - ArcTo(a) <= Tan(a, b) * (1.0 + 1.0 / 16384.0)
    decreases Cell(b) - Cell(a)
  {
    CellsRise(a, b);
    hide Tan, SinCos, Grid, Cell, ArcTo;
    if Cell(a) == Cell(b) {
      ArcInCell(a, b);
      SinCosBelow(a, b);
    } else {
      var m := Grid(Cell(a) + 1);
      ArcToEnd(a);
      CellIs(b);
      GridsRise(Cell(a) + 1, Cell(b));
      ArcAtGrid(Cell(a) + 1);
      SinCosBelow(a, m);
      ArcBetween(m, b);
      SinCosAdd(a, m, b);
      TangentsAdd(a, m, b);
      Spread(Tan(a, m), Tan(m, b), Tan(a, b));
    }
  }

  lemma CellsRise(a: real, b: real)
    requires 0.0 <= a <= b
    ensures Cell(a) <= Cell(b)
  {
  }

  lemma GridsRise(i: nat, j: nat)
    requires i <= j
    ensures Grid(i) <= Grid(j)
  {
  }

  lemma Spread(x: real, y: real, z: real)
    requires x + y <= z
    ensures x * (1.0 + 1.0 / 16384.0) + y * (1.0 + 1.0 / 16384.0) <= z * (1.0 + 1.0 / 16384.0)
  {
  }

  // ---------------------------------------------------------------- the angle of a vector

  predicate NonZero(x: int, y: int) {
    x != 0 || y != 0
  }

  /** A vector turned back by eighths of a turn, and stretched by the square root of two if the number
      of eighths is odd. */
  function TurnedBack(o: nat, x: int, y: int): (int, int)
    requires o < 8
  {
    match o
    case 0 => (x, y)
    case 1 => (x + y, y - x)
    case 2 => (y, -x)
    case 3 => (y - x, -x - y)
    case 4 => (-x, -y)
    case 5 => (-x - y, x - y)
    case 6 => (-y, x)
    case _ => (x - y, x + y)
  }

  lemma OctantifyIs(x: int, y: int)
    requires y != 0
    ensures Octant(x, y) < 8
    ensures var t := TurnedBack(Octant(x, y), x, y);
            Octantify(x, y) == Turned(t.0, t.1, Octant(x, y))
  {
  }

  lemma TurnedInHalf(x: int, y: int)
    requires NonZero(x, y)
    ensures Octant(x, y) < 8
    ensures var t := TurnedBack(Octant(x, y), x, y);
            0 <= t.1 < t.0
  {
  }

  /** The slope of a vector over the first ray of its octant. */
  function Slant(x: int, y: int): (s: real)
    requires NonZero(x, y)
    ensures s >= 0.0
  {
    TurnedInHalf(x, y);
    var t := TurnedBack(Octant(x, y), x, y);
    t.1 as real / t.0 as real
  }

  /** Angle is the arc of the slant above the first ray of the octant, within two units and what the
      slant is cut off by. A full turn has 131072 units, a radian 20860.75. */
  lemma {:induction false} AngleIsArc(y: int, x: int, shift: nat)
    requires shift >= 7 && NonZero(x, y)
    ensures -2.0 - 163.0 / Pow2(shift - 7) as real
          < Angle(y, x, shift) as real - (16384.0 * Octant(x, y) as real + 20860.75 * ArcTo(Slant(x, y))) < 0.5
  {
    hide Lerp, Pow2, Slope, ArcTo, Octantify, Octant, TurnedBack, Angle, Slant;
    if y == 0 {
      OnTheAxis(x, shift);
      WidthPositive(Pow2(shift - 7) as real);
    } else {
      AngleAbove(y, x, shift);
      var r := Octantify(x, y);
      LerpNear(r, shift);
      HalfReal(Lerp(Slope(r, shift), Pow2(shift - 7)));
      Halves(326.0, Pow2(shift - 7) as real);
    }
  }

  lemma OnTheAxis(x: int, shift: nat)
    requires shift >= 7 && x != 0
    ensures Angle(0, x, shift) as real == 16384.0 * Octant(x, 0) as real && ArcTo(Slant(x, 0)) == 0.0
  {
    hide ArcTo;
    assert Slant(x, 0) == Grid(0);
    ArcAtGrid(0);
  }

  lemma WidthPositive(w: real)
    requires w > 0.0
    ensures 163.0 / w > 0.0
  {
  }

  lemma Halves(a: real, w: real)
    requires w > 0.0
    ensures a / w / 2.0 == a / 2.0 / w
  {
  }

  /** Off the axis it is put together from the octant and the table. */
  lemma AngleAbove(y: int, x: int, shift: nat)
    requires shift >= 7 && y != 0
    ensures var r := Octantify(x, y);
            && 0 <= r.y < r.x && Slant(x, y) == r.y as real / r.x as real
            && Angle(y, x, shift) == Octant(x, y) * 0x4000 + Lerp(Slope(r, shift), Pow2(shift - 7)) / 2
  {
    hide Lerp, Pow2, Slope, Octantify, Octant, TurnedBack;
    OctantifyIs(x, y);
    OctantifyTurns(x, y);
    TurnedInHalf(x, y);
  }

  lemma HalfReal(a: nat)
    ensures a as real / 2.0 - 0.5 <= (a / 2) as real <= a as real / 2.0
  {
  }

  // ---------------------------------------------------------------- fans of vectors

  type Vector = (int, int)

  function Scalar(p: Vector, q: Vector): int {
    p.0 * q.0 + p.1 * q.1
  }

  function Area(p: Vector, q: Vector): int {
    p.0 * q.1 - p.1 * q.0
  }

  /** The tangent of the angle from p to q, and sine times cosine, in products of the vectors. */
  function TanBetween(p: Vector, q: Vector): real
    requires Scalar(p, q) > 0
  {
    Area(p, q) as real / Scalar(p, q) as real
  }

  function SinCosBetween(p: Vector, q: Vector): real
    requires Scalar(p, p) > 0 && Scalar(q, q) > 0
  {
    Area(p, q) as real * Scalar(p, q) as real / (Scalar(p, p) as real * Scalar(q, q) as real)
  }

  lemma QuarterBack(o: nat, x: int, y: int)
    requires 2 <= o < 8
    ensures TurnedBack(o, x, y) == TurnedBack(o - 2, y, -x)
  {
  }

  lemma QuarterProducts(p: Vector, q: Vector)
    ensures Scalar((p.1, -p.0), (q.1, -q.0)) == Scalar(p, q)
    ensures Area((p.1, -p.0), (q.1, -q.0)) == Area(p, q)
  {
  }

  lemma EighthProducts(p: Vector, q: Vector)
    ensures var s, t := (p.0 + p.1, p.1 - p.0), (q.0 + q.1, q.1 - q.0);
            Scalar(s, t) == 2 * Scalar(p, q) && Area(s, t) == 2 * Area(p, q)
  {
    var a, b, c, d := p.0, p.1, q.0, q.1;
    assert (a + b) * (c + d) + (b - a) * (d - c) == 2 * (a * c + b * d);
    assert (a + b) * (d - c) - (b - a) * (c + d) == 2 * (a * d - b * c);
  }

  /** Turning keeps the products, but for the stretching. */
  lemma {:induction false} TurnedProducts(o: nat, p: Vector, q: Vector)
    requires o < 8
    ensures var s, t := TurnedBack(o, p.0, p.1), TurnedBack(o, q.0, q.1);
            if o % 2 == 1 then Scalar(s, t) == 2 * Scalar(p, q) && Area(s, t) == 2 * Area(p, q)
            else Scalar(s, t) == Scalar(p, q) && Area(s, t) == Area(p, q)
  {
    hide Scalar, Area;
    if o >= 2 {
      QuarterBack(o, p.0, p.1);
      QuarterBack(o, q.0, q.1);
      QuarterProducts(p, q);
      TurnedProducts(o - 2, (p.1, -p.0), (q.1, -q.0));
    } else if o == 1 {
      EighthProducts(p, q);
    }
  }

  // ---------------------------------------------------------------- slants of vectors

  function RealScalar(x: real, y: real, u: real, v: real): real {
    x * u + y * v
  }

  function RealArea(x: real, y: real, u: real, v: real): real {
    x * v - y * u
  }

  /** The products of (1, y / x) and (1, v / u) are those of the vectors, divided. */
  lemma SlopeProducts(x: real, y: real, u: real, v: real)
    requires x > 0.0 && u > 0.0
    ensures Across(y / x, v / u) * (x * u) == RealArea(x, y, u, v)
    ensures Dot(y / x, v / u) * (x * u) == RealScalar(x, y, u, v)
  {
    var a, b := y / x, v / u;
    assert a * x == y && b * u == v;
    assert b * (x * u) == x * (b * u) && a * (x * u) == a * x * u;
    assert a * b * (x * u) == a * x * (b * u);
  }

  lemma TanOfVectors(x: real, y: real, u: real, v: real)
    requires x > 0.0 && u > 0.0 && y >= 0.0 && v >= 0.0
    ensures y / x >= 0.0 && v / u >= 0.0
    ensures Tan(y / x, v / u) * RealScalar(x, y, u, v) == RealArea(x, y, u, v)
  {
    hide Tan, Dot, Across, RealScalar, RealArea;
    var a, b := y / x, v / u;
    TanTimes(a, b);
    SlopeProducts(x, y, u, v);
    assert Tan(a, b) * (Dot(a, b) * (x * u)) == Tan(a, b) * Dot(a, b) * (x * u);
  }

  lemma SinCosOfVectors(x: real, y: real, u: real, v: real)
    requires x > 0.0 && u > 0.0 && y >= 0.0 && v >= 0.0
    ensures y / x >= 0.0 && v / u >= 0.0
    ensures SinCos(y / x, v / u) * (RealScalar(x, y, x, y) * RealScalar(u, v, u, v))
         == RealArea(x, y, u, v) * RealScalar(x, y, u, v)
  {
    hide SinCos, Dot, Across, RealScalar, RealArea;
    var a, b := y / x, v / u;
    SinCosTimes(a, b);
    SlopeProducts(x, y, u, v);
    SlopeProducts(x, y, x, y);
    SlopeProducts(u, v, u, v);
    Regrouped(SinCos(a, b), Dot(a, a), Dot(b, b), Across(a, b), Dot(a, b), x, u,
              RealScalar(x, y, x, y), RealScalar(u, v, u, v), RealArea(x, y, u, v), RealScalar(x, y, u, v));
  }

  lemma Regrouped(s: real, p: real, q: real, c: real, d: real, x: real, u: real, m: real, n: real, a: real, b: real)
    requires s * (p * q) == c * d
    requires p * (x * x) == m && q * (u * u) == n && c * (x * u) == a && d * (x * u) == b
    ensures s * (m * n) == a * b
  {
    assert s * (p * (x * x) * (q * (u * u))) == s * (p * q) * (x * x * (u * u));
    assert c * (x * u) * (d * (x * u)) == c * d * (x * x * (u * u));
  }

  lemma RealProducts(s: Vector, t: Vector)
    ensures Scalar(s, t) as real == RealScalar(s.0 as real, s.1 as real, t.0 as real, t.1 as real)
    ensures Area(s, t) as real == RealArea(s.0 as real, s.1 as real, t.0 as real, t.1 as real)
  {
    assert (s.0 * t.0) as real == s.0 as real * t.0 as real && (s.1 * t.1) as real == s.1 as real * t.1 as real;
    assert (s.0 * t.1) as real == s.0 as real * t.1 as real && (s.1 * t.0) as real == s.1 as real * t.0 as real;
  }

  predicate InHalf(s: Vector) {
    0 <= s.1 < s.0
  }

  function SlopeOf(s: Vector): (r: real)
    requires InHalf(s)
    ensures r >= 0.0
  {
    s.1 as real / s.0 as real
  }

  lemma PositiveScalar(s: Vector, t: Vector)
    requires InHalf(s) && InHalf(t)
    ensures Scalar(s, t) > 0
  {
  }

  lemma QuotientUnique(t: real, c: real, d: real)
    requires d > 0.0 && t * d == c
    ensures t == c / d
  {
  }

  lemma TanOfSlopes(s: Vector, t: Vector)
    requires InHalf(s) && InHalf(t)
    ensures Scalar(s, t) > 0 && Tan(SlopeOf(s), SlopeOf(t)) == TanBetween(s, t)
  {
    PositiveScalar(s, t);
    RealProducts(s, t);
    TanOfVectors(s.0 as real, s.1 as real, t.0 as real, t.1 as real);
    hide Tan, Scalar, Area, RealScalar, RealArea;
    QuotientUnique(Tan(SlopeOf(s), SlopeOf(t)), Area(s, t) as real, Scalar(s, t) as real);
  }

  lemma SinCosOfSlopes(s: Vector, t: Vector)
    requires InHalf(s) && InHalf(t)
    ensures Scalar(s, s) > 0 && Scalar(t, t) > 0 && SinCos(SlopeOf(s), SlopeOf(t)) == SinCosBetween(s, t)
  {
    hide SinCos, Scalar, Area, RealScalar, RealArea;
    PositiveScalar(s, s);
    PositiveScalar(t, t);
    RealProducts(s, t);
    RealProducts(s, s);
    RealProducts(t, t);
    SinCosOfVectors(s.0 as real, s.1 as real, t.0 as real, t.1 as real);
    var m, n := Scalar(s, s) as real, Scalar(t, t) as real;
    NotZero(m, n);
    QuotientUnique(SinCos(SlopeOf(s), SlopeOf(t)), Area(s, t) as real * Scalar(s, t) as real, m * n);
  }

  lemma NotZero(m: real, n: real)
    requires m > 0.0 && n > 0.0
    ensures m * n > 0.0
  {
  }

  predicate Stretched(c: int, p: Vector, q: Vector, s: Vector, t: Vector) {
    Scalar(s, t) == c * Scalar(p, q) && Area(s, t) == c * Area(p, q)
  }

  /** Stretching both vectors keeps the angle between them. */
  lemma Stretches(c: int, p: Vector, q: Vector, s: Vector, t: Vector)
    requires c == 1 || c == 2
    requires Scalar(s, t) > 0 && Scalar(s, s) > 0 && Scalar(t, t) > 0
    requires Stretched(c, p, q, s, t) && Stretched(c, p, p, s, s) && Stretched(c, q, q, t, t)
    ensures Scalar(p, q) > 0 && TanBetween(s, t) == TanBetween(p, q)
    ensures Scalar(p, p) > 0 && Scalar(q, q) > 0 && SinCosBetween(s, t) == SinCosBetween(p, q)
  {
    hide Scalar, Area;
    if c == 2 {
      Halved(Area(p, q) as real, Scalar(p, q) as real);
      Quartered(Area(p, q) as real, Scalar(p, q) as real, Scalar(p, p) as real, Scalar(q, q) as real);
    }
  }

  lemma Halved(a: real, b: real)
    requires b > 0.0
    ensures 2.0 * a / (2.0 * b) == a / b
  {
  }

  lemma Quartered(a: real, b: real, m: real, n: real)
    requires m > 0.0 && n > 0.0
    ensures m * n > 0.0 && 2.0 * m * (2.0 * n) > 0.0
    ensures 2.0 * a * (2.0 * b) / (2.0 * m * (2.0 * n)) == a * b / (m * n)
  {
    NotZero(m, n);
    assert 2.0 * a * (2.0 * b) == 4.0 * (a * b) && 2.0 * m * (2.0 * n) == 4.0 * (m * n);
  }

  lemma TurnStretches(p: Vector, q: Vector)
    requires NonZero(p.0, p.1) && NonZero(q.0, q.1) && Octant(p.0, p.1) == Octant(q.0, q.1) < 8
    ensures var o := Octant(p.0, p.1);
            Stretched(if o % 2 == 1 then 2 else 1, p, q, TurnedBack(o, p.0, p.1), TurnedBack(o, q.0, q.1))
  {
    hide TurnedBack, Octant, Scalar, Area;
    TurnedProducts(Octant(p.0, p.1), p, q);
  }

  /** The slants of two vectors of an octant are as far apart as the vectors. */
  lemma SlantsApart(p: Vector, q: Vector)
    requires NonZero(p.0, p.1) && NonZero(q.0, q.1) && Octant(p.0, p.1) == Octant(q.0, q.1)
    ensures Scalar(p, q) > 0 && Tan(Slant(p.0, p.1), Slant(q.0, q.1)) == TanBetween(p, q)
    ensures Scalar(p, p) > 0 && Scalar(q, q) > 0 && SinCos(Slant(p.0, p.1), Slant(q.0, q.1)) == SinCosBetween(p, q)
  {
    hide TurnedBack, Octant, Tan, SinCos, Scalar, Area, Stretched;
    TurnedInHalf(p.0, p.1);
    TurnedInHalf(q.0, q.1);
    var o := Octant(p.0, p.1);
    var s, t := TurnedBack(o, p.0, p.1), TurnedBack(o, q.0, q.1);
    TurnStretches(p, q);
    TurnStretches(p, p);
    TurnStretches(q, q);
    TanOfSlopes(s, t);
    SinCosOfSlopes(s, t);
    Stretches(if o % 2 == 1 then 2 else 1, p, q, s, t);
  }

  /** And in the same order. */
  lemma SlantsInOrder(p: Vector, q: Vector)
    requires NonZero(p.0, p.1) && NonZero(q.0, q.1) && Octant(p.0, p.1) == Octant(q.0, q.1)
    ensures Area(p, q) >= 0 ==> Slant(p.0, p.1) <= Slant(q.0, q.1)
  {
    hide TurnedBack, Octant, Tan, Scalar, Area;
    SlantsApart(p, q);
    var a, b := Slant(p.0, p.1), Slant(q.0, q.1);
    if Area(p, q) >= 0 {
      NotNegativeQuotient(Area(p, q) as real, Scalar(p, q) as real);
      TanTimes(a, b);
      NotNegative(Tan(a, b), Dot(a, b));
    }
  }

  lemma NotNegativeQuotient(a: real, b: real)
    requires a >= 0.0 && b > 0.0
    ensures a / b >= 0.0
  {
  }

  /** Vectors of one octant, none to the right of the one before it. */
  predicate Fan(ps: seq<Vector>) {
    && ps != []
    && (forall i :: 0 <= i < |ps| ==> NonZero(ps[i].0, ps[i].1) && Octant(ps[i].0, ps[i].1) == Octant(ps[0].0, ps[0].1))
    && (forall i :: 0 < i < |ps| ==> Area(ps[i - 1], ps[i]) >= 0)
  }

  lemma FanStep(ps: seq<Vector>)
    requires Fan(ps) && |ps| > 1
    ensures Fan(ps[1..]) && Scalar(ps[0], ps[1]) > 0 && Scalar(ps[0], ps[0]) > 0 && Scalar(ps[1], ps[1]) > 0
    ensures NonZero(ps[0].0, ps[0].1) && NonZero(ps[1].0, ps[1].1) && Octant(ps[0].0, ps[0].1) == Octant(ps[1].0, ps[1].1)
    ensures Area(ps[0], ps[1]) >= 0
  {
    hide Octant, Scalar, Area;
    SlantsApart(ps[0], ps[1]);
    var qs := ps[1..];
    assert forall i :: 0 <= i < |qs| ==> qs[i] == ps[i + 1];
  }

  /** The tangents between neighbours, and sine times cosine, summed up: the more vectors a fan has, the
      closer both come to the angle it covers. */
  function UpperSum(ps: seq<Vector>): real
    requires Fan(ps)
    decreases |ps|
  {
    if |ps| <= 1 then 0.0
    else
      hide Fan, Octant, Scalar, Area;
      FanStep(ps);
      TanBetween(ps[0], ps[1]) + UpperSum(ps[1..])
  }

  function LowerSum(ps: seq<Vector>): real
    requires Fan(ps)
    decreases |ps|
  {
    if |ps| <= 1 then 0.0
    else
      hide Fan, Octant, Scalar, Area;
      FanStep(ps);
      SinCosBetween(ps[0], ps[1]) + LowerSum(ps[1..])
  }

  lemma FanEnds(ps: seq<Vector>)
    requires Fan(ps)
    ensures ps != [] && NonZero(ps[0].0, ps[0].1)
    ensures var last := ps[|ps| - 1];
            NonZero(last.0, last.1) && Octant(last.0, last.1) == Octant(ps[0].0, ps[0].1)
  {
    hide Octant;
  }

  lemma {:induction false} FanArc(ps: seq<Vector>)
    requires Fan(ps)
    ensures ps != [] && NonZero(ps[0].0, ps[0].1) && NonZero(ps[|ps| - 1].0, ps[|ps| - 1].1)
    ensures var last := ps[|ps| - 1];
            var arc := ArcTo(Slant(last.0, last.1)) - ArcTo(Slant(ps[0].0, ps[0].1));
            LowerSum(ps) <= arc <= UpperSum(ps) * (1.0 + 1.0 / 16384.0)
    decreases |ps|
  {
    hide Fan, Octant, Scalar, Area, Slant, ArcTo, Tan, SinCos;
    FanEnds(ps);
    if |ps| > 1 {
      FanStep(ps);
      var p, q := ps[0], ps[1];
      SlantsApart(p, q);
      SlantsInOrder(p, q);
      ArcBetween(Slant(p.0, p.1), Slant(q.0, q.1));
      FanArc(ps[1..]);
    }
  }

  /** The angles that atan2Lerp gives the first and the last vector of a fan differ by the angle
      between them: by no less than sine times cosine summed over the fan and no more than the tangents,
      but for a sixteen thousandth, three units of a full turn of 131072, and what the slopes are cut
      off by. */
  lemma {:induction false} FanAngle(ps: seq<Vector>, shift: nat)
    requires Fan(ps) && shift >= 7
    ensures ps != []
    ensures var turned := Angle(ps[|ps| - 1].1, ps[|ps| - 1].0, shift) - Angle(ps[0].1, ps[0].0, shift);
            var error := 2.5 + 163.0 / Pow2(shift - 7) as real;
            20860.75 * LowerSum(ps) - error < turned as real < 20860.75 * UpperSum(ps) * (1.0 + 1.0 / 16384.0) + error
  {
    hide Fan, Octant, Scalar, Area, Slant, ArcTo, Angle, Pow2, LowerSum, UpperSum;
    FanArc(ps);
    FanEnds(ps);
    var p, q := ps[0], ps[|ps| - 1];
    AngleIsArc(p.1, p.0, shift);
    AngleIsArc(q.1, q.0, shift);
  }
}
