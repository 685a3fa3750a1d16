/** How far the vectors of a P frame reach, as distances in the picture. */
module MotionVectors {

  /** A step to the right and a step down. */
  datatype Vector = Vector(right: int, down: int)

  /** Nearer vectors come first; of equally near ones the higher, and then the one further left. */
  predicate Nearer(v: Vector, w: Vector) {
    var a, b := v.right * v.right + v.down * v.down, w.right * w.right + w.down * w.down;
    a < b || (a == b && (v.down < w.down || (v.down == w.down && v.right < w.right)))
  }

  /** Vectors that stay within 32 pixels either way. */
  predicate Short(v: Vector) {
    -32 <= v.right <= 32 && -32 <= v.down <= 32
  }

  function Vectors0(k: nat): (v: Vector)
    requires k < 16
    ensures Short(v)
  {
    match k
    case 0 => Vector(0, 0) case 1 => Vector(0, -1) case 2 => Vector(-1, 0) case 3 => Vector(1, 0)
    case 4 => Vector(0, 1) case 5 => Vector(-1, -1) case 6 => Vector(1, -1) case 7 => Vector(-1, 1)
    case 8 => Vector(1, 1) case 9 => Vector(0, -2) case 10 => Vector(-2, 0) case 11 => Vector(2, 0)
    case 12 => Vector(0, 2) case 13 => Vector(-1, -2) case 14 => Vector(1, -2) case _ => Vector(-2, -1)
  }

  function Vectors1(k: nat): (v: Vector)
    requires k < 16
    ensures Short(v)
  {
    match k
    case 0 => Vector(2, -1) case 1 => Vector(-2, 1) case 2 => Vector(2, 1) case 3 => Vector(-1, 2)
    case 4 => Vector(1, 2) case 5 => Vector(-2, -2) case 6 => Vector(2, -2) case 7 => Vector(-2, 2)
    case 8 => Vector(2, 2) case 9 => Vector(0, -3) case 10 => Vector(-3, 0) case 11 => Vector(3, 0)
    case 12 => Vector(0, 3) case 13 => Vector(-1, -3) case 14 => Vector(1, -3) case _ => Vector(-3, -1)
  }

  function Vectors2(k: nat): (v: Vector)
    requires k < 16
    ensures Short(v)
  {
    match k
    case 0 => Vector(3, -1) case 1 => Vector(-3, 1) case 2 => Vector(3, 1) case 3 => Vector(-1, 3)
    case 4 => Vector(1, 3) case 5 => Vector(-2, -3) case 6 => Vector(2, -3) case 7 => Vector(-3, -2)
    case 8 => Vector(3, -2) case 9 => Vector(-3, 2) case 10 => Vector(3, 2) case 11 => Vector(-2, 3)
    case 12 => Vector(2, 3) case 13 => Vector(0, -4) case 14 => Vector(-4, 0) case _ => Vector(4, 0)
  }

  function Vectors3(k: nat): (v: Vector)
    requires k < 16
    ensures Short(v)
  {
    match k
    case 0 => Vector(0, 4) case 1 => Vector(-1, -4) case 2 => Vector(1, -4) case 3 => Vector(-4, -1)
    case 4 => Vector(4, -1) case 5 => Vector(4, 1) case 6 => Vector(-1, 4) case 7 => Vector(1, 4)
    case 8 => Vector(-3, -3) case 9 => Vector(-3, 3) case 10 => Vector(3, 3) case 11 => Vector(-2, -4)
    case 12 => Vector(-4, -2) case 13 => Vector(4, -2) case 14 => Vector(-4, 2) case _ => Vector(-2, 4)
  }

  function Vectors4(k: nat): (v: Vector)
    requires k < 16
    ensures Short(v)
  {
    match k
    case 0 => Vector(2, 4) case 1 => Vector(-3, -4) case 2 => Vector(3, -4) case 3 => Vector(4, -3)
    case 4 => Vector(-5, 0) case 5 => Vector(-4, 3) case 6 => Vector(-3, 4) case 7 => Vector(3, 4)
    case 8 => Vector(-1, -5) case 9 => Vector(-5, -1) case 10 => Vector(-5, 1) case 11 => Vector(-1, 5)
    case 12 => Vector(-2, -5) case 13 => Vector(2, -5) case 14 => Vector(5, -2) case _ => Vector(5, 2)
  }

  function Vectors5(k: nat): (v: Vector)
    requires k < 16
    ensures Short(v)
  {
    match k
    case 0 => Vector(-4, -4) case 1 => Vector(-4, 4) case 2 => Vector(-3, -5) case 3 => Vector(-5, -3)
    case 4 => Vector(-5, 3) case 5 => Vector(3, 5) case 6 => Vector(-6, 0) case 7 => Vector(0, 6)
    case 8 => Vector(-6, -1) case 9 => Vector(-6, 1) case 10 => Vector(1, 6) case 11 => Vector(2, -6)
    case 12 => Vector(-6, 2) case 13 => Vector(2, 6) case 14 => Vector(-5, -4) case _ => Vector(5, 4)
  }

  function Vectors6(k: nat): (v: Vector)
    requires k < 16
    ensures Short(v)
  {
    match k
    case 0 => Vector(4, 5) case 1 => Vector(-6, -3) case 2 => Vector(6, 3) case 3 => Vector(-7, 0)
    case 4 => Vector(-1, -7) case 5 => Vector(5, -5) case 6 => Vector(-7, 1) case 7 => Vector(-1, 7)
    case 8 => Vector(4, -6) case 9 => Vector(6, 4) case 10 => Vector(-2, -7) case 11 => Vector(-7, 2)
    case 12 => Vector(-3, -7) case 13 => Vector(7, -3) case 14 => Vector(3, 7) case _ => Vector(6, -5)
  }

  function Vectors7(k: nat): (v: Vector)
    requires k < 16
    ensures Short(v)
  {
    match k
    case 0 => Vector(0, -8) case 1 => Vector(-1, -8) case 2 => Vector(-7, -4) case 3 => Vector(-8, 1)
    case 4 => Vector(4, 7) case 5 => Vector(2, -8) case 6 => Vector(-2, 8) case 7 => Vector(6, 6)
    case 8 => Vector(-8, 3) case 9 => Vector(5, -7) case 10 => Vector(-5, 7) case 11 => Vector(8, -4)
    case 12 => Vector(0, -9) case 13 => Vector(-9, -1) case 14 => Vector(1, 9) case _ => Vector(7, -6)
  }

  function Vectors8(k: nat): (v: Vector)
    requires k < 16
    ensures Short(v)
  {
    match k
    case 0 => Vector(-7, 6) case 1 => Vector(-5, -8) case 2 => Vector(-5, 8) case 3 => Vector(-9, 3)
    case 4 => Vector(9, -4) case 5 => Vector(7, -7) case 6 => Vector(8, -6) case 7 => Vector(6, 8)
    case 8 => Vector(10, 1) case 9 => Vector(-10, 2) case 10 => Vector(9, -5) case 11 => Vector(10, -3)
    case 12 => Vector(-8, -7) case 13 => Vector(-10, -4) case 14 => Vector(6, -9) case _ => Vector(-11, 0)
  }

  function Vectors9(k: nat): (v: Vector)
    requires k < 16
    ensures Short(v)
  {
    match k
    case 0 => Vector(11, 1) case 1 => Vector(-11, -2) case 2 => Vector(-2, 11) case 3 => Vector(7, -9)
    case 4 => Vector(-7, 9) case 5 => Vector(10, 6) case 6 => Vector(-4, 11) case 7 => Vector(8, -9)
    case 8 => Vector(8, 9) case 9 => Vector(5, 11) case 10 => Vector(7, -10) case 11 => Vector(12, -3)
    case 12 => Vector(11, 6) case 13 => Vector(-9, -9) case 14 => Vector(8, 10) case _ => Vector(5, 12)
  }

  function Vectors10(k: nat): (v: Vector)
    requires k < 16
    ensures Short(v)
  {
    match k
    case 0 => Vector(-11, 7) case 1 => Vector(13, 2) case 2 => Vector(6, -12) case 3 => Vector(10, 9)
    case 4 => Vector(-11, 8) case 5 => Vector(-7, 12) case 6 => Vector(0, 14) case 7 => Vector(14, -2)
    case 8 => Vector(-9, 11) case 9 => Vector(-6, 13) case 10 => Vector(-14, -4) case 11 => Vector(-5, -14)
    case 12 => Vector(5, 14) case 13 => Vector(-15, -1) case 14 => Vector(-14, -6) case _ => Vector(3, -15)
  }

  function Vectors11(k: nat): (v: Vector)
    requires k < 16
    ensures Short(v)
  {
    match k
    case 0 => Vector(11, -11) case 1 => Vector(-7, 14) case 2 => Vector(-5, 15) case 3 => Vector(8, -14)
    case 4 => Vector(15, 6) case 5 => Vector(3, 16) case 6 => Vector(7, -15) case 7 => Vector(-16, 5)
    case 8 => Vector(0, 17) case 9 => Vector(-16, -6) case 10 => Vector(-10, 14) case 11 => Vector(-16, 7)
    case 12 => Vector(12, 13) case 13 => Vector(-16, 8) case 14 => Vector(-17, 6) case _ => Vector(-18, 3)
  }

  function Vectors12(k: nat): (v: Vector)
    requires k < 16
    ensures Short(v)
  {
    match k
    case 0 => Vector(-7, 17) case 1 => Vector(15, 11) case 2 => Vector(16, 10) case 3 => Vector(2, -19)
    case 4 => Vector(3, -19) case 5 => Vector(-11, -16) case 6 => Vector(-18, 8) case 7 => Vector(-19, -6)
    case 8 => Vector(2, -20) case 9 => Vector(-17, -11) case 10 => Vector(-10, -18) case 11 => Vector(8, 19)
    case 12 => Vector(-21, -1) case 13 => Vector(-20, 7) case 14 => Vector(-4, 21) case _ => Vector(21, 5)
  }

  function Vectors13(k: nat): (v: Vector)
    requires k < 16
    ensures Short(v)
  {
    match k
    case 0 => Vector(15, 16) case 1 => Vector(2, -22) case 2 => Vector(-10, -20) case 3 => Vector(-22, 5)
    case 4 => Vector(20, -11) case 5 => Vector(-7, -22) case 6 => Vector(-12, 20) case 7 => Vector(23, -5)
    case 8 => Vector(13, -20) case 9 => Vector(24, -2) case 10 => Vector(-15, 19) case 11 => Vector(-11, 22)
    case 12 => Vector(16, 19) case 13 => Vector(23, -10) case 14 => Vector(-18, -18) case _ => Vector(-9, -24)
  }

  function Vectors14(k: nat): (v: Vector)
    requires k < 16
    ensures Short(v)
  {
    match k
    case 0 => Vector(24, -10) case 1 => Vector(-3, 26) case 2 => Vector(-23, 13) case 3 => Vector(-18, -20)
    case 4 => Vector(17, 21) case 5 => Vector(-4, 27) case 6 => Vector(27, 6) case 7 => Vector(1, -28)
    case 8 => Vector(-11, 26) case 9 => Vector(-17, -23) case 10 => Vector(7, 28) case 11 => Vector(11, -27)
    case 12 => Vector(29, 5) case 13 => Vector(-23, -19) case 14 => Vector(-28, -11) case _ => Vector(-21, 22)
  }

  function Vectors15(k: nat): (v: Vector)
    requires k < 16
    ensures Short(v)
  {
    match k
    case 0 => Vector(-30, 7) case 1 => Vector(-17, 26) case 2 => Vector(-27, 16) case 3 => Vector(13, 29)
    case 4 => Vector(19, -26) case 5 => Vector(10, -31) case 6 => Vector(-14, -30) case 7 => Vector(20, -27)
    case 8 => Vector(-29, 18) case 9 => Vector(-16, -31) case 10 => Vector(-28, -22) case 11 => Vector(21, -30)
    case 12 => Vector(-25, 28) case 13 => Vector(26, -29) case 14 => Vector(25, -32) case _ => Vector(-32, -32)
  }

  /** The vector each byte stands for: from the table, or of the byte's two halves. */
  function VectorOf(version: nat, i: nat): (v: Vector)
    requires i < 256
    ensures Short(v)
  {
    if version <= 1 then Vector(i % 16 - 8, i / 16 - 8)
    else
      var k := i % 16;
      match i / 16
      case 0 => Vectors0(k)
      case 1 => Vectors1(k)
      case 2 => Vectors2(k)
      case 3 => Vectors3(k)
      case 4 => Vectors4(k)
      case 5 => Vectors5(k)
      case 6 => Vectors6(k)
      case 7 => Vectors7(k)
      case 8 => Vectors8(k)
      case 9 => Vectors9(k)
      case 10 => Vectors10(k)
      case 11 => Vectors11(k)
      case 12 => Vectors12(k)
      case 13 => Vectors13(k)
      case 14 => Vectors14(k)
      case _ => Vectors15(k)
  }

  lemma PartInOrder0(k: nat)
    requires k < 15
    ensures Nearer(Vectors0(k), Vectors0(k + 1))
  {
  }

  lemma PartInOrder1(k: nat)
    requires k < 15
    ensures Nearer(Vectors1(k), Vectors1(k + 1))
  {
  }

  lemma PartInOrder2(k: nat)
    requires k < 15
    ensures Nearer(Vectors2(k), Vectors2(k + 1))
  {
  }

  lemma PartInOrder3(k: nat)
    requires k < 15
    ensures Nearer(Vectors3(k), Vectors3(k + 1))
  {
  }

  lemma PartInOrder4(k: nat)
    requires k < 15
    ensures Nearer(Vectors4(k), Vectors4(k + 1))
  {
  }

  lemma PartInOrder5(k: nat)
    requires k < 15
    ensures Nearer(Vectors5(k), Vectors5(k + 1))
  {
  }

  lemma PartInOrder6(k: nat)
    requires k < 15
    ensures Nearer(Vectors6(k), Vectors6(k + 1))
  {
  }

  lemma PartInOrder7(k: nat)
    requires k < 15
    ensures Nearer(Vectors7(k), Vectors7(k + 1))
  {
  }

  lemma PartInOrder8(k: nat)
    requires k < 15
    ensures Nearer(Vectors8(k), Vectors8(k + 1))
  {
  }

  lemma PartInOrder9(k: nat)
    requires k < 15
    ensures Nearer(Vectors9(k), Vectors9(k + 1))
  {
  }

  lemma PartInOrder10(k: nat)
    requires k < 15
    ensures Nearer(Vectors10(k), Vectors10(k + 1))
  {
  }

  lemma PartInOrder11(k: nat)
    requires k < 15
    ensures Nearer(Vectors11(k), Vectors11(k + 1))
  {
  }

  lemma PartInOrder12(k: nat)
    requires k < 15
    ensures Nearer(Vectors12(k), Vectors12(k + 1))
  {
  }

  lemma PartInOrder13(k: nat)
    requires k < 15
    ensures Nearer(Vectors13(k), Vectors13(k + 1))
  {
  }

  lemma PartInOrder14(k: nat)
    requires k < 15
    ensures Nearer(Vectors14(k), Vectors14(k + 1))
  {
  }

  lemma PartInOrder15(k: nat)
    requires k < 15
    ensures Nearer(Vectors15(k), Vectors15(k + 1))
  {
  }

  /** From one part of the table to the next. */
  lemma PartsInOrder()
    ensures Nearer(Vectors0(15), Vectors1(0))
    ensures Nearer(Vectors1(15), Vectors2(0))
    ensures Nearer(Vectors2(15), Vectors3(0))
    ensures Nearer(Vectors3(15), Vectors4(0))
    ensures Nearer(Vectors4(15), Vectors5(0))
    ensures Nearer(Vectors5(15), Vectors6(0))
    ensures Nearer(Vectors6(15), Vectors7(0))
    ensures Nearer(Vectors7(15), Vectors8(0))
    ensures Nearer(Vectors8(15), Vectors9(0))
    ensures Nearer(Vectors9(15), Vectors10(0))
    ensures Nearer(Vectors10(15), Vectors11(0))
    ensures Nearer(Vectors11(15), Vectors12(0))
    ensures Nearer(Vectors12(15), Vectors13(0))
    ensures Nearer(Vectors13(15), Vectors14(0))
    ensures Nearer(Vectors14(15), Vectors15(0))
  {
  }

  lemma NextIsFurther(version: nat, i: nat)
    requires version > 1 && i + 1 < 256
    ensures Nearer(VectorOf(version, i), VectorOf(version, i + 1))
  {
    hide Vectors0, Vectors1, Vectors2, Vectors3, Vectors4, Vectors5, Vectors6, Vectors7,
         Vectors8, Vectors9, Vectors10, Vectors11, Vectors12, Vectors13, Vectors14, Vectors15,
         Nearer;
    PartsInOrder();
    var k := i % 16;
    if k < 15 {
      assert (i + 1) / 16 == i / 16 && (i + 1) % 16 == k + 1;
      match i / 16
      case 0 => PartInOrder0(k);
      case 1 => PartInOrder1(k);
      case 2 => PartInOrder2(k);
      case 3 => PartInOrder3(k);
      case 4 => PartInOrder4(k);
      case 5 => PartInOrder5(k);
      case 6 => PartInOrder6(k);
      case 7 => PartInOrder7(k);
      case 8 => PartInOrder8(k);
      case 9 => PartInOrder9(k);
      case 10 => PartInOrder10(k);
      case 11 => PartInOrder11(k);
      case 12 => PartInOrder12(k);
      case 13 => PartInOrder13(k);
      case 14 => PartInOrder14(k);
      case _ => PartInOrder15(k);
    }
  }

  /** The table of later versions is in this order throughout: no vector comes twice. */
  lemma {:induction false} LaterIsFurther(version: nat, i: nat, k: nat)
    requires version > 1 && i < k < 256
    ensures Nearer(VectorOf(version, i), VectorOf(version, k))
    decreases k
  {
    hide VectorOf;
    NextIsFurther(version, k - 1);
    if i < k - 1 {
      LaterIsFurther(version, i, k - 1);
    }
  }

  /** In early versions every vector of up to eight pixels to the left or up and seven the other way has its
      byte: the step down in the upper half, the step to the right in the lower. */
  lemma EarlyVectors(version: nat, right: int, down: int)
    requires version <= 1 && -8 <= right <= 7 && -8 <= down <= 7
    ensures VectorOf(version, 16 * (down + 8) + right + 8) == Vector(right, down)
  {
  }

  /** How far a vector reaches in a picture kept row after row. */
  function Distance(v: Vector, width: nat): int {
    v.right + v.down * width
  }

  function Distances(version: nat, width: nat): (mv: seq<int>)
    ensures |mv| == 256
  {
    seq(256, i requires 0 <= i < 256 => Distance(VectorOf(version, i), width))
  }

  /** Fills the table for rows of so many bytes. */
  method InitMv(version: nat, linesize: nat) returns (mv: array<int>)
    requires linesize % 2 == 0
    ensures fresh(mv) && mv[..] == Distances(version, linesize / 2)
  {
    hide VectorOf;
    mv := new int[256];
    for i := 0 to 256
      invariant forall k :: 0 <= k < i ==> mv[k] == Distance(VectorOf(version, k), linesize / 2)
    {
      var v := VectorOf(version, i);
      HalfRows(v.down, linesize);
      mv[i] := v.right + v.down * linesize / 2;
    }
  }

  lemma HalfRows(down: int, linesize: nat)
    requires linesize % 2 == 0
    ensures down * linesize / 2 == down * (linesize / 2)
  {
    var half := linesize / 2;
    assert down * linesize == 2 * (down * half) by { assert linesize == 2 * half; }
  }
}
