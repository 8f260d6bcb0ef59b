/** Where the expiry bitmap keeps the bit of a metatile: zoom levels one after another, each in Morton order. */
module Morton {
  import opened Powers

  /* ---- 64-bit words ---- */

  function Interleave(n: bv64): bv64 {
    var n0 := n & 0xffffffff;
    var n1 := (n0 | (n0 << 16)) & 0x0000FFFF0000FFFF;
    var n2 := (n1 | (n1 << 8)) & 0x00FF00FF00FF00FF;
    var n3 := (n2 | (n2 << 4)) & 0x0F0F0F0F0F0F0F0F;
    var n4 := (n3 | (n3 << 2)) & 0x3333333333333333;
    (n4 | (n4 << 1)) & 0x5555555555555555
  }

  function Uninterleave(n: bv64): bv64 {
    var n0 := EvenPart(n);
    var n1 := (n0 ^ (n0 >> 1)) & 0x3333333333333333;
    var n2 := (n1 ^ (n1 >> 2)) & 0x0f0f0f0f0f0f0f0f;
    var n3 := (n2 ^ (n2 >> 4)) & 0x00ff00ff00ff00ff;
    var n4 := (n3 ^ (n3 >> 8)) & 0x0000ffff0000ffff;
    (n4 ^ (n4 >> 16)) & 0xffffffff
  }

  function Zip(a: bv64, b: bv64): bv64 {
    (a << 1) | b
  }

  function MortonCode(x: bv64, y: bv64): bv64 {
    Zip(Interleave(x), Interleave(y))
  }

  function EvenPart(n: bv64): bv64 {
    n & 0x5555555555555555
  }

  predicate Even(n: bv64) {
    EvenPart(n) == n
  }

  lemma UninterleaveInterleave(n: bv64)
    requires n <= 0xffffffff
    ensures Uninterleave(Interleave(n)) == n
  {
  }

  // Both coordinates of a code can be read off it.
  lemma CodeComesApart(x: bv64, y: bv64)
    requires x <= 0xffffffff && y <= 0xffffffff
    ensures Uninterleave(MortonCode(x, y) >> 1) == x && Uninterleave(MortonCode(x, y)) == y
  {
    hide Interleave, MortonCode;
    CodeHalves(x, y);
    UninterleaveInterleave(x);
    UninterleaveInterleave(y);
  }

  // Each half of a code has, in the even places, the spread coordinate.
  lemma CodeHalves(x: bv64, y: bv64)
    ensures EvenPart(MortonCode(x, y) >> 1) == Interleave(x)
    ensures EvenPart(MortonCode(x, y)) == Interleave(y)
  {
    hide Interleave, Zip, Even, EvenPart;
    EvenPlaces(x);
    EvenPlaces(y);
    Halves(Interleave(x), Interleave(y));
  }

  lemma Halves(a: bv64, b: bv64)
    requires Even(a) && Even(b)
    ensures EvenPart(Zip(a, b) >> 1) == a && EvenPart(Zip(a, b)) == b
  {
  }

  lemma EvenPlaces(n: bv64)
    ensures Even(Interleave(n))
  {
  }

  // The two lowest bits of a code are the lowest bits of the coordinates; the rest is the code of their halves.
  lemma CodeStep(x: bv64, y: bv64)
    requires x <= 0xffffffff && y <= 0xffffffff
    ensures MortonCode(x, y) & 1 == y & 1 && (MortonCode(x, y) >> 1) & 1 == x & 1
    ensures (MortonCode(x, y) >> 1) >> 1 == MortonCode(x >> 1, y >> 1)
  {
    hide Interleave, Zip, Even, Spreads;
    InterleaveSpreads(x);
    InterleaveSpreads(y);
    ZipStep(x, y, Interleave(x), Interleave(y), Interleave(x >> 1), Interleave(y >> 1));
  }

  // The bits of n are in the even places of a, and those of its half in the even places of `half`.
  ghost predicate Spreads(n: bv64, a: bv64, half: bv64) {
    Even(a) && a & 1 == n & 1 && (a >> 1) >> 1 == half
  }

  lemma InterleaveSpreads(n: bv64)
    requires n <= 0xffffffff
    ensures Spreads(n, Interleave(n), Interleave(n >> 1))
  {
    EvenPlaces(n);
    InterleaveStep(n);
    hide Interleave, Even;
  }

  lemma InterleaveStep(n: bv64)
    requires n <= 0xffffffff
    ensures Interleave(n) & 1 == n & 1 && (Interleave(n) >> 1) >> 1 == Interleave(n >> 1)
  {
  }

  lemma ZipStep(x: bv64, y: bv64, a: bv64, b: bv64, a1: bv64, b1: bv64)
    requires Spreads(x, a, a1) && Spreads(y, b, b1)
    ensures Zip(a, b) & 1 == y & 1 && (Zip(a, b) >> 1) & 1 == x & 1
    ensures (Zip(a, b) >> 1) >> 1 == Zip(a1, b1)
  {
  }

  function Bit(b: bv64): nat {
    if b & 1 == 1 then 1 else 0
  }

  lemma SameBit(a: bv64, b: bv64)
    requires a & 1 == b & 1
    ensures Bit(a) == Bit(b)
  {
  }

  // The number a word stands for.
  function Val(b: bv64): nat
    decreases b
  {
    if b == 0 then 0 else Bit(b) + 2 * Val(b >> 1)
  }

  // The low 64 bits of a number.
  function Word(n: nat): bv64 {
    if n == 0 then 0 else Append(Word(n / 2), if n % 2 == 1 then 1 else 0)
  }

  function Append(w: bv64, bit: bv64): bv64 {
    (w << 1) | bit
  }

  function Ones(k: nat): bv64 {
    if k == 0 then 0 else Append(Ones(k - 1), 1)
  }

  lemma {:induction false} OnesForm(k: nat)
    ensures Ones(k) & (Ones(k) + 1) == 0
  {
    if k > 0 {
      OnesForm(k - 1);
    }
  }

  lemma OnesFour(k: nat)
    ensures Ones(k + 4) == (Ones(k) << 4) | 15
  {
    OnesNext(k);
    OnesNext(k + 1);
    OnesNext(k + 2);
    OnesNext(k + 3);
    hide Ones;
    ShiftFour(Ones(k));
  }

  lemma OnesNext(k: nat)
    ensures Ones(k + 1) == (Ones(k) << 1) | 1
  {
  }

  lemma ShiftFour(o: bv64)
    ensures (((((((o << 1) | 1) << 1) | 1) << 1) | 1) << 1) | 1 == (o << 4) | 15
  {
  }

  lemma {:induction false} OnesBound(k: nat)
    requires k <= 32
    ensures Ones(k) <= 0xffffffff
    decreases 32 - k
  {
    if k < 32 {
      OnesBound(k + 1);
      OnesForm(k);
    } else {
      OnesFour(0);
      OnesFour(4);
      OnesFour(8);
      OnesFour(12);
      OnesFour(16);
      OnesFour(20);
      OnesFour(24);
      OnesFour(28);
    }
  }

  const TWO_32 := 0x1_0000_0000

  lemma Pow32()
    ensures Pow(2, 32) == TWO_32
  {
    assert Pow(2, 8) == 256;
    assert Pow(2, 16) == 65536;
    assert Pow(2, 24) == 256 * 65536;
  }

  lemma {:induction false} WordBound(n: nat, k: nat)
    requires k <= 32 && n < Pow(2, k)
    ensures Word(n) <= Ones(k) <= 0xffffffff
  {
    OnesBound(k);
    if k > 0 {
      WordBound(n / 2, k - 1);
      OnesForm(k - 1);
      WordBoundStep(Word(n / 2), Ones(k - 1), if n % 2 == 1 then 1 else 0);
    }
  }

  lemma WordBoundStep(w: bv64, m: bv64, bit: bv64)
    requires w <= m <= 0xffffffff && bit <= 1
    ensures Append(w, bit) <= Append(m, 1)
  {
  }

  lemma WordSmall(n: nat)
    requires n < TWO_32
    ensures Word(n) <= 0xffffffff
  {
    Pow32();
    WordBound(n, 32);
  }

  ghost predicate Halved(w: bv64, half: bv64, bit: nat) {
    w <= 0xffffffff && w >> 1 == half && Bit(w) == bit
  }

  lemma ShiftBack(half: bv64, bit: bv64)
    requires half <= 0xffffffff && bit <= 1
    ensures Append(half, bit) >> 1 == half && Append(half, bit) & 1 == bit
  {
  }

  lemma HalvedOdd(half: bv64)
    requires half <= 0xffffffff && Append(half, 1) <= 0xffffffff
    ensures Halved(Append(half, 1), half, 1)
  {
    hide Append;
    ShiftBack(half, 1);
  }

  lemma HalvedEven(half: bv64)
    requires half <= 0xffffffff && Append(half, 0) <= 0xffffffff
    ensures Halved(Append(half, 0), half, 0)
  {
    hide Append;
    ShiftBack(half, 0);
  }

  // Halving a small number shifts its word.
  lemma WordStep(n: nat)
    requires n < TWO_32
    ensures Halved(Word(n), Word(n / 2), n % 2)
  {
    var half := n / 2;
    WordSmall(n);
    WordSmall(half);
    hide Append;
    if n == 0 {
    } else {
      hide Halved;
      if n % 2 == 1 {
        HalvedOdd(Word(half));
      } else {
        HalvedEven(Word(half));
      }
    }
  }

  /* ---- numbers ---- */

  // The place of (x, y) in Morton order: the bits of the two numbers alternate.
  function ZOrder(x: nat, y: nat): nat
    decreases x + y
  {
    if x == 0 && y == 0 then 0 else y % 2 + 2 * (x % 2) + 4 * ZOrder(x / 2, y / 2)
  }

  function ZOrderX(i: nat): nat {
    if i == 0 then 0 else (i / 2) % 2 + 2 * ZOrderX(i / 4)
  }

  function ZOrderY(i: nat): nat {
    if i == 0 then 0 else i % 2 + 2 * ZOrderY(i / 4)
  }

  // The masks and shifts compute the Morton code.
  lemma {:induction false} CodeIsZOrder(x: nat, y: nat)
    requires x < TWO_32 && y < TWO_32
    ensures Val(MortonCode(Word(x), Word(y))) == ZOrder(x, y)
    decreases x + y
  {
    hide MortonCode, Val;
    if x == 0 && y == 0 {
      CodeZero();
    } else {
      var x1, y1 := x / 2, y / 2;
      CodeIsZOrder(x1, y1);
      WordStep(x);
      WordStep(y);
      ZOrderStep(x, y);
      hide MortonCode, Word, Val, Halved, ZOrder;
      CodeValWords(Word(x), Word(y), Word(x1), Word(y1), x % 2, y % 2);
    }
  }

  lemma CodeValWords(x: bv64, y: bv64, x1: bv64, y1: bv64, a: nat, b: nat)
    requires Halved(x, x1, a) && Halved(y, y1, b)
    ensures Val(MortonCode(x, y)) == b + 2 * a + 4 * Val(MortonCode(x1, y1))
  {
    hide MortonCode, Val, Bit;
    var c := MortonCode(x, y);
    CodeStep(x, y);
    ValTwice(c);
    SameBit(c, y);
    SameBit(c >> 1, x);
  }

  lemma CodeZero()
    ensures Val(MortonCode(Word(0), Word(0))) == 0
  {
  }

  lemma ValTwice(c: bv64)
    ensures Val(c) == Bit(c) + 2 * Bit(c >> 1) + 4 * Val((c >> 1) >> 1)
  {
  }

  lemma Digits(a: nat, b: nat, rest: nat)
    requires a < 2 && b < 2
    ensures var i := a + 2 * b + 4 * rest; i % 2 == a && (i / 2) % 2 == b && i / 4 == rest
  {
  }

  lemma LowDigit(a: nat, rest: nat)
    requires a < 2
    ensures (a + 2 * rest) % 2 == a && (a + 2 * rest) / 2 == rest
  {
  }

  lemma TwoDigits(i: nat)
    ensures i == i % 2 + 2 * ((i / 2) % 2) + 4 * (i / 4)
  {
  }

  lemma ZOrderStep(x: nat, y: nat)
    ensures ZOrder(x, y) == y % 2 + 2 * (x % 2) + 4 * ZOrder(x / 2, y / 2)
    ensures ZOrder(x, y) == 0 ==> x % 2 == 0 && y % 2 == 0 && ZOrder(x / 2, y / 2) == 0
  {
  }

  lemma ZOrderXYStep(i: nat)
    ensures ZOrderX(i) == (i / 2) % 2 + 2 * ZOrderX(i / 4) && ZOrderY(i) == i % 2 + 2 * ZOrderY(i / 4)
  {
  }

  lemma {:induction false} ZOrderInverse(x: nat, y: nat)
    ensures ZOrderX(ZOrder(x, y)) == x && ZOrderY(ZOrder(x, y)) == y
    decreases x + y
  {
    if x != 0 || y != 0 {
      var rest := ZOrder(x / 2, y / 2);
      ZOrderInverse(x / 2, y / 2);
      hide ZOrder, ZOrderX, ZOrderY;
      ZOrderStep(x, y);
      Digits(y % 2, x % 2, rest);
      ZOrderXYStep(ZOrder(x, y));
    }
  }

  lemma {:induction false} ZOrderOnto(i: nat)
    ensures ZOrder(ZOrderX(i), ZOrderY(i)) == i
  {
    if i != 0 {
      ZOrderOnto(i / 4);
      ZOrderOntoStep(i);
    }
  }

  lemma ZOrderOntoStep(i: nat)
    requires ZOrder(ZOrderX(i / 4), ZOrderY(i / 4)) == i / 4
    ensures ZOrder(ZOrderX(i), ZOrderY(i)) == i
  {
    hide ZOrder, ZOrderX, ZOrderY;
    ZOrderXYStep(i);
    ZOrderStep(ZOrderX(i), ZOrderY(i));
    LowDigit((i / 2) % 2, ZOrderX(i / 4));
    LowDigit(i % 2, ZOrderY(i / 4));
    TwoDigits(i);
  }

  lemma {:induction false} ZOrderBound(x: nat, y: nat, k: nat)
    ensures x < Pow(2, k) && y < Pow(2, k) <==> ZOrder(x, y) < Pow(4, k)
    decreases k
  {
    if k > 0 {
      ZOrderBound(x / 2, y / 2, k - 1);
    } else {
      ZOrderInverse(x, y);
    }
  }

  /* ---- the levels ---- */

  const MAX_Z := 35

  // How many bits a zoom level takes: a metatile is eight tiles wide, but never less than the whole level.
  function LevelSize(z: nat): nat {
    Pow(4, if z > 3 then z - 3 else 0)
  }

  function Offset(z: nat): nat {
    if z == 0 then 0 else Offset(z - 1) + LevelSize(z - 1)
  }

  // The size in bytes of a bitmap for zooms up to `maxZ`.
  function SizeOf(maxZ: nat): nat
    requires maxZ < MAX_Z
  {
    var bits := Offset(maxZ + 1);
    bits / 8 + if bits % 8 > 0 then 1 else 0
  }

  datatype Meta = Meta(x: nat, y: nat, z: nat)

  // The metatiles that exist.
  predicate InRange(m: Meta) {
    var side := Pow(2, if m.z > 3 then m.z - 3 else 0);
    m.z < MAX_Z && m.x < side && m.y < side
  }

  function MetaIdx(m: Meta): nat
    requires m.z <= MAX_Z
  {
    Offset(m.z) + Val(MortonCode(Word(m.x), Word(m.y)))
  }

  // The zoom level, at most `top`, whose bits hold place `i`.
  function ZoomAt(i: nat, top: nat): nat {
    if top == 0 || i >= Offset(top) then top else ZoomAt(i, top - 1)
  }

  function MetaAt(i: nat): Meta {
    var z := ZoomAt(i, MAX_Z);
    if i < Offset(z) then Meta(0, 0, z) else Meta(ZOrderX(i - Offset(z)), ZOrderY(i - Offset(z)), z)
  }

  lemma OffsetNext(z: nat)
    ensures Offset(z + 1) == Offset(z) + LevelSize(z)
  {
  }

  lemma {:induction false} OffsetMono(y: nat, z: nat)
    requires y <= z
    ensures Offset(y) <= Offset(z)
  {
    if y < z {
      OffsetMono(y, z - 1);
    }
  }

  lemma {:induction false} ZoomAtFinds(i: nat, z: nat, top: nat)
    requires z <= top && Offset(z) <= i < Offset(z + 1)
    ensures ZoomAt(i, top) == z
  {
    if z < top {
      OffsetMono(z + 1, top);
      ZoomAtFinds(i, z, top - 1);
    }
  }

  lemma {:induction false} ZoomAtBounds(i: nat, z: nat, top: nat)
    requires i < Offset(z) && 0 < z <= top
    ensures ZoomAt(i, top) < z && Offset(ZoomAt(i, top)) <= i < Offset(ZoomAt(i, top) + 1)
  {
    OffsetMono(z, top);
    if z == top {
      if z > 1 && i < Offset(z - 1) {
        ZoomAtBounds(i, z - 1, z - 1);
      }
    } else {
      ZoomAtBounds(i, z, top - 1);
    }
  }

  // Inside its level a metatile has the place its Morton code gives it.
  lemma MetaIdxInLevel(m: Meta)
    requires InRange(m)
    ensures MetaIdx(m) == Offset(m.z) + ZOrder(m.x, m.y)
    ensures m.z < MAX_Z && Offset(m.z) + ZOrder(m.x, m.y) < Offset(m.z + 1)
  {
    var k := if m.z > 3 then m.z - 3 else 0;
    Pow32();
    PowMono(2, k, 32);
    CodeIsZOrder(m.x, m.y);
    ZOrderBound(m.x, m.y, k);
  }

  lemma MetaAtIn(i: nat, z: nat)
    requires z <= MAX_Z && Offset(z) <= i < Offset(z + 1)
    ensures MetaAt(i) == Meta(ZOrderX(i - Offset(z)), ZOrderY(i - Offset(z)), z)
  {
    hide ZoomAt, Offset, ZOrderX, ZOrderY;
    ZoomAtFinds(i, z, MAX_Z);
  }

  // Different metatiles have different places, and the metatiles of a zoom have places in its level.
  lemma MetaIdxInjective(m: Meta)
    requires InRange(m)
    ensures Offset(m.z) <= MetaIdx(m) < Offset(m.z + 1) && MetaAt(MetaIdx(m)) == m
  {
    hide *;
    MetaIdxInLevel(m);
    ZOrderInverse(m.x, m.y);
    MetaAtIn(MetaIdx(m), m.z);
  }

  // The metatile of a zoom's `j`th place exists.
  lemma MetaInLevel(z: nat, j: nat)
    requires z < MAX_Z && j < LevelSize(z)
    ensures InRange(Meta(ZOrderX(j), ZOrderY(j), z)) && MetaIdx(Meta(ZOrderX(j), ZOrderY(j), z)) == Offset(z) + j
  {
    var m := Meta(ZOrderX(j), ZOrderY(j), z);
    hide ZOrder, ZOrderX, ZOrderY, MetaIdx, Offset;
    ZOrderOnto(j);
    ZOrderBound(m.x, m.y, if z > 3 then z - 3 else 0);
    MetaIdxInLevel(m);
  }

  lemma LevelOf(i: nat, maxZ: nat) returns (z: nat)
    requires maxZ < MAX_Z && i < Offset(maxZ + 1)
    ensures z <= maxZ && Offset(z) <= i < Offset(z + 1) && i - Offset(z) < LevelSize(z)
  {
    z := ZoomAt(i, MAX_Z);
    hide ZoomAt, Offset;
    ZoomAtBounds(i, maxZ + 1, MAX_Z);
    OffsetNext(z);
  }

  // No place is wasted: each of the first `Offset(maxZ + 1)` bits belongs to a metatile of a zoom up to `maxZ`.
  lemma MetaIdxOnto(i: nat, maxZ: nat)
    requires maxZ < MAX_Z && i < Offset(maxZ + 1)
    ensures InRange(MetaAt(i)) && MetaAt(i).z <= maxZ && MetaIdx(MetaAt(i)) == i
  {
    hide *;
    var z := LevelOf(i, maxZ);
    MetaAtIn(i, z);
    MetaInLevel(z, i - Offset(z));
  }

  lemma {:induction false} OffsetClosed(z: nat)
    requires z >= 3
    ensures 3 * Offset(z) == Pow(4, z - 3) + 8
  {
    if z > 3 {
      OffsetClosed(z - 1);
    } else {
      assert Offset(1) == 1 && Offset(2) == 2;
    }
  }

  lemma Pow64()
    ensures Pow(4, 32) == 0x1_0000_0000_0000_0000
  {
    assert Pow(4, 8) == 65536;
    assert Pow(4, 16) == 65536 * 65536;
    assert Pow(4, 24) == 65536 * 65536 * 65536;
  }

  // Every place is a 64-bit number and lies in the bitmap, whose last byte is not empty.
  lemma PlacesFit(maxZ: nat)
    requires maxZ < MAX_Z
    ensures Offset(maxZ + 1) < 0x1_0000_0000_0000_0000
    ensures 8 * (SizeOf(maxZ) - 1) < Offset(maxZ + 1) <= 8 * SizeOf(maxZ)
  {
    OffsetMono(maxZ + 1, MAX_Z);
    OffsetClosed(MAX_Z);
    Pow64();
    OffsetMono(1, maxZ + 1);
    assert Offset(1) == 1;
  }
}
