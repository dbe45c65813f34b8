/** The lanes compute the hash on bits: every step mapping, the shift register, the sponge and the padding. */
module KeccakBits {
  import opened KeccakSpec
  import opened KeccakBitSpec
  import opened KeccakPadding

  // ----- the bits of a lane -----

  // Each law is proved from what holds of the lowest bit and of the lane shifted by one place.

  /** Bit `z` of a lane: the lowest bit after `z` shifts. */
  predicate Bit(lane: bv64, z: nat) {
    if z == 0 then lane & 1 == 1 else Bit(lane >> 1, z - 1)
  }

  predicate IsXor(v: bv64, w: bv64, u: bv64) {
    u == v ^ w
  }

  lemma IsXorShifted(v: bv64, w: bv64, u: bv64)
    requires u == v ^ w
    ensures u >> 1 == (v >> 1) ^ (w >> 1)
    ensures (u & 1 == 1) == ((v & 1 == 1) != (w & 1 == 1))
  {
  }

  lemma IsXorHalves(v: bv64, w: bv64, u: bv64)
    requires IsXor(v, w, u)
    ensures IsXor(v >> 1, w >> 1, u >> 1)
    ensures (u & 1 == 1) == ((v & 1 == 1) != (w & 1 == 1))
  {
    IsXorShifted(v, w, u);
  }

  lemma IsXorFromHalves(v: bv64, w: bv64, u: bv64, v1: bv64, w1: bv64, u1: bv64, z: nat)
    requires v1 == v >> 1 && w1 == w >> 1 && u1 == u >> 1
    requires (u & 1 == 1) == ((v & 1 == 1) != (w & 1 == 1))
    requires z > 0 ==> Bit(u1, z - 1) == Sum(Bit(v1, z - 1), Bit(w1, z - 1))
    ensures Bit(u, z) == Sum(Bit(v, z), Bit(w, z))
  {
  }

  lemma {:induction false} IsXorBits(v: bv64, w: bv64, u: bv64, z: nat)
    requires IsXor(v, w, u)
    ensures Bit(u, z) == Sum(Bit(v, z), Bit(w, z))
    decreases z
  {
    IsXorHalves(v, w, u);
    if z > 0 { IsXorBits(v >> 1, w >> 1, u >> 1, z - 1); }
    IsXorFromHalves(v, w, u, v >> 1, w >> 1, u >> 1, z);
  }

  predicate IsAndOfNot(v: bv64, w: bv64, u: bv64) {
    u == !v & w
  }

  lemma IsAndOfNotShifted(v: bv64, w: bv64, u: bv64)
    requires u == !v & w
    ensures u >> 1 == !(v >> 1) & (w >> 1)
    ensures (u & 1 == 1) == (!(v & 1 == 1) && w & 1 == 1)
  {
  }

  lemma IsAndOfNotHalves(v: bv64, w: bv64, u: bv64)
    requires IsAndOfNot(v, w, u)
    ensures IsAndOfNot(v >> 1, w >> 1, u >> 1)
    ensures (u & 1 == 1) == (!(v & 1 == 1) && w & 1 == 1)
  {
    IsAndOfNotShifted(v, w, u);
  }

  lemma IsAndOfNotFromHalves(v: bv64, w: bv64, u: bv64, v1: bv64, w1: bv64, u1: bv64, z: nat)
    requires v1 == v >> 1 && w1 == w >> 1 && u1 == u >> 1
    requires (u & 1 == 1) == (!(v & 1 == 1) && w & 1 == 1)
    requires z > 0 ==> Bit(u1, z - 1) == (!Bit(v1, z - 1) && Bit(w1, z - 1))
    ensures Bit(u, z) == (!Bit(v, z) && Bit(w, z))
  {
  }

  lemma {:induction false} IsAndOfNotBits(v: bv64, w: bv64, u: bv64, z: nat)
    requires IsAndOfNot(v, w, u)
    ensures Bit(u, z) == (!Bit(v, z) && Bit(w, z))
    decreases z
  {
    IsAndOfNotHalves(v, w, u);
    if z > 0 { IsAndOfNotBits(v >> 1, w >> 1, u >> 1, z - 1); }
    IsAndOfNotFromHalves(v, w, u, v >> 1, w >> 1, u >> 1, z);
  }

  predicate IsAnd(v: bv64, w: bv64, u: bv64) {
    u == v & w
  }

  lemma IsAndShifted(v: bv64, w: bv64, u: bv64)
    requires u == v & w
    ensures u >> 1 == (v >> 1) & (w >> 1)
    ensures (u & 1 == 1) == (v & 1 == 1 && w & 1 == 1)
  {
  }

  lemma IsAndHalves(v: bv64, w: bv64, u: bv64)
    requires IsAnd(v, w, u)
    ensures IsAnd(v >> 1, w >> 1, u >> 1)
    ensures (u & 1 == 1) == (v & 1 == 1 && w & 1 == 1)
  {
    IsAndShifted(v, w, u);
  }

  lemma IsAndFromHalves(v: bv64, w: bv64, u: bv64, v1: bv64, w1: bv64, u1: bv64, z: nat)
    requires v1 == v >> 1 && w1 == w >> 1 && u1 == u >> 1
    requires (u & 1 == 1) == (v & 1 == 1 && w & 1 == 1)
    requires z > 0 ==> Bit(u1, z - 1) == (Bit(v1, z - 1) && Bit(w1, z - 1))
    ensures Bit(u, z) == (Bit(v, z) && Bit(w, z))
  {
  }

  lemma {:induction false} IsAndBits(v: bv64, w: bv64, u: bv64, z: nat)
    requires IsAnd(v, w, u)
    ensures Bit(u, z) == (Bit(v, z) && Bit(w, z))
    decreases z
  {
    IsAndHalves(v, w, u);
    if z > 0 { IsAndBits(v >> 1, w >> 1, u >> 1, z - 1); }
    IsAndFromHalves(v, w, u, v >> 1, w >> 1, u >> 1, z);
  }

  lemma XorBit(v: bv64, w: bv64, z: nat)
    ensures Bit(Xor(v, w), z) == Sum(Bit(v, z), Bit(w, z))
  {
    IsXorBits(v, w, Xor(v, w), z);
  }

  lemma AndOfNotBit(v: bv64, w: bv64, z: nat)
    ensures Bit(AndOfNot(v, w), z) == (!Bit(v, z) && Bit(w, z))
  {
    IsAndOfNotBits(v, w, AndOfNot(v, w), z);
  }

  lemma {:induction false} ZeroBit(z: nat)
    ensures !Bit(0, z)
    decreases z
  {
    if z > 0 { ZeroBit(z - 1); }
  }

  lemma TwoShifts(v: bv64, z: nat)
    ensures Bit(v, z + 2) == Bit(v >> 2, z)
  {
    assert Bit(v, z + 2) == Bit(v >> 1, z + 1);
    assert Bit(v >> 1, z + 1) == Bit((v >> 1) >> 1, z);
    assert (v >> 1) >> 1 == v >> 2;
  }

  lemma FourShifts(v: bv64, z: nat)
    ensures Bit(v, z + 4) == Bit(v >> 4, z)
  {
    TwoShifts(v, z + 2);
    TwoShifts(v >> 2, z);
    assert (v >> 2) >> 2 == v >> 4;
  }

  lemma EightShifts(v: bv64, z: nat)
    ensures Bit(v, z + 8) == Bit(v >> 8, z)
  {
    FourShifts(v, z + 4);
    FourShifts(v >> 4, z);
    assert (v >> 4) >> 4 == v >> 8;
  }

  lemma LowestTwo(v: bv64)
    ensures Bit(v, 0) == (v & 0x01 != 0) && Bit(v, 1) == (v & 0x02 != 0)
  {
    assert Bit(v, 1) == Bit(v >> 1, 0);
  }

  lemma LowestFour(v: bv64)
    ensures Bit(v, 0) == (v & 0x01 != 0) && Bit(v, 1) == (v & 0x02 != 0)
    ensures Bit(v, 2) == (v & 0x04 != 0) && Bit(v, 3) == (v & 0x08 != 0)
  {
    LowestTwo(v);
    LowestTwo(v >> 2);
    TwoShifts(v, 0);
    TwoShifts(v, 1);
  }

  /** The lowest byte by masks. */
  lemma LowestBits(v: bv64)
    ensures Bit(v, 0) == (v & 0x01 != 0) && Bit(v, 1) == (v & 0x02 != 0)
    ensures Bit(v, 2) == (v & 0x04 != 0) && Bit(v, 3) == (v & 0x08 != 0)
    ensures Bit(v, 4) == (v & 0x10 != 0) && Bit(v, 5) == (v & 0x20 != 0)
    ensures Bit(v, 6) == (v & 0x40 != 0) && Bit(v, 7) == (v & 0x80 != 0)
  {
    LowestFour(v);
    LowestFour(v >> 4);
    FourShifts(v, 0);
    FourShifts(v, 1);
    FourShifts(v, 2);
    FourShifts(v, 3);
  }

  const TOP: bv64 := 0x8000_0000_0000_0000
  const ALL_BUT_TOP: bv64 := 0x7fff_ffff_ffff_ffff

  lemma TopOfTop()
    ensures Bit(TOP, 63)
  {
    EightShifts(TOP, 55);
    EightShifts(0x80_0000_0000_0000, 47);
    EightShifts(0x8000_0000_0000, 39);
    EightShifts(0x80_0000_0000, 31);
    EightShifts(0x8000_0000, 23);
    EightShifts(0x80_0000, 15);
    EightShifts(0x8000, 7);
    LowestBits(0x80);
  }

  lemma TopMask(v: bv64)
    ensures v & TOP == if v >> 63 == 1 then TOP else 0
  {
  }

  lemma TopBit(v: bv64)
    ensures Bit(v, 63) == (v >> 63 == 1)
  {
    IsAndBits(v, TOP, v & TOP, 63);
    TopOfTop();
    ZeroBit(63);
    TopMask(v);
  }

  /** The lowest `n` bits are set. */
  ghost predicate OnesBelow(m: bv64, n: nat) {
    forall z: nat :: z < n ==> Bit(m, z)
  }

  lemma OneMoreByte(m: bv64, n: nat)
    requires m & 0xff == 0xff && OnesBelow(m >> 8, n)
    ensures OnesBelow(m, n + 8)
  {
    LowestBits(m);
    forall z: nat | z < n + 8
      ensures Bit(m, z)
    {
      if z >= 8 { EightShifts(m, z - 8); }
    }
  }

  lemma OnesOfAllButTop()
    ensures OnesBelow(ALL_BUT_TOP, 63)
  {
    LowestBits(0x7f);
    OneMoreByte(0x7fff, 7);
    OneMoreByte(0x7f_ffff, 15);
    OneMoreByte(0x7fff_ffff, 23);
    OneMoreByte(0x7f_ffff_ffff, 31);
    OneMoreByte(0x7fff_ffff_ffff, 39);
    OneMoreByte(0x7f_ffff_ffff_ffff, 47);
    OneMoreByte(ALL_BUT_TOP, 55);
  }

  lemma LowerBit(v: bv64, u: bv64, z: nat)
    requires z < 63 && IsAnd(v, ALL_BUT_TOP, u)
    ensures Bit(u, z) == Bit(v, z)
  {
    IsAndBits(v, ALL_BUT_TOP, u, z);
    OnesOfAllButTop();
  }

  lemma HalfOfRotated(v: bv64, r: bv64, h: bv64)
    requires r == RotateOne(v) && h == r >> 1
    ensures IsAnd(v, ALL_BUT_TOP, h)
  {
  }

  lemma NextBit(v: bv64, half: bv64, z: nat)
    requires half == v >> 1 && z > 0
    ensures Bit(v, z) == Bit(half, z - 1)
  {
  }

  lemma RotatedHigher(v: bv64, r: bv64, h: bv64, z: nat)
    requires h == r >> 1 && IsAnd(v, ALL_BUT_TOP, h) && 0 < z < 64
    ensures Bit(r, z) == Bit(v, z - 1)
  {
    NextBit(r, h, z);
    LowerBit(v, h, z - 1);
  }

  lemma RotatedLowest(v: bv64)
    ensures Bit(RotateOne(v), 0) == Bit(v, 63)
  {
    TopBit(v);
  }

  predicate IsRotated(v: bv64, r: bv64) {
    r == RotateOne(v)
  }

  lemma RotatedHigherBit(v: bv64, r: bv64, z: nat)
    requires IsRotated(v, r) && 0 < z < 64
    ensures Bit(r, z) == Bit(v, z - 1)
  {
    HalfOfRotated(v, r, r >> 1);
    RotatedHigher(v, r, r >> 1, z);
  }

  lemma RotatedLowestBit(v: bv64, r: bv64)
    requires IsRotated(v, r)
    ensures Bit(r, 0) == Bit(v, 63)
  {
    RotatedLowest(v);
  }

  lemma RotatedBitAt(v: bv64, r: bv64, z: nat, below: nat)
    requires IsRotated(v, r) && z < 64 && below == if z == 0 then 63 else z - 1
    ensures Bit(r, z) == Bit(v, below)
  {
    if z == 0 {
      RotatedLowestBit(v, r);
    } else {
      RotatedHigherBit(v, r, z);
    }
  }

  /** Rotating moves each bit up by one place, and the top bit to the lowest. */
  lemma RotateOneBit(v: bv64, z: nat)
    requires z < 64
    ensures Bit(RotateOne(v), z) == Bit(v, (z + 63) % 64)
  {
    RotatedBitAt(v, RotateOne(v), z, (z + 63) % 64);
  }

  lemma PlacesDown(z: nat, n: nat)
    requires z < 64 && n > 0
    ensures ((z + 63) % 64 - (n - 1)) % 64 == (z - n) % 64
  {
  }

  lemma {:induction false} RotateBit(v: bv64, n: nat, z: nat)
    requires z < 64
    ensures Bit(Rotate(v, n), z) == Bit(v, (z - n) % 64)
    decreases n
  {
    if n > 0 {
      RotateOneBit(Rotate(v, n - 1), z);
      RotateBit(v, n - 1, (z + 63) % 64);
      PlacesDown(z, n);
    }
  }

  // ----- the laws of a reading -----

  // The step mappings need no more than these laws; a reading is a parameter so that no proof below looks into lanes.

  type Reading = (bv64, nat) -> bool

  ghost predicate ReadsXor(bit: Reading) {
    forall v, w, z: nat {:trigger bit(Xor(v, w), z)} :: bit(Xor(v, w), z) == Sum(bit(v, z), bit(w, z))
  }

  ghost predicate ReadsAndOfNot(bit: Reading) {
    forall v, w, z: nat {:trigger bit(AndOfNot(v, w), z)} :: bit(AndOfNot(v, w), z) == (!bit(v, z) && bit(w, z))
  }

  ghost predicate RotateLaw(bit: Reading, v: bv64, n: nat, z: nat) {
    z < 64 ==> bit(Rotate(v, n), z) == bit(v, (z - n) % 64)
  }

  ghost predicate ReadsRotate(bit: Reading) {
    forall v, n: nat, z: nat :: RotateLaw(bit, v, n, z)
  }

  ghost predicate ReadsConstants(bit: Reading) {
    forall round: nat, z: nat {:trigger bit(RoundConstant(round), z)} ::
      z < 64 ==> bit(RoundConstant(round), z) == RcAt(round, z)
  }

  ghost predicate ReadsBytes(bit: Reading) {
    forall v, k: nat, j: nat {:trigger BitsOfByte(ByteOfLane(v, k))[j]} ::
      k < 8 && j < 8 ==> bit(v, 8 * k + j) == BitsOfByte(ByteOfLane(v, k))[j]
  }

  ghost predicate Reads(bit: Reading) {
    ReadsXor(bit) && ReadsAndOfNot(bit) && ReadsRotate(bit) && ReadsConstants(bit) && ReadsBytes(bit)
  }

  // ----- the state as a string -----

  function StringOf(bit: Reading, a: State): StateString {
    seq(1600, i requires 0 <= i < 1600 => bit(a[i / 64], i % 64))
  }

  lemma BitOfState(bit: Reading, a: State, x: nat, y: nat, z: nat)
    requires x < 5 && y < 5 && z < 64
    ensures A(StringOf(bit, a), x, y, z) == bit(Lane(a, x, y), z)
  {
    var l := 5 * y + x;
    assert (64 * l + z) / 64 == l && (64 * l + z) % 64 == z;
  }

  lemma Place(i: nat)
    requires i < 1600
    ensures i / 64 < 25 && i / 64 % 5 < 5 && i / 64 / 5 < 5 && i % 64 < 64
  {
    LaneIndex(i / 64);
  }

  // ----- the step mappings -----

  lemma FiveXor(bit: Reading, v0: bv64, v1: bv64, v2: bv64, v3: bv64, v4: bv64, z: nat)
    requires ReadsXor(bit)
    ensures bit(Xor(Xor(Xor(Xor(v0, v1), v2), v3), v4), z)
      == Sum(Sum(Sum(Sum(bit(v0, z), bit(v1, z)), bit(v2, z)), bit(v3, z)), bit(v4, z))
  {
    assert bit(Xor(v0, v1), z) == Sum(bit(v0, z), bit(v1, z));
    assert bit(Xor(Xor(v0, v1), v2), z) == Sum(bit(Xor(v0, v1), z), bit(v2, z));
    assert bit(Xor(Xor(Xor(v0, v1), v2), v3), z) == Sum(bit(Xor(Xor(v0, v1), v2), z), bit(v3, z));
  }

  lemma ColumnIsBits(bit: Reading, a: State, x: nat, z: nat)
    requires ReadsXor(bit) && x < 5 && z < 64
    ensures bit(ColumnParity(a, x), z) == ColumnBit(StringOf(bit, a), x, z)
  {
    FiveXor(bit, Lane(a, x, 0), Lane(a, x, 1), Lane(a, x, 2), Lane(a, x, 3), Lane(a, x, 4), z);
    ColumnPlace(bit, a, x, z, bit(ColumnParity(a, x), z));
  }

  lemma ColumnPlace(bit: Reading, a: State, x: nat, z: nat, parity: bool)
    requires x < 5 && z < 64
    requires parity == Sum(Sum(Sum(Sum(bit(Lane(a, x, 0), z), bit(Lane(a, x, 1), z)), bit(Lane(a, x, 2), z)),
      bit(Lane(a, x, 3), z)), bit(Lane(a, x, 4), z))
    ensures parity == ColumnBit(StringOf(bit, a), x, z)
  {
    BitOfState(bit, a, x, 0, z);
    BitOfState(bit, a, x, 1, z);
    BitOfState(bit, a, x, 2, z);
    BitOfState(bit, a, x, 3, z);
    BitOfState(bit, a, x, 4, z);
  }

  lemma EffectIsBits(bit: Reading, a: State, x: nat, z: nat)
    requires ReadsXor(bit) && ReadsRotate(bit) && x < 5 && z < 64
    ensures bit(ThetaEffect(a, x), z) == Sum(ColumnBit(StringOf(bit, a), (x + 4) % 5, z),
      ColumnBit(StringOf(bit, a), (x + 1) % 5, (z + 63) % 64))
  {
    ColumnIsBits(bit, a, (x + 4) % 5, z);
    ColumnIsBits(bit, a, (x + 1) % 5, (z + 63) % 64);
    assert RotateLaw(bit, ColumnParity(a, (x + 1) % 5), 1, z);
    assert (z - 1) % 64 == (z + 63) % 64;
  }

  lemma ThetaIsBits(bit: Reading, a: State, x: nat, y: nat, z: nat)
    requires ReadsXor(bit) && ReadsRotate(bit) && x < 5 && y < 5 && z < 64
    ensures bit(ThetaAt(a, x, y), z) == ThetaBit(StringOf(bit, a), x, y, z)
  {
    BitOfState(bit, a, x, y, z);
    EffectIsBits(bit, a, x, z);
  }

  lemma RotatedBit(bit: Reading, a: State, x: nat, y: nat, n: nat, z: nat)
    requires ReadsRotate(bit) && x < 5 && y < 5 && z < 64
    ensures bit(Rotate(Lane(a, x, y), n), z) == A(StringOf(bit, a), x, y, (z - n) % 64)
  {
    BitOfState(bit, a, x, y, (z - n) % 64);
    assert RotateLaw(bit, Lane(a, x, y), n, z);
  }

  lemma RhoIsBits(bit: Reading, a: State, x: nat, y: nat, z: nat)
    requires ReadsRotate(bit) && x < 5 && y < 5 && z < 64
    ensures bit(RhoAt(a, x, y), z) == RhoBit(StringOf(bit, a), x, y, z)
  {
    var n := RhoOffset(x, y);
    RhoLane(a, x, y, n);
    RotatedBit(bit, a, x, y, n, z);
    RhoBitOfLane(bit, RhoAt(a, x, y), a, x, y, n, z);
  }

  lemma RhoLane(a: State, x: nat, y: nat, n: nat)
    requires x < 5 && y < 5 && n == RhoOffset(x, y)
    ensures RhoAt(a, x, y) == Rotate(Lane(a, x, y), n)
  {
  }

  lemma RhoBitOfLane(bit: Reading, lane: bv64, a: State, x: nat, y: nat, n: nat, z: nat)
    requires x < 5 && y < 5 && z < 64 && n == RhoOffset(x, y)
    requires bit(lane, z) == A(StringOf(bit, a), x, y, (z - n) % 64)
    ensures bit(lane, z) == RhoBit(StringOf(bit, a), x, y, z)
  {
  }

  lemma PiIsBits(bit: Reading, a: State, x: nat, y: nat, z: nat)
    requires x < 5 && y < 5 && z < 64
    ensures bit(PiAt(a, x, y), z) == PiBit(StringOf(bit, a), x, y, z)
  {
    BitOfState(bit, a, (x + 3 * y) % 5, x, z);
  }

  lemma ChiIsBits(bit: Reading, a: State, x: nat, y: nat, z: nat)
    requires ReadsXor(bit) && ReadsAndOfNot(bit) && x < 5 && y < 5 && z < 64
    ensures bit(ChiAt(a, x, y), z) == ChiBit(StringOf(bit, a), x, y, z)
  {
    BitOfState(bit, a, x, y, z);
    BitOfState(bit, a, (x + 1) % 5, y, z);
    BitOfState(bit, a, (x + 2) % 5, y, z);
  }

  lemma IotaIsBits(bit: Reading, a: State, round: nat, x: nat, y: nat, z: nat)
    requires ReadsXor(bit) && ReadsConstants(bit) && x < 5 && y < 5 && z < 64
    ensures bit(Lane(Iota(a, round), x, y), z) == IotaBit(StringOf(bit, a), round, x, y, z)
  {
    BitOfState(bit, a, x, y, z);
    IotaLane(a, round, RoundConstant(round), x, y);
  }

  lemma IotaLane(a: State, round: nat, rc: bv64, x: nat, y: nat)
    requires x < 5 && y < 5 && rc == RoundConstant(round)
    ensures Lane(Iota(a, round), x, y) == if x == 0 && y == 0 then Xor(Lane(a, x, y), rc) else Lane(a, x, y)
  {
  }

  lemma ThetaPlace(bit: Reading, a: State, s: StateString, l: nat, x: nat, y: nat, z: nat)
    requires ReadsXor(bit) && ReadsRotate(bit) && s == StringOf(bit, a)
    requires l < 25 && x == l % 5 && y == l / 5 && z < 64
    ensures y < 5 && bit(Theta(a)[l], z) == ThetaBit(s, x, y, z)
  {
    assert Theta(a)[l] == ThetaAt(a, x, y);
    ThetaIsBits(bit, a, x, y, z);
  }

  lemma ThetaOfString(bit: Reading, a: State)
    requires ReadsXor(bit) && ReadsRotate(bit)
    ensures StringOf(bit, Theta(a)) == ThetaString(StringOf(bit, a))
  {
    forall i | 0 <= i < 1600
      ensures StringOf(bit, Theta(a))[i] == ThetaString(StringOf(bit, a))[i]
    {
      Place(i);
      ThetaPlace(bit, a, StringOf(bit, a), i / 64, i / 64 % 5, i / 64 / 5, i % 64);
    }
  }

  lemma RhoPlace(bit: Reading, a: State, s: StateString, l: nat, x: nat, y: nat, z: nat)
    requires ReadsRotate(bit) && s == StringOf(bit, a)
    requires l < 25 && x == l % 5 && y == l / 5 && z < 64
    ensures y < 5 && bit(Rho(a)[l], z) == RhoBit(s, x, y, z)
  {
    assert Rho(a)[l] == RhoAt(a, x, y);
    RhoIsBits(bit, a, x, y, z);
  }

  lemma RhoOfString(bit: Reading, a: State)
    requires ReadsRotate(bit)
    ensures StringOf(bit, Rho(a)) == RhoString(StringOf(bit, a))
  {
    forall i | 0 <= i < 1600
      ensures StringOf(bit, Rho(a))[i] == RhoString(StringOf(bit, a))[i]
    {
      Place(i);
      RhoPlace(bit, a, StringOf(bit, a), i / 64, i / 64 % 5, i / 64 / 5, i % 64);
    }
  }

  lemma PiPlace(bit: Reading, a: State, s: StateString, l: nat, x: nat, y: nat, z: nat)
    requires s == StringOf(bit, a)
    requires l < 25 && x == l % 5 && y == l / 5 && z < 64
    ensures y < 5 && bit(Pi(a)[l], z) == PiBit(s, x, y, z)
  {
    assert Pi(a)[l] == PiAt(a, x, y);
    PiIsBits(bit, a, x, y, z);
  }

  lemma PiOfString(bit: Reading, a: State)
    ensures StringOf(bit, Pi(a)) == PiString(StringOf(bit, a))
  {
    forall i | 0 <= i < 1600
      ensures StringOf(bit, Pi(a))[i] == PiString(StringOf(bit, a))[i]
    {
      Place(i);
      PiPlace(bit, a, StringOf(bit, a), i / 64, i / 64 % 5, i / 64 / 5, i % 64);
    }
  }

  lemma ChiPlace(bit: Reading, a: State, s: StateString, l: nat, x: nat, y: nat, z: nat)
    requires ReadsXor(bit) && ReadsAndOfNot(bit) && s == StringOf(bit, a)
    requires l < 25 && x == l % 5 && y == l / 5 && z < 64
    ensures y < 5 && bit(Chi(a)[l], z) == ChiBit(s, x, y, z)
  {
    assert Chi(a)[l] == ChiAt(a, x, y);
    ChiIsBits(bit, a, x, y, z);
  }

  lemma ChiOfString(bit: Reading, a: State)
    requires ReadsXor(bit) && ReadsAndOfNot(bit)
    ensures StringOf(bit, Chi(a)) == ChiString(StringOf(bit, a))
  {
    forall i | 0 <= i < 1600
      ensures StringOf(bit, Chi(a))[i] == ChiString(StringOf(bit, a))[i]
    {
      Place(i);
      ChiPlace(bit, a, StringOf(bit, a), i / 64, i / 64 % 5, i / 64 / 5, i % 64);
    }
  }

  lemma IotaPlace(bit: Reading, a: State, round: nat, s: StateString, l: nat, x: nat, y: nat, z: nat)
    requires ReadsXor(bit) && ReadsConstants(bit) && s == StringOf(bit, a)
    requires l < 25 && x == l % 5 && y == l / 5 && z < 64
    ensures y < 5 && bit(Iota(a, round)[l], z) == IotaBit(s, round, x, y, z)
  {
    assert Iota(a, round)[l] == Lane(Iota(a, round), x, y);
    IotaIsBits(bit, a, round, x, y, z);
  }

  lemma IotaOfString(bit: Reading, a: State, round: nat)
    requires ReadsXor(bit) && ReadsConstants(bit)
    ensures StringOf(bit, Iota(a, round)) == IotaString(StringOf(bit, a), round)
  {
    forall i | 0 <= i < 1600
      ensures StringOf(bit, Iota(a, round))[i] == IotaString(StringOf(bit, a), round)[i]
    {
      Place(i);
      IotaPlace(bit, a, round, StringOf(bit, a), i / 64, i / 64 % 5, i / 64 / 5, i % 64);
    }
  }

  lemma RoundOfString(bit: Reading, a: State, round: nat)
    requires Reads(bit)
    ensures StringOf(bit, Round(a, round)) == RoundString(StringOf(bit, a), round)
  {
    ThetaOfString(bit, a);
    RhoOfString(bit, Theta(a));
    PiOfString(bit, Rho(Theta(a)));
    ChiOfString(bit, Pi(Rho(Theta(a))));
    IotaOfString(bit, Chi(Pi(Rho(Theta(a)))), round);
  }

  ghost predicate RoundLaw(bit: Reading, a: State, round: nat) {
    StringOf(bit, Round(a, round)) == RoundString(StringOf(bit, a), round)
  }

  ghost predicate RoundsCommute(bit: Reading) {
    forall a: State, round: nat :: RoundLaw(bit, a, round)
  }

  lemma EveryRoundOfString(bit: Reading)
    requires Reads(bit)
    ensures RoundsCommute(bit)
  {
    forall a: State, round: nat
      ensures RoundLaw(bit, a, round)
    {
      RoundOfString(bit, a, round);
    }
  }

  lemma RoundsUnfold(a: State, s: StateString, n: nat)
    requires n > 0
    ensures Rounds(a, n) == Round(Rounds(a, n - 1), n - 1)
    ensures RoundsString(s, n) == RoundString(RoundsString(s, n - 1), n - 1)
  {
  }

  /** The string follows the state through the first `n` rounds. */
  ghost predicate RoundsLaw(bit: Reading, a: State, n: nat) {
    && (n > 0 ==> RoundsLaw(bit, a, n - 1))
    && StringOf(bit, Rounds(a, n)) == RoundsString(StringOf(bit, a), n)
  }

  lemma RoundsNext(bit: Reading, a: State, n: nat)
    requires n > 0 && RoundLaw(bit, Rounds(a, n - 1), n - 1) && RoundsLaw(bit, a, n - 1)
    ensures RoundsLaw(bit, a, n)
  {
    RoundsUnfold(a, StringOf(bit, a), n);
  }

  lemma NoRounds(bit: Reading, a: State)
    ensures RoundsLaw(bit, a, 0)
  {
  }

  lemma RoundsStep(bit: Reading, a: State, n: nat)
    requires n > 0 && RoundsCommute(bit) && RoundsLaw(bit, a, n - 1)
    ensures RoundsLaw(bit, a, n)
  {
    assert RoundLaw(bit, Rounds(a, n - 1), n - 1);
    RoundsNext(bit, a, n);
  }

  lemma {:induction false} RoundsOfString(bit: Reading, a: State, n: nat)
    requires RoundsCommute(bit)
    ensures RoundsLaw(bit, a, n)
    decreases n
  {
    if n == 0 {
      NoRounds(bit, a);
    } else {
      RoundsOfString(bit, a, n - 1);
      RoundsStep(bit, a, n);
    }
  }

  // ----- the sponge -----

  lemma BitsAfterFirst(bytes: seq<bv8>, k: nat, j: nat)
    requires 0 < k < |bytes| && j < 8
    ensures BitsOf(bytes)[8 * k + j] == BitsOf(bytes[1..])[8 * (k - 1) + j]
  {
  }

  lemma {:induction false} BitOfBytes(bytes: seq<bv8>, k: nat, j: nat)
    requires k < |bytes| && j < 8
    ensures BitsOf(bytes)[8 * k + j] == BitsOfByte(bytes[k])[j]
    decreases k
  {
    if k > 0 {
      BitsAfterFirst(bytes, k, j);
      BitOfBytes(bytes[1..], k - 1, j);
    }
  }

  /** Bit `j` of byte `k` of a lane is bit 8k + j of the lane. */
  lemma PackedBit(bit: Reading, bytes: seq<bv8>, k: nat, j: nat)
    requires ReadsBytes(bit) && |bytes| == 8 && k < 8 && j < 8
    ensures bit(LaneOfBytes(bytes), 8 * k + j) == BitsOfByte(bytes[k])[j]
  {
    LaneRoundTrip(bytes, k);
    assert BitsOfByte(ByteOfLane(LaneOfBytes(bytes), k))[j] == BitsOfByte(bytes[k])[j];
  }

  lemma BlockBit(block: seq<bv8>, l: nat, k: nat, j: nat)
    requires |block| == 136 && l < 17 && k < 8 && j < 8
    ensures BitsOf(block)[64 * l + (8 * k + j)] == BitsOfByte(block[8 * l + k])[j]
  {
    BitOfBytes(block, 8 * l + k, j);
    ByteOfBlock(l, k, j);
  }

  lemma ByteOfBlock(l: nat, k: nat, j: nat)
    ensures 8 * (8 * l + k) + j == 64 * l + (8 * k + j)
  {
  }

  lemma SumOfBlock(bit: Reading, a: State, block: seq<bv8>, l: nat, k: nat, j: nat)
    requires ReadsXor(bit) && ReadsBytes(bit) && |block| == 136 && l < 17 && k < 8 && j < 8
    ensures bit(XorBlock(a, block)[l], 8 * k + j) == Sum(bit(a[l], 8 * k + j), BitsOf(block)[64 * l + (8 * k + j)])
  {
    var bytes := block[8 * l..8 * l + 8];
    PackedBit(bit, bytes, k, j);
    BlockBit(block, l, k, j);
    assert bytes[k] == block[8 * l + k];
    SumOfLane(bit, a, block, l, bytes, 8 * k + j);
  }

  lemma SumOfLane(bit: Reading, a: State, block: seq<bv8>, l: nat, bytes: seq<bv8>, z: nat)
    requires ReadsXor(bit) && |block| == 136 && l < 17 && bytes == block[8 * l..8 * l + 8]
    ensures bit(XorBlock(a, block)[l], z) == Sum(bit(a[l], z), bit(LaneOfBytes(bytes), z))
  {
  }

  lemma PlaceInBytes(i: nat)
    requires i < 1600
    ensures i == 64 * (i / 64) + i % 64 && i % 64 == 8 * (i % 64 / 8) + i % 8 && i % 64 / 8 < 8
    ensures i / 64 < 17 <==> i < 1088
  {
  }

  lemma BlockPlace(bit: Reading, a: State, block: seq<bv8>, i: nat, l: nat, k: nat, j: nat)
    requires ReadsXor(bit) && ReadsBytes(bit) && |block| == 136 && l < 17 && k < 8 && j < 8
    requires l == i / 64 && 8 * k + j == i % 64 && i == 64 * l + (8 * k + j)
    ensures bit(XorBlock(a, block)[i / 64], i % 64) == Sum(bit(a[i / 64], i % 64), BitsOf(block)[i])
  {
    SumOfBlock(bit, a, block, l, k, j);
  }

  lemma CapacityPlace(bit: Reading, a: State, block: seq<bv8>, i: nat)
    requires |block| == 136 && 17 <= i / 64 < 25
    ensures bit(XorBlock(a, block)[i / 64], i % 64) == Sum(bit(a[i / 64], i % 64), false)
  {
  }

  lemma BlockBitOfString(bit: Reading, a: State, block: seq<bv8>, i: nat)
    requires ReadsXor(bit) && ReadsBytes(bit) && |block| == 136 && i < 1600
    ensures bit(XorBlock(a, block)[i / 64], i % 64)
      == Sum(bit(a[i / 64], i % 64), if i < 1088 then BitsOf(block)[i] else false)
  {
    PlaceInBytes(i);
    if i < 1088 {
      BlockPlace(bit, a, block, i, i / 64, i % 64 / 8, i % 8);
    } else {
      CapacityPlace(bit, a, block, i);
    }
  }

  lemma BlockOfString(bit: Reading, a: State, block: seq<bv8>, p: seq<bool>)
    requires ReadsXor(bit) && ReadsBytes(bit) && |block| == 136 && p == BitsOf(block) + FalseBits(512)
    ensures StringOf(bit, XorBlock(a, block)) == SumString(StringOf(bit, a), p)
  {
    forall i | 0 <= i < 1600
      ensures StringOf(bit, XorBlock(a, block))[i] == SumString(StringOf(bit, a), p)[i]
    {
      BlockBitOfString(bit, a, block, i);
      assert p[i] == if i < 1088 then BitsOf(block)[i] else false;
    }
  }

  ghost predicate BlockLaw(bit: Reading, a: State, block: seq<bv8>) {
    |block| == 136 ==>
      StringOf(bit, XorBlock(a, block)) == SumString(StringOf(bit, a), BitsOf(block) + FalseBits(512))
  }

  ghost predicate BlocksCommute(bit: Reading) {
    forall a: State, block: seq<bv8> :: BlockLaw(bit, a, block)
  }

  lemma EveryBlockOfString(bit: Reading)
    requires ReadsXor(bit) && ReadsBytes(bit)
    ensures BlocksCommute(bit)
  {
    forall a: State, block: seq<bv8>
      ensures BlockLaw(bit, a, block)
    {
      if |block| == 136 { BlockOfString(bit, a, block, BitsOf(block) + FalseBits(512)); }
    }
  }

  lemma FrontBits(bytes: seq<bv8>, n: nat)
    requires n <= |bytes|
    ensures BitsOf(bytes)[..8 * n] == BitsOf(bytes[..n]) && BitsOf(bytes)[8 * n..] == BitsOf(bytes[n..])
  {
    BitsOfHalves(bytes, bytes[..n], bytes[n..], n);
  }

  lemma BitsOfHalves(bytes: seq<bv8>, front: seq<bv8>, back: seq<bv8>, n: nat)
    requires bytes == front + back && |front| == n
    ensures BitsOf(bytes)[..8 * n] == BitsOf(front) && BitsOf(bytes)[8 * n..] == BitsOf(back)
  {
    BitsOfConcat(front, back);
    Halves(BitsOf(front), BitsOf(back), BitsOf(bytes), 8 * n);
  }

  lemma Halves(front: seq<bool>, back: seq<bool>, all: seq<bool>, n: nat)
    requires all == front + back && |front| == n
    ensures all[..n] == front && all[n..] == back
  {
  }

  lemma AbsorbUnfold(a: State, blocks: seq<bv8>, s: StateString, p: seq<bool>)
    requires |blocks| >= 136 && p == BitsOf(blocks)
    ensures Absorb(Permute, a, blocks) == Absorb(Permute, Rounds(XorBlock(a, blocks[..136]), 24), blocks[136..])
    ensures AbsorbString(s, p)
      == AbsorbString(RoundsString(SumString(s, BitsOf(blocks[..136]) + FalseBits(512)), 24), BitsOf(blocks[136..]))
  {
    FrontBits(blocks, 136);
  }

  lemma {:induction false} AbsorbOfString(bit: Reading, a: State, blocks: seq<bv8>)
    requires BlocksCommute(bit) && RoundsCommute(bit)
    ensures StringOf(bit, Absorb(Permute, a, blocks)) == AbsorbString(StringOf(bit, a), BitsOf(blocks))
    decreases |blocks|
  {
    if |blocks| >= 136 {
      var sum := XorBlock(a, blocks[..136]);
      assert BlockLaw(bit, a, blocks[..136]);
      RoundsOfString(bit, sum, 24);
      AbsorbOfString(bit, Rounds(sum, 24), blocks[136..]);
      AbsorbUnfold(a, blocks, StringOf(bit, a), BitsOf(blocks));
    }
  }

  lemma SqueezedByte(bit: Reading, a: State, k: nat, j: nat)
    requires ReadsBytes(bit) && k < 32 && j < 8
    ensures BitsOf(Squeeze(a))[8 * k + j] == bit(a[k / 8], 8 * (k % 8) + j)
  {
    BitOfBytes(Squeeze(a), k, j);
    assert BitsOfByte(ByteOfLane(a[k / 8], k % 8))[j] == bit(a[k / 8], 8 * (k % 8) + j);
  }

  lemma SqueezeBit(bit: Reading, a: State, i: nat)
    requires ReadsBytes(bit) && i < 256
    ensures BitsOf(Squeeze(a))[i] == StringOf(bit, a)[i]
  {
    var k, j := i / 8, i % 8;
    assert 8 * k + j == i && i / 64 == k / 8 && 8 * (k % 8) + j == i % 64;
    SqueezedByte(bit, a, k, j);
  }

  lemma SqueezeOfString(bit: Reading, a: State)
    requires ReadsBytes(bit)
    ensures BitsOf(Squeeze(a)) == StringOf(bit, a)[..256]
  {
    forall i | 0 <= i < 256
      ensures BitsOf(Squeeze(a))[i] == StringOf(bit, a)[i]
    {
      SqueezeBit(bit, a, i);
    }
  }

  // ----- the bits of a byte of a lane -----

  lemma LowByteMasks(v: bv64)
    ensures BitsOfByte((v & 0xff) as bv8) == [v & 0x01 != 0, v & 0x02 != 0, v & 0x04 != 0, v & 0x08 != 0,
      v & 0x10 != 0, v & 0x20 != 0, v & 0x40 != 0, v & 0x80 != 0]
  {
  }

  lemma LowByteBit(v: bv64, j: nat)
    requires j < 8
    ensures Bit(v, j) == BitsOfByte((v & 0xff) as bv8)[j]
  {
    LowByteMasks(v);
    MaskedBit(v, j, BitsOfByte((v & 0xff) as bv8));
  }

  lemma MaskedBit(v: bv64, j: nat, bits: seq<bool>)
    requires j < 8 && bits == [v & 0x01 != 0, v & 0x02 != 0, v & 0x04 != 0, v & 0x08 != 0,
      v & 0x10 != 0, v & 0x20 != 0, v & 0x40 != 0, v & 0x80 != 0]
    ensures Bit(v, j) == bits[j]
  {
    LowestBits(v);
  }

  lemma {:induction false} ByteBit(v: bv64, k: nat, j: nat)
    requires j < 8
    ensures Bit(v, 8 * k + j) == BitsOfByte(ByteOfLane(v, k))[j]
    decreases k
  {
    if k == 0 {
      LowByteBit(v, j);
    } else {
      EightShifts(v, 8 * (k - 1) + j);
      ByteBit(v >> 8, k - 1, j);
    }
  }

  // ----- the round constants -----

  lemma {:induction false} RegisterIsLfsr(t: nat)
    ensures Register(t) == BitsOfByte(Lfsr(t))
    decreases t
  {
    if t > 0 {
      RegisterIsLfsr(t - 1);
      LfsrStepBits(Lfsr(t - 1));
    }
  }

  lemma LfsrStepBits(r: bv8)
    ensures LfsrBits(BitsOfByte(r)) == BitsOfByte(LfsrStep(r))
  {
  }

  /** Only bit `place` of the word is set. */
  ghost predicate Single(m: bv64, place: nat) {
    forall z: nat {:trigger Bit(m, z)} :: Bit(m, z) <==> z == place
  }

  lemma SmallSingle(m: bv64, place: nat)
    requires place < 8 && m == [0x01, 0x02, 0x04, 0x08, 0x10, 0x20, 0x40, 0x80][place]
    ensures Single(m, place)
  {
    LowestBits(m);
    forall z: nat
      ensures Bit(m, z) <==> z == place
    {
      if z >= 8 {
        EightShifts(m, z - 8);
        ZeroBit(z - 8);
      }
    }
  }

  lemma SingleUp(m: bv64, up: bv64, place: nat)
    requires Single(m, place) && up >> 8 == m && up & 0xff == 0
    ensures Single(up, place + 8)
  {
    LowestBits(up);
    forall z: nat
      ensures Bit(up, z) <==> z == place + 8
    {
      if z >= 8 { EightShifts(up, z - 8); }
    }
  }

  lemma Singles()
    ensures Single(0x1, 0)
    ensures Single(0x2, 1)
    ensures Single(0x8, 3)
    ensures Single(0x80, 7)
    ensures Single(0x8000, 15)
    ensures Single(0x8000_0000, 31)
    ensures Single(0x8000_0000_0000_0000, 63)
  {
    SmallSingle(0x1, 0);
    SmallSingle(0x2, 1);
    SmallSingle(0x8, 3);
    SmallSingle(0x80, 7);
    SingleUp(0x80, 0x8000, 7);
    SingleUp(0x8000, 0x80_0000, 15);
    SingleUp(0x80_0000, 0x8000_0000, 23);
    SingleUp(0x8000_0000, 0x80_0000_0000, 31);
    SingleUp(0x80_0000_0000, 0x8000_0000_0000, 39);
    SingleUp(0x8000_0000_0000, 0x80_0000_0000_0000, 47);
    SingleUp(0x80_0000_0000_0000, 0x8000_0000_0000_0000, 55);
  }

  /** The word with one more bit, given by its mask, if `b` holds. */
  function Put(v: bv64, b: bool, m: bv64): bv64 {
    v ^ (if b then m else 0)
  }

  lemma PutBit(v: bv64, b: bool, m: bv64, place: nat, z: nat)
    requires Single(m, place)
    ensures Bit(Put(v, b, m), z) == Sum(Bit(v, z), b && z == place)
  {
    var w := if b then m else 0;
    IsXorBits(v, w, Put(v, b, m), z);
    if !b { ZeroBit(z); }
  }

  ghost predicate PutLaw(bit: Reading, v: bv64, b: bool, m: bv64, place: nat, z: nat) {
    bit(Put(v, b, m), z) == Sum(bit(v, z), b && z == place)
  }

  ghost predicate ReadsPut(bit: Reading, m: bv64, place: nat) {
    forall v, b, z: nat :: PutLaw(bit, v, b, m, place, z)
  }

  /** The first `n` of the given bits, at the places that the masks give. */
  function PutAll(bits: seq<bool>, masks: seq<bv64>, n: nat): bv64
    requires n <= |bits| && n <= |masks|
  {
    if n == 0 then 0 else Put(PutAll(bits, masks, n - 1), bits[n - 1], masks[n - 1])
  }

  function SumAt(bits: seq<bool>, places: seq<nat>, n: nat, z: nat): bool
    requires n <= |bits| && n <= |places|
  {
    if n == 0 then false else Sum(SumAt(bits, places, n - 1, z), bits[n - 1] && z == places[n - 1])
  }

  ghost predicate ReadsPuts(bit: Reading, masks: seq<bv64>, places: seq<nat>) {
    && |masks| == |places|
    && (forall i :: 0 <= i < |masks| ==> ReadsPut(bit, masks[i], places[i]))
    && forall z: nat {:trigger bit(0, z)} :: !bit(0, z)
  }

  lemma {:induction false} PutAllBit(
    bit: Reading, bits: seq<bool>, masks: seq<bv64>, places: seq<nat>, n: nat, z: nat)
    requires ReadsPuts(bit, masks, places) && n <= |bits| && n <= |masks|
    ensures bit(PutAll(bits, masks, n), z) == SumAt(bits, places, n, z)
    decreases n
  {
    if n > 0 {
      PutAllBit(bit, bits, masks, places, n - 1, z);
      assert PutLaw(bit, PutAll(bits, masks, n - 1), bits[n - 1], masks[n - 1], places[n - 1], z);
    }
  }

  const MASKS: seq<bv64> := [0x1, 0x2, 0x8, 0x80, 0x8000, 0x8000_0000, 0x8000_0000_0000_0000]
  const PLACES: seq<nat> := [0, 1, 3, 7, 15, 31, 63]

  function Placed(b0: bool, b1: bool, b2: bool, b3: bool, b4: bool, b5: bool, b6: bool): bv64 {
    Put(Put(Put(Put(Put(Put(Put(0, b0, 0x1), b1, 0x2), b2, 0x8), b3, 0x80), b4, 0x8000), b5, 0x8000_0000), b6,
      0x8000_0000_0000_0000)
  }

  lemma PlacedIsConstant(bits: seq<bool>)
    requires |bits| == 7
    ensures Placed(bits[0], bits[1], bits[2], bits[3], bits[4], bits[5], bits[6]) == Constant(bits)
  {
    if bits[0] {
      if bits[1] {
      } else {
      }
    } else {
      if bits[1] {
      } else {
      }
    }
  }

  lemma PutStep(bits: seq<bool>, masks: seq<bv64>, n: nat, v: bv64, b: bool, m: bv64)
    requires n < |bits| && n < |masks| && v == PutAll(bits, masks, n) && b == bits[n] && m == masks[n]
    ensures PutAll(bits, masks, n + 1) == Put(v, b, m)
  {
  }

  lemma PutAllIsPlaced(bits: seq<bool>, masks: seq<bv64>)
    requires |bits| == 7 && masks == MASKS
    ensures PutAll(bits, masks, 7) == Placed(bits[0], bits[1], bits[2], bits[3], bits[4], bits[5], bits[6])
  {
    PutStep(bits, masks, 0, 0, bits[0], 0x1);
    PutStep(bits, masks, 1, PutAll(bits, masks, 1), bits[1], 0x2);
    PutStep(bits, masks, 2, PutAll(bits, masks, 2), bits[2], 0x8);
    PutStep(bits, masks, 3, PutAll(bits, masks, 3), bits[3], 0x80);
    PutStep(bits, masks, 4, PutAll(bits, masks, 4), bits[4], 0x8000);
    PutStep(bits, masks, 5, PutAll(bits, masks, 5), bits[5], 0x8000_0000);
    PutStep(bits, masks, 6, PutAll(bits, masks, 6), bits[6], 0x8000_0000_0000_0000);
  }

  predicate Places(b: seq<bool>, z: nat)
    requires |b| == 7
  {
    || (b[0] && z == 0) || (b[1] && z == 1) || (b[2] && z == 3) || (b[3] && z == 7) || (b[4] && z == 15)
    || (b[5] && z == 31) || (b[6] && z == 63)
  }

  lemma SumOfSeven(bits: seq<bool>, places: seq<nat>, z: nat)
    requires |bits| == 7 && places == PLACES
    ensures SumAt(bits, places, 7, z) == Places(bits, z)
  {
    assert SumAt(bits, places, 1, z) <==> bits[0] && z == 0;
    assert SumAt(bits, places, 2, z) <==> (bits[0] && z == 0) || (bits[1] && z == 1);
    assert SumAt(bits, places, 3, z) <==> SumAt(bits, places, 2, z) || (bits[2] && z == 3);
    assert SumAt(bits, places, 4, z) <==> SumAt(bits, places, 3, z) || (bits[3] && z == 7);
    assert SumAt(bits, places, 5, z) <==> SumAt(bits, places, 4, z) || (bits[4] && z == 15);
    assert SumAt(bits, places, 6, z) <==> SumAt(bits, places, 5, z) || (bits[5] && z == 31);
    assert SumAt(bits, places, 7, z) <==> SumAt(bits, places, 6, z) || (bits[6] && z == 63);
  }

  lemma RcBitsFromRegister(t: nat)
    ensures RcBits(t) == [Rc(t), Rc(t + 1), Rc(t + 2), Rc(t + 3), Rc(t + 4), Rc(t + 5), Rc(t + 6)]
  {
    RcIsBit(t);
    RcIsBit(t + 1);
    RcIsBit(t + 2);
    RcIsBit(t + 3);
    RcIsBit(t + 4);
    RcIsBit(t + 5);
    RcIsBit(t + 6);
  }

  lemma RcAtPlaces(round: nat, t: nat, bits: seq<bool>, z: nat)
    requires t == 7 * round
    requires |bits| == 7 && bits[0] == Rc(t) && bits[1] == Rc(t + 1) && bits[2] == Rc(t + 2) && bits[3] == Rc(t + 3)
    requires bits[4] == Rc(t + 4) && bits[5] == Rc(t + 5) && bits[6] == Rc(t + 6)
    ensures RcAt(round, z) == Places(bits, z)
  {
  }

  lemma SumIsRcAt(round: nat, bits: seq<bool>, places: seq<nat>, z: nat)
    requires bits == RcBits(7 * round) && places == PLACES
    ensures SumAt(bits, places, 7, z) == RcAt(round, z)
  {
    SumOfSeven(bits, places, z);
    RcBitsFromRegister(7 * round);
    RcAtPlaces(round, 7 * round, bits, z);
  }

  lemma RcIsBit(t: nat)
    ensures RcBit(t) == Rc(t)
  {
    RegisterIsLfsr(t);
  }

  lemma RoundConstantBit(bit: Reading, round: nat, z: nat)
    requires ReadsPuts(bit, MASKS, PLACES)
    ensures bit(RoundConstant(round), z) == RcAt(round, z)
  {
    var bits := RcBits(7 * round);
    ConstantIsRead(bit, bits, z);
    SumIsRcAt(round, bits, PLACES, z);
  }

  lemma ConstantIsRead(bit: Reading, bits: seq<bool>, z: nat)
    requires ReadsPuts(bit, MASKS, PLACES) && |bits| == 7
    ensures bit(Constant(bits), z) == SumAt(bits, PLACES, 7, z)
  {
    PlacedIsConstant(bits);
    PutAllIsPlaced(bits, MASKS);
    PutAllBit(bit, bits, MASKS, PLACES, 7, z);
  }

  // ----- the reading by shifts obeys the laws -----

  /** The bits of lanes, the least significant first. */
  function Read(): Reading {
    (v: bv64, z: nat) => Bit(v, z)
  }

  lemma XorIsRead()
    ensures ReadsXor(Read())
  {
    forall v, w, z: nat {:trigger Read()(Xor(v, w), z)}
      ensures Read()(Xor(v, w), z) == Sum(Read()(v, z), Read()(w, z))
    {
      XorBit(v, w, z);
    }
  }

  lemma AndOfNotIsRead()
    ensures ReadsAndOfNot(Read())
  {
    forall v, w, z: nat {:trigger Read()(AndOfNot(v, w), z)}
      ensures Read()(AndOfNot(v, w), z) == (!Read()(v, z) && Read()(w, z))
    {
      AndOfNotBit(v, w, z);
    }
  }

  lemma RotateRead(v: bv64, n: nat, z: nat)
    ensures RotateLaw(Read(), v, n, z)
  {
    if z < 64 { RotateBit(v, n, z); }
  }

  lemma RotateIsRead()
    ensures ReadsRotate(Read())
  {
    forall v, n: nat, z: nat
      ensures RotateLaw(Read(), v, n, z)
    {
      RotateRead(v, n, z);
    }
  }

  lemma BytesAreRead()
    ensures ReadsBytes(Read())
  {
    forall v, k: nat, j: nat {:trigger BitsOfByte(ByteOfLane(v, k))[j]} | k < 8 && j < 8
      ensures Read()(v, 8 * k + j) == BitsOfByte(ByteOfLane(v, k))[j]
    {
      ByteBit(v, k, j);
    }
  }

  lemma PutIsRead(m: bv64, place: nat)
    requires Single(m, place)
    ensures ReadsPut(Read(), m, place)
  {
    forall v, b, z: nat
      ensures PutLaw(Read(), v, b, m, place, z)
    {
      PutBit(v, b, m, place, z);
    }
  }

  lemma ZeroIsRead()
    ensures forall z: nat {:trigger Read()(0, z)} :: !Read()(0, z)
  {
    forall z: nat
      ensures !Read()(0, z)
    {
      ZeroBit(z);
    }
  }

  lemma PutsAreRead()
    ensures ReadsPuts(Read(), MASKS, PLACES)
  {
    Singles();
    forall i | 0 <= i < |MASKS|
      ensures ReadsPut(Read(), MASKS[i], PLACES[i])
    {
      PutIsRead(MASKS[i], PLACES[i]);
    }
    ZeroIsRead();
  }

  lemma ConstantsAreRead(bit: Reading)
    requires ReadsPuts(bit, MASKS, PLACES)
    ensures ReadsConstants(bit)
  {
    forall round: nat, z: nat {:trigger bit(RoundConstant(round), z)} | z < 64
      ensures bit(RoundConstant(round), z) == RcAt(round, z)
    {
      RoundConstantBit(bit, round, z);
    }
  }

  lemma ReadsLaws()
    ensures Reads(Read())
  {
    XorIsRead();
    AndOfNotIsRead();
    RotateIsRead();
    BytesAreRead();
    PutsAreRead();
    ConstantsAreRead(Read());
  }

  // ----- the hash -----

  lemma ZeroString(a: State)
    requires forall l :: 0 <= l < 25 ==> a[l] == 0
    ensures StringOf(Read(), a) == FalseBits(1600)
  {
    forall i | 0 <= i < 1600
      ensures StringOf(Read(), a)[i] == FalseBits(1600)[i]
    {
      ZeroBit(i % 64);
    }
  }

  /** The state of lanes is the bit string of section 3.1, and each step mapping on lanes is the algorithm on bits. */
  lemma StepMappingsOnBits(a: State, round: nat)
    ensures StringOf(Read(), Theta(a)) == ThetaString(StringOf(Read(), a))
    ensures StringOf(Read(), Rho(a)) == RhoString(StringOf(Read(), a))
    ensures StringOf(Read(), Pi(a)) == PiString(StringOf(Read(), a))
    ensures StringOf(Read(), Chi(a)) == ChiString(StringOf(Read(), a))
    ensures StringOf(Read(), Iota(a, round)) == IotaString(StringOf(Read(), a), round)
  {
    ReadsLaws();
    ThetaOfString(Read(), a);
    RhoOfString(Read(), a);
    PiOfString(Read(), a);
    ChiOfString(Read(), a);
    IotaOfString(Read(), a, round);
  }

  lemma AbsorbedBits(bit: Reading, a: State, blocks: seq<bv8>)
    requires Reads(bit)
    ensures BitsOf(Squeeze(Absorb(Permute, a, blocks))) == AbsorbString(StringOf(bit, a), BitsOf(blocks))[..256]
  {
    EveryRoundOfString(bit);
    EveryBlockOfString(bit);
    AbsorbOfString(bit, a, blocks);
    SqueezeOfString(bit, Absorb(Permute, a, blocks));
  }

  lemma PaddedHash(blocks: seq<bv8>, p: seq<bool>)
    requires BitsOf(blocks) == p
    ensures BitsOf(Squeeze(Absorb(Permute, ZERO_STATE, blocks))) == AbsorbString(FalseBits(1600), p)[..256]
  {
    ReadsLaws();
    ZeroString(ZERO_STATE);
    AbsorbedBits(Read(), ZERO_STATE, blocks);
  }

  /** For every message, the bits of its hash are the hash of its bits. */
  lemma HashOnBits(message: seq<bv8>)
    ensures BitsOf(Keccak256Of(message)) == Keccak256String(BitsOf(message))
  {
    PadIsPad10Star1(message);
    PaddedHash(Pad(message), BitsOf(message) + Pad10Star1(1088, |BitsOf(message)|));
  }
}
