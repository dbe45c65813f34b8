/** KECCAK-f[1600] and the sponge as FIPS 202 defines them, on 64-bit lanes. */
module KeccakSpec {
  // The step mappings of section 3.2, the round of section 3.3, the sponge of section 4 with rate 1088, and the padding
  // pad10*1 of section 5.1 without a suffix. Lane (x, y) has index x + 5y; byte strings are bit strings with the least
  // significant bit first (appendix B.1).

  type State = s: seq<bv64> | |s| == 25 witness seq(25, i => 0)

  function Lane(a: State, x: nat, y: nat): bv64
    requires x < 5 && y < 5
  {
    a[x + 5 * y]
  }

  lemma LaneIndex(i: nat)
    requires i < 25
    ensures i % 5 < 5 && i / 5 < 5 && i % 5 + 5 * (i / 5) == i
  {
  }

  function Xor(v: bv64, w: bv64): bv64 {
    v ^ w
  }

  /** The bits of the second word where the first has none. */
  function AndOfNot(v: bv64, w: bv64): bv64 {
    !v & w
  }

  function RotateOne(v: bv64): bv64 {
    (v << 1) | (v >> 63)
  }

  /** Rotation by `n` places towards the most significant bit. */
  function Rotate(v: bv64, n: nat): bv64 {
    if n == 0 then v else RotateOne(Rotate(v, n - 1))
  }

  // ----- the step mappings, section 3.2 -----

  function ColumnParity(a: State, x: nat): bv64
    requires x < 5
  {
    Xor(Xor(Xor(Xor(Lane(a, x, 0), Lane(a, x, 1)), Lane(a, x, 2)), Lane(a, x, 3)), Lane(a, x, 4))
  }

  function ThetaEffect(a: State, x: nat): bv64 {
    Xor(ColumnParity(a, (x + 4) % 5), Rotate(ColumnParity(a, (x + 1) % 5), 1))
  }

  function ThetaAt(a: State, x: nat, y: nat): bv64
    requires x < 5 && y < 5
  {
    Xor(Lane(a, x, y), ThetaEffect(a, x))
  }

  function Theta(a: State): State {
    seq(25, i requires 0 <= i < 25 => ThetaAt(a, i % 5, i / 5))
  }

  /** The lane that the walk of algorithm 2 visits at step `t`. */
  function Walk(t: nat): (p: (nat, nat))
    ensures p.0 < 5 && p.1 < 5
  {
    if t == 0 then (1, 0) else var p := Walk(t - 1); (p.1, (2 * p.0 + 3 * p.1) % 5)
  }

  function WalkOffset(t: nat): nat {
    ((t + 1) * (t + 2) / 2) % 64
  }

  /** The offset at the first visit to lane (x, y) from step `t` on; zero for the lane that is never visited. */
  function OffsetFrom(t: nat, x: nat, y: nat): nat
    decreases 24 - t, x, y
  {
    if t >= 24 then 0 else if Walk(t) == (x, y) then WalkOffset(t) else OffsetFrom(t + 1, x, y)
  }

  function RhoOffset(x: nat, y: nat): nat {
    OffsetFrom(0, x, y)
  }

  function RhoAt(a: State, x: nat, y: nat): bv64
    requires x < 5 && y < 5
  {
    Rotate(Lane(a, x, y), RhoOffset(x, y))
  }

  function Rho(a: State): State {
    seq(25, i requires 0 <= i < 25 => RhoAt(a, i % 5, i / 5))
  }

  function PiAt(a: State, x: nat, y: nat): bv64
    requires x < 5 && y < 5
  {
    Lane(a, (x + 3 * y) % 5, x)
  }

  function Pi(a: State): State {
    seq(25, i requires 0 <= i < 25 => PiAt(a, i % 5, i / 5))
  }

  function ChiAt(a: State, x: nat, y: nat): bv64
    requires x < 5 && y < 5
  {
    Xor(Lane(a, x, y), AndOfNot(Lane(a, (x + 1) % 5, y), Lane(a, (x + 2) % 5, y)))
  }

  function Chi(a: State): State {
    seq(25, i requires 0 <= i < 25 => ChiAt(a, i % 5, i / 5))
  }

  /** One step of the shift register of algorithm 5, bit `i` of the byte being `R[i]`. */
  function LfsrStep(r: bv8): bv8 {
    (r << 1) ^ (if r & 0x80 != 0 then 0x71 else 0)
  }

  function Lfsr(t: nat): bv8 {
    if t == 0 then 1 else LfsrStep(Lfsr(t - 1))
  }

  function RcBit(t: nat): bool {
    Lfsr(t) & 1 != 0
  }

  /** The word with the given bits at the places 2^j - 1. */
  function Constant(b: seq<bool>): bv64
    requires |b| == 7
  {
    (if b[0] then 0x1 else 0) ^ (if b[1] then 0x2 else 0) ^ (if b[2] then 0x8 else 0) ^ (if b[3] then 0x80 else 0)
    ^ (if b[4] then 0x8000 else 0) ^ (if b[5] then 0x8000_0000 else 0)
    ^ (if b[6] then 0x8000_0000_0000_0000 else 0)
  }

  /** `rc(t)` to `rc(t + 6)`. */
  function RcBits(t: nat): (b: seq<bool>)
    ensures |b| == 7
  {
    [RcBit(t), RcBit(t + 1), RcBit(t + 2), RcBit(t + 3), RcBit(t + 4), RcBit(t + 5), RcBit(t + 6)]
  }

  /** The round constant of algorithm 6: bit 2^j - 1 is `rc(j + 7 * round)`. */
  function RoundConstant(round: nat): bv64 {
    Constant(RcBits(7 * round))
  }

  function Iota(a: State, round: nat): State {
    seq(25, i requires 0 <= i < 25 => if i == 0 then Xor(a[0], RoundConstant(round)) else a[i])
  }

  // ----- the permutation, section 3.3 -----

  function Round(a: State, round: nat): State {
    Iota(Chi(Pi(Rho(Theta(a)))), round)
  }

  function Rounds(a: State, n: nat): State {
    if n == 0 then a else Round(Rounds(a, n - 1), n - 1)
  }

  function Permute(a: State): State {
    Rounds(a, 24)
  }

  // ----- the sponge, section 4 -----

  const RATE: nat := 136

  /** Eight bytes, least significant first. */
  function LaneOfBytes(b: seq<bv8>): bv64
    requires |b| == 8
  {
    (b[0] as bv64) | (b[1] as bv64 << 8) | (b[2] as bv64 << 16) | (b[3] as bv64 << 24)
    | (b[4] as bv64 << 32) | (b[5] as bv64 << 40) | (b[6] as bv64 << 48) | (b[7] as bv64 << 56)
  }

  /** Byte `k` from the least significant end. */
  function ByteOfLane(lane: bv64, k: nat): bv8 {
    if k == 0 then (lane & 0xff) as bv8 else ByteOfLane(lane >> 8, k - 1)
  }

  function XorBlock(a: State, block: seq<bv8>): State
    requires |block| == RATE
  {
    seq(25, i requires 0 <= i < 25 => if i < 17 then Xor(a[i], LaneOfBytes(block[8 * i..8 * i + 8])) else a[i])
  }

  /** Absorbing whole blocks with the permutation `f`. */
  function Absorb(f: State -> State, a: State, blocks: seq<bv8>): State
    decreases |blocks|
  {
    if |blocks| < RATE then a else Absorb(f, f(XorBlock(a, blocks[..RATE])), blocks[RATE..])
  }

  /** The first 32 bytes of the state. */
  function Squeeze(a: State): (r: seq<bv8>)
    ensures |r| == 32
  {
    seq(32, i requires 0 <= i < 32 => ByteOfLane(a[i / 8], i % 8))
  }

  const ZERO_STATE: State := [0, 0, 0, 0, 0, 0, 0, 0, 0, 0, 0, 0, 0, 0, 0, 0, 0, 0, 0, 0, 0, 0, 0, 0, 0]

  function Zeros(n: nat): (z: seq<bv8>)
    ensures |z| == n
  {
    seq(n, i => 0)
  }

  /** The padding of a message of the given length, in bytes. */
  function PadTail(length: nat): (p: seq<bv8>)
    ensures 1 <= |p| <= RATE && (length + |p|) % RATE == 0
  {
    var q := RATE - length % RATE;
    if q == 1 then [0x81] else [0x01] + Zeros(q - 2) + [0x80]
  }

  function Pad(message: seq<bv8>): (p: seq<bv8>)
    ensures |p| % RATE == 0 && |p| > 0
  {
    message + PadTail(|message|)
  }

  function Keccak256Of(message: seq<bv8>): seq<bv8> {
    Squeeze(Absorb(Permute, ZERO_STATE, Pad(message)))
  }

  // ----- the padding, section 5.1 -----

  function BitsOfByte(b: bv8): (r: seq<bool>)
    ensures |r| == 8
  {
    [b & 0x01 != 0, b & 0x02 != 0, b & 0x04 != 0, b & 0x08 != 0,
     b & 0x10 != 0, b & 0x20 != 0, b & 0x40 != 0, b & 0x80 != 0]
  }

  function BitsOf(bytes: seq<bv8>): (r: seq<bool>)
    ensures |r| == 8 * |bytes|
  {
    if bytes == [] then [] else BitsOfByte(bytes[0]) + BitsOf(bytes[1..])
  }

  function FalseBits(n: nat): (r: seq<bool>)
    ensures |r| == n
  {
    seq(n, i => false)
  }

  /** pad10*1(x, m): the shortest string 1 0* 1 that makes the length a multiple of `x`. */
  function Pad10Star1(x: nat, m: nat): seq<bool>
    requires x > 0
  {
    [true] + FalseBits((-(m as int) - 2) % x) + [true]
  }
}
