/** The hash on strings of bits, as FIPS 202 writes it down: boolean operations only, and no lanes. */
module KeccakBitSpec {
  // The bit string of section 3.1: bit (x, y, z) of the state has index 64(5y + x) + z.

  import opened KeccakSpec

  type StateString = s: seq<bool> | |s| == 1600 witness seq(1600, i => false)

  function A(s: StateString, x: nat, y: nat, z: nat): bool
    requires x < 5 && y < 5 && z < 64
  {
    s[64 * (5 * y + x) + z]
  }

  function Sum(a: bool, b: bool): bool {
    a != b
  }

  // ----- algorithms 1 to 6 -----

  function ColumnBit(s: StateString, x: nat, z: nat): bool
    requires x < 5 && z < 64
  {
    Sum(Sum(Sum(Sum(A(s, x, 0, z), A(s, x, 1, z)), A(s, x, 2, z)), A(s, x, 3, z)), A(s, x, 4, z))
  }

  function ThetaBit(s: StateString, x: nat, y: nat, z: nat): bool
    requires x < 5 && y < 5 && z < 64
  {
    Sum(A(s, x, y, z), Sum(ColumnBit(s, (x + 4) % 5, z), ColumnBit(s, (x + 1) % 5, (z + 63) % 64)))
  }

  function RhoBit(s: StateString, x: nat, y: nat, z: nat): bool
    requires x < 5 && y < 5 && z < 64
  {
    A(s, x, y, (z - RhoOffset(x, y)) % 64)
  }

  function PiBit(s: StateString, x: nat, y: nat, z: nat): bool
    requires x < 5 && y < 5 && z < 64
  {
    A(s, (x + 3 * y) % 5, x, z)
  }

  function ChiBit(s: StateString, x: nat, y: nat, z: nat): bool
    requires x < 5 && y < 5 && z < 64
  {
    Sum(A(s, x, y, z), !A(s, (x + 1) % 5, y, z) && A(s, (x + 2) % 5, y, z))
  }

  /** One round of the loop of algorithm 5 on `R`. */
  function LfsrBits(r: seq<bool>): (next: seq<bool>)
    requires |r| == 8
    ensures |next| == 8
  {
    [Sum(false, r[7]), r[0], r[1], r[2], Sum(r[3], r[7]), Sum(r[4], r[7]), Sum(r[5], r[7]), r[6]]
  }

  function Register(t: nat): (r: seq<bool>)
    ensures |r| == 8
  {
    if t == 0 then [true, false, false, false, false, false, false, false] else LfsrBits(Register(t - 1))
  }

  /** `rc(t)`. */
  function Rc(t: nat): bool {
    Register(t)[0]
  }

  /** Bit 2^j - 1 of `RC` is `rc(j + 7 * round)` for j from 0 to 6, and all others are zero. */
  function RcAt(round: nat, z: nat): bool {
    match z
    case 0 => Rc(7 * round)
    case 1 => Rc(7 * round + 1)
    case 3 => Rc(7 * round + 2)
    case 7 => Rc(7 * round + 3)
    case 15 => Rc(7 * round + 4)
    case 31 => Rc(7 * round + 5)
    case 63 => Rc(7 * round + 6)
    case _ => false
  }

  function IotaBit(s: StateString, round: nat, x: nat, y: nat, z: nat): bool
    requires x < 5 && y < 5 && z < 64
  {
    if x == 0 && y == 0 then Sum(A(s, x, y, z), RcAt(round, z)) else A(s, x, y, z)
  }

  function ThetaString(s: StateString): StateString {
    seq(1600, i requires 0 <= i < 1600 => ThetaBit(s, i / 64 % 5, i / 64 / 5, i % 64))
  }

  function RhoString(s: StateString): StateString {
    seq(1600, i requires 0 <= i < 1600 => RhoBit(s, i / 64 % 5, i / 64 / 5, i % 64))
  }

  function PiString(s: StateString): StateString {
    seq(1600, i requires 0 <= i < 1600 => PiBit(s, i / 64 % 5, i / 64 / 5, i % 64))
  }

  function ChiString(s: StateString): StateString {
    seq(1600, i requires 0 <= i < 1600 => ChiBit(s, i / 64 % 5, i / 64 / 5, i % 64))
  }

  function IotaString(s: StateString, round: nat): StateString {
    seq(1600, i requires 0 <= i < 1600 => IotaBit(s, round, i / 64 % 5, i / 64 / 5, i % 64))
  }

  function RoundString(s: StateString, round: nat): StateString {
    IotaString(ChiString(PiString(RhoString(ThetaString(s)))), round)
  }

  function RoundsString(s: StateString, n: nat): StateString {
    if n == 0 then s else RoundString(RoundsString(s, n - 1), n - 1)
  }

  // ----- the sponge, algorithm 8, with rate 1088 and 256 bits of output -----

  function SumString(s: StateString, block: seq<bool>): StateString
    requires |block| == 1600
  {
    seq(1600, i requires 0 <= i < 1600 => Sum(s[i], block[i]))
  }

  function AbsorbString(s: StateString, p: seq<bool>): StateString
    decreases |p|
  {
    if |p| < 1088 then s
    else AbsorbString(RoundsString(SumString(s, p[..1088] + FalseBits(512)), 24), p[1088..])
  }

  function Keccak256String(m: seq<bool>): seq<bool> {
    AbsorbString(FalseBits(1600), m + Pad10Star1(1088, |m|))[..256]
  }
}
