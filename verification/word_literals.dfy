/** 256-bit word literals (crates/hull/src/word.rs): eight 32-bit limbs, least significant first. */
module WordLiterals {
  import opened Wrappers

  const TWO_256: nat := 0x1_0000000000000000_0000000000000000_0000000000000000_0000000000000000

  newtype uint32 = x: int | 0 <= x < 0x1_0000_0000
  newtype uint64 = x: int | 0 <= x < 0x1_0000_0000_0000_0000

  // ----- what literals and limbs mean -----

  predicate IsDecDigit(c: char) { '0' <= c <= '9' }

  predicate IsHexDigit(c: char) { IsDecDigit(c) || 'a' <= c <= 'f' || 'A' <= c <= 'F' }

  function DigitValue(c: char): (d: nat)
    requires IsHexDigit(c)
    ensures d < 16 && (IsDecDigit(c) ==> d < 10)
  {
    if IsDecDigit(c) then (c - '0') as nat
    else if 'a' <= c <= 'f' then (c - 'a') as nat + 10
    else (c - 'A') as nat + 10
  }

  predicate AllDigits(s: string, radix: nat) {
    forall c | c in s :: if radix == 16 then IsHexDigit(c) else IsDecDigit(c)
  }

  /** The number a digit string denotes, most significant digit first. */
  function DigitsValue(s: string, radix: nat): nat
    requires AllDigits(s, radix)
  {
    if s == [] then 0 else DigitsValue(s[..|s| - 1], radix) * radix + DigitValue(s[|s| - 1])
  }

  predicate IsHexLiteral(s: string) { "0x" <= s || "0X" <= s }

  /** The digits and the radix that the prefix selects. */
  function Split(s: string): (string, nat) {
    if IsHexLiteral(s) then (s[2..], 16) else (s, 10)
  }

  /** The exact value of a literal, `None` for a malformed one. */
  function LiteralValue(s: string): Option<nat> {
    var (digits, radix) := Split(s);
    if digits != [] && AllDigits(digits, radix) then Some(DigitsValue(digits, radix)) else None
  }

  function LimbsValue(limbs: seq<uint32>): nat {
    if limbs == [] then 0 else limbs[0] as nat + 0x1_0000_0000 * LimbsValue(limbs[1..])
  }

  function DigitChar(d: nat): char
    requires d < 10
  {
    '0' + d as char
  }

  /** Decimal digits without leading zeros; "" for zero. */
  function Digits(n: nat): (s: string)
  {
    if n == 0 then "" else Digits(n / 10) + [DigitChar(n % 10)]
  }

  /** The decimal spelling of a number. */
  function Decimal(n: nat): string {
    if n == 0 then "0" else Digits(n)
  }

  datatype WordLiteralError = InvalidHex(literal: string) | InvalidDecimal(literal: string)

  /** The decimal spelling modulo 2^256. */
  function Canonical(s: string): Result<string, WordLiteralError> {
    match LiteralValue(s)
    case Some(n) => Success(Decimal(n % TWO_256))
    case None => Failure(if IsHexLiteral(s) then InvalidHex(s) else InvalidDecimal(s))
  }

  /** A literal that fits keeps its spelling. */
  function Wrap(s: string): Result<string, WordLiteralError> {
    match LiteralValue(s)
    case Some(n) => Success(if n < TWO_256 then s else Decimal(n % TWO_256))
    case None => Failure(if IsHexLiteral(s) then InvalidHex(s) else InvalidDecimal(s))
  }

  // ----- limb arithmetic -----

  function Pow(n: nat): nat {
    if n == 0 then 1 else 0x1_0000_0000 * Pow(n - 1)
  }

  lemma PowIsTwo256()
    ensures Pow(8) == TWO_256
  {
    assert Pow(2) == 0x1_0000_0000 * Pow(1) && Pow(1) == 0x1_0000_0000 * Pow(0);
    assert Pow(4) == 0x1_0000_0000 * Pow(3) && Pow(3) == 0x1_0000_0000 * Pow(2);
    assert Pow(6) == 0x1_0000_0000 * Pow(5) && Pow(5) == 0x1_0000_0000 * Pow(4);
    assert Pow(8) == 0x1_0000_0000 * Pow(7) && Pow(7) == 0x1_0000_0000 * Pow(6);
  }

  lemma {:induction false} LimbsBound(limbs: seq<uint32>)
    ensures LimbsValue(limbs) < Pow(|limbs|)
    decreases limbs
  {
    if limbs != [] { LimbsBound(limbs[1..]); }
  }

  lemma {:induction false} LimbsZero(limbs: seq<uint32>)
    ensures LimbsValue(limbs) == 0 <==> forall l | l in limbs :: l == 0
    decreases limbs
  {
    if limbs != [] {
      LimbsZero(limbs[1..]);
      assert forall l | l in limbs :: l == limbs[0] || l in limbs[1..];
      assert limbs[0] in limbs && forall l | l in limbs[1..] :: l in limbs;
    }
  }

  lemma MulMono(a: nat, b: nat, c: nat)
    requires a <= b
    ensures a * c <= b * c
  {
  }

  lemma ProductBound(a: nat, b: nat, c: nat)
    requires a < 0x1_0000_0000 && b < 0x1_0000_0000 && c < 0x1_0000_0000
    ensures a * b + c < 0x1_0000_0000_0000_0000 && (a * b + c) / 0x1_0000_0000 < 0x1_0000_0000
  {
    MulMono(a, 0xFFFF_FFFF, b);
  }

  /** One pass of `mul_add_small`: the new limbs and the carry out of the last. */
  function MulAdd(limbs: seq<uint32>, base: nat, carry: nat): (r: (seq<uint32>, nat))
    requires base < 0x1_0000_0000 && carry < 0x1_0000_0000
    ensures |r.0| == |limbs| && r.1 < 0x1_0000_0000
    decreases limbs
  {
    if limbs == [] then ([], carry)
    else
      ProductBound(limbs[0] as nat, base, carry);
      var value := limbs[0] as nat * base + carry;
      var (rest, out) := MulAdd(limbs[1..], base, value / 0x1_0000_0000);
      ([(value % 0x1_0000_0000) as uint32] + rest, out)
  }

  lemma {:induction false} MulAddAppend(limbs: seq<uint32>, limb: uint32, base: nat, carry: nat)
    requires base < 0x1_0000_0000 && carry < 0x1_0000_0000
    ensures var (r, out) := MulAdd(limbs, base, carry);
      var value := limb as nat * base + out;
      && value / 0x1_0000_0000 < 0x1_0000_0000
      && MulAdd(limbs + [limb], base, carry).0 == r + [(value % 0x1_0000_0000) as uint32]
      && MulAdd(limbs + [limb], base, carry).1 == value / 0x1_0000_0000
    decreases limbs
  {
    var (r, out) := MulAdd(limbs, base, carry);
    ProductBound(limb as nat, base, out);
    if limbs == [] {
      assert limbs + [limb] == [limb] && [limb][1..] == [];
    } else {
      ProductBound(limbs[0] as nat, base, carry);
      var value := limbs[0] as nat * base + carry;
      MulAddAppend(limbs[1..], limb, base, value / 0x1_0000_0000);
      assert (limbs + [limb])[1..] == limbs[1..] + [limb];
    }
  }

  lemma {:induction false} MulAddValue(limbs: seq<uint32>, base: nat, carry: nat)
    requires base < 0x1_0000_0000 && carry < 0x1_0000_0000
    ensures var (r, out) := MulAdd(limbs, base, carry);
      LimbsValue(r) + Pow(|limbs|) * out == LimbsValue(limbs) * base + carry
    decreases limbs
  {
    if limbs != [] {
      ProductBound(limbs[0] as nat, base, carry);
      var value := limbs[0] as nat * base + carry;
      var (rest, out) := MulAdd(limbs[1..], base, value / 0x1_0000_0000);
      MulAddValue(limbs[1..], base, value / 0x1_0000_0000);
      var (r, out') := MulAdd(limbs, base, carry);
      assert r[1..] == rest && r[0] as nat == value % 0x1_0000_0000 && out' == out;
      MulAddAlgebra(LimbsValue(rest), Pow(|limbs| - 1), out, LimbsValue(limbs[1..]), base, limbs[0] as nat, carry,
        value);
    }
  }

  lemma MulAddAlgebra(l: nat, p: nat, out: nat, v: nat, base: nat, l0: nat, carry: nat, value: nat)
    requires value == l0 * base + carry && l + p * out == v * base + value / 0x1_0000_0000
    ensures value % 0x1_0000_0000 + 0x1_0000_0000 * l + (0x1_0000_0000 * p) * out == (l0 + 0x1_0000_0000 * v) * base
      + carry
  {
    var (hi, lo) := (value / 0x1_0000_0000, value % 0x1_0000_0000);
    var (po, vb, lb) := (p * out, v * base, l0 * base);
    assert (0x1_0000_0000 * p) * out == 0x1_0000_0000 * po;
    assert (l0 + 0x1_0000_0000 * v) * base == lb + 0x1_0000_0000 * vb;
    assert value == lo + 0x1_0000_0000 * hi;
  }

  /** One pass of `div_rem_small`: the quotient limbs and the remainder. */
  function DivRem(limbs: seq<uint32>, divisor: nat): (r: (seq<uint32>, nat))
    requires 0 < divisor < 0x1_0000_0000
    ensures |r.0| == |limbs| && r.1 < divisor
    decreases limbs
  {
    if limbs == [] then ([], 0)
    else
      var (rest, rem) := DivRem(limbs[1..], divisor);
      var value := rem * 0x1_0000_0000 + limbs[0] as nat;
      QuotientBound(value, divisor, rem, limbs[0] as nat);
      ([(value / divisor) as uint32] + rest, value % divisor)
  }

  lemma QuotientBound(value: nat, divisor: nat, rem: nat, limb: nat)
    requires 0 < divisor && rem < divisor && limb < 0x1_0000_0000 && value == rem * 0x1_0000_0000 + limb
    ensures value / divisor < 0x1_0000_0000
  {
    var q := value / divisor;
    assert q * divisor + value % divisor == value;
    if q >= 0x1_0000_0000 {
      MulMono(0x1_0000_0000, q, divisor);
    }
  }

  lemma {:induction false} DivRemValue(limbs: seq<uint32>, divisor: nat)
    requires 0 < divisor < 0x1_0000_0000
    ensures var (q, rem) := DivRem(limbs, divisor); LimbsValue(limbs) == LimbsValue(q) * divisor + rem
    decreases limbs
  {
    if limbs != [] {
      var (rest, rem) := DivRem(limbs[1..], divisor);
      DivRemValue(limbs[1..], divisor);
      var value := rem * 0x1_0000_0000 + limbs[0] as nat;
      QuotientBound(value, divisor, rem, limbs[0] as nat);
      var (q, rem') := DivRem(limbs, divisor);
      assert q[1..] == rest && q[0] as nat == value / divisor && rem' == value % divisor;
      DivRemAlgebra(LimbsValue(rest), divisor, rem, limbs[0] as nat, value);
    }
  }

  lemma DivRemAlgebra(q: nat, divisor: nat, rem: nat, l0: nat, value: nat)
    requires divisor > 0 && value == rem * 0x1_0000_0000 + l0
    ensures l0 + 0x1_0000_0000 * (q * divisor + rem) == (value / divisor + 0x1_0000_0000 * q) * divisor
      + value % divisor
  {
    var (a, qd) := (value / divisor, q * divisor);
    assert a * divisor + value % divisor == value;
    assert (a + 0x1_0000_0000 * q) * divisor == a * divisor + 0x1_0000_0000 * qd;
  }

  // ----- the in-place form -----

  /** One limb of `mul_add_small`; 64 bits are enough for it. */
  function MulAddLimb(limb: uint32, base: uint32, carry: uint64): (r: (uint32, uint64))
    requires carry < 0x1_0000_0000
    ensures var value := limb as nat * base as nat + carry as nat;
      r.0 as nat == value % 0x1_0000_0000 && r.1 as nat == value / 0x1_0000_0000 && r.1 < 0x1_0000_0000
  {
    ProductBound(limb as nat, base as nat, carry as nat);
    var value: uint64 := limb as uint64 * base as uint64 + carry;
    ((value % 0x1_0000_0000) as uint32, value / 0x1_0000_0000)
  }

  /** One limb of `div_rem_small`. */
  function DivRemLimb(rem: uint64, limb: uint32, divisor: uint32): (r: (uint32, uint64))
    requires divisor > 0 && rem < divisor as uint64
    ensures var value := rem as nat * 0x1_0000_0000 + limb as nat;
      r.0 as nat == value / divisor as nat && r.1 as nat == value % divisor as nat && r.1 < divisor as uint64
  {
    QuotientBound(rem as nat * 0x1_0000_0000 + limb as nat, divisor as nat, rem as nat, limb as nat);
    var value: uint64 := rem * 0x1_0000_0000 + limb as uint64;
    ((value / divisor as uint64) as uint32, value % divisor as uint64)
  }

  class Word256 {
    const limbs: array<uint32>
    var overflow: bool

    ghost predicate Valid()
      reads this
    {
      limbs.Length == 8
    }

    ghost function Value(): nat
      reads this, limbs
    {
      LimbsValue(limbs[..])
    }

    constructor ()
      ensures Valid() && fresh(limbs) && Value() == 0 && !overflow
    {
      limbs := new uint32[8](_ => 0);
      overflow := false;
      new;
      LimbsZero(limbs[..]);
    }

    /** Multiplies by `base` and adds `digit`, in place; a carry out of the last limb sets `overflow`. */
    method MulAddSmall(base: uint32, digit: uint32)
      requires Valid()
      modifies this`overflow, limbs
      ensures var (r, out) := MulAdd(old(limbs[..]), base as nat, digit as nat);
        limbs[..] == r && overflow == (old(overflow) || out != 0)
    {
      var carry: uint64 := digit as uint64;
      ghost var start := limbs[..];
      for i := 0 to limbs.Length
        invariant carry < 0x1_0000_0000 && overflow == old(overflow)
        invariant limbs[i..] == start[i..]
        invariant limbs[..i] == MulAdd(start[..i], base as nat, digit as nat).0
        invariant carry as nat == MulAdd(start[..i], base as nat, digit as nat).1
      {
        MulAddAppend(start[..i], limbs[i], base as nat, digit as nat);
        assert start[..i + 1] == start[..i] + [limbs[i]];
        var (limb, out) := MulAddLimb(limbs[i], base, carry);
        ghost var done := limbs[..i];
        limbs[i] := limb;
        assert limbs[..i + 1] == done + [limb];
        carry := out;
      }
      assert start[..limbs.Length] == start && limbs[..] == limbs[..limbs.Length];
      if carry != 0 { overflow := true; }
    }

    /** The limbs hold the value modulo 2^256, and the flag says whether that lost anything. */
    ghost predicate Holds(value: nat)
      reads this, limbs
    {
      Value() == value % TWO_256 && (overflow <==> value >= TWO_256)
    }

    method PushDigit(radix: nat, digit: nat, ghost value: nat)
      requires Valid() && Holds(value) && (radix == 10 || radix == 16) && digit < 16
      modifies this`overflow, limbs
      ensures Valid() && Holds(value * radix + digit)
    {
      DigitStep(value, limbs[..], radix, digit);
      MulAddSmall(radix as uint32, digit as uint32);
    }

    method IsZero() returns (zero: bool)
      ensures zero <==> Value() == 0
    {
      LimbsZero(limbs[..]);
      zero := true;
      for i := 0 to limbs.Length
        invariant zero <==> forall k | 0 <= k < i :: limbs[k] == 0
      {
        if limbs[i] != 0 { zero := false; }
      }
      assert zero ==> forall l | l in limbs[..] :: l == 0;
      assert !zero ==> exists k :: 0 <= k < limbs.Length && limbs[k] != 0 && limbs[k] in limbs[..];
    }

    method Copy() returns (copy: Word256)
      requires Valid()
      ensures fresh(copy) && fresh(copy.limbs) && copy.Valid() && copy.Value() == Value()
    {
      copy := new Word256();
      for i := 0 to limbs.Length
        invariant fresh(copy) && fresh(copy.limbs) && copy.Valid() && copy.limbs[..i] == limbs[..i]
      {
        copy.limbs[i] := limbs[i];
      }
      assert copy.limbs[..] == limbs[..];
    }

    /** The digits of the value, least significant first; the limbs end up zero. */
    method DrainDigits() returns (digits: string)
      requires Valid()
      modifies limbs
      ensures Reversed(digits) == Digits(old(Value()))
    {
      digits := [];
      var done := IsZero();
      while !done
        invariant Valid() && (done <==> Value() == 0)
        invariant Digits(Value()) + Reversed(digits) == Digits(old(Value()))
        decreases Value()
      {
        ghost var n := Value();
        var rem := DivRemSmall(limbs, 10);
        DigitsAppend(Value(), rem as nat);
        ReversedAppend(digits, DigitChar(rem as nat));
        digits := digits + [DigitChar(rem as nat)];
        assert n > Value();
        done := IsZero();
      }
      assert Digits(0) == "";
    }

    /** `to_decimal_string`; the limbs themselves are not changed. */
    method ToDecimalString() returns (s: string)
      requires Valid()
      ensures s == Decimal(Value())
    {
      var zero := IsZero();
      if zero { return "0"; }
      var copy := Copy();
      var digits := copy.DrainDigits();
      s := ReverseOf(digits);
    }
  }

  /** `div_rem_small`: divides the limbs in place, most significant first. */
  method DivRemSmall(limbs: array<uint32>, divisor: uint32) returns (rem: uint32)
    requires divisor > 0
    modifies limbs
    ensures (limbs[..], rem as nat) == DivRem(old(limbs[..]), divisor as nat) && rem < divisor
    ensures LimbsValue(old(limbs[..])) == LimbsValue(limbs[..]) * divisor as nat + rem as nat
  {
    var r: uint64 := 0;
    ghost var start := limbs[..];
    var i := limbs.Length;
    while i > 0
      invariant 0 <= i <= limbs.Length
      invariant r < divisor as uint64
      invariant limbs[..i] == start[..i]
      invariant limbs[i..] == DivRem(start[i..], divisor as nat).0
      invariant r as nat == DivRem(start[i..], divisor as nat).1
    {
      i := i - 1;
      assert start[i..][1..] == start[i + 1..] && start[i..][0] == limbs[i];
      var (limb, rem') := DivRemLimb(r, limbs[i], divisor);
      limbs[i] := limb;
      r := rem';
    }
    assert start[0..] == start;
    rem := r as uint32;
    DivRemValue(start, divisor as nat);
  }

  lemma DigitsAppend(q: nat, digit: nat)
    requires digit < 10 && q * 10 + digit > 0
    ensures Digits(q * 10 + digit) == Digits(q) + [DigitChar(digit)]
  {
    DivisionIsUnique(q * 10 + digit, 10, q, digit);
  }

  lemma ReversedAppend(s: string, c: char)
    ensures Reversed(s + [c]) == [c] + Reversed(s)
  {
    assert (s + [c])[..|s|] == s;
  }

  function Reversed(s: string): (r: string)
    ensures |r| == |s|
  {
    if s == [] then [] else [s[|s| - 1]] + Reversed(s[..|s| - 1])
  }

  method ReverseOf(s: string) returns (r: string)
    ensures r == Reversed(s)
  {
    r := [];
    var i := |s|;
    assert s[..|s|] == s;
    while i > 0
      invariant 0 <= i <= |s|
      invariant r + Reversed(s[..i]) == Reversed(s)
    {
      assert s[..i][..i - 1] == s[..i - 1];
      i := i - 1;
      r := r + [s[i]];
    }
  }

  // ----- parsing -----

  /** Reading one more digit keeps the limbs exact modulo 2^256, and the flag exact. */
  lemma DigitStep(value: nat, limbs: seq<uint32>, radix: nat, digit: nat)
    requires |limbs| == 8 && 0 < radix < 0x1_0000_0000 && digit < 0x1_0000_0000
    requires LimbsValue(limbs) == value % TWO_256
    ensures var (r, out) := MulAdd(limbs, radix, digit);
      && LimbsValue(r) == (value * radix + digit) % TWO_256
      && (value * radix + digit >= TWO_256 <==> value >= TWO_256 || out != 0)
  {
    var (r, out) := MulAdd(limbs, radix, digit);
    MulAddValue(limbs, radix, digit);
    PowIsTwo256();
    LimbsBound(r);
    DigitStepAlgebra(value, TWO_256, value / TWO_256, value % TWO_256, radix, digit, LimbsValue(r), out);
  }

  lemma MulDistributes(a: nat, b: nat, c: nat)
    ensures a * (b + c) == a * b + a * c && (b + c) * a == b * a + c * a
  {
  }

  lemma DigitStepAlgebra(value: nat, m: nat, q: nat, l: nat, radix: nat, digit: nat, r: nat, out: nat)
    requires m > 0 && radix > 0 && value == m * q + l && l < m && r + m * out == l * radix + digit && r < m
    ensures r == (value * radix + digit) % m
    ensures value * radix + digit >= m <==> value >= m || out != 0
  {
    var next := value * radix + digit;
    var k := q * radix + out;
    MulDistributes(radix, m * q, l);
    assert (m * q) * radix == m * (q * radix);
    MulDistributes(m, q * radix, out);
    assert next == m * k + r;
    DivisionIsUnique(next, m, k, r);
    if k > 0 { MulMono(1, k, m); }
    if q > 0 { MulMono(1, q, m); MulMono(1, radix, q); }
  }

  lemma DivisionIsUnique(n: nat, m: nat, q: nat, r: nat)
    requires m > 0 && r < m && n == m * q + r
    ensures n / m == q && n % m == r
  {
    var q' := n / m;
    assert n == m * q' + n % m;
    if q < q' {
      MulMono(q + 1, q', m);
    } else if q' < q {
      MulMono(q' + 1, q, m);
    }
  }

  /** `parse_word_literal`: the limbs hold the value modulo 2^256, and `overflow` says whether it was too large. */
  method ParseWordLiteral(s: string) returns (r: Result<Word256, WordLiteralError>)
    ensures r.Success? <==> LiteralValue(s).Some?
    ensures r.Success? ==> fresh(r.value) && fresh(r.value.limbs) && r.value.Valid()
    ensures r.Success? ==> r.value.Value() == LiteralValue(s).value % TWO_256
    ensures r.Success? ==> (r.value.overflow <==> LiteralValue(s).value >= TWO_256)
    ensures r.Failure? ==> r.error == if IsHexLiteral(s) then InvalidHex(s) else InvalidDecimal(s)
  {
    var (digits, radix) := Split(s);
    if digits == [] || !AllDigits(digits, radix) {
      return Failure(if IsHexLiteral(s) then InvalidHex(s) else InvalidDecimal(s));
    }
    var word := ReadDigits(digits, radix);
    return Success(word);
  }

  /** The loop of `parse_word_literal`. */
  method ReadDigits(digits: string, radix: nat) returns (word: Word256)
    requires AllDigits(digits, radix) && (radix == 10 || radix == 16)
    ensures fresh(word) && fresh(word.limbs) && word.Valid() && word.Holds(DigitsValue(digits, radix))
  {
    word := new Word256();
    for i := 0 to |digits|
      invariant word.Valid() && fresh(word) && fresh(word.limbs)
      invariant AllDigits(digits[..i], radix) && word.Holds(DigitsValue(digits[..i], radix))
    {
      PrefixValue(digits, radix, i);
      word.PushDigit(radix, DigitValue(digits[i]), DigitsValue(digits[..i], radix));
    }
    assert digits[..|digits|] == digits;
  }

  lemma PrefixValue(digits: string, radix: nat, i: nat)
    requires AllDigits(digits, radix) && i < |digits|
    ensures AllDigits(digits[..i], radix) && AllDigits(digits[..i + 1], radix) && IsHexDigit(digits[i])
    ensures radix == 10 ==> IsDecDigit(digits[i])
    ensures DigitsValue(digits[..i + 1], radix) == DigitsValue(digits[..i], radix) * radix + DigitValue(digits[i])
  {
    assert digits[i] in digits;
    assert digits[..i + 1][..i] == digits[..i];
    assert forall c | c in digits[..i] :: c in digits;
    assert forall c | c in digits[..i + 1] :: c in digits;
  }

  /** `canonical_word_literal`. */
  method CanonicalWordLiteral(s: string) returns (r: Result<string, WordLiteralError>)
    ensures r == Canonical(s)
  {
    var word := ParseWordLiteral(s);
    match word
    case Success(w) =>
      var text := w.ToDecimalString();
      return Success(text);
    case Failure(error) => return Failure(error);
  }

  /** `wrap_word_literal`. */
  method WrapWordLiteral(s: string) returns (r: Result<string, WordLiteralError>)
    ensures r == Wrap(s)
  {
    var word := ParseWordLiteral(s);
    match word
    case Success(w) =>
      if w.overflow {
        var text := w.ToDecimalString();
        return Success(text);
      }
      return Success(s);
    case Failure(error) => return Failure(error);
  }

  // ----- what the spellings guarantee -----

  /** `Digits` spells its number, in digits, without a leading zero. */
  lemma {:induction false} DigitsSpell(n: nat)
    ensures AllDigits(Digits(n), 10) && DigitsValue(Digits(n), 10) == n
    ensures n > 0 ==> Digits(n) != [] && Digits(n)[0] != '0'
    decreases n
  {
    if n > 0 {
      DigitsSpell(n / 10);
      var s := Digits(n);
      assert s[..|s| - 1] == Digits(n / 10);
      if n / 10 > 0 { assert s[0] == Digits(n / 10)[0]; }
    }
  }

  /** A decimal spelling reads back as its number. */
  lemma DecimalRoundTrip(n: nat)
    ensures LiteralValue(Decimal(n)) == Some(n)
    ensures Decimal(n)[0] == '0' ==> n == 0
  {
    DigitsSpell(n);
    var s := Decimal(n);
    if n == 0 { assert DigitsValue("0", 10) == 0 by { assert "0"[..0] == []; } }
    assert !IsHexLiteral(s) by {
      if |s| >= 2 { assert s[1] in s && s[1] != 'x' && s[1] != 'X'; }
    }
  }

  lemma LastDigit(front: string, last: char, s: string)
    requires s == front + [last] && AllDigits(s, 10)
    ensures AllDigits(front, 10) && IsDecDigit(last)
    ensures DigitsValue(s, 10) == DigitsValue(front, 10) * 10 + DigitValue(last)
  {
    assert s[..|s|] == s && s[..|s| - 1] == front;
    PrefixValue(s, 10, |s| - 1);
  }

  lemma {:induction false} PositiveValue(s: string)
    requires s != "" && AllDigits(s, 10) && s[0] != '0'
    ensures DigitsValue(s, 10) > 0
    decreases s
  {
    var (front, last) := (s[..|s| - 1], s[|s| - 1]);
    LastDigit(front, last, s);
    if front != "" {
      assert front[0] == s[0];
      PositiveValue(front);
    }
  }

  lemma LastDigitsAgree(n: nat, c: char, m: nat, d: char)
    requires IsDecDigit(c) && IsDecDigit(d) && n * 10 + DigitValue(c) == m * 10 + DigitValue(d)
    ensures n == m && c == d
  {
  }

  predicate NoLeadingZero(s: string) {
    s != "" ==> s[0] != '0'
  }

  /** Digits without leading zeros are determined by their value. */
  lemma {:induction false} SameValueSameDigits(s: string, t: string)
    requires AllDigits(s, 10) && AllDigits(t, 10) && NoLeadingZero(s) && NoLeadingZero(t)
    requires DigitsValue(s, 10) == DigitsValue(t, 10)
    ensures s == t
    decreases s
  {
    if s != "" { PositiveValue(s); }
    if t != "" { PositiveValue(t); }
    if s != "" && t != "" {
      var (front, last) := (s[..|s| - 1], s[|s| - 1]);
      var (front2, last2) := (t[..|t| - 1], t[|t| - 1]);
      LastDigit(front, last, s);
      LastDigit(front2, last2, t);
      LastDigitsAgree(DigitsValue(front, 10), last, DigitsValue(front2, 10), last2);
      FrontHasNoZero(s, front);
      FrontHasNoZero(t, front2);
      SameValueSameDigits(front, front2);
    }
  }

  lemma FrontHasNoZero(s: string, front: string)
    requires s != "" && front == s[..|s| - 1] && NoLeadingZero(s)
    ensures NoLeadingZero(front)
  {
    if front != "" { assert front[0] == s[0]; }
  }

  /** It is the only digit string without leading zeros that does. */
  lemma DecimalIsUnique(s: string)
    requires s != [] && AllDigits(s, 10) && (s[0] == '0' ==> s == "0")
    ensures s == Decimal(DigitsValue(s, 10))
  {
    if s[0] == '0' {
      assert DigitsValue("0", 10) == 0 by { assert "0"[..0] == []; }
    } else {
      PositiveValue(s);
      DigitsSpell(DigitsValue(s, 10));
      SameValueSameDigits(s, Digits(DigitsValue(s, 10)));
    }
  }

  // ----- what a literal denotes, by its digits and their places -----

  const LOWER_DIGITS := "0123456789abcdef"
  const UPPER_DIGITS := "0123456789ABCDEF"

  function Power(radix: nat, n: nat): nat {
    if n == 0 then 1 else radix * Power(radix, n - 1)
  }

  /** Each digit times the power of its place. */
  function Positional(digits: seq<nat>, radix: nat): nat {
    if digits == [] then 0
    else digits[0] * Power(radix, |digits| - 1) + Positional(digits[1..], radix)
  }

  predicate Spells(text: string, digits: seq<nat>, radix: nat) {
    && |text| == |digits|
    && (forall i :: 0 <= i < |digits| ==> digits[i] < radix <= 16)
    && (forall i :: 0 <= i < |digits| ==> text[i] == LOWER_DIGITS[digits[i]] || text[i] == UPPER_DIGITS[digits[i]])
  }

  /** `text` is a number to the base `radix`, digits in either case. */
  ghost predicate Number(text: string, radix: nat, n: nat) {
    text != "" && exists digits :: Spells(text, digits, radix) && Positional(digits, radix) == n
  }

  /** Hexadecimal behind `0x` or `0X`, and otherwise decimal. */
  ghost predicate Denotes(s: string, n: nat) {
    if |s| >= 2 && s[0] == '0' && s[1] in {'x', 'X'} then Number(s[2..], 16, n) else Number(s, 10, n)
  }

  lemma DigitTable(c: char, d: nat)
    requires d < 16 && (c == LOWER_DIGITS[d] || c == UPPER_DIGITS[d])
    ensures IsHexDigit(c) && DigitValue(c) == d && (d < 10 ==> IsDecDigit(c))
  {
  }

  lemma DigitIsInTable(c: char)
    requires IsHexDigit(c)
    ensures c == LOWER_DIGITS[DigitValue(c)] || c == UPPER_DIGITS[DigitValue(c)]
  {
  }

  lemma {:induction false} PositionalAppend(digits: seq<nat>, d: nat, radix: nat)
    ensures Positional(digits + [d], radix) == Positional(digits, radix) * radix + d
    decreases |digits|
  {
    var all := digits + [d];
    if digits == [] {
      assert all[1..] == [];
      assert Positional(all, radix) == d * Power(radix, 0) + 0;
    } else {
      assert all[1..] == digits[1..] + [d];
      PositionalAppend(digits[1..], d, radix);
      ShiftPlace(digits[0], Power(radix, |digits| - 1), Positional(digits[1..], radix), radix);
    }
  }

  lemma ShiftPlace(d: nat, p: nat, rest: nat, radix: nat)
    ensures (d * p + rest) * radix == d * (radix * p) + rest * radix
  {
    assert d * p * radix == d * (radix * p);
  }

  lemma {:induction false} SpelledValue(text: string, digits: seq<nat>, radix: nat)
    requires Spells(text, digits, radix) && (radix == 10 || radix == 16)
    ensures AllDigits(text, radix) && DigitsValue(text, radix) == Positional(digits, radix)
    decreases |text|
  {
    forall c | c in text
      ensures if radix == 16 then IsHexDigit(c) else IsDecDigit(c)
    {
      var i :| 0 <= i < |text| && text[i] == c;
      DigitTable(c, digits[i]);
    }
    if text != "" {
      var n := |text| - 1;
      SpelledValue(text[..n], digits[..n], radix);
      DigitTable(text[n], digits[n]);
      PositionalAppend(digits[..n], digits[n], radix);
      assert digits == digits[..n] + [digits[n]];
    }
  }

  function DigitsOf(text: string): (digits: seq<nat>)
    requires AllDigits(text, 16)
    ensures |digits| == |text|
  {
    seq(|text|, i requires 0 <= i < |text| => assert text[i] in text; DigitValue(text[i]))
  }

  lemma DigitsSpellText(text: string, radix: nat)
    requires AllDigits(text, radix) && (radix == 10 || radix == 16)
    ensures AllDigits(text, 16) && Spells(text, DigitsOf(text), radix)
  {
    forall c | c in text
      ensures IsHexDigit(c)
    {
      assert if radix == 16 then IsHexDigit(c) else IsDecDigit(c);
    }
    forall i | 0 <= i < |text|
      ensures DigitsOf(text)[i] < radix
      ensures text[i] == LOWER_DIGITS[DigitsOf(text)[i]] || text[i] == UPPER_DIGITS[DigitsOf(text)[i]]
    {
      assert text[i] in text;
      DigitIsInTable(text[i]);
    }
  }

  lemma NumberExactly(text: string, radix: nat, n: nat)
    requires radix == 10 || radix == 16
    ensures Number(text, radix, n) <==> text != "" && AllDigits(text, radix) && DigitsValue(text, radix) == n
  {
    if text != "" && AllDigits(text, radix) {
      DigitsSpellText(text, radix);
      SpelledValue(text, DigitsOf(text), radix);
    }
    forall digits | Spells(text, digits, radix)
      ensures AllDigits(text, radix) && DigitsValue(text, radix) == Positional(digits, radix)
    {
      SpelledValue(text, digits, radix);
    }
  }

  /** A literal has a value exactly when it denotes it, and is malformed exactly when it denotes nothing. */
  lemma LiteralValueExactly(s: string, n: nat)
    ensures LiteralValue(s) == Some(n) <==> Denotes(s, n)
  {
    assert IsHexLiteral(s) <==> |s| >= 2 && s[0] == '0' && s[1] in {'x', 'X'};
    if IsHexLiteral(s) {
      NumberExactly(s[2..], 16, n);
    } else {
      NumberExactly(s, 10, n);
    }
  }

  /** A literal is refused exactly when it denotes nothing, and the error tells which kind of literal it started as. */
  lemma RefusedExactly(s: string)
    ensures Canonical(s).Failure? <==> forall n :: !Denotes(s, n)
    ensures Wrap(s).Failure? <==> Canonical(s).Failure?
    ensures Canonical(s).Failure? ==>
      Canonical(s).error == (if |s| >= 2 && s[0] == '0' && s[1] in {'x', 'X'} then InvalidHex(s) else InvalidDecimal(s))
      && Wrap(s) == Canonical(s)
  {
    forall n: nat
      ensures LiteralValue(s) == Some(n) <==> Denotes(s, n)
    {
      LiteralValueExactly(s, n);
    }
    if LiteralValue(s).Some? {
      assert Denotes(s, LiteralValue(s).value);
    }
    assert IsHexLiteral(s) <==> |s| >= 2 && s[0] == '0' && s[1] in {'x', 'X'};
  }

  /** Two literals have the same canonical spelling exactly when they are congruent modulo 2^256. */
  lemma CanonicalAgreesOnResidues(a: string, b: string)
    requires LiteralValue(a).Some? && LiteralValue(b).Some?
    ensures Canonical(a) == Canonical(b) <==> LiteralValue(a).value % TWO_256 == LiteralValue(b).value % TWO_256
  {
    DecimalRoundTrip(LiteralValue(a).value % TWO_256);
    DecimalRoundTrip(LiteralValue(b).value % TWO_256);
  }

  lemma WrapKeepsSmall(s: string, n: nat)
    requires LiteralValue(s) == Some(n) && n < TWO_256
    ensures n % TWO_256 == n && Wrap(s) == Success(s) && Canonical(s) == Success(Decimal(n))
  {
  }

  /** Wrapping keeps the residue, always fits a word, and does nothing the second time. */
  lemma WrapIsIdempotent(s: string)
    requires LiteralValue(s).Some?
    ensures var w := Wrap(s).value;
      && LiteralValue(w) == Some(LiteralValue(s).value % TWO_256)
      && Wrap(w) == Success(w)
      && Canonical(w) == Canonical(s)
  {
    var n := LiteralValue(s).value;
    if n < TWO_256 {
      WrapKeepsSmall(s, n);
    } else {
      DecimalRoundTrip(n % TWO_256);
      WrapKeepsSmall(Decimal(n % TWO_256), n % TWO_256);
    }
  }
}
