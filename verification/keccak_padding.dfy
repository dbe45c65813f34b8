/** What the hash needs of its byte-level padding. */
module KeccakPadding {
  // As bits it is pad10*1 of section 5.1 of FIPS 202, no two messages pad to the same blocks, and reading a lane byte
  // by byte undoes its packing.

  import opened KeccakSpec

  lemma Reassociate(a: seq<bool>, b: seq<bool>, c: seq<bool>)
    ensures a + (b + c) == (a + b) + c
  {
  }

  lemma BitsOfCons(b: bv8, rest: seq<bv8>, all: seq<bv8>)
    requires all == [b] + rest
    ensures BitsOf(all) == BitsOfByte(b) + BitsOf(rest)
  {
    assert all[0] == b && all[1..] == rest;
  }

  lemma {:induction false} BitsOfConcat(a: seq<bv8>, b: seq<bv8>)
    ensures BitsOf(a + b) == BitsOf(a) + BitsOf(b)
  {
    if a == [] {
      assert a + b == b;
    } else {
      BitsOfConcat(a[1..], b);
      BitsOfCons(a[0], a[1..] + b, a + b);
      Reassociate(BitsOfByte(a[0]), BitsOf(a[1..]), BitsOf(b));
    }
  }

  lemma BitsOfOne(b: bv8)
    ensures BitsOf([b]) == BitsOfByte(b)
  {
    assert [b][1..] == [];
    assert BitsOf([]) == [];
  }

  lemma {:induction false} BitsOfZeros(n: nat)
    ensures BitsOf(Zeros(n)) == FalseBits(8 * n)
  {
    if n > 0 {
      BitsOfZeros(n - 1);
      assert Zeros(n)[1..] == Zeros(n - 1);
      assert BitsOfByte(0) == FalseBits(8);
      assert FalseBits(8 * n) == FalseBits(8) + FalseBits(8 * (n - 1));
    }
  }

  lemma EdgeBits()
    ensures BitsOfByte(0x01) == [true] + FalseBits(7)
    ensures BitsOfByte(0x80) == FalseBits(7) + [true]
    ensures BitsOfByte(0x81) == [true] + FalseBits(6) + [true]
  {
  }

  lemma FalseBitsConcat(a: nat, b: nat)
    ensures FalseBits(a) + FalseBits(b) == FalseBits(a + b)
  {
  }

  lemma FiveParts(a: seq<bool>, b: seq<bool>, c: seq<bool>, d: seq<bool>, e: seq<bool>)
    ensures (a + b) + c + (d + e) == a + (b + c + d) + e
  {
  }

  /** The tail by its number of bytes: one 1 bit, zeros, one 1 bit. */
  lemma TailBits(length: nat)
    ensures BitsOf(PadTail(length)) == [true] + FalseBits(8 * |PadTail(length)| - 2) + [true]
  {
    var q := RATE - length % RATE;
    if q == 1 {
      ShortTailBits();
    } else {
      LongTailBits(q - 2);
    }
  }

  lemma ShortTailBits()
    ensures BitsOf([0x81]) == [true] + FalseBits(6) + [true]
  {
    BitsOfOne(0x81);
    EdgeBits();
  }

  lemma LongTailBits(zeros: nat)
    ensures BitsOf([0x01] + Zeros(zeros) + [0x80]) == [true] + FalseBits(8 * zeros + 14) + [true]
  {
    var z := Zeros(zeros);
    BitsOfConcat([0x01] + z, [0x80]);
    BitsOfConcat([0x01], z);
    BitsOfOne(0x01);
    BitsOfOne(0x80);
    BitsOfZeros(zeros);
    EdgeBits();
    FiveParts([true], FalseBits(7), FalseBits(8 * zeros), FalseBits(7), [true]);
    FalseBitsConcat(7, 8 * zeros);
    FalseBitsConcat(7 + 8 * zeros, 7);
  }

  lemma RemainderOf(r: int, j: int)
    requires 0 <= r < 1088
    ensures (r + 1088 * j) % 1088 == r
  {
  }

  lemma TailLength(length: nat, q: nat)
    requires 1 <= q <= 136 && (length + q) % 136 == 0
    ensures (-(8 * length) - 2) % 1088 == 8 * q - 2
  {
    var k := (length + q) / 136;
    assert -(8 * length) - 2 == 8 * q - 2 + 1088 * -k;
    RemainderOf(8 * q - 2, -k);
  }

  lemma TailIsPad10Star1(length: nat)
    ensures BitsOf(PadTail(length)) == Pad10Star1(8 * RATE, 8 * length)
  {
    var q := RATE - length % RATE;
    assert |PadTail(length)| == q;
    TailBits(length);
    TailLength(length, q);
  }

  /** Read as bits, the padded message is the message and pad10*1 to a multiple of the rate. */
  lemma PadIsPad10Star1(message: seq<bv8>)
    ensures BitsOf(Pad(message)) == BitsOf(message) + Pad10Star1(8 * RATE, 8 * |message|)
  {
    BitsOfConcat(message, PadTail(|message|));
    TailIsPad10Star1(|message|);
  }

  /** The padding can be told from what it pads. */
  lemma LongerMessageDiffers(a: seq<bv8>, b: seq<bv8>)
    requires |a| < |b|
    ensures Pad(a) != Pad(b)
  {
    var n, i := |Pad(a)|, |b|;
    if n == |Pad(b)| {
      assert Pad(b)[i] == PadTail(|b|)[0];
      assert Pad(a)[i] == PadTail(|a|)[i - |a|];
      assert PadTail(|b|)[0] == (if i == n - 1 then 0x81 else 0x01);
      assert PadTail(|a|)[i - |a|] == (if i == n - 1 then 0x80 else 0x00);
    }
  }

  lemma PaddingIsInjective(a: seq<bv8>, b: seq<bv8>)
    requires Pad(a) == Pad(b)
    ensures a == b
  {
    if |a| < |b| {
      LongerMessageDiffers(a, b);
    } else if |b| < |a| {
      LongerMessageDiffers(b, a);
    } else {
      assert Pad(a)[..|a|] == a && Pad(b)[..|b|] == b;
    }
  }

  lemma LaneShift(b: seq<bv8>)
    requires |b| == 8
    ensures LaneOfBytes(b) >> 8 == LaneOfBytes(b[1..] + [0])
    ensures (LaneOfBytes(b) & 0xff) as bv8 == b[0]
  {
  }

  /** Reading the bytes of a packed lane gives them back. */
  lemma {:induction false} LaneRoundTrip(b: seq<bv8>, k: nat)
    requires |b| == 8 && k < 8
    ensures ByteOfLane(LaneOfBytes(b), k) == b[k]
    decreases k
  {
    LaneShift(b);
    if k > 0 {
      LaneRoundTrip(b[1..] + [0], k - 1);
    }
  }
}
