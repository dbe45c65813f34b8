/** Keccak-256: the permutation in place on an array of lanes, and the hash that absorbs blocks as it goes. */
module Keccak {
  // Each method computes what the definitions of FIPS 202 say; the two tables are proved to be the generated ones.

  import opened KeccakSpec
  import opened KeccakBitSpec
  import KeccakBits

  const ROUNDS: nat := 24

  const ROUND_CONSTANTS: seq<bv64> := [
    0x0000_0000_0000_0001, 0x0000_0000_0000_8082, 0x8000_0000_0000_808a, 0x8000_0000_8000_8000,
    0x0000_0000_0000_808b, 0x0000_0000_8000_0001, 0x8000_0000_8000_8081, 0x8000_0000_0000_8009,
    0x0000_0000_0000_008a, 0x0000_0000_0000_0088, 0x0000_0000_8000_8009, 0x0000_0000_8000_000a,
    0x0000_0000_8000_808b, 0x8000_0000_0000_008b, 0x8000_0000_0000_8089, 0x8000_0000_0000_8003,
    0x8000_0000_0000_8002, 0x8000_0000_0000_0080, 0x0000_0000_0000_800a, 0x8000_0000_8000_000a,
    0x8000_0000_8000_8081, 0x8000_0000_0000_8080, 0x0000_0000_8000_0001, 0x8000_0000_8000_8008
  ]

  const ROTATION_OFFSETS: seq<nat> :=
    [0, 1, 62, 28, 27, 36, 44, 6, 55, 20, 3, 10, 43, 25, 39, 41, 45, 15, 21, 8, 18, 2, 61, 56, 14]

  // ----- the round constants are those of the shift register -----

  /** The round constant read off the register when it holds `r` at the start of the round. */
  function ConstantOf(r: bv8): bv64 {
    Constant(LowestOfSteps(r))
  }

  function SevenSteps(r: bv8): bv8 {
    LfsrStep(LfsrStep(LfsrStep(LfsrStep(LfsrStep(LfsrStep(LfsrStep(r)))))))
  }

  function LowestOfSteps(r: bv8): (b: seq<bool>)
    ensures |b| == 7
  {
    var r1 := LfsrStep(r);
    var r2 := LfsrStep(r1);
    var r3 := LfsrStep(r2);
    var r4 := LfsrStep(r3);
    var r5 := LfsrStep(r4);
    var r6 := LfsrStep(r5);
    [r & 1 != 0, r1 & 1 != 0, r2 & 1 != 0, r3 & 1 != 0, r4 & 1 != 0, r5 & 1 != 0, r6 & 1 != 0]
  }

  lemma LfsrOverSteps(t: nat, r: bv8)
    requires r == Lfsr(t)
    ensures Lfsr(t + 1) == LfsrStep(r)
    ensures Lfsr(t + 2) == LfsrStep(LfsrStep(r))
    ensures Lfsr(t + 3) == LfsrStep(LfsrStep(LfsrStep(r)))
  {
    assert Lfsr(t + 1) == LfsrStep(Lfsr(t));
    assert Lfsr(t + 2) == LfsrStep(Lfsr(t + 1));
    assert Lfsr(t + 3) == LfsrStep(Lfsr(t + 2));
  }

  lemma RcBitsOfRegister(t: nat, r: bv8)
    requires r == Lfsr(t)
    ensures RcBits(t) == LowestOfSteps(r) && Lfsr(t + 7) == SevenSteps(r)
  {
    LfsrOverSteps(t, r);
    LfsrOverSteps(t + 3, Lfsr(t + 3));
    LfsrOverSteps(t + 6, Lfsr(t + 6));
  }

  lemma RegisterOverRound(round: nat)
    ensures RoundConstant(round) == ConstantOf(Lfsr(7 * round))
    ensures Lfsr(7 * (round + 1)) == SevenSteps(Lfsr(7 * round))
  {
    var t := 7 * round;
    RcBitsOfRegister(t, Lfsr(t));
    assert 7 * (round + 1) == t + 7;
  }

  /** What the register holds at the start of each round. */
  const REGISTER: seq<bv8> := [
    0x01, 0x80, 0xd8, 0x1a, 0xdf, 0x09, 0x35, 0x4f, 0xca, 0x70, 0x41, 0xec,
    0xd5, 0xcd, 0x63, 0xab, 0xaa, 0x2a, 0xf2, 0xe8, 0x37, 0x3e, 0x0b, 0x44
  ]

  /** A table that starts as the register does and follows its steps holds what the register holds. */
  lemma {:induction false} RegisterAt(table: seq<bv8>, round: nat)
    requires round < |table| && table[0] == 1
    requires forall i :: 0 <= i < |table| - 1 ==> SevenSteps(table[i]) == table[i + 1]
    ensures Lfsr(7 * round) == table[round]
  {
    if round > 0 {
      RegisterAt(table, round - 1);
      RegisterOverRound(round - 1);
      assert SevenSteps(table[round - 1]) == table[round - 1 + 1];
    }
  }

  lemma RegisterFollowsSteps()
    ensures |REGISTER| == ROUNDS && REGISTER[0] == 1
    ensures forall i :: 0 <= i < |REGISTER| - 1 ==> SevenSteps(REGISTER[i]) == REGISTER[i + 1]
  {
    forall i | 0 <= i < |REGISTER| - 1
      ensures SevenSteps(REGISTER[i]) == REGISTER[i + 1]
    {
      if i < 8 {
        FirstSteps(i);
      } else if i < 16 {
        MiddleSteps(i);
      } else {
        LastSteps(i);
      }
    }
  }

  lemma FirstSteps(i: nat)
    requires i < 8
    ensures SevenSteps(REGISTER[i]) == REGISTER[i + 1]
  {
    assert i == 0 || i == 1 || i == 2 || i == 3 || i == 4 || i == 5 || i == 6 || i == 7;
  }

  lemma MiddleSteps(i: nat)
    requires 8 <= i < 16
    ensures SevenSteps(REGISTER[i]) == REGISTER[i + 1]
  {
    assert i == 8 || i == 9 || i == 10 || i == 11 || i == 12 || i == 13 || i == 14 || i == 15;
  }

  lemma LastSteps(i: nat)
    requires 16 <= i < 23
    ensures SevenSteps(REGISTER[i]) == REGISTER[i + 1]
  {
    assert i == 16 || i == 17 || i == 18 || i == 19 || i == 20 || i == 21 || i == 22;
  }

  lemma ConstantTable(round: nat)
    requires round < ROUNDS
    ensures ROUND_CONSTANTS[round] == ConstantOf(REGISTER[round])
  {
    if round < 4 {
      FirstConstants(round);
    } else if round < 8 {
      SecondConstants(round);
    } else if round < 12 {
      ThirdConstants(round);
    } else if round < 16 {
      FourthConstants(round);
    } else if round < 20 {
      FifthConstants(round);
    } else {
      SixthConstants(round);
    }
  }

  lemma FirstConstants(i: nat)
    requires i < 4
    ensures ROUND_CONSTANTS[i] == ConstantOf(REGISTER[i])
  {
    assert i == 0 || i == 1 || i == 2 || i == 3;
  }

  lemma SecondConstants(i: nat)
    requires 4 <= i < 8
    ensures ROUND_CONSTANTS[i] == ConstantOf(REGISTER[i])
  {
    assert i == 4 || i == 5 || i == 6 || i == 7;
  }

  lemma ThirdConstants(i: nat)
    requires 8 <= i < 12
    ensures ROUND_CONSTANTS[i] == ConstantOf(REGISTER[i])
  {
    assert i == 8 || i == 9 || i == 10 || i == 11;
  }

  lemma FourthConstants(i: nat)
    requires 12 <= i < 16
    ensures ROUND_CONSTANTS[i] == ConstantOf(REGISTER[i])
  {
    assert i == 12 || i == 13 || i == 14 || i == 15;
  }

  lemma FifthConstants(i: nat)
    requires 16 <= i < 20
    ensures ROUND_CONSTANTS[i] == ConstantOf(REGISTER[i])
  {
    assert i == 16 || i == 17 || i == 18 || i == 19;
  }

  lemma SixthConstants(i: nat)
    requires 20 <= i < 24
    ensures ROUND_CONSTANTS[i] == ConstantOf(REGISTER[i])
  {
    assert i == 20 || i == 21 || i == 22 || i == 23;
  }

  /** The table of constants is what algorithms 5 and 6 of section 3.2.5 generate. */
  lemma RoundConstantsAreGenerated(round: nat)
    requires round < ROUNDS
    ensures |ROUND_CONSTANTS| == ROUNDS && ROUND_CONSTANTS[round] == RoundConstant(round)
  {
    RegisterFollowsSteps();
    RegisterAt(REGISTER, round);
    RegisterOverRound(round);
    ConstantTable(round);
  }

  // ----- the index map of rho and pi together -----

  /** Where the fused loop stores lane `i`. */
  function Destination(i: nat): nat {
    i / 5 + 5 * ((2 * (i % 5) + 3 * (i / 5)) % 5)
  }

  /** The lane that pi moves to place `i`. */
  function Origin(i: nat): nat {
    (i % 5 + 3 * (i / 5)) % 5 + 5 * (i % 5)
  }

  lemma DivMod5(x: int, k: int)
    requires 0 <= x < 5
    ensures (x + 5 * k) % 5 == x && (x + 5 * k) / 5 == k
  {
  }

  lemma DestinationHasOrigin(i: nat)
    requires i < 25
    ensures Destination(i) < 25 && Origin(Destination(i)) == i
  {
    var x, y := i % 5, i / 5;
    var w, q := (2 * x + 3 * y) % 5, (2 * x + 3 * y) / 5;
    DivMod5(y, w);
    DivMod5(x, x + 2 * y - 3 * q);
    assert y + 3 * w == x + 5 * (x + 2 * y - 3 * q);
  }

  lemma OriginHasDestination(i: nat)
    requires i < 25
    ensures Origin(i) < 25 && Destination(Origin(i)) == i
  {
    var x, y := i % 5, i / 5;
    var w, q := (x + 3 * y) % 5, (x + 3 * y) / 5;
    DivMod5(w, x);
    DivMod5(y, x + y - 2 * q);
    assert 2 * w + 3 * x == y + 5 * (x + y - 2 * q);
  }

  /** The map hits every lane exactly once. */
  lemma DestinationIsBijective(i: nat)
    requires i < 25
    ensures Destination(i) < 25 && Origin(i) < 25
    ensures Origin(Destination(i)) == i && Destination(Origin(i)) == i
  {
    DestinationHasOrigin(i);
    OriginHasDestination(i);
  }

  // ----- the rotation offsets are those of the walk -----

  /** The lanes in the order of the walk, which follows the fused index map. */
  const LANES: seq<nat> := [1, 10, 7, 11, 17, 18, 3, 5, 16, 8, 21, 24, 4, 15, 23, 19, 13, 12, 2, 20, 14, 22, 9, 6]

  /** The step of the walk that visits each lane; lane 0 is never visited. */
  const VISITS: seq<nat> := [24, 0, 18, 6, 12, 7, 23, 2, 9, 22, 1, 3, 17, 16, 20, 13, 8, 4, 5, 15, 19, 10, 21, 14, 11]

  lemma EarlyLanesFollowTheMap(t: nat)
    requires t < 12
    ensures LANES[t + 1] == Destination(LANES[t])
  {
  }

  lemma LateLanesFollowTheMap(t: nat)
    requires 12 <= t < 23
    ensures LANES[t + 1] == Destination(LANES[t])
  {
  }

  lemma VisitsInvertLanes(t: nat)
    requires t < 24
    ensures LANES[t] < 25 && VISITS[LANES[t]] == t
  {
  }

  lemma LanesInvertVisits(i: nat)
    requires 0 < i < 25
    ensures VISITS[i] < 24 && LANES[VISITS[i]] == i
  {
  }

  lemma EarlyOffsets(t: nat)
    requires t < 12
    ensures LANES[t] < 25 && ROTATION_OFFSETS[LANES[t]] == WalkOffset(t)
  {
  }

  lemma LateOffsets(t: nat)
    requires 12 <= t < 24
    ensures LANES[t] < 25 && ROTATION_OFFSETS[LANES[t]] == WalkOffset(t)
  {
  }

  lemma WalkFollowsTheMap(t: nat, i: nat)
    requires i < 25 && Walk(t) == (i % 5, i / 5)
    ensures Destination(i) < 25 && Walk(t + 1) == (Destination(i) % 5, Destination(i) / 5)
  {
    DivMod5(i / 5, (2 * (i % 5) + 3 * (i / 5)) % 5);
  }

  /** The tables describe the walk: its lanes in order, when it comes to each, and the offset it gives to each. */
  ghost predicate WalkTables(lanes: seq<nat>, visits: seq<nat>, offsets: seq<nat>) {
    && |lanes| == 24 && |visits| == 25 && |offsets| == 25
    && lanes[0] == 1 && offsets[0] == 0
    && (forall t :: 0 <= t < 24 ==> lanes[t] < 25 && visits[lanes[t]] == t && offsets[lanes[t]] == WalkOffset(t))
    && (forall t :: 0 < t < 24 ==> lanes[t] == Destination(lanes[t - 1]))
    && (forall i :: 0 < i < 25 ==> visits[i] < 24 && lanes[visits[i]] == i)
  }

  lemma {:induction false} WalkAt(lanes: seq<nat>, visits: seq<nat>, offsets: seq<nat>, t: nat)
    requires WalkTables(lanes, visits, offsets) && t < 24
    ensures Walk(t) == (lanes[t] % 5, lanes[t] / 5)
  {
    if t > 0 {
      WalkAt(lanes, visits, offsets, t - 1);
      WalkFollowsTheMap(t - 1, lanes[t - 1]);
    }
  }

  /** The search reaches the first visit of lane `i`, or its end when there is none. */
  lemma {:induction false} OffsetIsTabulated(lanes: seq<nat>, visits: seq<nat>, offsets: seq<nat>, t: nat, i: nat)
    requires WalkTables(lanes, visits, offsets) && t <= 24 && i < 25 && (i == 0 || t <= visits[i])
    ensures OffsetFrom(t, i % 5, i / 5) == offsets[i]
    decreases 24 - t
  {
    if t < 24 {
      WalkAt(lanes, visits, offsets, t);
      LaneIndex(i);
      LaneIndex(lanes[t]);
      if lanes[t] != i {
        OffsetIsTabulated(lanes, visits, offsets, t + 1, i);
      }
    }
  }

  lemma TablesDescribeTheWalk()
    ensures WalkTables(LANES, VISITS, ROTATION_OFFSETS)
  {
    forall t | 0 <= t < 24
      ensures LANES[t] < 25 && VISITS[LANES[t]] == t && ROTATION_OFFSETS[LANES[t]] == WalkOffset(t)
    {
      VisitsInvertLanes(t);
      if t < 12 {
        EarlyOffsets(t);
      } else {
        LateOffsets(t);
      }
    }
    forall t | 0 < t < 24
      ensures LANES[t] == Destination(LANES[t - 1])
    {
      if t <= 12 {
        EarlyLanesFollowTheMap(t - 1);
      } else {
        LateLanesFollowTheMap(t - 1);
      }
    }
    forall i | 0 < i < 25
      ensures VISITS[i] < 24 && LANES[VISITS[i]] == i
    {
      LanesInvertVisits(i);
    }
  }

  /** The table of rotations is what algorithm 2 of section 3.2.2 generates. */
  lemma RotationOffsetsAreGenerated(i: nat)
    requires i < 25
    ensures |ROTATION_OFFSETS| == 25 && ROTATION_OFFSETS[i] == RhoOffset(i % 5, i / 5)
  {
    TablesDescribeTheWalk();
    OffsetIsTabulated(LANES, VISITS, ROTATION_OFFSETS, 0, i);
  }

  // ----- the permutation in place -----

  lemma PiLane(a: State, i: nat)
    requires i < 25
    ensures Origin(i) < 25 && Pi(a)[i] == a[Origin(i)]
  {
    LaneIndex(i);
    assert Origin(i) == (i % 5 + 3 * (i / 5)) % 5 + 5 * (i % 5);
    assert Pi(a)[i] == PiAt(a, i % 5, i / 5);
  }

  lemma ChiLane(a: State, x: nat, y: nat)
    requires x < 5 && y < 5
    ensures Chi(a)[x + 5 * y] == Xor(a[x + 5 * y], AndOfNot(a[(x + 1) % 5 + 5 * y], a[(x + 2) % 5 + 5 * y]))
  {
    DivMod5(x, y);
  }

  lemma ParityOfLanes(a: State, x: nat, p: bv64)
    requires x < 5 && p == Xor(Xor(Xor(Xor(a[x], a[x + 5]), a[x + 10]), a[x + 15]), a[x + 20])
    ensures p == ColumnParity(a, x)
  {
  }

  method ColumnParities(state: array<bv64>) returns (c: array<bv64>)
    requires state.Length == 25
    ensures fresh(c) && c.Length == 5
    ensures forall x :: 0 <= x < 5 ==> c[x] == ColumnParity(state[..], x)
  {
    c := new bv64[5](i => 0);
    for x := 0 to 5
      invariant forall k :: 0 <= k < x ==> c[k] == ColumnParity(state[..], k)
    {
      c[x] := Xor(Xor(Xor(Xor(state[x], state[x + 5]), state[x + 10]), state[x + 15]), state[x + 20]);
      ParityOfLanes(state[..], x, c[x]);
    }
  }

  lemma EffectOfParities(a: State, x: nat, before: bv64, after: bv64)
    requires before == ColumnParity(a, (x + 4) % 5) && after == ColumnParity(a, (x + 1) % 5)
    ensures Xor(before, Rotate(after, 1)) == ThetaEffect(a, x)
  {
  }

  method ColumnEffects(state: array<bv64>) returns (d: array<bv64>)
    requires state.Length == 25
    ensures fresh(d) && d.Length == 5
    ensures forall x :: 0 <= x < 5 ==> d[x] == ThetaEffect(state[..], x)
  {
    var c := ColumnParities(state);
    d := new bv64[5](i => 0);
    for x := 0 to 5
      invariant forall k :: 0 <= k < 5 ==> c[k] == ColumnParity(state[..], k)
      invariant forall k :: 0 <= k < x ==> d[k] == ThetaEffect(state[..], k)
    {
      d[x] := Xor(c[(x + 4) % 5], Rotate(c[(x + 1) % 5], 1));
      EffectOfParities(state[..], x, c[(x + 4) % 5], c[(x + 1) % 5]);
    }
  }

  /** Every lane with the word of its column added. */
  function WithColumns(a: State, d: seq<bv64>): State
    requires |d| == 5
  {
    seq(25, i requires 0 <= i < 25 => Xor(a[i], d[i % 5]))
  }

  lemma ThetaLane(a: State, i: nat, e: bv64)
    requires i < 25 && e == ThetaEffect(a, i % 5)
    ensures Theta(a)[i] == Xor(a[i], e)
  {
    LaneIndex(i);
    assert Theta(a)[i] == ThetaAt(a, i % 5, i / 5);
    assert Lane(a, i % 5, i / 5) == a[i];
  }

  lemma ThetaAddsEffects(a: State, d: seq<bv64>)
    requires |d| == 5 && forall x :: 0 <= x < 5 ==> d[x] == ThetaEffect(a, x)
    ensures Theta(a) == WithColumns(a, d)
  {
    forall i | 0 <= i < 25
      ensures Theta(a)[i] == WithColumns(a, d)[i]
    {
      ThetaLane(a, i, d[i % 5]);
    }
  }

  method AddColumns(state: array<bv64>, d: array<bv64>)
    requires state.Length == 25 && d.Length == 5 && state != d
    modifies state
    ensures state[..] == WithColumns(old(state[..]), old(d[..]))
  {
    ghost var a: State, e := state[..], d[..];
    for y := 0 to 5
      invariant d[..] == e
      invariant forall k :: 0 <= k < 5 * y ==> state[k] == WithColumns(a, e)[k]
      invariant forall k :: 5 * y <= k < 25 ==> state[k] == a[k]
    {
      for x := 0 to 5
        invariant d[..] == e
        invariant forall k :: 0 <= k < x + 5 * y ==> state[k] == WithColumns(a, e)[k]
        invariant forall k :: x + 5 * y <= k < 25 ==> state[k] == a[k]
      {
        DivMod5(x, y);
        state[x + 5 * y] := Xor(state[x + 5 * y], d[x]);
      }
    }
  }

  method ApplyTheta(state: array<bv64>)
    requires state.Length == 25
    modifies state
    ensures state[..] == Theta(old(state[..]))
  {
    var d := ColumnEffects(state);
    ThetaAddsEffects(state[..], d[..]);
    AddColumns(state, d);
  }

  /** Lane `k` of the state, rotated, is where the map sends it. */
  ghost predicate Stored(rotated: State, b: seq<bv64>, k: nat)
    requires |b| == 25 && k < 25
  {
    Destination(k) < 25 && b[Destination(k)] == rotated[k]
  }

  lemma DestinationsDiffer(k: nat, idx: nat)
    requires k < 25 && idx < 25 && k != idx
    ensures Destination(k) != Destination(idx)
  {
    DestinationIsBijective(k);
    DestinationIsBijective(idx);
  }

  lemma StoringKeeps(rotated: State, b: seq<bv64>, k: nat, dst: nat, v: bv64)
    requires |b| == 25 && k < 25 && Stored(rotated, b, k) && dst < 25 && dst != Destination(k)
    ensures Stored(rotated, b[dst := v], k)
  {
  }

  lemma StoringNext(rotated: State, b: seq<bv64>, idx: nat, next: seq<bv64>)
    requires |b| == 25 && idx < 25 && forall k :: 0 <= k < idx ==> Stored(rotated, b, k)
    requires Destination(idx) < 25 && next == b[Destination(idx) := rotated[idx]]
    ensures forall k :: 0 <= k <= idx ==> Stored(rotated, next, k)
  {
    forall k | 0 <= k < idx
      ensures Stored(rotated, next, k)
    {
      DestinationsDiffer(k, idx);
      StoringKeeps(rotated, b, k, Destination(idx), rotated[idx]);
    }
  }

  lemma AllStored(rotated: State, b: seq<bv64>)
    requires |b| == 25 && forall k :: 0 <= k < 25 ==> Stored(rotated, b, k)
    ensures b == Pi(rotated)
  {
    forall i | 0 <= i < 25
      ensures b[i] == Pi(rotated)[i]
    {
      PiLane(rotated, i);
      DestinationIsBijective(i);
      assert Stored(rotated, b, Origin(i));
    }
  }

  function Rotated(a: State, offsets: seq<nat>): State
    requires |offsets| == 25
  {
    seq(25, i requires 0 <= i < 25 => Rotate(a[i], offsets[i]))
  }

  /** The fused loop of rho and pi, from the state into a second array. */
  method ApplyRhoPi(state: array<bv64>, offsets: seq<nat>) returns (b: array<bv64>)
    requires state.Length == 25 && |offsets| == 25
    ensures fresh(b) && b.Length == 25
    ensures b[..] == Pi(Rotated(state[..], offsets))
  {
    ghost var rotated: State := Rotated(state[..], offsets);
    b := new bv64[25](i => 0);
    for y := 0 to 5
      invariant forall k :: 0 <= k < 5 * y ==> Stored(rotated, b[..], k)
    {
      for x := 0 to 5
        invariant forall k :: 0 <= k < x + 5 * y ==> Stored(rotated, b[..], k)
      {
        var idx := x + 5 * y;
        DivMod5(x, y);
        var dst := y + 5 * ((2 * x + 3 * y) % 5);
        ghost var stored := b[..];
        b[dst] := Rotate(state[idx], offsets[idx]);
        assert b[..] == stored[dst := rotated[idx]];
        StoringNext(rotated, stored, idx, b[..]);
      }
    }
    AllStored(rotated, b[..]);
  }

  /** The table gives every lane its offset. */
  ghost predicate Offsets(table: seq<nat>) {
    |table| == 25 && forall i :: 0 <= i < 25 ==> table[i] == RhoOffset(i % 5, i / 5)
  }

  lemma RhoRotates(a: State, offsets: seq<nat>)
    requires Offsets(offsets)
    ensures Rho(a) == Rotated(a, offsets)
  {
    forall i | 0 <= i < 25
      ensures Rho(a)[i] == Rotated(a, offsets)[i]
    {
      LaneIndex(i);
    }
  }

  method ApplyChi(state: array<bv64>, b: array<bv64>)
    requires state.Length == 25 && b.Length == 25 && state != b
    modifies state
    ensures state[..] == Chi(old(b[..]))
  {
    ghost var before: State := b[..];
    ghost var after: State := Chi(before);
    for y := 0 to 5
      invariant b[..] == before
      invariant forall k :: 0 <= k < 5 * y ==> state[k] == after[k]
    {
      for x := 0 to 5
        invariant b[..] == before
        invariant forall k :: 0 <= k < x + 5 * y ==> state[k] == after[k]
      {
        state[x + 5 * y] := Xor(b[x + 5 * y], AndOfNot(b[(x + 1) % 5 + 5 * y], b[(x + 2) % 5 + 5 * y]));
        ChiLane(before, x, y);
      }
    }
  }

  method KeccakRound(state: array<bv64>, offsets: seq<nat>, rc: bv64, ghost round: nat)
    requires state.Length == 25 && Offsets(offsets) && rc == RoundConstant(round)
    modifies state
    ensures state[..] == Round(old(state[..]), round)
  {
    ApplyTheta(state);
    RhoRotates(state[..], offsets);
    var b := ApplyRhoPi(state, offsets);
    ApplyChi(state, b);
    ghost var mixed: State := state[..];
    state[0] := Xor(state[0], rc);
    IotaStores(mixed, round, rc, state[..]);
  }

  lemma IotaStores(a: State, round: nat, rc: bv64, next: seq<bv64>)
    requires rc == RoundConstant(round) && next == a[0 := Xor(a[0], rc)]
    ensures next == Iota(a, round)
  {
  }

  method ApplyRounds(state: array<bv64>, offsets: seq<nat>, constants: seq<bv64>)
    requires state.Length == 25 && Offsets(offsets)
    requires forall round :: 0 <= round < |constants| ==> constants[round] == RoundConstant(round)
    modifies state
    ensures state[..] == Rounds(old(state[..]), |constants|)
  {
    ghost var a: State := state[..];
    for round := 0 to |constants|
      invariant state[..] == Rounds(a, round)
    {
      KeccakRound(state, offsets, constants[round], round);
    }
  }

  lemma TablesAreGenerated()
    ensures Offsets(ROTATION_OFFSETS)
    ensures |ROUND_CONSTANTS| == ROUNDS
    ensures forall round :: 0 <= round < ROUNDS ==> ROUND_CONSTANTS[round] == RoundConstant(round)
  {
    forall i | 0 <= i < 25
      ensures ROTATION_OFFSETS[i] == RhoOffset(i % 5, i / 5)
    {
      RotationOffsetsAreGenerated(i);
    }
    forall round | 0 <= round < ROUNDS
      ensures ROUND_CONSTANTS[round] == RoundConstant(round)
    {
      RoundConstantsAreGenerated(round);
    }
  }

  method KeccakF1600(state: array<bv64>)
    requires state.Length == 25
    modifies state
    ensures state[..] == Permute(old(state[..]))
  {
    TablesAreGenerated();
    ApplyRounds(state, ROTATION_OFFSETS, ROUND_CONSTANTS);
  }

  // ----- the sponge -----

  method AbsorbBlock(state: array<bv64>, block: seq<bv8>)
    requires state.Length == 25 && |block| == RATE
    modifies state
    ensures state[..] == XorBlock(old(state[..]), block)
  {
    ghost var a: State := state[..];
    for lane := 0 to 17
      invariant forall k :: 0 <= k < lane ==> state[k] == XorBlock(a, block)[k]
      invariant forall k :: lane <= k < 25 ==> state[k] == a[k]
    {
      state[lane] := Xor(state[lane], LaneOfBytes(block[8 * lane..8 * lane + 8]));
    }
  }

  /** The padded block byte by byte. */
  lemma PadBytes(rem: seq<bv8>)
    requires |rem| < RATE
    ensures |Pad(rem)| == RATE
    ensures forall k :: 0 <= k < |rem| ==> Pad(rem)[k] == rem[k]
    ensures forall k :: |rem| < k < RATE - 1 ==> Pad(rem)[k] == 0
    ensures Pad(rem)[|rem|] == if |rem| == RATE - 1 then 0x81 else 0x01
    ensures |rem| < RATE - 1 ==> Pad(rem)[RATE - 1] == 0x80
  {
  }

  /** The last block: what is left of the input, and the padding. */
  method LastBlock(rem: seq<bv8>) returns (block: array<bv8>)
    requires |rem| < RATE
    ensures fresh(block) && block[..] == Pad(rem)
  {
    block := new bv8[RATE](i => 0);
    for i := 0 to |rem|
      invariant forall k :: 0 <= k < i ==> block[k] == rem[k]
      invariant forall k :: i <= k < RATE ==> block[k] == 0
    {
      block[i] := rem[i];
    }
    assert block[..] == rem + Zeros(RATE - |rem|);
    block[|rem|] := block[|rem|] ^ 0x01;
    block[RATE - 1] := block[RATE - 1] ^ 0x80;
    PadBytes(rem);
    assert forall k :: 0 <= k < |rem| ==> block[k] == rem[k];
  }

  lemma PadOfSuffix(message: seq<bv8>)
    requires |message| >= RATE
    ensures Pad(message)[..RATE] == message[..RATE] && Pad(message)[RATE..] == Pad(message[RATE..])
  {
    assert |message[RATE..]| % RATE == |message| % RATE;
  }

  /** Absorbing the first block first. */
  lemma AbsorbFirst(f: State -> State, a: State, message: seq<bv8>)
    requires |message| >= RATE
    ensures Absorb(f, a, Pad(message)) == Absorb(f, f(XorBlock(a, message[..RATE])), Pad(message[RATE..]))
  {
    PadOfSuffix(message);
  }

  lemma AbsorbLast(f: State -> State, a: State, rem: seq<bv8>)
    requires |rem| < RATE
    ensures |Pad(rem)| == RATE && Absorb(f, a, Pad(rem)) == f(XorBlock(a, Pad(rem)))
  {
    assert Pad(rem)[..RATE] == Pad(rem);
    assert Pad(rem)[RATE..] == [];
  }

  method AbsorbAndPermute(state: array<bv64>, block: seq<bv8>, ghost f: State -> State)
    requires state.Length == 25 && |block| == RATE && f == Permute
    modifies state
    ensures state[..] == f(XorBlock(old(state[..]), block))
  {
    AbsorbBlock(state, block);
    KeccakF1600(state);
  }

  method ReadOut(state: array<bv64>) returns (out: seq<bv8>)
    requires state.Length == 25
    ensures out == Squeeze(state[..])
  {
    out := [];
    for index := 0 to 32
      invariant |out| == index
      invariant forall k :: 0 <= k < index ==> out[k] == Squeeze(state[..])[k]
    {
      out := out + [ByteOfLane(state[index / 8], index % 8)];
    }
  }

  /** Hashing block by block is the sponge over the whole padded message. */
  method Keccak256(input: seq<bv8>) returns (out: seq<bv8>)
    ensures |out| == 32 && out == Keccak256Of(input)
    ensures BitsOf(out) == Keccak256String(BitsOf(input))
  {
    ghost var f := Permute;
    var state := new bv64[25](i => 0);
    assert state[..] == ZERO_STATE;
    var rest := input;
    while |rest| >= RATE
      invariant Absorb(f, state[..], Pad(rest)) == Absorb(f, ZERO_STATE, Pad(input))
    {
      AbsorbFirst(f, state[..], rest);
      AbsorbAndPermute(state, rest[..RATE], f);
      rest := rest[RATE..];
    }
    AbsorbLast(f, state[..], rest);
    var block := LastBlock(rest);
    AbsorbAndPermute(state, block[..], f);
    out := ReadOut(state);
    KeccakBits.HashOnBits(input);
  }
}
