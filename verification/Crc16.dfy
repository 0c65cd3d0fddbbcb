// The CRC that guards every block on the SD bus: CRC16 of section 4.5 of the SD
// Physical Layer Simplified Specification, generator x^16 + x^12 + x^5 + 1.
module Crc16 {
  type byte = bv8

  // The CRC register.  (Wrapped, so that the algebra below is about the register
  // and not its bits.)
  datatype Reg = Reg(v: bv16)

  const ZERO := Reg(0)

  function Xor16(a: bv16, b: bv16): bv16 {
    a ^ b
  }

  function Xor(a: Reg, b: Reg): Reg {
    Reg(Xor16(a.v, b.v))
  }

  // One turn of the loop in crc16_xmodem(): multiply by x, and reduce.
  function Shift16(r: bv16): bv16 {
    if r & 0x8000 != 0 then (r << 1) ^ 0x1021 else r << 1
  }

  function Shift(r: Reg): Reg {
    Reg(Shift16(r.v))
  }

  function Shifts(r: Reg, n: nat): Reg
    decreases n
  {
    if n == 0 then r else Shifts(Shift(r), n - 1)
  }

  function Low(b: byte): Reg {
    Reg(b as bv16)
  }

  function High(b: byte): Reg {
    Reg((b as bv16) << 8)
  }

  function ByteStep(crc: Reg, b: byte): Reg {
    Shifts(Xor(crc, High(b)), 8)
  }

  function Crc(crc: Reg, data: seq<byte>): Reg
    decreases |data|
  {
    if data == [] then crc else Crc(ByteStep(crc, data[0]), data[1..])
  }

  function HighByte(crc: Reg): byte {
    (crc.v >> 8) as byte
  }

  function LowByte(crc: Reg): byte {
    (crc.v & 0xff) as byte
  }

  // crc16_xmodem()
  method Update(crc: bv16, b: byte) returns (r: bv16)
    ensures Reg(r) == ByteStep(Reg(crc), b)
    // The remainder of the register with the byte added at its top, moved up by eight.
    ensures RegBits(Reg(r)) == Divided(Sum(RegBits(Reg(crc)), Bits(b) + Zeros(8)) + Zeros(8))
  {
    hide Xor16, Shift16, Divided, RegBits, Bits, Sum;
    ByteStepDivides(Reg(crc), b);
    r := Xor16(crc, (b as bv16) << 8);
    for i := 0 to 8
      invariant Shifts(Reg(r), 8 - i) == ByteStep(Reg(crc), b)
    {
      r := Shift16(r);
    }
  }

  // -- The reference: long division over GF(2) ---------------------------------

  // x^16 + x^12 + x^5 + 1, highest power first.
  const GENERATOR: seq<bool> := [true, false, false, false, true, false, false, false, false, false, false, true,
                                 false, false, false, false, true]

  function Sum(s: seq<bool>, t: seq<bool>): (r: seq<bool>)
    requires |s| == |t|
    ensures |r| == |s| && forall i | 0 <= i < |s| :: r[i] == (s[i] != t[i])
  {
    seq(|s|, i requires 0 <= i < |s| => s[i] != t[i])
  }

  // What is left of s once the generator goes into it no more: subtract it from
  // the top if it goes, and go on with the next place.
  function Divided(s: seq<bool>): seq<bool>
    decreases |s|
  {
    if |s| <= 16 then s
    else if s[0] then Divided((Sum(s[..17], GENERATOR) + s[17..])[1..])
    else Divided(s[1..])
  }

  // Bit i of the register, highest power first.
  predicate BitAt(v: bv16, i: nat) {
    if i == 0 then v & 0x8000 != 0 else if i == 1 then v & 0x4000 != 0 else if i == 2 then v & 0x2000 != 0
    else if i == 3 then v & 0x1000 != 0 else if i == 4 then v & 0x0800 != 0 else if i == 5 then v & 0x0400 != 0
    else if i == 6 then v & 0x0200 != 0 else if i == 7 then v & 0x0100 != 0 else if i == 8 then v & 0x0080 != 0
    else if i == 9 then v & 0x0040 != 0 else if i == 10 then v & 0x0020 != 0 else if i == 11 then v & 0x0010 != 0
    else if i == 12 then v & 0x0008 != 0 else if i == 13 then v & 0x0004 != 0 else if i == 14 then v & 0x0002 != 0
    else v & 0x0001 != 0
  }

  function RegBits(r: Reg): (s: seq<bool>)
    ensures |s| == 16 && forall i | 0 <= i < 16 :: s[i] == BitAt(r.v, i)
  {
    seq(16, i requires 0 <= i < 16 => BitAt(r.v, i))
  }

  // -- The same, a bit at a time in the register -------------------------------

  function Bit(bit: bool): Reg {
    Reg(if bit then 1 else 0)
  }

  // The next bit of the dividend comes down, and the divisor is subtracted if it goes.
  function Feed(r: Reg, bit: bool): Reg {
    Xor(Shift(r), Bit(bit))
  }

  function Remainder(r: Reg, dividend: seq<bool>): Reg
    decreases |dividend|
  {
    if dividend == [] then r else Remainder(Feed(r, dividend[0]), dividend[1..])
  }

  // Most significant first.
  function Bits(b: byte): (s: seq<bool>)
    ensures |s| == 8
  {
    [b & 0x80 != 0, b & 0x40 != 0, b & 0x20 != 0, b & 0x10 != 0,
     b & 0x08 != 0, b & 0x04 != 0, b & 0x02 != 0, b & 0x01 != 0]
  }

  function AllBits(data: seq<byte>): seq<bool> {
    if data == [] then [] else Bits(data[0]) + AllBits(data[1..])
  }

  function Zeros(n: nat): seq<bool> {
    if n == 0 then [] else [false] + Zeros(n - 1)
  }

  // -- Bit algebra -------------------------------------------------------------

  lemma XorAlgebra(a: Reg, b: Reg, c: Reg)
    ensures Xor(Xor(a, b), c) == Xor(a, Xor(b, c))
    ensures Xor(a, b) == Xor(b, a)
    ensures Xor(a, ZERO) == a
    ensures Xor(a, b) == ZERO <==> a == b
    ensures Xor(a, c) == Xor(b, c) <==> a == b
  {
    hide Xor16;
    XorAssociates(a.v, b.v, c.v);
    XorCommutes(a.v, b.v);
    XorIsZero(a.v, b.v);
    XorCancels(a.v, b.v, c.v);
  }

  lemma XorAssociates(a: bv16, b: bv16, c: bv16)
    ensures Xor16(Xor16(a, b), c) == Xor16(a, Xor16(b, c))
  {
  }

  lemma XorCommutes(a: bv16, b: bv16)
    ensures Xor16(a, b) == Xor16(b, a) && Xor16(a, 0) == a
  {
  }

  lemma XorSelf(a: bv16)
    ensures Xor16(a, a) == 0
  {
  }

  lemma XorCancels(a: bv16, b: bv16, c: bv16)
    ensures Xor16(a, c) == Xor16(b, c) <==> a == b
  {
    hide Xor16;
    XorAssociates(a, c, c);
    XorAssociates(b, c, c);
    XorSelf(c);
    XorCommutes(a, 0);
    XorCommutes(b, 0);
  }

  lemma XorIsZero(a: bv16, b: bv16)
    ensures Xor16(a, b) == 0 <==> a == b
  {
    hide Xor16;
    XorSelf(b);
    XorCancels(a, b, b);
  }

  lemma XorShifted(a: bv16, b: bv16)
    ensures (a ^ b) << 1 == (a << 1) ^ (b << 1)
    ensures (a ^ b) & 0x8000 == (a & 0x8000) ^ (b & 0x8000)
  {
  }

  lemma TopBit(a: bv16)
    ensures a & 0x8000 == 0 || a & 0x8000 == 0x8000
  {
  }

  lemma XorMoves(a: bv16, b: bv16, c: bv16)
    ensures (a ^ c) ^ b == (a ^ b) ^ c == a ^ (b ^ c)
    ensures (a ^ c) ^ (b ^ c) == a ^ b
    ensures a ^ c == b ^ c <==> a == b
  {
  }

  lemma Shift16IsLinear(a: bv16, b: bv16)
    ensures Shift16(Xor16(a, b)) == Xor16(Shift16(a), Shift16(b))
    ensures Shift16(0) == 0
  {
    XorShifted(a, b);
    TopBit(a);
    TopBit(b);
    XorMoves(a << 1, b << 1, 0x1021);
  }

  lemma ShiftIsLinear(a: Reg, b: Reg)
    ensures Shift(Xor(a, b)) == Xor(Shift(a), Shift(b))
    ensures Shift(ZERO) == ZERO
  {
    hide Xor16, Shift16;
    Shift16IsLinear(a.v, b.v);
  }

  lemma TopAndRest(a: bv16, b: bv16)
    ensures a << 1 == b << 1 && a & 0x8000 == b & 0x8000 ==> a == b
  {
  }

  // The generator is odd, so the low bit tells whether it was subtracted.
  lemma LowBit(a: bv16)
    ensures (a << 1) & 1 == 0 && ((a << 1) ^ 0x1021) & 1 == 1
  {
  }

  lemma Shift16IsInjective(a: bv16, b: bv16)
    ensures Shift16(a) == Shift16(b) ==> a == b
  {
    TopBit(a);
    TopBit(b);
    LowBit(a);
    LowBit(b);
    XorMoves(a << 1, b << 1, 0x1021);
    TopAndRest(a, b);
  }

  lemma ShiftIsInjective(a: Reg, b: Reg)
    ensures Shift(a) == Shift(b) <==> a == b
  {
    hide Shift16;
    Shift16IsInjective(a.v, b.v);
  }

  // A byte moves up eight places with nothing to subtract.
  lemma ByteShiftedUp(b: byte)
    ensures Shifts(Low(b), 8) == High(b)
  {
    var r := b as bv16;
    SmallShifts(b);
    OneShift(Reg(r), 8);
    OneShift(Reg(r << 1), 7);
    OneShift(Reg(r << 2), 6);
    OneShift(Reg(r << 3), 5);
    OneShift(Reg(r << 4), 4);
    OneShift(Reg(r << 5), 3);
    OneShift(Reg(r << 6), 2);
    OneShift(Reg(r << 7), 1);
  }

  lemma OneShift(r: Reg, n: nat)
    requires 0 < n
    ensures Shifts(r, n) == Shifts(Shift(r), n - 1)
  {
  }

  lemma SmallShifts(b: byte)
    ensures var r := b as bv16;
            && Shift(Reg(r)) == Reg(r << 1) && Shift(Reg(r << 1)) == Reg(r << 2)
            && Shift(Reg(r << 2)) == Reg(r << 3) && Shift(Reg(r << 3)) == Reg(r << 4)
            && Shift(Reg(r << 4)) == Reg(r << 5) && Shift(Reg(r << 5)) == Reg(r << 6)
            && Shift(Reg(r << 6)) == Reg(r << 7) && Shift(Reg(r << 7)) == Reg(r << 8)
  {
  }

  // The first eight remainders on dividing a byte are its leading bits.
  lemma BitsSeen(b: byte)
    ensures var w := b as bv16;
            && Feed(ZERO, b & 0x80 != 0) == Reg(w >> 7) && Feed(Reg(w >> 7), b & 0x40 != 0) == Reg(w >> 6)
            && Feed(Reg(w >> 6), b & 0x20 != 0) == Reg(w >> 5) && Feed(Reg(w >> 5), b & 0x10 != 0) == Reg(w >> 4)
  {
  }

  lemma MoreBitsSeen(b: byte)
    ensures var w := b as bv16;
            && Feed(Reg(w >> 4), b & 0x08 != 0) == Reg(w >> 3) && Feed(Reg(w >> 3), b & 0x04 != 0) == Reg(w >> 2)
            && Feed(Reg(w >> 2), b & 0x02 != 0) == Reg(w >> 1) && Feed(Reg(w >> 1), b & 0x01 != 0) == Reg(w)
  {
  }

  // -- Many shifts -------------------------------------------------------------

  lemma {:induction false} ShiftsAreLinear(a: Reg, b: Reg, n: nat)
    ensures Shifts(Xor(a, b), n) == Xor(Shifts(a, n), Shifts(b, n))
    decreases n
  {
    hide Shift, Xor;
    if n > 0 {
      ShiftIsLinear(a, b);
      ShiftsAreLinear(Shift(a), Shift(b), n - 1);
    }
  }

  lemma {:induction false} ShiftsAreInjective(a: Reg, b: Reg, n: nat)
    ensures Shifts(a, n) == Shifts(b, n) <==> a == b
    decreases n
  {
    hide Shift;
    if n > 0 {
      ShiftIsInjective(a, b);
      ShiftsAreInjective(Shift(a), Shift(b), n - 1);
    }
  }

  lemma {:induction false} ShiftsCompose(r: Reg, m: nat, n: nat)
    ensures Shifts(Shifts(r, m), n) == Shifts(r, m + n)
    decreases m
  {
    hide Shift;
    if m > 0 { ShiftsCompose(Shift(r), m - 1, n); }
  }

  lemma {:induction false} ZeroShifts(n: nat)
    ensures Shifts(ZERO, n) == ZERO
    decreases n
  {
    hide Shift;
    if n > 0 {
      ShiftIsLinear(ZERO, ZERO);
      ZeroShifts(n - 1);
    }
  }

  // -- The fast form computes the remainder ------------------------------------

  // Bits fed to r and bits fed to zero add up.
  lemma {:induction false} FeedIsAffine(r: Reg, bits: seq<bool>)
    ensures Remainder(r, bits) == Xor(Shifts(r, |bits|), Remainder(ZERO, bits))
    decreases |bits|
  {
    hide Shift, Xor, Bit;
    XorAlgebra(r, ZERO, ZERO);
    if bits != [] {
      var bit, n := Bit(bits[0]), |bits| - 1;
      FeedIsAffine(Feed(r, bits[0]), bits[1..]);
      FeedIsAffine(Feed(ZERO, bits[0]), bits[1..]);
      ShiftIsLinear(ZERO, ZERO);
      XorAlgebra(bit, ZERO, ZERO);
      ShiftsAreLinear(Shift(r), bit, n);
      XorAlgebra(Shifts(Shift(r), n), Shifts(bit, n), Remainder(ZERO, bits[1..]));
    }
  }

  lemma OneFeed(r: Reg, bits: seq<bool>)
    requires bits != []
    ensures Remainder(r, bits) == Remainder(Feed(r, bits[0]), bits[1..])
  {
  }

  // Eight bits divided on their own are their own remainder.
  lemma ByteRemainder(b: byte)
    ensures Remainder(ZERO, Bits(b)) == Low(b)
  {
    hide Shift, Xor, Feed;
    BitsSeen(b);
    MoreBitsSeen(b);
    var s, w := Bits(b), b as bv16;
    OneFeed(ZERO, s);
    OneFeed(Reg(w >> 7), s[1..]);
    OneFeed(Reg(w >> 6), s[2..]);
    OneFeed(Reg(w >> 5), s[3..]);
    OneFeed(Reg(w >> 4), s[4..]);
    OneFeed(Reg(w >> 3), s[5..]);
    OneFeed(Reg(w >> 2), s[6..]);
    OneFeed(Reg(w >> 1), s[7..]);
    assert s[1..][1..] == s[2..] && s[2..][1..] == s[3..] && s[3..][1..] == s[4..] && s[4..][1..] == s[5..];
    assert s[5..][1..] == s[6..] && s[6..][1..] == s[7..] && s[7..][1..] == [];
  }

  lemma {:induction false} RemainderOfConcat(r: Reg, s: seq<bool>, t: seq<bool>)
    ensures Remainder(r, s + t) == Remainder(Remainder(r, s), t)
    decreases |s|
  {
    hide Feed;
    if s == [] {
      assert s + t == t;
    } else {
      assert (s + t)[1..] == s[1..] + t;
      RemainderOfConcat(Feed(r, s[0]), s[1..], t);
    }
  }

  // Stepping the register that runs 16 places ahead of the division by a byte
  // keeps it 16 places ahead.
  lemma ByteStepIsAhead(r: Reg, b: byte)
    ensures ByteStep(Shifts(r, 16), b) == Shifts(Remainder(r, Bits(b)), 16)
  {
    hide Shift, Shifts, Xor, Low, High, Bits, Remainder;
    var r8 := Shifts(r, 8);
    FeedIsAffine(r, Bits(b));
    ByteRemainder(b);
    ByteShiftedUp(b);
    ShiftsCompose(r, 8, 8);
    ShiftsAreLinear(r8, Low(b), 8);
    ShiftsCompose(Xor(r8, Low(b)), 8, 8);
  }

  lemma {:induction false} CrcIsAhead(r: Reg, data: seq<byte>)
    ensures Crc(Shifts(r, 16), data) == Shifts(Remainder(r, AllBits(data)), 16)
    decreases |data|
  {
    hide Shift, Shifts, ByteStep, Bits;
    if data != [] {
      ByteStepIsAhead(r, data[0]);
      CrcIsAhead(Remainder(r, Bits(data[0])), data[1..]);
      RemainderOfConcat(r, Bits(data[0]), AllBits(data[1..]));
    }
  }

  lemma {:induction false} ZerosShift(r: Reg, n: nat)
    ensures Remainder(r, Zeros(n)) == Shifts(r, n)
    decreases n
  {
    hide Shift, Xor;
    if n > 0 {
      assert Zeros(n)[1..] == Zeros(n - 1);
      XorAlgebra(Shift(r), ZERO, ZERO);
      ZerosShift(Shift(r), n - 1);
    }
  }

  // -- The register divides ----------------------------------------------------

  lemma BitFed(v: bv16, b: bool, i: nat)
    requires i < 16
    ensures var w := Xor16(Shift16(v), if b then 1 else 0);
            BitAt(w, i) == (if i < 15 then BitAt(v, i + 1) != (i in {3, 10} && BitAt(v, 0)) else b != BitAt(v, 0))
  {
    if i == 0 {} else if i == 1 {} else if i == 2 {} else if i == 3 {}
    else if i == 4 {} else if i == 5 {} else if i == 6 {} else if i == 7 {}
    else if i == 8 {} else if i == 9 {} else if i == 10 {} else if i == 11 {}
    else if i == 12 {} else if i == 13 {} else if i == 14 {} else {}
  }

  // One place of the division is one bit fed to the register.
  lemma FeedDivides(r: Reg, b: bool)
    ensures var s := RegBits(r) + [b];
            RegBits(Feed(r, b)) == if s[0] then Sum(s, GENERATOR)[1..] else s[1..]
  {
    hide Xor16, Shift16, BitAt, RegBits;
    var s := RegBits(r) + [b];
    forall i | 0 <= i < 16
      ensures RegBits(Feed(r, b))[i] == (s[i + 1] != (s[0] && GENERATOR[i + 1])) {
      BitFed(r.v, b, i);
    }
  }

  lemma {:induction false} RegisterDivides(r: Reg, s: seq<bool>)
    ensures Divided(RegBits(r) + s) == RegBits(Remainder(r, s))
    decreases |s|
  {
    hide RegBits, Feed, Sum;
    if s == [] {
      assert RegBits(r) + s == RegBits(r);
    } else {
      var t := RegBits(r) + s;
      FeedDivides(r, s[0]);
      assert t[..17] == RegBits(r) + [s[0]] && t[17..] == s[1..] && t[1..] == t[..17][1..] + s[1..];
      var u := Sum(t[..17], GENERATOR);
      assert (u + s[1..])[1..] == u[1..] + s[1..];
      RegisterDivides(Feed(r, s[0]), s[1..]);
    }
  }

  lemma {:induction false} LeadingZeros(n: nat, s: seq<bool>)
    requires 16 <= |s|
    ensures Divided(Zeros(n) + s) == Divided(s)
    decreases n
  {
    if n == 0 {
      assert Zeros(n) + s == s;
    } else {
      assert (Zeros(n) + s)[0] == false && (Zeros(n) + s)[1..] == Zeros(n - 1) + s;
      LeadingZeros(n - 1, s);
    }
  }

  lemma {:induction false} ZerosLength(n: nat)
    ensures |Zeros(n)| == n && forall i | 0 <= i < n :: !Zeros(n)[i]
  {
    if n > 0 { ZerosLength(n - 1); }
  }

  lemma ZeroBits()
    ensures RegBits(ZERO) == Zeros(16)
  {
    ZerosLength(16);
    forall i | 0 <= i < 16 ensures !RegBits(ZERO)[i] {
      NoBit(i);
    }
  }

  lemma NoBit(i: nat)
    ensures !BitAt(0, i)
  {
  }

  // The byte-at-a-time form computes the remainder, on long division by the
  // generator, of the message followed by sixteen zero bits.
  lemma CrcIsTheRemainder(data: seq<byte>)
    ensures RegBits(Crc(ZERO, data)) == Divided(AllBits(data) + Zeros(16))
  {
    hide Shift, Shifts, Crc, Remainder, RegBits, Divided;
    var message := AllBits(data) + Zeros(16);
    ZeroShifts(16);
    CrcIsAhead(ZERO, data);
    RemainderOfConcat(ZERO, AllBits(data), Zeros(16));
    ZerosShift(Remainder(ZERO, AllBits(data)), 16);
    RegisterDivides(ZERO, message);
    ZeroBits();
    ZerosLength(16);
    LeadingZeros(16, message);
  }

  predicate ByteBit(b: byte, i: nat) {
    if i == 0 then b & 0x80 != 0 else if i == 1 then b & 0x40 != 0 else if i == 2 then b & 0x20 != 0
    else if i == 3 then b & 0x10 != 0 else if i == 4 then b & 0x08 != 0 else if i == 5 then b & 0x04 != 0
    else if i == 6 then b & 0x02 != 0 else b & 0x01 != 0
  }

  lemma BitOfByte(b: byte, i: nat)
    requires i < 8
    ensures Bits(b)[i] == ByteBit(b, i)
  {
  }

  lemma BitOfSum(v: bv16, w: bv16, i: nat)
    requires i < 16
    ensures BitAt(Xor16(v, w), i) == (BitAt(v, i) != BitAt(w, i))
  {
    if i == 0 {} else if i == 1 {} else if i == 2 {} else if i == 3 {}
    else if i == 4 {} else if i == 5 {} else if i == 6 {} else if i == 7 {}
    else if i == 8 {} else if i == 9 {} else if i == 10 {} else if i == 11 {}
    else if i == 12 {} else if i == 13 {} else if i == 14 {} else {}
  }

  lemma BitOfHigh(b: byte, i: nat)
    requires i < 16
    ensures BitAt(High(b).v, i) == (i < 8 && ByteBit(b, i))
  {
    if i == 0 {} else if i == 1 {} else if i == 2 {} else if i == 3 {}
    else if i == 4 {} else if i == 5 {} else if i == 6 {} else if i == 7 {}
    else if i == 8 {} else if i == 9 {} else if i == 10 {} else if i == 11 {}
    else if i == 12 {} else if i == 13 {} else if i == 14 {} else {}
  }

  lemma AddedAtTheTop(crc: Reg, b: byte)
    requires |Bits(b) + Zeros(8)| == 16
    ensures RegBits(Xor(crc, High(b))) == Sum(RegBits(crc), Bits(b) + Zeros(8))
  {
    hide Xor16, High, BitAt, RegBits, Bits, ByteBit;
    ZerosLength(8);
    forall i | 0 <= i < 16
      ensures RegBits(Xor(crc, High(b)))[i] == (RegBits(crc)[i] != (Bits(b) + Zeros(8))[i]) {
      BitOfSum(crc.v, High(b).v, i);
      BitOfHigh(b, i);
      if i < 8 { BitOfByte(b, i); }
    }
  }

  lemma ByteStepDivides(crc: Reg, b: byte)
    ensures |Bits(b) + Zeros(8)| == 16
    ensures RegBits(ByteStep(crc, b)) == Divided(Sum(RegBits(crc), Bits(b) + Zeros(8)) + Zeros(8))
  {
    hide Shift, Shifts, Xor, High, Bits, Remainder, RegBits, Divided, Sum;
    ZerosLength(8);
    AddedAtTheTop(crc, b);
    var r := Xor(crc, High(b));
    RegisterDivides(r, Zeros(8));
    ZerosShift(r, 8);
  }

  // -- What a receiver can tell ------------------------------------------------

  function Pair(a: byte, b: byte): Reg {
    Xor(High(a), Low(b))
  }

  lemma PairIsInjective(a: byte, b: byte, c: byte, d: byte)
    ensures Pair(a, b) == Pair(c, d) <==> a == c && b == d
  {
    PairBits(a, b, c, d);
  }

  lemma PairBits(a: byte, b: byte, c: byte, d: byte)
    ensures ((a as bv16) << 8) ^ (b as bv16) == ((c as bv16) << 8) ^ (d as bv16) <==> a == c && b == d
  {
  }

  lemma PairOfCrc(crc: Reg)
    ensures Pair(HighByte(crc), LowByte(crc)) == crc
  {
  }

  lemma TwoByteStep(crc: Reg, a: byte, b: byte)
    ensures ByteStep(ByteStep(crc, a), b) == Shifts(Xor(crc, Pair(a, b)), 16)
  {
    hide Shift, Shifts, Xor, Low, High;
    var c := Xor(crc, High(a));
    ByteShiftedUp(b);
    ShiftsAreLinear(c, Low(b), 8);
    ShiftsCompose(Xor(c, Low(b)), 8, 8);
    XorAlgebra(crc, High(a), Low(b));
  }

  lemma {:induction false} CrcOfConcat(crc: Reg, s: seq<byte>, t: seq<byte>)
    ensures Crc(crc, s + t) == Crc(Crc(crc, s), t)
    decreases |s|
  {
    hide ByteStep;
    if s == [] {
      assert s + t == t;
    } else {
      assert (s + t)[1..] == s[1..] + t;
      CrcOfConcat(ByteStep(crc, s[0]), s[1..], t);
    }
  }

  lemma CrcOfTwo(crc: Reg, a: byte, b: byte)
    ensures Crc(crc, [a, b]) == Shifts(Xor(crc, Pair(a, b)), 16)
  {
    hide ByteStep, Shifts, Xor, Pair;
    TwoByteStep(crc, a, b);
    assert [a, b][1..] == [b] && [b][1..] == [];
    assert Crc(crc, [a, b]) == Crc(ByteStep(crc, a), [b]) == Crc(ByteStep(ByteStep(crc, a), b), []);
  }

  // A frame checks to zero exactly when its last two bytes are the CRC of the
  // rest, high byte first.
  lemma ResidueIsZeroExactlyForTheCrc(data: seq<byte>, high: byte, low: byte)
    ensures Crc(ZERO, data + [high, low]) == ZERO
            <==> high == HighByte(Crc(ZERO, data)) && low == LowByte(Crc(ZERO, data))
  {
    hide Shifts, Xor, Crc, Pair, HighByte, LowByte;
    var crc := Crc(ZERO, data);
    CrcOfConcat(ZERO, data, [high, low]);
    CrcOfTwo(crc, high, low);
    ZeroShifts(16);
    ShiftsAreInjective(Xor(crc, Pair(high, low)), ZERO, 16);
    XorAlgebra(crc, Pair(high, low), ZERO);
    PairOfCrc(crc);
    PairIsInjective(high, low, HighByte(crc), LowByte(crc));
  }

  lemma {:induction false} CrcIsInjectiveInItsStart(a: Reg, b: Reg, data: seq<byte>)
    ensures Crc(a, data) == Crc(b, data) <==> a == b
    decreases |data|
  {
    hide Shifts, Xor, High;
    if data != [] {
      var w := High(data[0]);
      ShiftsAreInjective(Xor(a, w), Xor(b, w), 8);
      XorAlgebra(a, b, w);
      CrcIsInjectiveInItsStart(ByteStep(a, data[0]), ByteStep(b, data[0]), data[1..]);
    }
  }

  // Any damage confined to two adjacent bytes, wherever they fall, changes the
  // CRC; damage that changes nothing does not.
  lemma AdjacentDamageIsDetected(before: seq<byte>, a: byte, b: byte, c: byte, d: byte, after: seq<byte>)
    ensures Crc(ZERO, before + [a, b] + after) == Crc(ZERO, before + [c, d] + after) <==> a == c && b == d
  {
    hide Shifts, Xor, Crc, Pair;
    var crc := Crc(ZERO, before);
    CrcOfConcat(ZERO, before + [a, b], after);
    CrcOfConcat(ZERO, before + [c, d], after);
    CrcOfConcat(ZERO, before, [a, b]);
    CrcOfConcat(ZERO, before, [c, d]);
    CrcOfTwo(crc, a, b);
    CrcOfTwo(crc, c, d);
    CrcIsInjectiveInItsStart(Crc(crc, [a, b]), Crc(crc, [c, d]), after);
    ShiftsAreInjective(Xor(crc, Pair(a, b)), Xor(crc, Pair(c, d)), 16);
    XorAlgebra(Pair(a, b), Pair(c, d), crc);
    XorAlgebra(crc, Pair(a, b), ZERO);
    XorAlgebra(crc, Pair(c, d), ZERO);
    PairIsInjective(a, b, c, d);
  }
}
