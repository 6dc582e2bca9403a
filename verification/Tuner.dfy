/** Register fields of the tuner chip, and setting and reading back its frequency
    (src/libtunner/chip.c:973-1037, 1135-1192, src/libtunner/STV6110_Tuner.c:22-66, 196-303). */
module Tuner {
  import opened Arithmetic
  import opened Bits

  // ---- Fields ------------------------------------------------------------------------------

  /** An unsigned field: its register and the bits it covers there. */
  datatype Field = Field(reg: nat, mask: bv8)

  /** Place of the lowest bit of a mask; 7 for an empty one. */
  function Pos(mask: bv8): (r: bv8)
    ensures r < 8 && (mask != 0 ==> Lowest(mask, r))
  {
    if mask & 1 != 0 then 0 else if mask & 2 != 0 then 1 else if mask & 4 != 0 then 2 else if mask & 8 != 0 then 3
    else if mask & 16 != 0 then 4 else if mask & 32 != 0 then 5 else if mask & 64 != 0 then 6 else 7
  }

  method ChipGetFieldPosition(mask: bv8) returns (r: bv8)
    ensures r == Pos(mask)
  {
    var position: bv8, i: bv8 := 0, 0;
    while position == 0 && i < 8
      invariant i <= 8
      invariant if position == 0 then mask & ((1 << i) - 1) == 0 else i > 0 && Lowest(mask, i - 1)
      decreases 8 - i as int
    {
      NextBit(mask, i);
      position := (mask >> i) & 1;
      i := i + 1;
    }
    if position != 0 {
      LowestUnique(mask, i - 1, Pos(mask));
    }
    return i - 1;
  }

  /** The register with a value put into a field. */
  function WithField(reg: bv8, mask: bv8, value: bv8): bv8 {
    (reg & !mask) + (mask & Placed(mask, value))
  }

  /** A value moved to the place of a field. */
  function Placed(mask: bv8, value: bv8): bv8 {
    value << Pos(mask)
  }

  function FieldOf(reg: bv8, mask: bv8): bv8 {
    (reg & mask) >> Pos(mask)
  }

  /** A value put into a field is read back from it, without the bits the field has not got. */
  lemma SetThenGet(reg: bv8, mask: bv8, value: bv8)
    ensures FieldOf(WithField(reg, mask, value), mask) == value & (mask >> Pos(mask))
  {
    hide Pos;
    PutAndTake(reg, mask, Placed(mask, value));
    ShiftBack(mask, value, Pos(mask));
  }

  lemma SameBits(a: bv8, b: bv8, mask: bv8)
    requires a & mask == b & mask
    ensures FieldOf(a, mask) == FieldOf(b, mask)
  {
  }

  /** Bits outside the field stay as they are. */
  lemma SetKeepsOthers(reg: bv8, mask: bv8, value: bv8, other: bv8)
    requires mask & other == 0
    ensures WithField(reg, mask, value) & other == reg & other
    ensures FieldOf(WithField(reg, mask, value), other) == FieldOf(reg, other)
  {
    hide FieldOf, Pos, Placed;
    KeepsOutside(reg, mask, Placed(mask, value), other);
    SameBits(WithField(reg, mask, value), reg, other);
  }

  // ---- The divider ---------------------------------------------------------------------------

  const K := Field(0, 0xf8)
  const NDIV_LSB := Field(2, 0xff)
  const RDIV := Field(3, 0xc0)
  const PRESC32ON := Field(3, 0x20)
  const DIV4SEL := Field(3, 0x10)
  const NDIV_MSB := Field(3, 0x0f)
  const CALVCOSTRT := Field(5, 0x04)
  const REFERENCE := 16_000_000

  /** Band switch and prescaler for a frequency in kHz. */
  function Div4(frequency: nat): nat {
    if frequency <= 1_300_000 then 1 else 0
  }

  function Presc(frequency: nat): (p: nat)
    ensures p <= 1
  {
    if frequency <= 1_023_000 then 0 else if frequency <= 1_300_000 then 1 else if frequency <= 2_046_000 then 0 else 1
  }

  /** Comparison frequency for a reference divider, in 100 kHz, and how far it is from the one wanted. */
  function Miss(p: nat, rDiv: nat): nat {
    Abs(Comparison(rDiv) - Pow2(p + 1) * 10)
  }

  function Comparison(rDiv: nat): int {
    160 / Pow2(rDiv + 1)
  }

  method PCalc(rDiv: nat) returns (pCalc: int)
    requires rDiv <= 3
    ensures 0 <= pCalc == Comparison(rDiv) <= 80
  {
    var r := PowOf2(rDiv + 1);
    PowersToFour();
    pCalc := REFERENCE / 100_000 / r;
  }

  lemma PowersToFour()
    ensures Pow2(1) == 2 && Pow2(2) == 4 && Pow2(3) == 8 && Pow2(4) == 16
  {
  }

  /** The reference divider that comes closest to the comparison frequency of the band. */
  method ClosestDivider(p: nat) returns (rDivOpt: nat)
    requires p <= 1
    ensures rDivOpt <= 3 && forall k :: 0 <= k <= 3 ==> Miss(p, rDivOpt) <= Miss(p, k)
    ensures rDivOpt == 2 - p
  {
    hide Pow2, Comparison, Miss, Abs;
    rDivOpt := 0;
    var pCalcOpt: int := 1000;
    var two := PowOf2(p + 1);
    var pVal := two * 10;
    SmallPower(p);
    for rDiv := 0 to 4
      invariant rDiv == 0 ==> pCalcOpt == 1000 && rDivOpt == 0
      invariant rDiv > 0 ==> rDivOpt < rDiv && pCalcOpt == Comparison(rDivOpt)
      invariant forall k :: 0 <= k < rDiv ==> Miss(p, rDivOpt) <= Miss(p, k)
    {
      var pCalc := PCalc(rDiv);
      MissIs(p, rDiv, pVal);
      MissIs(p, rDivOpt, pVal);
      FirstCloser(pCalc, pVal);
      if Abs(pCalc - pVal) < Abs(pCalcOpt - pVal) {
        rDivOpt := rDiv;
      }
      pCalcOpt := PCalc(rDivOpt);
    }
    BestIs(p, rDivOpt);
  }

  lemma SmallPower(p: nat)
    requires p <= 1
    ensures Pow2(p + 1) * 10 <= 40
  {
    PowersToFour();
  }

  lemma MissIs(p: nat, rDiv: nat, pVal: nat)
    requires pVal == Pow2(p + 1) * 10
    ensures Miss(p, rDiv) == Abs(Comparison(rDiv) - pVal)
  {
  }

  lemma FirstCloser(pCalc: int, pVal: nat)
    requires 0 <= pCalc <= 80 && pVal <= 40
    ensures Abs(pCalc - pVal) < Abs(1000 - pVal)
  {
  }

  lemma BestIs(p: nat, r: nat)
    requires p <= 1 && r <= 3 && Miss(p, r) <= Miss(p, 2 - p)
    ensures r == 2 - p
  {
    hide Miss;
    MissValues();
  }

  lemma MissValues()
    ensures Miss(1, 0) == 40 && Miss(1, 1) == 0 && Miss(1, 2) == 20 && Miss(1, 3) == 30
    ensures Miss(0, 0) == 60 && Miss(0, 1) == 20 && Miss(0, 2) == 0 && Miss(0, 3) == 10
  {
    PowersToFour();
  }

  // ---- Setting and reading the frequency --------------------------------------------------------

  /** The feedback divider, rounded, for a frequency in kHz; products are in 32 bits. */
  function Divider(frequency: nat): nat {
    (frequency * 160 % WORD / 16_000 + 5) / 10
  }

  /** The lowest eight bits of a number. */
  function AsByte(n: nat): bv8 {
    ByteOf(n % 256)
  }

  /** What the fields say once a frequency is set. */
  predicate Tuned(regs: seq<bv8>, frequency: nat) {
    && |regs| == 8
    && FieldOf(regs[3], 0x10) as int == Div4(frequency)
    && FieldOf(regs[3], 0x20) as int == Presc(frequency)
    && FieldOf(regs[3], 0xc0) as int == 2 - Div4(frequency)
    && FieldOf(regs[3], 0x0f) as int == Divider(frequency) / 256 % 16
    && FieldOf(regs[2], 0xff) as int == Divider(frequency) % 256
  }

  /** Only the bits of the fields that are set may differ. */
  predicate OthersKept(before: seq<bv8>, after: seq<bv8>) {
    && |before| == |after| == 8
    && before[1] == after[1] && before[4] == after[4] && before[6] == after[6] && before[7] == after[7]
    && before[0] & 0x07 == after[0] & 0x07 && before[5] & 0xfb == after[5] & 0xfb
  }

  class TunerChip {
    const regs: array<bv8>

    constructor ()
      ensures fresh(regs) && regs.Length == 8
    {
      regs := new bv8[8](_ => 0);
    }

    method ChipSetField(f: Field, value: bv8)
      requires regs.Length == 8 && f.reg < 8
      modifies regs
      ensures regs[..] == old(regs[..])[f.reg := WithField(old(regs[f.reg]), f.mask, value)]
    {
      var regValue := regs[f.reg];
      var pos := ChipGetFieldPosition(f.mask);
      regs[f.reg] := (regValue & !f.mask) + (f.mask & (value << pos));
    }

    method ChipGetField(f: Field) returns (value: bv8)
      requires regs.Length == 8 && f.reg < 8
      ensures value == FieldOf(regs[f.reg], f.mask)
    {
      var pos := ChipGetFieldPosition(f.mask);
      value := (regs[f.reg] & f.mask) >> pos;
    }

    method SetFrequency(frequency: nat)
      requires regs.Length == 8 && frequency < WORD
      modifies regs
      ensures Tuned(regs[..], frequency) && OthersKept(old(regs[..]), regs[..])
      ensures regs[0] & 0xf8 == 0 && regs[5] & 0x04 == 0x04
      ensures 650_000 < frequency <= 2_600_000 ==> OscillatorSet(regs[3], frequency)
    {
      hide WithField, FieldOf, Divider, Pow2, AsByte, Pos, Presc, OscillatorSet;
      ghost var before := regs[..];
      ChipSetField(K, 0);
      var p := Div4(frequency);
      ChipSetField(DIV4SEL, AsByte(p));
      ChipSetField(PRESC32ON, AsByte(Presc(frequency)));
      var rDivOpt := ClosestDivider(p);
      var divider := CalcDivider(frequency, p, rDivOpt);
      ChipSetField(RDIV, AsByte(rDivOpt));
      ChipSetField(NDIV_MSB, AsByte(divider / 256));
      ChipSetField(NDIV_LSB, AsByte(divider));
      ChipSetField(CALVCOSTRT, 1);
      Register3(before[3], p, Presc(frequency), rDivOpt, divider / 256);
      Register2(before[2], divider);
      SetKeepsOthers(before[0], 0xf8, 0, 0x07);
      SetKeepsOthers(before[5], 0x04, 1, 0xfb);
      Started(before[0], before[5]);
      OscillatorFor(regs[..], frequency);
    }

    method GetFrequency(tunerReference: nat) returns (frequency: nat)
      requires regs.Length == 8 && tunerReference < WORD
      ensures frequency == FrequencyOf(regs[..], tunerReference)
    {
      hide FieldOf, Pow2;
      var msb := ChipGetField(NDIV_MSB);
      var lsb := ChipGetField(NDIV_LSB);
      var divider := (msb as int) * 256 + lsb as int;
      var nbsteps := ChipGetField(RDIV);
      var psd2 := ChipGetField(DIV4SEL);
      var parts := PowOf2(nbsteps as int + psd2 as int);
      frequency := divider * (tunerReference / 1000) % WORD / parts / 4;
    }
  }

  /** The frequency that a state of the registers stands for. */
  function FrequencyOf(regs: seq<bv8>, tunerReference: nat): nat
    requires |regs| == 8
  {
    var divider: nat := (FieldOf(regs[3], 0x0f) as int) * 256 + FieldOf(regs[2], 0xff) as int;
    var parts := Pow2(FieldOf(regs[3], 0xc0) as int + FieldOf(regs[3], 0x10) as int);
    divider * (tunerReference / 1000) % WORD / parts / 4
  }

  method CalcDivider(frequency: nat, p: nat, rDivOpt: nat) returns (divider: nat)
    requires p <= 1 && rDivOpt == 2 - p
    ensures divider == Divider(frequency)
  {
    var r := PowOf2(rDivOpt + 1);
    var two := PowOf2(p + 1);
    PowersToFour();
    assert r * two * 10 == 160;
    assert frequency * r * two * 10 == frequency * 160;
    divider := (frequency * r * two * 10 % WORD / (REFERENCE / 1000) + 5) / 10;
  }

  /** A field that nothing sets later keeps what was put into it. */
  lemma PutThenOther(reg: bv8, mask: bv8, value: bv8, mask': bv8, value': bv8)
    requires mask & mask' == 0
    ensures FieldOf(WithField(WithField(reg, mask, value), mask', value'), mask) ==
      FieldOf(WithField(reg, mask, value), mask)
  {
    SetKeepsOthers(WithField(reg, mask, value), mask', value', mask);
  }

  lemma SmallFields()
    ensures Pos(0x10) == 4 && Pos(0x20) == 5 && Pos(0xc0) == 6 && Pos(0x0f) == 0 && Pos(0xff) == 0
  {
  }

  /** The four fields of the third tuning register, put one after the other. */
  lemma Register3(reg: bv8, p: nat, presc: nat, rDiv: nat, high: nat)
    requires p <= 1 && presc <= 1 && rDiv <= 3
    ensures var s := WithField(WithField(reg, 0x10, AsByte(p)), 0x20, AsByte(presc));
      var r := WithField(WithField(s, 0xc0, AsByte(rDiv)), 0x0f, AsByte(high));
      && FieldOf(r, 0x10) as int == p && FieldOf(r, 0x20) as int == presc && FieldOf(r, 0xc0) as int == rDiv
      && FieldOf(r, 0x0f) as int == high % 16
  {
    hide WithField, FieldOf, AsByte;
    var r1 := WithField(reg, 0x10, AsByte(p));
    var r2 := WithField(r1, 0x20, AsByte(presc));
    var r3 := WithField(r2, 0xc0, AsByte(rDiv));
    PutThenOther(reg, 0x10, AsByte(p), 0x20, AsByte(presc));
    SetKeepsOthers(r2, 0xc0, AsByte(rDiv), 0x10);
    SetKeepsOthers(r3, 0x0f, AsByte(high), 0x10);
    SetKeepsOthers(r2, 0xc0, AsByte(rDiv), 0x20);
    SetKeepsOthers(r3, 0x0f, AsByte(high), 0x20);
    SetKeepsOthers(r3, 0x0f, AsByte(high), 0xc0);
    SetThenGet(reg, 0x10, AsByte(p));
    SetThenGet(r1, 0x20, AsByte(presc));
    SetThenGet(r2, 0xc0, AsByte(rDiv));
    SetThenGet(r3, 0x0f, AsByte(high));
    SmallFields();
    LowBits(p, presc, rDiv, high);
  }

  lemma LowBits(p: nat, presc: nat, rDiv: nat, high: nat)
    requires p <= 1 && presc <= 1 && rDiv <= 3
    ensures (AsByte(p) & (0x10 >> 4)) as int == p && (AsByte(presc) & (0x20 >> 5)) as int == presc
    ensures (AsByte(rDiv) & (0xc0 >> 6)) as int == rDiv && (AsByte(high) & (0x0f >> 0)) as int == high % 16
  {
    hide AsByte;
    LowBit(p);
    LowBit(presc);
    LowPair(rDiv);
    LowNibble(high);
  }

  lemma LowBit(n: nat)
    requires n <= 1
    ensures (AsByte(n) & 1) as int == n
  {
    assert ByteOf(0) == 0 && ByteOf(1) == 1;
  }

  lemma LowPair(n: nat)
    requires n <= 3
    ensures (AsByte(n) & 3) as int == n
  {
    assert ByteOf(0) == 0 && ByteOf(1) == 1 && ByteOf(2) == 2 && ByteOf(3) == 3;
  }

  lemma LowNibble(n: nat)
    ensures (AsByte(n) & 0x0f) as int == n % 16
  {
    hide ByteOf;
    ByteOfInt(n % 256);
    NibbleOfByte(AsByte(n));
    NibbleOfNumber(n);
  }

  /** The divider field K is cleared and the calibration of the oscillator started. */
  lemma Started(reg0: bv8, reg5: bv8)
    ensures WithField(reg0, 0xf8, 0) & 0xf8 == 0 && WithField(reg5, 0x04, 1) & 0x04 == 0x04
  {
    hide Pos;
    assert Pos(0x04) == 2 by { PosOf4(); }
    assert Placed(0xf8, 0) == 0 by { ZeroPlaced(Pos(0xf8)); }
    PutAndTake(reg0, 0xf8, 0);
    PutAndTake(reg5, 0x04, 1 << 2);
  }

  lemma PosOf4()
    ensures Pos(0x04) == 2
  {
  }

  lemma ZeroPlaced(n: bv8)
    requires n < 8
    ensures (0 as bv8) << n == 0
  {
  }

  lemma NibbleOfNumber(n: nat)
    ensures n % 256 % 16 == n % 16
  {
  }

  lemma Register2(reg: bv8, divider: nat)
    ensures FieldOf(WithField(reg, 0xff, AsByte(divider)), 0xff) as int == divider % 256
  {
    hide WithField, FieldOf, AsByte;
    SetThenGet(reg, 0xff, AsByte(divider));
    WholeByte(AsByte(divider));
    ByteAsInt(divider);
  }

  lemma ByteAsInt(n: nat)
    ensures AsByte(n) as int == n % 256
  {
    ByteOfInt(n % 256);
  }

  lemma WholeByte(b: bv8)
    ensures b & (0xff >> Pos(0xff)) == b
  {
  }

  /** Reading back what was set is within 500 kHz exactly up to 4095499 kHz, that is, as
      long as the divider fits its twelve bits. */
  lemma ReadBackClose(regs: seq<bv8>, frequency: nat)
    requires Tuned(regs, frequency) && frequency < WORD
    ensures Abs(FrequencyOf(regs, REFERENCE) - frequency) <= 500 <==> frequency <= 4_095_499
    ensures frequency <= 4_095_499 <==> frequency * 160 < WORD && Divider(frequency) < 4096
  {
    hide Tuned;
    FrequencyIs(regs, frequency, REFERENCE);
    ReferenceFits(Divider(frequency));
    DividerClose(frequency);
  }

  /** Whatever reference is used to read, what is read is the divider in its twelve bits times a
      sixteenth of the reference. */
  lemma FrequencyIs(regs: seq<bv8>, frequency: nat, tunerReference: nat)
    requires Tuned(regs, frequency)
    ensures FrequencyOf(regs, tunerReference) == Divider(frequency) % 4096 * (tunerReference / 1000) % WORD / 4 / 4
  {
    hide FieldOf, Divider, Pow2, Div4, Presc;
    PowersToFour();
    var d := Divider(frequency);
    TwelveBits(d);
  }

  lemma ReferenceFits(d: nat)
    ensures d % 4096 * (REFERENCE / 1000) % WORD / 4 / 4 == d % 4096 * 16_000 / 4 / 4
  {
    assert d % 4096 * 16_000 < WORD;
  }

  lemma TwelveBits(d: nat)
    ensures d / 256 % 16 * 256 + d % 256 == d % 4096
  {
  }

  lemma DividerClose(frequency: nat)
    ensures Abs(Divider(frequency) % 4096 * 16_000 / 4 / 4 - frequency) <= 500 <==> frequency <= 4_095_499
    ensures frequency <= 4_095_499 <==> frequency * 160 < WORD && Divider(frequency) < 4096
  {
    var d := Divider(frequency);
    assert d % 4096 * 16_000 / 4 / 4 == d % 4096 * 1000;
    if frequency * 160 < WORD {
      assert frequency * 160 / 16_000 == frequency / 100;
    }
  }

  // ---- What the fields mean --------------------------------------------------------------------

  /** A field of one bit. */
  lemma OneBit(reg: bv8)
    ensures FieldOf(reg, 0x10) as int == if reg & 0x10 != 0 then 1 else 0
    ensures FieldOf(reg, 0x20) as int == if reg & 0x20 != 0 then 1 else 0
  {
    hide Pos;
    SmallFields();
    BitDown(reg);
  }

  lemma BitDown(reg: bv8)
    ensures (reg & 0x10) >> 4 == if reg & 0x10 != 0 then 1 else 0
    ensures (reg & 0x20) >> 5 == if reg & 0x20 != 0 then 1 else 0
  {
  }

  /** The oscillator, at four or two times the frequency, is in its range, and the prescaler is on
      exactly above 4092 MHz. */
  predicate OscillatorSet(reg3: bv8, frequency: nat) {
    var vco := frequency * if reg3 & 0x10 != 0 then 4 else 2;
    2_600_000 < vco <= 5_200_000 && (reg3 & 0x20 != 0 <==> vco > 4_092_000)
  }

  /** So it is for every frequency of the satellite band; and the two dividers together make steps
      of 1 MHz out of the reference of 16 MHz. */
  lemma OscillatorInRange(regs: seq<bv8>, frequency: nat)
    requires Tuned(regs, frequency) && 650_000 < frequency <= 2_600_000
    ensures OscillatorSet(regs[3], frequency)
    ensures var band := if regs[3] & 0x10 != 0 then 4 else 2;
      band * Pow2(FieldOf(regs[3], 0xc0) as int + 1) * 1_000_000 == 16_000_000
  {
    hide FieldOf, Divider, Pow2;
    OneBit(regs[3]);
    PowersToFour();
  }

  lemma OscillatorFor(regs: seq<bv8>, frequency: nat)
    ensures Tuned(regs, frequency) && 650_000 < frequency <= 2_600_000 ==> OscillatorSet(regs[3], frequency)
  {
    if Tuned(regs, frequency) && 650_000 < frequency <= 2_600_000 {
      OscillatorInRange(regs, frequency);
    }
  }

  /** The divider is the frequency in MHz, rounded. */
  lemma DividerIs(frequency: nat)
    requires frequency * 160 < WORD
    ensures Divider(frequency) == (frequency + 500) / 1000
  {
    assert frequency * 160 / 16_000 == frequency / 100;
    RoundedTenths(frequency);
  }

  lemma RoundedTenths(n: nat)
    ensures (n / 100 + 5) / 10 == (n + 500) / 1000
  {
    var q, r := n / 1000, n % 1000;
    assert n == 1000 * q + r;
    assert n / 100 == 10 * q + r / 100;
  }
}
