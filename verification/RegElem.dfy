/** Mixer fields inside 16-bit codec registers, from alsa/i2c/uda1380.c: how a
    control's value is stored in its register and read back. */
module RegElem {
  import opened Arith
  import opened Bits

  const WORD: nat := 0x1_0000

  /** A mixer control; each channel has `bits` bits, so the source's channel mask is 2^bits - 1. */
  datatype Control = Control(stereo: bool, inv: bool, rot: bool, reg: nat, shift: nat, bits: nat)

  function ChannelMask(c: Control): nat {
    Pow2(c.bits) - 1
  }

  /** The mask of both channels, as the source's tables give it. */
  function FullMask(c: Control): nat {
    if c.stereo then ChannelMask(c) * 256 + ChannelMask(c) else ChannelMask(c)
  }

  function FieldMask(c: Control): nat {
    Shl(FullMask(c), c.shift)
  }

  /** Channels have bits and lie apart, and the field stays in the register. */
  predicate WellFormed(c: Control) {
    1 <= c.bits <= 16 && (c.stereo ==> c.bits <= 8) && FieldMask(c) < WORD
  }

  function RotRange(val: nat, mask: nat): nat {
    And(val + (mask + 1) / 2, mask)
  }

  function InvRange(val: nat, mask: nat): nat {
    AndNot(mask, val)
  }

  /** One channel as stored, from the value the user sees; and, by the same two
      steps, the value the user sees from the channel as stored. */
  function Encode(c: Control, v: nat): nat {
    var r := if c.rot then RotRange(v, ChannelMask(c)) else v;
    if c.inv then InvRange(r, ChannelMask(c)) else r
  }

  function Pack(c: Control, left: nat, right: nat): nat {
    if c.stereo then Or(Shl(Encode(c, left), 8), Encode(c, right)) else Encode(c, left)
  }

  /** `snd_uda1380_actl_reg_elem_int_put` on the register. */
  function PutReg(c: Control, word: nat, left: nat, right: nat): nat {
    WriteMask(word, Shl(Pack(c, left, right), c.shift), FieldMask(c))
  }

  /** `snd_uda1380_actl_reg_elem_int_get` on the register; a mono control has one value. */
  function GetReg(c: Control, word: nat): (nat, nat) {
    var val := And(Shr(word, c.shift), FullMask(c));
    if c.stereo then (Encode(c, Shr(val, 8)), Encode(c, And(val, 0xff))) else (Encode(c, val), 0)
  }

  lemma RotIsMod(v: nat, k: nat)
    requires k >= 1 && v < Pow2(k)
    ensures RotRange(v, Pow2(k) - 1) == if v < Pow2(k - 1) then v + Pow2(k - 1) else v - Pow2(k - 1)
  {
    var h := Pow2(k - 1);
    AndOnes(v + h, k);
    if v < h {
      ModUnique(v + h, 2 * h, 0, v + h);
    } else {
      ModUnique(v + h, 2 * h, 1, v - h);
    }
  }

  /** The two steps undo themselves in all four combinations. */
  lemma EncodeTwice(c: Control, v: nat)
    requires c.bits >= 1 && v <= ChannelMask(c)
    ensures Encode(c, v) <= ChannelMask(c) && Encode(c, Encode(c, v)) == v
  {
    var k := c.bits;
    var r := if c.rot then RotRange(v, ChannelMask(c)) else v;
    RotIsMod(v, k);
    AndNotOnes(r, k);
    var e := Encode(c, v);
    RotIsMod(e, k);
    AndNotOnes(if c.rot then RotRange(e, ChannelMask(c)) else e, k);
  }

  /** What is stored of a value, in arithmetic: turned by half the range when the control is
      rotated, and then counted down from the top when it is inverted. */
  lemma StoredChannel(c: Control, v: nat)
    requires c.bits >= 1 && v < Pow2(c.bits)
    ensures var top, half := Pow2(c.bits) - 1, Pow2(c.bits - 1);
            var turned := if !c.rot then v else if v < half then v + half else v - half;
            Encode(c, v) == if c.inv then top - turned else turned
  {
    RotIsMod(v, c.bits);
    AndNotOnes(if c.rot then RotRange(v, ChannelMask(c)) else v, c.bits);
  }

  /** And where: the bits of the control's field hold its channels at its shift, left above right. */
  lemma FieldStored(c: Control, word: nat, left: nat, right: nat)
    requires WellFormed(c) && left <= ChannelMask(c) && right <= ChannelMask(c)
    ensures And(PutReg(c, word, left, right), FieldMask(c))
         == (if c.stereo then Encode(c, left) * 256 + Encode(c, right) else Encode(c, left)) * Pow2(c.shift)
  {
    var e := Pack(c, left, right);
    WrittenBits(word, Shl(e, c.shift), FieldMask(c));
    PackHolds(c, left, right);
    ShiftedFits(e, FullMask(c), c.shift);
    ShlIsProduct(e, c.shift);
    PackValue(c, left, right);
  }

  lemma PackValue(c: Control, left: nat, right: nat)
    requires WellFormed(c) && left <= ChannelMask(c) && right <= ChannelMask(c)
    ensures Pack(c, left, right) == if c.stereo then Encode(c, left) * 256 + Encode(c, right) else Encode(c, left)
  {
    EncodeTwice(c, left);
    EncodeTwice(c, right);
    if c.stereo {
      StereoWord(Encode(c, left), Encode(c, right), c.bits);
    }
  }

  lemma {:induction false} ShiftedFits(e: nat, mask: nat, n: nat)
    requires And(e, mask) == e
    ensures And(Shl(e, n), Shl(mask, n)) == Shl(e, n)
  {
    if n > 0 {
      ShiftedFits(e, mask, n - 1);
      AndStep(Shl(e, n), Shl(mask, n));
    }
  }

  /** Two channels of at most 8 bits side by side. */
  lemma StereoWord(l: nat, r: nat, k: nat)
    requires k <= 8 && l < Pow2(k) && r < Pow2(k)
    ensures l < 256 && r < 256 && Or(Shl(l, 8), r) == l * 256 + r
    ensures And(l * 256 + r, (Pow2(k) - 1) * 256 + (Pow2(k) - 1)) == l * 256 + r
  {
    Pow8();
    PowMonotone(k, 8);
    StereoSum(l, r);
    StereoMask(l, r, k);
  }

  lemma StereoSum(l: nat, r: nat)
    requires r < 256
    ensures Or(Shl(l, 8), r) == l * 256 + r
  {
    Pow8();
    ShlIsProduct(l, 8);
    OrIsSum(l, r, 8);
  }

  lemma StereoMask(l: nat, r: nat, k: nat)
    requires l < Pow2(k) <= 256 && r < Pow2(k)
    ensures And(l * 256 + r, (Pow2(k) - 1) * 256 + (Pow2(k) - 1)) == l * 256 + r
  {
    var m := Pow2(k) - 1;
    Pow8();
    AndFits(l, k);
    AndFits(r, k);
    AndHalves(l, r, m, m, 8);
  }

  lemma StereoApart(l: nat, r: nat)
    requires l < 256 && r < 256
    ensures Shr(l * 256 + r, 8) == l && And(l * 256 + r, 0xff) == r
  {
    Pow8();
    ShrHalves(l, r, 8);
    AndHalves(l, r, 0, 0xff, 8);
    AndFits(r, 8);
  }

  lemma Pow8()
    ensures Pow2(8) == 256
  {
  }

  /** Both channels fit side by side and come apart again. */
  lemma PackHolds(c: Control, left: nat, right: nat)
    requires WellFormed(c) && left <= ChannelMask(c) && right <= ChannelMask(c)
    ensures And(Pack(c, left, right), FullMask(c)) == Pack(c, left, right)
    ensures c.stereo ==> Shr(Pack(c, left, right), 8) == Encode(c, left)
    ensures c.stereo ==> And(Pack(c, left, right), 0xff) == Encode(c, right)
  {
    EncodeTwice(c, left);
    EncodeTwice(c, right);
    var l, r, k := Encode(c, left), Encode(c, right), c.bits;
    if c.stereo {
      StereoWord(l, r, k);
      StereoApart(l, r);
      assert Pack(c, left, right) == l * 256 + r;
      assert FullMask(c) == (Pow2(k) - 1) * 256 + (Pow2(k) - 1);
    } else {
      AndFits(l, k);
    }
  }

  /** Reading a control after setting it gives the values set, for every range
      the source can describe: stereo or mono, inverted, rotated, shifted. */
  lemma GetAfterPut(c: Control, word: nat, left: nat, right: nat)
    requires WellFormed(c) && left <= ChannelMask(c) && right <= ChannelMask(c)
    ensures GetReg(c, PutReg(c, word, left, right)) == (left, if c.stereo then right else 0)
  {
    PackHolds(c, left, right);
    FieldHolds(word, Pack(c, left, right), FullMask(c), c.shift);
    EncodeTwice(c, left);
    EncodeTwice(c, right);
  }

  /** Setting a control changes no bit outside its field, whatever is written. */
  lemma PutKeepsOthers(c: Control, word: nat, left: nat, right: nat, other: nat)
    requires And(FieldMask(c), other) == 0
    ensures And(PutReg(c, word, left, right), other) == And(word, other)
  {
    MaskedWrite(word, Shl(Pack(c, left, right), c.shift), FieldMask(c), other);
  }

  /** What a control reads depends on the bits of its field alone. */
  lemma GetSeesField(c: Control, w1: nat, w2: nat)
    requires And(w1, FieldMask(c)) == And(w2, FieldMask(c))
    ensures GetReg(c, w1) == GetReg(c, w2)
  {
    FieldSeen(w1, w2, FullMask(c), c.shift);
  }

  /** Controls with disjoint fields in one register never disturb each other. */
  lemma ControlsIndependent(c: Control, d: Control, word: nat, left: nat, right: nat)
    requires And(FieldMask(c), FieldMask(d)) == 0
    ensures GetReg(d, PutReg(c, word, left, right)) == GetReg(d, word)
  {
    PutKeepsOthers(c, word, left, right, FieldMask(d));
    GetSeesField(d, PutReg(c, word, left, right), word);
  }

  // ----- The driver's controls -----

  const PLAYBACK_VOLUME := Control(true, true, false, 0x10, 0, 8)
  const DEEMPHASIS := Control(false, false, false, 0x13, 0, 3)
  const TONE_STRENGTH := Control(false, false, false, 0x12, 14, 2)
  const TONE_TREBLE := Control(true, false, false, 0x12, 4, 2)
  const TONE_BASS := Control(true, false, false, 0x12, 0, 4)
  const MIC_GAIN := Control(false, false, false, 0x22, 8, 4)
  const LINE_IN_GAIN := Control(true, false, false, 0x21, 0, 4)
  const CAPTURE_VOLUME := Control(true, false, true, 0x20, 0, 8)

  const CONTROLS: seq<Control> :=
    [PLAYBACK_VOLUME, DEEMPHASIS, TONE_STRENGTH, TONE_TREBLE, TONE_BASS, MIC_GAIN, LINE_IN_GAIN, CAPTURE_VOLUME]

  const R13_MTM: nat := 0x4000
  const R21_MT_ADC: nat := 0x8000

  /** The mute bit of a register, which switches and streams change behind the mixer's back. */
  function MuteBits(reg: nat): nat {
    if reg == 0x13 then R13_MTM else if reg == 0x21 then R21_MT_ADC else 0
  }

  /** The field masks written in the source's control declarations. */
  lemma ControlMasks()
    ensures FieldMask(PLAYBACK_VOLUME) == 0xffff && FieldMask(DEEMPHASIS) == 0x0007
    ensures FieldMask(TONE_STRENGTH) == 0xc000 && FieldMask(TONE_TREBLE) == 0x3030 && FieldMask(TONE_BASS) == 0x0f0f
    ensures FieldMask(MIC_GAIN) == 0x0f00 && FieldMask(LINE_IN_GAIN) == 0x0f0f && FieldMask(CAPTURE_VOLUME) == 0xffff
    ensures [PLAYBACK_VOLUME.reg, DEEMPHASIS.reg, TONE_STRENGTH.reg, TONE_TREBLE.reg] == [0x10, 0x13, 0x12, 0x12]
    ensures [TONE_BASS.reg, MIC_GAIN.reg, LINE_IN_GAIN.reg, CAPTURE_VOLUME.reg] == [0x12, 0x22, 0x21, 0x20]
    ensures PLAYBACK_VOLUME.inv && CAPTURE_VOLUME.rot
  {
    ShlIsProduct(3, 14);
    Pow8();
    PowAdd(8, 6);
    assert Pow2(6) == 64;
    assert Pow2(3) == 8 && Pow2(4) == 16;
    ShlIsProduct(0x0303, 4);
  }

  lemma NibblesApart(a: nat, b: nat, c: nat, d: nat)
    requires a < 16 && b < 16 && c < 16 && d < 16 && And(a, c) == 0 && And(b, d) == 0
    ensures And(a * 16 + b, c * 16 + d) == 0
  {
    assert Pow2(4) == 16;
    AndHalves(a, b, c, d, 4);
  }

  lemma BytesApart(a: nat, b: nat, c: nat, d: nat)
    requires a < 256 && b < 256 && c < 256 && d < 256 && And(a, c) == 0 && And(b, d) == 0
    ensures And(a * 256 + b, c * 256 + d) == 0
  {
    Pow8();
    AndHalves(a, b, c, d, 8);
  }

  lemma StrengthNibble()
    ensures And(0xc, 0x3) == 0
  {
    AndStep(12, 3);
    AndStep(6, 1);
  }

  lemma StrengthOffTreble()
    ensures And(0xc000, 0x3030) == 0
  {
    StrengthNibble();
    NibblesApart(0xc, 0, 3, 0);
    BytesApart(0xc0, 0, 0x30, 0x30);
  }

  lemma StrengthOffBass()
    ensures And(0xc000, 0x0f0f) == 0
  {
    NibblesApart(0xc, 0, 0, 0xf);
    BytesApart(0xc0, 0, 0x0f, 0x0f);
  }

  lemma TrebleOffBass()
    ensures And(0x3030, 0x0f0f) == 0
  {
    NibblesApart(3, 0, 0, 0xf);
    BytesApart(0x30, 0x30, 0x0f, 0x0f);
  }

  lemma FieldsOffMutes()
    ensures And(0x0007, R13_MTM) == 0 && And(0x0f0f, R21_MT_ADC) == 0
  {
    BytesApart(0, 7, 0x40, 0);
    NibblesApart(0, 0xf, 8, 0);
    BytesApart(0x0f, 0x0f, 0x80, 0);
  }

  /** The driver's controls are well formed and clear of the mute bits. */
  lemma ControlTable(i: nat)
    requires i < |CONTROLS|
    ensures WellFormed(CONTROLS[i])
    ensures And(FieldMask(CONTROLS[i]), MuteBits(CONTROLS[i].reg)) == 0
  {
    ControlMasks();
    FieldsOffMutes();
  }

  /** Controls that share a register have disjoint fields. */
  lemma ControlsApart(i: nat, j: nat)
    requires i < |CONTROLS| && j < |CONTROLS| && i != j && CONTROLS[i].reg == CONTROLS[j].reg
    ensures And(FieldMask(CONTROLS[i]), FieldMask(CONTROLS[j])) == 0
  {
    ControlMasks();
    StrengthOffTreble();
    StrengthOffBass();
    TrebleOffBass();
    AndComm(FieldMask(CONTROLS[i]), FieldMask(CONTROLS[j]));
  }
}
