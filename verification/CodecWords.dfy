/** The UDA1380 registers that streams and switches write by themselves, from
    alsa/i2c/uda1380.c: what each call leaves in them, and what the codec then does. */
module CodecWords {
  import opened Bits
  import opened RegElem

  const R00_ADC_DEC: nat := 0x0c00      // EN_ADC | EN_DEC
  const R00_DAC_INT: nat := 0x0300      // EN_DAC | EN_INT
  const R00_EN_DEC: nat := 0x0400
  const R00_EN_INT: nat := 0x0100
  const R02_PON_BIAS: nat := 0x0100
  const R22_SKIP_DCFIL: nat := 0x0002
  const R02_PON_HP: nat := 0x2000
  const R02_PON_DAC: nat := 0x0400
  const R02_PON_LNA: nat := 0x0010
  const R02_PON_PGA: nat := 0x000a      // PGAL | PGAR
  const R02_PON_ADC: nat := 0x0005      // ADCL | ADCR
  const R22_SEL_LNA: nat := 0x0008
  const R22_SEL_MIC: nat := 0x0004
  const R23_AGC_EN: nat := 0x0001

  /** Registers 0x00 and 0x02 (power), 0x13 and 0x21 (mutes) and 0x22 (input selection). */
  datatype Words = Words(r00: nat, r02: nat, r13: nat, r21: nat, r22: nat)

  // ----- What the calls leave behind -----

  function PlaybackPowered(w: Words, hp: bool): Words {
    w.(r00 := WriteMask(w.r00, R00_DAC_INT, R00_DAC_INT),
       r02 := WriteMask(w.r02, R02_PON_DAC + (if hp then R02_PON_HP else 0), R02_PON_HP + R02_PON_DAC))
  }

  function PlaybackStarted(w: Words, playbackSwitch: bool, hp: bool): Words {
    var p := PlaybackPowered(w, hp);
    if playbackSwitch then p.(r13 := WriteMask(w.r13, 0, R13_MTM)) else p
  }

  function PlaybackStopped(w: Words): Words {
    w.(r00 := WriteMask(w.r00, 0, R00_DAC_INT),
       r02 := WriteMask(w.r02, 0, R02_PON_HP + R02_PON_DAC),
       r13 := if Clear(w.r13, R13_MTM) then WriteMask(w.r13, R13_MTM, R13_MTM) else w.r13)
  }

  /** Power goes to the amplifier of the input that the registers select. */
  function CapturePowered(w: Words): Words {
    var input := if Clear(w.r22, R22_SEL_MIC) then R02_PON_PGA else R02_PON_LNA;
    w.(r00 := WriteMask(w.r00, R00_ADC_DEC, R00_ADC_DEC),
       r02 := WriteMask(w.r02, R02_PON_ADC + input, R02_PON_ADC + R02_PON_LNA + R02_PON_PGA))
  }

  /** The mute goes off on the playback switch. */
  function CaptureStarted(w: Words, playbackSwitch: bool): Words {
    var p := CapturePowered(w);
    if playbackSwitch then p.(r21 := WriteMask(w.r21, 0, R21_MT_ADC)) else p
  }

  function CaptureStopped(w: Words): Words {
    w.(r00 := WriteMask(w.r00, 0, R00_ADC_DEC),
       r02 := WriteMask(w.r02, 0, R02_PON_ADC + R02_PON_LNA + R02_PON_PGA),
       r21 := if Clear(w.r21, R21_MT_ADC) then WriteMask(w.r21, R21_MT_ADC, R21_MT_ADC) else w.r21)
  }

  /** A source switched over with capture running: the new amplifier comes on before the old one goes off. */
  function SourceSwitched(w: Words, mic: bool): Words {
    if mic then
      w.(r02 := WriteMask(WriteMask(w.r02, R02_PON_LNA, R02_PON_LNA), 0, R02_PON_PGA),
         r22 := WriteMask(w.r22, R22_SEL_LNA + R22_SEL_MIC, R22_SEL_LNA + R22_SEL_MIC))
    else
      w.(r02 := WriteMask(WriteMask(w.r02, R02_PON_PGA, R02_PON_PGA), 0, R02_PON_LNA),
         r22 := WriteMask(w.r22, 0, R22_SEL_LNA + R22_SEL_MIC))
  }

  // ----- What the codec does with them -----

  predicate Clear(word: nat, mask: nat) {
    And(word, mask) == 0
  }

  predicate MicSelected(w: Words) {
    And(w.r22, 0x0004) == 0x0004
  }

  /** Of the two input amplifiers just the one for the source `mic` has power. */
  predicate AmplifierFor(w: Words, mic: bool) {
    And(w.r02, 0x001a) == if mic then 0x0010 else 0x000a
  }

  lemma OneBit(word: nat)
    ensures And(word, R22_SEL_MIC) in {0, R22_SEL_MIC}
  {
    AndStep(word, 4);
    AndStep(word / 2, 2);
    AndStep(word / 4, 1);
  }

  lemma SelectionMask()
    ensures And(0x0c, 0x04) == 0x04
  {
    AndStep(0x0c, 0x04);
    AndStep(0x06, 0x02);
    AndStep(0x03, 0x01);
  }

  lemma AmplifierMask()
    ensures And(0x1f, 0x1a) == 0x1a
  {
    AndStep(0x1f, 0x1a);
    AndStep(0x0f, 0x0d);
    AndStep(0x07, 0x06);
    AndStep(0x03, 0x03);
    AndStep(0x01, 0x01);
  }

  lemma AmplifierBits()
    ensures And(0x15, 0x1a) == 0x10 && And(0x0f, 0x1a) == 0x0a
  {
    AndStep(0x15, 0x1a);
    AndStep(0x0a, 0x0d);
    AndStep(0x05, 0x06);
    AndStep(0x02, 0x03);
    AndStep(0x01, 0x01);
    AndStep(0x0f, 0x1a);
    AndStep(0x07, 0x0d);
    AndStep(0x03, 0x06);
    AndStep(0x01, 0x03);
  }

  lemma InputPowered(r02: nat, mic: bool)
    ensures var input := if mic then R02_PON_LNA else R02_PON_PGA;
            var written := WriteMask(r02, R02_PON_ADC + input, R02_PON_ADC + R02_PON_LNA + R02_PON_PGA);
            And(written, R02_PON_LNA + R02_PON_PGA) == input
  {
    AmplifierMask();
    AmplifierBits();
    var input := if mic then R02_PON_LNA else R02_PON_PGA;
    WrittenPart(r02, R02_PON_ADC + input, R02_PON_ADC + R02_PON_LNA + R02_PON_PGA, R02_PON_LNA + R02_PON_PGA);
  }

  /** Turning capture on powers the amplifier of the wanted source if and only if the
      registers select that source already: the selection itself is not touched. */
  lemma AmplifierIffSelected(w: Words, playbackSwitch: bool, mic: bool)
    ensures AmplifierFor(CaptureStarted(w, playbackSwitch), mic) <==> MicSelected(w) == mic
    ensures MicSelected(CaptureStarted(w, playbackSwitch)) == MicSelected(w)
  {
    OneBit(w.r22);
    InputPowered(w.r02, MicSelected(w));
  }

  /** Switching over with capture running selects the source. */
  lemma SwitchedSelects(w: Words, mic: bool)
    ensures MicSelected(SourceSwitched(w, mic)) == mic
  {
    SelectionMask();
    AndZero(0x04);
    WrittenPart(w.r22, 0x0c, 0x0c, 0x04);
    WrittenPart(w.r22, 0, 0x0c, 0x04);
  }

  /** After capture is turned on its mute agrees with the capture switch if and only if
      that switch is on just when the playback switch is, or the mute was off already. */
  lemma UnmuteMatches(w: Words, playbackSwitch: bool, captureSwitch: bool)
    ensures Clear(CaptureStarted(w, playbackSwitch).r21, R21_MT_ADC) <==> playbackSwitch || Clear(w.r21, R21_MT_ADC)
    ensures Clear(CaptureStarted(w, playbackSwitch).r21, R21_MT_ADC) == captureSwitch
       <==> (playbackSwitch || Clear(w.r21, R21_MT_ADC)) == captureSwitch
  {
    WrittenBits(w.r21, 0, R21_MT_ADC);
    AndZero(R21_MT_ADC);
  }

  lemma AndZero(mask: nat)
    ensures And(0, mask) == 0
  {
  }

  // ----- The selected input has power -----

  /** While capture is on, just the amplifier of the selected input has power. */
  predicate Powered(w: Words, captureOn: bool) {
    captureOn ==> AmplifierFor(w, MicSelected(w))
  }

  lemma CaptureStartedPowered(w: Words, playbackSwitch: bool)
    ensures Powered(CaptureStarted(w, playbackSwitch), true)
  {
    AmplifierIffSelected(w, playbackSwitch, MicSelected(w));
  }

  lemma InputsApart()
    ensures And(R02_PON_LNA, R02_PON_PGA) == 0 && And(R02_PON_PGA, R02_PON_LNA) == 0
  {
    AndStep(0x10, 0x0a);
    AndStep(0x08, 0x05);
    AndStep(0x04, 0x02);
    AndStep(0x02, 0x01);
    AndComm(0x10, 0x0a);
  }

  lemma SourceSwitchedPowered(w: Words, mic: bool)
    ensures Powered(SourceSwitched(w, mic), true)
  {
    SwitchedSelects(w, mic);
    var on := if mic then R02_PON_LNA else R02_PON_PGA;
    var off := if mic then R02_PON_PGA else R02_PON_LNA;
    var first := WriteMask(w.r02, on, on);
    WrittenBits(w.r02, on, on);
    AndSelf(on);
    InputsApart();
    MaskedWrite(first, 0, off, on);
    WrittenBits(first, 0, off);
    AndZero(off);
    AndSum(WriteMask(first, 0, off), R02_PON_LNA, R02_PON_PGA);
  }

  /** Playback's writes to the power register are clear of the inputs. */
  lemma PlaybackKeepsInputs(w: Words, val: nat, mask: nat, captureOn: bool)
    requires mask in {R02_PON_HP, R02_PON_HP + R02_PON_DAC}
    ensures Powered(w, captureOn) ==> Powered(w.(r02 := WriteMask(w.r02, val, mask)), captureOn)
  {
    BytesApart(0x20, 0, 0, 0x1a);
    BytesApart(0x24, 0, 0, 0x1a);
    MaskedWrite(w.r02, val, mask, R02_PON_LNA + R02_PON_PGA);
  }

  lemma PlaybackStartedPowered(w: Words, playbackSwitch: bool, hp: bool, captureOn: bool)
    ensures Powered(w, captureOn) ==> Powered(PlaybackStarted(w, playbackSwitch, hp), captureOn)
  {
    PlaybackKeepsInputs(w, R02_PON_DAC + (if hp then R02_PON_HP else 0), R02_PON_HP + R02_PON_DAC, captureOn);
  }

  lemma PlaybackStoppedPowered(w: Words, captureOn: bool)
    ensures Powered(w, captureOn) ==> Powered(PlaybackStopped(w), captureOn)
  {
    PlaybackKeepsInputs(w, 0, R02_PON_HP + R02_PON_DAC, captureOn);
  }

  /** Mixer writes leave the selection as it is. */
  lemma PutKeepsSelection(i: nat, word: nat, left: nat, right: nat)
    requires i < |CONTROLS| && CONTROLS[i].reg == 0x22
    ensures And(PutReg(CONTROLS[i], word, left, right), R22_SEL_MIC) == And(word, R22_SEL_MIC)
  {
    ControlMasks();
    BytesApart(0x0f, 0, 0, 0x04);
    PutKeepsOthers(CONTROLS[i], word, left, right, R22_SEL_MIC);
  }

  // ----- Clocks and converters -----

  /** Of register 0x00, bit 0x0100 is the clock of playback and bit 0x0400 that of capture; with
      them, and with bits of register 0x02, the converters are on. */
  predicate ClockBits(r00: nat, r02: nat, playback: bool, capture: bool) {
    forall section | 1 <= section <= 2 :: ClockFollows(r00, r02, section, playback, capture)
  }

  predicate ClockFollows(r00: nat, r02: nat, section: int, playback: bool, capture: bool) {
    if section == 1 then
      (And(r00, 0x0100) != 0 <==> playback) && (playback ==> And(r00, 0x0300) == 0x0300 && And(r02, 0x0400) == 0x0400)
    else
      (And(r00, 0x0400) != 0 <==> capture) && (capture ==> And(r00, 0x0c00) == 0x0c00 && And(r02, 0x0005) == 0x0005)
  }

  /** The clock of a stream's section runs. */
  predicate ClockSet(r00: nat, section: int) {
    And(r00, if section == 1 then 0x0100 else 0x0400) != 0
  }

  lemma BitsRun(r00: nat, r02: nat, playback: bool, capture: bool)
    requires ClockBits(r00, r02, playback, capture)
    ensures ClockSet(r00, 1) == playback && ClockSet(r00, 2) == capture
  {
    assert ClockFollows(r00, r02, 1, playback, capture) && ClockFollows(r00, r02, 2, playback, capture);
  }

  lemma ClockMasks()
    ensures And(0x0300, 0x0100) == 0x0100 && And(0x0c00, 0x0400) == 0x0400
    ensures And(0x0300, 0x0400) == 0 && And(0x0300, 0x0c00) == 0 && And(0x0c00, 0x0100) == 0 && And(0x0c00, 0x0300) == 0
  {
    AndStep(0x03, 0x01);
    AndStep(0x01, 0x00);
    AndStep(0x0c, 0x04);
    AndStep(0x06, 0x02);
    AndStep(0x03, 0x01);
    HighBytes(0x03, 0x01);
    HighBytes(0x0c, 0x04);
    ClocksApart();
  }

  lemma ClocksApart()
    ensures And(0x0300, 0x0400) == 0 && And(0x0300, 0x0c00) == 0 && And(0x0c00, 0x0100) == 0 && And(0x0c00, 0x0300) == 0
  {
    AndStep(0x03, 0x04);
    AndStep(0x01, 0x02);
    AndStep(0x03, 0x0c);
    AndStep(0x01, 0x06);
    AndComm(0x0c, 0x01);
    AndStep(0x01, 0x0c);
    AndComm(0x0c, 0x03);
    HighBytes(0x03, 0x04);
    HighBytes(0x03, 0x0c);
    HighBytes(0x0c, 0x01);
    HighBytes(0x0c, 0x03);
  }

  lemma DacMask()
    ensures And(0x2400, 0x0400) == 0x0400
  {
    AndStep(0x24, 0x04);
    AndStep(0x12, 0x02);
    AndStep(0x09, 0x01);
    HighBytes(0x24, 0x04);
  }

  lemma DacOffAdc()
    ensures And(0x2400, 0x0005) == 0
  {
    BytesApart(0x24, 0, 0, 0x05);
  }

  lemma AdcOffDac()
    ensures And(0x001f, 0x0400) == 0
  {
    BytesApart(0, 0x1f, 0x04, 0);
  }

  lemma AdcMask()
    ensures And(0x001f, 0x0005) == 0x0005
  {
    AndStep(0x1f, 0x05);
    AndStep(0x0f, 0x02);
    AndStep(0x07, 0x01);
  }

  lemma AdcBits()
    ensures And(0x0015, 0x0005) == 0x0005 && And(0x000f, 0x0005) == 0x0005
  {
    AndStep(0x15, 0x05);
    AndStep(0x0a, 0x02);
    AndStep(0x05, 0x01);
    AndStep(0x0f, 0x05);
    AndStep(0x07, 0x02);
    AndStep(0x03, 0x01);
  }

  /** Turning playback on starts its clock and its converter and leaves those of capture alone. */
  lemma PlaybackStartedClock(w: Words, playbackSwitch: bool, hp: bool, capture: bool)
    requires ClockBits(w.r00, w.r02, false, capture)
    ensures var t := PlaybackStarted(w, playbackSwitch, hp); ClockBits(t.r00, t.r02, true, capture)
  {
    assert ClockFollows(w.r00, w.r02, 1, false, capture) && ClockFollows(w.r00, w.r02, 2, false, capture);
    ClockMasks();
    PlaybackClockWord(w.r00, 0x0300);
    DacWord(w.r02, hp);
  }

  /** One write of the two clock bits of playback. */
  lemma PlaybackClockWord(word: nat, val: nat)
    requires val == 0 || val == 0x0300
    ensures var r00 := WriteMask(word, val, 0x0300);
            && And(r00, 0x0100) == (if val == 0 then 0 else 0x0100) && And(r00, 0x0300) == val
            && And(r00, 0x0400) == And(word, 0x0400) && And(r00, 0x0c00) == And(word, 0x0c00)
  {
    ClockMasks();
    AndSelf(0x0300);
    AndZero(0x0100);
    AndZero(0x0300);
    WrittenBits(word, val, 0x0300);
    WrittenPart(word, val, 0x0300, 0x0100);
    MaskedWrite(word, val, 0x0300, 0x0400);
    MaskedWrite(word, val, 0x0300, 0x0c00);
  }

  lemma CaptureClockWord(word: nat, val: nat)
    requires val == 0 || val == 0x0c00
    ensures var r00 := WriteMask(word, val, 0x0c00);
            && And(r00, 0x0400) == (if val == 0 then 0 else 0x0400) && And(r00, 0x0c00) == val
            && And(r00, 0x0100) == And(word, 0x0100) && And(r00, 0x0300) == And(word, 0x0300)
  {
    ClockMasks();
    AndSelf(0x0c00);
    AndZero(0x0400);
    AndZero(0x0c00);
    WrittenBits(word, val, 0x0c00);
    WrittenPart(word, val, 0x0c00, 0x0400);
    MaskedWrite(word, val, 0x0c00, 0x0100);
    MaskedWrite(word, val, 0x0c00, 0x0300);
  }

  lemma CaptureClockRuns(word: nat)
    ensures var r00 := WriteMask(word, R00_ADC_DEC, R00_ADC_DEC);
            ClockSet(r00, 2) && ClockSet(r00, 1) == ClockSet(word, 1)
  {
    CaptureClockWord(word, 0x0c00);
  }

  lemma DacWord(word: nat, hp: bool)
    ensures var r02 := WriteMask(word, R02_PON_DAC + (if hp then R02_PON_HP else 0), R02_PON_HP + R02_PON_DAC);
            And(r02, 0x0400) == 0x0400 && And(r02, 0x0005) == And(word, 0x0005)
  {
    DacMask();
    DacOffAdc();
    AndSelf(0x0400);
    var val := R02_PON_DAC + (if hp then R02_PON_HP else 0);
    WrittenPart(word, val, 0x2400, 0x0400);
    MaskedWrite(word, val, 0x2400, 0x0005);
  }

  lemma PlaybackStoppedClock(w: Words, capture: bool)
    requires ClockBits(w.r00, w.r02, true, capture)
    ensures var t := PlaybackStopped(w); ClockBits(t.r00, t.r02, false, capture)
  {
    assert ClockFollows(w.r00, w.r02, 1, true, capture) && ClockFollows(w.r00, w.r02, 2, true, capture);
    PlaybackClockWord(w.r00, 0);
    DacOffAdc();
    MaskedWrite(w.r02, 0, 0x2400, 0x0005);
  }

  lemma CaptureStartedClock(w: Words, playbackSwitch: bool, playback: bool)
    requires ClockBits(w.r00, w.r02, playback, false)
    ensures var t := CaptureStarted(w, playbackSwitch); ClockBits(t.r00, t.r02, playback, true)
  {
    assert ClockFollows(w.r00, w.r02, 1, playback, false) && ClockFollows(w.r00, w.r02, 2, playback, false);
    CaptureClockWord(w.r00, 0x0c00);
    AdcWord(w.r02, if Clear(w.r22, R22_SEL_MIC) then R02_PON_PGA else R02_PON_LNA);
  }

  lemma AdcWord(word: nat, input: nat)
    requires input == R02_PON_PGA || input == R02_PON_LNA
    ensures var r02 := WriteMask(word, R02_PON_ADC + input, R02_PON_ADC + R02_PON_LNA + R02_PON_PGA);
            And(r02, 0x0005) == 0x0005 && And(r02, 0x0400) == And(word, 0x0400)
  {
    AdcMask();
    AdcBits();
    AdcOffDac();
    WrittenPart(word, R02_PON_ADC + input, 0x001f, 0x0005);
    MaskedWrite(word, R02_PON_ADC + input, 0x001f, 0x0400);
  }

  lemma CaptureStoppedClock(w: Words, playback: bool)
    requires ClockBits(w.r00, w.r02, playback, true)
    ensures var t := CaptureStopped(w); ClockBits(t.r00, t.r02, playback, false)
  {
    assert ClockFollows(w.r00, w.r02, 1, playback, true) && ClockFollows(w.r00, w.r02, 2, playback, true);
    CaptureClockWord(w.r00, 0);
    AdcOffDac();
    MaskedWrite(w.r02, 0, 0x001f, 0x0400);
  }

  /** Writes to the power register that are clear of the converters. */
  lemma PowerKeepsClock(r00: nat, r02: nat, val: nat, mask: nat, playback: bool, capture: bool)
    requires And(mask, 0x0400) == 0 && And(mask, 0x0005) == 0 && ClockBits(r00, r02, playback, capture)
    ensures ClockBits(r00, WriteMask(r02, val, mask), playback, capture)
  {
    assert ClockFollows(r00, r02, 1, playback, capture) && ClockFollows(r00, r02, 2, playback, capture);
    MaskedWrite(r02, val, mask, 0x0400);
    MaskedWrite(r02, val, mask, 0x0005);
  }

  lemma HeadphoneOffDac()
    ensures And(R02_PON_HP, 0x0400) == 0
  {
    AndStep(0x20, 0x04);
    AndStep(0x10, 0x02);
    AndStep(0x08, 0x01);
    HighBytes(0x20, 0x04);
  }

  lemma HeadphoneOffAdc()
    ensures And(R02_PON_HP, 0x0005) == 0
  {
    BytesApart(0x20, 0, 0, 0x05);
  }

  lemma HeadphoneKeepsClock(r00: nat, r02: nat, val: nat, playback: bool, capture: bool)
    requires ClockBits(r00, r02, playback, capture)
    ensures ClockBits(r00, WriteMask(r02, val, R02_PON_HP), playback, capture)
  {
    HeadphoneOffDac();
    HeadphoneOffAdc();
    PowerKeepsClock(r00, r02, val, R02_PON_HP, playback, capture);
  }

  lemma InputMasks()
    ensures And(R02_PON_LNA, 0x0005) == 0 && And(R02_PON_PGA, 0x0005) == 0
    ensures And(R02_PON_LNA, 0x0400) == 0 && And(R02_PON_PGA, 0x0400) == 0
  {
    AndStep(0x10, 0x05);
    AndStep(0x08, 0x02);
    AndStep(0x04, 0x01);
    AndStep(0x0a, 0x05);
    AndStep(0x05, 0x02);
    AndStep(0x02, 0x01);
    BytesApart(0, 0x10, 0x04, 0);
    BytesApart(0, 0x0a, 0x04, 0);
  }

  lemma SourceSwitchedClock(w: Words, mic: bool, playback: bool, capture: bool)
    requires ClockBits(w.r00, w.r02, playback, capture)
    ensures var t := SourceSwitched(w, mic); ClockBits(t.r00, t.r02, playback, capture)
  {
    InputMasks();
    var on := if mic then R02_PON_LNA else R02_PON_PGA;
    var off := if mic then R02_PON_PGA else R02_PON_LNA;
    PowerKeepsClock(w.r00, w.r02, on, on, playback, capture);
    PowerKeepsClock(w.r00, WriteMask(w.r02, on, on), 0, off, playback, capture);
  }

  /** As the codec is activated both clocks are off. */
  lemma ActivatedClock(r00: nat, r02: nat, w: Words)
    requires w.r00 == WriteMask(r00, 0, R00_EN_DEC + R00_EN_INT) && w.r02 == WriteMask(r02, R02_PON_BIAS, R02_PON_BIAS)
    ensures ClockBits(w.r00, w.r02, false, false)
  {
    AndStep(0x05, 0x01);
    AndStep(0x02, 0x00);
    AndStep(0x05, 0x04);
    AndStep(0x02, 0x02);
    AndStep(0x01, 0x01);
    HighBytes(0x05, 0x01);
    HighBytes(0x05, 0x04);
    AndZero(0x0100);
    AndZero(0x0400);
    WrittenPart(r00, 0, 0x0500, 0x0100);
    WrittenPart(r00, 0, 0x0500, 0x0400);
  }

  // ----- The codec does as it was told -----

  /** A mute is off exactly when its stream is on and sound is wanted. */
  predicate MuteFollows(word: nat, mask: nat, on: bool, want: bool) {
    Clear(word, mask) == (on && want)
  }

  /** The mutes follow what was asked for, and the headphone amplifier follows the plug while playback is on. */
  predicate Obeys(w: Words, playbackOn: bool, playbackWanted: bool, hp: bool, captureOn: bool, captureWanted: bool) {
    && MuteFollows(w.r13, 0x4000, playbackOn, playbackWanted)
    && MuteFollows(w.r21, 0x8000, captureOn, captureWanted)
    && (playbackOn ==> Clear(w.r02, 0x2000) == !hp)
  }

  lemma MuteWritten(word: nat, mask: nat, on: bool)
    requires mask > 0
    ensures MuteFollows(WriteMask(word, if on then 0 else mask, mask), mask, true, on)
  {
    WrittenBits(word, if on then 0 else mask, mask);
    AndSelf(mask);
    AndZero(mask);
  }

  lemma {:induction false} AndSelf(a: nat)
    ensures And(a, a) == a
  {
    if a > 0 {
      AndSelf(a / 2);
    }
  }

  lemma HeadphoneNibbles()
    ensures And(0x24, 0x20) == 0x20 && And(0x04, 0x20) == 0
  {
    AndSelf(2);
    assert Pow2(4) == 16;
    AndHalves(2, 4, 2, 0, 4);
    AndHalves(0, 4, 2, 0, 4);
  }

  lemma HighBytes(a: nat, c: nat)
    ensures And(a * 256, c * 256) == And(a, c) * 256
  {
    Pow8();
    AndHalves(a, 0, c, 0, 8);
  }

  lemma HeadphoneMask()
    ensures And(R02_PON_HP + R02_PON_DAC, R02_PON_HP) == R02_PON_HP && And(R02_PON_DAC, R02_PON_HP) == 0
  {
    HeadphoneNibbles();
    HighBytes(0x24, 0x20);
    HighBytes(0x04, 0x20);
  }

  lemma LowBitsOffHeadphone(mask: nat)
    requires mask < 256
    ensures And(mask, R02_PON_HP) == 0
  {
    AndComm(mask, 0);
    BytesApart(0, mask, 0x20, 0);
  }

  lemma PlaybackStartedObeys(w: Words, sw: bool, hp: bool, captureOn: bool, captureWanted: bool)
    ensures Obeys(w, false, sw, hp, captureOn, captureWanted) ==>
              Obeys(PlaybackStarted(w, sw, hp), true, sw, hp, captureOn, captureWanted)
  {
    MuteWritten(w.r13, R13_MTM, true);
    HeadphoneMask();
    WrittenPart(w.r02, R02_PON_DAC + (if hp then R02_PON_HP else 0), R02_PON_HP + R02_PON_DAC, R02_PON_HP);
  }

  lemma PlaybackStoppedObeys(w: Words, sw: bool, hp: bool, captureOn: bool, captureWanted: bool)
    ensures Obeys(w, true, sw, hp, captureOn, captureWanted) ==>
              Obeys(PlaybackStopped(w), false, sw, hp, captureOn, captureWanted)
  {
    MuteWritten(w.r13, R13_MTM, false);
  }

  /** Capture starts muted or not as the playback switch says. */
  lemma CaptureStartedObeys(w: Words, playbackOn: bool, sw: bool, hp: bool, captureWanted: bool)
    ensures Obeys(w, playbackOn, sw, hp, false, captureWanted) ==>
              Obeys(CaptureStarted(w, sw), playbackOn, sw, hp, true, sw)
  {
    MuteWritten(w.r21, R21_MT_ADC, true);
    LowBitsOffHeadphone(0x1f);
    var input := if Clear(w.r22, R22_SEL_MIC) then R02_PON_PGA else R02_PON_LNA;
    MaskedWrite(w.r02, R02_PON_ADC + input, 0x1f, R02_PON_HP);
  }

  lemma CaptureStoppedObeys(w: Words, playbackOn: bool, sw: bool, hp: bool, captureWanted: bool)
    ensures Obeys(w, playbackOn, sw, hp, true, captureWanted) ==>
              Obeys(CaptureStopped(w), playbackOn, sw, hp, false, captureWanted)
  {
    MuteWritten(w.r21, R21_MT_ADC, false);
    LowBitsOffHeadphone(0x1f);
    MaskedWrite(w.r02, 0, 0x1f, R02_PON_HP);
  }

  lemma SourceSwitchedObeys(
    w: Words, mic: bool, playbackOn: bool, sw: bool, hp: bool, captureOn: bool, captureWanted: bool)
    ensures Obeys(w, playbackOn, sw, hp, captureOn, captureWanted) ==>
              Obeys(SourceSwitched(w, mic), playbackOn, sw, hp, captureOn, captureWanted)
  {
    LowBitsOffHeadphone(R02_PON_LNA);
    LowBitsOffHeadphone(R02_PON_PGA);
    MaskedWrite(w.r02, R02_PON_LNA, R02_PON_LNA, R02_PON_HP);
    MaskedWrite(w.r02, R02_PON_PGA, R02_PON_PGA, R02_PON_HP);
    MaskedWrite(WriteMask(w.r02, R02_PON_LNA, R02_PON_LNA), 0, R02_PON_PGA, R02_PON_HP);
    MaskedWrite(WriteMask(w.r02, R02_PON_PGA, R02_PON_PGA), 0, R02_PON_LNA, R02_PON_HP);
  }

  /** Mixer writes leave both mutes as they are. */
  lemma PutKeepsMutes(i: nat, word: nat, left: nat, right: nat)
    requires i < |CONTROLS|
    ensures var c := CONTROLS[i];
            Clear(PutReg(c, word, left, right), MuteBits(c.reg)) == Clear(word, MuteBits(c.reg))
  {
    ControlTable(i);
    PutKeepsOthers(CONTROLS[i], word, left, right, MuteBits(CONTROLS[i].reg));
  }
}
