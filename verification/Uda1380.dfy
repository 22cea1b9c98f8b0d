/** The register cache of the UDA1380 codec driver, alsa/i2c/uda1380.c: three
    sections of registers are written to a cache first and reach the codec when
    their section's gate (power, or a stream's clock) is open. */
module Uda1380 {
  import opened Bits
  import opened RegElem
  import opened CodecWords

  const NREGS: nat := 0x29
  const MUTE_STATE: nat := 0x0004

  datatype Interval = Interval(start: nat, count: nat)

  predicate Within(d: Interval, r: nat) {
    d.start <= r < d.start + d.count
  }

  /** Registers of section `i`: 0x00-0x04, 0x10-0x14, 0x20-0x23. */
  function Size(i: nat): nat {
    if i == 2 then 4 else 5
  }

  function Full(i: nat): Interval {
    Interval(i * 16, Size(i))
  }

  predicate InSection(i: nat, r: nat) {
    i < 3 && Within(Full(i), r)
  }

  /** One transfer to the codec: which section, and whether the codec was ready for it. */
  datatype Transfer = Transfer(section: nat, open: bool)

  class Codec {
    const regs: array<nat>
    var hw: seq<nat>
    var dirty: seq<Interval>
    var poweredOn: bool
    var playbackOn: bool
    var playbackSwitch: bool
    var playbackClockOn: bool
    var playbackOpened: bool
    var captureOn: bool
    var captureSwitch: bool
    var captureClockOn: bool
    var captureOpened: bool
    var hpConnected: bool
    var captureMic: bool
    ghost var bus: seq<Transfer>

    /** What decides the capture mute: the last of the playback switch at the moment
        capture was turned on, and the capture switch set since. */
    ghost var captureWanted: bool

    /** `snd_uda1380_activate`: the codec comes up with `reset` in its registers,
        the cache reads them, and the first settings are written. */
    constructor Activate(reset: seq<nat>, mic: bool, hp: bool)
      requires |reset| == NREGS
      ensures Valid() && poweredOn && !playbackOn && !captureOn && fresh(regs)
      ensures !playbackSwitch && !captureSwitch && hpConnected == hp && captureMic == mic
      ensures forall r: nat | r < NREGS && r !in {0x00, 0x02, 0x22} :: regs[r] == reset[r]
      ensures regs[0x00] == WriteMask(reset[0x00], 0, R00_EN_DEC + R00_EN_INT)
      ensures regs[0x02] == WriteMask(reset[0x02], R02_PON_BIAS, R02_PON_BIAS)
      ensures var input := R22_SEL_LNA + R22_SEL_MIC;
              var r22 := if mic then WriteMask(reset[0x22], input, input) else reset[0x22];
              regs[0x22] == WriteMask(r22, 0, R22_SKIP_DCFIL)
      ensures InputPowered() && (!Clear(reset[0x13], R13_MTM) && !Clear(reset[0x21], R21_MT_ADC) ==> Requests())
    {
      var input := R22_SEL_LNA + R22_SEL_MIC;
      var sel := if mic then WriteMask(reset[0x22], input, input) else reset[0x22];
      var r22 := WriteMask(sel, 0, R22_SKIP_DCFIL);
      var r00 := WriteMask(reset[0x00], 0, R00_EN_DEC + R00_EN_INT);
      var r02 := WriteMask(reset[0x02], R02_PON_BIAS, R02_PON_BIAS);
      var first := reset[0x22 := r22][0x00 := r00][0x02 := r02];
      regs := new nat[NREGS](i requires 0 <= i < |first| => first[i]);
      hw := first;
      dirty := [Interval(0, 0), Interval(0, 0), Interval(0, 0)];
      poweredOn, playbackOn, captureOn, playbackClockOn, captureClockOn := true, false, false, false, false;
      playbackOpened, captureOpened, playbackSwitch, captureSwitch := false, false, false, false;
      hpConnected, captureMic := hp, mic;
      bus := [];
      captureWanted := false;
      new;
      ActivatedClock(reset[0x00], reset[0x02], Words());
    }

    ghost function Words(): Words
      requires regs.Length == NREGS
      reads regs
    {
      CodecWords.Words(regs[0x00], regs[0x02], regs[0x13], regs[0x21], regs[0x22])
    }

    /** Apart from the power registers, the two with the mutes and the status registers, nothing changed. */
    ghost predicate Others(before: seq<nat>)
      reads regs
    {
      regs.Length == NREGS == |before|
      && forall r: nat | r < NREGS && r !in {0x00, 0x02, 0x13, 0x18, 0x21, 0x28} :: regs[r] == before[r]
    }

    predicate Gate(i: nat)
      reads `poweredOn, `playbackClockOn, `captureClockOn
    {
      if i == 0 then poweredOn else if i == 1 then playbackClockOn else captureClockOn
    }

    ghost predicate Shape()
      reads `hw, `dirty, `bus
    {
      && regs.Length == NREGS && |hw| == NREGS && |dirty| == 3
      && (forall i | 0 <= i < 3 :: dirty[i].count > 0 ==>
            i * 16 <= dirty[i].start && dirty[i].start + dirty[i].count <= i * 16 + Size(i))
      && (forall t <- bus :: t.open)
    }

    /** A register of section `i` that is not dirty is in the codec as it is in the cache. */
    ghost predicate Coherent(i: nat)
      requires Shape() && i < 3
      reads `hw, `dirty, `bus, regs
    {
      forall r: nat | InSection(i, r) :: regs[r] == hw[r] || Within(dirty[i], r)
    }

    /** The registers of section `i` are in the codec. */
    ghost predicate Synced(i: nat)
      requires Shape() && i < 3
      reads `hw, `dirty, `bus, regs
    {
      forall r: nat | InSection(i, r) :: regs[r] == hw[r]
    }

    /** Every section is coherent, and nothing is left to flush where the gate is open. */
    ghost predicate Cached()
      reads `hw, `dirty, `bus, `poweredOn, `playbackClockOn, `captureClockOn, regs
    {
      Shape() && forall i | 0 <= i < 3 :: Coherent(i) && (Gate(i) ==> dirty[i].count == 0)
    }

    lemma OpenIsSynced(i: nat)
      requires Cached() && i < 3 && Gate(i)
      ensures Synced(i)
    {
      assert Coherent(i);
    }

    /** What the codec itself needs for a transfer: power, and for the sections of the streams
        the bit of register 0x00 that runs their clock. */
    predicate ClockRuns(i: nat)
      reads `poweredOn, `hw
    {
      poweredOn && |hw| > 0 && (i != 0 ==> ClockSet(hw[0x00], i))
    }

    /** A clock that is on by its flag is on in register 0x00. */
    ghost predicate Ticking()
      requires regs.Length == NREGS
      reads `poweredOn, `playbackClockOn, `captureClockOn, regs
    {
      && (playbackClockOn ==> poweredOn && ClockSet(regs[0x00], 1))
      && (captureClockOn ==> poweredOn && ClockSet(regs[0x00], 2))
    }

    lemma ClockedTicks()
      requires regs.Length == NREGS && Clocked()
      ensures Ticking()
    {
      BitsRun(regs[0x00], regs[0x02], playbackClockOn, captureClockOn);
    }

    /** Clocks and converters are on in the registers just as the flags say. */
    ghost predicate Clocked()
      requires regs.Length == NREGS
      reads `poweredOn, `playbackClockOn, `captureClockOn, regs
    {
      && ClockBits(regs[0x00], regs[0x02], playbackClockOn, captureClockOn)
      && (playbackClockOn || captureClockOn ==> poweredOn)
    }

    /** With section 0 in the codec, an open gate means a running clock. */
    lemma GateClock(i: nat)
      requires Cached() && i < 3 && Gate(i) && (i != 0 ==> Ticking())
      ensures ClockRuns(i)
    {
      if i != 0 {
        OpenIsSynced(0);
        assert InSection(0, 0x00);
      }
    }

    /** How the streams' flags go together; without power everything is dirty. */
    ghost predicate Flags()
      requires Shape()
      reads `hw, `dirty, `bus, `poweredOn, `playbackClockOn, `captureClockOn
      reads `playbackOn, `captureOn, `playbackOpened, `captureOpened
    {
      && (!poweredOn ==> forall i | 0 <= i < 3 :: dirty[i] == Full(i))
      && playbackClockOn == playbackOn && captureClockOn == captureOn
      && playbackOn == (poweredOn && playbackOpened) && captureOn == (poweredOn && captureOpened)
    }

    /** The invariant between calls. */
    ghost predicate Valid()
      reads `hw, `dirty, `bus, `poweredOn, `playbackClockOn, `captureClockOn, regs
      reads `playbackOn, `captureOn, `playbackOpened, `captureOpened
    {
      Cached() && Flags() && Clocked()
    }

    /** Between calls the clocks and converters of the codec itself are on as the flags say. */
    lemma CodecClock()
      requires Valid() && poweredOn
      ensures hw[0x00] == regs[0x00] && hw[0x02] == regs[0x02]
      ensures ClockBits(hw[0x00], hw[0x02], playbackOn, captureOn)
    {
      OpenIsSynced(0);
      assert InSection(0, 0x00) && InSection(0, 0x02);
    }

    // ----- Registers cache <--> codec -----

    /** `snd_uda1380_hwsync`, writing. That the codec runs the section's clock is what every
        caller has to show: no transfer reaches a section without power or clock. */
    method HwsyncWrite(start: nat, count: nat)
      requires Shape() && count <= 5 && start + count <= NREGS && start / 16 < 3 && ClockRuns(start / 16)
      modifies `hw, `bus
      ensures Shape()
      ensures bus == old(bus) + [Transfer(start / 16, true)]
      ensures forall r: nat | r < NREGS :: hw[r] == if start <= r < start + count then regs[r] else old(hw[r])
    {
      bus := bus + [Transfer(start / 16, ClockRuns(start / 16))];
      hw := hw[..start] + regs[start..start + count] + hw[start + count..];
    }

    /** `snd_uda1380_hwsync`, reading one status register. */
    method HwsyncRead1(reg: nat)
      requires Shape() && reg < NREGS
      modifies regs
      ensures forall r: nat | r < NREGS :: regs[r] == if r == reg then hw[r] else old(regs[r])
    {
      regs[reg] := hw[reg];
    }

    // ----- Registers cache operations -----

    method CacheFlush1(i: nat)
      requires Shape() && i < 3 && ClockRuns(i) && dirty[i].count > 0 && Coherent(i)
      modifies `hw, `bus, `dirty
      ensures Shape() && Synced(i) && dirty == old(dirty)[i := Interval(i * 16, 0)]
      ensures forall r: nat | r < NREGS && !InSection(i, r) :: hw[r] == old(hw[r])
    {
      HwsyncWrite(dirty[i].start, dirty[i].count);
      dirty := dirty[i := Interval(i * 16, 0)];
    }

    /** What is left to flush in an open section finds its clock running. */
    ghost predicate FlushReady()
      requires Shape()
      reads `hw, `dirty, `bus, `poweredOn, `playbackClockOn, `captureClockOn, regs
    {
      && (playbackClockOn && dirty[1].count > 0 ==> poweredOn && ClockSet(regs[0x00], 1))
      && (captureClockOn && dirty[2].count > 0 ==> poweredOn && ClockSet(regs[0x00], 2))
    }

    method CacheTryFlush()
      requires Shape() && FlushReady() && forall i | 0 <= i < 3 :: Coherent(i)
      modifies `hw, `bus, `dirty
      ensures Cached() && forall i | 0 <= i < 3 :: if Gate(i) then Synced(i) else dirty[i] == old(dirty[i])
    {
      var i := 0;
      while i < 3
        invariant 0 <= i <= 3 && Shape() && forall j | 0 <= j < 3 :: Coherent(j)
        invariant forall j | 0 <= j < i :: if Gate(j) then dirty[j].count == 0 else dirty[j] == old(dirty[j])
        invariant forall j | i <= j < 3 :: dirty[j] == old(dirty[j])
        invariant i > 0 && poweredOn ==> hw[0x00] == regs[0x00]
      {
        assert Coherent(0) && InSection(0, 0x00);
        if dirty[i].count > 0 && Gate(i) {
          label Before:
          CacheFlush1(i);
          forall j | 0 <= j < 3
            ensures Coherent(j)
          {
            assert j != i ==> old@Before(Coherent(j));
          }
        }
        i := i + 1;
      }
      forall j | 0 <= j < 3 && Gate(j)
        ensures Synced(j)
      {
        assert Coherent(j);
      }
    }

    /** Marks a zone of one section as changed: the section's interval becomes the
        hull of the old interval and the zone, and is flushed if the gate is open. */
    method CacheDirtyZone(start: nat, count: nat)
      requires Shape() && count > 0 && start / 16 < 3 && start + count <= start / 16 * 16 + Size(start / 16)
      requires forall i | 0 <= i < 3 && i != start / 16 :: Coherent(i)
      requires forall r: nat | InSection(start / 16, r) && !Within(Interval(start, count), r) ::
                 regs[r] == hw[r] || Within(dirty[start / 16], r)
      requires if start / 16 == 0 then FlushReady() else Ticking()
      modifies `hw, `bus, `dirty
      ensures Cached()
      ensures forall i | 0 <= i < 3 && i != start / 16 && !Gate(i) :: dirty[i] == old(dirty[i])
      ensures var i := start / 16; !Gate(i) && Interval(start, count) == Full(i) ==> dirty[i] == Full(i)
      ensures var i := start / 16; !Gate(i) && old(dirty[i]) == Full(i) ==> dirty[i] == Full(i)
    {
      MergeZone(start, count);
      CacheTryFlush();
    }

    /** The interval of the section becomes the hull of itself and the zone. */
    method MergeZone(start: nat, count: nat)
      requires Shape() && count > 0 && start / 16 < 3 && start + count <= start / 16 * 16 + Size(start / 16)
      requires forall i | 0 <= i < 3 && i != start / 16 :: Coherent(i)
      requires forall r: nat | InSection(start / 16, r) && !Within(Interval(start, count), r) ::
                 regs[r] == hw[r] || Within(dirty[start / 16], r)
      modifies `dirty
      ensures Shape() && forall i | 0 <= i < 3 :: Coherent(i)
      ensures forall i | 0 <= i < 3 && i != start / 16 :: dirty[i] == old(dirty[i])
      ensures var i := start / 16; Interval(start, count) == Full(i) || old(dirty[i]) == Full(i) ==> dirty[i] == Full(i)
    {
      var i := start / 16;
      var d := dirty[i];
      if d.count == 0 {
        dirty := dirty[i := Interval(start, count)];
      } else {
        var er0, er1 := d.start + d.count - 1, start + count - 1;
        var sr := if start <= d.start then start else d.start;
        var er := if er1 >= er0 then er1 else er0;
        dirty := dirty[i := Interval(sr, er - sr + 1)];
      }
      assert forall j | 0 <= j < 3 && j != i :: old(Coherent(j)) ==> Coherent(j);
    }

    method CacheDirtyAll()
      requires Shape() && !poweredOn && !playbackClockOn && !captureClockOn
      requires forall i | 0 <= i < 3 :: Coherent(i)
      modifies `hw, `bus, `dirty
      ensures Shape() && forall i | 0 <= i < 3 :: Coherent(i) && dirty[i] == Full(i)
    {
      CacheDirtyZone(0x00, 5);
      CacheDirtyZone(0x10, 5);
      CacheDirtyZone(0x20, 4);
    }

    /** One masked write to the cache. */
    method SetBits(reg: nat, val: nat, mask: nat)
      requires reg < regs.Length
      modifies regs
      ensures regs[reg] == WriteMask(old(regs[reg]), val, mask)
      ensures forall r: nat | r < regs.Length && r != reg :: regs[r] == old(regs[r])
    {
      regs[reg] := WriteMask(regs[reg], val, mask);
    }

    /** A masked write to a register whose section is open and synced, sent at once. */
    method SetBitsNow(reg: nat, val: nat, mask: nat)
      requires Cached()
      requires reg / 16 < 3 && InSection(reg / 16, reg) && Gate(reg / 16) && (reg >= 16 ==> Ticking())
      modifies regs, `hw, `bus
      ensures Cached() && (old(Flags()) ==> Flags())
      ensures regs[reg] == WriteMask(old(regs[reg]), val, mask)
      ensures forall r: nat | r < NREGS && r != reg :: regs[r] == old(regs[r])
    {
      GateClock(reg / 16);
      SetBits(reg, val, mask);
      HwsyncWrite(reg, 1);
      assert forall i | 0 <= i < 3 :: old(Coherent(i)) ==> Coherent(i);
    }

    // ----- Mixer -----

    /** `snd_uda1380_actl_reg_elem_int_put`. */
    method RegElemPut(c: Control, left: nat, right: nat)
      requires Valid() && c.reg / 16 < 3 && InSection(c.reg / 16, c.reg)
      modifies regs, `hw, `bus, `dirty
      ensures Cached() && Flags() && (c.reg != 0x00 && c.reg != 0x02 ==> Valid())
      ensures regs[c.reg] == PutReg(c, old(regs[c.reg]), left, right)
      ensures forall r: nat | r < NREGS && r != c.reg :: regs[r] == old(regs[r])
    {
      ClockedTicks();
      SetDirty(c.reg, PutReg(c, regs[c.reg], left, right));
    }

    /** A new word for one register of the cache, marked as changed. */
    method SetDirty(reg: nat, word: nat)
      requires Cached() && Flags() && Ticking() && reg / 16 < 3 && InSection(reg / 16, reg)
      modifies regs, `hw, `bus, `dirty
      ensures Cached() && Flags() && regs[reg] == word
      ensures forall r: nat | r < NREGS && r != reg :: regs[r] == old(regs[r])
    {
      regs[reg] := word;
      assert forall i | 0 <= i < 3 && i != reg / 16 :: old(Coherent(i)) ==> Coherent(i);
      assert old(Coherent(reg / 16));
      CacheDirtyZone(reg, 1);
    }

    method AgcSet(on: bool)
      requires Valid()
      modifies regs, `hw, `bus, `dirty
      ensures Valid() && regs[0x23] == WriteMask(old(regs[0x23]), if on then R23_AGC_EN else 0, R23_AGC_EN)
      ensures forall r: nat | r < NREGS && r != 0x23 :: regs[r] == old(regs[r])
    {
      ClockedTicks();
      SetBits(0x23, if on then R23_AGC_EN else 0, R23_AGC_EN);
      assert forall i | 0 <= i < 3 && i != 2 :: old(Coherent(i)) ==> Coherent(i);
      assert old(Coherent(2));
      CacheDirtyZone(0x23, 1);
    }

    method PlaybackSwitchSet(on: bool)
      requires Valid()
      modifies regs, `hw, `bus, `playbackSwitch
      ensures Valid() && playbackSwitch == on
      ensures regs[0x13] == if playbackOn then WriteMask(old(regs[0x13]), if on then 0 else R13_MTM, R13_MTM)
                            else old(regs[0x13])
      ensures forall r: nat | r < NREGS && r != 0x13 :: regs[r] == old(regs[r])
    {
      ClockedTicks();
      playbackSwitch := on;
      if playbackOn {
        SetBitsNow(0x13, if on then 0 else R13_MTM, R13_MTM);
      }
    }

    method CaptureSwitchSet(on: bool)
      requires Valid()
      modifies regs, `hw, `bus, `captureSwitch, `captureWanted
      ensures Valid() && captureSwitch == on && captureWanted == (if captureOn then on else old(captureWanted))
      ensures regs[0x21] == if captureOn then WriteMask(old(regs[0x21]), if on then 0 else R21_MT_ADC, R21_MT_ADC)
                            else old(regs[0x21])
      ensures forall r: nat | r < NREGS && r != 0x21 :: regs[r] == old(regs[r])
    {
      captureSwitch := on;
      if captureOn {
        captureWanted := on;
        MuteCapture(!on);
      }
    }

    method MuteCapture(mute: bool)
      requires Valid() && captureOn
      modifies regs, `hw, `bus
      ensures Valid() && regs[0x21] == WriteMask(old(regs[0x21]), if mute then R21_MT_ADC else 0, R21_MT_ADC)
      ensures forall r: nat | r < NREGS && r != 0x21 :: regs[r] == old(regs[r])
    {
      ClockedTicks();
      SetBitsNow(0x21, if mute then R21_MT_ADC else 0, R21_MT_ADC);
    }

    method HpConnected(connected: bool)
      requires Valid()
      modifies regs, `hw, `bus, `hpConnected
      ensures Valid() && hpConnected == connected
      ensures regs[0x02] == if connected != old(hpConnected) && playbackOn
                            then WriteMask(old(regs[0x02]), if connected then R02_PON_HP else 0, R02_PON_HP)
                            else old(regs[0x02])
      ensures forall r: nat | r < NREGS && r != 0x02 :: regs[r] == old(regs[r])
    {
      ClockedTicks();
      HeadphoneKeepsClock(regs[0x00], regs[0x02], if connected then R02_PON_HP else 0,
                          playbackClockOn, captureClockOn);
      if connected != hpConnected {
        hpConnected := connected;
        if playbackOn {
          SetBitsNow(0x02, if connected then R02_PON_HP else 0, R02_PON_HP);
        }
      }
    }

    /** The cache follows the selected source only while capture is on. */
    method SelectCaptureSource(mic: bool)
      requires Valid()
      modifies regs, `hw, `bus, `captureMic
      ensures Valid() && captureMic == mic
      ensures forall r: nat | r < NREGS && r != 0x02 && r != 0x22 :: regs[r] == old(regs[r])
      ensures Words() == if captureOn && MicSelected(old(Words())) != mic then SourceSwitched(old(Words()), mic)
                         else old(Words())
      ensures MicSelected(Words()) == mic <==> captureOn || MicSelected(old(Words())) == mic
    {
      SwitchedSelects(Words(), mic);
      SourceSwitchedClock(Words(), mic, playbackClockOn, captureClockOn);
      captureMic := mic;
      if mic == (And(regs[0x22], R22_SEL_MIC) == R22_SEL_MIC) {
        return;
      }
      if captureOn {
        SwitchSource(mic);
      }
    }

    method SwitchSource(mic: bool)
      requires Cached() && Flags() && Clocked() && captureOn
      modifies regs, `hw, `bus
      ensures Cached() && Flags() && Words() == SourceSwitched(old(Words()), mic)
      ensures forall r: nat | r < NREGS && r != 0x02 && r != 0x22 :: regs[r] == old(regs[r])
    {
      ClockedTicks();
      if mic {
        SetBitsNow(0x02, R02_PON_LNA, R02_PON_LNA);
        SetBitsNow(0x22, R22_SEL_LNA + R22_SEL_MIC, R22_SEL_LNA + R22_SEL_MIC);
        SetBitsNow(0x02, 0, R02_PON_PGA);
      } else {
        SetBitsNow(0x02, R02_PON_PGA, R02_PON_PGA);
        SetBitsNow(0x22, 0, R22_SEL_LNA + R22_SEL_MIC);
        SetBitsNow(0x02, 0, R02_PON_LNA);
      }
    }

    // ----- Codec control -----

    /** `_wait_mute`: polls a status register, which the codec changes by itself. */
    method WaitMute(reg: nat, on: bool) returns (ok: bool)
      requires Cached() && (reg == 0x18 || reg == 0x28)
      modifies regs, `hw
      ensures Cached() && forall r: nat | r < NREGS && r != reg :: regs[r] == old(regs[r])
      ensures ok <==> (And(regs[reg], MUTE_STATE) == MUTE_STATE) == on
    {
      var timeout := 50;
      PollStatus(reg);
      while (And(regs[reg], MUTE_STATE) == MUTE_STATE) != on
        invariant Cached() && 0 < timeout && forall r: nat | r < NREGS && r != reg :: regs[r] == old(regs[r])
        decreases timeout
      {
        timeout := timeout - 1;
        if timeout == 0 {
          return false;
        }
        PollStatus(reg);
      }
      ok := true;
    }

    method PollStatus(reg: nat)
      requires Cached() && (reg == 0x18 || reg == 0x28)
      modifies regs, `hw
      ensures Cached() && forall r: nat | r < NREGS && r != reg :: regs[r] == old(regs[r])
    {
      var status: nat := *;
      hw := hw[reg := status];
      HwsyncRead1(reg);
      assert forall i | 0 <= i < 3 :: old(Coherent(i)) ==> Coherent(i);
    }

    /** Two masked writes to the power registers, sent together. */
    method SetPower(val0: nat, mask0: nat, val2: nat, mask2: nat)
      requires Shape() && poweredOn && dirty[0].count == 0 && forall i | 0 <= i < 3 :: Coherent(i)
      modifies regs, `hw, `bus
      ensures Shape() && forall i | 0 <= i < 3 :: Coherent(i)
      ensures regs[0] == WriteMask(old(regs[0]), val0, mask0) && regs[2] == WriteMask(old(regs[2]), val2, mask2)
      ensures forall r: nat | r < NREGS && r != 0 && r != 2 :: regs[r] == old(regs[r])
    {
      SetBits(0x00, val0, mask0);
      SetBits(0x02, val2, mask2);
      HwsyncWrite(0x00, 3);
      assert forall i | 0 <= i < 3 :: old(Coherent(i)) ==> Coherent(i);
    }

    method PlaybackPower()
      requires Cached() && poweredOn && Clocked() && !playbackClockOn
      modifies regs, `hw, `bus, `dirty, `playbackClockOn
      ensures Cached() && Clocked() && playbackClockOn
      ensures forall i | 0 <= i < 3 && !Gate(i) :: dirty[i] == old(dirty[i])
      ensures forall r: nat | r < NREGS && r != 0x00 && r != 0x02 :: regs[r] == old(regs[r])
      ensures Words() == PlaybackPowered(old(Words()), hpConnected)
    {
      ClockedTicks();
      PlaybackStartedClock(Words(), false, hpConnected, captureClockOn);
      var val := R02_PON_DAC + (if hpConnected then R02_PON_HP else 0);
      SetPower(R00_DAC_INT, R00_DAC_INT, val, R02_PON_HP + R02_PON_DAC);
      playbackClockOn := true;
      ClockedTicks();
      CacheTryFlush();
    }

    method PlaybackUnmute()
      requires Cached() && playbackClockOn && Ticking()
      modifies regs, `hw, `bus
      ensures Cached() && forall r: nat | r < NREGS && r != 0x13 && r != 0x18 :: regs[r] == old(regs[r])
      ensures regs[0x13] == if playbackSwitch then WriteMask(old(regs[0x13]), 0, R13_MTM) else old(regs[0x13])
    {
      if playbackSwitch {
        SetBitsNow(0x13, 0, R13_MTM);
        var _ := WaitMute(0x18, false);
      }
    }

    method PlaybackTurnOn()
      requires Cached() && Clocked() && poweredOn && playbackClockOn == playbackOn
      modifies regs, `hw, `bus, `dirty, `playbackClockOn, `playbackOn
      ensures Cached() && Clocked() && playbackOn && playbackClockOn
      ensures forall i | 0 <= i < 3 && !Gate(i) :: dirty[i] == old(dirty[i])
      ensures Others(old(regs[..]))
      ensures Words() == if old(playbackOn) then old(Words())
                         else PlaybackStarted(old(Words()), playbackSwitch, hpConnected)
    {
      if playbackOn {
        return;
      }
      PlaybackStartedClock(Words(), playbackSwitch, hpConnected, captureClockOn);
      PlaybackPower();
      ClockedTicks();
      PlaybackUnmute();
      playbackOn := true;
    }

    method PlaybackMute()
      requires Cached() && playbackClockOn && Ticking()
      modifies regs, `hw, `bus
      ensures Cached() && forall r: nat | r < NREGS && r != 0x13 && r != 0x18 :: regs[r] == old(regs[r])
      ensures regs[0x13] == if Clear(old(regs[0x13]), R13_MTM) then WriteMask(old(regs[0x13]), R13_MTM, R13_MTM)
                            else old(regs[0x13])
    {
      if And(regs[0x13], R13_MTM) == 0 {
        SetBitsNow(0x13, R13_MTM, R13_MTM);
      }
      var _ := WaitMute(0x18, true);
    }

    method PlaybackTurnOff()
      requires Cached() && Clocked() && playbackClockOn == playbackOn && (playbackOn ==> poweredOn)
      modifies regs, `hw, `bus, `playbackClockOn, `playbackOn
      ensures Cached() && Clocked() && !playbackOn && !playbackClockOn
      ensures Others(old(regs[..]))
      ensures Words() == if old(playbackOn) then PlaybackStopped(old(Words())) else old(Words())
    {
      ClockedTicks();
      if !playbackOn {
        return;
      }
      PlaybackStoppedClock(Words(), captureClockOn);
      playbackOn := false;
      PlaybackMute();
      playbackClockOn := false;
      SetPower(0, R00_DAC_INT, 0, R02_PON_HP + R02_PON_DAC);
    }

    method CaptureClock()
      requires Cached() && poweredOn && Clocked() && !captureClockOn
      modifies regs, `hw, `bus, `dirty, `captureClockOn
      ensures Cached() && Ticking() && captureClockOn
      ensures forall i | 0 <= i < 3 && !Gate(i) :: dirty[i] == old(dirty[i])
      ensures regs[0x00] == WriteMask(old(regs[0x00]), R00_ADC_DEC, R00_ADC_DEC)
      ensures forall r: nat | r < NREGS && r != 0x00 :: regs[r] == old(regs[r])
    {
      ClockedTicks();
      CaptureClockRuns(regs[0x00]);
      SetBitsNow(0x00, R00_ADC_DEC, R00_ADC_DEC);
      captureClockOn := true;
      CacheTryFlush();
    }

    method CapturePower()
      requires Cached() && poweredOn && Clocked() && !captureClockOn
      modifies regs, `hw, `bus, `dirty, `captureClockOn
      ensures Cached() && Clocked() && captureClockOn
      ensures forall i | 0 <= i < 3 && !Gate(i) :: dirty[i] == old(dirty[i])
      ensures forall r: nat | r < NREGS && r != 0x00 && r != 0x02 :: regs[r] == old(regs[r])
      ensures Words() == CapturePowered(old(Words()))
    {
      CaptureStartedClock(Words(), false, playbackClockOn);
      CaptureClock();
      var input := if And(regs[0x22], R22_SEL_MIC) != 0 then R02_PON_LNA else R02_PON_PGA;
      SetBitsNow(0x02, R02_PON_ADC + input, R02_PON_ADC + R02_PON_LNA + R02_PON_PGA);
    }

    /** Unmutes on the playback switch: the capture switch is not looked at. */
    method CaptureUnmute()
      requires Cached() && captureClockOn && Ticking()
      modifies regs, `hw, `bus
      ensures Cached() && forall r: nat | r < NREGS && r != 0x21 && r != 0x28 :: regs[r] == old(regs[r])
      ensures regs[0x21] == if playbackSwitch then WriteMask(old(regs[0x21]), 0, R21_MT_ADC) else old(regs[0x21])
    {
      if playbackSwitch {
        SetBitsNow(0x21, 0, R21_MT_ADC);
        var _ := WaitMute(0x28, false);
      }
    }

    /** Capture then runs unmuted just when the playback switch is on or its mute was off
        before, and from the amplifier of the wanted source just when the registers
        select that source already. */
    method CaptureTurnOn()
      requires Cached() && Clocked() && poweredOn && captureClockOn == captureOn
      modifies regs, `hw, `bus, `dirty, `captureClockOn, `captureOn, `captureWanted
      ensures Cached() && Clocked() && captureOn && captureClockOn
      ensures captureWanted == if old(captureOn) then old(captureWanted) else playbackSwitch
      ensures forall i | 0 <= i < 3 && !Gate(i) :: dirty[i] == old(dirty[i])
      ensures Others(old(regs[..]))
      ensures Words() == if old(captureOn) then old(Words()) else CaptureStarted(old(Words()), playbackSwitch)
      ensures !old(captureOn) ==>
                && (Clear(regs[0x21], R21_MT_ADC) == captureSwitch
                    <==> (playbackSwitch || Clear(old(regs[0x21]), R21_MT_ADC)) == captureSwitch)
                && (AmplifierFor(Words(), captureMic) <==> MicSelected(old(Words())) == captureMic)
    {
      UnmuteMatches(Words(), playbackSwitch, captureSwitch);
      AmplifierIffSelected(Words(), playbackSwitch, captureMic);
      if !captureOn {
        CaptureStart();
      }
    }

    method CaptureStart()
      requires Cached() && Clocked() && poweredOn && !captureClockOn && !captureOn
      modifies regs, `hw, `bus, `dirty, `captureClockOn, `captureOn, `captureWanted
      ensures Cached() && Clocked() && captureOn && captureClockOn && captureWanted == playbackSwitch
      ensures forall i | 0 <= i < 3 && !Gate(i) :: dirty[i] == old(dirty[i])
      ensures Others(old(regs[..])) && Words() == CaptureStarted(old(Words()), playbackSwitch)
    {
      CaptureStartedClock(Words(), playbackSwitch, playbackClockOn);
      CapturePower();
      ClockedTicks();
      CaptureUnmute();
      captureOn, captureWanted := true, playbackSwitch;
    }

    method CaptureMute()
      requires Cached() && captureClockOn && Ticking()
      modifies regs, `hw, `bus
      ensures Cached() && forall r: nat | r < NREGS && r != 0x21 && r != 0x28 :: regs[r] == old(regs[r])
      ensures regs[0x21] == if Clear(old(regs[0x21]), R21_MT_ADC)
                            then WriteMask(old(regs[0x21]), R21_MT_ADC, R21_MT_ADC) else old(regs[0x21])
    {
      if And(regs[0x21], R21_MT_ADC) == 0 {
        SetBitsNow(0x21, R21_MT_ADC, R21_MT_ADC);
      }
      var _ := WaitMute(0x28, true);
    }

    method CaptureTurnOff()
      requires Cached() && Clocked() && captureClockOn == captureOn && (captureOn ==> poweredOn)
      modifies regs, `hw, `bus, `captureClockOn, `captureOn
      ensures Cached() && Clocked() && !captureOn && !captureClockOn
      ensures Others(old(regs[..]))
      ensures Words() == if old(captureOn) then CaptureStopped(old(Words())) else old(Words())
    {
      ClockedTicks();
      if !captureOn {
        return;
      }
      CaptureStoppedClock(Words(), playbackClockOn);
      captureOn := false;
      CaptureMute();
      captureClockOn := false;
      SetPower(0, R00_ADC_DEC, 0, R02_PON_ADC + R02_PON_LNA + R02_PON_PGA);
    }

    // ----- Streams, suspend and resume -----

    /** The words once a stream is turned on, from those before. */
    ghost function TurnedOn(w: Words, playback: bool): Words
      reads `playbackOn, `captureOn, `playbackSwitch, `hpConnected
    {
      if playback then (if playbackOn then w else PlaybackStarted(w, playbackSwitch, hpConnected))
      else if captureOn then w else CaptureStarted(w, playbackSwitch)
    }

    method TurnOn(playback: bool)
      requires Cached() && Clocked() && poweredOn && playbackClockOn == playbackOn && captureClockOn == captureOn
      modifies regs, `hw, `bus, `dirty, `playbackClockOn, `playbackOn, `captureClockOn, `captureOn, `captureWanted
      ensures Cached() && Clocked() && playbackClockOn == playbackOn && captureClockOn == captureOn
      ensures playbackOn == (old(playbackOn) || playback) && captureOn == (old(captureOn) || !playback)
      ensures captureWanted == if playback || old(captureOn) then old(captureWanted) else playbackSwitch
      ensures Words() == old(TurnedOn(Words(), playback)) && MixerKept(old(regs[..]))
    {
      if playback {
        PlaybackTurnOn();
      } else {
        CaptureTurnOn();
      }
      CoversKept(old(regs[..]), old(Words()));
    }

    method OpenStream(playback: bool)
      requires Valid() && poweredOn
      modifies regs, `hw, `bus, `dirty, `playbackClockOn, `playbackOn, `captureClockOn, `captureOn, `captureWanted,
        `playbackOpened, `captureOpened
      ensures Valid() && poweredOn
      ensures playbackOpened == (old(playbackOpened) || playback) && captureOpened == (old(captureOpened) || !playback)
      ensures captureWanted == if playback || old(captureOn) then old(captureWanted) else playbackSwitch
      ensures Synced(if playback then 1 else 2)
      ensures Words() == old(TurnedOn(Words(), playback)) && MixerKept(old(regs[..]))
    {
      if playback {
        playbackOpened := true;
      } else {
        captureOpened := true;
      }
      TurnOn(playback);
      OpenIsSynced(if playback then 1 else 2);
    }

    method TurnOff(playback: bool)
      requires Cached() && Clocked() && playbackClockOn == playbackOn && captureClockOn == captureOn
      requires playbackOn || captureOn ==> poweredOn
      modifies regs, `hw, `bus, `playbackClockOn, `playbackOn, `captureClockOn, `captureOn
      ensures Cached() && Clocked() && playbackClockOn == playbackOn && captureClockOn == captureOn
      ensures playbackOn == (old(playbackOn) && !playback) && captureOn == (old(captureOn) && playback)
      ensures Words() == old(TurnedOff(Words(), playback)) && MixerKept(old(regs[..]))
    {
      if playback {
        PlaybackTurnOff();
      } else {
        CaptureTurnOff();
      }
      CoversKept(old(regs[..]), old(Words()));
    }

    ghost function TurnedOff(w: Words, playback: bool): Words
      reads `playbackOn, `captureOn
    {
      if playback then (if playbackOn then PlaybackStopped(w) else w)
      else if captureOn then CaptureStopped(w) else w
    }

    method CloseStream(playback: bool)
      requires Valid()
      modifies regs, `hw, `bus, `playbackClockOn, `playbackOn, `captureClockOn, `captureOn,
        `playbackOpened, `captureOpened
      ensures Valid() && poweredOn == old(poweredOn)
      ensures playbackOpened == (old(playbackOpened) && !playback) && captureOpened == (old(captureOpened) && playback)
      ensures Words() == old(TurnedOff(Words(), playback)) && MixerKept(old(regs[..]))
    {
      if playback {
        playbackOpened := false;
      } else {
        captureOpened := false;
      }
      TurnOff(playback);
    }

    method Suspend()
      requires Valid()
      modifies regs, `hw, `bus, `dirty, `playbackClockOn, `playbackOn, `captureClockOn, `captureOn, `poweredOn
      ensures Valid() && !poweredOn && MixerKept(old(regs[..]))
      ensures Words() == old(TurnedOff(TurnedOff(Words(), true), false))
    {
      if playbackOn {
        TurnOff(true);
      }
      label Mid:
      if captureOn {
        TurnOff(false);
      }
      KeptTrans(old(regs[..]), old@Mid(regs[..]));
      poweredOn := false;
      CacheDirtyAll();
    }

    /** The words once the opened streams are turned on again after a reset. */
    ghost function Resumed(w: Words): Words
      reads `playbackOpened, `captureOpened, `playbackSwitch, `hpConnected
    {
      var p := if playbackOpened then PlaybackStarted(w, playbackSwitch, hpConnected) else w;
      if captureOpened then CaptureStarted(p, playbackSwitch) else p
    }

    /** The reset leaves `reset` in the codec, whatever that is. */
    method Resume(reset: seq<nat>)
      requires Valid() && !poweredOn && |reset| == NREGS
      modifies regs, `hw, `bus, `dirty, `playbackClockOn, `playbackOn, `captureClockOn, `captureOn,
        `captureWanted, `poweredOn
      ensures Valid() && poweredOn && Synced(0)
      ensures playbackOn == playbackOpened && captureOn == captureOpened
      ensures captureWanted == if captureOpened then playbackSwitch else old(captureWanted)
      ensures (playbackOpened ==> Synced(1)) && (captureOpened ==> Synced(2))
      ensures Words() == Resumed(old(Words())) && MixerKept(old(regs[..]))
    {
      PowerOn(reset);
      Restart();
      forall i | 0 <= i < 3 && Gate(i)
        ensures Synced(i)
      {
        OpenIsSynced(i);
      }
    }

    method PowerOn(reset: seq<nat>)
      requires Valid() && !poweredOn && |reset| == NREGS
      modifies `hw, `bus, `dirty, `poweredOn
      ensures Cached() && poweredOn && Clocked()
    {
      hw := reset;
      poweredOn := true;
      CacheTryFlush();
    }

    /** Turns the opened streams on again. */
    method Restart()
      requires Cached() && Clocked() && poweredOn && !playbackClockOn && !playbackOn && !captureClockOn && !captureOn
      modifies regs, `hw, `bus, `dirty, `playbackClockOn, `playbackOn, `captureClockOn, `captureOn, `captureWanted
      ensures Cached() && Clocked()
      ensures playbackClockOn == playbackOn == playbackOpened && captureClockOn == captureOn == captureOpened
      ensures captureWanted == if captureOpened then playbackSwitch else old(captureWanted)
      ensures Words() == Resumed(old(Words())) && MixerKept(old(regs[..]))
    {
      if playbackOpened {
        TurnOn(true);
      }
      ghost var mid := regs[..];
      if captureOpened {
        TurnOn(false);
      }
      KeptTrans(old(regs[..]), mid);
    }

    // ----- What the mixer sees -----

    /** Apart from the power registers and the mute bits, the mixer's registers are as they were. */
    ghost predicate MixerKept(before: seq<nat>)
      reads regs
    {
      regs.Length == NREGS == |before| && SameMixer(before, regs[..])
    }

    lemma CoversKept(before: seq<nat>, w: Words)
      requires Others(before) && w.r13 == before[0x13] && w.r21 == before[0x21] && w.r22 == before[0x22]
      requires Words().r13 == w.r13 || exists v: nat :: Words().r13 == WriteMask(w.r13, v, R13_MTM)
      requires Words().r21 == w.r21 || exists v: nat :: Words().r21 == WriteMask(w.r21, v, R21_MT_ADC)
      ensures MixerKept(before)
    {
      if v: nat :| regs[0x13] == WriteMask(before[0x13], v, R13_MTM) {
        OutsideMask(before[0x13], v, R13_MTM);
      }
      if v: nat :| regs[0x21] == WriteMask(before[0x21], v, R21_MT_ADC) {
        OutsideMask(before[0x21], v, R21_MT_ADC);
      }
    }

    lemma KeptTrans(before: seq<nat>, mid: seq<nat>)
      requires regs.Length == NREGS == |before| == |mid| && SameMixer(before, mid) && MixerKept(mid)
      ensures MixerKept(before)
    {
    }

    // ----- Runs -----

    /** The call is one the driver allows: streams open and the codec resumes only
        when the power is as it must be. */
    predicate Allowed(op: Op)
      reads `poweredOn
    {
      match op
      case Put(p) => p.i < |CONTROLS|
      case Open(_) => poweredOn
      case ResumeOp(reset) => !poweredOn && |reset| == NREGS
      case _ => true
    }

    /** The mutes and the headphone amplifier are as the switches and the plug ask. What the
        capture mute follows is not always the capture switch. */
    ghost predicate Requests()
      requires regs.Length == NREGS
      reads regs, `playbackOn, `playbackSwitch, `hpConnected, `captureOn, `captureWanted
    {
      Obeys(Words(), playbackOn, playbackSwitch, hpConnected, captureOn, captureWanted)
    }

    /** While capture is on, just the amplifier of the selected input has power. */
    ghost predicate InputPowered()
      requires regs.Length == NREGS
      reads regs, `captureOn
    {
      Powered(Words(), captureOn)
    }

    method Do(op: Op)
      requires Valid() && Allowed(op)
      modifies this, regs
      ensures Valid() && (old(Requests()) ==> Requests()) && (old(InputPowered()) ==> InputPowered())
    {
      match op {
        case Put(p) =>
          PutKeepsMutes(p.i, regs[CONTROLS[p.i].reg], p.left, p.right);
          if CONTROLS[p.i].reg == 0x22 {
            PutKeepsSelection(p.i, regs[0x22], p.left, p.right);
          }
          RegElemPut(CONTROLS[p.i], p.left, p.right);
        case Agc(on) => AgcSet(on);
        case Open(playback) => DoOpen(playback);
        case Close(playback) => DoClose(playback);
        case SuspendOp => DoSuspend();
        case ResumeOp(reset) => DoResume(reset);
        case _ => DoSwitch(op);
      }
    }

    method DoSwitch(op: Op)
      requires Valid() && (op.PlaybackSwitch? || op.CaptureSwitch? || op.Headphone? || op.Source?)
      modifies this, regs
      ensures Valid() && (old(Requests()) ==> Requests()) && (old(InputPowered()) ==> InputPowered())
    {
      ghost var w := Words();
      match op {
        case PlaybackSwitch(on) =>
          PlaybackSwitchSet(on);
          MuteWritten(w.r13, R13_MTM, on);
        case CaptureSwitch(on) =>
          CaptureSwitchSet(on);
          MuteWritten(w.r21, R21_MT_ADC, on);
        case Headphone(connected) =>
          HpConnected(connected);
          MuteWritten(w.r02, R02_PON_HP, !connected);
          PlaybackKeepsInputs(w, if connected then R02_PON_HP else 0, R02_PON_HP, captureOn);
        case Source(mic) =>
          SourceSwitchedObeys(w, mic, playbackOn, playbackSwitch, hpConnected, captureOn, captureWanted);
          SourceSwitchedPowered(w, mic);
          SelectCaptureSource(mic);
      }
    }

    method DoOpen(playback: bool)
      requires Valid() && poweredOn
      modifies this, regs
      ensures Valid() && (old(Requests()) ==> Requests()) && (old(InputPowered()) ==> InputPowered())
    {
      ghost var w := Words();
      OpenStream(playback);
      PlaybackStartedObeys(w, playbackSwitch, hpConnected, captureOn, captureWanted);
      CaptureStartedObeys(w, playbackOn, playbackSwitch, hpConnected, old(captureWanted));
      PlaybackStartedPowered(w, playbackSwitch, hpConnected, captureOn);
      CaptureStartedPowered(w, playbackSwitch);
    }

    method DoClose(playback: bool)
      requires Valid()
      modifies this, regs
      ensures Valid() && (old(Requests()) ==> Requests()) && (old(InputPowered()) ==> InputPowered())
    {
      ghost var w := Words();
      CloseStream(playback);
      PlaybackStoppedObeys(w, playbackSwitch, hpConnected, captureOn, captureWanted);
      CaptureStoppedObeys(w, playbackOn, playbackSwitch, hpConnected, captureWanted);
      PlaybackStoppedPowered(w, captureOn);
    }

    method DoSuspend()
      requires Valid()
      modifies this, regs
      ensures Valid() && (old(Requests()) ==> Requests()) && (old(InputPowered()) ==> InputPowered())
    {
      ghost var w, p := Words(), TurnedOff(Words(), true);
      Suspend();
      PlaybackStoppedObeys(w, playbackSwitch, hpConnected, old(captureOn), captureWanted);
      CaptureStoppedObeys(p, false, playbackSwitch, hpConnected, captureWanted);
    }

    method DoResume(reset: seq<nat>)
      requires Valid() && !poweredOn && |reset| == NREGS
      modifies this, regs
      ensures Valid() && (old(Requests()) ==> Requests()) && (old(InputPowered()) ==> InputPowered())
    {
      ghost var w := Words();
      ghost var p := if playbackOpened then PlaybackStarted(w, playbackSwitch, hpConnected) else w;
      Resume(reset);
      PlaybackStartedObeys(w, playbackSwitch, hpConnected, false, old(captureWanted));
      CaptureStartedObeys(p, playbackOn, playbackSwitch, hpConnected, old(captureWanted));
      CaptureStartedPowered(p, playbackSwitch);
    }

    /** Coherence and the safety of every bus write hold over every run; and from a state in
        which mutes and headphone amplifier are as asked, or the selected input has power
        while capture is on, they stay so. */
    method Run(ops: seq<Op>)
      requires Valid()
      modifies this, regs
      ensures Valid() && (old(Requests()) ==> Requests()) && (old(InputPowered()) ==> InputPowered())
    {
      for n := 0 to |ops|
        invariant Valid() && (old(Requests()) ==> Requests()) && (old(InputPowered()) ==> InputPowered())
      {
        if Allowed(ops[n]) {
          Do(ops[n]);
        }
      }
    }

    /** Any number of mixer writes. */
    method PutMany(puts: seq<Put>)
      requires Valid() && InRange(puts)
      modifies regs, `hw, `bus, `dirty
      ensures Valid() && SameMixer(PutAll(old(regs[..]), puts), regs[..])
    {
      for n := 0 to |puts|
        invariant Valid() && SameMixer(PutAll(old(regs[..]), puts[..n]), regs[..])
      {
        assert puts[..n + 1][..n] == puts[..n];
        PutNext(puts[n], PutAll(old(regs[..]), puts[..n]));
      }
      assert puts[..|puts|] == puts;
    }

    method PutNext(p: Put, ghost goal: seq<nat>)
      requires Valid() && PutFits(p) && |goal| == NREGS && SameMixer(goal, regs[..])
      modifies regs, `hw, `bus, `dirty
      ensures Valid() && SameMixer(PutOne(goal, p), regs[..])
    {
      ghost var before := regs[..];
      RegElemPut(CONTROLS[p.i], p.left, p.right);
      assert regs[..] == PutOne(before, p);
      PutSame(goal, before, p);
    }

    /** Suspend, mixer writes, resume: codec and cache agree wherever a gate is
        open, streams are on as they are opened, and every control that was set
        reads the last value it was given, whatever the reset left behind. */
    method SuspendPutsResume(puts: seq<Put>, reset: seq<nat>)
      requires Valid() && InRange(puts) && |reset| == NREGS
      modifies this, regs
      ensures Valid() && poweredOn && Synced(0)
      ensures playbackOn == playbackOpened == old(playbackOpened) && captureOn == captureOpened == old(captureOpened)
      ensures (playbackOpened ==> Synced(1)) && (captureOpened ==> Synced(2))
      ensures forall i | 0 <= i < |CONTROLS| ::
                var c := CONTROLS[i];
                match LastPut(puts, i)
                case None => GetReg(c, regs[c.reg]) == GetReg(c, old(regs[c.reg]))
                case Last(left, right) => GetReg(c, regs[c.reg]) == (left, if c.stereo then right else 0)
    {
      ghost var before := regs[..];
      Suspend();
      ghost var suspended := regs[..];
      PutMany(puts);
      ghost var written := regs[..];
      Resume(reset);
      forall i | 0 <= i < |CONTROLS|
        ensures GetReg(CONTROLS[i], regs[CONTROLS[i].reg]) == PutValue(before, puts, i)
      {
        ReadsThroughMutes(written, regs[..], i);
        ReadsThroughMutes(PutAll(suspended, puts), written, i);
        LastPutWins(suspended, puts, i);
        ReadsThroughMutes(before, suspended, i);
      }
    }
  }

  predicate IsMixerReg(r: nat) {
    r in {0x10, 0x11, 0x12, 0x13, 0x14, 0x20, 0x21, 0x22, 0x23}
  }

  /** Two words that differ at most in the bits of `mask`. */
  predicate SameOutside(mask: nat, a: nat, b: nat) {
    AndNot(a, mask) == AndNot(b, mask)
  }

  ghost predicate SameMixer(a: seq<nat>, b: seq<nat>)
    requires |a| == |b| == NREGS
  {
    forall r: nat | IsMixerReg(r) :: SameOutside(MuteBits(r), a[r], b[r])
  }

  // ----- Sequences of mixer writes -----

  datatype Put = Put(i: nat, left: nat, right: nat)

  datatype Op =
    | Put(p: Put)
    | PlaybackSwitch(on: bool)
    | CaptureSwitch(on: bool)
    | Agc(on: bool)
    | Headphone(connected: bool)
    | Source(mic: bool)
    | Open(playback: bool)
    | Close(playback: bool)
    | SuspendOp
    | ResumeOp(reset: seq<nat>)

  /** The values that a control accepts. */
  predicate PutFits(p: Put) {
    p.i < |CONTROLS| && p.left <= ChannelMask(CONTROLS[p.i]) && p.right <= ChannelMask(CONTROLS[p.i])
  }

  predicate InRange(puts: seq<Put>) {
    forall n | 0 <= n < |puts| :: PutFits(puts[n])
  }

  function PutOne(regs: seq<nat>, p: Put): seq<nat>
    requires |regs| == NREGS && p.i < |CONTROLS|
  {
    var c := CONTROLS[p.i];
    regs[c.reg := PutReg(c, regs[c.reg], p.left, p.right)]
  }

  function PutAll(regs: seq<nat>, puts: seq<Put>): (r: seq<nat>)
    requires |regs| == NREGS && InRange(puts)
    ensures |r| == NREGS
  {
    if puts == [] then regs else PutOne(PutAll(regs, puts[..|puts| - 1]), puts[|puts| - 1])
  }

  datatype LastValue = None | Last(left: nat, right: nat)

  function LastPut(puts: seq<Put>, i: nat): LastValue {
    if puts == [] then None
    else
      var p := puts[|puts| - 1];
      if p.i == i then Last(p.left, p.right) else LastPut(puts[..|puts| - 1], i)
  }

  /** What control `i` reads once the writes are done. */
  function PutValue(regs: seq<nat>, puts: seq<Put>, i: nat): (nat, nat)
    requires |regs| == NREGS && i < |CONTROLS|
  {
    match LastPut(puts, i)
    case None => GetReg(CONTROLS[i], regs[CONTROLS[i].reg])
    case Last(left, right) => (left, if CONTROLS[i].stereo then right else 0)
  }

  lemma PutSame(a: seq<nat>, b: seq<nat>, p: Put)
    requires |a| == |b| == NREGS && p.i < |CONTROLS| && SameMixer(a, b)
    ensures SameMixer(PutOne(a, p), PutOne(b, p))
  {
    var c := CONTROLS[p.i];
    assert IsMixerReg(c.reg);
    WriteOutside(a[c.reg], b[c.reg], Shl(Pack(c, p.left, p.right), c.shift), FieldMask(c), MuteBits(c.reg));
  }

  lemma ReadsThroughMutes(a: seq<nat>, b: seq<nat>, i: nat)
    requires |a| == |b| == NREGS && SameMixer(a, b) && i < |CONTROLS|
    ensures GetReg(CONTROLS[i], a[CONTROLS[i].reg]) == GetReg(CONTROLS[i], b[CONTROLS[i].reg])
  {
    var c := CONTROLS[i];
    assert IsMixerReg(c.reg);
    ControlTable(i);
    SeenOutside(a[c.reg], b[c.reg], FieldMask(c), MuteBits(c.reg));
    GetSeesField(c, a[c.reg], b[c.reg]);
  }

  /** One write sets its own control and leaves the others alone. */
  lemma PutOneReads(regs: seq<nat>, p: Put, i: nat)
    requires |regs| == NREGS && PutFits(p) && i < |CONTROLS|
    ensures GetReg(CONTROLS[i], PutOne(regs, p)[CONTROLS[i].reg])
         == if p.i == i then (p.left, if CONTROLS[i].stereo then p.right else 0)
            else GetReg(CONTROLS[i], regs[CONTROLS[i].reg])
  {
    var c, d := CONTROLS[p.i], CONTROLS[i];
    if p.i == i {
      ControlTable(i);
      GetAfterPut(d, regs[d.reg], p.left, p.right);
    } else if c.reg == d.reg {
      ControlsApart(p.i, i);
      ControlsIndependent(c, d, regs[d.reg], p.left, p.right);
    }
  }

  /** A control keeps its last value through writes to all the others. */
  lemma {:induction false} LastPutWins(regs: seq<nat>, puts: seq<Put>, i: nat)
    requires |regs| == NREGS && InRange(puts) && i < |CONTROLS|
    ensures GetReg(CONTROLS[i], PutAll(regs, puts)[CONTROLS[i].reg]) == PutValue(regs, puts, i)
  {
    if puts != [] {
      var front, p := puts[..|puts| - 1], puts[|puts| - 1];
      PutOneReads(PutAll(regs, front), p, i);
      if p.i != i {
        LastPutWins(regs, front, i);
      }
    }
  }

  // ----- Calls after which the codec does not do as it was told -----

  /** A codec as it is activated with the line input as its source. */
  method Activated(reset: seq<nat>) returns (c: Codec)
    requires |reset| == NREGS
    ensures fresh(c) && fresh(c.regs) && c.Valid() && c.poweredOn && !c.playbackOn && !c.captureOn
    ensures !c.playbackSwitch && !c.captureSwitch && !c.captureMic
    ensures c.Words().r21 == reset[0x21] && And(c.Words().r22, R22_SEL_MIC) == And(reset[0x22], R22_SEL_MIC)
  {
    AndStep(R22_SKIP_DCFIL, R22_SEL_MIC);
    AndStep(1, 2);
    MaskedWrite(reset[0x22], 0, R22_SKIP_DCFIL, R22_SEL_MIC);
    c := new Codec.Activate(reset, false, false);
  }

  /** The microphone chosen while capture is off, then capture opened: the line input stays
      selected and powered. */
  method SourceLost(reset: seq<nat>) returns (c: Codec)
    requires |reset| == NREGS && Clear(reset[0x22], R22_SEL_MIC)
    ensures fresh(c) && c.Valid() && c.captureOn && c.captureMic
    ensures !MicSelected(c.Words()) && AmplifierFor(c.Words(), false)
  {
    c := Activated(reset);
    c.SelectCaptureSource(true);
    AmplifierIffSelected(c.Words(), c.playbackSwitch, false);
    c.OpenStream(false);
  }

  /** Capture opened with its switch off: it runs unmuted when the playback switch is on,
      and also with both switches off when the codec came up with its mute off. */
  method UnaskedUnmute(reset: seq<nat>, playbackSwitch: bool) returns (c: Codec)
    requires |reset| == NREGS && (playbackSwitch || Clear(reset[0x21], R21_MT_ADC))
    ensures fresh(c) && c.Valid() && c.captureOn && !c.captureSwitch && c.playbackSwitch == playbackSwitch
    ensures Clear(c.regs[0x21], R21_MT_ADC)
  {
    c := Activated(reset);
    c.PlaybackSwitchSet(playbackSwitch);
    UnmuteMatches(c.Words(), playbackSwitch, false);
    c.OpenStream(false);
  }
}
