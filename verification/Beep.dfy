/** Beep synthesis in fixed point, from alsa/ppc/beep_old.c. */
module Beep {
  import opened Arith

  const BEEP_BUFLEN: nat := 512

  // ----- One period of the waveform: four quarters of four rows of sixteen samples -----

  const FIRST: seq<seq<int>> := [
    [0, 40, 79, 117, 153, 187, 218, 245, 269, 288, 304, 316, 323, 327, 327, 324],
    [318, 310, 299, 288, 275, 262, 249, 236, 224, 213, 204, 196, 190, 186, 183, 182],
    [182, 183, 186, 189, 192, 196, 200, 203, 206, 208, 209, 209, 209, 207, 204, 201],
    [197, 193, 188, 183, 179, 174, 170, 166, 163, 161, 160, 159, 159, 160, 161, 162]
  ]

  const SECOND: seq<seq<int>> := [
    [164, 166, 168, 169, 171, 171, 171, 170, 169, 167, 163, 159, 155, 150, 144, 139],
    [133, 128, 122, 117, 113, 110, 107, 105, 103, 103, 103, 103, 104, 104, 105, 105],
    [105, 103, 101, 97, 92, 86, 78, 68, 58, 45, 32, 18, 3, -11, -26, -41],
    [-55, -68, -79, -88, -95, -100, -102, -102, -99, -93, -85, -75, -62, -48, -33, -16]
  ]

  const THIRD: seq<seq<int>> := [
    [0, 16, 33, 48, 62, 75, 85, 93, 99, 102, 102, 100, 95, 88, 79, 68],
    [55, 41, 26, 11, -3, -18, -32, -45, -58, -68, -78, -86, -92, -97, -101, -103],
    [-105, -105, -105, -104, -104, -103, -103, -103, -103, -105, -107, -110, -113, -117, -122, -128],
    [-133, -139, -144, -150, -155, -159, -163, -167, -169, -170, -171, -171, -171, -169, -168, -166]
  ]

  const FOURTH: seq<seq<int>> := [
    [-164, -162, -161, -160, -159, -159, -160, -161, -163, -166, -170, -174, -179, -183, -188, -193],
    [-197, -201, -204, -207, -209, -209, -209, -208, -206, -203, -200, -196, -192, -189, -186, -183],
    [-182, -182, -183, -186, -190, -196, -204, -213, -224, -236, -249, -262, -275, -288, -299, -310],
    [-318, -324, -327, -327, -323, -316, -304, -288, -269, -245, -218, -187, -153, -117, -79, -40]
  ]

  function Row(i: nat): seq<int>
    requires i < 16
  {
    QuarterRows();
    if i < 4 then FIRST[i] else if i < 8 then SECOND[i - 4] else if i < 12 then THIRD[i - 8] else FOURTH[i - 12]
  }

  lemma QuarterRows()
    ensures |FIRST| == |SECOND| == |THIRD| == |FOURTH| == 4
  {
  }

  predicate InRange(row: seq<int>) {
    |row| == 16 && forall j | 0 <= j < 16 :: -327 <= row[j] <= 327
  }

  lemma FirstHalfRange(i: nat)
    requires i < 8
    ensures InRange(Row(i))
  {
    var row := Row(i);
  }

  lemma SecondHalfRange(i: nat)
    requires 8 <= i < 16
    ensures InRange(Row(i))
  {
    var row := Row(i);
  }

  /** Entry `j` of the 256-entry table. */
  function Wave(j: nat): (w: int)
    requires j < 256
    ensures -327 <= w <= 327
  {
    if j < 128 then FirstHalfRange(j / 16); Row(j / 16)[j % 16]
    else SecondHalfRange(j / 16); Row(j / 16)[j % 16]
  }

  // ----- Pitch to sample count, in integer division -----

  /** The pitch guard. */
  predicate Accepted(srate: nat, hz: nat) {
    srate / BEEP_BUFLEN < hz <= srate / 2
  }

  function Period(srate: nat, hz: nat): nat
    requires hz > 0
  {
    srate * 256 / hz
  }

  function Cycles(period: nat): nat
    requires period > 0
  {
    BEEP_BUFLEN * 256 / period
  }

  function Samples(period: nat): nat
    requires period > 0
  {
    period * Cycles(period) / 256
  }

  function Increment(period: nat): nat
    requires period > 0 && Samples(period) > 0
  {
    Cycles(period) * 65536 / Samples(period)
  }

  /** A pitch the guard lets through has a period of at least 512 and less than
      131072 units, so the buffer holds at least one cycle. */
  lemma PeriodBounds(srate: nat, hz: nat)
    requires Accepted(srate, hz)
    ensures 512 <= Period(srate, hz) < 131072
  {
    var p := Period(srate, hz);
    DivMod(srate * 256, hz);
    assert (p + 1) * hz == p * hz + hz;
    if p < 512 {
      MulMonotone(p + 1, 512, hz);
    } else if p >= 131072 {
      MulMonotone(131072, p, hz);
    }
  }

  /** One to 256 whole cycles fill between 2 and 512 samples, and the phase runs
      through them short of their end by less than one unit a sample. */
  lemma SampleBounds(period: nat)
    requires 512 <= period < 131072
    ensures 1 <= Cycles(period) <= 256
    ensures 2 <= Samples(period) <= BEEP_BUFLEN
    ensures var n := Samples(period);
            n * Increment(period) <= Cycles(period) * 65536 < n * Increment(period) + n
  {
    var c := Cycles(period);
    DivMod(131072, period);
    assert c == 0 ==> c * period == 0;
    if c > 256 {
      MulMonotone(257, c, period);
    }
    MulMonotone(1, c, period);
    var n := Samples(period);
    assert period * c == c * period;
    DivMod(c * 65536, n);
  }

  /** The pitch that is played, `Cycles` cycles in `Samples` samples, is at least the pitch asked
      for, and less than it would be with two samples fewer. */
  lemma PitchPlayed(srate: nat, hz: nat)
    requires Accepted(srate, hz)
    ensures var p := Period(srate, hz);
            && 512 <= p < 131072 && hz * Samples(p) <= Cycles(p) * srate < hz * (Samples(p) + 2)
  {
    PeriodBounds(srate, hz);
    var p := Period(srate, hz);
    SampleBounds(p);
    var c, n := Cycles(p), Samples(p);
    DivMod(srate * 256, hz);
    DivMod(p * c, 256);
    PitchBound(srate, hz, p, c, n);
  }

  lemma PitchBound(srate: nat, hz: nat, p: nat, c: nat, n: nat)
    requires hz > 0 && p * hz <= srate * 256 < p * hz + hz
    requires n * 256 <= p * c < n * 256 + 256 && 1 <= c <= 256
    ensures hz * n <= c * srate < hz * (n + 2)
  {
    MulMonotone(n * 256, p * c, hz);
    MulMonotone(p * hz, srate * 256, c);
    MulSwap(p, c, hz);
    assert n * 256 * hz <= c * srate * 256 by {
      assert p * c * hz == p * hz * c;
      assert srate * 256 * c == c * srate * 256;
    }
    PitchAbove(srate, hz, p, c, n);
  }

  lemma PitchAbove(srate: nat, hz: nat, p: nat, c: nat, n: nat)
    requires hz > 0 && srate * 256 < p * hz + hz
    requires p * c < n * 256 + 256 && 1 <= c <= 256
    ensures c * srate < hz * (n + 2)
  {
    MulMonotone(srate * 256 + 1, (p + 1) * hz, c);
    Distribute(p, 1, hz);
    MulMonotone((p + 1) * c, n * 256 + 512, hz);
    Distribute(p, 1, c);
    MulSwap(p + 1, c, hz);
    assert (srate * 256 + 1) * c == c * srate * 256 + c;
    assert (n * 256 + 512) * hz == hz * (n + 2) * 256;
  }

  /** The fallback pitch passes the guard for just these sample rates. */
  lemma FallbackAccepted(srate: nat)
    ensures Accepted(srate, 750) <==> 1500 <= srate < 384000
  {
  }

  /** The 16-bit sample at phase index `i`. */
  function Sample(i: nat, f: nat, volume: int): int {
    Wave(i * f % 65536 / 256) * volume
  }

  lemma SampleFits(i: nat, f: nat, volume: int)
    requires 0 <= volume <= 100
    ensures -32768 <= Sample(i, f, volume) <= 32767
  {
    ProductFits(Wave(i * f % 65536 / 256), volume);
  }

  lemma ProductFits(w: int, volume: int)
    requires -327 <= w <= 327 && 0 <= volume <= 100
    ensures -32700 <= w * volume <= 32700
  {
    MulMonotone(volume, 100, if w >= 0 then w else -w);
    MulMonotone(if w >= 0 then w else -w, 327, 100);
  }

  // ----- The beeper -----

  class Beeper {
    const buf: array<int>
    const srate: nat
    var running: bool
    var volume: int
    var volumePlay: int
    var hz: nat
    var nsamples: nat

    /** Whatever pitch and volume are remembered, the buffer holds their waveform. */
    ghost predicate Valid()
      reads this, buf
    {
      && buf.Length == 2 * BEEP_BUFLEN && Accepted(srate, 750) && 0 <= volume <= 100
      && (hz > 0 ==> Accepted(srate, hz) && Holds(Period(srate, hz)))
    }

    ghost predicate Holds(period: nat)
      requires 0 < period && buf.Length == 2 * BEEP_BUFLEN
      reads this, buf
    {
      && 512 <= period < 131072 && nsamples == Samples(period) && 2 <= nsamples <= BEEP_BUFLEN
      && Wavy(period, nsamples, volumePlay)
    }

    /** The first `n` frames are the waveform, the same on both channels. */
    ghost predicate Wavy(period: nat, n: nat, vol: int)
      requires 512 <= period < 131072 && buf.Length == 2 * BEEP_BUFLEN && n <= BEEP_BUFLEN
      reads buf
    {
      SampleBounds(period);
      forall i | 0 <= i < n :: buf[2 * i] == buf[2 * i + 1] == Sample(i, Increment(period), vol)
    }

    constructor (srate: nat, volume: int)
      requires Accepted(srate, 750) && 0 <= volume <= 100
      ensures Valid() && !running && this.srate == srate && this.volume == volume && fresh(buf)
    {
      buf := new int[2 * BEEP_BUFLEN](_ => 0);
      this.srate, this.volume := srate, volume;
      running, volumePlay, hz, nsamples := false, 0, 0, 0;
    }

    /** The fill loop: a 16-bit phase accumulator indexes the table. */
    method FillWave(n: nat, f: nat, vol: int)
      requires buf.Length == 2 * BEEP_BUFLEN && n <= BEEP_BUFLEN
      modifies buf
      ensures forall i | 0 <= i < n :: buf[2 * i] == buf[2 * i + 1] == Sample(i, f, vol)
    {
      var i, j := 0, 0;
      while i < n
        invariant 0 <= i <= n && j == i * f % 65536
        invariant forall k | 0 <= k < i :: buf[2 * k] == buf[2 * k + 1] == Sample(k, f, vol)
      {
        buf[2 * i] := Wave(j / 256) * vol;
        buf[2 * i + 1] := buf[2 * i];
        Accumulate(i, f);
        j := (j + f) % 65536;
        i := i + 1;
      }
    }

    /** `snd_pmac_mksound`: a pitch the guard refuses becomes 750 Hz for 12 ticks;
        nothing happens while a stream or a beep runs; and the wave is computed
        only when pitch or volume changed since the last one. */
    method Mksound(hz0: nat, ticks0: nat, busy: bool) returns (started: bool, ticks: nat)
      requires Valid()
      modifies this, buf
      ensures Valid() && started == !(busy || old(running))
      ensures !started ==> hz == old(hz) && nsamples == old(nsamples) && buf[..] == old(buf[..])
      ensures started ==> running && hz == (if Accepted(srate, hz0) then hz0 else 750) && volumePlay == volume
      ensures started ==> ticks > 0
      ensures started ==> ticks == if !Accepted(srate, hz0) then 12 else if ticks0 == 0 then 1 else ticks0
      ensures volume == old(volume)
    {
      var pitch := hz0;
      ticks := ticks0;
      if pitch <= srate / BEEP_BUFLEN || pitch > srate / 2 {
        pitch, ticks := 750, 12;
      }
      if busy || running {
        return false, ticks;
      }
      running, started := true, true;
      if pitch != hz || volume != volumePlay {
        PeriodBounds(srate, pitch);
        var period := Period(srate, pitch);
        SampleBounds(period);
        var n := Samples(period);
        FillWave(n, Increment(period), volume);
        hz, volumePlay, nsamples := pitch, volume, n;
      }
      if ticks == 0 {
        ticks := 1;
      }
    }

    method SetVolume(v: int)
      requires Valid() && 0 <= v <= 100
      modifies `volume
      ensures Valid() && volume == v
    {
      volume := v;
    }

    method Stop()
      requires Valid()
      modifies `running
      ensures Valid() && !running
    {
      running := false;
    }
  }

  lemma Accumulate(i: nat, f: nat)
    ensures (i * f % 65536 + f) % 65536 == (i + 1) * f % 65536
  {
    assert (i + 1) * f == i * f + f;
  }
}
