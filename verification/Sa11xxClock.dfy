/** The two audio streams of alsa/arm/sa11xx-uda1341.c. The codec takes its clock
    from the transmit side, so while only capture runs, playback's DMA has to be
    kept spinning on a buffer of zeros. */
module Sa11xxClock {
  import opened Arith

  /** The period after `p` in a ring of `n`: `s->period++; s->period %= runtime->periods`. */
  function Succ(p: nat, n: nat): nat
    requires n > 0
  {
    (p + 1) % n
  }

  /** `m` periods on from period `p`. */
  function Ahead(p: nat, m: nat, n: nat): nat
    requires n > 0
  {
    if m == 0 then p else Succ(Ahead(p, m - 1, n), n)
  }

  lemma {:induction false} AheadInRing(p: nat, m: nat, n: nat)
    requires n > 0 && (p < n || m > 0)
    ensures Ahead(p, m, n) == (p + m) % n
  {
    if m > 0 {
      DivMod(p + m - 1, n);
      if m == 1 {
        assert Ahead(p, 0, n) == p;
      } else {
        AheadInRing(p, m - 1, n);
        NextMod(p + m - 1, n);
        var r := (p + m - 1) % n;
        SuccSmall(r, n);
      }
    } else {
      ModUnique(p, n, 0, p);
    }
  }

  lemma SuccSmall(r: nat, n: nat)
    requires r < n
    ensures Succ(r, n) == if r + 1 == n then 0 else r + 1
  {
    if r + 1 == n {
      ModUnique(n, n, 1, 0);
    } else {
      ModUnique(r + 1, n, 0, r + 1);
    }
  }

  /** A piece of the buffer handed to the DMA channel, in frames. */
  datatype Transfer = Transfer(start: nat, len: nat)

  /** One `struct audio_stream`, with the number and the size of the periods of its
      PCM runtime, in frames, and the transfers since prepare. `oldOffset` is one more
      than the position saved by a pause. */
  datatype Stream = Stream(
    active: bool, txSpin: bool, period: nat, periods: nat, oldOffset: nat,
    rtPeriods: nat, periodFrames: nat, queued: seq<Transfer>)
  {
    ghost predicate Valid() {
      && (active ==> rtPeriods > 0) && (rtPeriods > 0 ==> period < rtPeriods && periodFrames > 0)
      && periods <= rtPeriods && forall t <- queued :: Inside(t)
    }

    /** The transfer lies in the buffer. */
    predicate Inside(t: Transfer) {
      0 < t.len && t.start + t.len <= rtPeriods * periodFrames
    }

    /** A saved position lies in the buffer. */
    predicate OffsetInside() {
      oldOffset > 0 ==> oldOffset - 1 < rtPeriods * periodFrames
    }

    /** Whether the next fill begins with a saved position. */
    predicate Resuming() {
      oldOffset > 0 && periods < rtPeriods
    }

    /** The period number the next fill begins with... */
    function FirstPeriod(): nat
      requires periodFrames > 0
    {
      if Resuming() then (oldOffset - 1) / periodFrames else period
    }

    /** ...and how many periods are under way then. */
    function UnderWay(): nat {
      if Resuming() then 0 else periods
    }

    function Whole(p: nat): Transfer {
      Transfer(p * periodFrames, periodFrames)
    }

    /** The first transfer of the next fill. The position within its period is kept of a saved
        position, the period is not: the rest of the first period of the buffer is handed over. */
    function First(): Transfer
      requires periodFrames > 0
    {
      if Resuming() then
        var within := (oldOffset - 1) % periodFrames;
        Transfer(within, periodFrames - within)
      else Whole(period)
    }

    /** The transfers of the next fill: the first one, then whole periods in ring order. */
    function Next(i: nat): Transfer
      requires periodFrames > 0 && rtPeriods > 0
    {
      if i == 0 then First() else Whole(Ahead(FirstPeriod(), i, rtPeriods))
    }

    /** After `m` transfers. */
    function FilledBy(m: nat): Stream
      requires periodFrames > 0 && rtPeriods > 0
    {
      this.(oldOffset := if Resuming() then 0 else oldOffset,
            period := Ahead(FirstPeriod(), m, rtPeriods),
            periods := UnderWay() + m,
            queued := queued + seq(m, i requires 0 <= i < m => Next(i)))
    }

    /** As many as the channel takes and the ring still has. */
    function Room(room: nat): nat {
      if UnderWay() <= rtPeriods && rtPeriods - UnderWay() < room then rtPeriods - UnderWay() else room
    }

    /** `audio_process_dma` when the channel takes `room` buffers before it refuses. */
    function Filled(room: nat): Stream {
      if txSpin || !active || rtPeriods == 0 || periodFrames == 0 then this else FilledBy(Room(room))
    }
  }

  lemma FilledMore(s: Stream, m: nat)
    requires s.periodFrames > 0 && s.rtPeriods > 0
    ensures var t := s.FilledBy(m);
            s.FilledBy(m + 1) ==
              t.(period := Succ(t.period, s.rtPeriods), periods := t.periods + 1, queued := t.queued + [s.Next(m)])
  {
    var q := seq(m, i requires 0 <= i < m => s.Next(i));
    assert seq(m + 1, i requires 0 <= i < m + 1 => s.Next(i)) == q + [s.Next(m)];
  }

  lemma FilledNone(s: Stream)
    requires s.periodFrames > 0 && s.rtPeriods > 0
    ensures s.FilledBy(0) == s.(oldOffset := if s.Resuming() then 0 else s.oldOffset,
                                period := s.FirstPeriod(), periods := s.UnderWay())
  {
  }

  // ----- What a fill does -----

  lemma WholeInside(s: Stream, p: nat)
    requires p < s.rtPeriods && s.periodFrames > 0
    ensures s.Inside(s.Whole(p))
  {
    Distribute(p, 1, s.periodFrames);
    MulMonotone(p + 1, s.rtPeriods, s.periodFrames);
  }

  lemma NextInside(s: Stream, i: nat)
    requires s.rtPeriods > 0 && s.periodFrames > 0 && s.period < s.rtPeriods
    ensures s.Inside(s.Next(i))
  {
    if i > 0 {
      AheadInRing(s.FirstPeriod(), i, s.rtPeriods);
      DivMod(s.FirstPeriod() + i, s.rtPeriods);
      WholeInside(s, Ahead(s.FirstPeriod(), i, s.rtPeriods));
    } else if s.Resuming() {
      DivMod(s.oldOffset - 1, s.periodFrames);
      MulMonotone(1, s.rtPeriods, s.periodFrames);
    } else {
      WholeInside(s, s.period);
    }
  }

  /** A fill keeps the stream in order, unless it begins with a saved position that lies
      behind the buffer and the channel refuses the first transfer. */
  lemma FilledValid(s: Stream, room: nat)
    requires s.Valid()
    ensures s.Filled(room).Valid() <==>
              !(s.active && !s.txSpin && s.Resuming() && room == 0 && s.FirstPeriod() >= s.rtPeriods)
    ensures s.OffsetInside() ==> s.Filled(room).Valid() && s.Filled(room).OffsetInside()
  {
    if s.active && !s.txSpin {
      var t, m := s.Filled(room), s.Room(room);
      if m > 0 {
        AheadInRing(s.FirstPeriod(), m, s.rtPeriods);
        DivMod(s.FirstPeriod() + m, s.rtPeriods);
      }
      if s.Resuming() && s.OffsetInside() {
        QuotientBelow(s.oldOffset - 1, s.rtPeriods, s.periodFrames);
      }
      forall x <- t.queued
        ensures t.Inside(x)
      {
        if x !in s.queued {
          var i :| 0 <= i < m && x == s.Next(i);
          NextInside(s, i);
        }
      }
    }
  }

  /** After a saved position, as many whole periods as lie in front of it are lost on the first
      transfer: it starts at that position exactly when it lies in the first period. */
  lemma FirstAtSaved(s: Stream)
    requires s.Resuming() && s.periodFrames > 0
    ensures s.oldOffset - 1 == s.FirstPeriod() * s.periodFrames + s.First().start
    ensures s.First().start == s.oldOffset - 1 <==> s.oldOffset - 1 < s.periodFrames
  {
    DivMod(s.oldOffset - 1, s.periodFrames);
    if s.FirstPeriod() > 0 {
      MulMonotone(1, s.FirstPeriod(), s.periodFrames);
    } else {
      assert s.FirstPeriod() * s.periodFrames == 0;
    }
  }

  /** A fill of an active stream hands over nothing exactly when the channel takes nothing or
      all periods still count as under way. */
  lemma NothingQueued(s: Stream, room: nat)
    requires s.Valid() && s.active && !s.txSpin
    ensures s.Filled(room).queued == s.queued <==> room == 0 || s.periods == s.rtPeriods
  {
    var m := s.Room(room);
    assert |s.Filled(room).queued| == |s.queued| + m;
    assert m == 0 ==> s.Filled(room).queued == s.queued;
  }

  /** A stream that is started after prepare begins at the front of its buffer, as if nothing had
      been saved, exactly when nothing was saved or the front of a buffer of this size. */
  lemma StartsInFront(s: Stream, room: nat)
    requires s.Valid() && s.active && !s.txSpin && s.period == s.periods == 0 && room > 0
    ensures s.Filled(room) == s.(oldOffset := 0).Filled(room)
       <==> s.oldOffset == 0 || (s.First().start == 0 && s.FirstPeriod() % s.rtPeriods == 0)
    ensures s.OffsetInside() ==>
              (s.Filled(room) == s.(oldOffset := 0).Filled(room) <==> s.oldOffset <= 1)
  {
    var s0, m, p := s.(oldOffset := 0), s.Room(room), s.FirstPeriod();
    if s.oldOffset > 0 {
      var t, t0 := s.Filled(room), s0.Filled(room);
      assert t.queued[|s.queued|] == s.First() && t0.queued[|s.queued|] == s.Whole(0);
      AheadInRing(p, m, s.rtPeriods);
      AheadInRing(0, m, s.rtPeriods);
      ModAdd(p, m, s.rtPeriods);
      if p % s.rtPeriods == 0 && s.First().start == 0 {
        SameTransfers(s, m);
        assert t.queued == t0.queued;
      }
      if s.OffsetInside() {
        FirstAtSaved(s);
        QuotientBelow(s.oldOffset - 1, s.rtPeriods, s.periodFrames);
        ModUnique(p, s.rtPeriods, 0, p);
      }
    }
  }

  lemma SameTransfers(s: Stream, m: nat)
    requires s.Resuming() && s.rtPeriods > 0 && s.periodFrames > 0 && s.period == 0
    requires s.First().start == 0 && s.FirstPeriod() % s.rtPeriods == 0
    ensures forall i | 0 <= i < m :: s.Next(i) == s.(oldOffset := 0).Next(i)
  {
    forall i | 0 < i < m
      ensures s.Next(i) == s.(oldOffset := 0).Next(i)
    {
      AheadInRing(s.FirstPeriod(), i, s.rtPeriods);
      AheadInRing(0, i, s.rtPeriods);
      ModAdd(s.FirstPeriod(), i, s.rtPeriods);
    }
  }

  // ----- Which frames a fill hands over -----

  /** The frame behind a transfer, in a ring of `size` frames. */
  function Behind(t: Transfer, size: nat): nat {
    if t.start + t.len == size then 0 else t.start + t.len
  }

  /** How many transfers a fill adds to those before: as many as the channel takes, and as there
      are periods that do not count as under way. */
  lemma FillCount(s: Stream, room: nat)
    requires s.Valid() && s.active && !s.txSpin
    ensures var t, q := s.Filled(room).queued, |s.queued|;
            var left := if s.oldOffset > 0 && s.periods < s.rtPeriods then s.rtPeriods else s.rtPeriods - s.periods;
            |t| == q + (if room < left then room else left) && t[..q] == s.queued
  {
  }

  /** Each transfer of a fill but the first is one period long and begins where the one before it
      ended, or in front of the buffer. After a saved position only the second one does not
      follow the first: it goes on behind the period that was saved. */
  lemma FillFollows(s: Stream, room: nat, i: nat)
    requires s.Valid() && s.active && !s.txSpin && |s.queued| < i < |s.Filled(room).queued|
    ensures var t, n, f := s.Filled(room).queued, s.rtPeriods, s.periodFrames;
            && t[i].len == f
            && t[i].start ==
                 if i == |s.queued| + 1 && s.oldOffset > 0 && s.periods < n then ((s.oldOffset - 1) / f + 1) % n * f
                 else Behind(t[i - 1], n * f)
  {
    var k: nat, p, n := i - 1 - |s.queued|, s.FirstPeriod(), s.rtPeriods;
    assert s.Filled(room).queued[i] == s.Next(k + 1) && s.Filled(room).queued[i - 1] == s.Next(k);
    if k > 0 || !s.Resuming() {
      NextFollows(s, k);
    } else {
      AheadOne(p, n);
    }
  }

  lemma AheadOne(p: nat, n: nat)
    requires n > 0
    ensures Ahead(p, 1, n) == Succ(p, n)
  {
    assert Ahead(p, 0, n) == p;
  }

  lemma NextFollows(s: Stream, k: nat)
    requires s.Valid() && s.active && (k > 0 || !s.Resuming())
    ensures s.Next(k + 1).len == s.periodFrames
    ensures s.Next(k + 1).start == Behind(s.Next(k), s.rtPeriods * s.periodFrames)
  {
    var p, n := s.FirstPeriod(), s.rtPeriods;
    var x := Ahead(p, k, n);
    if k > 0 {
      AheadInRing(p, k, n);
      DivMod(p + k, n);
    }
    assert s.Next(k) == s.Whole(x) && x < n;
    NextPeriod(x, n, s.periodFrames);
  }

  lemma NextPeriod(p: nat, n: nat, f: nat)
    requires p < n && f > 0
    ensures Succ(p, n) * f == Behind(Transfer(p * f, f), n * f)
  {
    SuccSmall(p, n);
    Distribute(p, 1, f);
    if p + 1 < n {
      MulMonotone(p + 2, n, f);
      Distribute(p + 1, 1, f);
    }
  }

  /** The transfers since prepare are the periods of the buffer in order, over and over. */
  ghost predicate InOrder(s: Stream) {
    && s.rtPeriods > 0 && s.period == |s.queued| % s.rtPeriods
    && forall k | 0 <= k < |s.queued| ::
         s.queued[k] == Transfer(k % s.rtPeriods * s.periodFrames, s.periodFrames)
  }

  lemma FilledInOrder(s: Stream, room: nat)
    requires s.Valid() && InOrder(s) && s.oldOffset == 0
    ensures InOrder(s.Filled(room))
  {
    if s.active && !s.txSpin {
      var t, n, q := s.Filled(room), s.rtPeriods, |s.queued|;
      forall k | 0 <= k < |t.queued|
        ensures t.queued[k] == Transfer(k % n * s.periodFrames, s.periodFrames)
      {
        if k >= q {
          assert t.queued[k] == s.Next(k - q);
          AheadInRing(s.period, k - q, n);
          ModTwice(q, k - q, n);
        }
      }
      AheadInRing(s.period, s.Room(room), n);
      ModTwice(q, s.Room(room), n);
    }
  }

  // ----- The streams in place -----

  class AudioStream {
    var active: bool
    var txSpin: bool
    var period: nat
    var periods: nat
    var oldOffset: nat
    var rtPeriods: nat
    var periodFrames: nat
    ghost var queued: seq<Transfer>

    ghost function Now(): Stream
      reads this
    {
      Stream(active, txSpin, period, periods, oldOffset, rtPeriods, periodFrames, queued)
    }

    constructor ()
      ensures Now() == Stream(false, false, 0, 0, 0, 0, 0, [])
    {
      active, txSpin, period, periods, oldOffset := false, false, 0, 0, 0;
      rtPeriods, periodFrames, queued := 0, 0, [];
    }

    /** `audio_stop_dma`. */
    method StopDma()
      modifies `active, `period
      ensures Now() == old(Now()).(active := false, period := 0)
    {
      active, period := false, 0;
    }

    /** The "little trick" that resumes from a saved position: the period is remembered, but
        the offset handed on is only the one within it. */
    method TakeOldOffset() returns (offset: nat, size: nat)
      requires periodFrames > 0 && oldOffset > 0
      modifies `period, `periods, `oldOffset
      ensures Now() == old(Now()).(oldOffset := 0, periods := 0, period := (old(oldOffset) - 1) / periodFrames)
      ensures offset == (old(oldOffset) - 1) % periodFrames && size == periodFrames - offset > 0
    {
      DivMod(oldOffset - 1, periodFrames);
      offset := oldOffset - 1;
      oldOffset, periods := 0, 0;
      period := offset / periodFrames;
      offset := offset % periodFrames;
      size := periodFrames - offset;
    }

    /** `audio_process_dma`; `room` is how many buffers the DMA channel takes before
        it refuses. A spinning stream is fed zeros until the channel is full; an
        active one is filled up to its number of periods. */
    method ProcessDma(room: nat)
      requires Now().Valid()
      modifies `period, `periods, `queued, `oldOffset
      ensures Now() == old(Now()).Filled(room)
    {
      ghost var before := Now();
      var left: nat := room;
      if txSpin {
        while left > 0 {
          left := left - 1;
        }
        return;
      }
      if active {
        FilledNone(before);
      }
      while active && periods < rtPeriods
        invariant left <= room && active == before.active && rtPeriods == before.rtPeriods
        invariant periodFrames == before.periodFrames
        invariant active ==> room - left <= rtPeriods - before.UnderWay()
        invariant left == room ==> Now() == before
        invariant left < room ==> active && Now() == before.FilledBy(room - left)
        decreases left
      {
        var taken := Transfer(period * periodFrames, periodFrames);
        if oldOffset > 0 {
          var offset, size := TakeOldOffset();
          taken := Transfer(offset, size);
        }
        assert Now() == before.FilledBy(room - left) && taken == before.Next(room - left);
        if left == 0 {
          return;
        }
        FilledMore(before, room - left);
        queued := queued + [taken];
        period := (period + 1) % rtPeriods;
        periods, left := periods + 1, left - 1;
      }
    }
  }

  /** What happens to the chip; a callback comes for a DMA buffer of one stream. */
  datatype Event =
    | Prepare(capture: bool, periods: nat, frames: nat)
    | Start(capture: bool, room: nat, otherRoom: nat)
    | Stop(capture: bool, room: nat)
    | Callback(capture: bool, room: nat)
    | Push(capture: bool, pos: nat, room: nat)
    | Release(capture: bool, room: nat)

  class Chip {
    const playback: AudioStream
    const capture: AudioStream

    constructor ()
      ensures Ready() && Unpaused() && !playback.active && !capture.active && fresh(playback) && fresh(capture)
    {
      playback := new AudioStream();
      capture := new AudioStream();
    }

    function Of(isCapture: bool): AudioStream {
      if isCapture then capture else playback
    }

    /** Playback spins exactly while capture runs alone; capture never spins. */
    ghost predicate Clocked()
      reads playback, capture
    {
      (playback.txSpin <==> capture.active && !playback.active) && !capture.txSpin
    }

    ghost predicate Valid()
      reads playback, capture
    {
      playback != capture && playback.Now().Valid() && capture.Now().Valid() && Clocked()
    }

    /** And positions saved by a pause lie in the buffers. */
    ghost predicate Ready()
      reads playback, capture
    {
      Valid() && playback.Now().OffsetInside() && capture.Now().OffsetInside()
    }

    /** No position is saved, as when nothing was ever paused. */
    predicate Unpaused()
      reads playback, capture
    {
      playback.oldOffset == 0 && capture.oldOffset == 0
    }

    /** `snd_sa11xx_uda1341_prepare`, with the runtime's new periods. A position that
        a pause left behind is not cleared here, and may lie behind the new buffer. */
    method PrepareStream(isCapture: bool, n: nat, frames: nat)
      requires Valid() && n > 0 && frames > 0 && !Of(isCapture).active
      modifies Of(isCapture)
      ensures Valid()
      ensures Of(isCapture).Now() == old(Of(isCapture).Now()).(
                rtPeriods := n, periodFrames := frames, period := 0, periods := 0, queued := [])
      ensures old(Ready()) ==> (Ready() <==> Of(isCapture).oldOffset == 0 || Of(isCapture).oldOffset - 1 < n * frames)
    {
      var s := Of(isCapture);
      s.rtPeriods, s.periodFrames, s.period, s.periods, s.queued := n, frames, 0, 0, [];
    }

    /** SNDRV_PCM_TRIGGER_START. */
    method TriggerStart(isCapture: bool, room: nat, otherRoom: nat)
      requires Valid() && Of(isCapture).rtPeriods > 0
      modifies playback, capture
      ensures Clocked() && (old(Ready()) ==> Ready()) && (room > 0 ==> Valid())
      ensures Of(isCapture).Now() == old(Of(isCapture).Now()).(active := true, txSpin := false).Filled(room)
      ensures Of(!isCapture).Now() == old(Of(!isCapture).Now()).(
                txSpin := if isCapture && !old(playback.active) then true else old(Of(!isCapture).txSpin))
    {
      var s, s1 := Of(isCapture), Of(!isCapture);
      FilledValid(s.Now().(active := true, txSpin := false), room);
      if isCapture && !s1.active {
        s1.txSpin := true;
        s1.ProcessDma(otherRoom);
      } else {
        s.txSpin := false;
      }
      s.active := true;
      s.ProcessDma(room);
    }

    /** SNDRV_PCM_TRIGGER_STOP. */
    method TriggerStop(isCapture: bool, room: nat)
      requires Valid()
      modifies playback, capture
      ensures Valid() && (old(Ready()) ==> Ready())
      ensures !isCapture ==>
                && playback.Now() == old(playback.Now()).(active := false, period := 0, txSpin := capture.active)
                && capture.Now() == old(capture.Now())
      ensures isCapture ==>
                && capture.Now() == old(capture.Now()).(active := false, period := 0)
                && playback.Now() == if old(playback.txSpin) then old(playback.Now()).(txSpin := false, period := 0)
                                     else old(playback.Now())
    {
      var s, s1 := Of(isCapture), Of(!isCapture);
      s.StopDma();
      if !isCapture && s1.active {
        s.txSpin := true;
        s.ProcessDma(room);
      } else if s1.txSpin {
        s1.txSpin := false;
        s1.StopDma();
      }
    }

    /** `audio_dma_callback`: one period less is under way, and the stream is topped up. */
    method DmaCallback(isCapture: bool, room: nat)
      requires Valid()
      modifies Of(isCapture)
      ensures Clocked() && (old(Ready()) ==> Ready()) && (room > 0 ==> Valid())
      ensures var was := old(Of(isCapture).Now());
              var less := if was.periods > 0 then was.periods - 1 else 0;
              Of(isCapture).Now() == was.(periods := if was.txSpin then was.periods else less).Filled(room)
    {
      var s := Of(isCapture);
      if !s.txSpin && s.periods > 0 {
        s.periods := s.periods - 1;
      }
      FilledValid(s.Now(), room);
      s.ProcessDma(room);
    }

    /** SNDRV_PCM_TRIGGER_PAUSE_PUSH; `pos` is the DMA position in the buffer. */
    method PausePush(isCapture: bool, pos: nat, room: nat)
      requires Valid() && Of(isCapture).active && pos < Of(isCapture).rtPeriods * Of(isCapture).periodFrames
      modifies playback, capture
      ensures Valid() && (old(Ready()) ==> Ready())
      ensures !isCapture ==>
                && capture.Now() == old(capture.Now())
                && playback.Now() == if capture.active
                     then old(playback.Now()).(active := false, txSpin := true, oldOffset := pos + 1)
                     else old(playback.Now()).(active := false)
      ensures isCapture ==>
                && capture.Now() == old(capture.Now()).(active := false)
                && playback.Now() == old(playback.Now()).(txSpin := false)
    {
      var s, s1 := Of(isCapture), Of(!isCapture);
      s.active := false;
      if !isCapture {
        if s1.active {
          s.txSpin := true;
          s.oldOffset := pos + 1;
          s.ProcessDma(room);
        }
      } else if s1.txSpin {
        s1.txSpin := false;
      }
    }

    /** When releasing a pause leaves the clock right: for playback, when it was not left
        spinning without a saved position, as it is when capture was started during the pause;
        for capture, which has a saved position only from a suspend, when it has none or
        playback has the clock already. */
    predicate ReleaseKeepsClock(isCapture: bool)
      reads playback, capture
    {
      if isCapture then capture.oldOffset == 0 || playback.active || playback.txSpin
      else !playback.txSpin || playback.oldOffset > 0
    }

    /** SNDRV_PCM_TRIGGER_PAUSE_RELEASE. */
    method PauseRelease(isCapture: bool, room: nat)
      requires Valid() && Of(isCapture).rtPeriods > 0
      modifies playback, capture
      ensures Clocked() <==> old(ReleaseKeepsClock(isCapture))
      ensures old(ReleaseKeepsClock(isCapture)) ==> (old(Ready()) ==> Ready()) && (room > 0 ==> Valid())
      ensures var was := old(Of(isCapture).Now());
              Of(isCapture).Now() == if was.oldOffset > 0 then was.(active := true, txSpin := false).Filled(room)
                                     else was.(active := true)
      ensures Of(!isCapture).Now() == if isCapture && old(capture.oldOffset) == 0 && !old(playback.active)
                                      then old(Of(!isCapture).Now()).(txSpin := true) else old(Of(!isCapture).Now())
    {
      var s, s1 := Of(isCapture), Of(!isCapture);
      FilledValid(s.Now().(active := true, txSpin := false), room);
      s.active := true;
      if s.oldOffset > 0 {
        s.txSpin := false;
        s.ProcessDma(room);
        return;
      }
      if isCapture && !s1.active {
        s1.txSpin := true;
        s1.ProcessDma(room);
      }
    }

    // ----- Runs -----

    /** The PCM layer starts only prepared streams, prepares only stopped ones and pauses only
        active ones. A stream is prepared again only with a buffer that holds its saved position,
        if it has one, and released only when that leaves the clock right. */
    predicate Allowed(e: Event)
      reads playback, capture
    {
      match e
      case Prepare(c, n, frames) =>
        n > 0 && frames > 0 && !Of(c).active && (Of(c).oldOffset > 0 ==> Of(c).oldOffset - 1 < n * frames)
      case Start(c, _, _) => Of(c).rtPeriods > 0
      case Stop(_, _) => true
      case Callback(_, _) => true
      case Push(c, pos, _) => Of(c).active && pos < Of(c).rtPeriods * Of(c).periodFrames
      case Release(c, _) => Of(c).rtPeriods > 0 && ReleaseKeepsClock(c)
    }

    method Do(e: Event)
      requires Ready() && Allowed(e)
      modifies playback, capture
      ensures Ready() && (!e.Push? && old(Unpaused()) ==> Unpaused())
    {
      match e {
        case Prepare(c, n, frames) => PrepareStream(c, n, frames);
        case Start(c, room, otherRoom) => TriggerStart(c, room, otherRoom);
        case Stop(c, room) => TriggerStop(c, room);
        case Callback(c, room) => DmaCallback(c, room);
        case Push(c, pos, room) => PausePush(c, pos, room);
        case Release(c, room) => PauseRelease(c, room);
      }
    }

    /** The clock is right, the period numbers are in range and all transfers lie inside the
        buffers over every run, pauses included; and without a pause nothing is ever saved. */
    method Run(events: seq<Event>)
      requires Ready()
      modifies playback, capture
      ensures Ready()
      ensures old(Unpaused()) && (forall i | 0 <= i < |events| :: !events[i].Push?) ==> Unpaused()
    {
      for i := 0 to |events|
        invariant Ready()
        invariant old(Unpaused()) && (forall j | 0 <= j < |events| :: !events[j].Push?) ==> Unpaused()
      {
        if Allowed(events[i]) {
          Do(events[i]);
        }
      }
    }

    /** A stream that is prepared and started with nothing saved, and then called back any number
        of times: what it hands over is the buffer, period by period, over and over. */
    method Play(isCapture: bool, n: nat, frames: nat, room: nat, otherRoom: nat, rooms: seq<nat>)
      requires Ready() && n > 0 && frames > 0 && !Of(isCapture).active && Of(isCapture).oldOffset == 0
      modifies playback, capture
      ensures Ready() && Of(isCapture).active
      ensures var s := Of(isCapture);
              && s.rtPeriods == n && s.periodFrames == frames
              && forall k | 0 <= k < |s.queued| :: s.queued[k] == Transfer(k % n * frames, frames)
    {
      PrepareStream(isCapture, n, frames);
      ModUnique(0, n, 0, 0);
      FilledInOrder(Of(isCapture).Now().(active := true, txSpin := false), room);
      TriggerStart(isCapture, room, otherRoom);
      for i := 0 to |rooms|
        invariant Ready() && Of(isCapture).active && !Of(isCapture).txSpin && Of(isCapture).oldOffset == 0
        invariant InOrder(Of(isCapture).Now())
        invariant Of(isCapture).rtPeriods == n && Of(isCapture).periodFrames == frames
      {
        var p := Of(isCapture).periods;
        FilledInOrder(Of(isCapture).Now().(periods := if p > 0 then p - 1 else 0), rooms[i]);
        DmaCallback(isCapture, rooms[i]);
      }
    }

    /** Prepare and start: the stream begins at the front of its new buffer exactly when no
        position is saved from before, or one that comes to the front of this buffer. */
    method PrepareAndStart(isCapture: bool, n: nat, frames: nat, room: nat, otherRoom: nat)
      requires Valid() && n > 0 && frames > 0 && !Of(isCapture).active && room > 0
      modifies playback, capture
      ensures Valid()
      ensures var o := old(Of(isCapture).oldOffset);
              Of(isCapture).Now() == Stream(true, false, 0, 0, 0, n, frames, []).Filled(room)
              <==> o == 0 || ((o - 1) % frames == 0 && (o - 1) / frames % n == 0)
      ensures var o := old(Of(isCapture).oldOffset);
              o <= n * frames ==>
                (Of(isCapture).Now() == Stream(true, false, 0, 0, 0, n, frames, []).Filled(room) <==> o <= 1)
    {
      PrepareStream(isCapture, n, frames);
      StartsInFront(Of(isCapture).Now().(active := true, txSpin := false), room);
      TriggerStart(isCapture, room, otherRoom);
    }
  }

  // ----- Runs on which the streams do not do as they should -----

  /** Two prepared streams, with playback started and paused again. */
  method PausedPlayback(n: nat, frames: nat, room: nat) returns (c: Chip)
    requires n > 0 && frames > 0
    ensures fresh(c) && fresh(c.playback) && fresh(c.capture) && c.Ready() && c.Unpaused()
    ensures !c.playback.active && !c.capture.active && c.playback.rtPeriods == c.capture.rtPeriods == n
  {
    c := new Chip();
    c.PrepareStream(false, n, frames);
    c.PrepareStream(true, n, frames);
    c.TriggerStart(false, room, 0);
    MulMonotone(1, n, frames);
    c.PausePush(false, 0, room);
  }

  /** Capture started while playback is paused, then playback released: playback is
      active and still spins. */
  method ReleaseKeepsSpinning(n: nat, frames: nat, room: nat) returns (c: Chip)
    requires n > 0 && frames > 0
    ensures fresh(c) && c.playback.active && c.capture.active && c.playback.txSpin && !c.Clocked()
  {
    c := PausedPlayback(n, frames, room);
    c.TriggerStart(true, room, room);
    c.PauseRelease(false, room);
  }

  /** Playback paused at frame `pos` while capture runs, with no transfer handed over before. */
  method SavedPosition(n: nat, frames: nat, pos: nat) returns (c: Chip)
    requires n > 0 && frames > 0 && pos < n * frames
    ensures fresh(c) && fresh(c.playback) && fresh(c.capture) && c.Ready() && c.capture.active
    ensures c.playback.Now() == Stream(false, true, 0, 0, pos + 1, n, frames, [])
  {
    c := new Chip();
    c.PrepareStream(false, n, frames);
    c.PrepareStream(true, n, frames);
    c.TriggerStart(true, 0, 0);
    c.TriggerStart(false, 0, 0);
    c.PausePush(false, pos, 0);
  }

  /** Playback paused behind the first period and released: what is handed over first is not
      what was to come next, but as many whole periods before it. */
  method ResumedTooEarly(n: nat, frames: nat, pos: nat) returns (c: Chip)
    requires n > 0 && frames > 0 && frames <= pos < n * frames
    ensures fresh(c) && c.Valid() && c.playback.active
    ensures c.playback.queued == [Transfer(pos % frames, frames - pos % frames)] && pos % frames != pos
  {
    c := SavedPosition(n, frames, pos);
    FirstAtSaved(c.playback.Now());
    c.PauseRelease(false, 1);
    DivMod(pos, frames);
    assert c.playback.queued == [Transfer(pos % frames, frames - pos % frames)];
  }

  /** Playback paused at frame 3999 of 4096, stopped, and prepared again with a buffer of 1024:
      the saved position lies behind the new buffer, and the start resumes from it. */
  method StaleStart() returns (c: Chip, saved: nat)
    ensures fresh(c) && c.Valid() && saved == 4000 && c.playback.active
    ensures saved - 1 >= c.playback.rtPeriods * c.playback.periodFrames
    ensures c.playback.queued == [Transfer(415, 97)]
  {
    c := SavedPosition(4, 1024, 3999);
    c.TriggerStop(false, 0);
    c.PrepareStream(false, 2, 512);
    saved := c.playback.oldOffset;
    c.TriggerStart(false, 1, 0);
    assert c.playback.queued == [Transfer(415, 97)];
  }
}
