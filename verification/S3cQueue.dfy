/** The DMA buffer queue of alsa/arm/s3c24xx-iis.c: periods of a cyclic buffer are
    handed to the DMA layer a few at a time, and topped up as they complete. */
module S3cQueue {
  import opened Arith

  /** Where the walk goes from `pos`: one period on, or back to the start at the end. */
  function Next(start: nat, period: nat, end: nat, pos: nat): nat {
    if pos + period >= end then start else pos + period
  }

  /** The `k`-th buffer handed out. */
  function Slot(start: nat, period: nat, end: nat, k: nat): nat {
    if k == 0 then start else Next(start, period, end, Slot(start, period, end, k - 1))
  }

  /** The `k`-th buffer is period `k` modulo the number of periods, inside the buffer. */
  lemma {:induction false} SlotIsCyclic(start: nat, period: nat, n: nat, k: nat)
    requires n > 0 && period > 0
    ensures Slot(start, period, start + n * period, k) == start + k % n * period
    ensures k % n * period + period <= n * period
  {
    var r := k % n;
    MulMonotone(r + 1, n, period);
    assert (r + 1) * period == r * period + period;
    if k == 0 {
      ModUnique(0, n, 0, 0);
    } else {
      SlotIsCyclic(start, period, n, k - 1);
      NextMod(k - 1, n);
      var q := (k - 1) % n;
      assert (q + 1) * period == q * period + period;
      if q + 1 < n {
        MulMonotone(q + 2, n, period);
        assert (q + 2) * period == (q + 1) * period + period;
      }
    }
  }

  /** A stream event; `room` is how many buffers the DMA layer takes before it refuses. */
  datatype Event =
    | Prepare(start: nat, period: nat, periods: nat)
    | Start(room: nat)
    | Stop
    | Done(room: nat)

  class Runtime {
    var running: bool
    var dmaLoaded: nat
    var dmaLimit: nat
    var dmaPeriod: nat
    var dmaStart: nat
    var dmaPos: nat
    var dmaEnd: nat
    /** The DMA layer's queue, how many buffers it took since prepare, and how many
        periods the buffer has; `live` from prepare until stop. */
    var queue: seq<nat>
    ghost var accepted: nat
    ghost var periods: nat
    var live: bool
    const periodsMin: nat

    ghost predicate Laid()
      reads `dmaPeriod, `periods, `dmaEnd, `dmaStart
    {
      dmaPeriod > 0 && periods > 0 && dmaEnd == dmaStart + periods * dmaPeriod
    }

    /** The queue holds the last `dmaLoaded` of the accepted buffers, oldest first,
        and the next one goes to `dmaPos`. */
    ghost predicate Tracked()
      reads `dmaPeriod, `dmaEnd, `dmaStart, `dmaPos, `accepted, `queue, `dmaLoaded
    {
      && dmaPos == Slot(dmaStart, dmaPeriod, dmaEnd, accepted)
      && |queue| == dmaLoaded <= accepted
      && forall i | 0 <= i < dmaLoaded :: queue[i] == Slot(dmaStart, dmaPeriod, dmaEnd, accepted - dmaLoaded + i)
    }

    ghost predicate Valid()
      reads this
    {
      && periodsMin > 0
      && (live ==> Laid() && Tracked() && dmaLoaded <= dmaLimit && dmaLimit == periodsMin)
      && (running ==> live) && (live && !running ==> dmaLoaded == 0)
    }

    constructor (periodsMin: nat)
      requires periodsMin > 0
      ensures Valid() && !running && !live && this.periodsMin == periodsMin
    {
      this.periodsMin := periodsMin;
      running, dmaLoaded, dmaLimit, dmaPeriod, dmaStart, dmaPos, dmaEnd := false, 0, 0, 0, 0, 0, 0;
      queue, accepted, periods, live := [], 0, 0, false;
    }

    /** How many buffers one call loads: at least one try, even when the limit is reached. */
    ghost function Loads(room: nat, loaded: nat, limit: nat): nat {
      var wanted := if loaded < limit then limit - loaded else 1;
      if room < wanted then room else wanted
    }

    /** `s3c24xx_pcm_enqueue`. */
    method Enqueue(room: nat)
      requires Laid() && Tracked() && dmaLoaded <= dmaLimit
      modifies `dmaLoaded, `dmaPos, `queue, `accepted
      ensures Laid() && Tracked()
      ensures var m := Loads(room, old(dmaLoaded), dmaLimit);
              dmaLoaded == old(dmaLoaded) + m && accepted == old(accepted) + m
      ensures old(queue) <= queue && |queue| - |old(queue)| == accepted - old(accepted) <= room
      ensures accepted - old(accepted) == room || dmaLoaded >= dmaLimit
      ensures dmaLoaded <= dmaLimit <==> old(dmaLoaded) < dmaLimit || room == 0
    {
      var left: nat := room;
      var again := true;
      while again
        invariant Laid() && Tracked() && old(queue) <= queue && left <= room
        invariant dmaLoaded == old(dmaLoaded) + (room - left) && accepted == old(accepted) + (room - left)
        invariant again ==> dmaLoaded < dmaLimit || left == room
        invariant !again ==> room - left == Loads(room, old(dmaLoaded), dmaLimit)
        invariant left < room ==> old(dmaLoaded) < dmaLimit ==> dmaLoaded <= dmaLimit
        invariant old(dmaLoaded) == dmaLimit && left < room ==> !again
        decreases again, left
      {
        if left == 0 {
          again := false;
        } else {
          LoadOne();
          left := left - 1;
          again := dmaLoaded < dmaLimit;
        }
      }
    }

    /** One accepted `s3c2410_dma_enqueue` and the step of the cursor behind it. */
    method LoadOne()
      requires Tracked()
      modifies `dmaLoaded, `dmaPos, `queue, `accepted
      ensures Tracked() && queue == old(queue) + [old(dmaPos)]
      ensures dmaLoaded == old(dmaLoaded) + 1 && accepted == old(accepted) + 1
    {
      queue, accepted := queue + [dmaPos], accepted + 1;
      dmaLoaded := dmaLoaded + 1;
      var pos := dmaPos + dmaPeriod;
      if pos >= dmaEnd {
        pos := dmaStart;
      }
      dmaPos := pos;
    }

    /** The buffer-done callback; the oldest queued buffer has completed. */
    method Buffdone(room: nat)
      requires Valid() && queue != []
      modifies this
      ensures Valid()
      ensures running == old(running) && old(queue)[1..] <= queue
      ensures running ==> accepted == old(accepted) + Loads(room, old(dmaLoaded) - 1, dmaLimit)
      ensures running ==> dmaLoaded == dmaLimit || accepted == old(accepted) + room
      ensures !running ==> dmaLoaded == old(dmaLoaded) && dmaPos == old(dmaPos) && accepted == old(accepted)
    {
      queue := queue[1..];
      if running {
        dmaLoaded := dmaLoaded - 1;
        Enqueue(room);
      }
    }

    /** Prepare, with the DMA channel flushed. */
    method PrepareStream(start: nat, period: nat, n: nat)
      requires Valid() && !running && period > 0 && n > 0
      modifies this
      ensures Valid() && live && !running && accepted == 0 && queue == []
      ensures dmaStart == start && dmaPeriod == period && periods == n
    {
      dmaLoaded, dmaLimit, dmaPeriod, dmaStart := 0, periodsMin, period, start;
      dmaPos := start;
      dmaEnd := start + n * period;
      queue, accepted, periods, live := [], 0, n, true;
    }

    method TriggerStart(room: nat)
      requires Valid() && live && !running
      modifies this
      ensures Valid() && running && dmaLoaded == (if room < dmaLimit then room else dmaLimit)
    {
      running := true;
      Enqueue(room);
    }

    method TriggerStop()
      requires Valid()
      modifies `running, `live
      ensures Valid() && !running && !live
    {
      running, live := false, false;
    }

    /** The PCM layer starts a stream only when it is prepared, and prepares it only
        when it is not running; a buffer completes only if it was queued. */
    predicate Allowed(e: Event)
      reads this
    {
      match e
      case Prepare(_, period, n) => !running && period > 0 && n > 0
      case Start(_) => live && !running
      case Stop => true
      case Done(_) => queue != []
    }

    method Do(e: Event)
      requires Valid() && Allowed(e)
      modifies this
      ensures Valid()
    {
      match e {
        case Prepare(start, period, n) => PrepareStream(start, period, n);
        case Start(room) => TriggerStart(room);
        case Stop => TriggerStop();
        case Done(room) => Buffdone(room);
      }
    }

    /** Any run of prepare, start, stop and completions keeps the queue tracked
        and within its limit. */
    method Run(events: seq<Event>)
      requires Valid()
      modifies this
      ensures Valid()
    {
      for i := 0 to |events|
        invariant Valid()
      {
        if Allowed(events[i]) {
          Do(events[i]);
        }
      }
    }

    /** The queued buffers are consecutive periods of the buffer, in the order they
        were accepted, the `k`-th accepted one being period `k` modulo their number. */
    lemma Queued(i: nat)
      requires Valid() && live && i < |queue|
      ensures queue[i] == dmaStart + (accepted - |queue| + i) % periods * dmaPeriod
      ensures dmaStart <= queue[i] && queue[i] + dmaPeriod <= dmaEnd
      ensures (if i + 1 < |queue| then queue[i + 1] else dmaPos) == Next(dmaStart, dmaPeriod, dmaEnd, queue[i])
    {
      SlotIsCyclic(dmaStart, dmaPeriod, periods, accepted - |queue| + i);
    }
  }
}
