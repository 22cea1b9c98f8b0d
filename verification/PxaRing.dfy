/** The DMA descriptor ring and the shared sample rate of alsa/arm/pxa2xx-i2sound.c. */
module PxaRing {
  import opened Arith

  const MAX_DMA_XFER_SIZE: nat := 4096
  const DESC_SIZE: nat := 16

  /** A descriptor: link to the next one, address in the buffer (the other end is
      the I2S port), transfer length, end-of-period interrupt. */
  datatype Desc = Desc(link: nat, addr: nat, len: nat, irq: bool)

  /** Bytes per transfer, and transfers per period. */
  function XferSize(period: nat): nat {
    if period >= MAX_DMA_XFER_SIZE then MAX_DMA_XFER_SIZE else period
  }

  function PerPeriod(period: nat): (n: nat)
    requires period > 0
    ensures n >= 1 && (n - 1) * XferSize(period) < period <= n * XferSize(period)
  {
    CeilingDivide(period, XferSize(period));
    (period - 1) / XferSize(period) + 1
  }

  /** Descriptor `j` of period `i`, before the ring is closed. */
  function Descriptor(base: nat, buffer: nat, period: nat, i: nat, j: nat): (d: Desc)
    requires period > 0 && j < PerPeriod(period)
  {
    var x, n := XferSize(period), PerPeriod(period);
    InPeriod(period, j);
    Desc(base + (i * n + j + 1) * DESC_SIZE,
         buffer + i * period + j * x,
         if period - j * x >= x then x else period - j * x,
         j == n - 1)
  }

  lemma InPeriod(period: nat, j: nat)
    requires period > 0 && j < PerPeriod(period)
    ensures j * XferSize(period) < period
  {
    MulMonotone(j, PerPeriod(period) - 1, XferSize(period));
  }

  /** Every transfer moves between 1 and 4096 bytes, and each begins where the one before it ends. */
  lemma Tiles(base: nat, buffer: nat, period: nat, i: nat, j: nat)
    requires period > 0 && j < PerPeriod(period)
    ensures var d := Descriptor(base, buffer, period, i, j);
            && 1 <= d.len <= 4096 && (d.irq || d.len == 4096)
            && d.addr + d.len
            == if d.irq then buffer + (i + 1) * period else Descriptor(base, buffer, period, i, j + 1).addr
  {
    var x, n := XferSize(period), PerPeriod(period);
    InPeriod(period, j);
    assert (i + 1) * period == i * period + period;
    assert (j + 1) * x == j * x + x;
    if j < n - 1 {
      MulMonotone(j + 1, n - 1, x);
    }
  }

  /** The address range of the whole ring, from descriptor `j` of period `i` on, is covered without a gap. */
  ghost predicate Covers(base: nat, buffer: nat, period: nat, periods: nat, a: nat)
    requires period > 0
  {
    exists i: nat, j: nat | i < periods && j < PerPeriod(period) ::
      var d := Descriptor(base, buffer, period, i, j); d.addr <= a < d.addr + d.len
  }

  /** Every byte of the buffer lies in some transfer... */
  lemma EveryByteCovered(base: nat, buffer: nat, period: nat, periods: nat, a: nat)
    requires period > 0 && buffer <= a < buffer + periods * period
    ensures Covers(base, buffer, period, periods, a)
  {
    var o := a - buffer;
    var i, r := o / period, o % period;
    DivMod(o, period);
    if i >= periods {
      MulMonotone(periods, i, period);
      assert false;
    }
    var x := XferSize(period);
    var j, s := r / x, r % x;
    DivMod(r, x);
    if j >= PerPeriod(period) {
      MulMonotone(PerPeriod(period), j, x);
      assert false;
    }
    var d := Descriptor(base, buffer, period, i, j);
    assert d.addr <= a < d.addr + d.len;
  }

  /** ...and in no other. */
  lemma NoByteTwice(base: nat, buffer: nat, period: nat, i: nat, j: nat, i': nat, j': nat, a: nat)
    requires period > 0 && j < PerPeriod(period) && j' < PerPeriod(period)
    requires var d := Descriptor(base, buffer, period, i, j); d.addr <= a < d.addr + d.len
    requires var d := Descriptor(base, buffer, period, i', j'); d.addr <= a < d.addr + d.len
    ensures i == i' && j == j'
  {
    var x := XferSize(period);
    InPeriod(period, j);
    InPeriod(period, j');
    QuotientUnique(i, a - buffer - i * period, i', a - buffer - i' * period, period);
    QuotientUnique(j, a - buffer - i * period - j * x, j', a - buffer - i * period - j' * x, x);
  }

  lemma InItsPeriod(base: nat, buffer: nat, period: nat, i: nat, j: nat)
    requires period > 0 && j < PerPeriod(period)
    ensures var d := Descriptor(base, buffer, period, i, j);
            buffer <= buffer + i * period <= d.addr && d.addr + d.len <= buffer + i * period + period
  {
    InPeriod(period, j);
    MulMonotone(0, j, XferSize(period));
    MulMonotone(0, i, period);
  }

  /** Every transfer lies inside the buffer. */
  lemma InsideBuffer(base: nat, buffer: nat, period: nat, periods: nat, i: nat, j: nat)
    requires period > 0 && i < periods && j < PerPeriod(period)
    ensures var d := Descriptor(base, buffer, period, i, j);
            buffer <= d.addr && d.addr + d.len <= buffer + periods * period
  {
    InItsPeriod(base, buffer, period, i, j);
    Distribute(i, 1, period);
    MulMonotone(i + 1, periods, period);
  }

  /** When the buffer is a whole number of periods, the transfers cover exactly the buffer. */
  lemma WholeBuffer(base: nat, buffer: nat, bufferSize: nat, period: nat, a: nat)
    requires period > 0 && bufferSize % period == 0
    ensures Covers(base, buffer, period, bufferSize / period, a) <==> buffer <= a < buffer + bufferSize
  {
    var periods: nat := bufferSize / period;
    DivMod(bufferSize, period);
    if buffer <= a < buffer + bufferSize {
      EveryByteCovered(base, buffer, period, periods, a);
    }
    if Covers(base, buffer, period, periods, a) {
      var i: nat, j: nat :| i < periods && j < PerPeriod(period) &&
        var d := Descriptor(base, buffer, period, i, j); d.addr <= a < d.addr + d.len;
      InsideBuffer(base, buffer, period, periods, i, j);
    }
  }

  // ----- The ring in memory -----

  /** Entry `k` of the ring while it is still open. */
  function Entry(base: nat, buffer: nat, period: nat, k: nat): (d: Desc)
    requires period > 0
    ensures d.link == base + (k + 1) * DESC_SIZE
  {
    DivMod(k, PerPeriod(period));
    Descriptor(base, buffer, period, k / PerPeriod(period), k % PerPeriod(period))
  }

  lemma EntryAt(base: nat, buffer: nat, period: nat, i: nat, j: nat)
    requires period > 0 && j < PerPeriod(period)
    ensures Entry(base, buffer, period, i * PerPeriod(period) + j) == Descriptor(base, buffer, period, i, j)
  {
    var n := PerPeriod(period);
    var k := i * n + j;
    DivMod(k, n);
    QuotientUnique(i, j, k / n, k % n, n);
  }

  /** The ring of `periods` periods: the last entry links back to the first. */
  function Ring(base: nat, buffer: nat, period: nat, periods: nat): (r: seq<Desc>)
    requires period > 0
    ensures |r| == periods * PerPeriod(period)
  {
    var n := periods * PerPeriod(period);
    seq(n, k requires 0 <= k < n =>
      if k == n - 1 then Entry(base, buffer, period, k).(link := base) else Entry(base, buffer, period, k))
  }

  /** The fill loops of `snd_pxa2xx_i2sound_ngn_init_buffer`. */
  method FillRing(ring: array<Desc>, base: nat, buffer: nat, bufferSize: nat, period: nat)
    requires 0 < period <= bufferSize && ring.Length == bufferSize / period * PerPeriod(period)
    modifies ring
    ensures ring[..] == Ring(base, buffer, period, bufferSize / period)
  {
    var xfer := if period >= MAX_DMA_XFER_SIZE then MAX_DMA_XFER_SIZE else period;
    var dpp := PerPeriod(period);
    var periods := bufferSize / period;
    var i, di, p := 0, 0, buffer;
    while i < periods
      invariant 0 <= i <= periods && di == i * dpp && p == buffer + i * period
      invariant forall k | 0 <= k < di && k < ring.Length :: ring[k] == Entry(base, buffer, period, k)
    {
      MulMonotone(i + 1, periods, dpp);
      assert (i + 1) * dpp == i * dpp + dpp && (i + 1) * period == i * period + period;
      FillPeriod(ring, di, i, p, base, buffer, period, dpp, xfer);
      i, di, p := i + 1, di + dpp, p + period;
    }
    MulMonotone(1, periods, dpp);
    ring[di - 1] := ring[di - 1].(link := base);
  }

  /** The descriptors of one period; the last one gets the interrupt. */
  method FillPeriod(
    ring: array<Desc>, first: nat, ghost i: nat, p: nat, base: nat, ghost buffer: nat, period: nat, dpp: nat, xfer: nat)
    requires period > 0 && dpp == PerPeriod(period) && xfer == XferSize(period)
    requires first == i * dpp && first + dpp <= ring.Length && p == buffer + i * period
    modifies ring
    ensures forall k | 0 <= k < first :: ring[k] == old(ring[k])
    ensures forall k | first <= k < first + dpp :: ring[k] == Entry(base, buffer, period, k)
  {
    var j, addr := 0, p;
    while j < dpp
      invariant 0 <= j <= dpp && addr == p + j * xfer
      invariant forall k | 0 <= k < first :: ring[k] == old(ring[k])
      invariant forall k | first <= k < first + j :: ring[k] == Entry(base, buffer, period, k).(irq := false)
    {
      FillOne(ring, first + j, i, j, p, addr, base, buffer, period, xfer);
      Distribute(j, 1, xfer);
      j, addr := j + 1, addr + xfer;
    }
    NoIrqBefore(base, buffer, period, i);
    Distribute(i, 1, dpp);
    ring[first + dpp - 1] := ring[first + dpp - 1].(irq := true);
  }

  /** One descriptor, still without the interrupt. */
  method FillOne(
    ring: array<Desc>, di: nat, ghost i: nat, ghost j: nat, p: nat, addr: nat, base: nat, ghost buffer: nat,
    period: nat, xfer: nat)
    requires period > 0 && j < PerPeriod(period) && xfer == XferSize(period)
    requires di == i * PerPeriod(period) + j < ring.Length && p == buffer + i * period && addr == p + j * xfer
    modifies ring
    ensures ring[di] == Entry(base, buffer, period, di).(irq := false)
    ensures forall k | 0 <= k < ring.Length && k != di :: ring[k] == old(ring[k])
  {
    InPeriod(period, j);
    EntryAt(base, buffer, period, i, j);
    var rest := p + period - addr;
    ring[di] := Desc(base + (di + 1) * DESC_SIZE, addr, if rest >= xfer then xfer else rest, false);
  }

  /** In each period exactly the last entry has the interrupt. */
  lemma NoIrqBefore(base: nat, buffer: nat, period: nat, i: nat)
    requires period > 0
    ensures forall k | i * PerPeriod(period) <= k < (i + 1) * PerPeriod(period) ::
              Entry(base, buffer, period, k).irq == (k == (i + 1) * PerPeriod(period) - 1)
  {
    var n := PerPeriod(period);
    assert (i + 1) * n == i * n + n;
    forall k | i * n <= k < (i + 1) * n
      ensures Entry(base, buffer, period, k).irq == (k == (i + 1) * n - 1)
    {
      EntryAt(base, buffer, period, i, k - i * n);
    }
  }

  /** The whole ring, entry by entry: it starts with the buffer; each transfer has 1 to 4096
      bytes, and less than 4096 only at the end of a period; it ends where the next one begins,
      and the last one with the last period; the interrupt comes exactly at the end of a period;
      and the link is the address of the next descriptor of 16 bytes, or of the first. */
  lemma RingLaw(base: nat, buffer: nat, period: nat, periods: nat, k: nat)
    requires period > 0 && k < periods * PerPeriod(period)
    ensures var r := Ring(base, buffer, period, periods);
            && |r| == periods * PerPeriod(period) && (k == 0 ==> r[k].addr == buffer)
            && 1 <= r[k].len <= 4096 && (r[k].irq || r[k].len == 4096)
            && r[k].addr >= buffer
            && r[k].addr + r[k].len == (if k + 1 < |r| then r[k + 1].addr else buffer + periods * period)
            && (r[k].irq <==> (r[k].addr + r[k].len - buffer) % period == 0)
            && r[k].link == base + 16 * (if k + 1 < |r| then k + 1 else 0)
  {
    var n := PerPeriod(period);
    var i, j := k / n, k % n;
    DivMod(k, n);
    EntryAt(base, buffer, period, i, j);
    Tiles(base, buffer, period, i, j);
    QuotientBelow(k, periods, n);
    InItsPeriod(base, buffer, period, i, j);
    EndsPeriod(base, buffer, period, i, j);
    if k == 0 {
      ModUnique(0, n, 0, 0);
    }
    Distribute(i, 1, n);
    Distribute(i, 1, period);
    if j + 1 < n {
      EntryAt(base, buffer, period, i, j + 1);
      MulMonotone(i + 1, periods, n);
    } else {
      LastOfPeriod(base, buffer, period, periods, i);
    }
  }

  /** Behind the last descriptor of a period comes the first one of the next. */
  lemma LastOfPeriod(base: nat, buffer: nat, period: nat, periods: nat, i: nat)
    requires period > 0 && i < periods
    ensures var n := PerPeriod(period);
            if i + 1 < periods then
              (i + 1) * n < periods * n && Entry(base, buffer, period, (i + 1) * n).addr == buffer + (i + 1) * period
            else (i + 1) * n == periods * n && (i + 1) * period == periods * period
  {
    var n := PerPeriod(period);
    if i + 1 < periods {
      MulMonotone(i + 2, periods, n);
      Distribute(i + 1, 1, n);
      EntryAt(base, buffer, period, i + 1, 0);
    }
  }

  lemma EndsPeriod(base: nat, buffer: nat, period: nat, i: nat, j: nat)
    requires period > 0 && j < PerPeriod(period)
    ensures var d := Descriptor(base, buffer, period, i, j);
            d.addr + d.len >= buffer && (d.irq <==> (d.addr + d.len - buffer) % period == 0)
  {
    var d := Descriptor(base, buffer, period, i, j);
    Tiles(base, buffer, period, i, j);
    if d.irq {
      ModUnique((i + 1) * period, period, i + 1, 0);
    } else {
      InPeriod(period, j + 1);
      var x := XferSize(period);
      Distribute(j, 1, x);
      MulMonotone(0, j, x);
      ModUnique(i * period + (j + 1) * x, period, i, (j + 1) * x);
    }
  }

  // ----- One lap -----

  /** The entry a link points to. */
  function Follow(r: seq<Desc>, base: nat, k: nat): (k': int)
    requires k < |r|
  {
    (r[k].link - base) / DESC_SIZE
  }

  function Walk(r: seq<Desc>, base: nat, steps: nat): int
    requires forall k: nat | k < |r| :: 0 <= Follow(r, base, k) < |r|
    requires r != []
    ensures 0 <= Walk(r, base, steps) < |r|
  {
    if steps == 0 then 0 else Follow(r, base, Walk(r, base, steps - 1))
  }

  lemma Links(base: nat, buffer: nat, period: nat, periods: nat, k: nat)
    requires period > 0 && k < periods * PerPeriod(period)
    ensures var r := Ring(base, buffer, period, periods);
            Follow(r, base, k) == if k + 1 == |r| then 0 else k + 1
  {
  }

  /** From the first descriptor the links visit every entry in order, and after
      exactly one lap the first one again. */
  lemma {:induction false} OneLap(base: nat, buffer: nat, period: nat, periods: nat, steps: nat)
    requires period > 0 && periods > 0 && steps <= periods * PerPeriod(period)
    ensures var r := Ring(base, buffer, period, periods);
            && r != [] && (forall k: nat | k < |r| :: 0 <= Follow(r, base, k) < |r|)
            && Walk(r, base, steps) == if steps == |r| then 0 else steps
  {
    var r := Ring(base, buffer, period, periods);
    MulMonotone(1, periods, PerPeriod(period));
    forall k: nat | k < |r|
      ensures 0 <= Follow(r, base, k) < |r|
    {
      Links(base, buffer, period, periods, k);
    }
    if steps > 0 {
      OneLap(base, buffer, period, periods, steps - 1);
      Links(base, buffer, period, periods, steps - 1);
    }
  }

  // ----- The shared rate -----

  /** Both streams run at the one rate of the engine. */
  class RateEngine {
    var rate: nat
    var inUse: set<nat>
    /** The rate each stream in use asked for and got. */
    ghost var granted: map<nat, nat>

    ghost predicate Valid()
      reads this
    {
      granted.Keys == inUse && forall s <- inUse :: granted[s] == rate
    }

    constructor ()
      ensures Valid() && inUse == {}
    {
      rate, inUse, granted := 0, {}, map[];
    }

    /** `ngn_request_rate`; `settable` says whether the hardware takes the rate.
        A refused stream is no longer counted as a user. */
    method RequestRate(stream: nat, wanted: nat, settable: bool) returns (ok: bool)
      requires Valid()
      modifies this
      ensures Valid()
      ensures ok == (wanted == old(rate) || (old(inUse) <= {stream} && settable))
      ensures rate == (if ok then wanted else old(rate))
      ensures inUse == (if ok then old(inUse) + {stream} else old(inUse) - {stream})
      ensures forall s | s in old(inUse) && s != stream :: s in inUse && granted[s] == old(granted[s])
    {
      inUse, granted := inUse - {stream}, granted - {stream};
      if wanted != rate {
        if inUse != {} || !settable {
          return false;
        }
        rate := wanted;
      }
      inUse, granted := inUse + {stream}, granted[stream := wanted];
      ok := true;
    }

    method FreeRate(stream: nat)
      requires Valid()
      modifies this
      ensures Valid() && rate == old(rate) && inUse == old(inUse) - {stream}
    {
      inUse, granted := inUse - {stream}, granted - {stream};
    }
  }
}
