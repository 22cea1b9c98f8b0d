/** The OSS minor allocator of sound/sound_core.c: sixteen chains of units,
    chain `c` holding the minors congruent to `c` modulo 16 in ascending order. */
module SoundCore {

  const SOUND_STEP: nat := 16

  datatype Unit = Unit(minor: nat, fops: nat)

  datatype Result = Minor(n: nat) | ENOENT | EBUSY

  predicate Ascending(units: seq<Unit>) {
    forall i, j | 0 <= i < j < |units| :: units[i].minor < units[j].minor
  }

  predicate IsChain(units: seq<Unit>, c: nat) {
    Ascending(units) && forall i | 0 <= i < |units| :: units[i].minor % SOUND_STEP == c
  }

  /** `n` is one of the minors tried from `low` on, below `top`. */
  predicate Candidate(n: nat, low: nat, top: int) {
    low <= n < top && n % SOUND_STEP == low % SOUND_STEP
  }

  predicate IsTaken(units: seq<Unit>, n: nat) {
    exists i | 0 <= i < |units| :: units[i].minor == n
  }

  function Inserted(units: seq<Unit>, p: nat, u: Unit): seq<Unit>
    requires p <= |units|
  {
    units[..p] + [u] + units[p..]
  }

  /** Everything before `p` is smaller than `n` and everything from `p` on is larger. */
  predicate FitsAt(units: seq<Unit>, p: nat, n: nat) {
    && p <= |units|
    && (forall i | 0 <= i < p :: units[i].minor < n)
    && (forall i | p <= i < |units| :: n < units[i].minor)
  }

  /** `after` is `before` with `u`, whose minor was free, put in its place. */
  ghost predicate Placed(before: seq<Unit>, after: seq<Unit>, u: Unit) {
    !IsTaken(before, u.minor) && exists p :: FitsAt(before, p, u.minor) && after == Inserted(before, p, u)
  }

  lemma InsertKeepsChain(units: seq<Unit>, p: nat, u: Unit, c: nat)
    requires IsChain(units, c) && FitsAt(units, p, u.minor) && u.minor % SOUND_STEP == c
    ensures IsChain(Inserted(units, p, u), c)
    ensures forall n: nat :: IsTaken(Inserted(units, p, u), n) <==> n == u.minor || IsTaken(units, n)
    ensures Inserted(units, p, u)[..p] + Inserted(units, p, u)[p + 1..] == units
  {
    InsertedAt(units, p, u);
    InsertedTaken(units, p, u);
  }

  lemma InsertedAt(units: seq<Unit>, p: nat, u: Unit)
    requires p <= |units|
    ensures var r := Inserted(units, p, u);
            && (forall i | 0 <= i < |r| :: r[i] == if i < p then units[i] else if i == p then u else units[i - 1])
            && r[..p] + r[p + 1..] == units
  {
  }

  lemma InsertedTaken(units: seq<Unit>, p: nat, u: Unit)
    requires p <= |units|
    ensures forall n: nat :: IsTaken(Inserted(units, p, u), n) <==> n == u.minor || IsTaken(units, n)
  {
    var r := Inserted(units, p, u);
    InsertedAt(units, p, u);
    assert forall i | 0 <= i < |units| :: units[i] == r[if i < p then i else i + 1];
    assert r[p] == u;
  }

  lemma NextMinor(a: nat, b: nat)
    requires a < b && a % SOUND_STEP == b % SOUND_STEP
    ensures a + SOUND_STEP <= b
  {
  }

  /** A minor of the chain that is taken is passed in one step. */
  lemma SkipTaken(units: seq<Unit>, p: nat, n: nat, low: nat, top: int)
    requires IsChain(units, low % SOUND_STEP) && n % SOUND_STEP == low % SOUND_STEP
    requires p < |units| && units[p].minor == n
    requires AllTaken(units, low, top, n)
    ensures (n + SOUND_STEP) % SOUND_STEP == low % SOUND_STEP && AllTaken(units, low, top, n + SOUND_STEP)
    ensures forall i | p < i < |units| :: n + SOUND_STEP <= units[i].minor
  {
    forall i | p < i < |units|
      ensures n + SOUND_STEP <= units[i].minor
    {
      NextMinor(n, units[i].minor);
    }
    forall m: nat | Candidate(m, low, top) && m < n + SOUND_STEP
      ensures IsTaken(units, m)
    {
      if m > n {
        NextMinor(n, m);
      }
    }
  }

  /** Every candidate below `n` is taken. */
  ghost predicate AllTaken(units: seq<Unit>, low: nat, top: int, n: nat) {
    forall m: nat | Candidate(m, low, top) && m < n :: IsTaken(units, m)
  }

  class Chains {
    const chains: array<seq<Unit>>
    /** With pre-claiming, the chrdev layer is not asked for single minors. */
    const preclaim: bool

    constructor (preclaim: bool)
      ensures Valid() && this.preclaim == preclaim && fresh(chains)
      ensures forall c | 0 <= c < 16 :: chains[c] == []
    {
      this.preclaim := preclaim;
      chains := new seq<Unit>[16](_ => []);
    }

    /** Every chain is ascending and holds only its own residue. */
    ghost predicate Valid()
      reads chains
    {
      chains.Length == 16 && forall c | 0 <= c < 16 :: IsChain(chains[c], c)
    }

    /** Nothing but chain `c` differs from `before`. */
    ghost predicate Only(c: nat, before: seq<seq<Unit>>)
      reads chains
    {
      |before| == chains.Length && forall i | 0 <= i < chains.Length && i != c :: chains[i] == before[i]
    }

    /** Scans for the place of the first free minor. */
    method FindHole(units: seq<Unit>, low: nat, top: int) returns (n: nat, p: nat)
      requires IsChain(units, low % SOUND_STEP)
      ensures n % SOUND_STEP == low % SOUND_STEP && n >= low
      ensures AllTaken(units, low, top, n)
      ensures n < top ==> FitsAt(units, p, n)
    {
      n, p := low, 0;
      while p < |units| && units[p].minor < n
        invariant 0 <= p <= |units| && forall i | 0 <= i < p :: units[i].minor < n
      {
        p := p + 1;
      }
      while n < top
        invariant n % SOUND_STEP == low % SOUND_STEP && n >= low && 0 <= p <= |units|
        invariant forall i | 0 <= i < p :: units[i].minor < n
        invariant forall i | p <= i < |units| :: n <= units[i].minor
        invariant AllTaken(units, low, top, n)
        decreases top - n
      {
        if p == |units| || units[p].minor > n {
          break;
        }
        SkipTaken(units, p, n, low, top);
        p := p + 1;
        n := n + SOUND_STEP;
      }
    }

    /** Scans for the place of one given minor; `busy` when it is taken. */
    method FindPlace(units: seq<Unit>, n: nat) returns (busy: bool, p: nat)
      requires Ascending(units)
      ensures busy == IsTaken(units, n)
      ensures !busy ==> FitsAt(units, p, n)
    {
      busy, p := false, 0;
      while p < |units|
        invariant 0 <= p <= |units| && forall i | 0 <= i < p :: units[i].minor < n
      {
        if units[p].minor == n {
          return true, p;
        }
        if units[p].minor > n {
          return;
        }
        p := p + 1;
      }
    }

    /** `__sound_insert_unit`. */
    method InsertLocked(c: nat, fops: nat, index: int, low: nat, top: int) returns (r: Result, ghost p: nat)
      requires Valid() && c < 16 && low % SOUND_STEP == c
      modifies chains
      ensures Valid() && Only(c, old(chains[..]))
      ensures r.Minor? ==> FitsAt(old(chains[c]), p, r.n) && chains[c] == Inserted(old(chains[c]), p, Unit(r.n, fops))
      ensures !r.Minor? ==> chains[c] == old(chains[c])
      ensures index < 0 ==> !r.EBUSY?
      ensures index < 0 ==>
                forall m: nat | Candidate(m, low, top) && (r.Minor? ==> m < r.n) :: IsTaken(old(chains[c]), m)
      ensures index < 0 && r.Minor? ==> Candidate(r.n, low, top) && !IsTaken(old(chains[c]), r.n)
      ensures index >= 0 ==> r == if IsTaken(old(chains[c]), low + index * 16) then EBUSY else Minor(low + index * 16)
    {
      var units := chains[c];
      var n: nat, q: nat;
      if index < 0 {
        n, q := FindHole(units, low, top);
        if n >= top {
          return ENOENT, 0;
        }
      } else {
        n := low + index * 16;
        var busy;
        busy, q := FindPlace(units, n);
        if busy {
          return EBUSY, 0;
        }
      }
      p := q;
      InsertKeepsChain(units, q, Unit(n, fops), c);
      chains[c] := units[..q] + [Unit(n, fops)] + units[q..];
      r := Minor(n);
    }

    /** `__sound_remove_unit`: unlinks the unit with the given minor, if there is one. */
    method RemoveLocked(c: nat, minor: nat) returns (found: bool)
      requires Valid() && c < 16
      modifies chains
      ensures Valid() && Only(c, old(chains[..]))
      ensures found == IsTaken(old(chains[c]), minor)
      ensures !found ==> chains[c] == old(chains[c])
      ensures forall p | 0 <= p < |old(chains[c])| && old(chains[c])[p].minor == minor ::
                chains[c] == old(chains[c])[..p] + old(chains[c])[p + 1..]
    {
      var units := chains[c];
      var p := 0;
      while p < |units|
        invariant 0 <= p <= |units| && forall i | 0 <= i < p :: units[i].minor != minor
      {
        if units[p].minor == minor {
          chains[c] := units[..p] + units[p + 1..];
          return true;
        }
        p := p + 1;
      }
      found := false;
    }

    /** Whether the chrdev layer stands in the way of minor `n`. */
    predicate Refused(refuses: set<nat>, n: nat) {
      !preclaim && n in refuses
    }

    /** One try of `sound_insert_unit`: a unit that the chrdev layer refuses is
        taken out again, which leaves the chain as it was. */
    method TryInsert(c: nat, fops: nat, index: int, low: nat, top: int, refuses: set<nat>)
      returns (r: Result, refused: bool)
      requires Valid() && c < 16 && low % SOUND_STEP == c
      modifies chains
      ensures Valid() && Only(c, old(chains[..]))
      ensures !r.Minor? || refused ==> chains[..] == old(chains[..])
      ensures r.Minor? && !refused ==> Placed(old(chains[c]), chains[c], Unit(r.n, fops))
      ensures refused == (r.Minor? && Refused(refuses, r.n))
      ensures index < 0 ==> !r.EBUSY?
      ensures index < 0 ==>
                forall m: nat | Candidate(m, low, top) && (r.Minor? ==> m < r.n) :: IsTaken(old(chains[c]), m)
      ensures index < 0 && r.Minor? ==> Candidate(r.n, low, top) && !IsTaken(old(chains[c]), r.n)
      ensures index >= 0 ==> r == if IsTaken(old(chains[c]), low + index * 16) then EBUSY else Minor(low + index * 16)
    {
      ghost var units, all := chains[c], chains[..];
      ghost var p: nat;
      r, p := InsertLocked(c, fops, index, low, top);
      refused := r.Minor? && Refused(refuses, r.n);
      if refused {
        InsertKeepsChain(units, p, Unit(r.n, fops), c);
        assert chains[c][p].minor == r.n;
        var _ := RemoveLocked(c, r.n);
      }
    }

    /** The answer `r` to a request that finds chain `before` and leaves `after`. With
        no index the minor given out is the least candidate that is neither taken nor
        refused, and there is none exactly when -ENOENT comes back; an index names one
        minor. A failed request leaves the chain as it was. */
    ghost predicate Allotted(
      before: seq<Unit>, after: seq<Unit>, fops: nat, index: int, low: nat, top: int, refuses: set<nat>, r: Result)
    {
      && (if r.Minor? then !Refused(refuses, r.n) && Placed(before, after, Unit(r.n, fops)) else after == before)
      && (index < 0 ==>
            && !r.EBUSY? && (r.Minor? ==> Candidate(r.n, low, top))
            && forall m: nat | Candidate(m, low, top) && (r.Minor? ==> m < r.n) ::
                 IsTaken(before, m) || Refused(refuses, m))
      && (index >= 0 ==>
            var n := low + index * 16;
            r == if IsTaken(before, n) || Refused(refuses, n) then EBUSY else Minor(n))
    }

    /** `sound_insert_unit`: a unit the chrdev layer refuses is taken out again, and
        a first-free request goes on behind it. */
    method InsertUnit(c: nat, fops: nat, index: int, low: nat, top: int, refuses: set<nat>) returns (r: Result)
      requires Valid() && c < 16 && low % SOUND_STEP == c
      modifies chains
      ensures Valid() && Only(c, old(chains[..]))
      ensures Allotted(old(chains[c]), chains[c], fops, index, low, top, refuses, r)
      ensures r.Minor? ==> (r.n < top <==> index < 0 || low + index * 16 < top)
    {
      var from := low;
      while true
        invariant Valid() && chains[..] == old(chains[..])
        invariant from % SOUND_STEP == c && from >= low && (index >= 0 ==> from == low)
        invariant index < 0 ==>
                    forall m: nat | Candidate(m, low, top) && m < from :: IsTaken(chains[c], m) || Refused(refuses, m)
        decreases top - from
      {
        ghost var units := chains[c];
        var refused;
        r, refused := TryInsert(c, fops, index, from, top, refuses);
        if !refused {
          return;
        }
        if index >= 0 {
          return EBUSY;
        }
        forall m: nat | Candidate(m, low, top) && m < r.n + SOUND_STEP
          ensures IsTaken(units, m) || Refused(refuses, m)
        {
          if m > r.n {
            NextMinor(r.n, m);
          }
        }
        from := r.n + SOUND_STEP;
      }
    }

    /** `__look_for_unit`, which gives up at the first larger minor. */
    method LookFor(c: nat, minor: nat) returns (found: bool, u: Unit)
      requires Valid() && c < 16
      ensures found == IsTaken(chains[c], minor)
      ensures found ==> u in chains[c] && u.minor == minor
    {
      var units := chains[c];
      var p := 0;
      found, u := false, Unit(0, 0);
      while p < |units| && units[p].minor <= minor
        invariant 0 <= p <= |units| && forall i | 0 <= i < p :: units[i].minor < minor
      {
        if units[p].minor == minor {
          return true, units[p];
        }
        p := p + 1;
      }
    }

    /** `sound_remove_unit`. */
    method RemoveUnit(c: nat, minor: nat) returns (found: bool)
      requires Valid() && c < 16
      modifies chains
      ensures Valid() && Only(c, old(chains[..]))
      ensures found == IsTaken(old(chains[c]), minor)
      ensures forall n: nat :: IsTaken(chains[c], n) <==> IsTaken(old(chains[c]), n) && n != minor
    {
      ghost var units := chains[c];
      found := RemoveLocked(c, minor);
      if found {
        ghost var p :| 0 <= p < |units| && units[p].minor == minor;
        RemovedTaken(units, p);
      }
    }

    // ----- The registration calls -----

    /** The chain and the bound that `register_sound_special_device` uses for a minor:
        the two sequencers have one minor each. */
    function SpecialTop(unit: nat): int {
      if unit % SOUND_STEP in {1, 8} && unit < SOUND_STEP then unit + 1 else 256
    }

    method RegisterSpecial(fops: nat, unit: nat, refuses: set<nat>) returns (r: Result)
      requires Valid()
      modifies chains
      ensures Valid() && Only(unit % 16, old(chains[..]))
      ensures var c := unit % SOUND_STEP;
              Allotted(old(chains[c]), chains[c], fops, -1, unit, SpecialTop(unit), refuses, r)
      ensures unit != 1 && unit != 8 ==>
                Allotted(old(chains[unit % 16]), chains[unit % 16], fops, -1, unit, 256, refuses, r)
      ensures unit == 1 || unit == 8 ==>
                Allotted(old(chains[unit % 16]), chains[unit % 16], fops, -1, unit, unit + 1, refuses, r)
      ensures unit in {1, 8} && r.Minor? ==> r.n == unit
    {
      r := InsertUnit(unit % SOUND_STEP, fops, -1, unit, SpecialTop(unit), refuses);
    }

    method RegisterMixer(fops: nat, dev: int, refuses: set<nat>) returns (r: Result)
      requires Valid()
      modifies chains
      ensures Valid() && Only(0, old(chains[..]))
      ensures Allotted(old(chains[0]), chains[0], fops, dev, 0, 128, refuses, r)
      ensures r.Minor? ==> r.n % SOUND_STEP == 0 && (dev < 0 ==> r.n < 128)
    {
      r := InsertUnit(0, fops, dev, 0, 128, refuses);
    }

    method RegisterMidi(fops: nat, dev: int, refuses: set<nat>) returns (r: Result)
      requires Valid()
      modifies chains
      ensures Valid() && Only(2, old(chains[..]))
      ensures Allotted(old(chains[2]), chains[2], fops, dev, 2, 130, refuses, r)
      ensures r.Minor? ==> r.n % SOUND_STEP == 2 && (dev < 0 ==> r.n < 130)
    {
      r := InsertUnit(2, fops, dev, 2, 130, refuses);
    }

    method RegisterDsp(fops: nat, dev: int, refuses: set<nat>) returns (r: Result)
      requires Valid()
      modifies chains
      ensures Valid() && Only(3, old(chains[..]))
      ensures Allotted(old(chains[3]), chains[3], fops, dev, 3, 131, refuses, r)
      ensures r.Minor? ==> r.n % SOUND_STEP == 3 && (dev < 0 ==> r.n < 131)
    {
      r := InsertUnit(3, fops, dev, 3, 131, refuses);
    }

    /** Every run of registrations, refused or not, and removals keeps the chains in order. */
    method Run(calls: seq<Call>)
      requires Valid()
      modifies chains
      ensures Valid()
    {
      for i := 0 to |calls|
        invariant Valid()
      {
        match calls[i] {
          case Special(unit, refuses) => var _ := RegisterSpecial(i, unit, refuses);
          case Mixer(dev, refuses) => var _ := RegisterMixer(i, dev, refuses);
          case Midi(dev, refuses) => var _ := RegisterMidi(i, dev, refuses);
          case Dsp(dev, refuses) => var _ := RegisterDsp(i, dev, refuses);
          case Unregister(unit) => var _ := RemoveUnit(unit % SOUND_STEP, unit);
        }
      }
    }
  }

  /** A call into the allocator, with the minors the chrdev layer refuses meanwhile. */
  datatype Call =
    | Special(unit: nat, refuses: set<nat>)
    | Mixer(dev: int, refuses: set<nat>)
    | Midi(dev: int, refuses: set<nat>)
    | Dsp(dev: int, refuses: set<nat>)
    | Unregister(unit: nat)

  /** Mixers requested by index: minors at and behind the bound of 128 are given out, the
      second one behind all the minors there are. */
  method BehindTheBound() returns (t: Chains, r1: Result, r2: Result)
    ensures fresh(t) && t.Valid() && r1 == Minor(128) && r2 == Minor(256)
  {
    t := new Chains(true);
    r1 := t.RegisterMixer(0, 8, {});
    assert Placed([], t.chains[0], Unit(128, 0));
    assert !IsTaken(t.chains[0], 256);
    r2 := t.RegisterMixer(0, 16, {});
  }

  lemma StillTaken(units: seq<Unit>, p: nat, n: nat)
    requires p < |units| && IsTaken(units, n) && n != units[p].minor
    ensures IsTaken(units[..p] + units[p + 1..], n)
  {
    var i :| 0 <= i < |units| && units[i].minor == n;
    assert (units[..p] + units[p + 1..])[if i < p then i else i - 1] == units[i];
  }

  lemma WasTaken(units: seq<Unit>, p: nat, n: nat)
    requires Ascending(units) && p < |units| && IsTaken(units[..p] + units[p + 1..], n)
    ensures IsTaken(units, n) && n != units[p].minor
  {
    var r := units[..p] + units[p + 1..];
    var i :| 0 <= i < |r| && r[i].minor == n;
    assert r[i] == units[if i < p then i else i + 1];
  }

  lemma RemovedTaken(units: seq<Unit>, p: nat)
    requires Ascending(units) && p < |units|
    ensures forall n: nat :: IsTaken(units[..p] + units[p + 1..], n) <==> IsTaken(units, n) && n != units[p].minor
  {
    forall n: nat
      ensures IsTaken(units[..p] + units[p + 1..], n) <==> IsTaken(units, n) && n != units[p].minor
    {
      if IsTaken(units[..p] + units[p + 1..], n) {
        WasTaken(units, p, n);
      } else if IsTaken(units, n) && n != units[p].minor {
        StillTaken(units, p, n);
      }
    }
  }
}
