/** The shared frame slots of native/shm_sync.c: what each call does when nothing else runs, and
    when a write scan that runs alone finds a free slot. */
module FrameSlots {
  import opened Wrappers
  import opened Bits
  import opened Bitstream

  const MAX_SLOTS := 8

  datatype FrameState = Free | Writing | Ready | Reading

  datatype Meta = Meta(frameIndex: nat, width: nat, height: nat)

  datatype Slot = Slot(state: FrameState, generation: nat, meta: Meta)

  datatype Region = Region(slots: seq<Slot>, writeCursor: nat) {
    predicate Valid() {
      1 <= |slots| <= MAX_SLOTS && writeCursor < U32 && forall s <- slots :: s.generation < U64
    }
  }

  const FRESH_SLOT := Slot(Free, 0, Meta(0, 0, 0))

  /** `try_transition` succeeds exactly on the expected state. */
  predicate CanTransition(region: Region, i: nat, expected: FrameState) {
    i < |region.slots| && region.slots[i].state == expected
  }

  function SetState(region: Region, i: nat, desired: FrameState): Region
    requires i < |region.slots|
  {
    region.(slots := region.slots[i := region.slots[i].(state := desired)])
  }

  function SetMeta(region: Region, i: nat, meta: Meta): Region
    requires i < |region.slots|
  {
    region.(slots := region.slots[i := region.slots[i].(meta := meta)])
  }

  /** The 64-bit counter of READY transitions wraps. */
  function CountUp(region: Region, i: nat): Region
    requires i < |region.slots|
  {
    region.(slots := region.slots[i := region.slots[i].(generation := (region.slots[i].generation + 1) % U64)])
  }

  /** The fetch-and-add on the 32-bit cursor. */
  function Advance(region: Region): Region {
    region.(writeCursor := (region.writeCursor + 1) % U32)
  }

  /** The write scan from its given attempt on, running alone. */
  function ScanWrite(region: Region, attempt: nat): (Region, Option<nat>)
    requires |region.slots| > 0
    decreases |region.slots| - attempt
  {
    if attempt >= |region.slots| then (region, None)
    else
      var idx := region.writeCursor % |region.slots|;
      var next := Advance(region);
      if CanTransition(next, idx, Free) then (SetState(next, idx, Writing), Some(idx))
      else ScanWrite(next, attempt + 1)
  }

  /** The read scan from slot i on, running alone. */
  function ScanRead(region: Region, i: nat): (Region, Option<nat>)
    decreases |region.slots| - i
  {
    if i >= |region.slots| then (region, None)
    else if CanTransition(region, i, Ready) then (SetState(region, i, Reading), Some(i))
    else ScanRead(region, i + 1)
  }

  function PublishAlone(region: Region, i: nat, meta: Meta): (Region, bool) {
    if CanTransition(region, i, Writing) then (CountUp(SetMeta(SetState(region, i, Ready), i, meta), i), true)
    else (region, false)
  }

  function ReleaseAlone(region: Region, i: nat): (Region, bool) {
    if CanTransition(region, i, Reading) then (SetState(region, i, Free), true) else (region, false)
  }

  // ----- the calls, step by step -----

  class SharedRegion {
    const slots: array<Slot>
    var writeCursor: nat

    ghost predicate Valid()
      reads this, slots
    {
      Abs().Valid()
    }

    ghost function Abs(): Region
      reads this, slots
    {
      Region(slots[..], writeCursor)
    }

    constructor (slotCount: nat)
      requires 1 <= slotCount <= MAX_SLOTS
      ensures fresh(slots) && Valid() && Abs() == Region(seq(slotCount, _ => FRESH_SLOT), 0)
    {
      slots := new Slot[slotCount](_ => FRESH_SLOT);
      writeCursor := 0;
    }

    /** The compare-and-swap on a slot's state. */
    method TryTransition(i: nat, expected: FrameState, desired: FrameState) returns (ok: bool)
      requires i < slots.Length
      modifies slots
      ensures ok == CanTransition(old(Abs()), i, expected)
      ensures Abs() == if ok then SetState(old(Abs()), i, desired) else old(Abs())
    {
      ok := slots[i].state == expected;
      if ok {
        slots[i] := slots[i].(state := desired);
      }
    }

    method AcquireWriteSlot() returns (r: Option<nat>)
      requires Valid()
      modifies this, slots
      ensures (Abs(), r) == ScanWrite(old(Abs()), 0)
    {
      var attempt := 0;
      while attempt < slots.Length
        invariant attempt <= slots.Length && slots.Length > 0
        invariant ScanWrite(Abs(), attempt) == ScanWrite(old(Abs()), 0)
      {
        var idx := writeCursor % slots.Length;
        writeCursor := (writeCursor + 1) % U32;
        var ok := TryTransition(idx, Free, Writing);
        if ok { return Some(idx); }
        attempt := attempt + 1;
      }
      return None;
    }

    method PublishSlot(slotIndex: nat, meta: Meta) returns (ok: bool)
      modifies slots
      ensures (Abs(), ok) == PublishAlone(old(Abs()), slotIndex, meta)
    {
      if slotIndex >= slots.Length { return false; }
      ok := TryTransition(slotIndex, Writing, Ready);
      if !ok { return; }
      slots[slotIndex] := slots[slotIndex].(meta := slots[slotIndex].meta.(frameIndex := meta.frameIndex));
      slots[slotIndex] := slots[slotIndex].(meta := slots[slotIndex].meta.(width := meta.width));
      slots[slotIndex] := slots[slotIndex].(meta := slots[slotIndex].meta.(height := meta.height));
      slots[slotIndex] := slots[slotIndex].(generation := (slots[slotIndex].generation + 1) % U64);
      assert Abs().slots == PublishAlone(old(Abs()), slotIndex, meta).0.slots;
    }

    method AcquireReadSlot() returns (r: Option<nat>)
      modifies slots
      ensures (Abs(), r) == ScanRead(old(Abs()), 0)
    {
      var i := 0;
      while i < slots.Length
        invariant i <= slots.Length
        invariant ScanRead(Abs(), i) == ScanRead(old(Abs()), 0)
      {
        var ok := TryTransition(i, Ready, Reading);
        if ok { return Some(i); }
        i := i + 1;
      }
      return None;
    }

    method ReleaseReadSlot(slotIndex: nat) returns (ok: bool)
      modifies slots
      ensures (Abs(), ok) == ReleaseAlone(old(Abs()), slotIndex)
    {
      if slotIndex >= slots.Length { return false; }
      ok := TryTransition(slotIndex, Reading, Free);
    }

    method GetSlotInfo(slotIndex: nat) returns (r: Option<Meta>)
      ensures r == if slotIndex < |Abs().slots| then Some(Abs().slots[slotIndex].meta) else None
    {
      if slotIndex >= slots.Length { return None; }
      return Some(slots[slotIndex].meta);
    }
  }

  // ----- the write scan -----

  /** The slot that attempt k of a scan from cursor c looks at, among n slots. */
  function Probe(c: nat, k: nat, n: nat): nat
    requires n > 0
  {
    (c + k) % U32 % n
  }

  /** Attempt k finds slot i free, and the attempts before it found none. */
  ghost predicate FirstFree(region: Region, c: nat, attempt: nat, k: nat, i: nat)
    requires |region.slots| > 0
  {
    var n := |region.slots|;
    && i == Probe(c, k, n) && region.slots[i].state == Free
    && forall j | attempt <= j < k :: region.slots[Probe(c, j, n)].state != Free
  }

  /** A scan running alone takes the first free slot it probes, and fails when it probes none. */
  lemma {:induction false} ScanFinds(region: Region, c: nat, attempt: nat)
    requires |region.slots| > 0 && attempt <= |region.slots| && region.writeCursor == (c + attempt) % U32
    ensures var (after, r) := ScanWrite(region, attempt); var n := |region.slots|;
      match r
      case None => forall k | attempt <= k < n :: region.slots[Probe(c, k, n)].state != Free
      case Some(i) =>
        && (exists k :: attempt <= k < n && FirstFree(region, c, attempt, k, i))
        && after.slots == region.slots[i := region.slots[i].(state := Writing)]
    decreases |region.slots| - attempt
  {
    var n := |region.slots|;
    if attempt < n {
      var idx := Probe(c, attempt, n);
      if region.slots[idx].state == Free {
        assert FirstFree(region, c, attempt, attempt, idx);
      } else {
        NextCursor(c + attempt);
        ScanFinds(Advance(region), c, attempt + 1);
        var r := ScanWrite(Advance(region), attempt + 1).1;
        if r.Some? {
          var k :| attempt + 1 <= k < n && FirstFree(Advance(region), c, attempt + 1, k, r.value);
          assert FirstFree(region, c, attempt, k, r.value);
        }
      }
    }
  }

  lemma NextCursor(x: nat)
    ensures (x % U32 + 1) % U32 == (x + 1) % U32
  {
  }

  /** Some attempt of the scan from cursor c looks at slot i. */
  ghost predicate Probed(c: nat, n: nat, i: nat)
    requires n > 0
  {
    exists k :: 0 <= k < n && Probe(c, k, n) == i
  }

  /** While the cursor does not wrap during the scan, or wraps without disturbing the order of the
      slots, consecutive cursors look at consecutive slots. */
  lemma ProbedWhen(c: nat, n: nat, i: nat)
    requires c < U32 && 1 <= n <= MAX_SLOTS && i < n && (c + n <= U32 || U32 % n == 0)
    ensures Probed(c, n, i)
  {
    var q, r := c / n, c % n;
    var k := if i >= r then i - r else i + n - r;
    QuotientOf(c, n);
    ProbeAt(c, k, n, if i >= r then q else q + 1, i);
  }

  lemma ProbeAt(c: nat, k: nat, n: nat, q: nat, i: nat)
    requires c < U32 && 1 <= n <= MAX_SLOTS && k < n && i < n && (c + n <= U32 || U32 % n == 0)
    requires c + k == n * q + i
    ensures Probe(c, k, n) == i
  {
    Remainder(n, q, i);
    if c + k >= U32 {
      WrapInStep(c + k, n);
    }
  }

  lemma QuotientOf(c: nat, n: nat)
    requires n > 0
    ensures c == n * (c / n) + c % n && n * (c / n + 1) == n * (c / n) + n
  {
  }

  lemma {:induction false} Remainder(n: nat, q: nat, i: nat)
    requires 1 <= n <= MAX_SLOTS && i < n
    ensures (n * q + i) % n == i
    decreases q
  {
    if q > 0 {
      Remainder(n, q - 1, i);
      assert n * q + i == n * (q - 1) + i + n;
      OneTurn(n * (q - 1) + i, n);
    }
  }

  lemma OneTurn(x: nat, n: nat)
    requires 1 <= n <= MAX_SLOTS
    ensures (x + n) % n == x % n
  {
    if n == 1 { assert (x + 1) % 1 == x % 1; }
    else if n == 2 { assert (x + 2) % 2 == x % 2; }
    else if n == 3 { assert (x + 3) % 3 == x % 3; }
    else if n == 4 { assert (x + 4) % 4 == x % 4; }
    else if n == 5 { assert (x + 5) % 5 == x % 5; }
    else if n == 6 { assert (x + 6) % 6 == x % 6; }
    else if n == 7 { assert (x + 7) % 7 == x % 7; }
    else { assert (x + 8) % 8 == x % 8; }
  }

  lemma WrapInStep(x: nat, n: nat)
    requires U32 <= x < 2 * U32 && 1 <= n <= MAX_SLOTS && U32 % n == 0
    ensures x % U32 % n == x % n
  {
    assert x % U32 == x - U32;
    assert n != 3 && n != 5 && n != 6 && n != 7;
    if n == 1 { assert (x - U32) % 1 == x % 1; }
    else if n == 2 { assert (x - U32) % 2 == x % 2; }
    else if n == 4 { assert (x - U32) % 4 == x % 4; }
    else { assert (x - U32) % 8 == x % 8; }
  }

  lemma Misses(c: nat, n: nat, left: nat, r: nat, k: nat)
    requires c < U32 && 1 <= n <= MAX_SLOTS && U32 % n != 0 && left == U32 - c < n && r == U32 % n && k < n
    ensures Probe(c, k, n) != if r >= left then n - 1 else if r >= n - left then r else n - left
  {
    assert (c + k) % U32 == if k < left then c + k else k - left;
    assert n == 3 || n == 5 || n == 6 || n == 7;
    if n == 3 {
      assert Probe(c, k, 3) == (if k < left then c + k else k - left) % 3;
    } else if n == 5 {
      assert Probe(c, k, 5) == (if k < left then c + k else k - left) % 5;
    } else if n == 6 {
      assert Probe(c, k, 6) == (if k < left then c + k else k - left) % 6;
    } else {
      assert Probe(c, k, 7) == (if k < left then c + k else k - left) % 7;
    }
  }

  /** Otherwise the wrap makes the scan miss a slot. */
  lemma MissesWhen(c: nat, n: nat) returns (i: nat)
    requires c < U32 && 1 <= n <= MAX_SLOTS && c + n > U32 && U32 % n != 0
    ensures i < n && !Probed(c, n, i)
  {
    var left, r := U32 - c, U32 % n;
    i := if r >= left then n - 1 else if r >= n - left then r else n - left;
    forall k | 0 <= k < n ensures Probe(c, k, n) != i {
      Misses(c, n, left, r, k);
    }
  }

  ghost predicate SomeFree(slots: seq<Slot>) {
    exists i :: 0 <= i < |slots| && slots[i].state == Free
  }

  /** From cursor c, the scan of n slots succeeds exactly when some slot is FREE. */
  ghost predicate ScanExact(c: nat, n: nat)
    requires n > 0
  {
    forall slots: seq<Slot> | |slots| == n :: SomeFree(slots) <==> ScanWrite(Region(slots, c), 0).1.Some?
  }

  lemma ScanExactWhen(c: nat, n: nat)
    requires c < U32 && 1 <= n <= MAX_SLOTS && (c + n <= U32 || U32 % n == 0)
    ensures ScanExact(c, n)
  {
    hide ScanWrite;
    forall slots: seq<Slot> | |slots| == n
      ensures SomeFree(slots) <==> ScanWrite(Region(slots, c), 0).1.Some?
    {
      ScanFinds(Region(slots, c), c, 0);
      if SomeFree(slots) {
        var i :| 0 <= i < n && slots[i].state == Free;
        ProbedWhen(c, n, i);
      }
    }
  }

  /** Running alone, `acquire_write_slot` succeeds exactly when some slot is FREE, whatever the slot
      states, if and only if the 32-bit cursor does not wrap during the scan or the slot count
      divides 2^32. */
  lemma ScanComplete(c: nat, n: nat)
    requires c < U32 && 1 <= n <= MAX_SLOTS
    ensures ScanExact(c, n) <==> c + n <= U32 || U32 % n == 0
  {
    hide ScanWrite;
    if c + n <= U32 || U32 % n == 0 {
      ScanExactWhen(c, n);
    } else {
      var i := MissesWhen(c, n);
      var busy := FRESH_SLOT.(state := Writing);
      var slots := seq(n, j => if j == i then FRESH_SLOT else busy);
      ScanFinds(Region(slots, c), c, 0);
      assert slots[i].state == Free && SomeFree(slots);
    }
  }

  /** A read scan running alone takes the first READY slot, and fails when there is none. */
  lemma {:induction false} ReadFinds(region: Region, k: nat)
    requires k <= |region.slots|
    ensures match ScanRead(region, k).1 {
      case None =>
        ScanRead(region, k).0 == region && forall j | k <= j < |region.slots| :: region.slots[j].state != Ready
      case Some(i) =>
        && k <= i < |region.slots| && region.slots[i].state == Ready
        && (forall j | k <= j < i :: region.slots[j].state != Ready)
        && ScanRead(region, k).0 == region.(slots := region.slots[i := region.slots[i].(state := Reading)])
    }
    decreases |region.slots| - k
  {
    if k < |region.slots| && region.slots[k].state != Ready {
      ReadFinds(region, k + 1);
    }
  }
}
