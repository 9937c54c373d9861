/** When a slot of native/shm_sync.c carries the metadata published last: publishing makes the slot READY
    first and stores the metadata afterwards, unguarded. */
module FrameMetadata {
  import opened FrameSlots
  import opened FrameProtocol

  /** How far a process is in storing slot i's metadata: 0 when it is not. */
  function Stage(proc: Process, i: nat): (r: nat)
    ensures r > 0 <==> Storing(proc, i)
  {
    match proc.pc
    case PublishIndex(j, _) => if i == j then 1 else 0
    case PublishWidth(j, _) => if i == j then 2 else 0
    case PublishHeight(j, _) => if i == j then 3 else 0
    case _ => 0
  }

  /** The metadata of publish k; number 0 is the slot's first state. */
  function MetaAt(metas: seq<Meta>, k: nat): Meta
    requires k <= |metas|
  {
    if k == 0 then FRESH_SLOT.meta else metas[k - 1]
  }

  /** The last publish has stored its first f fields. */
  ghost predicate Past(procs: seq<Process>, last: nat, i: nat, f: nat) {
    forall proc <- procs :: !Behind(proc, last, i, f)
  }

  ghost predicate Authors(h: History, m: Meta) {
    && h.index <= |h.metas| && h.width <= |h.metas| && h.height <= |h.metas|
    && m == Meta(MetaAt(h.metas, h.index).frameIndex, MetaAt(h.metas, h.width).width, MetaAt(h.metas, h.height).height)
  }

  /** Every storing process makes a publish of the slot, each another one. */
  ghost predicate Turns(procs: seq<Process>, h: History, i: nat) {
    && (forall p | 0 <= p < |procs| && Storing(procs[p], i) :: TurnOk(procs[p], h))
    && (forall p, q | 0 <= p < |procs| && 0 <= q < |procs| && p != q && Storing(procs[p], i) && Storing(procs[q], i) ::
          procs[p].turn != procs[q].turn)
  }

  ghost predicate TurnOk(proc: Process, h: History)
    requires proc.pc.PublishIndex? || proc.pc.PublishWidth? || proc.pc.PublishHeight?
  {
    1 <= proc.turn <= |h.metas| && h.metas[proc.turn - 1] == proc.pc.meta
  }

  /** Fields stored by the last publish, and fields that an older one overwrote. */
  ghost predicate Lateness(procs: seq<Process>, h: History, i: nat) {
    var n := |h.metas|;
    && (h.index == n > 0 ==> Past(procs, n, i, 1)) && (h.width == n > 0 ==> Past(procs, n, i, 2))
    && (h.height == n > 0 ==> Past(procs, n, i, 3))
    && (h.late <==> (Past(procs, n, i, 1) && h.index < n) || (Past(procs, n, i, 2) && h.width < n)
                    || (Past(procs, n, i, 3) && h.height < n))
    && (!h.overlapped ==> !h.late && forall proc <- procs :: Storing(proc, i) ==> proc.turn == n)
  }

  ghost predicate SlotMeta(procs: seq<Process>, h: History, m: Meta, i: nat) {
    Authors(h, m) && Turns(procs, h, i) && Lateness(procs, h, i)
  }

  // ----- the steps that concern a slot -----

  /** A process that does not store the slot's metadata, before or after, changes nothing. */
  lemma Unrelated(procs: seq<Process>, p: nat, proc: Process, h: History, m: Meta, i: nat)
    requires SlotMeta(procs, h, m, i) && p < |procs| && !Storing(procs[p], i) && !Storing(proc, i)
    ensures SlotMeta(procs[p := proc], h, m, i)
  {
    PastUpdate(procs, p, proc, |h.metas|, i, 1);
    PastUpdate(procs, p, proc, |h.metas|, i, 2);
    PastUpdate(procs, p, proc, |h.metas|, i, 3);
    assert forall q <- procs[p := proc] :: q == proc || q in procs;
  }

  predicate Behind(proc: Process, last: nat, i: nat, f: nat) { proc.turn == last && 1 <= Stage(proc, i) <= f }

  /** Past, as far as the processes but p go. */
  ghost predicate PastBut(procs: seq<Process>, p: nat, last: nat, i: nat, f: nat) {
    forall q | 0 <= q < |procs| && q != p :: !Behind(procs[q], last, i, f)
  }

  /** Only the changed process decides anew what is past. */
  lemma PastUpdate(procs: seq<Process>, p: nat, proc: Process, last: nat, i: nat, f: nat)
    requires p < |procs|
    ensures Past(procs, last, i, f) <==> !Behind(procs[p], last, i, f) && PastBut(procs, p, last, i, f)
    ensures Past(procs[p := proc], last, i, f) <==> !Behind(proc, last, i, f) && PastBut(procs, p, last, i, f)
  {
    hide Behind;
    var after := procs[p := proc];
    assert after[p] == proc && forall q | 0 <= q < |procs| && q != p :: after[q] == procs[q];
    assert forall q | 0 <= q < |procs| :: after[q] in after && procs[q] in procs;
  }

  /** A publish begins: the slot turns READY. */
  lemma Begins(procs: seq<Process>, p: nat, proc: Process, h: History, m: Meta, i: nat, meta: Meta)
    requires SlotMeta(procs, h, m, i) && p < |procs| && !Storing(procs[p], i)
    requires proc.pc == PublishIndex(i, meta) && proc.turn == |h.metas| + 1
    ensures SlotMeta(procs[p := proc], Published(h, meta, SomeStoring(procs, i)), m, i)
  {
    var after, h' := procs[p := proc], Published(h, meta, SomeStoring(procs, i));
    PastUpdate(procs, p, proc, |h'.metas|, i, 1);
    PastUpdate(procs, p, proc, |h'.metas|, i, 2);
    PastUpdate(procs, p, proc, |h'.metas|, i, 3);
    assert forall q | 0 <= q < |procs| :: procs[q] in procs;
    assert forall q <- after :: q == proc || q in procs;
    assert Turns(after, h', i);
    assert !Past(after, |h'.metas|, i, 1);
  }

  lemma StoresTurns(procs: seq<Process>, p: nat, proc: Process, h: History, h': History, m: Meta, m': Meta, i: nat)
    requires SlotMeta(procs, h, m, i) && p < |procs| && Storing(procs[p], i)
    requires proc.turn == procs[p].turn &&
      Stage(proc, i) == (if procs[p].pc.PublishHeight? then 0 else Stage(procs[p], i) + 1)
    requires !procs[p].pc.PublishHeight? ==> proc.pc.meta == procs[p].pc.meta
    requires var meta, turn := procs[p].pc.meta, procs[p].turn;
      match procs[p].pc
      case PublishIndex(_, _) => h' == StoreIndex(h, turn) && m' == m.(frameIndex := meta.frameIndex)
      case PublishWidth(_, _) => h' == StoreWidth(h, turn) && m' == m.(width := meta.width)
      case _ => h' == StoreHeight(h, turn) && m' == m.(height := meta.height)
    ensures Authors(h', m') && Turns(procs[p := proc], h', i)
  {
    hide Lateness, Late, Past;
    assert TurnOk(procs[p], h);
  }

  lemma StoresLateness(procs: seq<Process>, p: nat, proc: Process, h: History, h': History, m: Meta, m': Meta, i: nat)
    requires SlotMeta(procs, h, m, i) && p < |procs| && Storing(procs[p], i)
    requires proc.turn == procs[p].turn &&
      Stage(proc, i) == (if procs[p].pc.PublishHeight? then 0 else Stage(procs[p], i) + 1)
    requires !procs[p].pc.PublishHeight? ==> proc.pc.meta == procs[p].pc.meta
    requires var meta, turn := procs[p].pc.meta, procs[p].turn;
      match procs[p].pc
      case PublishIndex(_, _) => h' == StoreIndex(h, turn) && m' == m.(frameIndex := meta.frameIndex)
      case PublishWidth(_, _) => h' == StoreWidth(h, turn) && m' == m.(width := meta.width)
      case _ => h' == StoreHeight(h, turn) && m' == m.(height := meta.height)
    ensures Lateness(procs[p := proc], h', i)
  {
    hide Past;
    var after, n := procs[p := proc], |h.metas|;
    PastUpdate(procs, p, proc, n, i, 1);
    PastUpdate(procs, p, proc, n, i, 2);
    PastUpdate(procs, p, proc, n, i, 3);
    assert TurnOk(procs[p], h);
    assert procs[p] in procs;
    assert procs[p].turn == n ==>
      PastBut(procs, p, n, i, 1) && PastBut(procs, p, n, i, 2) && PastBut(procs, p, n, i, 3);
    assert forall q <- after :: q == proc || q in procs;
  }

  lemma Stores(procs: seq<Process>, p: nat, proc: Process, h: History, h': History, m: Meta, m': Meta, i: nat)
    requires SlotMeta(procs, h, m, i) && p < |procs| && Storing(procs[p], i)
    requires proc.turn == procs[p].turn &&
      Stage(proc, i) == (if procs[p].pc.PublishHeight? then 0 else Stage(procs[p], i) + 1)
    requires !procs[p].pc.PublishHeight? ==> proc.pc.meta == procs[p].pc.meta
    requires var meta, turn := procs[p].pc.meta, procs[p].turn;
      match procs[p].pc
      case PublishIndex(_, _) => h' == StoreIndex(h, turn) && m' == m.(frameIndex := meta.frameIndex)
      case PublishWidth(_, _) => h' == StoreWidth(h, turn) && m' == m.(width := meta.width)
      case _ => h' == StoreHeight(h, turn) && m' == m.(height := meta.height)
    ensures SlotMeta(procs[p := proc], h', m', i)
  {
    hide Authors, Turns, Lateness;
    StoresTurns(procs, p, proc, h, h', m, m', i);
    StoresLateness(procs, p, proc, h, h', m, m', i);
  }

  // ----- every step and every run -----

  ghost predicate MetaInv(s: System) {
    |s.history| == |s.region.slots|
    && forall i | 0 <= i < |s.history| :: SlotMeta(s.procs, s.history[i], s.region.slots[i].meta, i)
  }

  lemma StepKeepsSlotMeta(s: System, p: nat, call: Call, i: nat)
    requires Inv(s) && MetaInv(s) && p < |s.procs| && i < |s.region.slots|
    ensures CanStep(s, p)
    ensures var s' := Step(s, p, call);
      |s'.history| == |s'.region.slots| == |s.region.slots| &&
        SlotMeta(s'.procs, s'.history[i], s'.region.slots[i].meta, i)
  {
    hide SlotMeta, SlotInv, Published, StoreIndex, StoreWidth, StoreHeight, SomeStoring;
    StepKeepsProcess(s, p, call);
    var s' := Step(s, p, call);
    var proc, next, h, m := s.procs[p], s'.procs[p], s.history[i], s.region.slots[i].meta;
    if Storing(proc, i) {
      Stores(s.procs, p, next, h, s'.history[i], m, s'.region.slots[i].meta, i);
    } else if Storing(next, i) {
      assert proc.pc == PublishCas(i, next.pc.meta);
      Begins(s.procs, p, next, h, m, i, next.pc.meta);
    } else {
      Unrelated(s.procs, p, next, h, m, i);
    }
  }

  lemma StepKeepsMeta(s: System, p: nat, call: Call)
    requires Inv(s) && MetaInv(s) && p < |s.procs|
    ensures CanStep(s, p)
    ensures Inv(Step(s, p, call)) && MetaInv(Step(s, p, call))
  {
    hide SlotMeta, Inv, Step;
    StepKeepsInv(s, p, call);
    StepKeepsSlotMeta(s, p, call, 0) by {
      assert |s.region.slots| > 0;
    }
    forall i | 0 <= i < |s.region.slots| {
      StepKeepsSlotMeta(s, p, call, i);
    }
  }

  lemma {:induction false} RunKeepsMeta(s: System, schedule: seq<(nat, Call)>, s': System)
    requires Inv(s) && MetaInv(s) && Run(s, schedule, s')
    ensures Inv(s') && MetaInv(s')
    decreases |schedule|
  {
    hide Inv, MetaInv, Step;
    if schedule != [] {
      var (p, call) := schedule[0];
      StepKeepsMeta(s, p, call);
      RunKeepsMeta(Step(s, p, call), schedule[1..], s');
    }
  }

  lemma InitMeta(slotCount: nat, procCount: nat)
    requires 1 <= slotCount <= MAX_SLOTS
    ensures Inv(Init(slotCount, procCount)) && MetaInv(Init(slotCount, procCount))
  {
    InitInv(slotCount, procCount);
  }

  /** All three fields stand as the last publish stored them. */
  predicate Carries(h: History) {
    h.metas != [] && h.index == h.width == h.height == |h.metas|
  }

  /** The last publish of slot i has stored its metadata. */
  ghost predicate Finished(s: System, i: nat)
    requires i < |s.history|
  {
    Readied(s, i) > 0 && forall proc <- s.procs :: Storing(proc, i) ==> proc.turn != Readied(s, i)
  }

  lemma CarriesWhen(s: System, i: nat)
    requires MetaInv(s) && i < |s.history|
    ensures Carries(s.history[i]) <==> Finished(s, i) && !s.history[i].late
    ensures Carries(s.history[i]) ==> s.region.slots[i].meta == s.history[i].metas[Readied(s, i) - 1]
    ensures !s.history[i].overlapped ==> !s.history[i].late
  {
    var h := s.history[i];
    assert SlotMeta(s.procs, h, s.region.slots[i].meta, i);
    assert Past(s.procs, |h.metas|, i, 3) ==> Past(s.procs, |h.metas|, i, 2) && Past(s.procs, |h.metas|, i, 1);
    assert h.metas != [] ==> (Past(s.procs, |h.metas|, i, 3) <==> Finished(s, i));
  }

  /** Over every interleaving, a slot carries the metadata of its last publish exactly when that publish
      has stored it and no older one has stored a field after it did. No older one does when no other
      publisher of the slot was storing as the last publish began. */
  lemma MetadataVisible(slotCount: nat, procCount: nat, schedule: seq<(nat, Call)>, s: System, i: nat)
    requires 1 <= slotCount <= MAX_SLOTS && Run(Init(slotCount, procCount), schedule, s) && i < |s.region.slots|
    ensures |s.history| == |s.region.slots|
    ensures Carries(s.history[i]) <==> Finished(s, i) && !s.history[i].late
    ensures Carries(s.history[i]) ==> s.region.slots[i].meta == s.history[i].metas[Readied(s, i) - 1]
    ensures Finished(s, i) && !s.history[i].overlapped ==> Carries(s.history[i])
  {
    hide Run, Carries, Finished;
    InitMeta(slotCount, procCount);
    RunKeepsMeta(Init(slotCount, procCount), schedule, s);
    CarriesWhen(s, i);
  }

  // ----- what a reader can rely on -----

  /** Nothing has spoiled the last publish, and no older one can any more. */
  ghost predicate Trusted(s: System, i: nat)
    requires i < |s.history|
  {
    !s.history[i].late && forall proc <- s.procs :: Storing(proc, i) ==> proc.turn == Readied(s, i)
  }

  /** What a step changes in a slot's history: a publish at most, lateness only for good until then, and
      nothing spoils a trusted slot without a publish. */
  lemma HistoryStep(s: System, p: nat, call: Call, i: nat)
    requires CanStep(s, p) && i < |s.history| == |s.region.slots|
    ensures var s' := Step(s, p, call);
      && |s'.history| == |s.history| && |s'.procs| == |s.procs| && Readied(s, i) <= Readied(s', i)
      && (Readied(s', i) == Readied(s, i) ==>
            && s'.history[i].metas == s.history[i].metas
            && (s.history[i].late ==> s'.history[i].late)
            && (Trusted(s, i) ==> Trusted(s', i)))
  {
    hide SomeStoring;
    var s' := Step(s, p, call);
    assert s.procs[p] in s.procs;
    assert forall q <- s'.procs :: q == s'.procs[p] || q in s.procs;
  }

  lemma {:induction false} HistoryRun(s: System, schedule: seq<(nat, Call)>, s': System, i: nat)
    requires Inv(s) && MetaInv(s) && Run(s, schedule, s') && i < |s.history|
    ensures |s'.history| == |s.history| && Readied(s, i) <= Readied(s', i)
    ensures Readied(s', i) == Readied(s, i) && Trusted(s, i) ==> Trusted(s', i)
    decreases |schedule|
  {
    hide Inv, Step, Trusted, SlotMeta;
    if schedule != [] {
      var (p, call) := schedule[0];
      StepKeepsMeta(s, p, call);
      HistoryStep(s, p, call, i);
      HistoryRun(Step(s, p, call), schedule[1..], s', i);
    }
  }

  /** The last publisher's stores, one after another; process q does not move. */
  lemma {:induction false} FinishStores(s: System, i: nat, p: nat) returns (schedule: seq<(nat, Call)>, s': System)
    requires Inv(s) && MetaInv(s) && i < |s.history| && p < |s.procs|
    requires Storing(s.procs[p], i) && s.procs[p].turn == Readied(s, i)
    ensures Run(s, schedule, s') && Inv(s') && MetaInv(s') && |s'.history| == |s.history| &&
      Readied(s', i) == Readied(s, i)
    ensures |s'.procs| == |s.procs| && Finished(s', i) && (s.history[i].late ==> s'.history[i].late)
    ensures forall q | 0 <= q < |s.procs| && q != p :: s'.procs[q] == s.procs[q]
    decreases 4 - Stage(s.procs[p], i)
  {
    hide Inv, Run, SlotMeta;
    StepKeepsMeta(s, p, AcquireRead);
    HistoryStep(s, p, AcquireRead, i);
    var next := Step(s, p, AcquireRead);
    var rest;
    if s.procs[p].pc.PublishHeight? {
      LastAlone(s, i, p);
      rest, s' := [], next;
      EmptyRun(next);
    } else {
      rest, s' := FinishStores(next, i, p);
    }
    schedule := [(p, AcquireRead)] + rest;
    RunFirst(s, p, AcquireRead, rest, s');
  }

  lemma RunFirst(s: System, p: nat, call: Call, rest: seq<(nat, Call)>, s': System)
    requires CanStep(s, p) && Run(Step(s, p, call), rest, s')
    ensures Run(s, [(p, call)] + rest, s')
  {
    hide Step;
    assert ([(p, call)] + rest)[1..] == rest;
  }

  /** Once the last publisher is past its last store, the last publish is finished. */
  lemma LastAlone(s: System, i: nat, p: nat)
    requires MetaInv(s) && i < |s.history| && p < |s.procs| && Storing(s.procs[p], i) &&
      s.procs[p].turn == Readied(s, i)
    ensures Readied(s, i) > 0
    ensures forall q | 0 <= q < |s.procs| && q != p && Storing(s.procs[q], i) :: s.procs[q].turn != Readied(s, i)
  {
    assert SlotMeta(s.procs, s.history[i], s.region.slots[i].meta, i);
    assert TurnOk(s.procs[p], s.history[i]);
  }

  /** Some continuation without another publish of the slot shows a finished publish not carried. */
  lemma Spoiled(s: System, i: nat) returns (schedule: seq<(nat, Call)>, s': System)
    requires Inv(s) && MetaInv(s) && i < |s.history| && Readied(s, i) > 0 && !Trusted(s, i)
    ensures Run(s, schedule, s') && |s'.history| == |s.history| && Readied(s', i) == Readied(s, i)
    ensures Finished(s', i) && !Carries(s'.history[i])
  {
    hide Inv, Run, SlotMeta;
    schedule, s' := [], s;
    EmptyRun(s);
    if p: nat :| p < |s.procs| && Storing(s.procs[p], i) && s.procs[p].turn == Readied(s, i) {
      schedule, s' := FinishStores(s, i, p);
    }
    assert Finished(s', i);
    CarriesWhen(s', i);
    if !s'.history[i].late {
      var proc :| proc in s.procs && Storing(proc, i) && proc.turn != Readied(s, i);
      var q: nat :| q < |s.procs| && s.procs[q] == proc;
      assert s'.procs[q] == proc;
      StepKeepsMeta(s', q, AcquireRead);
      RunSnoc(s, schedule, s', q, AcquireRead);
      LateStore(s', i, q);
      schedule, s' := schedule + [(q, AcquireRead)], Step(s', q, AcquireRead);
      CarriesWhen(s', i);
    }
  }

  /** An older publisher's next store comes late when the last publish is carried. */
  lemma LateStore(s: System, i: nat, q: nat)
    requires CanStep(s, q) && MetaInv(s) && i < |s.history| && Carries(s.history[i]) && Finished(s, i)
    requires Storing(s.procs[q], i) && s.procs[q].turn != Readied(s, i)
    ensures var s' := Step(s, q, AcquireRead);
      |s'.history| == |s.history| && Readied(s', i) == Readied(s, i) && s'.history[i].late && Finished(s', i)
  {
    assert SlotMeta(s.procs, s.history[i], s.region.slots[i].meta, i);
    assert TurnOk(s.procs[q], s.history[i]);
    var s' := Step(s, q, AcquireRead);
    assert forall proc <- s'.procs :: proc == s'.procs[q] || proc in s.procs;
  }

  /** When a reader can rely on a slot: whatever happens until the slot is published again, the last publish
      is carried once it is finished, if and only if no older publish has stored a field late and no older
      publisher is still storing. */
  lemma ReliableUntilRepublished(slotCount: nat, procCount: nat, schedule: seq<(nat, Call)>, s: System, i: nat)
    requires 1 <= slotCount <= MAX_SLOTS && Run(Init(slotCount, procCount), schedule, s)
    requires i < |s.region.slots| == |s.history| && Readied(s, i) > 0
    ensures (forall more, s' | Run(s, more, s') && |s'.history| == |s.history|
                               && Readied(s', i) == Readied(s, i) && Finished(s', i) ::
               Carries(s'.history[i])) <==> Trusted(s, i)
  {
    hide Run, Carries, Finished, Trusted, Inv, MetaInv;
    InitMeta(slotCount, procCount);
    RunKeepsMeta(Init(slotCount, procCount), schedule, s);
    if Trusted(s, i) {
      forall more, s' | Run(s, more, s') && |s'.history| == |s.history|
                        && Readied(s', i) == Readied(s, i) && Finished(s', i)
        ensures Carries(s'.history[i])
      {
        HistoryRun(s, more, s', i);
        RunKeepsMeta(s, more, s');
        CarriesWhen(s', i);
        NotLate(s', i);
      }
    } else {
      var more, s' := Spoiled(s, i);
    }
  }

  lemma NotLate(s: System, i: nat)
    requires i < |s.history| && Trusted(s, i)
    ensures !s.history[i].late
  {
  }

  /** Seen from the publisher: its publish is reliable, in the sense above, exactly when no other publisher
      is storing the slot's metadata as it begins. */
  lemma PublishReliable(s: System, p: nat, call: Call)
    requires Inv(s) && MetaInv(s) && p < |s.procs| && s.procs[p].pc.PublishCas?
    ensures CanStep(s, p) && s.procs[p].pc.slot < |s.history| == |Step(s, p, call).history|
    ensures var i, s' := s.procs[p].pc.slot, Step(s, p, call);
      Readied(s', i) == Readied(s, i) + 1 && (Trusted(s', i) <==> !SomeStoring(s.procs, i))
  {
    hide SlotInv;
    OwnerSucceeds(s, p);
    StepKeepsProcess(s, p, call);
    var i, s' := s.procs[p].pc.slot, Step(s, p, call);
    assert SlotMeta(s.procs, s.history[i], s.region.slots[i].meta, i);
    if proc :| proc in s.procs && Storing(proc, i) {
      var q: nat :| q < |s.procs| && s.procs[q] == proc;
      assert s'.procs[q] == proc && TurnOk(proc, s.history[i]);
    } else {
      assert forall proc <- s'.procs :: proc == s'.procs[p] || proc in s.procs;
    }
  }

  // ----- two schedules of one slot and two processes -----

  ghost function Pair(slot: Slot, cursor: nat, a: Process, b: Process, h: History): System {
    System(Region([slot], cursor), [a, b], [h], false)
  }

  lemma Extend(schedule: seq<(nat, Call)>, s: System, p: nat, call: Call)
      returns (schedule': seq<(nat, Call)>, s': System)
    requires Run(Init(1, 2), schedule, s) && CanStep(s, p)
    ensures Run(Init(1, 2), schedule', s') && s' == Step(s, p, call)
  {
    RunSnoc(Init(1, 2), schedule, s, p, call);
    schedule', s' := schedule + [(p, call)], Step(s, p, call);
  }

  lemma OwnedSlot()
    ensures {} + {0 as nat} == {0} && {0 as nat} - {0} == {}
  {
  }

  /** The first process acquires the slot and makes it READY. */
  lemma Early(meta: Meta) returns (schedule: seq<(nat, Call)>, s: System)
    ensures Run(Init(1, 2), schedule, s)
    ensures s == Pair(FRESH_SLOT.(state := Ready), 1, Process(PublishIndex(0, meta), {}, {}, 1), NEW_PROCESS,
                      NO_HISTORY.(metas := [meta]))
  {
    hide Run;
    OwnedSlot();
    s, schedule := Init(1, 2), [];
    EmptyRun(s);
    assert s == Pair(FRESH_SLOT, 0, NEW_PROCESS, NEW_PROCESS, NO_HISTORY);
    schedule, s := Extend(schedule, s, 0, AcquireWrite);
    schedule, s := Extend(schedule, s, 0, AcquireWrite);
    schedule, s := Extend(schedule, s, 0, AcquireWrite);
    assert s == Pair(FRESH_SLOT.(state := Writing), 1, NEW_PROCESS.(writing := {0}), NEW_PROCESS, NO_HISTORY);
    schedule, s := Extend(schedule, s, 0, Publish(0, meta));
    schedule, s := Extend(schedule, s, 0, Publish(0, meta));
    assert [] + [meta] == [meta];
  }

  /** A reader can hold a slot that does not carry the published metadata, because nothing of it is stored yet. */
  lemma StaleMetadata(meta: Meta) returns (schedule: seq<(nat, Call)>, s: System)
    requires meta != Meta(0, 0, 0)
    ensures Run(Init(1, 2), schedule, s) && |s.region.slots| == |s.history| == 1
    ensures s.region.slots[0].state == Reading && s.history[0].metas == [meta] && s.region.slots[0].meta != meta
    ensures !s.history[0].overlapped && !s.history[0].late && !Finished(s, 0)
  {
    hide Run;
    schedule, s := Early(meta);
    schedule, s := Extend(schedule, s, 1, AcquireRead);
    schedule, s := Extend(schedule, s, 1, AcquireRead);
    assert s.procs[0] in s.procs && Storing(s.procs[0], 0);
  }

  /** The second process reads the slot, gives it up, and acquires it again for writing. */
  lemma Reacquired(first: Meta) returns (schedule: seq<(nat, Call)>, s: System)
    ensures Run(Init(1, 2), schedule, s)
    ensures s == Pair(FRESH_SLOT.(state := Writing), 2, Process(PublishIndex(0, first), {}, {}, 1),
                      NEW_PROCESS.(writing := {0}), NO_HISTORY.(metas := [first]))
  {
    hide Run;
    OwnedSlot();
    schedule, s := Early(first);
    var late := s.procs[0];
    schedule, s := Extend(schedule, s, 1, AcquireRead);
    schedule, s := Extend(schedule, s, 1, AcquireRead);
    schedule, s := Extend(schedule, s, 1, Release(0));
    schedule, s := Extend(schedule, s, 1, Release(0));
    assert s == Pair(FRESH_SLOT, 1, late, NEW_PROCESS, NO_HISTORY.(metas := [first]));
    schedule, s := Extend(schedule, s, 1, AcquireWrite);
    schedule, s := Extend(schedule, s, 1, AcquireWrite);
    schedule, s := Extend(schedule, s, 1, AcquireWrite);
  }

  /** Then it readies the slot again, while the first is still to store anything. */
  lemma Overlapping(first: Meta, second: Meta) returns (schedule: seq<(nat, Call)>, s: System)
    ensures Run(Init(1, 2), schedule, s)
    ensures s == Pair(FRESH_SLOT.(state := Ready), 2, Process(PublishIndex(0, first), {}, {}, 1),
                      Process(PublishIndex(0, second), {}, {}, 2), History([first, second], 0, 0, 0, true, false))
  {
    hide Run;
    OwnedSlot();
    schedule, s := Reacquired(first);
    var late := s.procs[0];
    schedule, s := Extend(schedule, s, 1, Publish(0, second));
    assert s.procs[0] == late && Storing(late, 0);
    schedule, s := Extend(schedule, s, 1, Publish(0, second));
    assert [first] + [second] == [first, second];
  }

  /** And stores all of its own. */
  lemma Overtaken(first: Meta, second: Meta) returns (schedule: seq<(nat, Call)>, s: System)
    ensures Run(Init(1, 2), schedule, s)
    ensures s == Pair(Slot(Ready, 1, second), 2, Process(PublishIndex(0, first), {}, {}, 1), Process(Idle, {}, {}, 2),
                      History([first, second], 2, 2, 2, true, false))
  {
    hide Run;
    schedule, s := Overlapping(first, second);
    schedule, s := Extend(schedule, s, 1, AcquireRead);
    schedule, s := Extend(schedule, s, 1, AcquireRead);
    schedule, s := Extend(schedule, s, 1, AcquireRead);
    schedule, s := Extend(schedule, s, 1, AcquireRead);
  }

  /** A slot can stay without the metadata of its last publish, with every process idle: an overtaken
      publisher stores its own over it. */
  lemma StaleForGood(first: Meta, second: Meta) returns (schedule: seq<(nat, Call)>, s: System)
    requires first != second
    ensures Run(Init(1, 2), schedule, s) && |s.region.slots| == |s.history| == 1 && |s.procs| == 2
    ensures s.procs[0].pc.Idle? && s.procs[1].pc.Idle?
    ensures s.history[0].metas == [first, second] && s.region.slots[0] == Slot(Ready, 2, first)
    ensures Finished(s, 0) && s.history[0].overlapped && s.history[0].late
  {
    hide Run;
    schedule, s := Overtaken(first, second);
    schedule, s := Extend(schedule, s, 0, AcquireRead);
    schedule, s := Extend(schedule, s, 0, AcquireRead);
    schedule, s := Extend(schedule, s, 0, AcquireRead);
    schedule, s := Extend(schedule, s, 0, AcquireRead);
  }
}
