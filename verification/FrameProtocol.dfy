/** Any number of processes sharing the frame slots of native/shm_sync.c, one atomic access at a
    time. Ownership is ghost state: a process owns a slot from the compare-and-swap that acquired it
    to the one that gives it up. Atomics are sequentially consistent. */
module FrameProtocol {
  import opened Wrappers
  import opened Bits
  import opened Bitstream
  import opened FrameSlots

  /** Where a process stands inside a call. */
  datatype Pc =
    | Idle
    | WriteFetch(attempt: nat)
    | WriteTry(attempt: nat, idx: nat)
    | PublishCas(slot: nat, meta: Meta)
    | PublishIndex(slot: nat, meta: Meta)
    | PublishWidth(slot: nat, meta: Meta)
    | PublishHeight(slot: nat, meta: Meta)
    | PublishCount(slot: nat)
    | ReadTry(i: nat)
    | ReleaseCas(slot: nat)

  /** As ghost state, the slots a process owns, and the number among its slot's publishes of the one it
      is making. */
  datatype Process = Process(pc: Pc, writing: set<nat>, reading: set<nat>, turn: nat)

  const NEW_PROCESS := Process(Idle, {}, {}, 0)

  /** What a slot has seen: the metadata published in order, and for each field the number of the publish
      that stored it last (0 for none). `overlapped` says that another publisher was storing when the last
      publish began, `late` that an older publish stored a field after the last one had. */
  datatype History = History(metas: seq<Meta>, index: nat, width: nat, height: nat, overlapped: bool, late: bool)

  const NO_HISTORY := History([], 0, 0, 0, false, false)

  /** The call an idle process makes next. */
  datatype Call = AcquireWrite | Publish(slot: nat, meta: Meta) | AcquireRead | Release(slot: nat)

  /** The history of each slot, and whether a publish or a release by an owner failed. */
  datatype System = System(region: Region, procs: seq<Process>, history: seq<History>, refused: bool)

  /** How often slot i turned READY. */
  function Readied(s: System, i: nat): nat
    requires i < |s.history|
  {
    |s.history[i].metas|
  }

  /** A call by an idle process. Processes publish and release only slots they acquired. */
  function Begin(proc: Process, call: Call): Pc {
    match call
    case AcquireWrite => WriteFetch(0)
    case Publish(i, meta) => if i in proc.writing then PublishCas(i, meta) else Idle
    case AcquireRead => ReadTry(0)
    case Release(i) => if i in proc.reading then ReleaseCas(i) else Idle
  }

  function SetProc(s: System, p: nat, proc: Process): System
    requires p < |s.procs|
  {
    s.(procs := s.procs[p := proc])
  }

  predicate PcInRange(pc: Pc, n: nat) {
    match pc
    case WriteTry(_, i) => i < n
    case PublishCas(i, _) => i < n
    case PublishIndex(i, _) => i < n
    case PublishWidth(i, _) => i < n
    case PublishHeight(i, _) => i < n
    case PublishCount(i) => i < n
    case ReleaseCas(i) => i < n
    case _ => true
  }

  predicate CanStep(s: System, p: nat) {
    p < |s.procs| && |s.region.slots| > 0 && |s.history| == |s.region.slots| &&
      PcInRange(s.procs[p].pc, |s.region.slots|)
  }

  /** The process has readied slot i and not yet stored all its metadata. */
  predicate Storing(proc: Process, i: nat) {
    match proc.pc
    case PublishIndex(j, _) => i == j
    case PublishWidth(j, _) => i == j
    case PublishHeight(j, _) => i == j
    case _ => false
  }

  predicate SomeStoring(procs: seq<Process>, i: nat) { exists proc <- procs :: Storing(proc, i) }

  function Published(h: History, meta: Meta, overlapped: bool): (r: History)
    ensures r.metas == h.metas + [meta]
  {
    h.(metas := h.metas + [meta], overlapped := overlapped, late := false)
  }

  /** An author stores a field that publish `last` was the last to store. */
  predicate Late(h: History, last: nat, turn: nat) {
    h.late || (last == |h.metas| && turn < |h.metas|)
  }

  function StoreIndex(h: History, turn: nat): (r: History)
    ensures r.metas == h.metas
  {
    h.(index := turn, late := Late(h, h.index, turn))
  }

  function StoreWidth(h: History, turn: nat): (r: History)
    ensures r.metas == h.metas
  {
    h.(width := turn, late := Late(h, h.width, turn))
  }

  function StoreHeight(h: History, turn: nat): (r: History)
    ensures r.metas == h.metas
  {
    h.(height := turn, late := Late(h, h.height, turn))
  }

  /** One atomic access of process p, or the start of a call. */
  function Step(s: System, p: nat, call: Call): System
    requires CanStep(s, p)
  {
    var proc, region, n := s.procs[p], s.region, |s.region.slots|;
    match proc.pc
    case Idle => SetProc(s, p, proc.(pc := Begin(proc, call)))
    case WriteFetch(k) =>
      if k >= n then SetProc(s, p, proc.(pc := Idle))
      else SetProc(s.(region := Advance(region)), p, proc.(pc := WriteTry(k, region.writeCursor % n)))
    case WriteTry(k, i) =>
      if CanTransition(region, i, Free) then
        SetProc(s.(region := SetState(region, i, Writing)), p, proc.(pc := Idle, writing := proc.writing + {i}))
      else SetProc(s, p, proc.(pc := WriteFetch(k + 1)))
    case PublishCas(i, meta) =>
      if CanTransition(region, i, Writing) then
        SetProc(s.(region := SetState(region, i, Ready),
                   history := s.history[i := Published(s.history[i], meta, SomeStoring(s.procs, i))]), p,
                proc.(pc := PublishIndex(i, meta), writing := proc.writing - {i}, turn := Readied(s, i) + 1))
      else SetProc(s.(refused := true), p, proc.(pc := Idle))
    case PublishIndex(i, meta) =>
      var stored := s.(region := SetMeta(region, i, region.slots[i].meta.(frameIndex := meta.frameIndex)),
                       history := s.history[i := StoreIndex(s.history[i], proc.turn)]);
      SetProc(stored, p, proc.(pc := PublishWidth(i, meta)))
    case PublishWidth(i, meta) =>
      var stored := s.(region := SetMeta(region, i, region.slots[i].meta.(width := meta.width)),
                       history := s.history[i := StoreWidth(s.history[i], proc.turn)]);
      SetProc(stored, p, proc.(pc := PublishHeight(i, meta)))
    case PublishHeight(i, meta) =>
      var stored := s.(region := SetMeta(region, i, region.slots[i].meta.(height := meta.height)),
                       history := s.history[i := StoreHeight(s.history[i], proc.turn)]);
      SetProc(stored, p, proc.(pc := PublishCount(i)))
    case PublishCount(i) => SetProc(s.(region := CountUp(region, i)), p, proc.(pc := Idle))
    case ReadTry(i) =>
      if i >= n then SetProc(s, p, proc.(pc := Idle))
      else if CanTransition(region, i, Ready) then
        SetProc(s.(region := SetState(region, i, Reading)), p, proc.(pc := Idle, reading := proc.reading + {i}))
      else SetProc(s, p, proc.(pc := ReadTry(i + 1)))
    case ReleaseCas(i) =>
      if CanTransition(region, i, Reading) then
        SetProc(s.(region := SetState(region, i, Free)), p, proc.(pc := Idle, reading := proc.reading - {i}))
      else SetProc(s.(refused := true), p, proc.(pc := Idle))
  }

  // ----- counting owners -----

  datatype Role = Writer | Reader | Publisher

  /** The process writes slot i, reads it, or has readied it without having counted that yet. */
  predicate Holds(proc: Process, role: Role, i: nat) {
    match role
    case Writer => i in proc.writing
    case Reader => i in proc.reading
    case Publisher =>
      match proc.pc
      case PublishIndex(j, _) => i == j
      case PublishWidth(j, _) => i == j
      case PublishHeight(j, _) => i == j
      case PublishCount(j) => i == j
      case _ => false
  }

  function One(b: bool): nat { if b then 1 else 0 }

  function Count(procs: seq<Process>, role: Role, i: nat): nat {
    if procs == [] then 0 else One(Holds(procs[0], role, i)) + Count(procs[1..], role, i)
  }

  lemma {:induction false} CountUpdate(procs: seq<Process>, p: nat, proc: Process, role: Role, i: nat)
    requires p < |procs|
    ensures Count(procs[p := proc], role, i) + One(Holds(procs[p], role, i))
         == Count(procs, role, i) + One(Holds(proc, role, i))
  {
    hide Holds;
    if p == 0 {
      assert procs[p := proc][1..] == procs[1..];
    } else {
      assert procs[p := proc][1..] == procs[1..][p - 1 := proc];
      CountUpdate(procs[1..], p - 1, proc, role, i);
    }
  }

  lemma {:induction false} CountAtLeast(procs: seq<Process>, p: nat, role: Role, i: nat)
    requires p < |procs| && Holds(procs[p], role, i)
    ensures Count(procs, role, i) >= 1
  {
    hide Holds;
    if p > 0 {
      CountAtLeast(procs[1..], p - 1, role, i);
    }
  }

  /** Only process p holds slot i in the role. */
  ghost predicate OnlyHolder(procs: seq<Process>, role: Role, i: nat, p: nat) {
    p < |procs| && Holds(procs[p], role, i) && forall q | 0 <= q < |procs| && q != p :: !Holds(procs[q], role, i)
  }

  ghost predicate Unique(procs: seq<Process>, role: Role, i: nat) {
    exists p: nat :: OnlyHolder(procs, role, i, p)
  }

  ghost predicate Nobody(procs: seq<Process>, role: Role, i: nat) {
    forall q | 0 <= q < |procs| :: !Holds(procs[q], role, i)
  }

  lemma {:induction false} CountZero(procs: seq<Process>, role: Role, i: nat)
    ensures Count(procs, role, i) == 0 <==> Nobody(procs, role, i)
    decreases |procs|
  {
    hide Holds;
    if procs != [] {
      CountZero(procs[1..], role, i);
      assert forall q | 1 <= q < |procs| :: procs[q] == procs[1..][q - 1];
      assert forall q | 0 <= q < |procs| - 1 :: procs[1..][q] == procs[q + 1];
    }
  }

  lemma {:induction false} CountOne(procs: seq<Process>, role: Role, i: nat)
    requires Count(procs, role, i) == 1
    ensures Unique(procs, role, i)
    decreases |procs|
  {
    hide Holds;
    var rest := procs[1..];
    assert forall q | 1 <= q < |procs| :: procs[q] == rest[q - 1];
    if Holds(procs[0], role, i) {
      CountZero(rest, role, i);
      assert OnlyHolder(procs, role, i, 0);
    } else {
      CountOne(rest, role, i);
      var p: nat :| OnlyHolder(rest, role, i, p);
      assert OnlyHolder(procs, role, i, p + 1);
    }
  }

  // ----- what every step keeps -----

  ghost predicate ProcessInv(proc: Process, n: nat) {
    && PcInRange(proc.pc, n)
    && (proc.pc.PublishCas? ==> proc.pc.slot in proc.writing)
    && (proc.pc.ReleaseCas? ==> proc.pc.slot in proc.reading)
    && (forall i <- proc.writing :: i < n) && (forall i <- proc.reading :: i < n)
  }

  /** One writer for a WRITING slot and none for another, likewise readers; and the generation counts
      the READY transitions except those whose publisher has not counted yet. */
  ghost predicate SlotInv(s: System, i: nat)
    requires i < |s.region.slots| == |s.history|
  {
    OwnersInv(s, i) && GenerationInv(s, i)
  }

  ghost predicate OwnersInv(s: System, i: nat)
    requires i < |s.region.slots|
  {
    && Count(s.procs, Writer, i) == One(s.region.slots[i].state == Writing)
    && Count(s.procs, Reader, i) == One(s.region.slots[i].state == Reading)
  }

  ghost predicate GenerationInv(s: System, i: nat)
    requires i < |s.region.slots| == |s.history|
  {
    && Count(s.procs, Publisher, i) <= Readied(s, i)
    && s.region.slots[i].generation == (Readied(s, i) - Count(s.procs, Publisher, i)) % U64
  }

  ghost predicate Inv(s: System) {
    && 1 <= |s.region.slots| <= MAX_SLOTS && |s.history| == |s.region.slots|
    && (forall p | 0 <= p < |s.procs| :: ProcessInv(s.procs[p], |s.region.slots|))
    && (forall i | 0 <= i < |s.region.slots| :: SlotInv(s, i))
    && !s.refused
  }

  /** The owner of a slot finds it in the state it left it in: neither publish nor release is refused. */
  lemma OwnerSucceeds(s: System, p: nat)
    requires Inv(s) && p < |s.procs|
    ensures s.procs[p].pc.PublishCas? ==> CanTransition(s.region, s.procs[p].pc.slot, Writing)
    ensures s.procs[p].pc.ReleaseCas? ==> CanTransition(s.region, s.procs[p].pc.slot, Reading)
  {
    hide Count;
    var proc := s.procs[p];
    assert ProcessInv(proc, |s.region.slots|);
    if proc.pc.PublishCas? {
      CountAtLeast(s.procs, p, Writer, proc.pc.slot);
      assert SlotInv(s, proc.pc.slot);
    } else if proc.pc.ReleaseCas? {
      CountAtLeast(s.procs, p, Reader, proc.pc.slot);
      assert SlotInv(s, proc.pc.slot);
    }
  }

  lemma StepKeepsOwners(s: System, p: nat, call: Call, i: nat)
    requires Inv(s) && p < |s.procs| && i < |s.region.slots|
    ensures CanStep(s, p)
    ensures var s' := Step(s, p, call); |s'.region.slots| == |s'.history| == |s.region.slots| && OwnersInv(s', i)
  {
    hide Count, Inv, GenerationInv, Published, StoreIndex, StoreWidth, StoreHeight, SomeStoring, Storing;
    OwnerSucceeds(s, p);
    FromInv(s, p, i);
    var s' := Step(s, p, call);
    var proc := s'.procs[p];
    assert s'.procs == s.procs[p := proc];
    CountUpdate(s.procs, p, proc, Writer, i);
    CountUpdate(s.procs, p, proc, Reader, i);
  }

  /** A step changes one process and the number of no slots. */
  lemma StepShape(s: System, p: nat, call: Call)
    requires CanStep(s, p)
    ensures var s' := Step(s, p, call);
      |s'.region.slots| == |s'.history| == |s.region.slots| && p < |s'.procs| && s'.procs == s.procs[p := s'.procs[p]]
  {
    hide Published, StoreIndex, StoreWidth, StoreHeight, SomeStoring, Storing;
  }

  /** A slot turns READY when a process becomes its publisher, and is counted when that ends. */
  lemma PublisherStep(s: System, p: nat, call: Call, i: nat)
    requires CanStep(s, p) && i < |s.region.slots|
    requires s.procs[p].pc.PublishCas? ==> CanTransition(s.region, s.procs[p].pc.slot, Writing)
    ensures var s' := Step(s, p, call);
      && |s'.region.slots| == |s'.history| == |s.region.slots| && s'.procs == s.procs[p := s'.procs[p]]
      && var before, after := Holds(s.procs[p], Publisher, i), Holds(s'.procs[p], Publisher, i);
      && Readied(s', i) == Readied(s, i) + (if !before && after then 1 else 0)
      && s'.region.slots[i].generation
         == if before && !after then (s.region.slots[i].generation + 1) % U64 else s.region.slots[i].generation
  {
    StepShape(s, p, call);
    hide Published, StoreIndex, StoreWidth, StoreHeight, SomeStoring, Storing;
  }

  lemma NextGeneration(r: nat, c: nat)
    requires 1 <= c <= r
    ensures ((r - c) % U64 + 1) % U64 == (r - (c - 1)) % U64
  {
  }

  lemma StepKeepsGeneration(s: System, p: nat, call: Call, i: nat)
    requires Inv(s) && p < |s.procs| && i < |s.region.slots|
    ensures CanStep(s, p)
    ensures var s' := Step(s, p, call); |s'.region.slots| == |s'.history| == |s.region.slots| && GenerationInv(s', i)
  {
    hide Count, Inv, OwnersInv, Step, Holds;
    OwnerSucceeds(s, p);
    FromInv(s, p, i);
    PublisherStep(s, p, call, i);
    CountUpdate(s.procs, p, Step(s, p, call).procs[p], Publisher, i);
    var c := Count(s.procs, Publisher, i);
    if c > 0 {
      NextGeneration(Readied(s, i), c);
    }
  }

  /** The parts of the invariant that concern process p and slot i. */
  lemma FromInv(s: System, p: nat, i: nat)
    requires Inv(s) && p < |s.procs| && i < |s.region.slots|
    ensures 1 <= |s.region.slots| <= MAX_SLOTS && |s.history| == |s.region.slots|
    ensures ProcessInv(s.procs[p], |s.region.slots|) && SlotInv(s, i)
    ensures Holds(s.procs[p], Writer, i) ==> Count(s.procs, Writer, i) >= 1
    ensures Holds(s.procs[p], Reader, i) ==> Count(s.procs, Reader, i) >= 1
    ensures Holds(s.procs[p], Publisher, i) ==> Count(s.procs, Publisher, i) >= 1
  {
    hide Count, Holds;
    if Holds(s.procs[p], Writer, i) { CountAtLeast(s.procs, p, Writer, i); }
    if Holds(s.procs[p], Reader, i) { CountAtLeast(s.procs, p, Reader, i); }
    if Holds(s.procs[p], Publisher, i) { CountAtLeast(s.procs, p, Publisher, i); }
  }

  lemma StepKeepsProcess(s: System, p: nat, call: Call)
    requires Inv(s) && p < |s.procs|
    ensures CanStep(s, p)
    ensures var s' := Step(s, p, call);
      && s'.procs == s.procs[p := s'.procs[p]] && ProcessInv(s'.procs[p], |s.region.slots|) && !s'.refused
  {
    hide SlotInv;
    assert ProcessInv(s.procs[p], |s.region.slots|);
    OwnerSucceeds(s, p);
  }

  lemma SlotInvFrom(s: System, i: nat)
    requires i < |s.region.slots| == |s.history| && OwnersInv(s, i) && GenerationInv(s, i)
    ensures SlotInv(s, i)
  {
  }

  lemma StepKeepsInv(s: System, p: nat, call: Call)
    requires Inv(s) && p < |s.procs|
    ensures CanStep(s, p)
    ensures Inv(Step(s, p, call))
  {
    hide SlotInv, OwnersInv, GenerationInv, Step, ProcessInv;
    StepKeepsProcess(s, p, call);
    StepKeepsOwners(s, p, call, 0);
    var s' := Step(s, p, call);
    forall i | 0 <= i < |s.region.slots| ensures SlotInv(s', i) {
      StepKeepsOwners(s, p, call, i);
      StepKeepsGeneration(s, p, call, i);
      assert SlotInv(s', i) by { SlotInvFrom(s', i); }
    }
  }

  // ----- runs -----

  function Init(slotCount: nat, procCount: nat): System {
    System(Region(seq(slotCount, _ => FRESH_SLOT), 0), seq(procCount, _ => NEW_PROCESS),
           seq(slotCount, _ => NO_HISTORY), false)
  }

  lemma {:induction false} NobodyHolds(procs: seq<Process>, role: Role, i: nat)
    requires forall q | 0 <= q < |procs| :: procs[q] == NEW_PROCESS
    ensures Count(procs, role, i) == 0
  {
    if procs != [] {
      NobodyHolds(procs[1..], role, i);
    }
  }

  lemma InitInv(slotCount: nat, procCount: nat)
    requires 1 <= slotCount <= MAX_SLOTS
    ensures Inv(Init(slotCount, procCount))
  {
    var s := Init(slotCount, procCount);
    forall i | 0 <= i < slotCount ensures SlotInv(s, i) {
      NobodyHolds(s.procs, Writer, i);
      NobodyHolds(s.procs, Reader, i);
      NobodyHolds(s.procs, Publisher, i);
    }
  }

  /** The state s' is reached from s by the scheduled steps, each a process and the call it makes if idle. */
  ghost predicate Run(s: System, schedule: seq<(nat, Call)>, s': System)
    decreases |schedule|
  {
    if schedule == [] then s' == s
    else
      var (p, call) := schedule[0];
      && CanStep(s, p)
      && Run(Step(s, p, call), schedule[1..], s')
  }

  lemma {:induction false} RunKeepsInv(s: System, schedule: seq<(nat, Call)>, s': System)
    requires Inv(s) && Run(s, schedule, s')
    ensures Inv(s')
    decreases |schedule|
  {
    hide Inv;
    if schedule != [] {
      var (p, call) := schedule[0];
      StepKeepsInv(s, p, call);
      RunKeepsInv(Step(s, p, call), schedule[1..], s');
    }
  }

  /** Slot ownership: over every interleaving, a WRITING slot has exactly one writer and a READING slot
      exactly one reader, other slots have neither, and no owner's publish or release was refused. */
  lemma SlotOwnership(slotCount: nat, procCount: nat, schedule: seq<(nat, Call)>, s: System, i: nat)
    requires 1 <= slotCount <= MAX_SLOTS && Run(Init(slotCount, procCount), schedule, s) && i < |s.region.slots|
    ensures if s.region.slots[i].state == Writing then Unique(s.procs, Writer, i)
            else Nobody(s.procs, Writer, i)
    ensures if s.region.slots[i].state == Reading then Unique(s.procs, Reader, i)
            else Nobody(s.procs, Reader, i)
    ensures !s.refused
  {
    hide Run;
    InitInv(slotCount, procCount);
    RunKeepsInv(Init(slotCount, procCount), schedule, s);
    assert SlotInv(s, i);
    if s.region.slots[i].state == Writing { CountOne(s.procs, Writer, i); } else { CountZero(s.procs, Writer, i); }
    if s.region.slots[i].state == Reading { CountOne(s.procs, Reader, i); } else { CountZero(s.procs, Reader, i); }
  }

  /** Generations: over every interleaving, a slot's generation plus the publishers still between their
      compare-and-swap and their increment is the number of its READY transitions, modulo 2^64. */
  lemma Generations(slotCount: nat, procCount: nat, schedule: seq<(nat, Call)>, s: System, i: nat)
    requires 1 <= slotCount <= MAX_SLOTS && Run(Init(slotCount, procCount), schedule, s)
    requires i < |s.region.slots|
    ensures |s.history| == |s.region.slots|
    ensures (s.region.slots[i].generation + Count(s.procs, Publisher, i)) % U64 == Readied(s, i) % U64
  {
    hide Run, Count;
    InitInv(slotCount, procCount);
    RunKeepsInv(Init(slotCount, procCount), schedule, s);
    assert SlotInv(s, i);
    ModSum(Readied(s, i), Count(s.procs, Publisher, i));
  }

  lemma ModSum(a: nat, b: nat)
    requires b <= a
    ensures ((a - b) % U64 + b) % U64 == a % U64
  {
  }

  // ----- metadata -----

  /** A run goes on with one more step. */
  lemma {:induction false} RunSnoc(s: System, schedule: seq<(nat, Call)>, mid: System, p: nat, call: Call)
    requires Run(s, schedule, mid)
    requires CanStep(mid, p)
    ensures Run(s, schedule + [(p, call)], Step(mid, p, call))
    decreases |schedule|
  {
    hide Step;
    var longer := schedule + [(p, call)];
    if schedule == [] {
      assert longer[1..] == [];
    } else {
      assert longer[1..] == schedule[1..] + [(p, call)];
      RunSnoc(Step(s, schedule[0].0, schedule[0].1), schedule[1..], mid, p, call);
    }
  }

  lemma FiveSteps(s: System, p: nat, call: Call) returns (s1: System, s2: System, s3: System, s4: System, s5: System)
    requires Inv(s) && p < |s.procs| && s.procs[p].pc.PublishCas?
    ensures CanStep(s, p) && CanStep(s1, p) && CanStep(s2, p) && CanStep(s3, p) && CanStep(s4, p)
    ensures s1 == Step(s, p, call) && s2 == Step(s1, p, call) && s3 == Step(s2, p, call)
    ensures s4 == Step(s3, p, call) && s5 == Step(s4, p, call)
    ensures (s5.region, true) == PublishAlone(s.region, s.procs[p].pc.slot, s.procs[p].pc.meta)
  {
    hide Count, SlotInv;
    OwnerSucceeds(s, p);
    assert ProcessInv(s.procs[p], |s.region.slots|);
    s1 := Step(s, p, call);
    s2 := Step(s1, p, call);
    s3 := Step(s2, p, call);
    s4 := Step(s3, p, call);
    s5 := Step(s4, p, call);
    assert s5.region.slots == PublishAlone(s.region, s.procs[p].pc.slot, s.procs[p].pc.meta).0.slots;
  }

  /** Five steps of a publisher with nothing in between are PublishAlone. */
  lemma UninterruptedPublish(s: System, p: nat, call: Call) returns (s': System)
    requires Inv(s) && p < |s.procs| && s.procs[p].pc.PublishCas?
    ensures var e := (p, call); Run(s, [e, e, e, e, e], s')
    ensures (s'.region, true) == PublishAlone(s.region, s.procs[p].pc.slot, s.procs[p].pc.meta)
  {
    hide Inv, Run, Step, PublishAlone;
    var e := (p, call);
    EmptyRun(s);
    assert [] + [e] == [e] && [e] + [e] == [e, e] && [e, e] + [e] == [e, e, e] && [e, e, e] + [e] == [e, e, e, e];
    assert [e, e, e, e] + [e] == [e, e, e, e, e];
    var s1, s2, s3, s4, s5 := FiveSteps(s, p, call);
    RunSnoc(s, [], s, p, call);
    RunSnoc(s, [e], s1, p, call);
    RunSnoc(s, [e, e], s2, p, call);
    RunSnoc(s, [e, e, e], s3, p, call);
    RunSnoc(s, [e, e, e, e], s4, p, call);
    s' := s5;
  }

  /** A process that scans for a free slot with nothing in between does what ScanWrite says, and owns
      the slot it found. */
  lemma {:induction false} UninterruptedScan(s: System, p: nat, call: Call, k: nat)
      returns (schedule: seq<(nat, Call)>, s': System)
    requires Inv(s) && p < |s.procs| && s.procs[p].pc == WriteFetch(k)
    ensures (forall e <- schedule :: e == (p, call)) && Run(s, schedule, s')
    ensures |s'.procs| == |s.procs| && s'.procs[p].pc == Idle && s'.region == ScanWrite(s.region, k).0
    ensures s'.procs[p].writing
         == s.procs[p].writing + (match ScanWrite(s.region, k).1 case None => {} case Some(i) => {i})
    decreases |s.region.slots| - k
  {
    hide Inv, SetState, Advance;
    var e: (nat, Call), none: seq<(nat, Call)> := (p, call), [];
    StepKeepsInv(s, p, call);
    var s1 := Step(s, p, call);
    EmptyRun(s1);
    if k >= |s.region.slots| {
      schedule, s' := [e], s1;
      assert [e][1..] == none;
    } else {
      StepKeepsInv(s1, p, call);
      var s2 := Step(s1, p, call);
      EmptyRun(s2);
      if s2.procs[p].pc == Idle {
        schedule, s' := [e, e], s2;
        assert [e, e][1..] == [e] && [e][1..] == none;
      } else {
        var rest;
        rest, s' := UninterruptedScan(s2, p, call, k + 1);
        schedule := [e] + ([e] + rest);
        assert ([e] + ([e] + rest))[1..] == [e] + rest && ([e] + rest)[1..] == rest;
      }
    }
  }

  lemma EmptyRun(s: System)
    ensures Run(s, [], s)
  {
  }

  /** One step of a release is the sequential release. */
  lemma UninterruptedRelease(s: System, p: nat, call: Call)
    requires Inv(s) && p < |s.procs| && s.procs[p].pc.ReleaseCas?
    ensures CanStep(s, p)
    ensures var i, s' := s.procs[p].pc.slot, Step(s, p, call);
      && (s'.region, true) == ReleaseAlone(s.region, i)
      && s'.procs[p].pc.Idle? && s'.procs[p].reading == s.procs[p].reading - {i}
  {
    hide Count, SlotInv;
    OwnerSucceeds(s, p);
    assert ProcessInv(s.procs[p], |s.region.slots|);
  }

  /** A process that looks for a READY slot with nothing in between does what ScanRead says, and owns the
      slot it found. */
  lemma {:induction false} UninterruptedRead(s: System, p: nat, call: Call, k: nat)
      returns (schedule: seq<(nat, Call)>, s': System)
    requires Inv(s) && p < |s.procs| && s.procs[p].pc == ReadTry(k)
    ensures (forall e <- schedule :: e == (p, call)) && Run(s, schedule, s')
    ensures |s'.procs| == |s.procs| && s'.procs[p].pc == Idle && s'.region == ScanRead(s.region, k).0
    ensures s'.procs[p].reading
         == s.procs[p].reading + (match ScanRead(s.region, k).1 case None => {} case Some(i) => {i})
    decreases |s.region.slots| - k
  {
    hide Inv, SetState;
    var e: (nat, Call), none: seq<(nat, Call)> := (p, call), [];
    StepKeepsInv(s, p, call);
    var s1 := Step(s, p, call);
    EmptyRun(s1);
    if s1.procs[p].pc == Idle {
      schedule, s' := [e], s1;
      assert [e][1..] == none;
    } else {
      var rest;
      rest, s' := UninterruptedRead(s1, p, call, k + 1);
      schedule := [e] + rest;
      assert ([e] + rest)[1..] == rest;
    }
  }

  /** The states of a slot follow one another in a circle. */
  function NextState(state: FrameState): FrameState {
    match state
    case Free => Writing
    case Writing => Ready
    case Ready => Reading
    case Reading => Free
  }

  /** A step moves at most the slot it tries, and that one state on. */
  lemma Lifecycle(s: System, p: nat, call: Call, i: nat)
    requires CanStep(s, p) && i < |s.region.slots|
    ensures var s', pc := Step(s, p, call), s.procs[p].pc;
      && |s'.region.slots| == |s.region.slots|
      && (s'.region.slots[i].state != s.region.slots[i].state ==>
            s'.region.slots[i].state == NextState(s.region.slots[i].state))
      && (s'.region.slots[i].state == NextState(s.region.slots[i].state) <==>
            match s.region.slots[i].state {
              case Free => pc.WriteTry? && pc.idx == i
              case Writing => pc.PublishCas? && pc.slot == i
              case Ready => pc == ReadTry(i)
              case Reading => pc == ReleaseCas(i)
            })
  {
    hide Published, StoreIndex, StoreWidth, StoreHeight, SomeStoring;
  }
}
