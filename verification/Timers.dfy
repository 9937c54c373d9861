/** The timer table of native/kqueue_event_loop.c against the timers registered with the kernel. */
module Timers {
  import opened Wrappers

  const MAX_TIMERS := 32

  const ID_LIMIT := 0x1_0000_0000_0000_0000

  /** Callback 0 is the null callback. */
  datatype Timer = Timer(id: nat, active: bool, callback: nat)

  datatype Table = Table(slots: seq<Timer>, nextId: nat, kernel: set<nat>)

  const EMPTY := Table(seq(MAX_TIMERS, _ => Timer(0, false, 0)), 1, {})

  predicate Is(t: Timer, id: nat) { t.active && t.id == id }

  function FindFrom(slots: seq<Timer>, id: nat, i: nat): (r: Option<nat>)
    requires i <= |slots|
    ensures r.Some? ==> i <= r.value < |slots| && Is(slots[r.value], id)
    ensures r.None? ==> forall k | i <= k < |slots| :: !Is(slots[k], id)
    decreases |slots| - i
  {
    if i == |slots| then None else if Is(slots[i], id) then Some(i) else FindFrom(slots, id, i + 1)
  }

  function FreeFrom(slots: seq<Timer>, i: nat): (r: Option<nat>)
    requires i <= |slots|
    ensures r.Some? ==> i <= r.value < |slots| && !slots[r.value].active
    ensures r.None? ==> forall k | i <= k < |slots| :: slots[k].active
    decreases |slots| - i
  {
    if i == |slots| then None else if !slots[i].active then Some(i) else FreeFrom(slots, i + 1)
  }

  // ----- the separate steps of adding and removing -----

  /** Takes the slot and the next id, under the lock. */
  function Reserve(t: Table, i: nat, callback: nat): Table
    requires i < |t.slots|
  {
    t.(slots := t.slots[i := Timer(t.nextId, true, callback)], nextId := (t.nextId + 1) % ID_LIMIT)
  }

  function KernelAdd(t: Table, id: nat): Table { t.(kernel := t.kernel + {id}) }

  /** The rollback goes by the slot, not by the id. */
  function Unreserve(t: Table, i: nat): Table
    requires i < |t.slots|
  {
    t.(slots := t.slots[i := t.slots[i].(active := false)])
  }

  function KernelDelete(t: Table, id: nat): Table { t.(kernel := t.kernel - {id}) }

  function Deactivate(t: Table, id: nat): Table {
    match FindFrom(t.slots, id, 0)
    case None => t
    case Some(i) => Unreserve(t, i)
  }

  /** The callback that a kernel event for the id finds. */
  function Lookup(t: Table, id: nat): Option<nat> {
    match FindFrom(t.slots, id, 0)
    case None => None
    case Some(i) => Some(t.slots[i].callback)
  }

  // ----- the table as the source keeps it -----

  class EventLoop {
    const timers: array<Timer>
    var nextTimerId: nat
    ghost var kernel: set<nat>

    ghost predicate Valid()
      reads this
    {
      timers.Length == MAX_TIMERS && nextTimerId < ID_LIMIT
    }

    ghost function State(): Table
      reads this, timers
    {
      Table(timers[..], nextTimerId, kernel)
    }

    constructor ()
      ensures Valid() && State() == EMPTY && fresh(timers)
    {
      timers := new Timer[MAX_TIMERS](_ => Timer(0, false, 0));
      nextTimerId := 1;
      kernel := {};
      new;
      assert timers[..] == EMPTY.slots;
    }

    method FindTimerSlot(id: nat) returns (r: Option<nat>)
      requires Valid()
      ensures r == FindFrom(timers[..], id, 0)
    {
      for i := 0 to MAX_TIMERS
        invariant FindFrom(timers[..], id, 0) == FindFrom(timers[..], id, i)
      {
        if timers[i].active && timers[i].id == id { return Some(i); }
      }
      r := None;
    }

    method AllocTimerSlot() returns (r: Option<nat>)
      requires Valid()
      ensures r == FreeFrom(timers[..], 0)
    {
      for i := 0 to MAX_TIMERS
        invariant FreeFrom(timers[..], 0) == FreeFrom(timers[..], i)
      {
        if !timers[i].active { return Some(i); }
      }
      r := None;
    }

    /** Adding without interference; `registers` is the kernel's answer. 0 stands for failure. */
    method AddTimer(callback: nat, registers: bool) returns (id: nat)
      requires Valid()
      modifies this, timers
      ensures Valid()
      ensures var was := old(State()); match FreeFrom(was.slots, 0) {
        case None => id == 0 && State() == was
        case Some(i) =>
          var reserved := Reserve(was, i, callback);
          if registers then id == was.nextId && State() == KernelAdd(reserved, id)
          else id == 0 && State() == Unreserve(reserved, i)
      }
    {
      var slot := AllocTimerSlot();
      if slot.None? { return 0; }
      id := nextTimerId;
      nextTimerId := (nextTimerId + 1) % ID_LIMIT;
      timers[slot.value] := Timer(id, true, callback);
      if !registers {
        timers[slot.value] := timers[slot.value].(active := false);
        return 0;
      }
      kernel := kernel + {id};
    }

    method RemoveTimer(id: nat)
      requires Valid()
      modifies this`kernel, timers
      ensures Valid() && State() == Deactivate(KernelDelete(old(State()), id), id)
    {
      kernel := kernel - {id};
      var slot := FindTimerSlot(id);
      if slot.Some? {
        timers[slot.value] := timers[slot.value].(active := false);
      }
    }

    /** The callback to make for a timer event, if any. */
    method TimerCallback(id: nat) returns (r: Option<nat>)
      requires Valid()
      ensures r == match Lookup(State(), id) { case Some(c) => (if c == 0 then None else Some(c)) case None => None }
    {
      var slot := FindTimerSlot(id);
      if slot.None? || timers[slot.value].callback == 0 { return None; }
      r := Some(timers[slot.value].callback);
    }
  }

  // ----- any number of threads -----

  /** What a thread is in the middle of. */
  datatype Thread = Idle | Registering(slot: nat, id: nat) | RollingBack(slot: nat, id: nat) | Deactivating(id: nat)

  /** As ghost record, the ids that an add has returned, those whose remove has returned, and the callback
      each id was added with. */
  datatype System = System(
    table: Table, threads: map<nat, Thread>, returned: set<nat>, removed: set<nat>, callbacks: map<nat, nat>)

  const INITIAL := System(EMPTY, map[], {}, {}, map[])

  datatype Action =
    | AddBegin(thread: nat, callback: nat)
    | AddRegister(thread: nat, ok: bool)
    | AddRollback(thread: nat)
    | RemoveBegin(thread: nat, id: nat)
    | RemoveEnd(thread: nat)

  function ThreadOf(s: System, t: nat): Thread { if t in s.threads then s.threads[t] else Idle }

  /** The thread is where the action starts, ids do not wrap, and only returned ids are removed. */
  predicate Enabled(s: System, a: Action) {
    match a
    case AddBegin(t, _) => ThreadOf(s, t).Idle? && s.table.nextId + 1 < ID_LIMIT
    case AddRegister(t, _) => ThreadOf(s, t).Registering?
    case AddRollback(t) => ThreadOf(s, t).RollingBack? && ThreadOf(s, t).slot < |s.table.slots|
    case RemoveBegin(t, id) => ThreadOf(s, t).Idle? && id in s.returned
    case RemoveEnd(t) => ThreadOf(s, t).Deactivating?
  }

  function Step(s: System, a: Action): System
    requires Enabled(s, a)
  {
    match a
    case AddBegin(t, callback) =>
      (match FreeFrom(s.table.slots, 0)
       case None => s
       case Some(i) =>
         s.(table := Reserve(s.table, i, callback), threads := s.threads[t := Registering(i, s.table.nextId)],
            callbacks := s.callbacks[s.table.nextId := callback]))
    case AddRegister(t, ok) =>
      var at := ThreadOf(s, t);
      if ok then
        s.(table := KernelAdd(s.table, at.id), threads := s.threads[t := Idle], returned := s.returned + {at.id})
      else s.(threads := s.threads[t := RollingBack(at.slot, at.id)])
    case AddRollback(t) => s.(table := Unreserve(s.table, ThreadOf(s, t).slot), threads := s.threads[t := Idle])
    case RemoveBegin(t, id) => s.(table := KernelDelete(s.table, id), threads := s.threads[t := Deactivating(id)])
    case RemoveEnd(t) =>
      var id := ThreadOf(s, t).id;
      s.(table := Deactivate(s.table, id), threads := s.threads[t := Idle], removed := s.removed + {id})
  }

  predicate EnabledRun(s: System, actions: seq<Action>)
    decreases |actions|
  {
    actions == [] || (Enabled(s, actions[0]) && EnabledRun(Step(s, actions[0]), actions[1..]))
  }

  function Run(s: System, actions: seq<Action>): System
    requires EnabledRun(s, actions)
    decreases |actions|
  {
    if actions == [] then s else Run(Step(s, actions[0]), actions[1..])
  }

  predicate Adding(th: Thread) { th.Registering? || th.RollingBack? }

  ghost predicate Active(slots: seq<Timer>, id: nat) { exists i :: 0 <= i < |slots| && Is(slots[i], id) }

  /** Active ids are unique and were given out. */
  ghost predicate Slots(t: Table) {
    && |t.slots| == MAX_TIMERS && 0 < t.nextId
    && (forall i | 0 <= i < |t.slots| && t.slots[i].active :: 0 < t.slots[i].id < t.nextId)
    && (forall i, j | 0 <= i < j < |t.slots| && t.slots[i].active && t.slots[j].active ::
      t.slots[i].id != t.slots[j].id)
  }

  /** A timer being added is active in its slot, and nobody else knows its id. */
  ghost predicate Adders(s: System) {
    && (forall t <- s.threads | Adding(s.threads[t]) :: Adder(s, s.threads[t]))
    && AddersDiffer(s)
  }

  ghost predicate AddersDiffer(s: System) {
    forall t, u | t in s.threads && u in s.threads && t != u && Adding(s.threads[t]) && Adding(s.threads[u]) ::
      s.threads[t].id != s.threads[u].id
  }

  ghost predicate Adder(s: System, th: Thread)
    requires Adding(th)
  {
    th.slot < |s.table.slots| && Is(s.table.slots[th.slot], th.id) && th.id !in s.returned
  }

  /** Registered timers are active; removed ones are neither registered nor active. */
  ghost predicate Known(s: System) {
    && (forall id <- s.returned :: 0 < id < s.table.nextId)
    && s.table.kernel <= s.returned && s.removed <= s.returned
    && (forall id <- s.table.kernel :: Active(s.table.slots, id))
    && (forall id <- s.removed :: id !in s.table.kernel && !Active(s.table.slots, id))
    && (forall t <- s.threads | s.threads[t].Deactivating? ::
      s.threads[t].id in s.returned && s.threads[t].id !in s.table.kernel)
  }

  /** Nothing is active without reason: it is registered, or a thread is adding or removing it. */
  ghost predicate Accounted(s: System) {
    forall i | 0 <= i < |s.table.slots| && s.table.slots[i].active :: HasReason(s, s.table.slots[i].id)
  }

  ghost predicate HasReason(s: System, id: nat) {
    id in s.table.kernel || exists t <- s.threads :: !s.threads[t].Idle? && s.threads[t].id == id
  }

  /** Every active timer has the callback it was added with. */
  ghost predicate Callbacks(s: System) {
    forall i | 0 <= i < |s.table.slots| && s.table.slots[i].active :: CalledBack(s, s.table.slots[i])
  }

  predicate CalledBack(s: System, t: Timer) { t.id in s.callbacks && s.callbacks[t.id] == t.callback }

  ghost predicate Inv(s: System) { Slots(s.table) && Adders(s) && Known(s) && Accounted(s) && Callbacks(s) }

  lemma StepKeepsSlots(s: System, a: Action)
    requires Inv(s) && Enabled(s, a)
    ensures Slots(Step(s, a).table)
  {
    hide Adders, Known, Accounted;
  }

  lemma StepKeepsDifferent(s: System, a: Action)
    requires Inv(s) && Enabled(s, a)
    ensures AddersDiffer(Step(s, a))
  {
    hide Accounted, Active, Known, Deactivate;
    assert forall t <- s.threads | Adding(s.threads[t]) :: Adder(s, s.threads[t]) && s.threads[t].id < s.table.nextId;
  }

  lemma StepKeepsAdders(s: System, a: Action)
    requires Inv(s) && Enabled(s, a)
    ensures Adders(Step(s, a))
  {
    hide Accounted, Active, Deactivate;
    var next := Step(s, a);
    assert AddersDiffer(next) by {
      StepKeepsDifferent(s, a);
    }
    hide AddersDiffer;
    if a.RemoveEnd? {
      OthersStay(s.table, ThreadOf(s, a.thread).id);
    }
    forall t <- next.threads | Adding(next.threads[t]) ensures Adder(next, next.threads[t]) {
      assert t in s.threads && Adding(s.threads[t]) ==> Adder(s, s.threads[t]);
      assert ThreadOf(s, a.thread).Idle? || a.thread in s.threads;
    }
  }

  lemma OthersStay(t: Table, id: nat)
    ensures |Deactivate(t, id).slots| == |t.slots|
    ensures forall i | 0 <= i < |t.slots| && t.slots[i].id != id :: Deactivate(t, id).slots[i] == t.slots[i]
  {
  }

  lemma SlotChange(slots: seq<Timer>, i: nat, x: Timer)
    requires i < |slots|
    ensures forall id | Active(slots, id) && !Is(slots[i], id) :: Active(slots[i := x], id)
    ensures forall id | Active(slots[i := x], id) && !Is(x, id) :: Active(slots, id)
  {
    var after := slots[i := x];
    forall id | Active(slots, id) && !Is(slots[i], id) ensures Active(after, id) {
      var k: nat :| k < |slots| && Is(slots[k], id);
      assert Is(after[k], id);
    }
    forall id | Active(after, id) && !Is(x, id) ensures Active(slots, id) {
      var k: nat :| k < |after| && Is(after[k], id);
      assert Is(slots[k], id);
    }
  }

  lemma StepKeepsKnown(s: System, a: Action)
    requires Inv(s) && Enabled(s, a)
    ensures Known(Step(s, a))
  {
    hide Accounted, Active;
    match a
    case AddBegin(t, callback) =>
      var free := FreeFrom(s.table.slots, 0);
      if free.Some? {
        SlotChange(s.table.slots, free.value, Timer(s.table.nextId, true, callback));
      }
    case AddRegister(t, ok) =>
      var at := ThreadOf(s, t);
      assert Adder(s, at);
      IsActive(s.table.slots, at.slot, at.id);
    case AddRollback(t) =>
      var at := ThreadOf(s, t);
      assert Adder(s, at);
      SlotChange(s.table.slots, at.slot, s.table.slots[at.slot].(active := false));
    case RemoveBegin(t, id) =>
    case RemoveEnd(t) => DeactivateGone(s.table, ThreadOf(s, t).id);
  }

  lemma IsActive(slots: seq<Timer>, i: nat, id: nat)
    requires i < |slots| && Is(slots[i], id)
    ensures Active(slots, id)
  {
  }

  /** Deactivating an id takes it, and it alone, out of the active ones. */
  lemma DeactivateGone(t: Table, id: nat)
    requires Slots(t)
    ensures forall k :: Active(Deactivate(t, id).slots, k) <==> Active(t.slots, k) && k != id
  {
    var found := FindFrom(t.slots, id, 0);
    if found.Some? {
      var i := found.value;
      SlotChange(t.slots, i, t.slots[i].(active := false));
    }
  }

  lemma StepKeepsAccounted(s: System, a: Action)
    requires Inv(s) && Enabled(s, a)
    ensures Accounted(Step(s, a))
  {
    hide Known;
    var next := Step(s, a);
    forall i | 0 <= i < |next.table.slots| && next.table.slots[i].active
      ensures HasReason(next, next.table.slots[i].id)
    {
      var id := next.table.slots[i].id;
      match a
      case AddBegin(t, _) =>
        var free := FreeFrom(s.table.slots, 0);
        if free == Some(i) {
          assert next.threads[t].id == id;
        } else if free.Some? {
          OthersReason(s, next, t, id);
        }
      case AddRegister(t, _) => OthersReason(s, next, t, id);
      case AddRollback(t) => OthersReason(s, next, t, id);
      case RemoveBegin(t, gone) => OthersReason(s, next, t, id);
      case RemoveEnd(t) => OthersReason(s, next, t, id);
    }
  }

  /** A reason survives a step of thread t unless it was t's own. */
  lemma OthersReason(s: System, next: System, t: nat, id: nat)
    requires HasReason(s, id) && t in next.threads && next.threads == s.threads[t := next.threads[t]]
    requires id in s.table.kernel && id !in next.table.kernel ==> !next.threads[t].Idle? && next.threads[t].id == id
    requires !ThreadOf(s, t).Idle? && ThreadOf(s, t).id == id ==> HasReason(next, id)
    ensures HasReason(next, id)
  {
    if id !in s.table.kernel {
      var u :| u in s.threads && !s.threads[u].Idle? && s.threads[u].id == id;
      assert u in next.threads;
    }
  }

  lemma StepKeepsCallbacks(s: System, a: Action)
    requires Inv(s) && Enabled(s, a)
    ensures Callbacks(Step(s, a))
  {
    hide Adders, Known, Accounted;
    var next := Step(s, a);
    forall i | 0 <= i < |next.table.slots| && next.table.slots[i].active
      ensures CalledBack(next, next.table.slots[i])
    {
      if next.table.slots[i] == s.table.slots[i] {
        assert CalledBack(s, s.table.slots[i]);
      }
    }
  }

  lemma StepKeeps(s: System, a: Action)
    requires Inv(s) && Enabled(s, a)
    ensures Inv(Step(s, a))
  {
    hide Slots, Adders, Known, Accounted, Callbacks, Step, Enabled;
    StepKeepsSlots(s, a);
    StepKeepsAdders(s, a);
    StepKeepsKnown(s, a);
    StepKeepsAccounted(s, a);
    StepKeepsCallbacks(s, a);
  }

  lemma {:induction false} RunKeeps(s: System, actions: seq<Action>)
    requires Inv(s) && EnabledRun(s, actions)
    ensures Inv(Run(s, actions))
    decreases |actions|
  {
    hide Inv, Step, Enabled;
    if actions != [] {
      StepKeeps(s, actions[0]);
      RunKeeps(Step(s, actions[0]), actions[1..]);
    }
  }

  /** Over every interleaving: active ids are unique and below the next id, so never given out again;
      every registered timer's event finds the callback it was added with; and a removed id finds none and
      stays unregistered. */
  lemma TimersSafe(actions: seq<Action>)
    requires EnabledRun(INITIAL, actions)
    ensures var s := Run(INITIAL, actions);
      && Slots(s.table)
      && (forall id <- s.table.kernel :: id in s.callbacks && Lookup(s.table, id) == Some(s.callbacks[id]))
      && forall id <- s.removed :: id !in s.table.kernel && Lookup(s.table, id).None?
  {
    RunKeeps(INITIAL, actions);
    var s := Run(INITIAL, actions);
    forall id <- s.table.kernel ensures id in s.callbacks && Lookup(s.table, id) == Some(s.callbacks[id]) {
      assert Active(s.table.slots, id);
      assert CalledBack(s, s.table.slots[FindFrom(s.table.slots, id, 0).value]);
    }
    forall id <- s.removed ensures Lookup(s.table, id).None? {
      assert !Active(s.table.slots, id);
    }
  }

  /** When every thread is idle, the active timers are exactly those registered with the kernel. */
  lemma QuietTimers(actions: seq<Action>, id: nat)
    requires EnabledRun(INITIAL, actions)
    requires forall t <- Run(INITIAL, actions).threads :: Run(INITIAL, actions).threads[t].Idle?
    ensures var s := Run(INITIAL, actions); Active(s.table.slots, id) <==> id in s.table.kernel
  {
    hide Run;
    RunKeeps(INITIAL, actions);
    var s := Run(INITIAL, actions);
    if Active(s.table.slots, id) {
      var i: nat :| i < |s.table.slots| && Is(s.table.slots[i], id);
      assert HasReason(s, s.table.slots[i].id);
    }
  }

  /** The rollback, which goes by the slot alone, deactivates its own timer and no other, over every
      interleaving that leads up to it. */
  lemma RollbackIsOwn(actions: seq<Action>, t: nat, id: nat)
    requires EnabledRun(INITIAL, actions) && ThreadOf(Run(INITIAL, actions), t).RollingBack?
    ensures var s := Run(INITIAL, actions); var own := ThreadOf(s, t);
      && Enabled(s, AddRollback(t))
      && Active(s.table.slots, own.id) && own.id !in s.table.kernel
      && (Active(Step(s, AddRollback(t)).table.slots, id) <==> Active(s.table.slots, id) && id != own.id)
  {
    hide Run, Accounted, Active;
    StartsRight();
    RunKeeps(INITIAL, actions);
    var s := Run(INITIAL, actions);
    var own := ThreadOf(s, t);
    assert Adder(s, own);
    IsActive(s.table.slots, own.slot, own.id);
    SlotChange(s.table.slots, own.slot, s.table.slots[own.slot].(active := false));
    OnlySlot(s.table, own.slot, id);
  }

  lemma StartsRight()
    ensures Inv(INITIAL)
  {
  }

  lemma OnlySlot(t: Table, i: nat, id: nat)
    requires Slots(t) && i < |t.slots| && Is(t.slots[i], t.slots[i].id)
    ensures Active(t.slots[i := t.slots[i].(active := false)], id) ==> id != t.slots[i].id
  {
  }

  /** A new timer's callback is on record under its id. */
  lemma AddRecords(s: System, t: nat, callback: nat)
    requires Inv(s) && Enabled(s, AddBegin(t, callback)) && FreeFrom(s.table.slots, 0).Some?
    ensures var next := Step(s, AddBegin(t, callback));
      && ThreadOf(next, t).Registering? && ThreadOf(next, t).id == s.table.nextId
      && Lookup(next.table, s.table.nextId) == Some(callback)
  {
    StepKeeps(s, AddBegin(t, callback));
    var next := Step(s, AddBegin(t, callback));
    var i := FreeFrom(s.table.slots, 0).value;
    IsActive(next.table.slots, i, s.table.nextId);
  }

  lemma {:induction false} NextIdGrows(s: System, actions: seq<Action>)
    requires EnabledRun(s, actions)
    ensures s.table.nextId <= Run(s, actions).table.nextId
    decreases |actions|
  {
    if actions != [] {
      NextIdGrows(Step(s, actions[0]), actions[1..]);
    }
  }

  /** An id, once given out, is never given out again: every later add uses a larger one. */
  lemma IdsNeverReused(s: System, actions: seq<Action>, t: nat, callback: nat)
    requires Inv(s) && EnabledRun(s, actions) && Enabled(Run(s, actions), AddBegin(t, callback))
    requires FreeFrom(Run(s, actions).table.slots, 0).Some?
    ensures var later := ThreadOf(Step(Run(s, actions), AddBegin(t, callback)), t);
      later.Registering? && forall id: nat | id in s.returned || Active(s.table.slots, id) :: id < later.id
  {
    NextIdGrows(s, actions);
  }
}
