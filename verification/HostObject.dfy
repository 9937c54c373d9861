/** The host record of native/compositor_host.c with its fixed arrays, refining `CompositorHost.Host`. */
module HostObject {
  import opened Wrappers
  import opened CompositorHost

  /** The array index of position k after going round at most once. */
  function Slot(k: nat): nat { if k < MAX_QUEUE then k else k - MAX_QUEUE }

  /** The ring's frames, oldest first. */
  ghost function Unrolled(ring: seq<Frame>, head: nat, count: nat): (q: seq<Frame>)
    requires |ring| == MAX_QUEUE && head < MAX_QUEUE && count <= MAX_QUEUE
    ensures |q| == count && forall i | 0 <= i < count :: q[i] == ring[Slot(head + i)]
  {
    seq(count, i requires 0 <= i < count => ring[Slot(head + i)])
  }

  /** Writing at the tail of a ring that is not full appends. */
  lemma UnrolledPush(ring: seq<Frame>, head: nat, count: nat, f: Frame)
    requires |ring| == MAX_QUEUE && head < MAX_QUEUE && count < MAX_QUEUE
    ensures Unrolled(ring[(head + count) % MAX_QUEUE := f], head, count + 1) == Unrolled(ring, head, count) + [f]
  {
    assert (head + count) % MAX_QUEUE == Slot(head + count);
  }

  /** Moving the head of a ring that is not empty drops the oldest. */
  lemma UnrolledPop(ring: seq<Frame>, head: nat, count: nat)
    requires |ring| == MAX_QUEUE && head < MAX_QUEUE && 0 < count <= MAX_QUEUE
    ensures Unrolled(ring, (head + 1) % MAX_QUEUE, count - 1) == Unrolled(ring, head, count)[1..]
    ensures Unrolled(ring, head, count)[0] == ring[head]
  {
    assert (head + 1) % MAX_QUEUE == Slot(head + 1);
  }

  function ActiveCount(clients: seq<Client>): nat {
    if clients == [] then 0 else ActiveCount(clients[..|clients| - 1]) + if clients[|clients| - 1].active then 1 else 0
  }

  function ActiveRecords(clients: seq<Client>): set<nat> {
    set i: nat | i < |clients| && clients[i].active
  }

  /** The count is the number of active records. */
  lemma {:induction false} CountsActive(clients: seq<Client>)
    ensures ActiveCount(clients) == |ActiveRecords(clients)|
  {
    if clients != [] {
      var last := |clients| - 1;
      CountsActive(clients[..last]);
      assert ActiveRecords(clients) == ActiveRecords(clients[..last]) + if clients[last].active then {last} else {};
    }
  }

  class CompositorHostRecord {
    const queue: array<Frame>
    var head: nat
    var tail: nat
    var count: nat
    const clients: array<Client>
    ghost var deallocated: multiset<Port>
    ghost var handedOut: multiset<Port>
    ghost var notices: seq<Notice>

    ghost predicate Valid()
      reads this
    {
      && queue.Length == MAX_QUEUE && clients.Length == MAX_CLIENTS
      && head < MAX_QUEUE && count <= MAX_QUEUE && tail == (head + count) % MAX_QUEUE
    }

    ghost function State(): Host
      reads this, queue, clients
      requires Valid()
    {
      Host(Unrolled(queue[..], head, count), clients[..], deallocated, handedOut, notices)
    }

    constructor ()
      ensures Valid() && fresh(queue) && fresh(clients) && State() == NEW_HOST
    {
      queue := new Frame[MAX_QUEUE](_ => Frame(0, 0, 0, 0, 0));
      clients := new Client[MAX_CLIENTS](_ => NO_CLIENT);
      head, tail, count := 0, 0, 0;
      deallocated, handedOut, notices := multiset{}, multiset{}, [];
      new;
      assert clients[..] == NEW_HOST.clients;
    }

    method FindClient(token: nat) returns (r: Option<nat>)
      requires Valid()
      ensures r == Find(clients[..], token)
    {
      for i := 0 to MAX_CLIENTS
        invariant Find(clients[..], token) == FindFrom(clients[..], token, i)
      {
        if clients[i].active && clients[i].token == token { return Some(i); }
      }
      r := None;
    }

    method AllocClient() returns (r: Option<nat>)
      requires Valid()
      ensures r == Free(clients[..])
    {
      for i := 0 to MAX_CLIENTS
        invariant Free(clients[..]) == FreeFrom(clients[..], i)
      {
        if !clients[i].active { return Some(i); }
      }
      r := None;
    }

    /** The kernel call that gives a reference back. */
    ghost method Deallocate(p: Port)
      requires p != 0
      modifies this`deallocated
      ensures deallocated == old(deallocated) + multiset{p}
    {
      deallocated := deallocated + multiset{p};
    }

    method DropOldest()
      requires Valid() && count > 0
      modifies this`head, this`count, this`deallocated
      ensures Valid() && count == old(count) - 1
      ensures State() == old(State()).(queue := old(State()).queue[1..],
                                       deallocated := old(deallocated) + Ref(old(State()).queue[0].surface))
    {
      hide Unrolled;
      UnrolledPop(queue[..], head, count);
      var dropped := queue[head];
      head := (head + 1) % MAX_QUEUE;
      count := count - 1;
      if dropped.surface != 0 {
        Deallocate(dropped.surface);
      }
    }

    method AppendFrame(f: Frame)
      requires Valid() && count < MAX_QUEUE
      modifies this`tail, this`count, queue
      ensures Valid() && State() == old(State()).(queue := old(State()).queue + [f])
    {
      hide Unrolled;
      ghost var ring := queue[..];
      UnrolledPush(ring, head, count, f);
      queue[tail] := f;
      assert queue[..] == ring[tail := f];
      tail := (tail + 1) % MAX_QUEUE;
      count := count + 1;
    }

    method PushFrame(f: Frame)
      requires Valid()
      modifies this`head, this`tail, this`count, this`deallocated, queue
      ensures Valid() && State() == Push(old(State()), f)
    {
      hide Unrolled, Valid;
      RingCount();
      if count >= MAX_QUEUE {
        DropOldest();
      }
      AppendFrame(f);
    }

    lemma RingCount()
      requires Valid()
      ensures |State().queue| == count <= MAX_QUEUE
    {
    }

    method HandleHello(token: nat, pid: int, reply: Port)
      requires Valid()
      modifies this`deallocated, this`notices, clients
      ensures Valid() && State() == AfterHello(old(State()), token, pid, reply)
    {
      var existing := FindClient(token);
      if existing.Some? {
        var c := clients[existing.value];
        if c.reply != 0 {
          Deallocate(c.reply);
        }
        clients[existing.value] := c.(reply := reply, pid := pid);
        return;
      }
      var slot := AllocClient();
      if slot.None? {
        if reply != 0 {
          Deallocate(reply);
        }
        return;
      }
      clients[slot.value] := Client(token, pid, reply, true);
      notices := notices + [Notice(token, true)];
    }

    method HandleGoodbye(token: nat)
      requires Valid()
      modifies this`deallocated, this`notices, clients
      ensures Valid() && State() == AfterGoodbye(old(State()), token)
    {
      var client := FindClient(token);
      if client.Some? {
        var c := clients[client.value];
        if c.reply != 0 {
          Deallocate(c.reply);
        }
        clients[client.value] := c.(active := false, reply := 0);
        notices := notices + [Notice(token, false)];
      }
    }

    method HandleFrameSubmit(f: Frame)
      requires Valid()
      modifies this`head, this`tail, this`count, this`deallocated, queue
      ensures Valid() && State() == AfterSubmit(old(State()), f)
    {
      var client := FindClient(f.token);
      if client.None? {
        if f.surface != 0 {
          Deallocate(f.surface);
        }
        return;
      }
      PushFrame(f);
    }

    method PopFrame() returns (r: Option<Frame>)
      requires Valid()
      modifies this`head, this`count, this`handedOut
      ensures Valid() && State() == AfterPop(old(State()))
      ensures r == if old(State()).queue == [] then None else Some(old(State()).queue[0])
    {
      hide Unrolled;
      if count == 0 { return None; }
      UnrolledPop(queue[..], head, count);
      var f := queue[head];
      head := (head + 1) % MAX_QUEUE;
      count := count - 1;
      handedOut := handedOut + Ref(f.surface);
      r := Some(f);
    }

    method ClientCount() returns (n: nat)
      requires Valid()
      ensures n == ActiveCount(clients[..])
    {
      n := 0;
      for i := 0 to MAX_CLIENTS
        invariant n == ActiveCount(clients[..i])
      {
        assert clients[..i + 1][..i] == clients[..i];
        if clients[i].active {
          n := n + 1;
        }
      }
      assert clients[..MAX_CLIENTS] == clients[..];
    }

    /** Gives back every reference the ring and the table hold; the record is freed afterwards. */
    method Destroy()
      requires Valid()
      modifies this`head, this`count, this`deallocated
      ensures count == 0 && handedOut == old(handedOut)
      ensures deallocated == AfterDestroy(old(State())).deallocated
    {
      hide Unrolled, QueuePorts, ClientPorts;
      ghost var h := State();
      ghost var ring := queue[..];
      while count > 0
        invariant Valid() && queue[..] == ring && clients[..] == h.clients
        invariant deallocated + QueuePorts(Unrolled(ring, head, count)) == h.deallocated + QueuePorts(h.queue)
      {
        QueuePortsHead(Unrolled(ring, head, count));
        DropOldest();
      }
      NoPorts();
      assert Unrolled(ring, head, count) == [];
      ghost var freed := deallocated;
      assert freed == h.deallocated + QueuePorts(h.queue);
      for i := 0 to MAX_CLIENTS
        invariant deallocated + ClientPorts(h.clients[i..]) == freed + ClientPorts(h.clients)
      {
        ClientPortsHead(h.clients[i..]);
        assert h.clients[i..][1..] == h.clients[i + 1..];
        if clients[i].active && clients[i].reply != 0 {
          Deallocate(clients[i].reply);
        }
      }
      assert h.clients[MAX_CLIENTS..] == [];
    }
  }

  lemma NoPorts()
    ensures QueuePorts([]) == multiset{} && ClientPorts([]) == multiset{}
  {
  }
}
