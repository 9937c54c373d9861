/** The compositor host of native/compositor_host.c: a client table, a drop-oldest ring of frames,
    and the port references both of them own. */
module CompositorHost {
  import opened Wrappers

  const MAX_QUEUE := 256

  const MAX_CLIENTS := 64

  /** Port 0 is the null port. */
  type Port = nat

  datatype Frame = Frame(token: nat, surface: Port, width: nat, height: nat, index: nat)

  datatype Client = Client(token: nat, pid: int, reply: Port, active: bool)

  /** What the client callback is told. */
  datatype Notice = Notice(token: nat, connected: bool)

  datatype Message = Hello(token: nat, pid: int, reply: Port) | Goodbye(token: nat) | Submit(frame: Frame)

  /** The ring oldest first, the table, the references given back and handed out, and the callbacks made. */
  datatype Host = Host(
    queue: seq<Frame>,
    clients: seq<Client>,
    deallocated: multiset<Port>,
    handedOut: multiset<Port>,
    notices: seq<Notice>)

  const NO_CLIENT := Client(0, 0, 0, false)

  const NEW_HOST := Host([], seq(MAX_CLIENTS, _ => NO_CLIENT), multiset{}, multiset{}, [])

  /** A reference to the port, unless it is null. */
  function Ref(p: Port): multiset<Port> { if p == 0 then multiset{} else multiset{p} }

  predicate IsFor(c: Client, token: nat) { c.active && c.token == token }

  /** The first record of the token at or after i, as the table is scanned. */
  function FindFrom(clients: seq<Client>, token: nat, i: nat): (r: Option<nat>)
    requires i <= |clients|
    ensures r.Some? ==> i <= r.value < |clients| && IsFor(clients[r.value], token)
    ensures r.None? ==> forall k | i <= k < |clients| :: !IsFor(clients[k], token)
    decreases |clients| - i
  {
    if i == |clients| then None else if IsFor(clients[i], token) then Some(i) else FindFrom(clients, token, i + 1)
  }

  function FreeFrom(clients: seq<Client>, i: nat): (r: Option<nat>)
    requires i <= |clients|
    ensures r.Some? ==> i <= r.value < |clients| && !clients[r.value].active
    ensures r.None? ==> forall k | i <= k < |clients| :: clients[k].active
    decreases |clients| - i
  {
    if i == |clients| then None else if !clients[i].active then Some(i) else FreeFrom(clients, i + 1)
  }

  function Find(clients: seq<Client>, token: nat): Option<nat> { FindFrom(clients, token, 0) }

  function Free(clients: seq<Client>): Option<nat> { FreeFrom(clients, 0) }

  predicate Registered(h: Host, token: nat) { Find(h.clients, token).Some? }

  // ----- what each operation does -----

  function Push(h: Host, f: Frame): Host {
    if |h.queue| >= MAX_QUEUE then
      h.(queue := h.queue[1..] + [f], deallocated := h.deallocated + Ref(h.queue[0].surface))
    else
      h.(queue := h.queue + [f])
  }

  function AfterHello(h: Host, token: nat, pid: int, reply: Port): Host {
    match Find(h.clients, token)
    case Some(i) =>
      h.(clients := h.clients[i := h.clients[i].(reply := reply, pid := pid)],
         deallocated := h.deallocated + Ref(h.clients[i].reply))
    case None =>
      match Free(h.clients)
      case None => h.(deallocated := h.deallocated + Ref(reply))
      case Some(i) =>
        h.(clients := h.clients[i := Client(token, pid, reply, true)], notices := h.notices + [Notice(token, true)])
  }

  function AfterGoodbye(h: Host, token: nat): Host {
    match Find(h.clients, token)
    case None => h
    case Some(i) =>
      h.(clients := h.clients[i := h.clients[i].(reply := 0, active := false)],
         deallocated := h.deallocated + Ref(h.clients[i].reply), notices := h.notices + [Notice(token, false)])
  }

  function AfterSubmit(h: Host, f: Frame): Host {
    if Registered(h, f.token) then Push(h, f) else h.(deallocated := h.deallocated + Ref(f.surface))
  }

  function AfterPop(h: Host): Host {
    if h.queue == [] then h else h.(queue := h.queue[1..], handedOut := h.handedOut + Ref(h.queue[0].surface))
  }

  function Dispatch(h: Host, m: Message): Host {
    match m
    case Hello(token, pid, reply) => AfterHello(h, token, pid, reply)
    case Goodbye(token) => AfterGoodbye(h, token)
    case Submit(f) => AfterSubmit(h, f)
  }

  datatype Event = Received(message: Message) | Pop

  function Step(h: Host, e: Event): Host {
    match e
    case Received(m) => Dispatch(h, m)
    case Pop => AfterPop(h)
  }

  function Run(h: Host, events: seq<Event>): Host
    decreases |events|
  {
    if events == [] then h else Run(Step(h, events[0]), events[1..])
  }

  /** Destroying gives back what the ring and the active records hold. */
  function AfterDestroy(h: Host): Host {
    h.(queue := [], clients := [], deallocated := h.deallocated + QueuePorts(h.queue) + ClientPorts(h.clients))
  }

  // ----- port references -----

  function QueuePorts(q: seq<Frame>): multiset<Port> {
    if q == [] then multiset{} else Ref(q[0].surface) + QueuePorts(q[1..])
  }

  function Share(c: Client): multiset<Port> { if c.active then Ref(c.reply) else multiset{} }

  function ClientPorts(clients: seq<Client>): multiset<Port> {
    if clients == [] then multiset{} else Share(clients[0]) + ClientPorts(clients[1..])
  }

  function PortOf(e: Event): multiset<Port> {
    match e
    case Received(Hello(_, _, reply)) => Ref(reply)
    case Received(Submit(f)) => Ref(f.surface)
    case _ => multiset{}
  }

  function PortsOf(events: seq<Event>): multiset<Port> {
    if events == [] then multiset{} else PortOf(events[0]) + PortsOf(events[1..])
  }

  /** Every reference the host is accountable for. */
  function Ledger(h: Host): multiset<Port> {
    QueuePorts(h.queue) + ClientPorts(h.clients) + h.handedOut + h.deallocated
  }

  lemma QueuePortsHead(q: seq<Frame>)
    requires q != []
    ensures QueuePorts(q) == Ref(q[0].surface) + QueuePorts(q[1..])
  {
  }

  lemma ClientPortsHead(clients: seq<Client>)
    requires clients != []
    ensures ClientPorts(clients) == Share(clients[0]) + ClientPorts(clients[1..])
  {
  }

  lemma {:induction false} QueuePortsAppend(q: seq<Frame>, f: Frame)
    ensures QueuePorts(q + [f]) == QueuePorts(q) + Ref(f.surface)
  {
    if q == [] {
      assert q + [f] == [f];
    } else {
      assert (q + [f])[1..] == q[1..] + [f];
      QueuePortsAppend(q[1..], f);
    }
  }

  lemma Rebalanced(a: multiset<Port>, b: multiset<Port>, c: multiset<Port>, x: multiset<Port>, y: multiset<Port>)
    requires b + x == c + y
    ensures a + b + x == a + c + y
  {
    forall p: Port ensures (a + b + x)[p] == (a + c + y)[p] {
      assert (b + x)[p] == (c + y)[p];
    }
  }

  lemma {:induction false} ClientPortsUpdate(clients: seq<Client>, i: nat, c: Client)
    requires i < |clients|
    ensures ClientPorts(clients[i := c]) + Share(clients[i]) == ClientPorts(clients) + Share(c)
  {
    hide Share;
    if i == 0 {
      assert clients[i := c][1..] == clients[1..];
    } else {
      assert clients[i := c][1..] == clients[1..][i - 1 := c];
      ClientPortsUpdate(clients[1..], i - 1, c);
      Rebalanced(Share(clients[0]), ClientPorts(clients[1..][i - 1 := c]), ClientPorts(clients[1..]), Share(clients[i]),
        Share(c));
    }
  }

  /** A record changes and its old reference is given back. */
  lemma ReplacedKeepsPorts(h: Host, i: nat, c: Client)
    requires i < |h.clients|
    ensures Ledger(h.(clients := h.clients[i := c], deallocated := h.deallocated + Share(h.clients[i])))
         == Ledger(h) + Share(c)
  {
    hide Share, QueuePorts, ClientPorts;
    ClientPortsUpdate(h.clients, i, c);
    Rebalanced(QueuePorts(h.queue) + h.handedOut + h.deallocated, ClientPorts(h.clients[i := c]),
      ClientPorts(h.clients), Share(h.clients[i]), Share(c));
    var after := h.(clients := h.clients[i := c], deallocated := h.deallocated + Share(h.clients[i]));
    assert Ledger(after)
         == QueuePorts(h.queue) + h.handedOut + h.deallocated + ClientPorts(h.clients[i := c]) + Share(h.clients[i]);
    assert Ledger(h) + Share(c)
         == QueuePorts(h.queue) + h.handedOut + h.deallocated + ClientPorts(h.clients) + Share(c);
  }

  lemma PushKeepsPorts(h: Host, f: Frame)
    ensures Ledger(Push(h, f)) == Ledger(h) + Ref(f.surface)
  {
    hide Ref;
    if |h.queue| >= MAX_QUEUE {
      assert QueuePorts(h.queue) == Ref(h.queue[0].surface) + QueuePorts(h.queue[1..]);
      QueuePortsAppend(h.queue[1..], f);
    } else {
      QueuePortsAppend(h.queue, f);
    }
  }

  lemma HelloKeepsPorts(h: Host, token: nat, pid: int, reply: Port)
    ensures Ledger(AfterHello(h, token, pid, reply)) == Ledger(h) + Ref(reply)
  {
    hide QueuePorts, ClientPorts;
    var found := Find(h.clients, token);
    if found.Some? {
      ReplacedKeepsPorts(h, found.value, h.clients[found.value].(reply := reply, pid := pid));
    } else {
      var free := Free(h.clients);
      if free.Some? {
        ReplacedKeepsPorts(h, free.value, Client(token, pid, reply, true));
        assert h.deallocated + Share(h.clients[free.value]) == h.deallocated;
      }
    }
  }

  lemma GoodbyeKeepsPorts(h: Host, token: nat)
    ensures Ledger(AfterGoodbye(h, token)) == Ledger(h)
  {
    hide QueuePorts, ClientPorts;
    var found := Find(h.clients, token);
    if found.Some? {
      ReplacedKeepsPorts(h, found.value, h.clients[found.value].(reply := 0, active := false));
    }
  }

  lemma SubmitKeepsPorts(h: Host, f: Frame)
    ensures Ledger(AfterSubmit(h, f)) == Ledger(h) + Ref(f.surface)
  {
    hide Push, QueuePorts, ClientPorts, Ref;
    PushKeepsPorts(h, f);
  }

  lemma StepKeepsPorts(h: Host, e: Event)
    ensures Ledger(Step(h, e)) == Ledger(h) + PortOf(e)
  {
    hide Ledger, Ref, AfterHello, AfterGoodbye, AfterSubmit, AfterPop;
    match e
    case Received(Hello(token, pid, reply)) => HelloKeepsPorts(h, token, pid, reply);
    case Received(Goodbye(token)) => GoodbyeKeepsPorts(h, token);
    case Received(Submit(f)) => SubmitKeepsPorts(h, f);
    case Pop => PopKeepsPorts(h);
  }

  lemma PopKeepsPorts(h: Host)
    ensures Ledger(AfterPop(h)) == Ledger(h)
  {
    if h.queue != [] {
      assert QueuePorts(h.queue) == Ref(h.queue[0].surface) + QueuePorts(h.queue[1..]);
    }
  }

  /** Port conservation: every non-null reference received is in the ring, with an active client,
      handed out, or deallocated, as often as it was received. */
  lemma {:induction false} PortsConserved(h: Host, events: seq<Event>)
    ensures Ledger(Run(h, events)) == Ledger(h) + PortsOf(events)
    decreases |events|
  {
    hide Ledger, Step;
    if events != [] {
      StepKeepsPorts(h, events[0]);
      PortsConserved(Step(h, events[0]), events[1..]);
    }
  }

  lemma {:induction false} NobodyHolds(clients: seq<Client>)
    requires forall c <- clients :: !c.active
    ensures ClientPorts(clients) == multiset{}
  {
    if clients != [] {
      NobodyHolds(clients[1..]);
    }
  }

  /** After a run and destruction every reference received was handed out or deallocated. */
  lemma PortsSettled(events: seq<Event>)
    ensures var end := AfterDestroy(Run(NEW_HOST, events));
      end.handedOut + end.deallocated == PortsOf(events) &&
        QueuePorts(end.queue) == ClientPorts(end.clients) == multiset{}
  {
    hide Run, PortsOf, ClientPorts;
    NobodyHolds(NEW_HOST.clients);
    PortsConserved(NEW_HOST, events);
    assert Ledger(NEW_HOST) == multiset{};
    var last := Run(NEW_HOST, events);
    assert Ledger(last) == PortsOf(events);
    assert last.handedOut + (last.deallocated + QueuePorts(last.queue) + ClientPorts(last.clients)) == Ledger(last);
    assert ClientPorts([]) == multiset{} by {
      NobodyHolds([]);
    }
  }

  // ----- the client table -----

  ghost predicate Sound(h: Host) {
    && |h.queue| <= MAX_QUEUE && |h.clients| == MAX_CLIENTS
    && forall i, j | 0 <= i < j < |h.clients| && h.clients[i].active && h.clients[j].active ::
      h.clients[i].token != h.clients[j].token
  }

  lemma StepKeepsSound(h: Host, e: Event)
    requires Sound(h)
    ensures Sound(Step(h, e))
  {
  }

  lemma FindAt(clients: seq<Client>, token: nat)
    ensures Find(clients, token).Some? <==> exists c <- clients :: IsFor(c, token)
  {
    if Find(clients, token).None? {
      forall c <- clients ensures !IsFor(c, token) {
      }
    } else {
      assert clients[Find(clients, token).value] in clients;
    }
  }

  /** Who is registered after a message: a goodbye always removes its token, a hello adds it unless the
      table is full of others, and nobody else's registration changes. */
  lemma RegistrationAfter(h: Host, m: Message, token: nat)
    requires Sound(h)
    ensures Registered(Dispatch(h, m), token) ==
      match m {
        case Submit(_) => Registered(h, token)
        case Goodbye(t) => t != token && Registered(h, token)
        case Hello(t, _, _) => Registered(h, token) || (t == token && Free(h.clients).Some?)
      }
  {
    var after := Dispatch(h, m).clients;
    FindAt(h.clients, token);
    FindAt(after, token);
    match m
    case Submit(_) =>
    case Goodbye(t) =>
      var found := Find(h.clients, t);
      if found.Some? {
        Replaced(h.clients, found.value, h.clients[found.value].(reply := 0, active := false), token);
      }
    case Hello(t, pid, reply) =>
      var found := Find(h.clients, t);
      if found.Some? {
        Replaced(h.clients, found.value, h.clients[found.value].(reply := reply, pid := pid), token);
      } else if Free(h.clients).Some? {
        Replaced(h.clients, Free(h.clients).value, Client(t, pid, reply, true), token);
      }
  }

  lemma Replaced(clients: seq<Client>, i: nat, c: Client, token: nat)
    requires i < |clients|
    requires forall k, l | 0 <= k < l < |clients| && clients[k].active && clients[l].active ::
      clients[k].token != clients[l].token
    ensures (exists d <- clients[i := c] :: IsFor(d, token)) <==>
      IsFor(c, token) || (!IsFor(clients[i], token) && exists d <- clients :: IsFor(d, token))
  {
    var after := clients[i := c];
    if IsFor(c, token) {
      assert after[i] in after;
    } else if !IsFor(clients[i], token) && exists d <- clients :: IsFor(d, token) {
      var k: nat :| k < |clients| && IsFor(clients[k], token);
      assert after[k] in after;
    }
  }

  /** The token's record. */
  function RecordFor(h: Host, token: nat): Option<Client> {
    match Find(h.clients, token)
    case None => None
    case Some(i) => Some(h.clients[i])
  }

  lemma FindUnique(clients: seq<Client>, token: nat, i: nat)
    requires i < |clients| && IsFor(clients[i], token)
    requires forall k, l | 0 <= k < l < |clients| && clients[k].active && clients[l].active ::
      clients[k].token != clients[l].token
    ensures Find(clients, token) == Some(i)
  {
  }

  /** The record of any token after a message: a hello brings its process id and reply port into the
      token's record, a goodbye ends it, and nobody else's changes. */
  lemma RecordAfter(h: Host, m: Message, token: nat)
    requires Sound(h)
    ensures RecordFor(Dispatch(h, m), token) ==
      match m {
        case Submit(_) => RecordFor(h, token)
        case Goodbye(t) => if t == token then None else RecordFor(h, token)
        case Hello(t, pid, reply) =>
          if t == token && (RecordFor(h, token).Some? || Free(h.clients).Some?) then Some(Client(t, pid, reply, true))
          else RecordFor(h, token)
      }
  {
    hide FindFrom, FreeFrom;
    var after := Dispatch(h, m);
    StepKeepsSound(h, Received(m));
    RegistrationAfter(h, m, token);
    var before := Find(h.clients, token);
    if before.Some? && before.value < |after.clients| && IsFor(after.clients[before.value], token) {
      FindUnique(after.clients, token, before.value);
    }
    if m.Hello? && m.token == token && before.None? && Free(h.clients).Some? {
      FindUnique(after.clients, token, Free(h.clients).value);
    }
  }

  /** The references an event gives back: the replaced or ended record's, a refused hello's, a rejected
      frame's, or the oldest frame's of a full ring. */
  function GivenBack(h: Host, e: Event): multiset<Port> {
    match e
    case Pop => multiset{}
    case Received(Hello(t, _, reply)) =>
      if RecordFor(h, t).Some? then Ref(RecordFor(h, t).value.reply)
      else if Free(h.clients).None? then Ref(reply)
      else multiset{}
    case Received(Goodbye(t)) => if RecordFor(h, t).Some? then Ref(RecordFor(h, t).value.reply) else multiset{}
    case Received(Submit(f)) =>
      if RecordFor(h, f.token).None? then Ref(f.surface)
      else if |h.queue| >= MAX_QUEUE then Ref(h.queue[0].surface)
      else multiset{}
  }

  lemma PortsGivenBack(h: Host, e: Event)
    ensures Step(h, e).deallocated == h.deallocated + GivenBack(h, e)
    ensures Step(h, e).handedOut
         == h.handedOut + if e.Pop? && h.queue != [] then Ref(h.queue[0].surface) else multiset{}
  {
    hide Ref;
  }

  // ----- what the client callback is told -----

  /** Whether the last notice about the token said connected. */
  function Connected(notices: seq<Notice>, token: nat): bool {
    if notices == [] then false
    else
      var n := notices[|notices| - 1];
      if n.token == token then n.connected else Connected(notices[..|notices| - 1], token)
  }

  /** No token is announced twice in a row, nor taken back before it was announced. */
  ghost predicate Alternating(notices: seq<Notice>) {
    notices != [] ==>
      var last := |notices| - 1;
      Alternating(notices[..last]) && notices[last].connected != Connected(notices[..last], notices[last].token)
  }

  ghost predicate Announced(h: Host) {
    Sound(h) && Alternating(h.notices) && forall token :: Registered(h, token) == Connected(h.notices, token)
  }

  lemma NoticeAdded(notices: seq<Notice>, n: Notice)
    requires Alternating(notices) && n.connected != Connected(notices, n.token)
    ensures Alternating(notices + [n])
    ensures forall token ::
      Connected(notices + [n], token) == if token == n.token then n.connected else Connected(notices, token)
  {
    assert (notices + [n])[..|notices|] == notices;
  }

  lemma StepKeepsAnnounced(h: Host, e: Event)
    requires Announced(h)
    ensures Announced(Step(h, e))
  {
    hide Connected, Alternating;
    StepKeepsSound(h, e);
    match e
    case Pop =>
    case Received(m) =>
      var after := Dispatch(h, m);
      if after.notices != h.notices {
        NoticeAdded(h.notices, after.notices[|h.notices|]);
      }
      forall token ensures Registered(after, token) == Connected(after.notices, token) {
        RegistrationAfter(h, m, token);
      }
  }

  lemma {:induction false} RunKeepsAnnounced(h: Host, events: seq<Event>)
    requires Announced(h)
    ensures Announced(Run(h, events))
    decreases |events|
  {
    hide Announced, Step;
    if events != [] {
      StepKeepsAnnounced(h, events[0]);
      RunKeepsAnnounced(Step(h, events[0]), events[1..]);
    }
  }

  /** Over every run, connect and disconnect notices alternate for each token, and a token is in the
      table exactly when its last notice said connected. */
  lemma NoticesTellTable(events: seq<Event>, token: nat)
    ensures var h := Run(NEW_HOST, events);
      Alternating(h.notices) && (Registered(h, token) <==> Connected(h.notices, token))
  {
    assert Announced(NEW_HOST);
    RunKeepsAnnounced(NEW_HOST, events);
  }
}
