/** Client processes, the first-in first-out port, and the host: what becomes of every frame sent. */
module CompositorSystem {
  import opened Wrappers
  import opened CompositorHost
  import opened ClientBridge

  /** What the last hello or goodbye processed for a token came to. */
  datatype Standing = Absent | Accepted | Refused

  /** What became of a frame the host has processed; a rejected one keeps its token's standing. */
  datatype Fate = Rejected(standing: Standing) | Queued | Popped | Evicted

  /** Processes by number, the port, the host, and as ghost record the frames put on the port, the fates
      of those processed so far, the frames popped, and the standing of each token. */
  datatype System = System(
    processes: map<nat, Connection>,
    port: seq<Message>,
    host: Host,
    sent: seq<Frame>,
    fates: seq<Fate>,
    popped: seq<Frame>,
    standings: map<nat, Standing>)

  const INITIAL := System(map[], [], NEW_HOST, [], [], [], map[])

  datatype Action =
    | Connect(process: nat, token: nat, pid: int, reply: Port, works: bool)
    | SendSurface(process: nat, token: nat, surface: Port, index: nat, works: bool)
    | Disconnect(process: nat, token: nat, works: bool)
    | RunOnce
    | PopFrame

  function ConnectionOf(s: System, process: nat): Connection {
    if process in s.processes then s.processes[process] else UNCONNECTED
  }

  function StandingOf(s: System, token: nat): Standing {
    if token in s.standings then s.standings[token] else Absent
  }

  function FramesIn(messages: seq<Message>): seq<Frame> {
    if messages == [] then []
    else FrameOf(messages[0]) + FramesIn(messages[1..])
  }

  function FrameOf(m: Message): seq<Frame> {
    if m.Submit? then [m.frame] else []
  }

  /** The first queued frame gets the fate. */
  function Mark(fates: seq<Fate>, fate: Fate): (r: seq<Fate>)
    ensures |r| == |fates|
  {
    if fates == [] then [] else if fates[0] == Queued then [fate] + fates[1..] else [fates[0]] + Mark(fates[1..], fate)
  }

  function Call(s: System, process: nat, r: CallResult): System {
    var t := s.(processes := s.processes[process := r.connection]);
    match r.message
    case None => t
    case Some(m) => t.(port := s.port + [m], sent := s.sent + FramesIn([m]))
  }

  /** The host takes the oldest message off the port. */
  function Process(s: System): System {
    if s.port == [] then s
    else
      var m, t := s.port[0], s.(port := s.port[1..], host := Dispatch(s.host, s.port[0]));
      match m
      case Hello(token, _, _) =>
        t.(standings := s.standings[token := if Registered(t.host, token) then Accepted else Refused])
      case Goodbye(token) => t.(standings := s.standings[token := Absent])
      case Submit(f) =>
        if !Registered(s.host, f.token) then t.(fates := s.fates + [Rejected(StandingOf(s, f.token))])
        else if |s.host.queue| >= MAX_QUEUE then t.(fates := Mark(s.fates, Evicted) + [Queued])
        else t.(fates := s.fates + [Queued])
  }

  function TakeOut(s: System): System {
    if s.host.queue == [] then s
    else s.(host := AfterPop(s.host), fates := Mark(s.fates, Popped), popped := s.popped + [s.host.queue[0]])
  }

  function Step(s: System, a: Action): System {
    match a
    case Connect(p, token, pid, reply, works) => Call(s, p, ConnectCall(ConnectionOf(s, p), token, pid, reply, works))
    case SendSurface(p, token, surface, index, works) =>
      Call(s, p, SendCall(ConnectionOf(s, p), token, surface, index, works))
    case Disconnect(p, token, works) => Call(s, p, DisconnectCall(ConnectionOf(s, p), token, works))
    case RunOnce => Process(s)
    case PopFrame => TakeOut(s)
  }

  /** Tokens are distinct: nobody connects under a token another process is connected under. */
  predicate Distinct(s: System, a: Action) {
    a.Connect? ==>
      forall q <- s.processes :: q != a.process && s.processes[q].connected ==> s.processes[q].token != a.token
  }

  predicate DistinctRun(s: System, actions: seq<Action>)
    decreases |actions|
  {
    actions == [] || (Distinct(s, actions[0]) && DistinctRun(Step(s, actions[0]), actions[1..]))
  }

  function Run(s: System, actions: seq<Action>): System
    decreases |actions|
  {
    if actions == [] then s else Run(Step(s, actions[0]), actions[1..])
  }

  // ----- frames by fate -----

  /** The frames with the given fate, in the order sent. */
  function Chosen(sent: seq<Frame>, fates: seq<Fate>, want: Fate): seq<Frame>
    requires |fates| <= |sent|
  {
    if fates == [] then []
    else (if fates[0] == want then [sent[0]] else []) + Chosen(sent[1..], fates[1..], want)
  }

  predicate Pending(f: Fate) { f.Queued? || f.Rejected? }

  /** Whatever left the ring left it before everything still in it. */
  predicate Ordered(fates: seq<Fate>) {
    fates == [] || ((fates[0] == Queued ==> forall f <- fates[1..] :: Pending(f)) && Ordered(fates[1..]))
  }

  function AcceptedCount(fates: seq<Fate>): nat {
    if fates == [] then 0 else (if fates[0].Rejected? then 0 else 1) + AcceptedCount(fates[1..])
  }

  /** Behind every evicted frame the host accepted a full ring of later frames. */
  predicate Pressed(fates: seq<Fate>) {
    fates == [] || ((fates[0] == Evicted ==> AcceptedCount(fates[1..]) >= MAX_QUEUE) && Pressed(fates[1..]))
  }

  lemma {:induction false} ChosenLonger(sent: seq<Frame>, more: seq<Frame>, fates: seq<Fate>, want: Fate)
    requires |fates| <= |sent|
    ensures Chosen(sent + more, fates, want) == Chosen(sent, fates, want)
  {
    if fates != [] {
      assert (sent + more)[1..] == sent[1..] + more;
      ChosenLonger(sent[1..], more, fates[1..], want);
    }
  }

  lemma {:induction false} ChosenNext(sent: seq<Frame>, fates: seq<Fate>, next: Fate, want: Fate)
    requires |fates| < |sent|
    ensures Chosen(sent, fates + [next], want)
         == Chosen(sent, fates, want) + if next == want then [sent[|fates|]] else []
  {
    if fates == [] {
      assert (fates + [next])[1..] == [];
    } else {
      assert (fates + [next])[1..] == fates[1..] + [next];
      ChosenNext(sent[1..], fates[1..], next, want);
      var head := if fates[0] == want then [sent[0]] else [];
      var last := if next == want then [sent[|fates|]] else [];
      assert head + (Chosen(sent[1..], fates[1..], want) + last) == head + Chosen(sent[1..], fates[1..], want) + last;
    }
  }

  lemma {:induction false} NothingChosen(sent: seq<Frame>, fates: seq<Fate>, want: Fate)
    requires |fates| <= |sent| && want !in fates
    ensures Chosen(sent, fates, want) == []
  {
    if fates != [] {
      NothingChosen(sent[1..], fates[1..], want);
    }
  }

  /** Marking takes the oldest frame off the queued ones and, when it is popped, appends it to the popped ones. */
  lemma {:induction false} Marked(sent: seq<Frame>, fates: seq<Fate>, fate: Fate)
    requires |fates| <= |sent| && Ordered(fates) && fate in {Popped, Evicted} && Chosen(sent, fates, Queued) != []
    ensures Chosen(sent, Mark(fates, fate), Queued) == Chosen(sent, fates, Queued)[1..]
    ensures Chosen(sent, Mark(fates, fate), Popped) ==
      Chosen(sent, fates, Popped) + if fate == Popped then [Chosen(sent, fates, Queued)[0]] else []
    ensures Ordered(Mark(fates, fate)) && AcceptedCount(Mark(fates, fate)) == AcceptedCount(fates)
  {
    if fates[0] == Queued {
      assert Popped !in fates[1..];
      NothingChosen(sent[1..], fates[1..], Popped);
      assert Mark(fates, fate)[1..] == fates[1..];
    } else {
      Marked(sent[1..], fates[1..], fate);
      assert Mark(fates, fate)[1..] == Mark(fates[1..], fate);
    }
  }

  lemma {:induction false} OrderedNext(fates: seq<Fate>, next: Fate)
    requires Ordered(fates) && Pending(next)
    ensures Ordered(fates + [next]) &&
      AcceptedCount(fates + [next]) == AcceptedCount(fates) + if next.Rejected? then 0 else 1
    ensures Pressed(fates) ==> Pressed(fates + [next])
  {
    if fates == [] {
      assert (fates + [next])[1..] == [];
    } else {
      assert (fates + [next])[1..] == fates[1..] + [next];
      OrderedNext(fates[1..], next);
    }
  }

  lemma {:induction false} QueuedAccepted(sent: seq<Frame>, fates: seq<Fate>)
    requires |fates| <= |sent|
    ensures |Chosen(sent, fates, Queued)| <= AcceptedCount(fates)
  {
    if fates != [] {
      QueuedAccepted(sent[1..], fates[1..]);
    }
  }

  lemma {:induction false} PoppedPressed(sent: seq<Frame>, fates: seq<Fate>)
    requires |fates| <= |sent| && Ordered(fates) && Pressed(fates) && Chosen(sent, fates, Queued) != []
    ensures Pressed(Mark(fates, Popped))
  {
    if fates[0] == Queued {
      assert Mark(fates, Popped)[1..] == fates[1..];
    } else {
      PoppedPressed(sent[1..], fates[1..]);
      Marked(sent[1..], fates[1..], Popped);
      assert Mark(fates, Popped)[1..] == Mark(fates[1..], Popped);
    }
  }

  /** Evicting the oldest of a full ring for a new frame. */
  lemma {:induction false} EvictedPressed(sent: seq<Frame>, fates: seq<Fate>)
    requires |fates| <= |sent| && Ordered(fates) && Pressed(fates) && |Chosen(sent, fates, Queued)| >= MAX_QUEUE
    ensures Pressed(Mark(fates, Evicted) + [Queued])
  {
    var after := Mark(fates, Evicted) + [Queued];
    if fates[0] == Queued {
      QueuedAccepted(sent[1..], fates[1..]);
      OrderedNext(fates[1..], Queued);
      assert after[1..] == fates[1..] + [Queued];
    } else {
      EvictedPressed(sent[1..], fates[1..]);
      Marked(sent[1..], fates[1..], Evicted);
      OrderedNext(fates[1..], Queued);
      OrderedNext(Mark(fates[1..], Evicted), Queued);
      assert after[1..] == Mark(fates[1..], Evicted) + [Queued];
    }
  }

  // ----- accounting, kept by every step -----

  ghost predicate Accounts(s: System) {
    && Sound(s.host) && |s.fates| <= |s.sent|
    && FramesIn(s.port) == s.sent[|s.fates|..]
    && s.host.queue == Chosen(s.sent, s.fates, Queued)
    && s.popped == Chosen(s.sent, s.fates, Popped)
    && Ordered(s.fates) && Pressed(s.fates)
  }

  lemma FramesInHead(messages: seq<Message>)
    requires messages != []
    ensures FramesIn(messages) == FrameOf(messages[0]) + FramesIn(messages[1..])
  {
  }

  lemma {:induction false} FramesInAppend(messages: seq<Message>, more: seq<Message>)
    ensures FramesIn(messages + more) == FramesIn(messages) + FramesIn(more)
  {
    hide FrameOf;
    if messages == [] {
      assert messages + more == more && FramesIn(messages) == [];
    } else {
      hide FramesIn;
      assert (messages + more)[1..] == messages[1..] + more;
      FramesInAppend(messages[1..], more);
      FramesInHead(messages);
      FramesInHead(messages + more);
      var head := FrameOf(messages[0]);
      assert head + (FramesIn(messages[1..]) + FramesIn(more)) == head + FramesIn(messages[1..]) + FramesIn(more);
    }
  }

  lemma CallKeepsAccounts(s: System, process: nat, r: CallResult)
    requires Accounts(s)
    ensures Accounts(Call(s, process, r))
  {
    hide Ordered, Pressed, Sound;
    match r.message
    case None =>
    case Some(m) =>
      FramesInAppend(s.port, [m]);
      ChosenLonger(s.sent, FramesIn([m]), s.fates, Queued);
      ChosenLonger(s.sent, FramesIn([m]), s.fates, Popped);
  }

  lemma ProcessKeepsAccounts(s: System)
    requires Accounts(s)
    ensures Accounts(Process(s))
  {
    hide Ordered, Pressed, Sound, Mark, Chosen;
    if s.port != [] {
      var m := s.port[0];
      StepKeepsSound(s.host, Received(m));
      if m.Submit? {
        ProcessFrameKeeps(s, m.frame);
      }
    }
  }

  lemma ProcessFrameKeeps(s: System, f: Frame)
    requires Accounts(s) && s.port != [] && s.port[0] == Submit(f) && Sound(Process(s).host)
    ensures Accounts(Process(s))
  {
    hide Ordered, Pressed, Sound, Chosen, Mark;
    if CompositorHost.Registered(s.host, f.token) && |s.host.queue| >= MAX_QUEUE {
      FullRing(s, f);
    } else {
      var fate := Process(s).fates[|s.fates|];
      OrderedNext(s.fates, fate);
      ChosenNext(s.sent, s.fates, fate, Queued);
      ChosenNext(s.sent, s.fates, fate, Popped);
    }
  }

  lemma FullRing(s: System, f: Frame)
    requires Accounts(s) && s.port != [] && s.port[0] == Submit(f) && |s.host.queue| >= MAX_QUEUE
    ensures |s.fates| < |s.sent| && s.sent[|s.fates|] == f
    ensures var fates := Mark(s.fates, Evicted) + [Queued];
      && Ordered(fates) && Pressed(fates)
      && Chosen(s.sent, fates, Queued) == s.host.queue[1..] + [f]
      && Chosen(s.sent, fates, Popped) == s.popped
  {
    hide Ordered, Pressed, Sound, Chosen, Mark;
    var marked := Mark(s.fates, Evicted);
    Marked(s.sent, s.fates, Evicted);
    EvictedPressed(s.sent, s.fates);
    OrderedNext(marked, Queued);
    ChosenNext(s.sent, marked, Queued, Queued);
    ChosenNext(s.sent, marked, Queued, Popped);
  }

  lemma TakeOutKeepsAccounts(s: System)
    requires Accounts(s)
    ensures Accounts(TakeOut(s))
  {
    hide Ordered, Pressed, Chosen, Mark;
    if s.host.queue != [] {
      Marked(s.sent, s.fates, Popped);
      PoppedPressed(s.sent, s.fates);
    }
  }

  // ----- the order of each client's messages -----

  /** Whether a hello of the token is not yet followed by a goodbye, once the messages are processed. */
  function OpenAfter(messages: seq<Message>, token: nat, open: bool): bool {
    if messages == [] then open
    else OpenAfter(messages[1..], token, OpenNext(messages[0], token, open))
  }

  function OpenNext(m: Message, token: nat, open: bool): bool {
    match m
    case Hello(t, _, _) => t == token || open
    case Goodbye(t) => t != token && open
    case Submit(_) => open
  }

  /** Every frame of the token follows a hello of it with no goodbye in between. */
  predicate InOrder(messages: seq<Message>, token: nat, open: bool) {
    messages == [] || ((messages[0].Submit? && messages[0].frame.token == token ==> open)
                       && InOrder(messages[1..], token, OpenNext(messages[0], token, open)))
  }

  lemma {:induction false} InOrderAppend(messages: seq<Message>, m: Message, token: nat, open: bool)
    ensures OpenAfter(messages + [m], token, open) == OpenNext(m, token, OpenAfter(messages, token, open))
    ensures InOrder(messages + [m], token, open) <==>
      InOrder(messages, token, open) && (m.Submit? && m.frame.token == token ==> OpenAfter(messages, token, open))
  {
    if messages == [] {
      assert (messages + [m])[1..] == [];
    } else {
      assert (messages + [m])[1..] == messages[1..] + [m];
      InOrderAppend(messages[1..], m, token, OpenNext(messages[0], token, open));
    }
  }

  predicate IsOpen(s: System, token: nat) { StandingOf(s, token) != Absent }

  ghost predicate Talk(s: System) {
    && Sound(s.host)
    && (forall t :: CompositorHost.Registered(s.host, t) <==> StandingOf(s, t) == Accepted)
    && (forall t :: InOrder(s.port, t, IsOpen(s, t)))
    && (forall p <- s.processes | s.processes[p].connected ::
          OpenAfter(s.port, s.processes[p].token, IsOpen(s, s.processes[p].token)))
    && (forall p, q | p in s.processes && q in s.processes && p != q
                      && s.processes[p].connected && s.processes[q].connected ::
          s.processes[p].token != s.processes[q].token)
    && (forall f <- s.fates :: f.Rejected? ==> f.standing == Refused)
  }

  lemma CallKeepsTalk(s: System, process: nat, r: CallResult)
    requires Talk(s)
    requires r.connection.connected ==>
      forall q <- s.processes :: q != process && s.processes[q].connected ==> s.processes[q].token != r.connection.token
    requires CallShape(ConnectionOf(s, process), r)
    ensures Talk(Call(s, process, r))
  {
    hide InOrder, OpenAfter, Sound;
    var t := Call(s, process, r);
    assert forall token :: IsOpen(t, token) == IsOpen(s, token) && StandingOf(t, token) == StandingOf(s, token);
    assert r.connection == ConnectionOf(s, process) && r.connection.connected ==> process in s.processes;
    match r.message
    case None =>
    case Some(m) =>
      forall token ensures InOrder(t.port, token, IsOpen(t, token)) {
        InOrderAppend(s.port, m, token, IsOpen(s, token));
      }
      forall p <- t.processes | t.processes[p].connected
        ensures OpenAfter(t.port, t.processes[p].token, IsOpen(t, t.processes[p].token))
      {
        InOrderAppend(s.port, m, t.processes[p].token, IsOpen(s, t.processes[p].token));
      }
  }

  /** A connection speaks under its own token: hello makes it connected, frames and goodbye need it so. */
  predicate CallShape(c: Connection, r: CallResult) {
    match r.message
    case None => r.connection == c || !r.connection.connected
    case Some(Hello(t, _, _)) => r.connection == Connection(true, t)
    case Some(Goodbye(t)) => c == Connection(true, t) && !r.connection.connected
    case Some(Submit(f)) => c == Connection(true, f.token) && r.connection == c
  }

  lemma ProcessKeepsTalk(s: System)
    requires Talk(s)
    ensures Talk(Process(s))
  {
    hide Sound, Dispatch, Mark;
    if s.port != [] {
      var m, t := s.port[0], Process(s);
      StepKeepsSound(s.host, Received(m));
      forall token ensures CompositorHost.Registered(t.host, token) <==> StandingOf(t, token) == Accepted {
        RegistrationAfter(s.host, m, token);
      }
      forall token ensures IsOpen(t, token) == OpenNext(m, token, IsOpen(s, token)) {
        RegistrationAfter(s.host, m, token);
      }
      if m.Submit? {
        assert InOrder(s.port, m.frame.token, IsOpen(s, m.frame.token));
        MarkKeepsRejected(s.fates, Evicted);
      }
    }
  }

  lemma {:induction false} MarkKeepsRejected(fates: seq<Fate>, fate: Fate)
    requires !fate.Rejected?
    ensures forall f <- Mark(fates, fate) :: f.Rejected? ==> f in fates
  {
    if fates != [] && fates[0] != Queued {
      MarkKeepsRejected(fates[1..], fate);
    }
  }

  lemma TakeOutKeepsTalk(s: System)
    requires Talk(s)
    ensures Talk(TakeOut(s))
  {
    hide InOrder, OpenAfter;
    MarkKeepsRejected(s.fates, Popped);
    var t := TakeOut(s);
    assert forall token :: IsOpen(t, token) == IsOpen(s, token) && StandingOf(t, token) == StandingOf(s, token);
  }

  // ----- over whole runs -----

  lemma StepKeeps(s: System, a: Action)
    requires Accounts(s) && Talk(s) && Distinct(s, a)
    ensures Accounts(Step(s, a)) && Talk(Step(s, a))
  {
    hide Accounts, Talk, Process, TakeOut, Call;
    match a
    case Connect(p, token, pid, reply, works) =>
      CallOf(s, p, ConnectCall(ConnectionOf(s, p), token, pid, reply, works));
    case SendSurface(p, token, surface, index, works) =>
      CallOf(s, p, SendCall(ConnectionOf(s, p), token, surface, index, works));
    case Disconnect(p, token, works) =>
      CallOf(s, p, DisconnectCall(ConnectionOf(s, p), token, works));
    case RunOnce =>
      ProcessKeepsAccounts(s);
      ProcessKeepsTalk(s);
    case PopFrame =>
      TakeOutKeepsAccounts(s);
      TakeOutKeepsTalk(s);
  }

  lemma CallOf(s: System, p: nat, r: CallResult)
    requires Accounts(s) && Talk(s) && CallShape(ConnectionOf(s, p), r)
    requires r.connection == ConnectionOf(s, p) || !r.connection.connected
             || forall q <- s.processes ::
                  q != p && s.processes[q].connected ==> s.processes[q].token != r.connection.token
    ensures Accounts(Call(s, p, r)) && Talk(Call(s, p, r))
  {
    hide Accounts, Call, InOrder, OpenAfter;
    CallKeepsAccounts(s, p, r);
    CallKeepsTalk(s, p, r);
  }

  lemma {:induction false} RunKeeps(s: System, actions: seq<Action>)
    requires Accounts(s) && Talk(s) && DistinctRun(s, actions)
    ensures Accounts(Run(s, actions)) && Talk(Run(s, actions))
    decreases |actions|
  {
    hide Accounts, Talk, Step, Distinct;
    if actions != [] {
      StepKeeps(s, actions[0]);
      RunKeeps(Step(s, actions[0]), actions[1..]);
    }
  }

  // ----- per token -----

  function ForToken(frames: seq<Frame>, token: nat): seq<Frame> {
    if frames == [] then []
    else (if frames[0].token == token then [frames[0]] else []) + ForToken(frames[1..], token)
  }

  /** The fates of the token's processed frames. */
  function FatesFor(frames: seq<Frame>, fates: seq<Fate>, token: nat): (r: seq<Fate>)
    requires |fates| <= |frames|
    ensures |r| <= |ForToken(frames, token)|
  {
    if fates == [] then []
    else (if frames[0].token == token then [fates[0]] else []) + FatesFor(frames[1..], fates[1..], token)
  }

  lemma ForTokenHead(head: seq<Frame>, rest: seq<Frame>, token: nat)
    requires |head| <= 1
    ensures ForToken(head + rest, token) == ForToken(head, token) + ForToken(rest, token)
  {
    if head == [] {
      assert head + rest == rest;
    } else {
      assert (head + rest)[1..] == rest && head[1..] == [];
    }
  }

  lemma ChosenHead(frame: seq<Frame>, frames: seq<Frame>, fate: seq<Fate>, fates: seq<Fate>, want: Fate)
    requires |frame| == |fate| <= 1 && |fates| <= |frames|
    ensures Chosen(frame + frames, fate + fates, want) == Chosen(frame, fate, want) + Chosen(frames, fates, want)
  {
    if frame == [] {
      assert frame + frames == frames && fate + fates == fates;
    } else {
      assert (frame + frames)[1..] == frames && (fate + fates)[1..] == fates && frame[1..] == [] && fate[1..] == [];
    }
  }

  lemma {:induction false} TokenChosen(sent: seq<Frame>, fates: seq<Fate>, token: nat, want: Fate)
    requires |fates| <= |sent|
    ensures ForToken(Chosen(sent, fates, want), token)
         == Chosen(ForToken(sent, token), FatesFor(sent, fates, token), want)
  {
    if fates != [] {
      TokenChosen(sent[1..], fates[1..], token, want);
      var mine := sent[0].token == token;
      var head := if fates[0] == want then [sent[0]] else [];
      var frame, fate := if mine then [sent[0]] else [], if mine then [fates[0]] else [];
      ForTokenHead(head, Chosen(sent[1..], fates[1..], want), token);
      ChosenHead(frame, ForToken(sent[1..], token), fate, FatesFor(sent[1..], fates[1..], token), want);
      assert ForToken(head, token) == Chosen(frame, fate, want) by {
        SingleFate(sent[0], fates[0], token, want);
      }
    }
  }

  lemma SingleFate(f: Frame, fate: Fate, token: nat, want: Fate)
    ensures ForToken([], token) == [] && Chosen([], [], want) == []
    ensures ForToken([f], token) == if f.token == token then [f] else []
    ensures Chosen([f], [fate], want) == if fate == want then [f] else []
  {
    assert [f][1..] == [] && [fate][1..] == [];
  }

  predicate Subsequence(a: seq<Frame>, b: seq<Frame>)
    decreases |b|
  {
    a == [] || (b != [] && (Subsequence(a, b[1..]) || (a[0] == b[0] && Subsequence(a[1..], b[1..]))))
  }

  lemma {:induction false} ChosenSubsequence(sent: seq<Frame>, fates: seq<Fate>, want: Fate)
    requires |fates| <= |sent|
    ensures Subsequence(Chosen(sent, fates, want), sent)
  {
    if fates != [] {
      ChosenSubsequence(sent[1..], fates[1..], want);
      var rest := Chosen(sent[1..], fates[1..], want);
      assert ([sent[0]] + rest)[1..] == rest && [] + rest == rest;
    }
  }

  /** End to end: the frames popped for a token are, in order, those it sent whose fate is popped. Every
      frame sent is on the port or has a fate; the queued ones are what the ring holds; behind an evicted
      one stand 256 later frames that the host accepted; a rejected one was processed after the token's
      last hello had found the table full. */
  lemma EndToEnd(actions: seq<Action>, token: nat)
    requires DistinctRun(INITIAL, actions)
    ensures var s := Run(INITIAL, actions);
      && |s.fates| <= |s.sent| && FramesIn(s.port) == s.sent[|s.fates|..]
      && ForToken(s.popped, token) == Chosen(ForToken(s.sent, token), FatesFor(s.sent, s.fates, token), Popped)
      && Subsequence(ForToken(s.popped, token), ForToken(s.sent, token))
      && s.host.queue == Chosen(s.sent, s.fates, Queued)
      && Pressed(s.fates)
      && forall f <- s.fates :: f.Rejected? ==> f.standing == Refused
  {
    hide Chosen, Subsequence, ForToken, FatesFor, Run;
    StartsRight();
    RunKeeps(INITIAL, actions);
    var s := Run(INITIAL, actions);
    TokenChosen(s.sent, s.fates, token, Popped);
    ChosenSubsequence(ForToken(s.sent, token), FatesFor(s.sent, s.fates, token), Popped);
  }

  lemma StartsRight()
    ensures Accounts(INITIAL) && Talk(INITIAL)
  {
    forall t ensures !CompositorHost.Registered(INITIAL.host, t) {
      FindAt(INITIAL.host.clients, t);
    }
  }

  // ----- who the table knows once everything is processed -----

  /** A frame goes on the port exactly from a process connected under its token, with a surface, when the
      send works. */
  lemma FrameSent(s: System, p: nat, token: nat, surface: Port, index: nat, works: bool)
    ensures var t, f := Step(s, SendSurface(p, token, surface, index, works)), Frame(token, surface, 0, 0, index);
      if works && surface != 0 && ConnectionOf(s, p) == Connection(true, token)
      then t.sent == s.sent + [f] && t.port == s.port + [Submit(f)]
      else t.sent == s.sent && t.port == s.port
  {
    assert FramesIn([]) == [];
    var f := Frame(token, surface, 0, 0, index);
    assert [Submit(f)][1..] == [] && [f] + [] == [f];
  }

  /** A process that is not connected connects exactly when everything works, and then its hello is out. */
  lemma HelloSent(s: System, p: nat, token: nat, pid: int, reply: Port, works: bool)
    ensures var t := Step(s, Connect(p, token, pid, reply, works));
      if works && !ConnectionOf(s, p).connected
      then ConnectionOf(t, p) == Connection(true, token) && t.port == s.port + [Hello(token, pid, reply)]
      else ConnectionOf(t, p) == ConnectionOf(s, p) && t.port == s.port
  {
  }

  /** A process disconnects from its own token only, always, and its goodbye is out when the send works. */
  lemma GoodbyeSent(s: System, p: nat, token: nat, works: bool)
    ensures var t := Step(s, Disconnect(p, token, works));
      if ConnectionOf(s, p) == Connection(true, token)
      then !ConnectionOf(t, p).connected && t.port == if works then s.port + [Goodbye(token)] else s.port
      else ConnectionOf(t, p) == ConnectionOf(s, p) && t.port == s.port
  {
  }

  ghost predicate SomeoneOn(s: System, token: nat) {
    exists p <- s.processes :: s.processes[p] == Connection(true, token)
  }

  /** No token stays open without a process connected under it. */
  ghost predicate Answered(s: System) {
    forall t :: OpenAfter(s.port, t, IsOpen(s, t)) ==> SomeoneOn(s, t)
  }

  predicate GoodbyesSent(actions: seq<Action>) {
    forall a <- actions :: a.Disconnect? ==> a.works
  }

  lemma CallKeepsAnswered(s: System, p: nat, r: CallResult)
    requires Answered(s) && CallShape(ConnectionOf(s, p), r)
    requires ConnectionOf(s, p).connected && !r.connection.connected ==>
      r.message == Some(Goodbye(ConnectionOf(s, p).token))
    requires ConnectionOf(s, p).connected && r.connection.connected ==> r.connection == ConnectionOf(s, p)
    ensures Answered(Call(s, p, r))
  {
    hide OpenAfter;
    var t := Call(s, p, r);
    forall token | OpenAfter(t.port, token, IsOpen(t, token)) ensures SomeoneOn(t, token) {
      assert IsOpen(t, token) == IsOpen(s, token);
      if r.message.Some? {
        InOrderAppend(s.port, r.message.value, token, IsOpen(s, token));
      }
      if r.connection == Connection(true, token) {
        assert t.processes[p] == Connection(true, token);
      } else {
        var q :| q in s.processes && s.processes[q] == Connection(true, token);
        assert q != p;
        assert t.processes[q] == s.processes[q];
      }
    }
  }

  lemma ProcessKeepsAnswered(s: System)
    requires Talk(s) && Answered(s)
    ensures Answered(Process(s))
  {
    hide Sound, Dispatch, Mark;
    if s.port != [] {
      var m, t := s.port[0], Process(s);
      forall token | OpenAfter(t.port, token, IsOpen(t, token)) ensures SomeoneOn(t, token) {
        RegistrationAfter(s.host, m, token);
        assert IsOpen(t, token) == OpenNext(m, token, IsOpen(s, token));
        assert OpenAfter(s.port, token, IsOpen(s, token));
        assert SomeoneOn(s, token);
      }
    }
  }

  lemma StepKeepsAnswered(s: System, a: Action)
    requires Talk(s) && Answered(s) && (a.Disconnect? ==> a.works)
    ensures Answered(Step(s, a))
  {
    hide Talk, Answered, Process, Call;
    match a
    case Connect(p, token, pid, reply, works) =>
      CallKeepsAnswered(s, p, ConnectCall(ConnectionOf(s, p), token, pid, reply, works));
    case SendSurface(p, token, surface, index, works) =>
      CallKeepsAnswered(s, p, SendCall(ConnectionOf(s, p), token, surface, index, works));
    case Disconnect(p, token, works) =>
      CallKeepsAnswered(s, p, DisconnectCall(ConnectionOf(s, p), token, works));
    case RunOnce => ProcessKeepsAnswered(s);
    case PopFrame => TakeOutKeepsAnswered(s);
  }

  lemma TakeOutKeepsAnswered(s: System)
    requires Answered(s)
    ensures Answered(TakeOut(s))
  {
    hide OpenAfter;
    var t := TakeOut(s);
    forall token | OpenAfter(t.port, token, IsOpen(t, token)) ensures SomeoneOn(t, token) {
      assert IsOpen(t, token) == IsOpen(s, token);
      assert SomeoneOn(s, token);
    }
  }

  lemma {:induction false} RunKeepsAnswered(s: System, actions: seq<Action>)
    requires Accounts(s) && Talk(s) && Answered(s) && DistinctRun(s, actions) && GoodbyesSent(actions)
    ensures Answered(Run(s, actions)) && Talk(Run(s, actions))
    decreases |actions|
  {
    hide Accounts, Talk, Answered, Step, Distinct;
    if actions != [] {
      StepKeeps(s, actions[0]);
      StepKeepsAnswered(s, actions[0]);
      RunKeepsAnswered(Step(s, actions[0]), actions[1..]);
    }
  }

  /** When every disconnect could send its goodbye and the port is empty, the host's table holds only
      tokens of connected processes, and all of them but those whose hello found it full. */
  lemma QuietTable(actions: seq<Action>, token: nat)
    requires DistinctRun(INITIAL, actions) && GoodbyesSent(actions) && Run(INITIAL, actions).port == []
    ensures var s := Run(INITIAL, actions);
      && (CompositorHost.Registered(s.host, token) ==> SomeoneOn(s, token))
      && (SomeoneOn(s, token) ==> CompositorHost.Registered(s.host, token) || StandingOf(s, token) == Refused)
  {
    hide Run;
    StartsRight();
    assert Answered(INITIAL);
    RunKeepsAnswered(INITIAL, actions);
    var s := Run(INITIAL, actions);
    if SomeoneOn(s, token) {
      var p :| p in s.processes && s.processes[p] == Connection(true, token);
    }
  }
}
