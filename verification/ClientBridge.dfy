/** The client side of native/client_bridge.c: one connection per process. */
module ClientBridge {
  import opened Wrappers
  import opened CompositorHost

  datatype Connection = Connection(connected: bool, token: nat)

  const UNCONNECTED := Connection(false, 0)

  /** What a call leaves, the message it put on the host's port, and whether it returned 0. */
  datatype CallResult = CallResult(connection: Connection, message: Option<Message>, ok: bool)

  function Refuse(c: Connection): CallResult { CallResult(c, None, false) }

  /** `works` says whether every kernel call of the connection set-up, the send included, succeeds. */
  function ConnectCall(c: Connection, token: nat, pid: int, reply: Port, works: bool): CallResult {
    if c.connected || !works then Refuse(c)
    else CallResult(Connection(true, token), Some(Hello(token, pid, reply)), true)
  }

  /** A frame goes out under the connection's own token only; its size fields are zero. */
  function SendCall(c: Connection, token: nat, surface: Port, index: nat, works: bool): CallResult {
    if !c.connected || c.token != token || surface == 0 || !works then Refuse(c)
    else CallResult(c, Some(Submit(Frame(token, surface, 0, 0, index))), true)
  }

  /** The connection is closed whether or not the goodbye could be sent. */
  function DisconnectCall(c: Connection, token: nat, works: bool): CallResult {
    if !c.connected || c.token != token then Refuse(c)
    else CallResult(Connection(false, token), if works then Some(Goodbye(token)) else None, true)
  }

  class ClientConnection {
    var connected: bool
    var token: nat

    function State(): Connection
      reads this
    {
      Connection(connected, token)
    }

    constructor ()
      ensures State() == UNCONNECTED
    {
      connected, token := false, 0;
    }

    method Connect(wanted: nat, pid: int, reply: Port, lookup: bool, rights: bool, send: bool)
        returns (ok: bool, message: Option<Message>)
      modifies this
      ensures CallResult(State(), message, ok)
           == ConnectCall(old(State()), wanted, pid, reply, lookup && rights && send)
    {
      if connected { return false, None; }
      if !lookup { return false, None; }
      if !rights { return false, None; }
      if !send { return false, None; }
      token := wanted;
      connected := true;
      return true, Some(Hello(wanted, pid, reply));
    }

    method SendSurface(wanted: nat, surface: Port, index: nat, send: bool) returns (ok: bool, message: Option<Message>)
      ensures CallResult(State(), message, ok) == SendCall(State(), wanted, surface, index, send)
    {
      if !connected || token != wanted { return false, None; }
      if surface == 0 { return false, None; }
      if !send { return false, None; }
      return true, Some(Submit(Frame(wanted, surface, 0, 0, index)));
    }

    method Disconnect(wanted: nat, send: bool) returns (ok: bool, message: Option<Message>)
      modifies this
      ensures CallResult(State(), message, ok) == DisconnectCall(old(State()), wanted, send)
    {
      if !connected || token != wanted { return false, None; }
      message := if send then Some(Goodbye(wanted)) else None;
      connected := false;
      ok := true;
    }
  }
}
