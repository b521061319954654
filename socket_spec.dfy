/**
 * The pure state machine of `CTcpSocket`: one transition function per
 * public operation and per stack callback, over a value `Sock` that holds
 * the six pieces of socket state together with the stack-glue flags, a
 * `destroyed` flag standing for `delete this`, and the trace of calls the
 * socket made into the ESP SDK and into its listeners.
 *
 * The imperative class in module TcpSocket is proved to follow exactly
 * these transitions.
 */
module SocketSpec {
  import opened ListenerOrder

  newtype byte = x: int | 0 <= x < 256
  newtype uint32 = x: int | 0 <= x < 0x1_0000_0000

  /** The address of the SDK's `struct espconn`. */
  type HandleId = nat

  datatype Option<T> = None | Some(value: T)

  /** A call the socket makes into the SDK, its server or one of its listeners. */
  datatype Event =
    | Sent(data: seq<byte>)                       // espconn_sent
    | Disconnect                                  // espconn_disconnect
    | SetTimeout(timeout: uint32)                 // espconn_regist_time(.., .., 1)
    | FixParams                                   // CTcpServer::fixConnectionParams
    | NotifyRecv(id: ListenerId, data: seq<byte>) // onSocketRecv
    | NotifySent(id: ListenerId)                  // onSocketSent
    | NotifyDisconnected(id: ListenerId)          // onSocketDisconnected

  /** Which listener callback a fan-out delivers. */
  datatype Note = OnRecv(data: seq<byte>) | OnSent | OnDisconnected

  function Notification(n: Note, id: ListenerId): (e: Event)
    ensures e.NotifyRecv? || e.NotifySent? || e.NotifyDisconnected?
    ensures e.id == id
  {
    match n
    case OnRecv(data) => NotifyRecv(id, data)
    case OnSent => NotifySent(id)
    case OnDisconnected => NotifyDisconnected(id)
  }

  /** One notification per listener of `ids`, in that order. */
  function FanOut(ids: seq<ListenerId>, n: Note): (r: seq<Event>)
    ensures |r| == |ids|
  {
    if ids == [] then [] else [Notification(n, ids[0])] + FanOut(ids[1..], n)
  }

  /** The `k`-th notification of a fan-out goes to the `k`-th listener. */
  lemma {:induction false} FanOutAt(ids: seq<ListenerId>, n: Note, k: nat)
    requires k < |ids|
    ensures FanOut(ids, n)[k] == Notification(n, ids[k])
    decreases |ids|
  {
    if k > 0 {
      FanOutAt(ids[1..], n, k - 1);
    }
  }

  /** One step of a fan-out over a listener set: its smallest listener is told first. */
  lemma FanOutStep(rest: set<ListenerId>, l: ListenerId, n: Note)
    requires IsMin(l, rest)
    ensures FanOut(Ascending(rest), n) == [Notification(n, l)] + FanOut(Ascending(rest - {l}), n)
  {
    AscendingStep(rest, l);
    var ids := Ascending(rest);
    assert ids[0] == l && ids[1..] == Ascending(rest - {l});
  }

  /** A fan-out loop that has delivered `t` so far stays on course after telling `l`. */
  lemma FanOutLoopStep(t: seq<Event>, rest: set<ListenerId>, l: ListenerId, n: Note, whole: seq<Event>)
    requires IsMin(l, rest)
    requires t + FanOut(Ascending(rest), n) == whole
    ensures (t + [Notification(n, l)]) + FanOut(Ascending(rest - {l}), n) == whole
  {
    FanOutStep(rest, l, n);
    var tail := FanOut(Ascending(rest - {l}), n);
    assert t + ([Notification(n, l)] + tail) == (t + [Notification(n, l)]) + tail;
  }

  /**
   * The socket's state. `open` is `m_conn != NULL` and `handle` the
   * `espconn` it was created with; `hasServer` is `m_pServer != NULL`;
   * `tracked` says that the handle's `reverse` points back to the socket.
   */
  datatype Sock = Sock(
    open: bool,
    handle: HandleId,
    hasServer: bool,
    tracked: bool,
    nRef: int,
    listeners: set<ListenerId>,
    sending: bool,
    disconnecting: bool,
    backlog: seq<seq<byte>>,
    destroyed: bool,
    trace: seq<Event>)

  /**
   * The invariant of every reachable state: a buffer waits in the backlog
   * only while a send is in flight, the object is never destroyed while the
   * handle is open, and an open handle always leads back to the socket.
   */
  ghost predicate Inv(s: Sock)
  {
    && (|s.backlog| > 0 ==> s.sending)
    && (s.destroyed ==> !s.open && s.nRef == 0)
    && (s.open ==> s.tracked)
  }

  /** Every reference that is not a listener's belongs to the owner. */
  predicate Counted(s: Sock)
  {
    s.nRef >= |s.listeners|
  }

  /**
   * The releases inside `disconnect_callback`'s loop never bring the count
   * to zero. That holds when every listener holds a reference, and also
   * when the count is already below zero (over-released): the temporary
   * reference then lifts it to zero at most, and each release takes it
   * further below. In the remaining case, 0 <= nRef < |listeners|, release
   * number nRef + 1 reaches zero and frees the object while the loop still
   * uses it.
   */
  predicate DisconnectSafe(s: Sock)
  {
    s.nRef < 0 || Counted(s)
  }

  /**
   * What holds between any state and its successor: the trace only grows,
   * a closed handle never reopens, a requested disconnect is never
   * withdrawn, and the stack glue does not change.
   */
  ghost predicate Follows(s: Sock, r: Sock)
  {
    && s.trace <= r.trace
    && (!s.open ==> !r.open)
    && (s.disconnecting ==> r.disconnecting)
    && r.handle == s.handle && r.hasServer == s.hasServer && r.tracked == s.tracked
  }

  /** The payloads handed to `espconn_sent`, in call order. */
  function SentData(t: seq<Event>): (r: seq<seq<byte>>)
    ensures |r| <= |t|
  {
    if t == [] then []
    else SentData(t[..|t| - 1]) + (if t[|t| - 1].Sent? then [t[|t| - 1].data] else [])
  }

  /**
   * Every buffer passed to `espconn_sent` (including one the stack refused
   * when `send` issued it), followed by the buffers still queued.
   */
  function Pending(s: Sock): seq<seq<byte>>
  {
    SentData(s.trace) + s.backlog
  }

  lemma {:induction false} SentDataAppend(a: seq<Event>, b: seq<Event>)
    ensures SentData(a + b) == SentData(a) + SentData(b)
    decreases |b|
  {
    if b == [] {
      assert a + b == a;
    } else {
      var b' := b[..|b| - 1];
      assert (a + b)[..|a + b| - 1] == a + b';
      SentDataAppend(a, b');
    }
  }

  /** A fan-out to listeners passes nothing to `espconn_sent`. */
  lemma {:induction false} SentDataFanOut(ids: seq<ListenerId>, n: Note)
    ensures SentData(FanOut(ids, n)) == []
    decreases |ids|
  {
    if ids != [] {
      var e := Notification(n, ids[0]);
      assert FanOut(ids, n) == [e] + FanOut(ids[1..], n);
      SentDataAppend([e], FanOut(ids[1..], n));
      assert SentData([e]) == SentData([]) + [];
      SentDataFanOut(ids[1..], n);
    }
  }

  // ---------------------------------------------------------------------
  // Construction
  // ---------------------------------------------------------------------

  /** `CTcpSocket(pServer, conn)`: one reference, nothing pending, callbacks registered iff `conn` is set. */
  function Init(hasServer: bool, conn: Option<HandleId>): (s: Sock)
    ensures Inv(s) && Counted(s)
    ensures s.nRef == 1 && s.listeners == {} && s.backlog == [] && s.trace == []
    ensures !s.sending && !s.disconnecting && !s.destroyed
    ensures s.open <==> conn.Some?
    ensures s.tracked <==> conn.Some?
    ensures s.hasServer == hasServer
  {
    Sock(
      open := conn.Some?,
      handle := if conn.Some? then conn.value else 0,
      hasServer := hasServer,
      tracked := conn.Some?,
      nRef := 1,
      listeners := {},
      sending := false,
      disconnecting := false,
      backlog := [],
      destroyed := false,
      trace := [])
  }

  // ---------------------------------------------------------------------
  // Reference counting and listeners
  // ---------------------------------------------------------------------

  function AddRef(s: Sock): (r: Sock)
    requires !s.destroyed
    ensures r.nRef == s.nRef + 1
    ensures r == s.(nRef := r.nRef)
    ensures Inv(s) ==> Inv(r)
    ensures Follows(s, r)
  {
    s.(nRef := s.nRef + 1)
  }

  /**
   * `release`: the count drops by one; reaching zero destroys the object
   * only when the handle is already closed, and otherwise asks the stack to
   * disconnect, leaving the object alive.
   */
  function Release(s: Sock): (r: Sock)
    requires !s.destroyed
    ensures r.nRef == s.nRef - 1
    ensures r.destroyed <==> (s.nRef == 1 && !s.open)
    ensures r.trace == s.trace + (if s.nRef == 1 && s.open then [Disconnect] else [])
    ensures r == s.(nRef := r.nRef, destroyed := r.destroyed, trace := r.trace)
    ensures Inv(s) ==> Inv(r)
    ensures Follows(s, r)
  {
    var s1 := s.(nRef := s.nRef - 1);
    if s1.nRef == 0 then
      if !s1.open then s1.(destroyed := true) else s1.(trace := s1.trace + [Disconnect])
    else s1
  }

  /** `addListener`: a new listener takes one reference; a known one changes nothing. */
  function AddListener(s: Sock, id: ListenerId): (r: Sock)
    requires !s.destroyed
    ensures r.listeners == s.listeners + {id}
    ensures r.nRef == s.nRef + (if id in s.listeners then 0 else 1)
    ensures r.nRef - |r.listeners| == s.nRef - |s.listeners|
    ensures r == s.(listeners := r.listeners, nRef := r.nRef)
    ensures Inv(s) ==> Inv(r)
    ensures Counted(s) ==> Counted(r)
    ensures Follows(s, r)
  {
    if id in s.listeners then s
    else AddRef(s.(listeners := s.listeners + {id}))
  }

  /** `removeListener`: a known listener gives back its reference; an unknown one changes nothing. */
  function RemoveListener(s: Sock, id: ListenerId): (r: Sock)
    requires !s.destroyed
    ensures r.listeners == s.listeners - {id}
    ensures r.nRef == s.nRef - (if id in s.listeners then 1 else 0)
    ensures r.nRef - |r.listeners| == s.nRef - |s.listeners|
    ensures id !in s.listeners ==> r == s
    ensures id in s.listeners ==> r == Release(s.(listeners := s.listeners - {id}))
    ensures r.destroyed <==> (id in s.listeners && s.nRef == 1 && !s.open)
    ensures Inv(s) ==> Inv(r)
    ensures Counted(s) ==> Counted(r)
    ensures Follows(s, r)
  {
    if id in s.listeners then Release(s.(listeners := s.listeners - {id}))
    else s
  }

  // ---------------------------------------------------------------------
  // Sending and disconnecting
  // ---------------------------------------------------------------------

  /**
   * `send`: refused on a closed or disconnecting socket; queued at the tail
   * of the backlog while a send is in flight; otherwise issued to the stack
   * at once, the socket counting as sending exactly when the stack took it.
   */
  function Send(s: Sock, data: seq<byte>, stackOk: bool): (r: (Sock, bool))
    requires !s.destroyed
    ensures !s.open || s.disconnecting ==> r == (s, false)
    ensures s.open && !s.disconnecting && s.sending ==>
      r == (s.(backlog := s.backlog + [data]), true)
    ensures s.open && !s.disconnecting && !s.sending ==>
      && r.0 == s.(sending := stackOk, trace := s.trace + [Sent(data)])
      && r.1 == stackOk
    ensures Inv(s) ==> Inv(r.0)
    ensures Follows(s, r.0)
  {
    if !s.open || s.disconnecting then (s, false)
    else if s.sending then (s.(backlog := s.backlog + [data]), true)
    else
      (s.(sending := stackOk, trace := s.trace + [Sent(data)]), stackOk)
  }

  /** `setTimeout`: configures this connection's idle timer, unless it is already closed. */
  function SetTimeoutOp(s: Sock, timeout: uint32): (r: Sock)
    requires !s.destroyed
    ensures !s.open ==> r == s
    ensures s.open ==> r == s.(trace := s.trace + [SetTimeout(timeout)])
    ensures Inv(s) ==> Inv(r)
    ensures Follows(s, r)
  {
    if !s.open then s else s.(trace := s.trace + [SetTimeout(timeout)])
  }

  /**
   * `disconnect(force)`: nothing on a closed socket. Forced: drop the
   * backlog, ask the stack to disconnect and mark the socket disconnecting,
   * whether or not a send is in flight. Graceful: the first request marks the
   * socket disconnecting and disconnects at once only when nothing is in
   * flight; later graceful requests do nothing.
   */
  function DisconnectOp(s: Sock, force: bool): (r: Sock)
    requires !s.destroyed
    ensures !s.open ==> r == s
    ensures s.open && force ==>
      r == s.(backlog := [], disconnecting := true, trace := s.trace + [Disconnect])
    ensures s.open && !force && !s.disconnecting ==>
      r == s.(disconnecting := true, trace := s.trace + (if s.sending then [] else [Disconnect]))
    ensures s.open && !force && s.disconnecting ==> r == s
    ensures s.open ==> r.disconnecting
    ensures Inv(s) ==> Inv(r)
    ensures Follows(s, r)
  {
    if !s.open then s
    else if force then s.(backlog := [], trace := s.trace + [Disconnect], disconnecting := true)
    else if !s.disconnecting then
      s.(disconnecting := true, trace := if !s.sending then s.trace + [Disconnect] else s.trace)
    else s
  }

  // ---------------------------------------------------------------------
  // Stack callbacks
  // ---------------------------------------------------------------------

  /** The handle a callback names differs from the one the socket holds. */
  predicate Mismatch(s: Sock, conn: HandleId)
  {
    !s.open || conn != s.handle
  }

  /** On a mismatched handle the server, if any, is asked to repair its registrations. */
  function Repair(s: Sock, conn: HandleId): (r: Sock)
    ensures r.trace == s.trace + (if Mismatch(s, conn) && s.hasServer then [FixParams] else [])
    ensures r == s.(trace := r.trace)
    ensures Inv(s) ==> Inv(r)
    ensures Follows(s, r)
  {
    if Mismatch(s, conn) && s.hasServer then s.(trace := s.trace + [FixParams]) else s
  }

  /** `connect_callback`: only the mismatch check. The source reads `conn->reverse` unchecked. */
  function ConnectCallback(s: Sock, conn: HandleId): (r: Sock)
    requires !s.destroyed && s.tracked
    ensures r == Repair(s, conn)
    ensures Inv(s) ==> Inv(r)
    ensures Follows(s, r)
  {
    Repair(s, conn)
  }

  /** `reconnect_callback`: nothing on an untracked handle, else the mismatch check. */
  function ReconnectCallback(s: Sock, conn: HandleId): (r: Sock)
    requires !s.destroyed
    ensures !s.tracked ==> r == s
    ensures s.tracked ==> r == Repair(s, conn)
    ensures Inv(s) ==> Inv(r)
    ensures Follows(s, r)
  {
    if !s.tracked then s else Repair(s, conn)
  }

  /** `recv_callback`: every listener sees the received bytes once, in set order. */
  function RecvCallback(s: Sock, data: seq<byte>): (r: Sock)
    requires !s.destroyed
    ensures !s.tracked ==> r == s
    ensures s.tracked ==> r == s.(trace := s.trace + FanOut(Ascending(s.listeners), OnRecv(data)))
    ensures Inv(s) ==> Inv(r)
    ensures Follows(s, r)
  {
    if !s.tracked then s
    else
      s.(trace := s.trace + FanOut(Ascending(s.listeners), OnRecv(data)))
  }

  /**
   * `sent_callback`: with a queued buffer, issue the oldest one and stay
   * sending. With none, stop sending; then a pending disconnect is issued
   * and listeners hear nothing, or else every listener is told the send completed.
   */
  function SentCallback(s: Sock): (r: Sock)
    requires !s.destroyed
    ensures !s.tracked ==> r == s
    ensures s.tracked && |s.backlog| > 0 ==>
      r == s.(backlog := s.backlog[1..], trace := s.trace + [Sent(s.backlog[0])])
    ensures s.tracked && s.backlog == [] && s.disconnecting ==>
      r == s.(sending := false, trace := s.trace + [Disconnect])
    ensures s.tracked && s.backlog == [] && !s.disconnecting ==>
      r == s.(sending := false, trace := s.trace + FanOut(Ascending(s.listeners), OnSent))
    ensures Inv(s) ==> Inv(r)
    ensures Follows(s, r)
  {
    if !s.tracked then s
    else if |s.backlog| > 0 then
      s.(backlog := s.backlog[1..], trace := s.trace + [Sent(s.backlog[0])])
    else if s.disconnecting then
      s.(sending := false, trace := s.trace + [Disconnect])
    else
      s.(sending := false, trace := s.trace + FanOut(Ascending(s.listeners), OnSent))
  }

  /**
   * `disconnect_callback`: the handle is closed, the listener set emptied,
   * each listener of the set as it was on entry is told once, in set order,
   * and its reference released; the object is destroyed at the end exactly
   * when no reference other than the listeners' was left. Requires
   * `DisconnectSafe`, without which the source frees the object in the
   * middle of its own loop.
   */
  function DisconnectCallback(s: Sock, conn: HandleId): (r: Sock)
    requires !s.destroyed && s.tracked
    requires DisconnectSafe(s)
    ensures !r.open && r.listeners == {}
    ensures r.nRef == s.nRef - |s.listeners|
    ensures r.destroyed <==> s.nRef == |s.listeners|
    ensures r.trace == Repair(s, conn).trace + FanOut(Ascending(s.listeners), OnDisconnected)
    ensures r == s.(open := false, listeners := {}, nRef := r.nRef, destroyed := r.destroyed, trace := r.trace)
    ensures Inv(s) ==> Inv(r)
    ensures Counted(s) ==> Counted(r)
    ensures s.nRef < 0 ==> !r.destroyed && r.nRef < 0
    ensures Follows(s, r)
  {
    var s1 := Repair(s, conn);
    s1.(open := false,
        listeners := {},
        nRef := s.nRef - |s.listeners|,
        destroyed := s.nRef == |s.listeners|,
        trace := s1.trace + FanOut(Ascending(s.listeners), OnDisconnected))
  }

  /** A state that agrees field by field with the result of the disconnect callback is that result. */
  lemma DisconnectCallbackFields(s: Sock, conn: HandleId, r: Sock)
    requires !s.destroyed && s.tracked && DisconnectSafe(s)
    requires !r.open && r.listeners == {}
    requires r.nRef == s.nRef - |s.listeners|
    requires r.destroyed <==> s.nRef == |s.listeners|
    requires r.trace == Repair(s, conn).trace + FanOut(Ascending(s.listeners), OnDisconnected)
    requires r.handle == s.handle && r.hasServer == s.hasServer && r.tracked == s.tracked
    requires r.sending == s.sending && r.disconnecting == s.disconnecting && r.backlog == s.backlog
    ensures r == DisconnectCallback(s, conn)
  {
  }
}
