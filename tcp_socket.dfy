/**
 * `CTcpSocket` as a class whose fields the methods update in place. Each
 * public operation and each stack callback is a method whose new state is
 * the matching transition of SocketSpec applied to the old state; the loops
 * over the listener set are proved against that loop-free description.
 *
 * Listener callbacks are recorded in the trace and are assumed not to call
 * back into the socket.
 */
module TcpSocket {
  import opened ListenerOrder
  import opened SocketSpec

  class Socket {
    var open: bool                     // m_conn != NULL
    var handle: HandleId               // the espconn the socket was created with
    var hasServer: bool                // m_pServer != NULL
    var tracked: bool                  // m_conn->reverse == this
    var nRef: int                      // m_nRef
    var listeners: set<ListenerId>     // m_sListeners
    var sending: bool                  // m_bSending
    var disconnecting: bool            // m_bDisconnecting
    var backlog: seq<seq<byte>>        // m_lBacklog
    ghost var destroyed: bool          // `delete this` has run
    ghost var trace: seq<Event>        // calls into the SDK, the server and the listeners

    /** The state of this socket as a SocketSpec value. */
    ghost function Model(): Sock
      reads this
    {
      Sock(open, handle, hasServer, tracked, nRef, listeners, sending,
           disconnecting, backlog, destroyed, trace)
    }

    ghost predicate Valid()
      reads this
    {
      Inv(Model())
    }

    /** `CTcpSocket(pServer, conn)`, including `setupConnectionParams`. */
    constructor (hasServer: bool, conn: Option<HandleId>)
      ensures Valid()
      ensures Model() == Init(hasServer, conn)
    {
      open := conn.Some?;
      handle := if conn.Some? then conn.value else 0;
      this.hasServer := hasServer;
      nRef := 1;
      listeners := {};
      sending := false;
      disconnecting := false;
      backlog := [];
      destroyed := false;
      trace := [];
      tracked := conn.Some?;
    }

    method AddRef()
      requires Valid() && !destroyed
      modifies this`nRef
      ensures Valid()
      ensures Model() == SocketSpec.AddRef(old(Model()))
    {
      nRef := nRef + 1;
    }

    method Release()
      requires Valid() && !destroyed
      modifies this`nRef, this`destroyed, this`trace
      ensures Valid()
      ensures nRef == old(nRef) - 1
      ensures destroyed <==> old(nRef) == 1 && !open
      ensures trace == old(trace) + (if old(nRef) == 1 && open then [Event.Disconnect] else [])
      ensures Model() == SocketSpec.Release(old(Model()))
    {
      nRef := nRef - 1;
      if nRef == 0 {
        if !open {
          destroyed := true;
        } else {
          trace := trace + [Event.Disconnect];
        }
      }
    }

    method AddListener(id: ListenerId)
      requires Valid() && !destroyed
      modifies this
      ensures Valid()
      ensures Model() == SocketSpec.AddListener(old(Model()), id)
    {
      if id !in listeners {
        listeners := listeners + {id};
        AddRef();
      }
    }

    method RemoveListener(id: ListenerId)
      requires Valid() && !destroyed
      modifies this
      ensures Valid()
      ensures Model() == SocketSpec.RemoveListener(old(Model()), id)
    {
      if id in listeners {
        listeners := listeners - {id};
        Release();
      }
    }

    /** `send`; `stackOk` is whether `espconn_sent` returned `ESPCONN_OK`. */
    method Send(data: seq<byte>, stackOk: bool) returns (ok: bool)
      requires Valid() && !destroyed
      modifies this
      ensures Valid()
      ensures (Model(), ok) == SocketSpec.Send(old(Model()), data, stackOk)
    {
      if !open || disconnecting {
        return false;
      }
      if sending {
        backlog := backlog + [data];
        return true;
      }
      sending := true;
      trace := trace + [Sent(data)];
      if stackOk {
        return true;
      }
      sending := false;
      return false;
    }

    method SetTimeout(timeout: uint32)
      requires Valid() && !destroyed
      modifies this
      ensures Valid()
      ensures Model() == SetTimeoutOp(old(Model()), timeout)
    {
      if !open {
        return;
      }
      trace := trace + [Event.SetTimeout(timeout)];
    }

    method Disconnect(force: bool)
      requires Valid() && !destroyed
      modifies this
      ensures Valid()
      ensures Model() == DisconnectOp(old(Model()), force)
    {
      if !open {
        return;
      }
      if force {
        backlog := [];
        trace := trace + [Event.Disconnect];
        disconnecting := true;
        return;
      }
      if !disconnecting {
        disconnecting := true;
        if !sending {
          trace := trace + [Event.Disconnect];
        }
      }
    }

    /** The handle-mismatch check shared by three callbacks. */
    method FixIfMismatched(conn: HandleId)
      modifies this`trace
      ensures Model() == Repair(old(Model()), conn)
    {
      if !open || conn != handle {
        if hasServer {
          trace := trace + [FixParams];
        }
      }
    }

    method ConnectCallback(conn: HandleId)
      requires Valid() && !destroyed && tracked
      modifies this
      ensures Valid()
      ensures Model() == SocketSpec.ConnectCallback(old(Model()), conn)
    {
      FixIfMismatched(conn);
    }

    method ReconnectCallback(conn: HandleId)
      requires Valid() && !destroyed
      modifies this
      ensures Valid()
      ensures Model() == SocketSpec.ReconnectCallback(old(Model()), conn)
    {
      if !tracked {
        return;
      }
      FixIfMismatched(conn);
    }

    /** A range-for over `snapshot` delivering the notification `n` to each listener. */
    method NotifyAll(snapshot: set<ListenerId>, n: Note)
      modifies this`trace
      ensures trace == old(trace) + FanOut(Ascending(snapshot), n)
    {
      var rest := snapshot;
      while rest != {}
        invariant trace + FanOut(Ascending(rest), n) == old(trace) + FanOut(Ascending(snapshot), n)
        decreases rest
      {
        MinExists(rest);
        var l :| IsMin(l, rest);
        FanOutLoopStep(trace, rest, l, n, old(trace) + FanOut(Ascending(snapshot), n));
        trace := trace + [Notification(n, l)];
        rest := rest - {l};
      }
    }

    method RecvCallback(data: seq<byte>)
      requires Valid() && !destroyed
      modifies this
      ensures Valid()
      ensures Model() == SocketSpec.RecvCallback(old(Model()), data)
    {
      if !tracked {
        return;
      }
      NotifyAll(listeners, OnRecv(data));
    }

    method SentCallback()
      requires Valid() && !destroyed
      modifies this
      ensures Valid()
      ensures Model() == SocketSpec.SentCallback(old(Model()))
    {
      if !tracked {
        return;
      }
      if |backlog| > 0 {
        var current := backlog[0];
        backlog := backlog[1..];
        trace := trace + [Sent(current)];
        return;
      }
      sending := false;
      if disconnecting {
        trace := trace + [Event.Disconnect];
        return;
      }
      NotifyAll(listeners, OnSent);
    }

    /**
     * The loop of `disconnect_callback`: tell each listener of `snapshot`
     * that the socket is gone and release its reference. The count never
     * reaches zero here: either the caller's temporary reference keeps it at
     * one or more throughout, or it starts at zero or below and only falls.
     */
    method NotifyAndRelease(snapshot: set<ListenerId>)
      requires Valid() && !destroyed && !open
      requires nRef > |snapshot| || nRef <= 0
      modifies this`nRef, this`destroyed, this`trace
      ensures Valid() && !destroyed
      ensures nRef == old(nRef) - |snapshot|
      ensures trace == old(trace) + FanOut(Ascending(snapshot), OnDisconnected)
    {
      var rest := snapshot;
      while rest != {}
        invariant Valid() && !destroyed
        invariant nRef == old(nRef) - |snapshot| + |rest|
        invariant old(nRef) > |snapshot| ==> nRef > |rest|
        invariant old(nRef) <= 0 ==> nRef <= 0
        invariant trace + FanOut(Ascending(rest), OnDisconnected)
               == old(trace) + FanOut(Ascending(snapshot), OnDisconnected)
        decreases rest
      {
        MinExists(rest);
        var l :| IsMin(l, rest);
        FanOutLoopStep(trace, rest, l, OnDisconnected, old(trace) + FanOut(Ascending(snapshot), OnDisconnected));
        trace := trace + [NotifyDisconnected(l)];
        ghost var notified := trace;
        Release();
        assert trace == notified;
        assert |rest - {l}| == |rest| - 1;
        rest := rest - {l};
      }
    }

    /**
     * The first half of `disconnect_callback`: repair the parameters, mark
     * the connection closed, take a temporary reference and take the
     * listener set out of the object.
     */
    method Detach(conn: HandleId) returns (snapshot: set<ListenerId>)
      requires Valid() && !destroyed && tracked
      modifies this`trace, this`open, this`nRef, this`listeners
      ensures Valid() && !destroyed && !open && listeners == {}
      ensures snapshot == old(listeners)
      ensures nRef == old(nRef) + 1
      ensures trace == Repair(old(Model()), conn).trace
    {
      FixIfMismatched(conn);
      open := false;
      snapshot := listeners;
      AddRef();
      listeners := {};
    }

    /**
     * `disconnect_callback`: close, snapshot and clear the listeners, hold a
     * temporary reference, notify and release each listener of the
     * snapshot, then drop the temporary reference, which destroys the
     * object exactly when no other reference is left.
     */
    method DisconnectCallback(conn: HandleId)
      requires Valid() && !destroyed && tracked
      requires DisconnectSafe(Model())
      modifies this
      ensures Valid()
      ensures Model() == SocketSpec.DisconnectCallback(old(Model()), conn)
    {
      ghost var s0 := Model();
      var snapshot := Detach(conn);
      NotifyAndRelease(snapshot);
      Release();
      DisconnectCallbackFields(s0, conn, Model());
    }
  }
}
