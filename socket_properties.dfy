/**
 * Properties of the CTcpSocket state machine that relate several calls:
 * listener bookkeeping, the destroy-or-disconnect rule of `release`, FIFO
 * sending, graceful and forced disconnects, the disconnect fan-out, and the
 * invariants that hold along every run.
 */
module SocketProperties {
  import opened ListenerOrder
  import opened SocketSpec

  // ---------------------------------------------------------------------
  // Listeners and references
  // ---------------------------------------------------------------------

  /** Adding a listener twice counts it once. */
  lemma AddListenerIdempotent(s: Sock, id: ListenerId)
    requires !s.destroyed
    ensures AddListener(AddListener(s, id), id) == AddListener(s, id)
  {
  }

  /** Removing a listener twice gives back its reference once. */
  lemma RemoveListenerIdempotent(s: Sock, id: ListenerId)
    requires !s.destroyed
    requires !RemoveListener(s, id).destroyed
    ensures RemoveListener(RemoveListener(s, id), id) == RemoveListener(s, id)
  {
  }

  /**
   * Adding a new listener and removing it again leaves the count and the
   * listener set as they were; while some reference remains, nothing else
   * changes either.
   */
  lemma AddThenRemoveListener(s: Sock, id: ListenerId)
    requires !s.destroyed && id !in s.listeners
    ensures RemoveListener(AddListener(s, id), id).nRef == s.nRef
    ensures RemoveListener(AddListener(s, id), id).listeners == s.listeners
    ensures s.nRef != 0 ==> RemoveListener(AddListener(s, id), id) == s
  {
  }

  /**
   * Releasing the last reference of an open socket only asks the stack to
   * disconnect; the disconnect callback that follows then destroys it.
   */
  lemma LastReleaseWaitsForDisconnect(s: Sock)
    requires !s.destroyed && s.open && s.tracked
    requires s.nRef == 1 && s.listeners == {}
    ensures !Release(s).destroyed
    ensures Release(s).trace == s.trace + [Disconnect]
    ensures Counted(Release(s))
    ensures DisconnectCallback(Release(s), s.handle).destroyed
    ensures DisconnectCallback(Release(s), s.handle).trace == s.trace + [Disconnect]
  {
    var r := Release(s);
    assert Ascending(r.listeners) == [];
  }

  /**
   * An over-released socket: the owner releases twice, so the count is
   * below zero and a release has already asked the stack to disconnect.
   * The disconnect callback that follows is still well defined and never
   * frees the object, because its releases never meet zero.
   */
  lemma OverReleasedDisconnect(hasServer: bool, h: HandleId)
    ensures var s := Release(Release(Init(hasServer, Some(h))));
            && s.nRef == -1 && !s.destroyed
            && Step(s, DisconnectedCb(h)).Some?
            && !Step(s, DisconnectedCb(h)).value.destroyed
            && Step(s, DisconnectedCb(h)).value.nRef == -1
  {
    var s := Release(Release(Init(hasServer, Some(h))));
    assert s.listeners == {};
  }

  // ---------------------------------------------------------------------
  // Sending in order
  // ---------------------------------------------------------------------

  /**
   * A send on an open socket that is not disconnecting puts its buffer at
   * the end of what has been passed to `espconn_sent` and what is queued,
   * whether or not the stack then accepts it.
   */
  lemma SendPending(s: Sock, data: seq<byte>, stackOk: bool)
    requires !s.destroyed && Inv(s)
    ensures Pending(Send(s, data, stackOk).0)
         == Pending(s) + (if s.open && !s.disconnecting then [data] else [])
  {
    if s.open && !s.disconnecting && !s.sending {
      SentDataAppend(s.trace, [Sent(data)]);
      assert SentData([Sent(data)]) == [data];
    }
  }

  /**
   * A buffer the stack refuses when `send` issues it is still passed to
   * `espconn_sent`: `send` reports false and the socket is idle again.
   */
  lemma RefusedSendIsIssued(s: Sock, data: seq<byte>)
    requires !s.destroyed && Inv(s) && s.open && !s.disconnecting && !s.sending
    ensures !Send(s, data, false).1
    ensures !Send(s, data, false).0.sending
    ensures Send(s, data, false).0.trace == s.trace + [Sent(data)]
    ensures Pending(Send(s, data, false).0) == Pending(s) + [data]
  {
    SendPending(s, data, false);
  }

  /** A send completion with buffers queued hands the oldest one to the stack. */
  lemma SentNextPending(s: Sock)
    requires !s.destroyed && s.tracked && |s.backlog| > 0
    ensures Pending(SentCallback(s)) == Pending(s)
  {
    var t, b := s.trace, s.backlog;
    assert SentCallback(s).trace == t + [Sent(b[0])];
    assert SentCallback(s).backlog == b[1..];
    SentDataAppend(t, [Sent(b[0])]);
    assert SentData([Sent(b[0])]) == [b[0]];
    assert b == [b[0]] + b[1..];
  }

  /** A send completion with nothing queued gives the stack nothing more. */
  lemma SentDrainedPending(s: Sock)
    requires !s.destroyed && s.tracked && s.backlog == []
    ensures Pending(SentCallback(s)) == Pending(s)
  {
    var t := s.trace;
    var tail := if s.disconnecting then [Disconnect] else FanOut(Ascending(s.listeners), OnSent);
    assert SentCallback(s).trace == t + tail;
    assert SentCallback(s).backlog == [];
    SentDataAppend(t, tail);
    if s.disconnecting {
      assert SentData([Disconnect]) == [];
    } else {
      SentDataFanOut(Ascending(s.listeners), OnSent);
    }
  }

  /** A send completion moves the oldest queued buffer to the stack, or moves nothing. */
  lemma SentCallbackPending(s: Sock)
    requires !s.destroyed
    ensures Pending(SentCallback(s)) == Pending(s)
  {
    if s.tracked {
      if |s.backlog| > 0 {
        SentNextPending(s);
      } else {
        SentDrainedPending(s);
      }
    }
  }

  /** A forced disconnect drops every queued buffer. */
  lemma ForcedDisconnectDropsBacklog(s: Sock)
    requires !s.destroyed && s.open
    ensures Pending(DisconnectOp(s, true)) == SentData(s.trace)
  {
    SentDataAppend(s.trace, [Disconnect]);
    assert SentData([Disconnect]) == [];
  }

  // ---------------------------------------------------------------------
  // Runs
  // ---------------------------------------------------------------------

  /** One public call or stack callback. */
  datatype Action =
    | AddListenerCall(id: ListenerId)
    | RemoveListenerCall(id: ListenerId)
    | AddRefCall
    | ReleaseCall
    | SendCall(data: seq<byte>, stackOk: bool)
    | SetTimeoutCall(timeout: uint32)
    | DisconnectCall(force: bool)
    | ConnectedCb(conn: HandleId)
    | ReconnectedCb(conn: HandleId)
    | ReceivedCb(bytes: seq<byte>)
    | SentCb
    | DisconnectedCb(conn: HandleId)

  /**
   * The successor state, or None when the call would be undefined in the
   * source: any use of a destroyed object, the connect or disconnect
   * callback on a handle that does not lead back to the socket, or the
   * disconnect callback on a count that its loop would bring to zero
   * (see `DisconnectSafe`).
   */
  function Step(s: Sock, a: Action): (r: Option<Sock>)
    ensures r.Some? <==>
      && !s.destroyed
      && (a.ConnectedCb? || a.DisconnectedCb? ==> s.tracked)
      && (a.DisconnectedCb? ==> DisconnectSafe(s))
  {
    if s.destroyed then None
    else match a
      case AddListenerCall(id) => Some(AddListener(s, id))
      case RemoveListenerCall(id) => Some(RemoveListener(s, id))
      case AddRefCall => Some(AddRef(s))
      case ReleaseCall => Some(Release(s))
      case SendCall(data, stackOk) => Some(Send(s, data, stackOk).0)
      case SetTimeoutCall(t) => Some(SetTimeoutOp(s, t))
      case DisconnectCall(force) => Some(DisconnectOp(s, force))
      case ConnectedCb(conn) => if s.tracked then Some(ConnectCallback(s, conn)) else None
      case ReconnectedCb(conn) => Some(ReconnectCallback(s, conn))
      case ReceivedCb(bytes) => Some(RecvCallback(s, bytes))
      case SentCb => Some(SentCallback(s))
      case DisconnectedCb(conn) =>
        if s.tracked && DisconnectSafe(s) then Some(DisconnectCallback(s, conn)) else None
  }

  /** The state after the calls in order, or None once one of them is undefined. */
  function Run(s: Sock, actions: seq<Action>): Option<Sock>
    decreases |actions|
  {
    if actions == [] then Some(s)
    else match Step(s, actions[0])
      case None => None
      case Some(s') => Run(s', actions[1..])
  }

  /** Every call keeps the invariant and the one-way facts of Follows. */
  lemma StepKeepsInv(s: Sock, a: Action)
    requires Inv(s)
    requires Step(s, a).Some?
    ensures Inv(Step(s, a).value)
    ensures Follows(s, Step(s, a).value)
  {
  }

  /**
   * Every call other than `release` keeps each listener's reference
   * counted; `release` keeps it when it gives back a reference that is not
   * a listener's.
   */
  lemma StepKeepsCounted(s: Sock, a: Action)
    requires Counted(s)
    requires Step(s, a).Some?
    requires a.ReleaseCall? ==> s.nRef > |s.listeners|
    ensures Counted(Step(s, a).value)
  {
  }

  /**
   * Along every run from a valid state: the invariant holds at each step
   * (in particular the object is never destroyed while the handle is open),
   * the trace only grows, a closed handle stays closed and a requested
   * disconnect stays requested.
   */
  lemma {:induction false} RunKeepsInv(s: Sock, actions: seq<Action>)
    requires Inv(s)
    requires Run(s, actions).Some?
    ensures Inv(Run(s, actions).value)
    ensures Follows(s, Run(s, actions).value)
    decreases |actions|
  {
    if actions != [] {
      var s' := Step(s, actions[0]).value;
      StepKeepsInv(s, actions[0]);
      RunKeepsInv(s', actions[1..]);
    }
  }

  /** A run of a freshly constructed socket. */
  lemma FromInitKeepsInv(hasServer: bool, conn: Option<HandleId>, actions: seq<Action>)
    requires Run(Init(hasServer, conn), actions).Some?
    ensures Inv(Run(Init(hasServer, conn), actions).value)
  {
    RunKeepsInv(Init(hasServer, conn), actions);
  }

  /** Nothing but `send` calls and send completions. */
  ghost predicate OnlySends(actions: seq<Action>)
  {
    forall i :: 0 <= i < |actions| ==> actions[i].SendCall? || actions[i].SentCb?
  }

  /** The buffers of the `send` calls, in call order. */
  function Submitted(actions: seq<Action>): seq<seq<byte>>
    decreases |actions|
  {
    if actions == [] then []
    else (if actions[0].SendCall? then [actions[0].data] else []) + Submitted(actions[1..])
  }

  lemma OnlySendsTail(actions: seq<Action>)
    requires actions != [] && OnlySends(actions)
    ensures OnlySends(actions[1..])
  {
    forall i | 0 <= i < |actions[1..]|
      ensures actions[1..][i].SendCall? || actions[1..][i].SentCb?
    {
      assert actions[1..][i] == actions[i + 1];
    }
  }

  /** One send or completion on an open socket that is not disconnecting. */
  lemma SendStep(s: Sock, a: Action)
    requires Inv(s) && !s.destroyed && s.open && !s.disconnecting
    requires a.SendCall? || a.SentCb?
    ensures Step(s, a).Some?
    ensures var s' := Step(s, a).value;
            && Inv(s') && !s'.destroyed && s'.open && !s'.disconnecting
            && Pending(s') == Pending(s) + Submitted([a])
  {
    assert [a][1..] == [];
    if a.SendCall? {
      SendPending(s, a.data, a.stackOk);
    } else {
      SentCallbackPending(s);
    }
  }

  /**
   * FIFO: on an open socket with no disconnect requested, any interleaving
   * of sends and completions passes `espconn_sent` the buffers of the
   * `send` calls exactly in call order, none skipped and none twice, with
   * the rest still queued in that order. A buffer the stack refused when
   * `send` issued it counts as passed: the source does not retry it.
   */
  lemma {:induction false} SendsLeaveInOrder(s: Sock, actions: seq<Action>)
    requires Inv(s) && !s.destroyed && s.open && !s.disconnecting
    requires OnlySends(actions)
    ensures Run(s, actions).Some?
    ensures Pending(Run(s, actions).value) == Pending(s) + Submitted(actions)
    decreases |actions|
  {
    if actions != [] {
      var a, rest := actions[0], actions[1..];
      SendStep(s, a);
      var s' := Step(s, a).value;
      OnlySendsTail(actions);
      SendsLeaveInOrder(s', rest);
      RunCons(s, actions);
      SubmittedCons(actions);
      AppendAssoc(Pending(s), Submitted([a]), Submitted(rest));
    }
  }

  lemma RunCons(s: Sock, actions: seq<Action>)
    requires actions != [] && Step(s, actions[0]).Some?
    ensures Run(s, actions) == Run(Step(s, actions[0]).value, actions[1..])
  {
  }

  lemma SubmittedCons(actions: seq<Action>)
    requires actions != []
    ensures Submitted(actions) == Submitted([actions[0]]) + Submitted(actions[1..])
  {
    assert [actions[0]][1..] == [];
  }

  /**
   * A solver hint, not a property of the socket: proving associativity in
   * this small lemma instead of inside `SendsLeaveInOrder` keeps the
   * induction step cheap.
   */
  lemma AppendAssoc<T>(a: seq<T>, b: seq<T>, c: seq<T>)
    ensures (a + b) + c == a + (b + c)
  {
  }

  /**
   * Three sends issued back to back: the first goes to the stack at once,
   * the next two wait in order and leave one per completion.
   */
  lemma ThreeSendsDrainInOrder(s: Sock, d1: seq<byte>, d2: seq<byte>, d3: seq<byte>)
    requires Inv(s) && !s.destroyed && s.open && s.tracked
    requires !s.sending && !s.disconnecting
    ensures var s1 := Send(s, d1, true).0;
            var s3 := Send(Send(s1, d2, true).0, d3, true).0;
            var s4 := SentCallback(s3);
            var s5 := SentCallback(s4);
            && s1.trace == s.trace + [Sent(d1)] && s1.sending
            && s3.trace == s1.trace && s3.backlog == [d2, d3]
            && s4.trace == s3.trace + [Sent(d2)] && s4.backlog == [d3] && s4.sending
            && s5.trace == s4.trace + [Sent(d3)] && s5.backlog == [] && s5.sending
  {
    var s1 := Send(s, d1, true).0;
    var s3 := Send(Send(s1, d2, true).0, d3, true).0;
    assert s3.backlog == [d2, d3];
    assert s3.backlog[1..] == [d3];
  }

  // ---------------------------------------------------------------------
  // Disconnecting
  // ---------------------------------------------------------------------

  /** `n` send completions in a row. */
  function Completions(s: Sock, n: nat): (r: Sock)
    requires !s.destroyed
    ensures !r.destroyed
    decreases n
  {
    if n == 0 then s else Completions(SentCallback(s), n - 1)
  }

  /** The `Sent` calls for a queue of buffers, oldest first. */
  function SentEach(bs: seq<seq<byte>>): (r: seq<Event>)
    ensures |r| == |bs|
  {
    if bs == [] then [] else [Sent(bs[0])] + SentEach(bs[1..])
  }

  /**
   * A graceful disconnect requested while sending waits for the in-flight
   * send and the whole backlog: the queued buffers leave in order, one per
   * completion, and the stack disconnect comes with the completion that
   * finds the backlog empty, with no listener notified.
   */
  lemma {:induction false} GracefulDisconnectDrains(s: Sock)
    requires !s.destroyed && s.tracked && s.sending && s.disconnecting
    ensures Completions(s, |s.backlog| + 1).trace == s.trace + SentEach(s.backlog) + [Disconnect]
    ensures Completions(s, |s.backlog| + 1).backlog == []
    ensures !Completions(s, |s.backlog| + 1).sending
    decreases |s.backlog|
  {
    if s.backlog == [] {
      assert Completions(s, 1) == SentCallback(s);
    } else {
      var s' := SentCallback(s);
      assert Completions(s, |s.backlog| + 1) == Completions(s', |s'.backlog| + 1);
      GracefulDisconnectDrains(s');
      assert SentEach(s.backlog) == [Sent(s.backlog[0])] + SentEach(s'.backlog);
    }
  }

  /** A graceful disconnect with nothing in flight reaches the stack at once. */
  lemma GracefulDisconnectWhenIdle(s: Sock)
    requires !s.destroyed && s.open && !s.sending && !s.disconnecting
    ensures DisconnectOp(s, false).trace == s.trace + [Disconnect]
    ensures DisconnectOp(DisconnectOp(s, false), false) == DisconnectOp(s, false)
  {
  }

  /** A forced disconnect reaches the stack at once even while sending. */
  lemma ForcedDisconnectWhileSending(s: Sock)
    requires !s.destroyed && s.open && s.sending
    ensures DisconnectOp(s, true).trace == s.trace + [Disconnect]
    ensures DisconnectOp(s, true).backlog == []
    ensures DisconnectOp(s, true).disconnecting
  {
  }

  /** In a fan-out over distinct listeners, each one hears exactly once and no one else hears. */
  lemma {:induction false} FanOutCount(ids: seq<ListenerId>, n: Note, id: ListenerId)
    requires Distinct(ids)
    ensures multiset(FanOut(ids, n))[Notification(n, id)] == if id in ids then 1 else 0
    decreases |ids|
  {
    if ids != [] {
      assert Distinct(ids[1..]) by {
        forall i, j | 0 <= i < j < |ids[1..]|
          ensures ids[1..][i] != ids[1..][j]
        {
          assert ids[1..][i] == ids[i + 1] && ids[1..][j] == ids[j + 1];
        }
      }
      FanOutCount(ids[1..], n, id);
      assert FanOut(ids, n) == [Notification(n, ids[0])] + FanOut(ids[1..], n);
      assert id in ids <==> id == ids[0] || id in ids[1..];
      if id == ids[0] {
        assert id !in ids[1..] by {
          forall k | 0 <= k < |ids[1..]|
            ensures ids[1..][k] != id
          {
            assert ids[1..][k] == ids[k + 1];
          }
        }
      }
    }
  }

  /** Every listener of a set is notified exactly once by a fan-out over it; no one else is. */
  lemma NotifiedOnce(listeners: set<ListenerId>, n: Note, id: ListenerId)
    ensures multiset(FanOut(Ascending(listeners), n))[Notification(n, id)]
         == if id in listeners then 1 else 0
  {
    AscendingDistinct(listeners);
    FanOutCount(Ascending(listeners), n, id);
    if id in listeners {
      AscendingCovers(listeners, id);
    } else {
      AscendingSorted(listeners);
    }
  }

  /**
   * The disconnect callback tells every listener registered on entry that
   * the socket is gone exactly once, and tells no one else.
   */
  lemma DisconnectNotifiesEachOnce(s: Sock, conn: HandleId, id: ListenerId)
    requires !s.destroyed && s.tracked && DisconnectSafe(s)
    ensures var r := DisconnectCallback(s, conn);
            var before := Repair(s, conn).trace;
            && before <= r.trace
            && multiset(r.trace[|before|..])[NotifyDisconnected(id)] == if id in s.listeners then 1 else 0
  {
    var r := DisconnectCallback(s, conn);
    var before := Repair(s, conn).trace;
    assert r.trace[|before|..] == FanOut(Ascending(s.listeners), OnDisconnected);
    NotifiedOnce(s.listeners, OnDisconnected, id);
  }
}
