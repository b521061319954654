# CTcpSocket: a verified model of EspLightNode's TCP connection wrapper

`CTcpSocket` wraps one ESP8266 SDK connection (`struct espconn`). It keeps a
reference count shared by its owner and by every registered listener. It
queues outgoing buffers while one send is in flight, because the SDK accepts
only one outstanding `espconn_sent`. It turns a graceful disconnect request
into a deferred stack disconnect once the queue has drained. It handles the
SDK's connect, reconnect, receive, sent and disconnect callbacks. Only the
receive, sent and disconnect callbacks reach its listeners; connect and
reconnect only ask the server to repair a mismatched handle.

The model has two layers and a property module:

- `SocketSpec` (socket_spec.dfy) is the pure state machine. `Sock` holds the
  socket's fields. `open` means `m_conn` is set, and `handle` is the `espconn`
  the socket was created with. Two further fields record effects: the
  `destroyed` flag stands for `delete this`, and the `trace` is the sequence
  of calls made into the SDK (`espconn_sent`, `espconn_disconnect`,
  `espconn_regist_time`), into the server (`fixConnectionParams`) and into
  the listeners. There is one transition function per public operation and
  per stack callback. Each function's contract states its effect case by
  case, the invariant `Inv` it keeps, and the one-way facts `Follows` it
  respects.
- `TcpSocket.Socket` (tcp_socket.dfy) is the class. Its fields are the ones
  the source updates in place. Every method for a public operation or a
  stack callback is proved to move the object's state exactly as the
  matching `SocketSpec` function says. The source's loops over the listener
  set are `while` loops here (`NotifyAll`, `NotifyAndRelease`), specified
  field by field, with invariants tying the partial trace to the complete
  fan-out. `Detach` is the first half of the disconnect callback, also
  specified field by field.
- `ListenerOrder` (listener_order.dfy) gives the order in which a range-for
  visits a `std::set<ITcpSocketListener*>`: ascending address order.
- `SocketProperties` (socket_properties.dfy) proves the properties that
  relate several calls:
  - listener bookkeeping;
  - the destroy-or-disconnect rule of `release`;
  - FIFO delivery of sends;
  - graceful and forced disconnects;
  - the once-per-listener disconnect fan-out;
  - the invariant along every run of calls.

Environment inputs are parameters:

- `espconn_sent`'s result is `stackOk`.
- Whether the socket has a server is `hasServer`.
- The handle a callback receives is `conn`.

The SDK's `arg->reverse` back-pointer is the `tracked` flag. It is set by the
constructor when the handle is non-null (`setupConnectionParams`).
`dropConnectionParams` is never called in this file, so `tracked` never
changes.

## Model

| member | source | states |
|---|---|---|
| SocketSpec.Init | user/httpd/CTcpSocket.cpp:10-33 | A new socket holds one reference, no listeners, an empty backlog and an empty trace, and is neither sending nor disconnecting. It is open and tracked exactly when a handle was given. The invariant and the listener accounting hold from the start. |
| TcpSocket.Socket.constructor | user/httpd/CTcpSocket.cpp:10-16 | The new object's state is `Init` of the same arguments. |
| SocketSpec.AddRef | user/httpd/CTcpSocket.cpp:50-53 | The count goes up by one and nothing else changes. |
| TcpSocket.Socket.AddRef | user/httpd/CTcpSocket.cpp:50-53 | Moves the object as `SocketSpec.AddRef`, touching only the count, and keeps the object valid. |
| SocketSpec.Release | user/httpd/CTcpSocket.cpp:54-63 | The count goes down by one. The object is destroyed iff the count reaches zero on a closed handle. A stack disconnect is issued iff the count reaches zero on an open handle. Nothing else changes, and the invariant is kept. |
| TcpSocket.Socket.Release | user/httpd/CTcpSocket.cpp:54-63 | The same, field by field, and equal to `SocketSpec.Release` of the old state. |
| SocketSpec.AddListener | user/httpd/CTcpSocket.cpp:41-44 | The listener joins the set. The count goes up by one iff it was not already a member, so references minus listeners is unchanged. |
| TcpSocket.Socket.AddListener | user/httpd/CTcpSocket.cpp:41-44 | Moves the object as `SocketSpec.AddListener`. |
| SocketSpec.RemoveListener | user/httpd/CTcpSocket.cpp:45-48 | The listener leaves the set. A member gives back its reference through `release`; removing a non-member changes nothing. The object is destroyed iff a member held the last reference of a closed socket. |
| TcpSocket.Socket.RemoveListener | user/httpd/CTcpSocket.cpp:45-48 | Moves the object as `SocketSpec.RemoveListener`. |
| SocketSpec.Send | user/httpd/CTcpSocket.cpp:65-80 | On a closed or disconnecting socket it returns false and changes nothing. While a send is in flight the buffer is queued at the tail and it returns true. Otherwise the buffer goes to the stack at once, and the result, like the new sending flag, is whether the stack accepted it. |
| TcpSocket.Socket.Send | user/httpd/CTcpSocket.cpp:65-80 | The new state and the result are those of `SocketSpec.Send`. |
| SocketSpec.SetTimeoutOp | user/httpd/CTcpSocket.cpp:82-87 | On an open socket it records one per-connection timeout call with the given value; on a closed one it does nothing. |
| TcpSocket.Socket.SetTimeout | user/httpd/CTcpSocket.cpp:82-87 | Moves the object as `SocketSpec.SetTimeoutOp`. |
| SocketSpec.DisconnectOp | user/httpd/CTcpSocket.cpp:89-105 | Nothing on a closed socket. A forced disconnect empties the backlog, disconnects at once and sets disconnecting. The first graceful request sets disconnecting and disconnects at once only if no send is in flight. A later graceful request changes nothing. |
| TcpSocket.Socket.Disconnect | user/httpd/CTcpSocket.cpp:89-105 | Moves the object as `SocketSpec.DisconnectOp`. |
| SocketSpec.Repair | user/httpd/CTcpSocket.cpp:110-114 | When the callback's handle differs from the socket's (or the socket is closed) and a server is attached, the server is asked to fix its registrations. Nothing else changes. |
| TcpSocket.Socket.FixIfMismatched | user/httpd/CTcpSocket.cpp:110-114 | Moves the object as `SocketSpec.Repair`, touching only the trace. |
| SocketSpec.ConnectCallback | user/httpd/CTcpSocket.cpp:107-115 | Only the mismatch repair. It requires a tracked handle, because the source dereferences `reverse` unchecked. |
| TcpSocket.Socket.ConnectCallback | user/httpd/CTcpSocket.cpp:107-115 | Moves the object as `SocketSpec.ConnectCallback`. |
| SocketSpec.ReconnectCallback | user/httpd/CTcpSocket.cpp:136-146 | Nothing on an untracked handle; otherwise the mismatch repair. |
| TcpSocket.Socket.ReconnectCallback | user/httpd/CTcpSocket.cpp:136-146 | Moves the object as `SocketSpec.ReconnectCallback`. |
| SocketSpec.RecvCallback | user/httpd/CTcpSocket.cpp:147-154 | On a tracked handle every listener receives the bytes, one call each in set order; on an untracked one nothing happens. |
| TcpSocket.Socket.NotifyAll | user/httpd/CTcpSocket.cpp:152-153 | The loop appends exactly the fan-out of the notification over the snapshot, in set order. |
| TcpSocket.Socket.RecvCallback | user/httpd/CTcpSocket.cpp:147-154 | Moves the object as `SocketSpec.RecvCallback`. |
| SocketSpec.SentCallback | user/httpd/CTcpSocket.cpp:155-174 | With a queued buffer, the oldest is issued and the socket stays sending. With none, sending is cleared; then a pending disconnect is issued with no notification, or else every listener hears of the completion. Untracked: nothing. |
| TcpSocket.Socket.SentCallback | user/httpd/CTcpSocket.cpp:155-174 | Moves the object as `SocketSpec.SentCallback`. |
| SocketSpec.DisconnectCallback | user/httpd/CTcpSocket.cpp:117-135 | After the mismatch repair, the handle is closed and the listener set emptied. Every listener present on entry is told once, in set order. The count drops by the number of listeners. The object is destroyed iff only the listeners' references were left; an over-released (negative) count stays negative and the object survives. The invariant and the listener accounting are kept. |
| TcpSocket.Socket.NotifyAndRelease | user/httpd/CTcpSocket.cpp:129-132 | The loop tells each listener of the snapshot in order and releases one reference per listener. The object stays alive throughout, whether the temporary reference keeps the count positive or the count starts at zero or below. |
| TcpSocket.Socket.Detach | user/httpd/CTcpSocket.cpp:120-128 | Repairs, closes, takes the temporary reference and moves the listener set out, leaving it empty. |
| TcpSocket.Socket.DisconnectCallback | user/httpd/CTcpSocket.cpp:117-135 | Moves the object as `SocketSpec.DisconnectCallback`. |
| ListenerOrder.Ascending | user/httpd/CTcpSocket.cpp:129 | The visiting order of a `std::set` has one entry per member. |
| ListenerOrder.AscendingSorted | user/httpd/CTcpSocket.cpp:129 | The range-for visits only members, in strictly ascending address order. |
| ListenerOrder.AscendingCovers | user/httpd/CTcpSocket.cpp:129 | The range-for visits every member. |
| SocketProperties.AddListenerIdempotent | user/httpd/CTcpSocket.cpp:41-44 | Adding the same listener twice is the same as adding it once. |
| SocketProperties.RemoveListenerIdempotent | user/httpd/CTcpSocket.cpp:45-48 | Removing the same listener twice is the same as removing it once, while the object survives the first removal. |
| SocketProperties.AddThenRemoveListener | user/httpd/CTcpSocket.cpp:41-48 | Adding a new listener and removing it restores the count and the set; with a reference left, the whole state is restored. |
| SocketProperties.LastReleaseWaitsForDisconnect | user/httpd/CTcpSocket.cpp:54-63 | Dropping the last reference of an open socket only asks the stack to disconnect. The disconnect callback that follows destroys the object. |
| SocketProperties.OverReleasedDisconnect | user/httpd/CTcpSocket.cpp:117-135 | After the owner releases twice (count -1), the disconnect callback is defined, leaves the count at -1 and does not destroy the object. |
| SocketProperties.SendPending | user/httpd/CTcpSocket.cpp:65-80 | Everything passed to `espconn_sent`, followed by the backlog, grows by exactly the new buffer iff the socket is open and not disconnecting, whether or not the stack accepts it. |
| SocketProperties.RefusedSendIsIssued | user/httpd/CTcpSocket.cpp:74-79 | A buffer the stack refuses when `send` issues it was still passed to `espconn_sent`: `send` reports false and the socket is idle again. |
| SocketProperties.SentCallbackPending | user/httpd/CTcpSocket.cpp:160-165 | A send completion moves the oldest queued buffer to the stack without losing, reordering or duplicating any buffer. |
| SocketProperties.ForcedDisconnectDropsBacklog | user/httpd/CTcpSocket.cpp:92-98 | After a forced disconnect, only the buffers already handed to the stack remain; the queue is gone. |
| SocketProperties.Step | user/httpd/CTcpSocket.cpp:41-174 | One call or callback. It is defined exactly when the object is alive, the connect and disconnect callbacks arrive on a tracked handle, and at a disconnect callback the count is negative or at least the number of listeners, so that its loop never brings it to zero. |
| SocketProperties.StepKeepsInv | user/httpd/CTcpSocket.cpp:41-174 | Every call keeps the invariant, only extends the trace, never reopens a closed handle and never withdraws a disconnect request. |
| SocketProperties.StepKeepsCounted | user/httpd/CTcpSocket.cpp:41-174 | Every call keeps each listener's reference counted; `release` does so when it gives back a reference that is not a listener's. |
| SocketProperties.RunKeepsInv | user/httpd/CTcpSocket.cpp:41-174 | Along any run of calls the invariant holds and the one-way facts accumulate. |
| SocketProperties.FromInitKeepsInv | user/httpd/CTcpSocket.cpp:10-174 | Every state reachable from construction satisfies the invariant. |
| SocketProperties.SendStep | user/httpd/CTcpSocket.cpp:65-80 | One send or completion on an open, non-disconnecting socket keeps it so and extends the pending buffers by the submitted one. |
| SocketProperties.SendsLeaveInOrder | user/httpd/CTcpSocket.cpp:65-80 | Any interleaving of sends and completions on an open socket passes `espconn_sent` the buffers of the `send` calls in call order (a buffer the stack refused counts as passed), none skipped and none twice, and keeps the rest queued in that order. |
| SocketProperties.ThreeSendsDrainInOrder | user/httpd/CTcpSocket.cpp:68-72 | Three sends: the first is issued; the second and third are queued and leave in order, one per completion. |
| SocketProperties.GracefulDisconnectDrains | user/httpd/CTcpSocket.cpp:100-104 | A graceful disconnect requested while sending disconnects only after the in-flight send and every queued buffer complete. The buffers go out in order, and no listener hears of a completion. |
| SocketProperties.GracefulDisconnectWhenIdle | user/httpd/CTcpSocket.cpp:100-104 | With nothing in flight, a graceful disconnect reaches the stack at once, and repeating it changes nothing. |
| SocketProperties.ForcedDisconnectWhileSending | user/httpd/CTcpSocket.cpp:92-98 | A forced disconnect empties the queue and disconnects at once even while sending. |
| SocketProperties.FanOutCount | user/httpd/CTcpSocket.cpp:129-131 | A fan-out over distinct listeners notifies each of them exactly once and no one else. |
| SocketProperties.NotifiedOnce | user/httpd/CTcpSocket.cpp:129-131 | A fan-out over a listener set notifies each member exactly once and no non-member. |
| SocketProperties.DisconnectNotifiesEachOnce | user/httpd/CTcpSocket.cpp:126-132 | The disconnect callback tells each listener registered on entry exactly once that the socket is gone, and tells no one else. |

## Left out

- The callback registration calls of `setupConnectionParams` and `dropConnectionParams`: the SDK's side is not modelled. Only the `reverse` back-pointer is kept, as `tracked`.
- `CTcpServer::fixConnectionParams` is not part of this model; its call appears only as a `FixParams` trace event.
- Memory management: `delete this` is the `destroyed` flag, and the destructor freeing the backlog copies is not modelled. Buffers are values, so the copy in `send` and the `delete[]` calls disappear.
- The `DEBUG` logging has no effect on the state and is omitted.
- Listener callbacks are trace events. A listener that calls back into the socket from inside a notification (re-entrancy) is not modelled.
- The initial values of `m_bSending` and `m_bDisconnecting` come from the class header, which is not part of this model; both are taken to start false.
- SocketSpec.SentCallback: in the backlog branch the source ignores `espconn_sent`'s result and stays sending. The model does the same, so a refused buffer is recorded as handed to the stack.
- SocketSpec.SentCallback: the backlog branch passes `m_conn` to `espconn_sent` even after the disconnect callback has cleared it. The model records the send like any other.
- SocketSpec.DisconnectCallback: requires `DisconnectSafe`, that is, a count below zero or at least the number of listeners. When 0 <= nRef < |listeners|, release number nRef + 1 inside the loop brings the count to zero and frees the object while the loop still uses it; the model does not describe what follows.
- SocketSpec.ConnectCallback: requires a tracked handle, because the source reads `conn->reverse` without a null check.
- Integer widths: the reference count is an unbounded integer, `size_t` lengths are sequence lengths, and wrap-around of `m_nRef` is not modelled.
- Timing and concurrency of SDK callbacks: callbacks are modelled as atomic steps in an arbitrary order.
