/**
 * The client connection logic of frontend/src/hooks/useWebSocket/useWebSocket.ts.
 * The hook keeps the socket (wsRef), the reconnect counter
 * (reconnectAttemptsRef), a pending reconnect timer (reconnectTimeoutRef)
 * and the isConnected state; its callbacks update them one event at a time.
 * A closed socket is retried after 2^attempts seconds while attempts < 5;
 * opening resets the counter, and disconnect sets it to 5 so that no retry
 * follows.
 */
module WebSocketHook {
  import opened Wrappers
  import opened Types
  import opened Wire
  import Hub

  /** The bound of `reconnectAttemptsRef.current < 5` and the value disconnect stores. */
  const MaxAttempts: nat := 5

  function Pow2(n: nat): (r: nat)
    ensures r >= 1
  {
    if n == 0 then 1 else 2 * Pow2(n - 1)
  }

  /** `Math.pow(2, attempts) * 1000` milliseconds. */
  function BackoffDelay(attempts: nat): (r: nat)
    ensures r >= 1000
  {
    Pow2(attempts) * 1000
  }

  /** WebSocket.readyState. */
  datatype SocketState = Connecting | Open | Closing | Closed

  /** The hook's fields; `timer` is the delay of a scheduled reconnect. */
  datatype ConnState = ConnState(
    socket: Option<SocketState>,
    attempts: int,
    isConnected: bool,
    timer: Option<nat>)

  /** The counter stays within 0..5, and a scheduled reconnect belongs to a closed socket. */
  predicate ValidConn(s: ConnState) {
    && 0 <= s.attempts <= MaxAttempts
    && (s.timer.Some? ==>
          s.socket == Some(Closed) && s.attempts < MaxAttempts && s.timer.value == BackoffDelay(s.attempts))
  }

  /**
   * `connect` (useWebSocket.ts:36-86): nothing when the socket is OPEN;
   * otherwise a new socket, CONNECTING, unless its constructor throws, in
   * which case isConnected becomes false and no retry is scheduled.
   */
  function ConnectStep(s: ConnState, constructed: bool): (r: ConnState)
    ensures s.socket == Some(Open) ==> r == s
    ensures s.socket != Some(Open) && constructed ==> r == s.(socket := Some(Connecting))
    ensures s.socket != Some(Open) && !constructed ==> r == s.(isConnected := false)
  {
    if s.socket == Some(Open) then s
    else if constructed then s.(socket := Some(Connecting))
    else s.(isConnected := false)
  }

  /** `onopen` (lines 45-48). */
  function OpenStep(s: ConnState): (r: ConnState)
    ensures r.isConnected && r.attempts == 0 && r.socket == Some(Open) && r.timer == s.timer
  {
    s.(socket := Some(Open), isConnected := true, attempts := 0)
  }

  /** `onclose` (lines 50-61): disconnected, and a retry after the backoff delay while attempts < 5. */
  function CloseStep(s: ConnState): (r: ConnState)
    requires ValidConn(s)
    ensures !r.isConnected && r.socket == Some(Closed) && r.attempts == s.attempts
    ensures r.timer.Some? <==> s.attempts < MaxAttempts
    ensures r.timer.Some? ==> r.timer.value == BackoffDelay(s.attempts)
  {
    s.(socket := Some(Closed), isConnected := false,
       timer := if s.attempts < MaxAttempts then Some(BackoffDelay(s.attempts)) else None)
  }

  /** The reconnect timer's callback (lines 56-59): count the attempt, then connect. */
  function TimerStep(s: ConnState, constructed: bool): (r: ConnState)
    requires ValidConn(s) && s.timer.Some?
    ensures ValidConn(r) && r.timer.None?
    ensures r.attempts == s.attempts + 1
    ensures constructed ==> r.socket == Some(Connecting)
  {
    ConnectStep(s.(attempts := s.attempts + 1, timer := None), constructed)
  }

  /** `ws.close()`: a CONNECTING or OPEN socket starts closing; otherwise nothing happens. */
  function CloseSocket(socket: Option<SocketState>): (r: Option<SocketState>)
    ensures r != Some(Open) && r != Some(Connecting)
    ensures r.None? <==> socket.None?
    ensures socket == Some(Closing) || socket == Some(Closed) ==> r == socket
  {
    match socket
    case Some(Connecting) => Some(Closing)
    case Some(Open) => Some(Closing)
    case _ => socket
  }

  /** `disconnect` (lines 132-140): cancel the timer, poison the counter with 5, close. */
  function DisconnectStep(s: ConnState): (r: ConnState)
    ensures ValidConn(r) && r.attempts == MaxAttempts && r.timer.None?
    ensures r.socket != Some(Open) && r.socket != Some(Connecting) && (r.socket.None? <==> s.socket.None?)
    ensures r.isConnected == s.isConnected
  {
    s.(timer := None, attempts := MaxAttempts, socket := CloseSocket(s.socket))
  }

  /** The effect's cleanup on unmount (lines 91-98): cancel the timer and close, counter untouched. */
  function UnmountStep(s: ConnState): (r: ConnState)
    requires ValidConn(s)
    ensures ValidConn(r) && r.timer.None? && r.attempts == s.attempts
    ensures r.socket != Some(Open) && r.socket != Some(Connecting) && (r.socket.None? <==> s.socket.None?)
    ensures r.isConnected == s.isConnected
  {
    s.(timer := None, socket := CloseSocket(s.socket))
  }

  /**
   * The delays of the retries scheduled while a connection keeps failing:
   * the socket closes, the timer fires and a new socket is made, `n` times,
   * stopping at the first close that schedules nothing.
   */
  function RetryDelays(s: ConnState, n: nat): seq<nat>
    requires ValidConn(s)
    decreases n
  {
    if n == 0 then []
    else
      var closed := CloseStep(s);
      if closed.timer.None? then []
      else [closed.timer.value] + RetryDelays(TimerStep(closed, true), n - 1)
  }

  /**
   * From a counter of a, consecutive failures schedule at most 5 - a
   * retries, the i-th after BackoffDelay(a + i), and exactly 5 - a of them
   * when there are enough failures.
   */
  lemma {:induction false} RetrySchedule(s: ConnState, n: nat)
    requires ValidConn(s)
    ensures |RetryDelays(s, n)| == if n < MaxAttempts - s.attempts then n else MaxAttempts - s.attempts
    ensures forall i :: 0 <= i < |RetryDelays(s, n)| ==> RetryDelays(s, n)[i] == BackoffDelay(s.attempts + i)
    decreases n
  {
    if n > 0 {
      var closed := CloseStep(s);
      if closed.timer.Some? {
        var next := TimerStep(closed, true);
        RetrySchedule(next, n - 1);
        var rest := RetryDelays(next, n - 1);
        assert RetryDelays(s, n) == [BackoffDelay(s.attempts)] + rest;
        forall i | 0 < i < |RetryDelays(s, n)| ensures RetryDelays(s, n)[i] == BackoffDelay(s.attempts + i) {
          assert RetryDelays(s, n)[i] == rest[i - 1];
        }
      }
    }
  }

  /** From a fresh counter the retries wait 1, 2, 4, 8 and 16 seconds, and there are no more. */
  lemma FreshRetrySchedule(s: ConnState, n: nat)
    requires ValidConn(s) && s.attempts == 0 && n >= MaxAttempts
    ensures RetryDelays(s, n) == [1000, 2000, 4000, 8000, 16000]
  {
    RetrySchedule(s, n);
    var r := RetryDelays(s, n);
    assert r[0] == BackoffDelay(0) && r[1] == BackoffDelay(1) && r[2] == BackoffDelay(2);
    assert r[3] == BackoffDelay(3) && r[4] == BackoffDelay(4);
  }

  /** After disconnect, a close schedules no retry; after an unmount it still does while attempts < 5. */
  lemma DisconnectStopsRetries(s: ConnState)
    requires ValidConn(s)
    ensures CloseStep(DisconnectStep(s)).timer.None?
    ensures s.attempts < MaxAttempts ==> CloseStep(UnmountStep(s)).timer == Some(BackoffDelay(s.attempts))
  {
  }

  /** The inbound type mapping (line 68): "message" is a text message, every other tag a file. */
  function MessageTypeOf(tag: string): (t: MessageType)
    ensures t == Text <==> tag == "message"
  {
    if tag == "message" then Text else File
  }

  /**
   * An inbound WebSocket event: a parsed envelope, or a dropped frame, which
   * is text JSON.parse rejects or JSON `null`, whose `data.type` throws inside
   * the same try (lines 64-76). Other parsed values are not envelopes the hub
   * sends and are not modelled.
   */
  datatype Inbound = Received(envelope: Envelope) | Malformed

  /** `onmessage` (lines 63-77): the Message handed to the callback, or None for a malformed frame. */
  function DecodeInbound(raw: Inbound): (r: Option<Message>)
    ensures raw.Malformed? <==> r.None?
    ensures raw.Received? ==>
      var e := raw.envelope;
      r.value == Message(e.id, e.userId, e.content, MessageTypeOf(e.tag), e.fileData, e.timestamp)
  {
    match raw
    case Malformed => None
    case Received(e) => Some(Message(e.id, e.userId, e.content, MessageTypeOf(e.tag), e.fileData, e.timestamp))
  }

  /** Every client decodes the hub's envelope of a well-formed message back to that message. */
  lemma BroadcastRoundTrip(m: Message)
    requires WellFormedMessage(m)
    ensures DecodeInbound(Received(Hub.EnvelopeOf(m))) == Some(m)
  {
  }

  class WebSocketClient {
    var socket: Option<SocketState>
    var attempts: int
    var isConnected: bool
    var timer: Option<nat>
    /** whether onMessage has registered a callback */
    var hasCallback: bool
    /** the frames written to the socket so far */
    var sent: seq<Frame>

    function State(): ConnState
      reads this
    {
      ConnState(socket, attempts, isConnected, timer)
    }

    predicate Valid()
      reads this
    {
      ValidConn(State())
    }

    /** The hook's first render (lines 30-34): no socket, not connected, counter 0. */
    constructor ()
      ensures Valid()
      ensures socket == None && !isConnected && attempts == 0 && timer == None
      ensures !hasCallback && sent == []
    {
      socket, attempts, isConnected, timer := None, 0, false, None;
      hasCallback, sent := false, [];
    }

    /** The mount effect's connect() (line 89); `constructed` is whether `new WebSocket(url)` returns. */
    method Mount(constructed: bool)
      requires Valid() && socket == None
      modifies this
      ensures Valid()
      ensures State() == ConnectStep(old(State()), constructed)
      ensures hasCallback == old(hasCallback) && sent == old(sent)
    {
      if constructed {
        socket := Some(Connecting);
      } else {
        isConnected := false;
      }
    }

    method OnOpen()
      requires Valid() && socket == Some(Connecting)
      modifies this
      ensures Valid()
      ensures State() == OpenStep(old(State()))
      ensures hasCallback == old(hasCallback) && sent == old(sent)
    {
      isConnected := true;
      attempts := 0;
      socket := Some(Open);
    }

    method OnClose()
      requires Valid() && socket.Some? && socket != Some(Closed)
      modifies this
      ensures Valid()
      ensures State() == CloseStep(old(State()))
      ensures hasCallback == old(hasCallback) && sent == old(sent)
    {
      isConnected := false;
      socket := Some(Closed);
      if attempts < MaxAttempts {
        timer := Some(BackoffDelay(attempts));
      }
    }

    method FireTimer(constructed: bool)
      requires Valid() && timer.Some?
      modifies this
      ensures Valid()
      ensures State() == TimerStep(old(State()), constructed)
      ensures hasCallback == old(hasCallback) && sent == old(sent)
    {
      timer := None;
      attempts := attempts + 1;
      if socket != Some(Open) {
        if constructed {
          socket := Some(Connecting);
        } else {
          isConnected := false;
        }
      }
    }

    /** `sendMessage` (lines 101-111): one chat frame when the socket is OPEN, nothing otherwise. */
    method SendMessage(userId: string, content: string)
      modifies this`sent
      ensures sent == if socket == Some(Open) then old(sent) + [ChatFrame(userId, content)] else old(sent)
    {
      if socket == Some(Open) {
        sent := sent + [ChatFrame(userId, content)];
      }
    }

    /** `sendFile` (lines 113-126): one file frame when the socket is OPEN, nothing otherwise. */
    method SendFile(userId: string, fileName: string, fileType: string, fileSize: int, data: string)
      modifies this`sent
      ensures sent == if socket == Some(Open)
        then old(sent) + [FileFrame(userId, fileName, fileType, fileSize, data)]
        else old(sent)
    {
      if socket == Some(Open) {
        sent := sent + [FileFrame(userId, fileName, fileType, fileSize, data)];
      }
    }

    /** `onMessage` (lines 128-130): register the callback. */
    method RegisterCallback()
      modifies this`hasCallback
      ensures hasCallback
    {
      hasCallback := true;
    }

    /** An inbound event: the Message passed to the callback, if any. */
    method OnMessage(raw: Inbound) returns (delivered: Option<Message>)
      ensures delivered.Some? <==> hasCallback && raw.Received?
      ensures delivered.Some? ==> Some(delivered.value) == DecodeInbound(raw)
    {
      var decoded := DecodeInbound(raw);
      delivered := if hasCallback then decoded else None;
    }

    method Disconnect()
      requires Valid()
      modifies this
      ensures Valid()
      ensures State() == DisconnectStep(old(State()))
      ensures hasCallback == old(hasCallback) && sent == old(sent)
    {
      timer := None;
      attempts := MaxAttempts;
      socket := CloseSocket(socket);
    }

    method Unmount()
      requires Valid()
      modifies this
      ensures Valid()
      ensures State() == UnmountStep(old(State()))
      ensures hasCallback == old(hasCallback) && sent == old(sent)
    {
      timer := None;
      socket := CloseSocket(socket);
    }
  }
}
