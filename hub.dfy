/**
 * The hub's per-frame handler, the `ws.on('message')` callback of
 * backend/src/websocket/server.ts:13-80. A chat or file frame becomes a
 * Message with a fresh id and the current time, which is stored and then
 * sent to every client whose socket is OPEN, the sender included. Other
 * frames are ignored, and a frame that fails to parse is logged and
 * dropped; the handler stays installed either way.
 */
module Hub {
  import opened Wrappers
  import opened Types
  import opened Store
  import opened Wire

  /** A connection in `wss.clients`, in iteration order, with whether its readyState is OPEN. */
  datatype Client = Client(clientId: string, isOpen: bool)

  function ClientIds(clients: seq<Client>): (r: seq<string>)
    ensures |r| == |clients| && forall i :: 0 <= i < |clients| ==> r[i] == clients[i].clientId
  {
    seq(|clients|, i requires 0 <= i < |clients| => clients[i].clientId)
  }

  /** One `client.send` of an envelope. */
  datatype Delivery = Delivery(clientId: string, envelope: Envelope)

  /** What the handler does, in order. */
  datatype HubEvent = Stored(message: Message) | Sent(delivery: Delivery)

  /** The Message built for a frame (server.ts:18-24 and 43-55), if the frame carries one. */
  function BuildMessage(frame: Frame, id: string, now: int): (r: Option<Message>)
    ensures r.Some? <==> frame.ChatFrame? || frame.FileFrame?
    ensures r.Some? ==>
      && r.value.id == id && r.value.timestamp == now
      && r.value.userId == frame.userId
      && WellFormedMessage(r.value)
    ensures frame.ChatFrame? ==>
      r.value.content == frame.content && r.value.msgType == Text && r.value.fileData == None
    ensures frame.FileFrame? ==>
      && r.value.content == frame.fileName && r.value.msgType == File
      && r.value.fileData == Some(FileData(frame.fileName, frame.fileType, frame.fileSize, frame.data))
  {
    match frame
    case ChatFrame(userId, content) =>
      Some(Message(id, userId, content, Text, None, now))
    case FileFrame(userId, fileName, fileType, fileSize, data) =>
      Some(Message(id, userId, fileName, File, Some(FileData(fileName, fileType, fileSize, data)), now))
    case _ => None
  }

  /**
   * The envelope broadcast for a stored message (server.ts:29-35, 63-70):
   * the message's fields with its type as a string; only the file branch
   * adds fileData.
   */
  function EnvelopeOf(m: Message): (e: Envelope)
    ensures e.id == m.id && e.userId == m.userId && e.content == m.content && e.timestamp == m.timestamp
    ensures e.tag == TypeTag(m.msgType)
    ensures e.fileData == if m.msgType == File then m.fileData else None
  {
    Envelope(m.id, m.userId, m.content, TypeTag(m.msgType),
             if m.msgType == File then m.fileData else None, m.timestamp)
  }

  /** The sends of `wss.clients.forEach`: one per OPEN client, in client order. */
  function Broadcast(clients: seq<Client>, env: Envelope): (r: seq<Delivery>)
    ensures forall d :: d in r ==> d.envelope == env && Client(d.clientId, true) in clients
  {
    if clients == [] then []
    else
      var c := clients[|clients| - 1];
      assert clients == clients[..|clients| - 1] + [c];
      Broadcast(clients[..|clients| - 1], env) + (if c.isOpen then [Delivery(c.clientId, env)] else [])
  }

  /** How many sends went to `id`. */
  function SendsTo(ds: seq<Delivery>, id: string): nat {
    if ds == [] then 0
    else SendsTo(ds[..|ds| - 1], id) + (if ds[|ds| - 1].clientId == id then 1 else 0)
  }

  lemma {:induction false} SendsToAppend(a: seq<Delivery>, b: seq<Delivery>, id: string)
    ensures SendsTo(a + b, id) == SendsTo(a, id) + SendsTo(b, id)
    decreases |b|
  {
    if b == [] {
      assert a + b == a;
    } else {
      assert (a + b)[..|a + b| - 1] == a + b[..|b| - 1];
      SendsToAppend(a, b[..|b| - 1], id);
    }
  }

  /**
   * Among clients with distinct ids, every OPEN client receives exactly one
   * envelope and every other client none.
   */
  lemma {:induction false} BroadcastExactlyOnce(clients: seq<Client>, env: Envelope, i: nat)
    requires Distinct(ClientIds(clients))
    requires i < |clients|
    ensures SendsTo(Broadcast(clients, env), clients[i].clientId) == if clients[i].isOpen then 1 else 0
    decreases |clients|
  {
    var id := clients[i].clientId;
    var rest, c := clients[..|clients| - 1], clients[|clients| - 1];
    var tail := if c.isOpen then [Delivery(c.clientId, env)] else [];
    SendsToAppend(Broadcast(rest, env), tail, id);
    assert tail != [] ==> tail[..0] == [];
    if i < |clients| - 1 {
      BroadcastExactlyOnce(rest, env, i);
    } else {
      NoSendsTo(rest, env, id);
    }
  }

  /** A client id that is absent from `clients` receives nothing. */
  lemma {:induction false} NoSendsTo(clients: seq<Client>, env: Envelope, id: string)
    requires forall a :: 0 <= a < |clients| ==> clients[a].clientId != id
    ensures SendsTo(Broadcast(clients, env), id) == 0
    decreases |clients|
  {
    if clients != [] {
      var rest, c := clients[..|clients| - 1], clients[|clients| - 1];
      var tail := if c.isOpen then [Delivery(c.clientId, env)] else [];
      SendsToAppend(Broadcast(rest, env), tail, id);
      assert tail != [] ==> tail[..0] == [];
      NoSendsTo(rest, env, id);
    }
  }

  /** Storing the message built for a frame keeps every stored message well formed. */
  lemma BuiltMessageWellFormed(s: StoreState, frame: Frame, id: string, now: int)
    requires MessagesWellFormed(s)
    requires BuildMessage(frame, id, now).Some?
    ensures MessagesWellFormed(PutMessage(s, BuildMessage(frame, id, now).value))
  {
  }

  /** The send loop (server.ts:37-41, 72-76). */
  method SendToOpen(clients: seq<Client>, env: Envelope) returns (sent: seq<Delivery>)
    ensures sent == Broadcast(clients, env)
    ensures forall d :: d in sent ==> d.envelope == env
  {
    sent := [];
    var i := 0;
    while i < |clients|
      invariant 0 <= i <= |clients|
      invariant sent == Broadcast(clients[..i], env)
    {
      assert clients[..i + 1][..i] == clients[..i];
      if clients[i].isOpen {
        sent := sent + [Delivery(clients[i].clientId, env)];
      }
      i := i + 1;
    }
    assert clients[..i] == clients;
  }

  function SentEvents(ds: seq<Delivery>): (r: seq<HubEvent>)
    ensures |r| == |ds| && forall i :: 0 <= i < |ds| ==> r[i] == Sent(ds[i])
  {
    seq(|ds|, i requires 0 <= i < |ds| => Sent(ds[i]))
  }

  /**
   * The handler for one inbound frame. `freshId` is what uuidv4() returns
   * and `now` the time new Date() reads.
   */
  method HandleFrame(store: InMemoryStore, clients: seq<Client>, frame: Frame, freshId: string, now: int)
    returns (events: seq<HubEvent>)
    requires store.Valid()
    modifies store
    ensures store.Valid()
    ensures BuildMessage(frame, freshId, now).None? ==>
      events == [] && store.State() == old(store.State())
    ensures BuildMessage(frame, freshId, now).Some? ==>
      var m := BuildMessage(frame, freshId, now).value;
      && store.State() == PutMessage(old(store.State()), m)
      && events == [Stored(m)] + SentEvents(Broadcast(clients, EnvelopeOf(m)))
    ensures MessagesWellFormed(old(store.State())) ==> MessagesWellFormed(store.State())
  {
    var built := BuildMessage(frame, freshId, now);
    if built.None? {
      // an Unparseable frame is logged, an OtherFrame ignored
      return [];
    }
    var m := built.value;
    store.CreateMessage(m);
    var sent := SendToOpen(clients, EnvelopeOf(m));
    events := [Stored(m)] + SentEvents(sent);
  }
}
