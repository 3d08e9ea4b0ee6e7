/**
 * The WebSocket wire protocol between the chat client and the hub, after
 * JSON parsing: the frames a client sends (frontend useWebSocket.ts
 * sendMessage/sendFile, read by backend/src/websocket/server.ts) and the
 * envelope the hub broadcasts back.
 */
module Wire {
  import opened Wrappers
  import opened Types

  /** An inbound frame as the hub's dispatch on `payload.type` sees it. */
  datatype Frame =
    | ChatFrame(userId: string, content: string)
    | FileFrame(userId: string, fileName: string, fileType: string, fileSize: int, data: string)
      /** parsed, but `type` is neither "chat" nor "file" (or absent) */
    | OtherFrame
      /** JSON.parse threw, or the parsed value was null so reading `.type` threw */
    | Unparseable

  /** The broadcast record; `tag` is the message type's string value. */
  datatype Envelope = Envelope(
    id: string,
    userId: string,
    content: string,
    tag: string,
    fileData: Option<FileData>,
    timestamp: int)

  /** The string values of the MessageType enum (common/src/types/message.ts:1-4). */
  function TypeTag(t: MessageType): (tag: string)
    ensures tag == "message" <==> t == Text
    ensures t == File ==> tag == "file"
  {
    match t
    case Text => "message"
    case File => "file"
  }
}
