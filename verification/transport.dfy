/**
 * The Wearable message channel as both activities see it: inbound messages
 * delivered to `onMessageReceived`, and the requests handed to
 * `MessageClient.sendMessage`. Payload bytes are modelled as their UTF-8
 * decoded text; a `null` payload is the empty text.
 */
module Transport {

  /** A delivered message: its path, its payload and the node it came from. */
  datatype MessageEvent = MessageEvent(path: string, data: string, sourceNodeId: string)

  /** One `sendMessage(targetNodeId, path, data)` request issued to the message client. */
  datatype SentMessage = SentMessage(targetNodeId: string, path: string, data: string)
}
