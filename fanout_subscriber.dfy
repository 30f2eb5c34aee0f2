/** The pub/sub listener of a WebSocket node: the channel of a fanout message
    selects the broadcast it is handed to, once its body is decoded. */
module FanoutSubscriber {
  import opened Common
  import opened Events

  /** The broadcast a channel is routed to. */
  datatype Route = ToNewMessage | ToReadReceipt | ToMessageStatus

  /** The switch on the channel name; any other channel is only logged. */
  function RouteFor(channel: string): (r: Option<Route>)
    ensures r.Some? <==> channel in SubscribedChannels
  {
    if channel == ChannelNewMessage then Some(ToNewMessage)
    else if channel == ChannelReadReceipt then Some(ToReadReceipt)
    else if channel == ChannelMessageStatus then Some(ToMessageStatus)
    else None
  }

  /** The route of the channel an event is published on. */
  function RouteOf(e: FanoutEvent): Route {
    match e
    case NewMessage(_) => ToNewMessage
    case ReadReceipt(_) => ToReadReceipt
    case MessageStatus(_) => ToMessageStatus
  }

  /** Every published event is routed to the broadcast for its own kind. */
  lemma PublishedEventsAreRouted(e: FanoutEvent)
    ensures RouteFor(ChannelOf(e)) == Some(RouteOf(e))
  {
  }

  /** The JSON decoders for the three bodies; a body that does not decode is None. */
  datatype Decoders = Decoders(
    newMessage: string -> Option<NewMessageFanoutEvent>,
    readReceipt: string -> Option<ReadReceiptFanoutEvent>,
    messageStatus: string -> Option<MessageStatusFanoutEvent>)

  /** What `onMessage` does with one pub/sub message: hand the decoded event to
      one broadcast, or nothing (unknown channel, or a body that does not decode,
      which is caught and logged). */
  datatype Dispatch =
    | BroadcastNewMessage(newMessage: NewMessageFanoutEvent)
    | BroadcastReadReceipt(readReceipt: ReadReceiptFanoutEvent)
    | BroadcastMessageStatus(messageStatus: MessageStatusFanoutEvent)
    | NoBroadcast

  function OnMessage(channel: string, body: string, decoders: Decoders): (d: Dispatch)
    ensures channel !in SubscribedChannels ==> d == NoBroadcast
    ensures d.BroadcastNewMessage? ==> channel == ChannelNewMessage && decoders.newMessage(body) == Some(d.newMessage)
    ensures d.BroadcastReadReceipt? ==> channel == ChannelReadReceipt && decoders.readReceipt(body) == Some(d.readReceipt)
    ensures d.BroadcastMessageStatus? ==> channel == ChannelMessageStatus && decoders.messageStatus(body) == Some(d.messageStatus)
  {
    match RouteFor(channel)
    case None => NoBroadcast
    case Some(ToNewMessage) =>
      (match decoders.newMessage(body) case Some(e) => BroadcastNewMessage(e) case None => NoBroadcast)
    case Some(ToReadReceipt) =>
      (match decoders.readReceipt(body) case Some(e) => BroadcastReadReceipt(e) case None => NoBroadcast)
    case Some(ToMessageStatus) =>
      (match decoders.messageStatus(body) case Some(e) => BroadcastMessageStatus(e) case None => NoBroadcast)
  }

  /** The body a decoder reads back into the event it was written from. */
  ghost predicate Encodes(decoders: Decoders, e: FanoutEvent, body: string) {
    match e
    case NewMessage(n) => decoders.newMessage(body) == Some(n)
    case ReadReceipt(r) => decoders.readReceipt(body) == Some(r)
    case MessageStatus(s) => decoders.messageStatus(body) == Some(s)
  }

  /** An event published on its channel, with a body that decodes back to it,
      reaches exactly the broadcast for its kind, carrying the same event. */
  lemma PublishedEventReachesItsBroadcast(e: FanoutEvent, body: string, decoders: Decoders)
    requires Encodes(decoders, e, body)
    ensures var d := OnMessage(ChannelOf(e), body, decoders);
      match e
      case NewMessage(n) => d == BroadcastNewMessage(n)
      case ReadReceipt(r) => d == BroadcastReadReceipt(r)
      case MessageStatus(s) => d == BroadcastMessageStatus(s)
  {
  }
}
