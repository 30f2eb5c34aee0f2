/** The records that travel between the parts of the pipeline: the intents a
    WebSocket node produces onto the log topics, and the fanout events the
    consumers publish on the pub/sub channels. */
module Events {
  import opened Common
  import opened Store

  /** The log topics and their dead-letter topics. */
  const MessagesTopic := "chat.messages"
  const MessagesDlqTopic := "chat.messages.dlq"
  const ReadReceiptsTopic := "chat.read-receipts"
  const ReadReceiptsDlqTopic := "chat.read-receipts.dlq"

  /** A send intent, as produced onto "chat.messages". The body is a nullable
      `String` that only the database's not-null column rejects: None stands
      for a record without one. */
  datatype ChatMessageEvent = ChatMessageEvent(
    chatId: ChatId,
    senderId: UserId,
    body: Option<string>,
    clientMessageId: Option<string>,
    timestampMillis: int)

  /** A mark-read intent, as produced onto "chat.read-receipts". The timestamp
      is a boxed `Long` that the consumer unboxes only after the receipts are
      stamped, so a record without one is still applied: None stands for it. */
  datatype ReadReceiptEvent = ReadReceiptEvent(
    chatId: ChatId,
    userId: UserId,
    messageIds: seq<MessageId>,
    timestampMillis: Option<int>)

  datatype NewMessageFanoutEvent = NewMessageFanoutEvent(
    messageId: MessageId,
    chatId: ChatId,
    senderId: UserId,
    body: string,
    createdAt: Time)

  datatype ReadReceiptFanoutEvent = ReadReceiptFanoutEvent(
    chatId: ChatId,
    readerId: UserId,
    messageIds: seq<MessageId>,
    readAt: Time)

  datatype MessageStatusFanoutEvent = MessageStatusFanoutEvent(
    messageId: MessageId,
    chatId: ChatId,
    userId: UserId,
    status: string)

  datatype FanoutEvent =
    | NewMessage(newMessage: NewMessageFanoutEvent)
    | ReadReceipt(readReceipt: ReadReceiptFanoutEvent)
    | MessageStatus(messageStatus: MessageStatusFanoutEvent)

  /** The pub/sub channels. */
  const ChannelNewMessage := "ws.fanout.messages"
  const ChannelReadReceipt := "ws.fanout.read-receipts"
  const ChannelMessageStatus := "ws.fanout.message-status"

  /** The channels the fanout subscriber is registered for. */
  const SubscribedChannels: set<string> := {ChannelNewMessage, ChannelReadReceipt, ChannelMessageStatus}

  /** The channel the publisher sends each kind of event on. */
  function ChannelOf(e: FanoutEvent): (c: string)
    ensures c in SubscribedChannels
  {
    match e
    case NewMessage(_) => ChannelNewMessage
    case ReadReceipt(_) => ChannelReadReceipt
    case MessageStatus(_) => ChannelMessageStatus
  }

  /** The outcome of one publish: the event reached the bus; or serialising it
      failed, which the publisher logs and swallows; or the bus call threw. */
  datatype PublishOutcome = Sent | Dropped | Raised(error: string)

  /** An entry of the fanout log: a channel and the event sent on it. */
  datatype Published = Published(channel: string, event: FanoutEvent)

  /** Every subscribed channel carries some kind of event, and different kinds
      of event go to different channels. */
  lemma ChannelsMatchSubscriptions()
    ensures forall c :: c in SubscribedChannels <==> exists e :: ChannelOf(e) == c
    ensures forall e1, e2 :: ChannelOf(e1) == ChannelOf(e2) ==>
      (e1.NewMessage? && e2.NewMessage?) || (e1.ReadReceipt? && e2.ReadReceipt?) || (e1.MessageStatus? && e2.MessageStatus?)
  {
    var n := NewMessage(NewMessageFanoutEvent(0, 0, 0, "", 0));
    var r := ReadReceipt(ReadReceiptFanoutEvent(0, 0, [], 0));
    var s := MessageStatus(MessageStatusFanoutEvent(0, 0, 0, ""));
    assert ChannelOf(n) == ChannelNewMessage && ChannelOf(r) == ChannelReadReceipt && ChannelOf(s) == ChannelMessageStatus;
  }
}
