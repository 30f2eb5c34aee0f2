/** The two log consumers. Each record is decoded, applied to the store through
    the message service, and announced on the fanout bus; a record that fails at
    any step is counted and forwarded, verbatim, to its dead-letter topic.

    The JSON decoder and the outcome of each bus publish are parameters: the
    decoder returns the event or the message of the parse exception, and the
    bus says, per event, whether it was sent, dropped because it could not be
    serialised, or raised an exception. */
module Consumers {
  import opened Common
  import opened Store
  import opened MessageService
  import opened ChatService
  import opened Events

  /** The wrapper record sent to a dead-letter topic. The record key is always
      null here. */
  datatype DeadLetter = DeadLetter(
    dlqTopic: string,
    originalTopic: string,
    originalKey: Option<string>,
    originalPayload: string,
    errorMessage: string)

  /** What one record does: the store after it, the entries added to the fanout
      log, in order, and the error that sends the record to the dead-letter
      topic, if any. */
  datatype Outcome = Outcome(db: Db, published: seq<Published>, error: Option<string>)

  /** The fanout log entries one publish adds: one when the event is sent, none
      when it is dropped or the bus raises. */
  function PublishEntries(e: FanoutEvent, outcome: PublishOutcome): (r: seq<Published>)
    ensures |r| <= 1
    ensures r != [] <==> outcome.Sent?
    ensures forall p :: p in r ==> p.event == e && p.channel == ChannelOf(e)
  {
    if outcome.Sent? then [Published(ChannelOf(e), e)] else []
  }

  /** The status event for the sender of a stored message. */
  function DeliveredStatus(m: Message): FanoutEvent {
    MessageStatus(MessageStatusFanoutEvent(m.id, m.chatId, m.senderId, "DELIVERED"))
  }

  /** The fanout event announcing a stored message. */
  function NewMessageEvent(m: Message): FanoutEvent {
    NewMessage(NewMessageFanoutEvent(m.id, m.chatId, m.senderId, m.body, m.createdAt))
  }

  /** The fanout event announcing a read intent; the read time is the intent's
      own timestamp. */
  function ReadReceiptEventOf(ev: ReadReceiptEvent, readAt: Time): FanoutEvent {
    ReadReceipt(ReadReceiptFanoutEvent(ev.chatId, ev.userId, ev.messageIds, readAt))
  }

  /** The message of the exception the JVM raises when a read intent without a
      timestamp is unboxed. */
  const NullTimestamp := "Cannot invoke \"java.lang.Long.longValue()\" because the return value of "
                         + "\"com.punith.chat.messaging.ReadReceiptEvent.timestampMillis()\" is null"

  /** One record of "chat.messages": decode, sendMessage, then the DELIVERED
      status, then the new-message fanout. The store write is committed by then,
      so a failing publish does not undo it. This is the specification of
      `ChatMessageConsumer.Consume`. */
  function ChatMessageOutcome(db: Db, value: string, decode: string -> Result<ChatMessageEvent>, now: Time,
                              bus: FanoutEvent -> PublishOutcome): Outcome
    requires Valid(db)
  {
    match decode(value)
    case Err(e) => Outcome(db, [], Some(e))
    case Ok(ev) => ChatMessageEventOutcome(db, ev, now, bus)
  }

  /** A decoded chat message: sendMessage, then the DELIVERED status, then the
      new-message fanout. */
  function ChatMessageEventOutcome(db: Db, ev: ChatMessageEvent, now: Time, bus: FanoutEvent -> PublishOutcome): Outcome
    requires Valid(db)
  {
    match SendMessageResult(db, ev.senderId, ev.chatId, ev.body, ev.clientMessageId, now)
    case Err(e) => Outcome(db, [], Some(e))
    case Ok((db', m)) => AnnounceOutcome(db', m, bus)
  }

  /** A stored message: the DELIVERED status, then the new-message fanout. The
      store write is committed by then, so a failing publish keeps it. */
  function AnnounceOutcome(db: Db, m: Message, bus: FanoutEvent -> PublishOutcome): Outcome {
    var status := DeliveredStatus(m);
    var fan := NewMessageEvent(m);
    if bus(status).Raised? then Outcome(db, [], Some(bus(status).error))
    else if bus(fan).Raised? then Outcome(db, PublishEntries(status, bus(status)), Some(bus(fan).error))
    else Outcome(db, PublishEntries(status, bus(status)) + PublishEntries(fan, bus(fan)), None)
  }

  /** One record of "chat.read-receipts": decode, markMessagesAsRead, then the
      read-receipt fanout. This is the specification of
      `ReadReceiptConsumer.Consume`. */
  function ReadReceiptOutcome(db: Db, value: string, decode: string -> Result<ReadReceiptEvent>, now: Time,
                              bus: FanoutEvent -> PublishOutcome): Outcome
    requires Valid(db)
  {
    match decode(value)
    case Err(e) => Outcome(db, [], Some(e))
    case Ok(ev) => ReadReceiptEventOutcome(db, ev, now, bus)
  }

  /** A decoded read intent: markMessagesAsRead, then the read-receipt fanout. */
  function ReadReceiptEventOutcome(db: Db, ev: ReadReceiptEvent, now: Time, bus: FanoutEvent -> PublishOutcome): Outcome
    requires Valid(db)
  {
    match MarkMessagesAsReadResult(db, ev.userId, ev.chatId, ev.messageIds, now)
    case Err(e) => Outcome(db, [], Some(e))
    case Ok(db') => ReadAnnounceOutcome(db', ev, bus)
  }

  /** The read-receipt fanout after the receipts are committed. An intent
      without a timestamp fails when the time is unboxed, and the committed
      receipts stay stamped. */
  function ReadAnnounceOutcome(db: Db, ev: ReadReceiptEvent, bus: FanoutEvent -> PublishOutcome): Outcome {
    match ev.timestampMillis
    case None => Outcome(db, [], Some(NullTimestamp))
    case Some(readAt) =>
      var fan := ReadReceiptEventOf(ev, readAt);
      if bus(fan).Raised? then Outcome(db, [], Some(bus(fan).error))
      else Outcome(db, PublishEntries(fan, bus(fan)), None)
  }

  class ChatMessageConsumer {
    /** The store the message service writes. */
    var store: Db
    var processed: nat
    var failed: nat
    /** What this consumer sent on the fanout bus, oldest first. */
    var published: seq<Published>
    /** What this consumer sent to the dead-letter topic, oldest first. */
    var deadLetters: seq<DeadLetter>

    ghost predicate Valid()
      reads this
    {
      Store.Valid(store)
    }

    constructor(store: Db)
      requires Store.Valid(store)
      ensures Valid()
      ensures this.store == store && processed == 0 && failed == 0 && published == [] && deadLetters == []
    {
      this.store := store;
      processed := 0;
      failed := 0;
      published := [];
      deadLetters := [];
    }

    /** consume: a record that goes through counts as processed; any exception
        counts as failed and forwards the record to "chat.messages.dlq". */
    method Consume(value: string, decode: string -> Result<ChatMessageEvent>, now: Time, bus: FanoutEvent -> PublishOutcome)
      requires Valid()
      modifies this
      ensures Valid()
      ensures var o := ChatMessageOutcome(old(store), value, decode, now, bus);
        && store == o.db
        && published == old(published) + o.published
        && (o.error.None? ==>
              processed == old(processed) + 1 && failed == old(failed) && deadLetters == old(deadLetters))
        && (o.error.Some? ==>
              processed == old(processed) && failed == old(failed) + 1
              && deadLetters == old(deadLetters) + [DeadLetter(MessagesDlqTopic, MessagesTopic, None, value, o.error.value)])
    {
      var decoded := decode(value);
      if decoded.Err? {
        SendToDlq(value, decoded.error);
        return;
      }
      Deliver(value, decoded.value, now, bus);
    }

    /** The try block once the record is decoded. */
    method Deliver(value: string, ev: ChatMessageEvent, now: Time, bus: FanoutEvent -> PublishOutcome)
      requires Valid()
      modifies this
      ensures Valid()
      ensures var o := ChatMessageEventOutcome(old(store), ev, now, bus);
        && store == o.db
        && published == old(published) + o.published
        && (o.error.None? ==>
              processed == old(processed) + 1 && failed == old(failed) && deadLetters == old(deadLetters))
        && (o.error.Some? ==>
              processed == old(processed) && failed == old(failed) + 1
              && deadLetters == old(deadLetters) + [DeadLetter(MessagesDlqTopic, MessagesTopic, None, value, o.error.value)])
    {
      var sent := SendMessage(store, ev.senderId, ev.chatId, ev.body, ev.clientMessageId, now);
      if sent.Err? {
        SendToDlq(value, sent.error);
        return;
      }
      store := sent.value.0;
      Announce(value, sent.value.1, bus);
    }

    /** The two publishes after the store write. */
    method Announce(value: string, m: Message, bus: FanoutEvent -> PublishOutcome)
      modifies this
      ensures var o := AnnounceOutcome(old(store), m, bus);
        && store == old(store)
        && published == old(published) + o.published
        && (o.error.None? ==>
              processed == old(processed) + 1 && failed == old(failed) && deadLetters == old(deadLetters))
        && (o.error.Some? ==>
              processed == old(processed) && failed == old(failed) + 1
              && deadLetters == old(deadLetters) + [DeadLetter(MessagesDlqTopic, MessagesTopic, None, value, o.error.value)])
    {
      var err := Publish(DeliveredStatus(m), bus);
      if err.Some? {
        SendToDlq(value, err.value);
        return;
      }
      err := Publish(NewMessageEvent(m), bus);
      if err.Some? {
        SendToDlq(value, err.value);
        return;
      }
      processed := processed + 1;
    }

    /** publish: the event joins the log when it is sent; an exception of the
        bus is handed back. */
    method Publish(e: FanoutEvent, bus: FanoutEvent -> PublishOutcome) returns (err: Option<string>)
      modifies this
      ensures published == old(published) + PublishEntries(e, bus(e))
      ensures err == (if bus(e).Raised? then Some(bus(e).error) else None)
      ensures store == old(store) && processed == old(processed) && failed == old(failed) && deadLetters == old(deadLetters)
    {
      var outcome := bus(e);
      if outcome.Sent? {
        published := published + [Published(ChannelOf(e), e)];
      }
      err := if outcome.Raised? then Some(outcome.error) else None;
    }

    /** The catch block: count the failure and forward the record. */
    method SendToDlq(value: string, error: string)
      modifies this
      ensures failed == old(failed) + 1
      ensures deadLetters == old(deadLetters) + [DeadLetter(MessagesDlqTopic, MessagesTopic, None, value, error)]
      ensures store == old(store) && processed == old(processed) && published == old(published)
    {
      failed := failed + 1;
      deadLetters := deadLetters + [DeadLetter(MessagesDlqTopic, MessagesTopic, None, value, error)];
    }
  }

  class ReadReceiptConsumer {
    /** The store the message service writes. */
    var store: Db
    var processed: nat
    var failed: nat
    var published: seq<Published>
    var deadLetters: seq<DeadLetter>

    ghost predicate Valid()
      reads this
    {
      Store.Valid(store)
    }

    constructor(store: Db)
      requires Store.Valid(store)
      ensures Valid()
      ensures this.store == store && processed == 0 && failed == 0 && published == [] && deadLetters == []
    {
      this.store := store;
      processed := 0;
      failed := 0;
      published := [];
      deadLetters := [];
    }

    /** consume: a record that goes through counts as processed; any exception
        counts as failed and forwards the record to "chat.read-receipts.dlq". */
    method Consume(value: string, decode: string -> Result<ReadReceiptEvent>, now: Time, bus: FanoutEvent -> PublishOutcome)
      requires Valid()
      modifies this
      ensures Valid()
      ensures var o := ReadReceiptOutcome(old(store), value, decode, now, bus);
        && store == o.db
        && published == old(published) + o.published
        && (o.error.None? ==>
              processed == old(processed) + 1 && failed == old(failed) && deadLetters == old(deadLetters))
        && (o.error.Some? ==>
              processed == old(processed) && failed == old(failed) + 1
              && deadLetters == old(deadLetters) + [DeadLetter(ReadReceiptsDlqTopic, ReadReceiptsTopic, None, value, o.error.value)])
    {
      var decoded := decode(value);
      if decoded.Err? {
        SendToDlq(value, decoded.error);
        return;
      }
      Deliver(value, decoded.value, now, bus);
    }

    /** The try block once the record is decoded. */
    method Deliver(value: string, ev: ReadReceiptEvent, now: Time, bus: FanoutEvent -> PublishOutcome)
      requires Valid()
      modifies this
      ensures Valid()
      ensures var o := ReadReceiptEventOutcome(old(store), ev, now, bus);
        && store == o.db
        && published == old(published) + o.published
        && (o.error.None? ==>
              processed == old(processed) + 1 && failed == old(failed) && deadLetters == old(deadLetters))
        && (o.error.Some? ==>
              processed == old(processed) && failed == old(failed) + 1
              && deadLetters == old(deadLetters) + [DeadLetter(ReadReceiptsDlqTopic, ReadReceiptsTopic, None, value, o.error.value)])
    {
      var marked := MarkMessagesAsRead(store, ev.userId, ev.chatId, ev.messageIds, now);
      if marked.Err? {
        SendToDlq(value, marked.error);
        return;
      }
      store := marked.value;
      Announce(value, ev, bus);
    }

    /** The read-receipt publish after the store write. */
    method Announce(value: string, ev: ReadReceiptEvent, bus: FanoutEvent -> PublishOutcome)
      modifies this
      ensures var o := ReadAnnounceOutcome(old(store), ev, bus);
        && store == old(store)
        && published == old(published) + o.published
        && (o.error.None? ==>
              processed == old(processed) + 1 && failed == old(failed) && deadLetters == old(deadLetters))
        && (o.error.Some? ==>
              processed == old(processed) && failed == old(failed) + 1
              && deadLetters == old(deadLetters) + [DeadLetter(ReadReceiptsDlqTopic, ReadReceiptsTopic, None, value, o.error.value)])
    {
      if ev.timestampMillis.None? {
        SendToDlq(value, NullTimestamp);
        return;
      }
      var fan := ReadReceiptEventOf(ev, ev.timestampMillis.value);
      var outcome := bus(fan);
      if outcome.Raised? {
        SendToDlq(value, outcome.error);
        return;
      }
      if outcome.Sent? {
        published := published + [Published(ChannelOf(fan), fan)];
      }
      processed := processed + 1;
    }

    /** The catch block: count the failure and forward the record. */
    method SendToDlq(value: string, error: string)
      modifies this
      ensures failed == old(failed) + 1
      ensures deadLetters == old(deadLetters) + [DeadLetter(ReadReceiptsDlqTopic, ReadReceiptsTopic, None, value, error)]
      ensures store == old(store) && processed == old(processed) && published == old(published)
    {
      failed := failed + 1;
      deadLetters := deadLetters + [DeadLetter(ReadReceiptsDlqTopic, ReadReceiptsTopic, None, value, error)];
    }
  }

  /** A stored message of the record's chat is announced twice, in this order:
      the DELIVERED status to the stored message's sender, then the message
      itself, both naming the same message and chat. When both are sent, the log
      gains exactly these two entries. */
  lemma ChatMessageAnnounced(db: Db, value: string, decode: string -> Result<ChatMessageEvent>, now: Time,
                             bus: FanoutEvent -> PublishOutcome)
    requires Valid(db)
    requires ChatMessageOutcome(db, value, decode, now, bus).error.None?
    ensures decode(value).Ok?
    ensures var ev := decode(value).value;
      var o := ChatMessageOutcome(db, value, decode, now, bus);
      exists m :: m in o.db.messages && m.chatId == ev.chatId
        && o.published == PublishEntries(DeliveredStatus(m), bus(DeliveredStatus(m)))
                          + PublishEntries(NewMessageEvent(m), bus(NewMessageEvent(m)))
        && (bus(DeliveredStatus(m)).Sent? && bus(NewMessageEvent(m)).Sent? ==>
              o.published == [Published(ChannelMessageStatus, MessageStatus(MessageStatusFanoutEvent(m.id, m.chatId, m.senderId, "DELIVERED"))),
                              Published(ChannelNewMessage, NewMessage(NewMessageFanoutEvent(m.id, m.chatId, m.senderId, m.body, m.createdAt)))])
  {
    var ev := decode(value).value;
    var r := SendMessageResult(db, ev.senderId, ev.chatId, ev.body, ev.clientMessageId, now);
    var (db', m) := r.value;
    if ev.clientMessageId.Some? && FindByClientMessageId(db.messages, ev.chatId, ev.clientMessageId.value).Some? {
      assert m in db'.messages;
    } else {
      assert m == db'.messages[|db.messages|];
    }
  }

  /** A decoded record without a body that passes the membership and sender
      checks: when the chat already holds a message under its client message id,
      that message is announced as for any redelivery; otherwise the INSERT
      fails and the record is dead-lettered with the store untouched, with the
      not-null error unless the client message id is too long. */
  lemma ChatMessageWithoutBody(db: Db, value: string, decode: string -> Result<ChatMessageEvent>, now: Time,
                               bus: FanoutEvent -> PublishOutcome)
    requires Valid(db)
    requires decode(value).Ok? && decode(value).value.body.None?
    requires var ev := decode(value).value;
      GetChatForUserOrThrow(db, ev.chatId, ev.senderId).Ok? && ev.senderId in db.users
    ensures var ev := decode(value).value;
      var o := ChatMessageOutcome(db, value, decode, now, bus);
      if ev.clientMessageId.Some? && FindByClientMessageId(db.messages, ev.chatId, ev.clientMessageId.value).Some? then
        o == AnnounceOutcome(db, FindByClientMessageId(db.messages, ev.chatId, ev.clientMessageId.value).value, bus)
      else
        o.db == db && o.published == []
        && o.error == Some(if ClientIdTooLong(ev.clientMessageId) then ValueTooLong(ClientMessageIdLength) else NullBody)
  {
  }

  /** A redelivered record, once the first delivery stored its message under a
      client message id, changes nothing more and announces the same message
      again, whatever the time of the redelivery. */
  lemma ChatMessageRedelivery(db: Db, value: string, decode: string -> Result<ChatMessageEvent>, now: Time, now2: Time,
                              bus: FanoutEvent -> PublishOutcome)
    requires Valid(db)
    requires decode(value).Ok? && decode(value).value.clientMessageId.Some?
    requires var ev := decode(value).value;
      SendMessageResult(db, ev.senderId, ev.chatId, ev.body, ev.clientMessageId, now).Ok?
    ensures var o1 := ChatMessageOutcome(db, value, decode, now, bus);
      Valid(o1.db) && ChatMessageOutcome(o1.db, value, decode, now2, bus) == o1
  {
    var ev := decode(value).value;
    SendMessageRedelivery(db, ev.senderId, ev.chatId, ev.body, ev.clientMessageId.value, now, ev.body, now2);
    var (db1, m1) := SendMessageResult(db, ev.senderId, ev.chatId, ev.body, ev.clientMessageId, now).value;
    assert ChatMessageOutcome(db, value, decode, now, bus) == AnnounceOutcome(db1, m1, bus);
    assert ChatMessageOutcome(db1, value, decode, now2, bus) == AnnounceOutcome(db1, m1, bus);
  }

  /** The store a chat message leaves behind does not depend on the bus: a
      failing publish does not roll back the message or its receipts. */
  lemma ChatMessageStoreIgnoresBus(db: Db, value: string, decode: string -> Result<ChatMessageEvent>, now: Time,
                                   bus1: FanoutEvent -> PublishOutcome, bus2: FanoutEvent -> PublishOutcome)
    requires Valid(db)
    ensures ChatMessageOutcome(db, value, decode, now, bus1).db == ChatMessageOutcome(db, value, decode, now, bus2).db
  {
  }

  /** The read-receipt fanout carries the intent's chat, reader, ids and
      timestamp, and it, like the error, does not depend on the consumer's
      clock, which only sets the stored read times. */
  lemma ReadReceiptAnnounced(db: Db, value: string, decode: string -> Result<ReadReceiptEvent>, now1: Time, now2: Time,
                             bus: FanoutEvent -> PublishOutcome)
    requires Valid(db)
    ensures var o1 := ReadReceiptOutcome(db, value, decode, now1, bus);
      var o2 := ReadReceiptOutcome(db, value, decode, now2, bus);
      && o1.published == o2.published && o1.error == o2.error
      && (o1.published != [] ==>
            var ev := decode(value).value;
            && ev.timestampMillis.Some?
            && o1.published == [Published(ChannelReadReceipt,
                                          ReadReceipt(ReadReceiptFanoutEvent(ev.chatId, ev.userId, ev.messageIds,
                                                                             ev.timestampMillis.value)))])
  {
  }

  /** A decoded intent without a timestamp that markMessagesAsRead accepts is
      sent to the dead-letter topic and announces nothing, yet its receipts stay
      stamped as markMessagesAsRead left them. */
  lemma ReadReceiptWithoutTimestamp(db: Db, value: string, decode: string -> Result<ReadReceiptEvent>, now: Time,
                                    bus: FanoutEvent -> PublishOutcome)
    requires Valid(db)
    requires decode(value).Ok? && decode(value).value.timestampMillis.None?
    requires var ev := decode(value).value;
      MarkMessagesAsReadResult(db, ev.userId, ev.chatId, ev.messageIds, now).Ok?
    ensures var ev := decode(value).value;
      ReadReceiptOutcome(db, value, decode, now, bus)
      == Outcome(MarkMessagesAsReadResult(db, ev.userId, ev.chatId, ev.messageIds, now).value, [], Some(NullTimestamp))
  {
  }

  /** A redelivered read intent, processed with the same clock, sees every
      receipt as the first delivery left it and announces the same event. */
  lemma ReadReceiptRedelivery(db: Db, value: string, decode: string -> Result<ReadReceiptEvent>, now: Time,
                              bus: FanoutEvent -> PublishOutcome)
    requires Valid(db)
    requires ReadReceiptOutcome(db, value, decode, now, bus).error.None?
    ensures var o1 := ReadReceiptOutcome(db, value, decode, now, bus);
      Valid(o1.db)
      && var o2 := ReadReceiptOutcome(o1.db, value, decode, now, bus);
      && o2.error.None? && o2.published == o1.published
      && forall m, v :: ReceiptAt(o2.db.receipts, m, v) == ReceiptAt(o1.db.receipts, m, v)
  {
    var ev := decode(value).value;
    MarkMessagesAsReadAgain(db, ev.userId, ev.chatId, ev.messageIds, now);
  }
}
