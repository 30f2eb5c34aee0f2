/** Message storage rules: idempotent sends, one delivery receipt per
    participant, monotonic read timestamps, and the unread and summary queries. */
module MessageService {
  import opened Common
  import opened Store
  import opened ChatService
  import opened Queries
  import opened IsoTime

  function MessageNotFound(messageId: MessageId): string {
    "Message not found: " + LongToString(messageId)
  }

  function NotInChat(messageId: MessageId, chatId: ChatId): string {
    "Message " + LongToString(messageId) + " not in chat " + LongToString(chatId)
  }

  /** `MessageRepository.findByChatIdAndClientMessageId`. */
  function FindByClientMessageId(ms: seq<Message>, chatId: ChatId, clientMessageId: string): (r: Option<Message>)
    ensures r.Some? ==> r.value in ms && r.value.chatId == chatId && r.value.clientMessageId == Some(clientMessageId)
    ensures r.None? ==> forall m :: m in ms ==> !(m.chatId == chatId && m.clientMessageId == Some(clientMessageId))
  {
    if ms == [] then None
    else if ms[0].chatId == chatId && ms[0].clientMessageId == Some(clientMessageId) then Some(ms[0])
    else FindByClientMessageId(ms[1..], chatId, clientMessageId)
  }

  /** Under uk_chat_client_msg_id the message found is the only one with that key. */
  lemma {:induction false} FindByClientMessageIdUnique(ms: seq<Message>, chatId: ChatId, clientMessageId: string, k: nat)
    requires UniqueClientMessageIds(ms)
    requires k < |ms| && ms[k].chatId == chatId && ms[k].clientMessageId == Some(clientMessageId)
    ensures FindByClientMessageId(ms, chatId, clientMessageId) == Some(ms[k])
  {
    if k > 0 {
      assert (ms[0].chatId, ms[0].clientMessageId) != (chatId, Some(clientMessageId));
      assert UniqueClientMessageIds(ms[1..]) by {
        forall i, j | 0 <= i < j < |ms[1..]| && ms[1..][i].chatId == ms[1..][j].chatId && ms[1..][i].clientMessageId.Some?
          ensures ms[1..][i].clientMessageId != ms[1..][j].clientMessageId
        {
          assert ms[1..][i] == ms[i + 1] && ms[1..][j] == ms[j + 1];
        }
      }
      FindByClientMessageIdUnique(ms[1..], chatId, clientMessageId, k - 1);
    }
  }

  /** The receipts saved with a new message: one per participant row, delivered
      at `now`, not read. */
  function DeliveryReceipts(messageId: MessageId, ps: seq<Participant>, now: Time): seq<Receipt> {
    seq(|ps|, i requires 0 <= i < |ps| => Receipt(messageId, ps[i].userId, Some(now), None))
  }

  ghost predicate DistinctUsers(ps: seq<Participant>) {
    forall i, j :: 0 <= i < j < |ps| ==> ps[i].userId != ps[j].userId
  }

  /** The rows of one chat name every user at most once. */
  lemma {:induction false} ParticipantsOfDistinctUsers(ps: seq<Participant>, chatId: ChatId)
    requires UniqueParticipants(ps)
    ensures DistinctUsers(ParticipantsOf(ps, chatId))
  {
    if ps != [] {
      UniqueParticipantsTail(ps);
      ParticipantsOfDistinctUsers(ps[1..], chatId);
      var rest := ParticipantsOf(ps[1..], chatId);
      if ps[0].chatId == chatId {
        forall j | 0 <= j < |rest| ensures ps[0].userId != rest[j].userId {
          assert rest[j] in rest;
          HeadNotRepeated(ps, rest[j]);
        }
        DistinctUsersCons(ps[0], rest);
      }
    }
  }

  lemma DistinctUsersCons(x: Participant, rest: seq<Participant>)
    requires DistinctUsers(rest)
    requires forall j :: 0 <= j < |rest| ==> x.userId != rest[j].userId
    ensures DistinctUsers([x] + rest)
  {
    var r := [x] + rest;
    forall i, j | 0 <= i < j < |r| ensures r[i].userId != r[j].userId {
      assert r[j] == rest[j - 1];
      if i > 0 {
        assert r[i] == rest[i - 1];
      }
    }
  }

  lemma UniqueParticipantsTail(ps: seq<Participant>)
    requires ps != [] && UniqueParticipants(ps)
    ensures UniqueParticipants(ps[1..])
  {
    forall i, j | 0 <= i < j < |ps[1..]|
      ensures (ps[1..][i].chatId, ps[1..][i].userId) != (ps[1..][j].chatId, ps[1..][j].userId)
    {
      assert ps[1..][i] == ps[i + 1] && ps[1..][j] == ps[j + 1];
    }
  }

  /** A later row of the first row's chat names another user. */
  lemma HeadNotRepeated(ps: seq<Participant>, x: Participant)
    requires ps != [] && UniqueParticipants(ps)
    requires x in ps[1..] && x.chatId == ps[0].chatId
    ensures x.userId != ps[0].userId
  {
    var k :| 0 <= k < |ps[1..]| && ps[1..][k] == x;
    assert ps[k + 1] == x;
    assert (ps[0].chatId, ps[0].userId) != (ps[k + 1].chatId, ps[k + 1].userId);
  }

  /** A client message id longer than its column. */
  predicate ClientIdTooLong(clientMessageId: Option<string>) {
    clientMessageId.Some? && |clientMessageId.value| > ClientMessageIdLength
  }

  /** The error the INSERT of a message raises, if any: the database checks
      the length of the client message id as it reads the row's values, and
      the not-null body after that. */
  function InsertError(body: Option<string>, clientMessageId: Option<string>): (e: Option<string>)
    ensures e.None? <==> body.Some? && !ClientIdTooLong(clientMessageId)
    ensures ClientIdTooLong(clientMessageId) ==> e == Some(ValueTooLong(ClientMessageIdLength))
    ensures !ClientIdTooLong(clientMessageId) && body.None? ==> e == Some(NullBody)
  {
    if ClientIdTooLong(clientMessageId) then Some(ValueTooLong(ClientMessageIdLength))
    else if body.None? then Some(NullBody)
    else None
  }

  /** createAndSaveMessage: the message, whose save fails for a client message
      id longer than its column or a missing body, then one receipt per
      current participant. */
  method CreateAndSaveMessage(db: Db, chat: Chat, senderId: UserId, body: Option<string>, clientMessageId: Option<string>, now: Time)
    returns (r: Result<(Db, Message)>)
    requires Valid(db) && chat in db.chats
    requires clientMessageId.Some? ==> FindByClientMessageId(db.messages, chat.id, clientMessageId.value).None?
    ensures r.Err? <==> ClientIdTooLong(clientMessageId) || body.None?
    ensures ClientIdTooLong(clientMessageId) ==> r == Err(ValueTooLong(ClientMessageIdLength))
    ensures !ClientIdTooLong(clientMessageId) && body.None? ==> r == Err(NullBody)
    ensures r.Ok? ==>
      var (db', saved) := r.value;
      && saved == Message(|db.messages| + 1, chat.id, senderId, body.value, now, clientMessageId)
      && db' == db.(messages := db.messages + [saved],
                    receipts := db.receipts + DeliveryReceipts(saved.id, ParticipantsOf(db.participants, chat.id), now))
      && Valid(db')
      && (forall u :: FindReceipt(db'.receipts, saved.id, u).Some? <==> IsParticipant(db, chat.id, u))
      && (forall x :: x in db'.receipts && x.messageId == saved.id ==> x.deliveredAt == Some(now) && x.readAt.None?)
  {
    if ClientIdTooLong(clientMessageId) {
      return Err(ValueTooLong(ClientMessageIdLength));
    }
    if body.None? {
      return Err(NullBody);
    }
    var saved := Message(|db.messages| + 1, chat.id, senderId, body.value, now, clientMessageId);
    var participants := ParticipantsOf(db.participants, chat.id);
    var receipts := SaveReceipts(db.receipts, saved.id, participants, now);
    var db' := db.(messages := db.messages + [saved], receipts := receipts);
    NewMessageRowsValid(db, chat, saved, now);
    r := Ok((db', saved));
  }

  /** The loop that saves one delivery receipt per participant row. */
  method SaveReceipts(rs: seq<Receipt>, messageId: MessageId, participants: seq<Participant>, now: Time)
    returns (rs': seq<Receipt>)
    ensures rs' == rs + DeliveryReceipts(messageId, participants, now)
  {
    rs' := rs;
    var i := 0;
    while i < |participants|
      invariant 0 <= i <= |participants|
      invariant rs' == rs + DeliveryReceipts(messageId, participants[..i], now)
    {
      rs' := rs' + [Receipt(messageId, participants[i].userId, Some(now), None)];
      i := i + 1;
      assert DeliveryReceipts(messageId, participants[..i], now)
          == DeliveryReceipts(messageId, participants[..i - 1], now) + [Receipt(messageId, participants[i - 1].userId, Some(now), None)];
    }
    assert participants[..i] == participants;
  }

  lemma NewMessageRowsValid(db: Db, chat: Chat, saved: Message, now: Time)
    requires Valid(db) && chat in db.chats
    requires saved.id == |db.messages| + 1 && saved.chatId == chat.id
    requires saved.clientMessageId.Some? ==> FindByClientMessageId(db.messages, chat.id, saved.clientMessageId.value).None?
    ensures var ps := ParticipantsOf(db.participants, chat.id);
      var db' := db.(messages := db.messages + [saved], receipts := db.receipts + DeliveryReceipts(saved.id, ps, now));
      && Valid(db')
      && (forall u :: FindReceipt(db'.receipts, saved.id, u).Some? <==> IsParticipant(db, chat.id, u))
      && (forall x :: x in db'.receipts && x.messageId == saved.id ==> x.deliveredAt == Some(now) && x.readAt.None?)
  {
    var ps := ParticipantsOf(db.participants, chat.id);
    var rs := db.receipts + DeliveryReceipts(saved.id, ps, now);
    var ms := db.messages + [saved];
    assert 1 <= chat.id <= |db.chats| by {
      var k :| 0 <= k < |db.chats| && db.chats[k] == chat;
    }
    AppendedReceiptsUnique(db, ps, chat.id, saved.id, now);
    AppendedMessageKeepsClientIdsUnique(db.messages, saved);
    forall x | x in rs ensures 1 <= x.messageId <= |ms| {
      if x !in db.receipts {
        var k :| 0 <= k < |rs| && rs[k] == x;
      }
    }
    NewMessageReceipts(db, ps, chat.id, saved.id, now);
  }

  lemma AppendedReceiptsUnique(db: Db, ps: seq<Participant>, chatId: ChatId, messageId: MessageId, now: Time)
    requires Valid(db) && ps == ParticipantsOf(db.participants, chatId) && messageId == |db.messages| + 1
    ensures UniqueReceipts(db.receipts + DeliveryReceipts(messageId, ps, now))
  {
    ParticipantsOfDistinctUsers(db.participants, chatId);
    DeliveryReceiptsUnique(messageId, ps, now);
    ConcatFreshReceipts(db.receipts, DeliveryReceipts(messageId, ps, now), messageId);
  }

  /** One receipt per distinct user never repeats a (message, user) pair. */
  lemma DeliveryReceiptsUnique(messageId: MessageId, ps: seq<Participant>, now: Time)
    requires DistinctUsers(ps)
    ensures UniqueReceipts(DeliveryReceipts(messageId, ps, now))
  {
    var added := DeliveryReceipts(messageId, ps, now);
    forall i, j | 0 <= i < j < |added| ensures (added[i].messageId, added[i].userId) != (added[j].messageId, added[j].userId) {
      assert added[i].userId == ps[i].userId && added[j].userId == ps[j].userId;
    }
  }

  /** Receipts for a message none of the old receipts is about keep the pairs unique. */
  lemma ConcatFreshReceipts(rs: seq<Receipt>, added: seq<Receipt>, messageId: MessageId)
    requires UniqueReceipts(rs) && UniqueReceipts(added)
    requires forall x :: x in rs ==> x.messageId < messageId
    requires forall k :: 0 <= k < |added| ==> added[k].messageId == messageId
    ensures UniqueReceipts(rs + added)
  {
    var all := rs + added;
    forall i, j | 0 <= i < j < |all| ensures (all[i].messageId, all[i].userId) != (all[j].messageId, all[j].userId) {
      if j < |rs| {
        assert all[i] == rs[i] && all[j] == rs[j];
      } else if i < |rs| {
        assert all[i] in rs;
        assert all[j] == added[j - |rs|];
      } else {
        assert all[i] == added[i - |rs|] && all[j] == added[j - |rs|];
      }
    }
  }

  lemma AppendedMessageKeepsClientIdsUnique(ms: seq<Message>, saved: Message)
    requires UniqueClientMessageIds(ms)
    requires saved.clientMessageId.Some? ==> FindByClientMessageId(ms, saved.chatId, saved.clientMessageId.value).None?
    ensures UniqueClientMessageIds(ms + [saved])
  {
    var ms' := ms + [saved];
    forall i, j | 0 <= i < j < |ms'| && ms'[i].chatId == ms'[j].chatId && ms'[i].clientMessageId.Some?
      ensures ms'[i].clientMessageId != ms'[j].clientMessageId
    {
      if j == |ms| {
        assert ms'[i] in ms;
      }
    }
  }

  lemma NewMessageReceipts(db: Db, ps: seq<Participant>, chatId: ChatId, messageId: MessageId, now: Time)
    requires Valid(db) && ps == ParticipantsOf(db.participants, chatId) && messageId == |db.messages| + 1
    ensures var rs := db.receipts + DeliveryReceipts(messageId, ps, now);
      && (forall u :: FindReceipt(rs, messageId, u).Some? <==> IsParticipant(db, chatId, u))
      && (forall x :: x in rs && x.messageId == messageId ==> x.deliveredAt == Some(now) && x.readAt.None?)
  {
    var added := DeliveryReceipts(messageId, ps, now);
    var rs := db.receipts + added;
    forall u ensures FindReceipt(rs, messageId, u).Some? <==> IsParticipant(db, chatId, u) {
      NewMessageReceiptFor(db, ps, chatId, messageId, now, u);
    }
    forall x | x in rs && x.messageId == messageId ensures x.deliveredAt == Some(now) && x.readAt.None? {
      assert x !in db.receipts;
      var k :| 0 <= k < |rs| && rs[k] == x;
      assert rs[k] == added[k - |db.receipts|];
    }
  }

  lemma NewMessageReceiptFor(db: Db, ps: seq<Participant>, chatId: ChatId, messageId: MessageId, now: Time, u: UserId)
    requires Valid(db) && ps == ParticipantsOf(db.participants, chatId) && messageId == |db.messages| + 1
    ensures FindReceipt(db.receipts + DeliveryReceipts(messageId, ps, now), messageId, u).Some? <==> IsParticipant(db, chatId, u)
  {
    DeliveryReceiptFor(db.receipts, ps, messageId, now, u);
    if IsParticipant(db, chatId, u) {
      var p :| p in db.participants && p.chatId == chatId && p.userId == u;
      assert p in ps;
    }
  }

  /** Past receipts of older messages, a new message's receipts are found for
      exactly the users of the rows they were made from. */
  lemma DeliveryReceiptFor(rs: seq<Receipt>, ps: seq<Participant>, messageId: MessageId, now: Time, u: UserId)
    requires forall x :: x in rs ==> x.messageId < messageId
    ensures FindReceipt(rs + DeliveryReceipts(messageId, ps, now), messageId, u).Some? <==> exists p :: p in ps && p.userId == u
  {
    var added := DeliveryReceipts(messageId, ps, now);
    var all := rs + added;
    if p :| p in ps && p.userId == u {
      var k :| 0 <= k < |ps| && ps[k] == p;
      assert all[|rs| + k] == added[k];
    }
    var found := FindReceipt(all, messageId, u);
    if found.Some? {
      var k := found.value;
      assert all[k] == added[k - |rs|];
      assert ps[k - |rs|] in ps;
    }
  }

  /** What sendMessage returns, as a value: the store after the call and the
      message the caller gets back. This is the specification of the method
      `SendMessage`, which computes it step by step. */
  function SendMessageResult(db: Db, senderId: UserId, chatId: ChatId, body: Option<string>, clientMessageId: Option<string>, now: Time)
    : (r: Result<(Db, Message)>)
    requires Valid(db)
  {
    var chat := GetChatForUserOrThrow(db, chatId, senderId);
    if chat.Err? then Err(chat.error)
    else if senderId !in db.users then Err(UserNotFound(senderId))
    else if clientMessageId.Some? && FindByClientMessageId(db.messages, chatId, clientMessageId.value).Some? then
      Ok((db, FindByClientMessageId(db.messages, chatId, clientMessageId.value).value))
    else if InsertError(body, clientMessageId).Some? then Err(InsertError(body, clientMessageId).value)
    else
      var m := Message(|db.messages| + 1, chatId, senderId, body.value, now, clientMessageId);
      Ok((db.(messages := db.messages + [m],
              receipts := db.receipts + DeliveryReceipts(m.id, ParticipantsOf(db.participants, chatId), now)), m))
  }

  /** sendMessage: the membership check and the sender lookup come first; with a
      client message id, the message already stored under (chat, id) is returned
      and nothing is written; otherwise a new message and its receipts are saved,
      unless the INSERT fails: a client message id that does not fit its
      column, or no body. */
  method SendMessage(db: Db, senderId: UserId, chatId: ChatId, body: Option<string>, clientMessageId: Option<string>, now: Time)
    returns (r: Result<(Db, Message)>)
    requires Valid(db)
    ensures r == SendMessageResult(db, senderId, chatId, body, clientMessageId, now)
    ensures GetChatForUserOrThrow(db, chatId, senderId).Err? ==> r == Err(GetChatForUserOrThrow(db, chatId, senderId).error)
    ensures GetChatForUserOrThrow(db, chatId, senderId).Ok? && senderId !in db.users ==> r == Err(UserNotFound(senderId))
    ensures r.Ok? <==> GetChatForUserOrThrow(db, chatId, senderId).Ok? && senderId in db.users
                       && ((ClientIdTooLong(clientMessageId) || body.None?) ==>
                             clientMessageId.Some? && FindByClientMessageId(db.messages, chatId, clientMessageId.value).Some?)
    ensures r.Err? && GetChatForUserOrThrow(db, chatId, senderId).Ok? && senderId in db.users ==>
      Some(r.error) == InsertError(body, clientMessageId)
    ensures r.Ok? ==> Valid(r.value.0) && r.value.1 in r.value.0.messages && r.value.1.chatId == chatId
    ensures r.Ok? && clientMessageId.Some? ==>
      r.value.1.clientMessageId == clientMessageId
      && FindByClientMessageId(r.value.0.messages, chatId, clientMessageId.value) == Some(r.value.1)
    ensures r.Ok? && clientMessageId.Some? && FindByClientMessageId(db.messages, chatId, clientMessageId.value).Some? ==>
      r.value == (db, FindByClientMessageId(db.messages, chatId, clientMessageId.value).value)
    ensures r.Ok? && (clientMessageId.None? || FindByClientMessageId(db.messages, chatId, clientMessageId.value).None?) ==>
      var (db', m) := r.value;
      && m == Message(|db.messages| + 1, chatId, senderId, body.value, now, clientMessageId)
      && db'.messages == db.messages + [m]
      && (forall u :: FindReceipt(db'.receipts, m.id, u).Some? <==> IsParticipant(db, chatId, u))
  {
    var chat := GetChatForUserOrThrow(db, chatId, senderId);
    if chat.Err? {
      return Err(chat.error);
    }
    if senderId !in db.users {
      return Err(UserNotFound(senderId));
    }
    if clientMessageId.Some? {
      var existing := FindByClientMessageId(db.messages, chatId, clientMessageId.value);
      if existing.Some? {
        var k :| 0 <= k < |db.messages| && db.messages[k] == existing.value;
        FindByClientMessageIdUnique(db.messages, chatId, clientMessageId.value, k);
        return Ok((db, existing.value));
      }
    }
    var created := CreateAndSaveMessage(db, chat.value, senderId, body, clientMessageId, now);
    if created.Err? {
      return Err(created.error);
    }
    var (db', saved) := created.value;
    if clientMessageId.Some? {
      FindByClientMessageIdUnique(db'.messages, chatId, clientMessageId.value, |db.messages|);
    }
    r := Ok((db', saved));
  }

  /** A redelivered send, with the same client message id, returns the message
      the first delivery stored and leaves the store as the first delivery left
      it, whatever its body and time. */
  lemma SendMessageRedelivery(db: Db, senderId: UserId, chatId: ChatId, body: Option<string>, clientMessageId: string, now: Time,
                              body2: Option<string>, now2: Time)
    requires Valid(db)
    requires SendMessageResult(db, senderId, chatId, body, Some(clientMessageId), now).Ok?
    ensures var (db1, m1) := SendMessageResult(db, senderId, chatId, body, Some(clientMessageId), now).value;
      Valid(db1) && SendMessageResult(db1, senderId, chatId, body2, Some(clientMessageId), now2) == Ok((db1, m1))
  {
    var (db1, m1) := SendMessageResult(db, senderId, chatId, body, Some(clientMessageId), now).value;
    if FindByClientMessageId(db.messages, chatId, clientMessageId).None? {
      var chat := GetChatForUserOrThrow(db, chatId, senderId).value;
      NewMessageRowsValid(db, chat, m1, now);
      FindByClientMessageIdUnique(db1.messages, chatId, clientMessageId, |db.messages|);
    }
    GetChatSameRows(db, db1, chatId, senderId);
  }

  /** The check each id of markMessagesAsRead passes: the message exists and
      belongs to the chat; otherwise the message of the exception. */
  function CheckMessage(db: Db, chatId: ChatId, messageId: MessageId): (r: Option<string>)
    requires Valid(db)
    ensures r.None? <==> exists m :: m in db.messages && m.id == messageId && m.chatId == chatId
    ensures FindMessage(db, messageId).None? ==> r == Some(MessageNotFound(messageId))
    ensures FindMessage(db, messageId).Some? && r.Some? ==> r == Some(NotInChat(messageId, chatId))
  {
    match FindMessage(db, messageId)
    case None => Some(MessageNotFound(messageId))
    case Some(m) => if m.chatId != chatId then Some(NotInChat(messageId, chatId)) else None
  }

  /** The message of the first id that fails its check, if one does. */
  function FirstBadMessage(db: Db, chatId: ChatId, messageIds: seq<MessageId>): (r: Option<string>)
    requires Valid(db)
    ensures r.None? <==> forall k :: 0 <= k < |messageIds| ==> CheckMessage(db, chatId, messageIds[k]).None?
    ensures r.Some? ==> exists k :: 0 <= k < |messageIds| && CheckMessage(db, chatId, messageIds[k]) == r
                                  && forall j :: 0 <= j < k ==> CheckMessage(db, chatId, messageIds[j]).None?
  {
    var i := FirstBadIndex(db, chatId, messageIds);
    if i == |messageIds| then None else CheckMessage(db, chatId, messageIds[i])
  }

  /** The position of the first id that fails its check, or the length when
      every id passes. */
  function FirstBadIndex(db: Db, chatId: ChatId, messageIds: seq<MessageId>): (i: nat)
    requires Valid(db)
    ensures i <= |messageIds|
    ensures forall j :: 0 <= j < i ==> CheckMessage(db, chatId, messageIds[j]).None?
    ensures i < |messageIds| ==> CheckMessage(db, chatId, messageIds[i]).Some?
  {
    if messageIds == [] || CheckMessage(db, chatId, messageIds[0]).Some? then 0
    else
      var tail := messageIds[1..];
      var i := FirstBadIndex(db, chatId, tail);
      assert forall j :: 0 < j <= i ==> messageIds[j] == tail[j - 1];
      assert i < |tail| ==> messageIds[1 + i] == tail[i];
      assert forall j :: 0 <= j < 1 + i ==> CheckMessage(db, chatId, messageIds[j]).None?;
      1 + i
  }

  /** The read stamp: the read time becomes `now` when it is absent or strictly
      earlier, and stays as it is otherwise. */
  function Stamp(x: Receipt, now: Time): (y: Receipt)
    ensures y.messageId == x.messageId && y.userId == x.userId && y.deliveredAt == x.deliveredAt
    ensures y.readAt == x.readAt || y.readAt == Some(now)
    ensures y.readAt.Some? && y.readAt.value >= now
    ensures x.readAt.Some? ==> y.readAt.value >= x.readAt.value
  {
    if x.readAt.None? || x.readAt.value < now then x.(readAt := Some(now)) else x
  }

  /** The receipt of (message, user), if there is one. */
  function ReceiptAt(rs: seq<Receipt>, messageId: MessageId, userId: UserId): (r: Option<Receipt>)
    ensures r.Some? ==> r.value in rs && r.value.messageId == messageId && r.value.userId == userId
    ensures r.None? ==> forall x :: x in rs ==> !(x.messageId == messageId && x.userId == userId)
  {
    match FindReceipt(rs, messageId, userId)
    case None => None
    case Some(k) => Some(rs[k])
  }

  /** The receipt of (message, user) after one pass of the loop: the stored one,
      or a new one with neither timestamp, then stamped. */
  function Marked(x: Option<Receipt>, messageId: MessageId, userId: UserId, now: Time): Receipt {
    Stamp(if x.Some? then x.value else Receipt(messageId, userId, None, None), now)
  }

  /** The receipts of `after` are those of `before`, except that the receipt of
      the user for each listed message is found or created, then stamped. */
  ghost predicate StampedExactly(before: seq<Receipt>, after: seq<Receipt>, messageIds: seq<MessageId>, userId: UserId, now: Time) {
    forall m, v :: ReceiptAt(after, m, v) ==
      (if v == userId && m in messageIds then Some(Marked(ReceiptAt(before, m, v), m, v, now)) else ReceiptAt(before, m, v))
  }

  /** One pass of the loop of markMessagesAsRead on the receipts table. */
  function MarkRead(rs: seq<Receipt>, messageId: MessageId, userId: UserId, now: Time): seq<Receipt> {
    match FindReceipt(rs, messageId, userId)
    case Some(k) => rs[k := Stamp(rs[k], now)]
    case None => rs + [Marked(None, messageId, userId, now)]
  }

  /** The whole loop: one pass per id, in order. */
  function MarkAll(rs: seq<Receipt>, messageIds: seq<MessageId>, userId: UserId, now: Time): seq<Receipt>
    decreases |messageIds|
  {
    if messageIds == [] then rs
    else MarkRead(MarkAll(rs, messageIds[..|messageIds| - 1], userId, now), messageIds[|messageIds| - 1], userId, now)
  }

  /** What markMessagesAsRead returns, as a value: the store after the
      transaction commits, or the message of the exception that rolls it back.
      This is the specification of the method `MarkMessagesAsRead`. */
  function MarkMessagesAsReadResult(db: Db, userId: UserId, chatId: ChatId, messageIds: seq<MessageId>, now: Time)
    : (r: Result<Db>)
    requires Valid(db)
  {
    var chat := GetChatForUserOrThrow(db, chatId, userId);
    if chat.Err? then Err(chat.error)
    else if userId !in db.users then Err(UserNotFound(userId))
    else match FirstBadMessage(db, chatId, messageIds)
      case Some(e) => Err(e)
      case None => Ok(db.(receipts := MarkAll(db.receipts, messageIds, userId, now)))
  }

  /** markMessagesAsRead: the membership check and the user lookup, then the
      stamping loop. The method is one transaction: a failing id leaves every
      receipt as it was. */
  method MarkMessagesAsRead(db: Db, userId: UserId, chatId: ChatId, messageIds: seq<MessageId>, now: Time)
    returns (r: Result<Db>)
    requires Valid(db)
    ensures r == MarkMessagesAsReadResult(db, userId, chatId, messageIds, now)
    ensures r.Ok? ==> Valid(r.value)
    ensures r.Ok? ==> StampedExactly(db.receipts, r.value.receipts, messageIds, userId, now)
  {
    var chat := GetChatForUserOrThrow(db, chatId, userId);
    if chat.Err? {
      return Err(chat.error);
    }
    if userId !in db.users {
      return Err(UserNotFound(userId));
    }
    var stamped, failedAt := StampAll(db, userId, chatId, messageIds, now);
    if stamped.Err? {
      FirstBadMessageAt(db, chatId, messageIds, failedAt);
      return Err(stamped.error);
    }
    NoBadMessage(db, chatId, messageIds);
    MarkedDbValid(db, messageIds, userId, now);
    r := Ok(db.(receipts := stamped.value));
  }

  /** Every id before `n` names a message of the chat. */
  ghost predicate InChat(db: Db, chatId: ChatId, messageIds: seq<MessageId>, n: nat)
    requires n <= |messageIds|
  {
    forall j :: 0 <= j < n ==> 1 <= messageIds[j] <= |db.messages| && db.messages[messageIds[j] - 1].chatId == chatId
  }

  /** The loop of markMessagesAsRead: for each id in order, the message check
      and the read stamp; the first id that fails ends it with its error. */
  method StampAll(db: Db, userId: UserId, chatId: ChatId, messageIds: seq<MessageId>, now: Time)
    returns (r: Result<seq<Receipt>>, ghost failedAt: nat)
    requires Valid(db)
    ensures r.Err? ==> failedAt < |messageIds| && InChat(db, chatId, messageIds, failedAt)
                       && Some(r.error) == CheckMessage(db, chatId, messageIds[failedAt])
    ensures r.Ok? ==> InChat(db, chatId, messageIds, |messageIds|) && r.value == MarkAll(db.receipts, messageIds, userId, now)
  {
    var rs := db.receipts;
    var i := 0;
    failedAt := 0;
    while i < |messageIds|
      invariant 0 <= i <= |messageIds|
      invariant rs == MarkAll(db.receipts, messageIds[..i], userId, now)
      invariant InChat(db, chatId, messageIds, i)
    {
      var id := messageIds[i];
      var message := FindMessage(db, id);
      if message.None? || message.value.chatId != chatId {
        r := Err(if message.None? then MessageNotFound(id) else NotInChat(id, chatId));
        assert Some(r.error) == CheckMessage(db, chatId, id);
        failedAt := i;
        return;
      }
      assert 1 <= id <= |db.messages| && db.messages[id - 1] == message.value;
      InChatNext(db, chatId, messageIds, i);
      MarkAllNext(db.receipts, messageIds, i, userId, now);
      rs := SaveReadStamp(rs, id, userId, now);
      i := i + 1;
    }
    assert messageIds[..i] == messageIds;
    r := Ok(rs);
  }

  lemma InChatNext(db: Db, chatId: ChatId, messageIds: seq<MessageId>, i: nat)
    requires i < |messageIds| && InChat(db, chatId, messageIds, i)
    requires 1 <= messageIds[i] <= |db.messages| && db.messages[messageIds[i] - 1].chatId == chatId
    ensures InChat(db, chatId, messageIds, i + 1)
  {
  }

  lemma MarkAllNext(rs: seq<Receipt>, messageIds: seq<MessageId>, i: nat, userId: UserId, now: Time)
    requires i < |messageIds|
    ensures MarkAll(rs, messageIds[..i + 1], userId, now) == MarkRead(MarkAll(rs, messageIds[..i], userId, now), messageIds[i], userId, now)
  {
    assert messageIds[..i + 1][..i] == messageIds[..i];
  }

  /** The first id that fails its check decides the error. */
  lemma FirstBadMessageAt(db: Db, chatId: ChatId, messageIds: seq<MessageId>, i: nat)
    requires Valid(db) && i < |messageIds| && InChat(db, chatId, messageIds, i)
    requires CheckMessage(db, chatId, messageIds[i]).Some?
    ensures FirstBadMessage(db, chatId, messageIds) == CheckMessage(db, chatId, messageIds[i])
  {
    forall j | 0 <= j < i ensures CheckMessage(db, chatId, messageIds[j]).None? {
      assert db.messages[messageIds[j] - 1] in db.messages;
    }
  }

  lemma NoBadMessage(db: Db, chatId: ChatId, messageIds: seq<MessageId>)
    requires Valid(db) && InChat(db, chatId, messageIds, |messageIds|)
    ensures FirstBadMessage(db, chatId, messageIds).None?
  {
    forall j | 0 <= j < |messageIds| ensures CheckMessage(db, chatId, messageIds[j]).None? {
      assert db.messages[messageIds[j] - 1] in db.messages;
    }
  }

  /** The outcomes of markMessagesAsRead: the chat check, then the user lookup,
      then the first id that names no message of the chat; with no error the
      receipts are stamped and nothing else changes. */
  lemma MarkMessagesAsReadOutcome(db: Db, userId: UserId, chatId: ChatId, messageIds: seq<MessageId>, now: Time)
    requires Valid(db)
    ensures var r := MarkMessagesAsReadResult(db, userId, chatId, messageIds, now);
      && (GetChatForUserOrThrow(db, chatId, userId).Err? ==> r == Err(GetChatForUserOrThrow(db, chatId, userId).error))
      && (GetChatForUserOrThrow(db, chatId, userId).Ok? && userId !in db.users ==> r == Err(UserNotFound(userId)))
      && (r.Ok? <==> GetChatForUserOrThrow(db, chatId, userId).Ok? && userId in db.users
                     && forall k :: 0 <= k < |messageIds| ==> exists m :: m in db.messages && m.id == messageIds[k] && m.chatId == chatId)
      && (GetChatForUserOrThrow(db, chatId, userId).Ok? && userId in db.users && r.Err? ==>
            exists k :: 0 <= k < |messageIds| && Some(r.error) == CheckMessage(db, chatId, messageIds[k])
                        && forall j :: 0 <= j < k ==> CheckMessage(db, chatId, messageIds[j]).None?)
      && (r.Ok? ==> r.value.users == db.users && r.value.chats == db.chats && r.value.participants == db.participants
                    && r.value.messages == db.messages)
  {
  }

  lemma MarkedDbValid(db: Db, messageIds: seq<MessageId>, userId: UserId, now: Time)
    requires Valid(db)
    requires forall j :: 0 <= j < |messageIds| ==> 1 <= messageIds[j] <= |db.messages|
    ensures Valid(db.(receipts := MarkAll(db.receipts, messageIds, userId, now)))
    ensures StampedExactly(db.receipts, MarkAll(db.receipts, messageIds, userId, now), messageIds, userId, now)
  {
    MarkAllView(db.receipts, messageIds, userId, now);
    forall m | m in messageIds ensures 1 <= m <= |db.messages| {
      var j :| 0 <= j < |messageIds| && messageIds[j] == m;
    }
    MarkAllMessageIds(db.receipts, messageIds, userId, now, |db.messages|);
  }

  /** The body of the loop: find or create the receipt, stamp it, save it. */
  method SaveReadStamp(rs: seq<Receipt>, messageId: MessageId, userId: UserId, now: Time) returns (rs': seq<Receipt>)
    ensures rs' == MarkRead(rs, messageId, userId, now)
  {
    var found := FindReceipt(rs, messageId, userId);
    var receipt := if found.Some? then rs[found.value] else Receipt(messageId, userId, None, None);
    if receipt.readAt.None? || receipt.readAt.value < now {
      receipt := receipt.(readAt := Some(now));
    }
    rs' := if found.Some? then rs[found.value := receipt] else rs + [receipt];
  }

  /** One pass keeps receipts unique and touches the receipt of (message, user) only. */
  lemma MarkReadView(rs: seq<Receipt>, messageId: MessageId, userId: UserId, now: Time)
    requires UniqueReceipts(rs)
    ensures UniqueReceipts(MarkRead(rs, messageId, userId, now))
    ensures StampedExactly(rs, MarkRead(rs, messageId, userId, now), [messageId], userId, now)
  {
    var rs' := MarkRead(rs, messageId, userId, now);
    assert |rs'| >= |rs|;
    assert forall i :: 0 <= i < |rs| ==> (rs'[i].messageId, rs'[i].userId) == (rs[i].messageId, rs[i].userId);
    forall m, v ensures ReceiptAt(rs', m, v) ==
      (if m == messageId && v == userId then Some(Marked(ReceiptAt(rs, m, v), m, v, now)) else ReceiptAt(rs, m, v))
    {
      match FindReceipt(rs, m, v)
      case Some(j) =>
        FindReceiptUnique(rs', m, v, j);
      case None =>
        if m == messageId && v == userId {
          FindReceiptUnique(rs', m, v, |rs|);
        } else {
          assert forall i :: 0 <= i < |rs'| ==> (rs'[i].messageId, rs'[i].userId) != (m, v);
        }
    }
  }

  /** The whole loop touches exactly the receipts of the user for the listed
      messages, each as one pass would. */
  lemma {:induction false} MarkAllView(rs: seq<Receipt>, messageIds: seq<MessageId>, userId: UserId, now: Time)
    requires UniqueReceipts(rs)
    ensures UniqueReceipts(MarkAll(rs, messageIds, userId, now))
    ensures StampedExactly(rs, MarkAll(rs, messageIds, userId, now), messageIds, userId, now)
  {
    if messageIds != [] {
      var init := messageIds[..|messageIds| - 1];
      var last := messageIds[|messageIds| - 1];
      assert forall m :: m in messageIds <==> m in init || m == last;
      MarkAllView(rs, init, userId, now);
      MarkReadView(MarkAll(rs, init, userId, now), last, userId, now);
    }
  }

  /** Every receipt the loop writes names one of the listed messages. */
  lemma {:induction false} MarkAllMessageIds(rs: seq<Receipt>, messageIds: seq<MessageId>, userId: UserId, now: Time, n: nat)
    requires forall x :: x in rs ==> 1 <= x.messageId <= n
    requires forall m :: m in messageIds ==> 1 <= m <= n
    ensures forall x :: x in MarkAll(rs, messageIds, userId, now) ==> 1 <= x.messageId <= n
  {
    if messageIds != [] {
      var init := messageIds[..|messageIds| - 1];
      assert forall m :: m in init ==> m in messageIds;
      MarkAllMessageIds(rs, init, userId, now, n);
      var rs1 := MarkAll(rs, init, userId, now);
      var last := messageIds[|messageIds| - 1];
      match FindReceipt(rs1, last, userId)
      case Some(k) =>
        forall x | x in rs1[k := Stamp(rs1[k], now)] ensures 1 <= x.messageId <= n {
          var i :| 0 <= i < |rs1| && rs1[k := Stamp(rs1[k], now)][i] == x;
          assert rs1[i] in rs1;
        }
      case None =>
        assert last in messageIds;
    }
  }

  /** Marking the same messages read again at the same time changes no receipt. */
  lemma MarkAllIdempotent(rs: seq<Receipt>, messageIds: seq<MessageId>, userId: UserId, now: Time)
    requires UniqueReceipts(rs)
    ensures forall m, v :: ReceiptAt(MarkAll(MarkAll(rs, messageIds, userId, now), messageIds, userId, now), m, v)
                        == ReceiptAt(MarkAll(rs, messageIds, userId, now), m, v)
  {
    MarkAllView(rs, messageIds, userId, now);
    MarkAllView(MarkAll(rs, messageIds, userId, now), messageIds, userId, now);
  }

  /** Marking the same messages read again at the same time succeeds and
      leaves every receipt as the first marking left it. */
  lemma MarkMessagesAsReadAgain(db: Db, userId: UserId, chatId: ChatId, messageIds: seq<MessageId>, now: Time)
    requires Valid(db)
    requires MarkMessagesAsReadResult(db, userId, chatId, messageIds, now).Ok?
    ensures var db1 := MarkMessagesAsReadResult(db, userId, chatId, messageIds, now).value;
      && Valid(db1)
      && var r2 := MarkMessagesAsReadResult(db1, userId, chatId, messageIds, now);
      && r2.Ok?
      && forall m, v :: ReceiptAt(r2.value.receipts, m, v) == ReceiptAt(db1.receipts, m, v)
  {
    var db1 := MarkMessagesAsReadResult(db, userId, chatId, messageIds, now).value;
    assert FirstBadMessage(db, chatId, messageIds).None?;
    assert db1 == db.(receipts := MarkAll(db.receipts, messageIds, userId, now));
    PassingIdsInRange(db, chatId, messageIds);
    MarkedDbValid(db, messageIds, userId, now);
    GetChatSameRows(db, db1, chatId, userId);
    PassingIdsStillPass(db, db1, chatId, messageIds);
    MarkAllIdempotent(db.receipts, messageIds, userId, now);
  }

  /** Ids that pass their checks name stored messages. */
  lemma PassingIdsInRange(db: Db, chatId: ChatId, messageIds: seq<MessageId>)
    requires Valid(db) && FirstBadMessage(db, chatId, messageIds).None?
    ensures forall j :: 0 <= j < |messageIds| ==> 1 <= messageIds[j] <= |db.messages|
  {
    forall j | 0 <= j < |messageIds| ensures 1 <= messageIds[j] <= |db.messages| {
      assert CheckMessage(db, chatId, messageIds[j]).None?;
      var m :| m in db.messages && m.id == messageIds[j] && m.chatId == chatId;
      var k :| 0 <= k < |db.messages| && db.messages[k] == m;
    }
  }

  /** The checks look at the messages only, so ids that pass keep passing when
      only the receipts change. */
  lemma PassingIdsStillPass(db: Db, db1: Db, chatId: ChatId, messageIds: seq<MessageId>)
    requires Valid(db) && Valid(db1) && db1.messages == db.messages
    requires FirstBadMessage(db, chatId, messageIds).None?
    ensures FirstBadMessage(db1, chatId, messageIds).None?
  {
    forall k | 0 <= k < |messageIds| ensures CheckMessage(db1, chatId, messageIds[k]).None? {
      assert CheckMessage(db, chatId, messageIds[k]).None?;
    }
  }

  /** Read timestamps never go back, and every listed message ends up read no
      earlier than `now`. */
  lemma MarkAllMonotonic(rs: seq<Receipt>, messageIds: seq<MessageId>, userId: UserId, now: Time)
    requires UniqueReceipts(rs)
    ensures forall m, v :: ReceiptAt(rs, m, v).Some? && ReceiptAt(rs, m, v).value.readAt.Some? ==>
      var after := ReceiptAt(MarkAll(rs, messageIds, userId, now), m, v);
      after.Some? && after.value.readAt.Some? && after.value.readAt.value >= ReceiptAt(rs, m, v).value.readAt.value
    ensures forall m :: m in messageIds ==>
      var after := ReceiptAt(MarkAll(rs, messageIds, userId, now), m, userId);
      after.Some? && after.value.readAt.Some? && after.value.readAt.value >= now
  {
    MarkAllView(rs, messageIds, userId, now);
  }

  /** The message `PageRequest.of(0, size)` throws for a size below one. */
  const PageSizeTooSmall := "Page size must not be less than one"

  /** getMessages: the membership check, then the `limit` newest messages of the chat. */
  function GetMessages(db: Db, userId: UserId, chatId: ChatId, limit: int): (r: Result<seq<Message>>)
    requires Valid(db)
    ensures GetChatForUserOrThrow(db, chatId, userId).Err? ==> r == Err(GetChatForUserOrThrow(db, chatId, userId).error)
    ensures GetChatForUserOrThrow(db, chatId, userId).Ok? && limit < 1 ==> r == Err(PageSizeTooSmall)
    ensures r.Ok? <==> GetChatForUserOrThrow(db, chatId, userId).Ok? && limit >= 1
    ensures r.Ok? ==> |r.value| == Min(limit, |MessagesOf(db.messages, chatId)|)
    ensures r.Ok? ==> Descending(r.value)
    ensures r.Ok? ==> forall m :: m in r.value ==> m in db.messages && m.chatId == chatId
    ensures r.Ok? ==> forall m, y :: m in db.messages && m.chatId == chatId && m !in r.value && y in r.value ==> !Earlier(y, m)
    ensures r.Ok? ==> NoDuplicates(r.value)
  {
    match GetChatForUserOrThrow(db, chatId, userId)
    case Err(e) => Err(e)
    case Ok(chat) =>
      if limit < 1 then Err(PageSizeTooSmall)
      else
        MessagesNoDuplicates(db);
        NewestFirstPage(db.messages, chat.id, limit);
        Ok(NewestFirst(db.messages, chat.id, limit))
  }

  /** One entry of the unread list (`UnreadMessageResponse`). */
  datatype UnreadMessage = UnreadMessage(id: MessageId, chatId: ChatId, senderId: UserId, body: string, createdAt: Time)

  function ToUnreadMessage(m: Message): (u: UnreadMessage)
    ensures u.id == m.id && u.chatId == m.chatId && u.senderId == m.senderId && u.body == m.body && u.createdAt == m.createdAt
  {
    UnreadMessage(m.id, m.chatId, m.senderId, m.body, m.createdAt)
  }

  /** The unread list of a page of messages, entry by entry. */
  function ToUnreadMessages(page: seq<Message>): (r: seq<UnreadMessage>)
    ensures |r| == |page|
    ensures forall i :: 0 <= i < |page| ==> r[i] == ToUnreadMessage(page[i])
  {
    seq(|page|, i requires 0 <= i < |page| => ToUnreadMessage(page[i]))
  }

  /** The entries of a page cut from `all` oldest first: entries of messages of
      `all`, oldest first, and no message of `all` left out is older than one
      listed. */
  ghost predicate OldestFirstEntries(all: seq<Message>, limit: int, r: seq<UnreadMessage>) {
    && |r| == Min(limit, |all|)
    && (forall i, j :: 0 <= i < j < |r| ==> r[i].createdAt <= r[j].createdAt)
    && (forall i :: 0 <= i < |r| ==> exists m :: m in all && r[i] == ToUnreadMessage(m))
    && (forall m, i :: m in all && ToUnreadMessage(m) !in r && 0 <= i < |r| ==> r[i].createdAt <= m.createdAt)
  }

  lemma UnreadEntries(all: seq<Message>, limit: nat)
    ensures OldestFirstEntries(all, limit, ToUnreadMessages(Take(SortAscending(all), limit)))
  {
    var page := Take(SortAscending(all), limit);
    PageFront(all, SortAscending(all), limit, false);
    EntriesFromAll(all, page);
    EntriesOldest(all, page);
  }

  /** Every entry of a page drawn from `all` is the entry of a message of `all`. */
  lemma EntriesFromAll(all: seq<Message>, page: seq<Message>)
    requires forall m :: m in page ==> m in all
    ensures forall i :: 0 <= i < |page| ==> exists m :: m in all && ToUnreadMessages(page)[i] == ToUnreadMessage(m)
  {
    forall i | 0 <= i < |page| ensures exists m :: m in all && ToUnreadMessages(page)[i] == ToUnreadMessage(m) {
      assert page[i] in page;
    }
    assert forall i :: 0 <= i < |page| ==> exists m :: m in all && ToUnreadMessages(page)[i] == ToUnreadMessage(m);
  }

  /** A message left off a page of the oldest messages is no older than any entry. */
  lemma EntriesOldest(all: seq<Message>, page: seq<Message>)
    requires forall m, y :: m in all && m !in page && y in page ==> !Earlier(m, y)
    ensures var r := ToUnreadMessages(page);
      forall m, i :: m in all && ToUnreadMessage(m) !in r && 0 <= i < |r| ==> r[i].createdAt <= m.createdAt
  {
    var r := ToUnreadMessages(page);
    forall m, i | m in all && ToUnreadMessage(m) !in r && 0 <= i < |r|
      ensures r[i].createdAt <= m.createdAt
    {
      assert forall k :: 0 <= k < |page| ==> page[k] != m;
      assert page[i] in page;
    }
  }

  /** The messages table holds each message once: ids are distinct. */
  lemma MessagesNoDuplicates(db: Db)
    requires Valid(db)
    ensures NoDuplicates(db.messages)
  {
    forall i, j | 0 <= i < j < |db.messages| ensures db.messages[i] != db.messages[j] {
      assert db.messages[i].id == i + 1 && db.messages[j].id == j + 1;
    }
  }

  /** Distinct stored messages have distinct entries, since they have distinct ids. */
  lemma EntriesNoDuplicates(db: Db, page: seq<Message>)
    requires Valid(db) && NoDuplicates(page) && forall m :: m in page ==> m in db.messages
    ensures NoDuplicates(ToUnreadMessages(page))
  {
    var r := ToUnreadMessages(page);
    forall i, j | 0 <= i < j < |r| ensures r[i] != r[j] {
      assert page[i] in page && page[j] in page;
    }
  }

  /** getUnreadMessages: the membership check, the user lookup, then the `limit`
      oldest messages of the chat whose receipt for the user has no read time. */
  function GetUnreadMessages(db: Db, userId: UserId, chatId: ChatId, limit: int): (r: Result<seq<UnreadMessage>>)
    requires Valid(db)
    ensures GetChatForUserOrThrow(db, chatId, userId).Err? ==> r == Err(GetChatForUserOrThrow(db, chatId, userId).error)
    ensures GetChatForUserOrThrow(db, chatId, userId).Ok? && userId !in db.users ==> r == Err(UserNotFound(userId))
    ensures GetChatForUserOrThrow(db, chatId, userId).Ok? && userId in db.users && limit < 1 ==> r == Err(PageSizeTooSmall)
    ensures r.Ok? <==> GetChatForUserOrThrow(db, chatId, userId).Ok? && userId in db.users && limit >= 1
    ensures r.Ok? ==> OldestFirstEntries(UnreadMessagesOf(db, userId, chatId), limit, r.value)
    ensures r.Ok? ==> NoDuplicates(r.value)
  {
    match GetChatForUserOrThrow(db, chatId, userId)
    case Err(e) => Err(e)
    case Ok(chat) =>
      if userId !in db.users then Err(UserNotFound(userId))
      else if limit < 1 then Err(PageSizeTooSmall)
      else
        UnreadEntries(UnreadMessagesOf(db, userId, chat.id), limit);
        OldestUnreadPage(db, userId, chat.id, limit);
        EntriesNoDuplicates(db, OldestUnread(db, userId, chat.id, limit));
        Ok(ToUnreadMessages(OldestUnread(db, userId, chat.id, limit)))
  }

  /** One entry of the chat list (`ChatSummaryResponse`). */
  datatype ChatSummary = ChatSummary(
    chatId: ChatId,
    title: Option<string>,
    isGroup: bool,
    lastMessageBody: Option<string>,
    lastMessageSenderId: Option<UserId>,
    lastMessageCreatedAt: Option<Time>,
    unreadCount: int)

  /** The newest message of a chat: `findByChatOrderByCreatedAtDesc(chat,
      PageRequest.of(0, 1))`, then its first element if any. */
  function LatestMessage(db: Db, chatId: ChatId): (r: Option<Message>)
    ensures r.None? <==> forall m :: m in db.messages ==> m.chatId != chatId
    ensures r.Some? ==> r.value in db.messages && r.value.chatId == chatId
    ensures r.Some? ==> forall m :: m in db.messages && m.chatId == chatId ==> !Earlier(r.value, m)
  {
    var page := NewestFirst(db.messages, chatId, 1);
    NewestFirstPage(db.messages, chatId, 1);
    var all := MessagesOf(db.messages, chatId);
    assert all != [] ==> all[0] in all;
    if page == [] then None else Some(page[0])
  }

  /** The summary of one chat: its newest message, if any, and the user's
      unread count there. */
  function SummaryOf(db: Db, userId: UserId, chat: Chat): ChatSummary
    requires Valid(db)
  {
    SummaryWith(chat, LatestMessage(db, chat.id), UnreadCount(db, userId, chat.id))
  }

  /** The summary of a chat from its newest message, if any, and its unread count. */
  function SummaryWith(chat: Chat, last: Option<Message>, unreadCount: nat): ChatSummary {
    ChatSummary(
      chat.id, chat.title, chat.isGroup,
      if last.Some? then Some(last.value.body) else None,
      if last.Some? then Some(last.value.senderId) else None,
      if last.Some? then Some(last.value.createdAt) else None,
      unreadCount)
  }

  /** A summary names its chat, carries the user's unread count there, and
      describes the chat's newest message, or nothing when the chat has none. */
  lemma SummaryOfMeaning(db: Db, userId: UserId, chat: Chat)
    requires Valid(db)
    ensures var s := SummaryOf(db, userId, chat);
      && s.chatId == chat.id && s.title == chat.title && s.isGroup == chat.isGroup
      && s.unreadCount == UnreadCount(db, userId, chat.id)
      && (s.lastMessageCreatedAt.None? <==> forall m :: m in db.messages ==> m.chatId != chat.id)
      && (s.lastMessageCreatedAt.None? ==> s.lastMessageBody.None? && s.lastMessageSenderId.None?)
      && (s.lastMessageCreatedAt.Some? ==>
            exists m :: m in db.messages && m.chatId == chat.id
                        && (forall m' :: m' in db.messages && m'.chatId == chat.id ==> !Earlier(m, m'))
                        && s.lastMessageBody == Some(m.body) && s.lastMessageSenderId == Some(m.senderId)
                        && s.lastMessageCreatedAt == Some(m.createdAt))
  {
    var last := LatestMessage(db, chat.id);
    if last.Some? {
      var m := last.value;
      assert forall m' :: m' in db.messages && m'.chatId == chat.id ==> !Earlier(m, m');
    }
  }

  function Summaries(db: Db, userId: UserId, chats: seq<Chat>): (r: seq<ChatSummary>)
    requires Valid(db)
    ensures |r| == |chats|
    ensures forall i :: 0 <= i < |chats| ==> r[i] == SummaryOf(db, userId, chats[i])
  {
    seq(|chats|, i requires 0 <= i < |chats| => SummaryOf(db, userId, chats[i]))
  }

  /** `Long.compare`. */
  function LongCompare(x: int, y: int): (c: int)
    ensures c == -1 || c == 0 || c == 1
    ensures c < 0 <==> x < y
    ensures c == 0 <==> x == y
  {
    if x < y then -1 else if x == y then 0 else 1
  }

  /** The comparator of the chat list: more unread first, then the newer last
      message first, chats without messages last. */
  function CompareSummaries(a: ChatSummary, b: ChatSummary): int {
    var byUnread := LongCompare(b.unreadCount, a.unreadCount);
    if byUnread != 0 then byUnread
    else if a.lastMessageCreatedAt.None? && b.lastMessageCreatedAt.None? then 0
    else if a.lastMessageCreatedAt.None? then 1
    else if b.lastMessageCreatedAt.None? then -1
    else LongCompare(b.lastMessageCreatedAt.value, a.lastMessageCreatedAt.value)
  }

  /** The comparator as written: the last-message times are compared as the
      texts `OffsetDateTime.toString` gives them, by `String.compareTo`. */
  function CompareSummariesAsWritten(a: ChatSummary, b: ChatSummary): int {
    var byUnread := LongCompare(b.unreadCount, a.unreadCount);
    if byUnread != 0 then byUnread
    else if a.lastMessageCreatedAt.None? && b.lastMessageCreatedAt.None? then 0
    else if a.lastMessageCreatedAt.None? then 1
    else if b.lastMessageCreatedAt.None? then -1
    else TextCompare(IsoText(b.lastMessageCreatedAt.value), IsoText(a.lastMessageCreatedAt.value))
  }

  /** As written, of two chats with as many unread messages, one whose last
      message came on a whole minute and one whose last message came half a
      minute later, the older is listed first; by time, the newer is. The
      texts are those of the creation times at offset UTC, as the message
      entity stamps them, read back at that offset. */
  lemma SummaryOrderAsWrittenMisorders(a: ChatSummary, b: ChatSummary)
    requires a.unreadCount == b.unreadCount
    requires a.lastMessageCreatedAt.Some? && a.lastMessageCreatedAt.value % MillisPerMinute == 0
    requires b.lastMessageCreatedAt == Some(a.lastMessageCreatedAt.value + 30000)
    ensures CompareSummariesAsWritten(a, b) < 0
    ensures CompareSummaries(a, b) > 0 && ListedBefore(b, a)
  {
    var t := a.lastMessageCreatedAt.value;
    assert CompareSummariesAsWritten(a, b) == TextCompare(IsoText(t + 30000), IsoText(t));
    LaterTextSortsFirst(t);
    assert CompareSummaries(a, b) == LongCompare(t + 30000, t);
  }

  /** The order the comparator sets, stated directly: `a` goes strictly before
      `b` when it has more unread messages, or as many and a last message newer
      than `b`'s (any last message being newer than none). */
  predicate ListedBefore(a: ChatSummary, b: ChatSummary) {
    || a.unreadCount > b.unreadCount
    || (a.unreadCount == b.unreadCount && a.lastMessageCreatedAt.Some?
        && (b.lastMessageCreatedAt.None? || a.lastMessageCreatedAt.value > b.lastMessageCreatedAt.value))
  }

  /** The comparator agrees with `ListedBefore`, and is zero exactly on entries
      with the same unread count and the same last-message time. */
  lemma CompareSummariesMeaning(a: ChatSummary, b: ChatSummary)
    ensures CompareSummaries(a, b) < 0 <==> ListedBefore(a, b)
    ensures CompareSummaries(a, b) > 0 <==> ListedBefore(b, a)
    ensures CompareSummaries(a, b) == 0 <==>
      a.unreadCount == b.unreadCount && a.lastMessageCreatedAt == b.lastMessageCreatedAt
  {
  }

  /** The comparator meets the contract of `java.util.Comparator`: it is
      antisymmetric in sign and transitive, so the list can be sorted by it. */
  lemma CompareSummariesContract(a: ChatSummary, b: ChatSummary, c: ChatSummary)
    ensures CompareSummaries(a, b) < 0 <==> CompareSummaries(b, a) > 0
    ensures CompareSummaries(a, b) == 0 <==> CompareSummaries(b, a) == 0
    ensures CompareSummaries(a, b) <= 0 && CompareSummaries(b, c) <= 0 ==> CompareSummaries(a, c) <= 0
    ensures CompareSummaries(a, b) == 0 ==> CompareSummaries(a, c) == CompareSummaries(b, c)
  {
  }

  /** No entry is listed after one the comparator puts after it. */
  ghost predicate SummariesSorted(s: seq<ChatSummary>) {
    forall i, j :: 0 <= i < j < |s| ==> CompareSummaries(s[i], s[j]) <= 0
  }

  /** `result.sort(comparator)`, an insertion sort in place. */
  method SortSummaries(a: array<ChatSummary>)
    modifies a
    ensures SummariesSorted(a[..])
    ensures multiset(a[..]) == multiset(old(a[..]))
  {
    var i := 0;
    while i < a.Length
      invariant 0 <= i <= a.Length
      invariant SummariesSorted(a[..i])
      invariant multiset(a[..]) == multiset(old(a[..]))
    {
      InsertLast(a, i);
      i := i + 1;
    }
    assert a[..i] == a[..];
  }

  /** One pass of the sort: moves `a[i]` down into the sorted prefix `a[..i]`. */
  method InsertLast(a: array<ChatSummary>, i: nat)
    requires i < a.Length
    requires SummariesSorted(a[..i])
    modifies a
    ensures SummariesSorted(a[..i + 1])
    ensures multiset(a[..]) == multiset(old(a[..]))
  {
    var j := i;
    InsertStart(a[..], i);
    while j > 0 && CompareSummaries(a[j - 1], a[j]) > 0
      invariant 0 <= j <= i
      invariant multiset(a[..]) == multiset(old(a[..]))
      invariant SortedAround(a[..], i, j)
    {
      SwapDown(a[..], i, j);
      a[j - 1], a[j] := a[j], a[j - 1];
      j := j - 1;
    }
    InsertEnd(a[..], i, j);
  }

  /** The shape of the array while `a[j]` moves down: the first `i + 1`
      entries other than `a[j]` are in order, and `a[j]` goes before every
      entry above it. */
  ghost predicate SortedAround(s: seq<ChatSummary>, i: nat, j: nat)
    requires j <= i < |s|
  {
    && (forall k, l :: 0 <= k < l <= i && k != j && l != j ==> CompareSummaries(s[k], s[l]) <= 0)
    && (forall l :: j < l <= i ==> CompareSummaries(s[j], s[l]) <= 0)
  }

  lemma InsertStart(s: seq<ChatSummary>, i: nat)
    requires i < |s| && SummariesSorted(s[..i])
    ensures SortedAround(s, i, i)
  {
    forall k, l | 0 <= k < l <= i && k != i && l != i ensures CompareSummaries(s[k], s[l]) <= 0 {
      assert s[k] == s[..i][k] && s[l] == s[..i][l];
    }
  }

  /** Swapping `a[j]` with a larger predecessor keeps the shape one place down. */
  lemma SwapDown(s: seq<ChatSummary>, i: nat, j: nat)
    requires 0 < j <= i < |s| && SortedAround(s, i, j)
    requires CompareSummaries(s[j - 1], s[j]) > 0
    ensures SortedAround(s[j - 1 := s[j]][j := s[j - 1]], i, j - 1)
  {
    var t := s[j - 1 := s[j]][j := s[j - 1]];
    CompareSummariesContract(s[j - 1], s[j], s[j]);
    forall l | j - 1 < l <= i ensures CompareSummaries(t[j - 1], t[l]) <= 0 {
      if l > j {
        assert t[l] == s[l];
      }
    }
    forall k, l | 0 <= k < l <= i && k != j - 1 && l != j - 1 ensures CompareSummaries(t[k], t[l]) <= 0 {
      if l == j {
        assert t[l] == s[j - 1] && t[k] == s[k];
      } else if k == j {
        assert t[k] == s[j - 1] && t[l] == s[l];
      } else {
        assert t[k] == s[k] && t[l] == s[l];
      }
    }
  }

  /** Once `a[j]` is not below its predecessor, the first `i + 1` entries are in order. */
  lemma InsertEnd(s: seq<ChatSummary>, i: nat, j: nat)
    requires j <= i < |s| && SortedAround(s, i, j)
    requires j == 0 || CompareSummaries(s[j - 1], s[j]) <= 0
    ensures SummariesSorted(s[..i + 1])
  {
    var t := s[..i + 1];
    forall k, l | 0 <= k < l < |t| ensures CompareSummaries(t[k], t[l]) <= 0 {
      assert t[k] == s[k] && t[l] == s[l];
      if l == j {
        CompareSummariesContract(s[k], s[j - 1], s[j]);
      }
    }
  }

  /** The loop that fills `unreadByChatId` from the count rows; a later row for
      the same chat replaces an earlier one, as `HashMap.put` does. */
  method UnreadByChatId(rows: seq<(ChatId, nat)>) returns (m: map<ChatId, nat>)
    ensures forall c :: c in m <==> exists k :: 0 <= k < |rows| && rows[k].0 == c
    ensures forall k :: 0 <= k < |rows| ==> rows[k].0 in m
    ensures forall k :: 0 <= k < |rows| && (forall l :: k < l < |rows| ==> rows[l].0 != rows[k].0) ==>
      m[rows[k].0] == rows[k].1
  {
    m := map[];
    var i := 0;
    while i < |rows|
      invariant 0 <= i <= |rows|
      invariant forall c :: c in m <==> exists k :: 0 <= k < i && rows[k].0 == c
      invariant forall k :: 0 <= k < i ==> rows[k].0 in m
      invariant forall k :: 0 <= k < i && (forall l :: k < l < i ==> rows[l].0 != rows[k].0) ==> m[rows[k].0] == rows[k].1
    {
      m := m[rows[i].0 := rows[i].1];
      i := i + 1;
    }
  }

  /** `unreadByChatId.getOrDefault(chat.getId(), 0L)` is the unread count of the chat. */
  lemma UnreadLookup(db: Db, userId: UserId, m: map<ChatId, nat>, chat: Chat)
    requires Valid(db) && chat in db.chats
    requires var rows := UnreadCountRows(db, userId);
      && (forall c :: c in m <==> exists k :: 0 <= k < |rows| && rows[k].0 == c)
      && (forall k :: 0 <= k < |rows| ==> rows[k].0 in m)
      && (forall k :: 0 <= k < |rows| && (forall l :: k < l < |rows| ==> rows[l].0 != rows[k].0) ==> m[rows[k].0] == rows[k].1)
    ensures (if chat.id in m then m[chat.id] else 0) == UnreadCount(db, userId, chat.id)
  {
    var rows := UnreadCountRows(db, userId);
    var k :| 0 <= k < |db.chats| && db.chats[k] == chat;
    var n := UnreadCount(db, userId, chat.id);
    if chat.id in m {
      var i :| 0 <= i < |rows| && rows[i].0 == chat.id;
      assert rows[i] in rows;
      assert m[rows[i].0] == rows[i].1;
    } else {
      assert n > 0 ==> (chat.id, n) in rows;
    }
  }

  lemma UnreadLookupAll(db: Db, userId: UserId, m: map<ChatId, nat>, chats: seq<Chat>)
    requires Valid(db) && forall c :: c in chats ==> c in db.chats
    requires var rows := UnreadCountRows(db, userId);
      && (forall c :: c in m <==> exists k :: 0 <= k < |rows| && rows[k].0 == c)
      && (forall k :: 0 <= k < |rows| ==> rows[k].0 in m)
      && (forall k :: 0 <= k < |rows| && (forall l :: k < l < |rows| ==> rows[l].0 != rows[k].0) ==> m[rows[k].0] == rows[k].1)
    ensures forall c :: c in chats ==> (if c.id in m then m[c.id] else 0) == UnreadCount(db, userId, c.id)
  {
    forall c | c in chats ensures (if c.id in m then m[c.id] else 0) == UnreadCount(db, userId, c.id) {
      UnreadLookup(db, userId, m, c);
    }
  }

  /** getChatSummaries: the user's chats, the unread count of each, its newest
      message, then the list sorted by the comparator. */
  method GetChatSummaries(db: Db, userId: UserId) returns (r: Result<seq<ChatSummary>>)
    requires Valid(db)
    ensures r.Err? <==> userId !in db.users
    ensures r.Err? ==> r.error == UserNotFound(userId)
    ensures r.Ok? ==> SummariesSorted(r.value)
    ensures r.Ok? ==> multiset(r.value) == multiset(Summaries(db, userId, GetChatsForUserAsChats(db, userId).value))
    ensures r.Ok? ==> forall c :: c in db.chats && IsParticipant(db, c.id, userId) ==> SummaryOf(db, userId, c) in r.value
    ensures r.Ok? ==> forall s :: s in r.value ==>
      exists c :: c in db.chats && IsParticipant(db, c.id, userId) && s == SummaryOf(db, userId, c)
    ensures r.Ok? ==> forall i, j :: 0 <= i < j < |r.value| && r.value[i].lastMessageCreatedAt.None? ==>
      r.value[j].lastMessageCreatedAt.None?
  {
    var chats := GetChatsForUserAsChats(db, userId);
    if chats.Err? {
      return Err(chats.error);
    }
    var unreadByChatId := UnreadByChatId(UnreadCountRows(db, userId));
    UnreadLookupAll(db, userId, unreadByChatId, chats.value);
    var result := BuildSummaries(db, userId, chats.value, unreadByChatId);
    var sorted := SortedCopy(result);
    SummariesOfUserChats(db, userId, chats.value, sorted);
    EmptyChatsLast(db, userId, sorted);
    r := Ok(sorted);
  }

  /** In a sorted list of chat summaries, chats without messages come last:
      such a chat has no unread messages either, so nothing sorts after it but
      another chat without messages. */
  lemma EmptyChatsLast(db: Db, userId: UserId, r: seq<ChatSummary>)
    requires Valid(db) && SummariesSorted(r)
    requires forall s :: s in r ==> exists c :: c in db.chats && s == SummaryOf(db, userId, c)
    ensures forall i, j :: 0 <= i < j < |r| && r[i].lastMessageCreatedAt.None? ==> r[j].lastMessageCreatedAt.None?
  {
    forall i, j | 0 <= i < j < |r| && r[i].lastMessageCreatedAt.None?
      ensures r[j].lastMessageCreatedAt.None?
    {
      assert r[i] in r;
      var c :| c in db.chats && r[i] == SummaryOf(db, userId, c);
      NoMessagesNoUnread(db, userId, c);
      assert r[j] in r;
      var c' :| c' in db.chats && r[j] == SummaryOf(db, userId, c');
      assert CompareSummaries(r[i], r[j]) <= 0;
      NothingAfterEmpty(r[i], r[j]);
    }
  }

  /** Only another summary without unread or last message sorts after one
      without either. */
  lemma NothingAfterEmpty(a: ChatSummary, b: ChatSummary)
    requires a.unreadCount == 0 && a.lastMessageCreatedAt.None? && b.unreadCount >= 0
    requires CompareSummaries(a, b) <= 0
    ensures b.unreadCount == 0 && b.lastMessageCreatedAt.None?
  {
  }

  /** A chat without messages has no unread messages. */
  lemma NoMessagesNoUnread(db: Db, userId: UserId, c: Chat)
    requires Valid(db)
    ensures SummaryOf(db, userId, c).lastMessageCreatedAt.None? ==> SummaryOf(db, userId, c).unreadCount == 0
  {
    if LatestMessage(db, c.id).None? {
      UnreadCountZero(db, userId, c.id);
    }
  }

  /** The result list copied into an array, sorted there, and read back. */
  method SortedCopy(result: seq<ChatSummary>) returns (sorted: seq<ChatSummary>)
    ensures SummariesSorted(sorted)
    ensures multiset(sorted) == multiset(result)
  {
    var a := new ChatSummary[|result|](k requires 0 <= k < |result| => result[k]);
    assert a[..] == result;
    SortSummaries(a);
    sorted := a[..];
  }

  /** The loop that builds one summary per chat, in the order of the chats. */
  method BuildSummaries(db: Db, userId: UserId, chats: seq<Chat>, unreadByChatId: map<ChatId, nat>)
    returns (result: seq<ChatSummary>)
    requires Valid(db)
    requires forall c :: c in chats ==> (if c.id in unreadByChatId then unreadByChatId[c.id] else 0) == UnreadCount(db, userId, c.id)
    ensures result == Summaries(db, userId, chats)
  {
    result := [];
    var i := 0;
    while i < |chats|
      invariant 0 <= i <= |chats|
      invariant result == Summaries(db, userId, chats[..i])
    {
      var chat := chats[i];
      assert chat in chats;
      var last := LatestMessage(db, chat.id);
      var unreadCount := if chat.id in unreadByChatId then unreadByChatId[chat.id] else 0;
      var summary := SummaryWith(chat, last, unreadCount);
      assert summary == SummaryOf(db, userId, chat);
      SummariesNext(db, userId, chats, i);
      result := result + [summary];
      i := i + 1;
    }
    assert chats[..i] == chats;
  }

  lemma SummariesNext(db: Db, userId: UserId, chats: seq<Chat>, i: nat)
    requires Valid(db) && i < |chats|
    ensures Summaries(db, userId, chats[..i + 1]) == Summaries(db, userId, chats[..i]) + [SummaryOf(db, userId, chats[i])]
  {
    assert chats[..i + 1] == chats[..i] + [chats[i]];
  }

  /** Any arrangement of the summaries of some chats holds the summary of each. */
  lemma SummariesCoverChats(db: Db, userId: UserId, chats: seq<Chat>, r: seq<ChatSummary>)
    requires Valid(db)
    requires multiset(r) == multiset(Summaries(db, userId, chats))
    ensures forall c :: c in chats ==> SummaryOf(db, userId, c) in r
  {
    var all := Summaries(db, userId, chats);
    forall c | c in chats ensures SummaryOf(db, userId, c) in r {
      var k :| 0 <= k < |chats| && chats[k] == c;
      assert all[k] in multiset(all);
    }
  }

  /** A list ordered any way from the summaries of the user's chats holds the
      summary of every chat the user takes part in, and nothing else. */
  lemma SummariesOfUserChats(db: Db, userId: UserId, chats: seq<Chat>, r: seq<ChatSummary>)
    requires Valid(db)
    requires forall c :: c in chats <==> c in db.chats && IsParticipant(db, c.id, userId)
    requires multiset(r) == multiset(Summaries(db, userId, chats))
    ensures forall c :: c in db.chats && IsParticipant(db, c.id, userId) ==> SummaryOf(db, userId, c) in r
    ensures forall s :: s in r ==> exists c :: c in db.chats && IsParticipant(db, c.id, userId) && s == SummaryOf(db, userId, c)
  {
    SummariesCoverChats(db, userId, chats, r);
    SummariesFromChats(db, userId, chats, r);
  }

  /** ... and nothing but summaries of those chats. */
  lemma SummariesFromChats(db: Db, userId: UserId, chats: seq<Chat>, r: seq<ChatSummary>)
    requires Valid(db)
    requires multiset(r) == multiset(Summaries(db, userId, chats))
    ensures forall s :: s in r ==> exists c :: c in chats && s == SummaryOf(db, userId, c)
  {
    var all := Summaries(db, userId, chats);
    forall s | s in r ensures exists c :: c in chats && s == SummaryOf(db, userId, c) {
      assert s in multiset(all);
      var k :| 0 <= k < |all| && all[k] == s;
      assert chats[k] in chats;
    }
  }
}
