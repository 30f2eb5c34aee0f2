/** The relational store the services read and write, as plain tables.

    Each table is a sequence of rows in insertion order. Chats and messages get
    their ids from an identity column, so the row at index i has id i + 1. The
    unique constraints of the entities (a participant row per chat and user, a
    client message id per chat, a receipt per message and user) are the
    invariant `Valid`. */
module Store {
  import opened Common

  type UserId = int
  type ChatId = int
  type MessageId = int

  /** A point in time, in milliseconds since the epoch. */
  type Time = int

  /** The declared lengths of the two bounded text columns: a message's client
      message id and a chat's title. */
  const ClientMessageIdLength := 64
  const TitleLength := 128

  /** The error the database reports for a value longer than its column. */
  function ValueTooLong(length: nat): string {
    "value too long for type character varying(" + LongToString(length) + ")"
  }

  /** The error the database reports for a message saved without a body, whose
      column is declared not null. */
  const NullBody := "null value in column \"body\" of relation \"messages\" violates not-null constraint"

  datatype Chat = Chat(id: ChatId, isGroup: bool, title: Option<string>, createdBy: UserId)

  datatype Participant = Participant(chatId: ChatId, userId: UserId, role: string)

  datatype Message = Message(
    id: MessageId,
    chatId: ChatId,
    senderId: UserId,
    body: string,
    createdAt: Time,
    clientMessageId: Option<string>)

  datatype Receipt = Receipt(
    messageId: MessageId,
    userId: UserId,
    deliveredAt: Option<Time>,
    readAt: Option<Time>)

  datatype Db = Db(
    users: set<UserId>,
    chats: seq<Chat>,
    participants: seq<Participant>,
    messages: seq<Message>,
    receipts: seq<Receipt>)

  /** uk_chat_user: at most one participant row per (chat, user). */
  ghost predicate UniqueParticipants(ps: seq<Participant>) {
    forall i, j :: 0 <= i < j < |ps| ==> (ps[i].chatId, ps[i].userId) != (ps[j].chatId, ps[j].userId)
  }

  /** uk_chat_client_msg_id: a non-null client message id occurs once per chat
      (null ids never collide, as in SQL). */
  ghost predicate UniqueClientMessageIds(ms: seq<Message>) {
    forall i, j :: 0 <= i < j < |ms| && ms[i].chatId == ms[j].chatId && ms[i].clientMessageId.Some? ==>
      ms[i].clientMessageId != ms[j].clientMessageId
  }

  /** uk_message_user: at most one receipt per (message, user). */
  ghost predicate UniqueReceipts(rs: seq<Receipt>) {
    forall i, j :: 0 <= i < j < |rs| ==> (rs[i].messageId, rs[i].userId) != (rs[j].messageId, rs[j].userId)
  }

  ghost predicate Valid(db: Db) {
    && (forall i :: 0 <= i < |db.chats| ==> db.chats[i].id == i + 1)
    && (forall i :: 0 <= i < |db.messages| ==> db.messages[i].id == i + 1)
    && (forall p :: p in db.participants ==> 1 <= p.chatId <= |db.chats|)
    && (forall m :: m in db.messages ==> 1 <= m.chatId <= |db.chats|)
    && (forall r :: r in db.receipts ==> 1 <= r.messageId <= |db.messages|)
    && UniqueParticipants(db.participants)
    && UniqueClientMessageIds(db.messages)
    && UniqueReceipts(db.receipts)
  }

  /** `ChatRepository.findById`. */
  function FindChat(db: Db, chatId: ChatId): (r: Option<Chat>)
    requires Valid(db)
    ensures r.Some? <==> exists c :: c in db.chats && c.id == chatId
    ensures r.Some? ==> r.value in db.chats && r.value.id == chatId
  {
    if 1 <= chatId <= |db.chats| then Some(db.chats[chatId - 1]) else None
  }

  /** `MessageRepository.findById`. */
  function FindMessage(db: Db, messageId: MessageId): (r: Option<Message>)
    requires Valid(db)
    ensures r.Some? <==> exists m :: m in db.messages && m.id == messageId
    ensures r.Some? ==> r.value in db.messages && r.value.id == messageId
  {
    if 1 <= messageId <= |db.messages| then Some(db.messages[messageId - 1]) else None
  }

  predicate IsParticipant(db: Db, chatId: ChatId, userId: UserId) {
    exists p :: p in db.participants && p.chatId == chatId && p.userId == userId
  }

  /** `ChatParticipantRepository.findByChatId`: the chat's rows in table order. */
  function ParticipantsOf(ps: seq<Participant>, chatId: ChatId): (r: seq<Participant>)
    ensures forall p :: p in r <==> p in ps && p.chatId == chatId
    ensures |r| <= |ps|
  {
    if ps == [] then []
    else
      var rest := ParticipantsOf(ps[1..], chatId);
      assert forall p :: p in ps <==> p == ps[0] || p in ps[1..];
      if ps[0].chatId == chatId then [ps[0]] + rest else rest
  }

  /** The user ids of a list of participant rows, in the same order. */
  function UserIds(ps: seq<Participant>): (r: seq<UserId>)
    ensures |r| == |ps|
    ensures forall i :: 0 <= i < |ps| ==> r[i] == ps[i].userId
  {
    if ps == [] then [] else [ps[0].userId] + UserIds(ps[1..])
  }

  /** `MessageReceiptRepository.findByMessageAndUser`: the index of the receipt of
      (message, user), if there is one. */
  function FindReceipt(rs: seq<Receipt>, messageId: MessageId, userId: UserId): (r: Option<nat>)
    ensures r.Some? ==> r.value < |rs| && rs[r.value].messageId == messageId && rs[r.value].userId == userId
    ensures r.None? ==> forall i :: 0 <= i < |rs| ==> (rs[i].messageId, rs[i].userId) != (messageId, userId)
  {
    if rs == [] then None
    else if rs[|rs| - 1].messageId == messageId && rs[|rs| - 1].userId == userId then Some(|rs| - 1)
    else FindReceipt(rs[..|rs| - 1], messageId, userId)
  }

  /** With unique receipts, the receipt found is the only one of (message, user). */
  lemma FindReceiptUnique(rs: seq<Receipt>, messageId: MessageId, userId: UserId, i: nat)
    requires UniqueReceipts(rs)
    requires i < |rs| && rs[i].messageId == messageId && rs[i].userId == userId
    ensures FindReceipt(rs, messageId, userId) == Some(i)
  {
  }
}
