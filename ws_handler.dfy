/** A WebSocket node: the handshake that copies the user header into the
    session attributes, the per-node registry of open sessions by user, the
    validation of inbound frames into ingest intents, and the delivery of
    fanout events to the local sessions of the users they concern. */
module WebSocket {
  import opened Common
  import opened Store
  import opened ChatService
  import opened MessageService
  import opened Events

  /** The header the client names itself with, and the session attribute the
      handler stores the parsed user id under. */
  const UserIdHeader := "X-User-Id"
  const UserIdAttribute := "userId"

  /** A session attribute value: a string, a boxed `Long`, or another object,
      shown by its `toString`. */
  datatype Attr = Text(text: string) | LongValue(n: Long) | OtherValue(shown: string)

  datatype CloseStatus = CloseStatus(code: int, reason: string)

  /** `CloseStatus.NOT_ACCEPTABLE`. */
  const NotAcceptable := 1003
  const MissingUserIdReason := "Missing X-User-Id"

  const ClassCastException := "ClassCastException"
  const NumberFormatException := "NumberFormatException"

  /** The attribute map of a handshake, which becomes the session's own. */
  class Attributes {
    var values: map<string, Attr>

    constructor(values: map<string, Attr>)
      ensures this.values == values
    {
      this.values := values;
    }
  }

  class Session {
    const id: string
    const attributes: Attributes
    var open: bool
    var closeStatus: Option<CloseStatus>

    constructor(id: string, attributes: Attributes)
      ensures this.id == id && this.attributes == attributes && open && closeStatus == None
    {
      this.id := id;
      this.attributes := attributes;
      open := true;
      closeStatus := None;
    }

    method Close(status: CloseStatus)
      modifies this
      ensures !open && closeStatus == Some(status)
    {
      open := false;
      closeStatus := Some(status);
    }
  }

  // ---------------------------------------------------------------------------
  // Handshake

  /** The request carries the header with at least one value. */
  predicate HasUserHeader(headers: map<string, seq<string>>) {
    UserIdHeader in headers && headers[UserIdHeader] != []
  }

  /** The attributes after `beforeHandshake`: the first value of the header is
      stored under its own name; nothing else changes. This is the
      specification of the method `BeforeHandshake`. */
  function CopyUserHeader(headers: map<string, seq<string>>, attrs: map<string, Attr>): (r: map<string, Attr>)
    ensures forall k :: k != UserIdHeader ==> (k in r <==> k in attrs) && (k in r ==> r[k] == attrs[k])
    ensures UserIdHeader in r <==> UserIdHeader in attrs || HasUserHeader(headers)
    ensures HasUserHeader(headers) ==> r[UserIdHeader] == Text(headers[UserIdHeader][0])
    ensures !HasUserHeader(headers) ==> r == attrs
  {
    if HasUserHeader(headers) then attrs[UserIdHeader := Text(headers[UserIdHeader][0])] else attrs
  }

  /** beforeHandshake: always lets the handshake proceed. */
  method BeforeHandshake(headers: map<string, seq<string>>, attributes: Attributes) returns (proceed: bool)
    modifies attributes
    ensures proceed
    ensures attributes.values == CopyUserHeader(headers, old(attributes.values))
  {
    if UserIdHeader in headers && headers[UserIdHeader] != [] {
      attributes.values := attributes.values[UserIdHeader := Text(headers[UserIdHeader][0])];
    }
    proceed := true;
  }

  // ---------------------------------------------------------------------------
  // Resolving the user of a session

  /** How a session's user is found: not at all, a user id, or the exception
      the lookup throws. */
  datatype Resolution = Missing | Resolved(userId: Long) | Threw(exception: string)

  /** The id text of `afterConnectionEstablished`: the header attribute, cast to
      a string, or else the text of the `userId` attribute. */
  function UserIdText(attrs: map<string, Attr>): (r: Result<Option<string>>)
    ensures r.Err? <==> UserIdHeader in attrs && !attrs[UserIdHeader].Text?
    ensures r == Ok(None) <==> UserIdHeader !in attrs && UserIdAttribute !in attrs
  {
    if UserIdHeader in attrs then
      match attrs[UserIdHeader]
      case Text(s) => Ok(Some(s))
      case _ => Err(ClassCastException)
    else if UserIdAttribute in attrs then
      match attrs[UserIdAttribute]
      case Text(s) => Ok(Some(s))
      case LongValue(n) => Ok(Some(LongToString(n)))
      case OtherValue(shown) => Ok(Some(shown))
    else Ok(None)
  }

  /** The user a new session belongs to. */
  function ResolveUserId(attrs: map<string, Attr>): (r: Resolution)
    ensures r.Missing? <==> UserIdHeader !in attrs && UserIdAttribute !in attrs
    ensures UserIdHeader in attrs && !attrs[UserIdHeader].Text? ==> r == Threw(ClassCastException)
    ensures UserIdHeader in attrs && attrs[UserIdHeader].Text? ==>
      match ParseLong(attrs[UserIdHeader].text)
      case Some(n) => r == Resolved(n)
      case None => r == Threw(NumberFormatException)
  {
    match UserIdText(attrs)
    case Err(e) => Threw(e)
    case Ok(None) => Missing
    case Ok(Some(s)) =>
      match ParseLong(s)
      case Some(n) => Resolved(n)
      case None => Threw(NumberFormatException)
  }

  /** A session whose attributes already hold the handler's own `userId` entry,
      and no header, resolves to that user again. */
  lemma ResolveStoredUserId(attrs: map<string, Attr>, n: Long)
    requires UserIdHeader !in attrs && UserIdAttribute in attrs && attrs[UserIdAttribute] == LongValue(n)
    ensures ResolveUserId(attrs) == Resolved(n)
  {
    ParseLongToString(n);
  }

  /** A handshake whose header is the decimal text of a user id resolves to that
      user; one without the header, on attributes with neither key, leaves the
      session without a user. */
  lemma HandshakeThenResolve(headers: map<string, seq<string>>, attrs: map<string, Attr>, n: Long)
    ensures HasUserHeader(headers) && headers[UserIdHeader][0] == LongToString(n) ==>
      ResolveUserId(CopyUserHeader(headers, attrs)) == Resolved(n)
    ensures !HasUserHeader(headers) && UserIdHeader !in attrs && UserIdAttribute !in attrs ==>
      ResolveUserId(CopyUserHeader(headers, attrs)) == Missing
  {
    ParseLongToString(n);
  }

  /** The user a closing session, or an inbound frame, is attributed to: the
      `userId` attribute, cast to a `Long`. */
  function SessionUser(attrs: map<string, Attr>): (r: Resolution)
    ensures r.Missing? <==> UserIdAttribute !in attrs
    ensures r.Resolved? ==> UserIdAttribute in attrs && attrs[UserIdAttribute] == LongValue(r.userId)
    ensures UserIdAttribute in attrs && attrs[UserIdAttribute].LongValue? ==> r == Resolved(attrs[UserIdAttribute].n)
    ensures UserIdAttribute in attrs && !attrs[UserIdAttribute].LongValue? ==> r == Threw(ClassCastException)
  {
    if UserIdAttribute !in attrs then Missing
    else match attrs[UserIdAttribute]
      case LongValue(n) => Resolved(n)
      case _ => Threw(ClassCastException)
  }

  // ---------------------------------------------------------------------------
  // The session registry

  /** No user is registered with an empty set of sessions, and no session is
      registered for two users. */
  ghost predicate RegistryValid(m: map<UserId, set<Session>>) {
    && (forall u :: u in m ==> m[u] != {})
    && (forall u, v :: u in m && v in m && u != v ==> m[u] !! m[v])
  }

  /** Every registered session. */
  ghost function AllSessions(m: map<UserId, set<Session>>): set<Session> {
    set u, s | u in m && s in m[u] :: s
  }

  /** The sessions registered for the given users. */
  ghost function SessionsOf(m: map<UserId, set<Session>>, users: set<UserId>): set<Session> {
    set u, s | u in users && u in m && s in m[u] :: s
  }

  /** Any element of a non-empty set: the next key a map iteration visits. */
  method PickOne<T>(xs: set<T>) returns (x: T)
    requires xs != {}
    ensures x in xs
  {
    x :| x in xs;
  }

  lemma SessionsOfAll(m: map<UserId, set<Session>>)
    ensures SessionsOf(m, m.Keys) == AllSessions(m)
  {
  }

  /** Adding one more user adds that user's sessions, which no other user has. */
  lemma SessionsOfAdd(m: map<UserId, set<Session>>, users: set<UserId>, u: UserId)
    requires RegistryValid(m) && u in m && u !in users
    ensures |SessionsOf(m, users + {u})| == |SessionsOf(m, users)| + |m[u]|
  {
    var before := SessionsOf(m, users);
    assert SessionsOf(m, users + {u}) == before + m[u];
    forall s | s in before ensures s !in m[u] {
      var v :| v in users && v in m && s in m[v];
      assert m[v] !! m[u];
    }
  }

  /** `computeIfAbsent(userId, ...).add(session)`. */
  function Register(m: map<UserId, set<Session>>, u: UserId, s: Session): (r: map<UserId, set<Session>>)
    ensures r.Keys == m.Keys + {u}
    ensures forall v :: v in m && v != u ==> r[v] == m[v]
  {
    m[u := (if u in m then m[u] else {}) + {s}]
  }

  /** Remove the session from the user's set, and the user once the set is empty. */
  function Unregister(m: map<UserId, set<Session>>, u: UserId, s: Session): (r: map<UserId, set<Session>>)
    ensures forall v :: v != u ==> (v in r <==> v in m) && (v in r ==> r[v] == m[v])
  {
    if u !in m then m
    else if m[u] - {s} == {} then m - {u}
    else m[u := m[u] - {s}]
  }

  lemma RegisterValid(m: map<UserId, set<Session>>, u: UserId, s: Session)
    requires RegistryValid(m) && s !in AllSessions(m)
    ensures RegistryValid(Register(m, u, s))
    ensures AllSessions(Register(m, u, s)) == AllSessions(m) + {s}
  {
    var r := Register(m, u, s);
    assert forall o :: o in m ==> s !in m[o];
    forall x | x in AllSessions(r) ensures x in AllSessions(m) + {s} {
      var v :| v in r && x in r[v];
      if v != u || x != s {
        assert x in m[v];
      }
    }
    forall x | x in AllSessions(m) + {s} ensures x in AllSessions(r) {
      if x != s {
        var v :| v in m && x in m[v];
        assert x in r[v];
      } else {
        assert x in r[u];
      }
    }
  }

  lemma UnregisterValid(m: map<UserId, set<Session>>, u: UserId, s: Session)
    requires RegistryValid(m)
    ensures RegistryValid(Unregister(m, u, s))
    ensures u in m && s in m[u] ==> AllSessions(Unregister(m, u, s)) == AllSessions(m) - {s}
    ensures !(u in m && s in m[u]) ==> AllSessions(Unregister(m, u, s)) == AllSessions(m)
  {
    var r := Unregister(m, u, s);
    forall x | x in AllSessions(r) ensures x in AllSessions(m) {
      var v :| v in r && x in r[v];
      assert x in m[v];
    }
    if u in m && s in m[u] {
      forall x | x in AllSessions(m) - {s} ensures x in AllSessions(r) {
        var v :| v in m && x in m[v];
        assert x in r[v];
      }
      forall v | v in r ensures s !in r[v] {
        if v != u {
          assert m[u] !! m[v];
        }
      }
    } else {
      forall x | x in AllSessions(m) ensures x in AllSessions(r) {
        var v :| v in m && x in m[v];
        assert x in r[v];
      }
    }
  }

  /** Closing a session right after it was registered gives the registry back. */
  lemma UnregisterUndoesRegister(m: map<UserId, set<Session>>, u: UserId, s: Session)
    requires RegistryValid(m) && s !in AllSessions(m)
    ensures Unregister(Register(m, u, s), u, s) == m
  {
    var r := Register(m, u, s);
    if u in m {
      assert s !in m[u];
      assert r[u] - {s} == m[u];
    }
  }

  // ---------------------------------------------------------------------------
  // Frames

  /** The frames a node sends on a session; the type tag of each is `FrameType`. */
  datatype Frame =
    | ErrorFrame(error: string)
    | MessageAcceptedFrame(clientMessageId: Option<string>)
    | ReadAcceptedFrame(chatId: ChatId, messageIds: seq<MessageId>)
    | NewMessageFrame(id: MessageId, chatId: ChatId, senderId: UserId, body: string, createdAt: Time)
    | ReadReceiptFrame(chatId: ChatId, readerId: UserId, messageIds: seq<MessageId>, readAt: Time)
    | MessageStatusFrame(messageId: MessageId, chatId: ChatId, status: string)

  function FrameType(f: Frame): string {
    match f
    case ErrorFrame(_) => "ERROR"
    case MessageAcceptedFrame(_) => "MESSAGE_ACCEPTED"
    case ReadAcceptedFrame(_, _) => "READ_ACCEPTED"
    case NewMessageFrame(_, _, _, _, _) => "NEW_MESSAGE"
    case ReadReceiptFrame(_, _, _, _) => "READ_RECEIPT"
    case MessageStatusFrame(_, _, _) => "MESSAGE_STATUS"
  }

  // ---------------------------------------------------------------------------
  // Inbound frames

  const SendMessageType := "SEND_MESSAGE"
  const ReadMessagesType := "READ_MESSAGES"

  const NotAuthenticated := "Not authenticated"
  const InvalidJson := "Invalid JSON"
  const MissingType := "Missing type"
  const SendFieldsRequired := "chatId and body are required"
  const ReadFieldsRequired := "chatId and messageIds are required"
  const InternalError := "Internal error"

  function UnknownType(t: string): string {
    "Unknown type: " + t
  }

  /** The message of the exception raised when the handler reads the type of
      a frame that decoded to null. */
  const NullFrame := "Cannot read field \"type\" because \"inbound\" is null"

  /** What the JSON decoder makes of a frame's text: no JSON at all, the JSON
      literal `null`, which decodes to a null object, or a frame. */
  datatype Decoding = InvalidText | NullDocument | Decoded(inbound: Inbound)

  /** A decoded inbound frame; absent JSON fields are None. */
  datatype Inbound = Inbound(
    messageType: Option<string>,
    chatId: Option<ChatId>,
    body: Option<string>,
    clientMessageId: Option<string>,
    messageIds: Option<seq<MessageId>>)

  /** An intent handed to a producer. */
  datatype Intent = SendIntent(send: ChatMessageEvent) | ReadIntent(read: ReadReceiptEvent)

  /** What handling one inbound frame does: the reply sent on the session, the
      intent handed to a producer, or the exception that escapes the handler. */
  datatype Handled = Handled(reply: Option<Frame>, produced: Option<Intent>, threw: Option<string>)

  function Reply(f: Frame): Handled {
    Handled(Some(f), None, None)
  }

  /** handleSendMessage, once the session's user is known. The producer either
      takes the intent or throws. */
  function HandleSendMessage(db: Db, userId: UserId, inbound: Inbound, nowMillis: int, producerAccepts: bool): Handled
    requires Valid(db)
  {
    if inbound.chatId.None? || inbound.body.None? then Reply(ErrorFrame(SendFieldsRequired))
    else match GetChatForUserOrThrow(db, inbound.chatId.value, userId)
      case Err(e) => Reply(ErrorFrame(e))
      case Ok(_) =>
        if !producerAccepts then Reply(ErrorFrame(InternalError))
        else
          var event := ChatMessageEvent(inbound.chatId.value, userId, inbound.body, inbound.clientMessageId, nowMillis);
          Handled(Some(MessageAcceptedFrame(inbound.clientMessageId)), Some(SendIntent(event)), None)
  }

  /** handleReadMessages, once the session's user is known. */
  function HandleReadMessages(db: Db, userId: UserId, inbound: Inbound, nowMillis: int, producerAccepts: bool): Handled
    requires Valid(db)
  {
    if inbound.chatId.None? || inbound.messageIds.None? || inbound.messageIds.value == [] then Reply(ErrorFrame(ReadFieldsRequired))
    else match GetChatForUserOrThrow(db, inbound.chatId.value, userId)
      case Err(e) => Reply(ErrorFrame(e))
      case Ok(_) =>
        if !producerAccepts then Reply(ErrorFrame(InternalError))
        else
          var event := ReadReceiptEvent(inbound.chatId.value, userId, inbound.messageIds.value, Some(nowMillis));
          Handled(Some(ReadAcceptedFrame(inbound.chatId.value, inbound.messageIds.value)), Some(ReadIntent(event)), None)
  }

  /** handleTextMessage: authenticate by the session attribute, decode, dispatch
      on the type. */
  function HandleTextMessage(attrs: map<string, Attr>, payload: string, decode: string -> Decoding, db: Db,
                             nowMillis: int, producerAccepts: bool): (h: Handled)
    requires Valid(db)
    ensures h.threw.Some? <==> h.reply.None?
    ensures h.threw.Some? <==> SessionUser(attrs).Threw? || (SessionUser(attrs).Resolved? && decode(payload).NullDocument?)
    ensures h.threw.Some? ==> h.produced.None?
    ensures SessionUser(attrs).Threw? ==> h.threw == Some(SessionUser(attrs).exception)
    ensures SessionUser(attrs).Resolved? && decode(payload).NullDocument? ==> h.threw == Some(NullFrame)
    ensures h.produced.Some? ==> h.reply.Some? && !h.reply.value.ErrorFrame?
    ensures h.reply.Some? && h.reply.value.ErrorFrame? ==> h.produced.None?
    ensures SessionUser(attrs).Missing? ==> h == Reply(ErrorFrame(NotAuthenticated))
    ensures SessionUser(attrs).Resolved? && decode(payload).InvalidText? ==> h == Reply(ErrorFrame(InvalidJson))
  {
    match SessionUser(attrs)
    case Missing => Reply(ErrorFrame(NotAuthenticated))
    case Threw(e) => Handled(None, None, Some(e))
    case Resolved(userId) =>
      match decode(payload)
      case InvalidText => Reply(ErrorFrame(InvalidJson))
      case NullDocument => Handled(None, None, Some(NullFrame))
      case Decoded(inbound) =>
        match inbound.messageType
        case None => Reply(ErrorFrame(MissingType))
        case Some(t) =>
          if t == SendMessageType then HandleSendMessage(db, userId, inbound, nowMillis, producerAccepts)
          else if t == ReadMessagesType then HandleReadMessages(db, userId, inbound, nowMillis, producerAccepts)
          else Reply(ErrorFrame(UnknownType(t)))
  }

  /** An intent is produced exactly when the session is authenticated, the frame
      decodes to a known type with its required fields, the session's user takes
      part in the chat, and the producer takes it. The intent always names the
      session's user, never a user named in the frame, and carries the frame's
      fields. */
  lemma HandleTextMessageProduces(attrs: map<string, Attr>, payload: string, decode: string -> Decoding, db: Db,
                                  nowMillis: int, producerAccepts: bool)
    requires Valid(db)
    ensures var h := HandleTextMessage(attrs, payload, decode, db, nowMillis, producerAccepts);
      h.produced.Some? <==>
        && SessionUser(attrs).Resolved?
        && decode(payload).Decoded?
        && var inbound := decode(payload).inbound;
        && inbound.chatId.Some?
        && GetChatForUserOrThrow(db, inbound.chatId.value, SessionUser(attrs).userId).Ok?
        && producerAccepts
        && ((inbound.messageType == Some(SendMessageType) && inbound.body.Some?)
            || (inbound.messageType == Some(ReadMessagesType) && inbound.messageIds.Some? && inbound.messageIds.value != []))
    ensures var h := HandleTextMessage(attrs, payload, decode, db, nowMillis, producerAccepts);
      h.produced.Some? ==>
        var userId := SessionUser(attrs).userId;
        var inbound := decode(payload).inbound;
        match h.produced.value
        case SendIntent(e) =>
          && e == ChatMessageEvent(inbound.chatId.value, userId, inbound.body, inbound.clientMessageId, nowMillis)
          && h.reply == Some(MessageAcceptedFrame(inbound.clientMessageId))
        case ReadIntent(e) =>
          && e == ReadReceiptEvent(inbound.chatId.value, userId, inbound.messageIds.value, Some(nowMillis))
          && h.reply == Some(ReadAcceptedFrame(inbound.chatId.value, inbound.messageIds.value))
  {
  }

  // ---------------------------------------------------------------------------
  // The payload text of an ERROR frame

  const ErrorPayloadPrefix := "{\"error\":\""
  const ErrorPayloadSuffix := "\"}"

  /** The payload of an ERROR frame as `sendError` builds it: the error text
      spliced between the quotes of a JSON string, unescaped. */
  function ErrorPayloadAsWritten(error: string): string {
    ErrorPayloadPrefix + error + ErrorPayloadSuffix
  }

  /** JSON string escaping of the two characters that end or escape a string. */
  function Escape(s: string): (r: string)
    ensures |r| >= |s|
  {
    if s == [] then []
    else (if s[0] == '"' || s[0] == '\\' then ['\\', s[0]] else [s[0]]) + Escape(s[1..])
  }

  /** The payload of an ERROR frame with the error text escaped. */
  function ErrorPayload(error: string): string {
    ErrorPayloadPrefix + Escape(error) + ErrorPayloadSuffix
  }

  /** Reads the body of a JSON string up to its closing quote: the text it
      denotes and what follows the quote. */
  function ReadString(s: string): Option<(string, string)>
    decreases |s|
  {
    if s == [] then None
    else if s[0] == '"' then Some(([], s[1..]))
    else if s[0] == '\\' then
      if |s| < 2 then None
      else match ReadString(s[2..])
        case None => None
        case Some((t, rest)) => Some(([s[1]] + t, rest))
    else match ReadString(s[1..])
      case None => None
      case Some((t, rest)) => Some(([s[0]] + t, rest))
  }

  /** What a client reads from an ERROR payload: the text of its `error` field,
      when the payload is the one-field object. */
  function ReadErrorPayload(p: string): Option<string> {
    if |p| < |ErrorPayloadPrefix| || p[..|ErrorPayloadPrefix|] != ErrorPayloadPrefix then None
    else match ReadString(p[|ErrorPayloadPrefix|..])
      case Some((t, rest)) => if rest == "}" then Some(t) else None
      case None => None
  }

  lemma {:induction false} ReadEscaped(s: string, rest: string)
    ensures ReadString(Escape(s) + "\"" + rest) == Some((s, rest))
  {
    if s != [] {
      ReadEscaped(s[1..], rest);
      var head := if s[0] == '"' || s[0] == '\\' then ['\\', s[0]] else [s[0]];
      assert Escape(s) + "\"" + rest == head + (Escape(s[1..]) + "\"" + rest);
      assert s == [s[0]] + s[1..];
    } else {
      assert Escape(s) + "\"" + rest == "\"" + rest;
    }
  }

  /** With escaping, a client reads back every error text exactly. */
  lemma ErrorPayloadRoundTrip(error: string)
    ensures ReadErrorPayload(ErrorPayload(error)) == Some(error)
  {
    var p := ErrorPayload(error);
    assert p[..|ErrorPayloadPrefix|] == ErrorPayloadPrefix;
    assert p[|ErrorPayloadPrefix|..] == Escape(error) + "\"" + "}";
    ReadEscaped(error, "}");
  }

  /** As written, an error text with a quote after plain text yields a payload
      that is not the one-field object: the client cannot read the error back. */
  lemma ErrorPayloadAsWrittenUnreadable(t: string)
    requires forall i :: 0 <= i < |t| ==> t[i] != '"' && t[i] != '\\'
    ensures ReadErrorPayload(ErrorPayloadAsWritten(t + "\"")) == None
  {
    var p := ErrorPayloadAsWritten(t + "\"");
    assert p[..|ErrorPayloadPrefix|] == ErrorPayloadPrefix;
    assert p[|ErrorPayloadPrefix|..] == Escape(t) + "\"" + "\"}" by {
      EscapePlain(t);
    }
    ReadEscaped(t, "\"}");
  }

  /** A frame whose type is a single quote, from an authenticated session, is
      answered with the error "Unknown type: " followed by that quote; as
      written, its payload cannot be read back. */
  lemma UnknownTypeErrorUnreadable(attrs: map<string, Attr>, payload: string, decode: string -> Decoding, db: Db,
                                   nowMillis: int, producerAccepts: bool)
    requires Valid(db)
    requires UserIdAttribute in attrs && attrs[UserIdAttribute].LongValue?
    requires decode(payload).Decoded? && decode(payload).inbound.messageType == Some("\"")
    ensures HandleTextMessage(attrs, payload, decode, db, nowMillis, producerAccepts) == Reply(ErrorFrame(UnknownType("\"")))
    ensures ReadErrorPayload(ErrorPayloadAsWritten(UnknownType("\""))) == None
  {
    ErrorPayloadAsWrittenUnreadable("Unknown type: ");
  }

  /** Text with neither a quote nor a backslash is its own escape. */
  lemma {:induction false} EscapePlain(s: string)
    requires forall i :: 0 <= i < |s| ==> s[i] != '"' && s[i] != '\\'
    ensures Escape(s) == s
  {
    if s != [] {
      EscapePlain(s[1..]);
    }
  }

  // ---------------------------------------------------------------------------
  // The handler

  predicate NoDuplicateSessions(s: seq<Session>) {
    forall i, j :: 0 <= i < j < |s| ==> s[i] != s[j]
  }

  lemma AppendDisjoint(a: seq<Session>, b: seq<Session>)
    requires NoDuplicateSessions(a) && NoDuplicateSessions(b)
    requires forall x :: x in a ==> x !in b
    ensures NoDuplicateSessions(a + b)
  {
    forall i, j | 0 <= i < j < |a + b| ensures (a + b)[i] != (a + b)[j] {
      if i < |a| && j >= |a| {
        assert (a + b)[i] in a && (a + b)[j] == b[j - |a|];
      }
    }
  }

  /** Some participant row of `ps` names a user `s` is registered for. */
  ghost predicate Reaches(m: map<UserId, set<Session>>, ps: seq<Participant>, s: Session) {
    exists p :: p in ps && p.userId in m && s in m[p.userId]
  }

  /** With one row per user, a session reached by the rows before row i is not
      a session of the user of row i. */
  lemma ReachedOnce(m: map<UserId, set<Session>>, ps: seq<Participant>, i: nat, s: Session)
    requires RegistryValid(m) && DistinctUsers(ps) && i < |ps|
    requires Reaches(m, ps[..i], s)
    ensures !(ps[i].userId in m && s in m[ps[i].userId])
  {
    var p :| p in ps[..i] && p.userId in m && s in m[p.userId];
    var j :| 0 <= j < i && ps[..i][j] == p;
    assert ps[j].userId != ps[i].userId;
    if ps[i].userId in m {
      assert m[ps[i].userId] !! m[p.userId];
    }
  }

  lemma ReachesNext(m: map<UserId, set<Session>>, ps: seq<Participant>, i: nat, s: Session)
    requires i < |ps|
    ensures Reaches(m, ps[..i + 1], s) <==> Reaches(m, ps[..i], s) || (ps[i].userId in m && s in m[ps[i].userId])
  {
    assert ps[..i + 1] == ps[..i] + [ps[i]];
  }

  class ChatWebSocketHandler {
    /** The open sessions of this node, by user. */
    var userSessions: map<UserId, set<Session>>

    ghost predicate Valid()
      reads this
    {
      RegistryValid(userSessions)
    }

    ghost function Registered(): set<Session>
      reads this
    {
      AllSessions(userSessions)
    }

    constructor()
      ensures Valid() && userSessions == map[]
    {
      userSessions := map[];
    }

    /** afterConnectionEstablished: a session without a user id is closed as not
        acceptable; an id that does not parse, or a header of the wrong type,
        escapes as an exception; otherwise the parsed id is stored on the session
        and the session is registered under it. */
    method AfterConnectionEstablished(session: Session) returns (r: Resolution)
      requires Valid() && session !in Registered()
      modifies this, session, session.attributes
      ensures Valid()
      ensures r == ResolveUserId(old(session.attributes.values))
      ensures r.Missing? ==>
        && !session.open && session.closeStatus == Some(CloseStatus(NotAcceptable, MissingUserIdReason))
        && session.attributes.values == old(session.attributes.values)
      ensures r.Threw? ==>
        session.open == old(session.open) && session.closeStatus == old(session.closeStatus)
        && session.attributes.values == old(session.attributes.values)
      ensures r.Resolved? ==>
        && session.attributes.values == old(session.attributes.values)[UserIdAttribute := LongValue(r.userId)]
        && session.open == old(session.open) && session.closeStatus == old(session.closeStatus)
        && userSessions == Register(old(userSessions), r.userId, session)
        && Registered() == old(Registered()) + {session}
      ensures !r.Resolved? ==> userSessions == old(userSessions)
    {
      r := ResolveUserId(session.attributes.values);
      match r
      case Missing =>
        session.Close(CloseStatus(NotAcceptable, MissingUserIdReason));
      case Threw(_) =>
      case Resolved(userId) =>
        session.attributes.values := session.attributes.values[UserIdAttribute := LongValue(userId)];
        RegisterValid(userSessions, userId, session);
        userSessions := Register(userSessions, userId, session);
    }

    /** afterConnectionClosed: the session leaves the set of the user its
        attribute names, and the user leaves the registry with its last session. */
    method AfterConnectionClosed(session: Session, status: CloseStatus) returns (r: Resolution)
      requires Valid()
      modifies this
      ensures Valid()
      ensures r == SessionUser(session.attributes.values)
      ensures r.Resolved? ==> userSessions == Unregister(old(userSessions), r.userId, session)
      ensures !r.Resolved? ==> userSessions == old(userSessions)
      ensures r.Resolved? && r.userId in old(userSessions) && session in old(userSessions)[r.userId] ==>
        Registered() == old(Registered()) - {session}
    {
      r := SessionUser(session.attributes.values);
      if r.Resolved? {
        UnregisterValid(userSessions, r.userId, session);
        userSessions := Unregister(userSessions, r.userId, session);
      }
    }

    /** totalActiveSessions: the sizes of the users' sets, added up, which is the
        number of registered sessions. */
    method TotalActiveSessions() returns (total: nat)
      requires Valid()
      ensures total == |Registered()|
    {
      total := 0;
      var pending := userSessions.Keys;
      while pending != {}
        invariant pending <= userSessions.Keys
        invariant total == |SessionsOf(userSessions, userSessions.Keys - pending)|
        decreases pending
      {
        var user := PickOne(pending);
        SessionsOfAdd(userSessions, userSessions.Keys - pending, user);
        assert userSessions.Keys - (pending - {user}) == (userSessions.Keys - pending) + {user};
        total := total + |userSessions[user]|;
        pending := pending - {user};
      }
      assert userSessions.Keys - pending == userSessions.Keys;
      SessionsOfAll(userSessions);
    }

    /** The open sessions of one user, each sent the frame once; a session whose
        send fails is skipped and the loop goes on. */
    method SendToUser(userId: UserId, broken: set<Session>) returns (sent: seq<Session>)
      ensures NoDuplicateSessions(sent)
      ensures forall s :: s in sent <==> userId in userSessions && s in userSessions[userId] && s.open && s !in broken
    {
      sent := [];
      if userId !in userSessions {
        return;
      }
      var rest := userSessions[userId];
      while rest != {}
        invariant rest <= userSessions[userId]
        invariant NoDuplicateSessions(sent)
        invariant forall s :: s in sent <==> s in userSessions[userId] && s !in rest && s.open && s !in broken
        decreases rest
      {
        var s := PickOne(rest);
        if s.open && s !in broken {
          sent := sent + [s];
        }
        rest := rest - {s};
      }
    }

    /** broadcastNewMessageFanout: every open session of every participant of the
        chat receives the message once; `broken` are the sessions whose send
        fails. */
    method BroadcastNewMessageFanout(db: Db, event: NewMessageFanoutEvent, broken: set<Session>)
      returns (frame: Frame, sentTo: seq<Session>)
      requires Valid()
      ensures frame == NewMessageFrame(event.messageId, event.chatId, event.senderId, event.body, event.createdAt)
      ensures NoDuplicateSessions(sentTo)
      ensures forall s :: s in sentTo <==> s.open && s !in broken && Reaches(userSessions, ParticipantsOf(db.participants, event.chatId), s)
    {
      frame := NewMessageFrame(event.messageId, event.chatId, event.senderId, event.body, event.createdAt);
      var ps := ParticipantsOf(db.participants, event.chatId);
      var userIds := set p | p in ps :: p.userId;
      sentTo := [];
      var rest := userIds;
      while rest != {}
        invariant rest <= userIds
        invariant NoDuplicateSessions(sentTo)
        invariant forall s :: s in sentTo <==>
          s.open && s !in broken && exists u :: u in userIds && u !in rest && u in userSessions && s in userSessions[u]
        decreases rest
      {
        var u := PickOne(rest);
        var sent := SendToUser(u, broken);
        forall s | s in sentTo ensures s !in sent {
          var v :| v in userIds && v !in rest && v in userSessions && s in userSessions[v];
          if u in userSessions {
            assert userSessions[u] !! userSessions[v];
          }
        }
        AppendDisjoint(sentTo, sent);
        sentTo := sentTo + sent;
        rest := rest - {u};
      }
      forall s ensures (exists u :: u in userIds && u in userSessions && s in userSessions[u]) <==> Reaches(userSessions, ps, s) {
        if u :| u in userIds && u in userSessions && s in userSessions[u] {
          var p :| p in ps && p.userId == u;
        }
      }
    }

    /** broadcastReadReceiptFanout: walks the participant rows without removing
        repeated users; each open session of a participant still receives the
        receipt once, because a chat lists each user in one row only. */
    method BroadcastReadReceiptFanout(db: Db, event: ReadReceiptFanoutEvent, broken: set<Session>)
      returns (frame: Frame, sentTo: seq<Session>)
      requires Valid() && Store.Valid(db)
      ensures frame == ReadReceiptFrame(event.chatId, event.readerId, event.messageIds, event.readAt)
      ensures NoDuplicateSessions(sentTo)
      ensures forall s :: s in sentTo <==> s.open && s !in broken && Reaches(userSessions, ParticipantsOf(db.participants, event.chatId), s)
    {
      frame := ReadReceiptFrame(event.chatId, event.readerId, event.messageIds, event.readAt);
      var ps := ParticipantsOf(db.participants, event.chatId);
      ParticipantsOfDistinctUsers(db.participants, event.chatId);
      sentTo := [];
      var i := 0;
      while i < |ps|
        invariant 0 <= i <= |ps|
        invariant NoDuplicateSessions(sentTo)
        invariant forall s :: s in sentTo <==> s.open && s !in broken && Reaches(userSessions, ps[..i], s)
      {
        var sent := SendToUser(ps[i].userId, broken);
        forall s | s in sentTo ensures s !in sent {
          ReachedOnce(userSessions, ps, i, s);
        }
        AppendDisjoint(sentTo, sent);
        forall s ensures Reaches(userSessions, ps[..i + 1], s) <==>
          Reaches(userSessions, ps[..i], s) || (ps[i].userId in userSessions && s in userSessions[ps[i].userId]) {
          ReachesNext(userSessions, ps, i, s);
        }
        sentTo := sentTo + sent;
        i := i + 1;
      }
      assert ps[..i] == ps;
    }

    /** broadcastMessageStatusFanout: only the sessions of the user the status is
        for. */
    method BroadcastMessageStatusFanout(event: MessageStatusFanoutEvent, broken: set<Session>)
      returns (frame: Frame, sentTo: seq<Session>)
      ensures frame == MessageStatusFrame(event.messageId, event.chatId, event.status)
      ensures NoDuplicateSessions(sentTo)
      ensures forall s :: s in sentTo <==> event.userId in userSessions && s in userSessions[event.userId] && s.open && s !in broken
    {
      frame := MessageStatusFrame(event.messageId, event.chatId, event.status);
      sentTo := SendToUser(event.userId, broken);
    }
  }
}
