/** Chat membership: creating a chat with its participant rows, and the
    membership checks every other operation starts with. */
module ChatService {
  import opened Common
  import opened Store

  function UserNotFound(userId: UserId): string {
    "User not found: " + LongToString(userId)
  }

  function ChatNotFound(chatId: ChatId): string {
    "Chat not found: " + LongToString(chatId)
  }

  function NotAParticipant(userId: UserId, chatId: ChatId): string {
    "User " + LongToString(userId) + " is not a participant of chat " + LongToString(chatId)
  }

  /** The role of a new participant row: the creator of a group chat is its admin. */
  function RoleFor(isGroup: bool, creator: UserId, userId: UserId): string {
    if isGroup && userId == creator then "admin" else "member"
  }

  /** The participant rows saved for a new chat, one per id, in the order given. */
  function ParticipantRows(chatId: ChatId, ids: seq<UserId>, creator: UserId, isGroup: bool): seq<Participant> {
    seq(|ids|, i requires 0 <= i < |ids| => Participant(chatId, ids[i], RoleFor(isGroup, creator, ids[i])))
  }

  /** A group title longer than its column; the title of a direct chat is
      never saved. */
  predicate TitleTooLong(isGroup: bool, title: Option<string>) {
    isGroup && title.Some? && |title.value| > TitleLength
  }

  /** createChat: the participant ids without duplicates (first occurrence first)
      plus the creator, every one of them an existing user; then the chat (the
      title only for a group), whose save fails for a title longer than its
      column, and one participant row per id. */
  method CreateChat(db: Db, creator: UserId, isGroup: bool, title: Option<string>, participantIds: seq<UserId>)
    returns (r: Result<(Db, Chat)>)
    requires Valid(db)
    ensures r.Err? <==> (exists u :: (u in participantIds || u == creator) && u !in db.users) || TitleTooLong(isGroup, title)
    ensures (exists u :: (u in participantIds || u == creator) && u !in db.users) ==>
      r.Err? &&
      var ids := Distinct(participantIds + [creator]);
      exists k :: 0 <= k < |ids| && ids[k] !in db.users && (forall j :: 0 <= j < k ==> ids[j] in db.users)
                  && r.error == UserNotFound(ids[k])
    ensures r.Err? && (forall u :: (u in participantIds || u == creator) ==> u in db.users) ==>
      r.error == ValueTooLong(TitleLength)
    ensures r.Ok? ==>
      var (db', chat) := r.value;
      && Valid(db')
      && chat == Chat(|db.chats| + 1, isGroup, if isGroup then title else None, creator)
      && db' == db.(chats := db.chats + [chat],
                    participants := db.participants
                                    + ParticipantRows(chat.id, Distinct(participantIds + [creator]), creator, isGroup))
    ensures r.Ok? ==> forall u :: IsParticipant(r.value.0, r.value.1.id, u) <==> u in participantIds || u == creator
    ensures r.Ok? ==> forall p :: p in r.value.0.participants && p.chatId == r.value.1.id ==>
      p.role == (if isGroup && p.userId == creator then "admin" else "member")
  {
    var uniqueIds := UniqueIds(participantIds, creator);
    ghost var all := participantIds + [creator];
    assert forall u :: u in all <==> u in participantIds || u == creator;
    var missing := FirstUnknownUser(uniqueIds, db.users);
    if missing.Some? {
      assert uniqueIds[missing.value] in all;
      return Err(UserNotFound(uniqueIds[missing.value]));
    }
    assert forall u :: u in all ==> u in db.users by {
      forall u | u in all ensures u in db.users {
        assert u in uniqueIds;
      }
    }
    if TitleTooLong(isGroup, title) {
      return Err(ValueTooLong(TitleLength));
    }
    var chat := Chat(|db.chats| + 1, isGroup, if isGroup then title else None, creator);
    var participants := SaveParticipants(db.participants, chat.id, uniqueIds, creator, isGroup);
    var db' := db.(chats := db.chats + [chat], participants := participants);
    NewChatRowsValid(db, chat, uniqueIds, creator, isGroup);
    r := Ok((db', chat));
  }

  /** `new LinkedHashSet<>(participantIds)` followed by `add(creator)`. */
  method UniqueIds(participantIds: seq<UserId>, creator: UserId) returns (ids: seq<UserId>)
    ensures ids == Distinct(participantIds + [creator])
  {
    ids := [];
    var i := 0;
    while i < |participantIds|
      invariant 0 <= i <= |participantIds|
      invariant ids == Distinct(participantIds[..i])
    {
      assert participantIds[..i + 1][..i] == participantIds[..i];
      if participantIds[i] !in ids {
        ids := ids + [participantIds[i]];
      }
      i := i + 1;
    }
    assert (participantIds + [creator])[..|participantIds|] == participantIds[..i];
    if creator !in ids {
      ids := ids + [creator];
    }
  }

  /** The loop that loads every user by id: the position of the first id that
      names no user, if any. */
  method FirstUnknownUser(ids: seq<UserId>, users: set<UserId>) returns (k: Option<nat>)
    ensures k.Some? ==> k.value < |ids| && ids[k.value] !in users && forall j :: 0 <= j < k.value ==> ids[j] in users
    ensures k.None? ==> forall j :: 0 <= j < |ids| ==> ids[j] in users
  {
    var n := 0;
    while n < |ids|
      invariant 0 <= n <= |ids|
      invariant forall j :: 0 <= j < n ==> ids[j] in users
    {
      if ids[n] !in users {
        return Some(n);
      }
      n := n + 1;
    }
    return None;
  }

  /** The loop that saves one participant row per id. */
  method SaveParticipants(ps: seq<Participant>, chatId: ChatId, ids: seq<UserId>, creator: UserId, isGroup: bool)
    returns (ps': seq<Participant>)
    ensures ps' == ps + ParticipantRows(chatId, ids, creator, isGroup)
  {
    ps' := ps;
    var n := 0;
    while n < |ids|
      invariant 0 <= n <= |ids|
      invariant ps' == ps + ParticipantRows(chatId, ids[..n], creator, isGroup)
    {
      var role := if isGroup && ids[n] == creator then "admin" else "member";
      ps' := ps' + [Participant(chatId, ids[n], role)];
      n := n + 1;
      assert ParticipantRows(chatId, ids[..n], creator, isGroup)
          == ParticipantRows(chatId, ids[..n - 1], creator, isGroup) + [Participant(chatId, ids[n - 1], role)];
    }
    assert ids[..n] == ids;
  }

  lemma NewChatRowsValid(db: Db, chat: Chat, ids: seq<UserId>, creator: UserId, isGroup: bool)
    requires Valid(db) && NoDuplicates(ids) && chat.id == |db.chats| + 1
    ensures var db' := db.(chats := db.chats + [chat],
                           participants := db.participants + ParticipantRows(chat.id, ids, creator, isGroup));
      && Valid(db')
      && (forall u :: IsParticipant(db', chat.id, u) <==> u in ids)
      && (forall p :: p in db'.participants && p.chatId == chat.id ==> p.role == RoleFor(isGroup, creator, p.userId))
  {
    var rows := ParticipantRows(chat.id, ids, creator, isGroup);
    var ps := db.participants + rows;
    var db' := db.(chats := db.chats + [chat], participants := ps);
    assert forall p :: p in db.participants ==> p.chatId < chat.id;
    NewRowsUnique(db.participants, chat.id, ids, creator, isGroup);
    forall u ensures IsParticipant(db', chat.id, u) <==> u in ids {
      NewRowsMembers(db.participants, chat.id, ids, creator, isGroup, u);
    }
    NewRowsRoles(db.participants, chat.id, ids, creator, isGroup);
  }

  /** Rows for a chat newer than every existing row, one per distinct user, keep
      (chat, user) pairs unique. */
  lemma NewRowsUnique(ps: seq<Participant>, chatId: ChatId, ids: seq<UserId>, creator: UserId, isGroup: bool)
    requires UniqueParticipants(ps) && NoDuplicates(ids)
    requires forall p :: p in ps ==> p.chatId < chatId
    ensures UniqueParticipants(ps + ParticipantRows(chatId, ids, creator, isGroup))
  {
    var rows := ParticipantRows(chatId, ids, creator, isGroup);
    var all := ps + rows;
    forall i, j | 0 <= i < j < |all|
      ensures (all[i].chatId, all[i].userId) != (all[j].chatId, all[j].userId)
    {
      if j < |ps| {
        assert all[i] == ps[i] && all[j] == ps[j];
      } else if i < |ps| {
        assert all[i] in ps;
        assert all[j] == rows[j - |ps|];
      } else {
        assert all[i] == rows[i - |ps|] && all[j] == rows[j - |ps|];
      }
    }
  }

  /** The new chat's members are exactly the listed users. */
  lemma NewRowsMembers(ps: seq<Participant>, chatId: ChatId, ids: seq<UserId>, creator: UserId, isGroup: bool, u: UserId)
    requires forall p :: p in ps ==> p.chatId < chatId
    ensures (exists p :: p in ps + ParticipantRows(chatId, ids, creator, isGroup) && p.chatId == chatId && p.userId == u)
            <==> u in ids
  {
    var rows := ParticipantRows(chatId, ids, creator, isGroup);
    var all := ps + rows;
    if u in ids {
      var k :| 0 <= k < |ids| && ids[k] == u;
      assert all[|ps| + k] == rows[k];
    }
    if p :| p in all && p.chatId == chatId && p.userId == u {
      var k :| 0 <= k < |all| && all[k] == p;
      assert all[k] == rows[k - |ps|];
    }
  }

  /** Every row of the new chat carries the role its user is given. */
  lemma NewRowsRoles(ps: seq<Participant>, chatId: ChatId, ids: seq<UserId>, creator: UserId, isGroup: bool)
    requires forall p :: p in ps ==> p.chatId < chatId
    ensures forall p :: p in ps + ParticipantRows(chatId, ids, creator, isGroup) && p.chatId == chatId ==>
      p.role == RoleFor(isGroup, creator, p.userId)
  {
    var rows := ParticipantRows(chatId, ids, creator, isGroup);
    var all := ps + rows;
    forall p | p in all && p.chatId == chatId
      ensures p.role == RoleFor(isGroup, creator, p.userId)
    {
      var k :| 0 <= k < |all| && all[k] == p;
      assert all[k] == rows[k - |ps|];
    }
  }

  /** getChatForUserOrThrow: the chat, if it exists and the user has a participant row in it. */
  function GetChatForUserOrThrow(db: Db, chatId: ChatId, userId: UserId): (r: Result<Chat>)
    requires Valid(db)
    ensures r.Ok? <==> FindChat(db, chatId).Some? && IsParticipant(db, chatId, userId)
    ensures r.Ok? ==> r.value in db.chats && r.value.id == chatId
    ensures FindChat(db, chatId).None? ==> r == Err(ChatNotFound(chatId))
    ensures FindChat(db, chatId).Some? && !IsParticipant(db, chatId, userId) ==>
      r == Err(NotAParticipant(userId, chatId))
  {
    match FindChat(db, chatId)
    case None => Err(ChatNotFound(chatId))
    case Some(chat) =>
      if exists p :: p in ParticipantsOf(db.participants, chat.id) && p.userId == userId then Ok(chat)
      else Err(NotAParticipant(userId, chatId))
  }

  /** The lookup reads the chats and participant rows only: messages and
      receipts written since do not change its answer. */
  lemma GetChatSameRows(db: Db, db1: Db, chatId: ChatId, userId: UserId)
    requires Valid(db) && Valid(db1) && db1.chats == db.chats && db1.participants == db.participants
    ensures GetChatForUserOrThrow(db1, chatId, userId) == GetChatForUserOrThrow(db, chatId, userId)
  {
    assert FindChat(db1, chatId) == FindChat(db, chatId);
  }

  /** `ChatParticipantRepository.findByUser`: the user's rows in table order. */
  function RowsOfUser(ps: seq<Participant>, userId: UserId): (r: seq<Participant>)
    ensures forall p :: p in r <==> p in ps && p.userId == userId
  {
    if ps == [] then []
    else
      var rest := RowsOfUser(ps[1..], userId);
      assert forall p :: p in ps <==> p == ps[0] || p in ps[1..];
      if ps[0].userId == userId then [ps[0]] + rest else rest
  }

  /** getChatsForUser: the user's participant rows, or "User not found". */
  function GetChatsForUser(db: Db, userId: UserId): (r: Result<seq<Participant>>)
    ensures r.Err? <==> userId !in db.users
    ensures r.Err? ==> r.error == UserNotFound(userId)
    ensures r.Ok? ==> forall p :: p in r.value <==> p in db.participants && p.userId == userId
  {
    if userId !in db.users then Err(UserNotFound(userId)) else Ok(RowsOfUser(db.participants, userId))
  }

  /** The chat of each participant row (`ChatParticipant::getChat`). */
  function ChatsOfRows(db: Db, parts: seq<Participant>): (r: seq<Chat>)
    requires Valid(db)
    requires forall p :: p in parts ==> p in db.participants
    ensures |r| == |parts|
    ensures forall i :: 0 <= i < |parts| ==> r[i] == db.chats[parts[i].chatId - 1]
  {
    if parts == [] then [] else [db.chats[parts[0].chatId - 1]] + ChatsOfRows(db, parts[1..])
  }

  /** getChatsForUserAsChats: every chat the user takes part in, each once. */
  function GetChatsForUserAsChats(db: Db, userId: UserId): (r: Result<seq<Chat>>)
    requires Valid(db)
    ensures r.Err? <==> userId !in db.users
    ensures r.Ok? ==> NoDuplicates(r.value)
    ensures r.Ok? ==> forall c :: c in r.value <==> c in db.chats && IsParticipant(db, c.id, userId)
  {
    match GetChatsForUser(db, userId)
    case Err(e) => Err(e)
    case Ok(parts) =>
      var chats := ChatsOfRows(db, parts);
      ChatsOfUserRows(db, userId, parts, chats);
      Ok(Distinct(chats))
  }

  lemma ChatsOfUserRows(db: Db, userId: UserId, parts: seq<Participant>, chats: seq<Chat>)
    requires Valid(db)
    requires forall p :: p in parts <==> p in db.participants && p.userId == userId
    requires chats == ChatsOfRows(db, parts)
    ensures forall c :: c in chats <==> c in db.chats && IsParticipant(db, c.id, userId)
  {
    forall c | c in chats ensures c in db.chats && IsParticipant(db, c.id, userId) {
      var i :| 0 <= i < |chats| && chats[i] == c;
      RowChat(db, userId, parts, chats, i);
    }
    forall c | c in db.chats && IsParticipant(db, c.id, userId) ensures c in chats {
      ChatHasRow(db, userId, parts, chats, c);
    }
  }

  /** The chat of one of the user's rows is a chat the user takes part in. */
  lemma RowChat(db: Db, userId: UserId, parts: seq<Participant>, chats: seq<Chat>, i: nat)
    requires Valid(db)
    requires forall p :: p in parts <==> p in db.participants && p.userId == userId
    requires chats == ChatsOfRows(db, parts) && i < |chats|
    ensures chats[i] in db.chats && IsParticipant(db, chats[i].id, userId)
  {
    assert parts[i] in parts;
    assert chats[i] == db.chats[parts[i].chatId - 1];
    assert chats[i].id == parts[i].chatId;
  }

  /** A chat the user takes part in is the chat of one of the user's rows. */
  lemma ChatHasRow(db: Db, userId: UserId, parts: seq<Participant>, chats: seq<Chat>, c: Chat)
    requires Valid(db)
    requires forall p :: p in parts <==> p in db.participants && p.userId == userId
    requires chats == ChatsOfRows(db, parts)
    requires c in db.chats && IsParticipant(db, c.id, userId)
    ensures c in chats
  {
    assert db.chats[c.id - 1] == c by {
      var k :| 0 <= k < |db.chats| && db.chats[k] == c;
    }
    var p :| p in db.participants && p.chatId == c.id && p.userId == userId;
    assert p in parts;
    var i :| 0 <= i < |parts| && parts[i] == p;
    assert chats[i] == db.chats[parts[i].chatId - 1];
  }
}
