/** The ordered and paged repository queries the message service reads:
    `findByChatOrderByCreatedAtDesc`, the unread receipts of a user in a chat
    oldest first, and the unread counts per chat.

    Rows are ordered by creation time. The queries leave the order of rows
    created at the same time to the database; the model orders them by id,
    which is one of the orders the database may return, so every ordering
    here is total on the rows of one table. */
module Queries {
  import opened Common
  import opened Store

  /** `a` was created before `b`, or at the same time with a smaller id. */
  predicate Earlier(a: Message, b: Message) {
    a.createdAt < b.createdAt || (a.createdAt == b.createdAt && a.id < b.id)
  }

  /** Oldest first: no message comes after a message created earlier. */
  ghost predicate Ascending(ms: seq<Message>) {
    forall i, j :: 0 <= i < j < |ms| ==> !Earlier(ms[j], ms[i])
  }

  /** Newest first. */
  ghost predicate Descending(ms: seq<Message>) {
    forall i, j :: 0 <= i < j < |ms| ==> !Earlier(ms[i], ms[j])
  }

  /** Places `x` in an oldest-first sequence, before the first message not
      created earlier than it. */
  function Insert(x: Message, ms: seq<Message>): (r: seq<Message>)
    ensures multiset(r) == multiset(ms) + multiset{x}
    ensures r[0] == x || r[0] == ms[0]
  {
    if ms == [] || !Earlier(ms[0], x) then [x] + ms
    else
      assert ms == [ms[0]] + ms[1..];
      [ms[0]] + Insert(x, ms[1..])
  }

  lemma {:induction false} InsertAscending(x: Message, ms: seq<Message>)
    requires Ascending(ms)
    ensures Ascending(Insert(x, ms))
  {
    if ms != [] && Earlier(ms[0], x) {
      var rest := Insert(x, ms[1..]);
      InsertAscending(x, ms[1..]);
      assert Insert(x, ms) == [ms[0]] + rest;
      assert ms == [ms[0]] + ms[1..];
      forall k | 0 <= k < |rest| ensures !Earlier(rest[k], ms[0]) {
        assert rest[k] in multiset(rest);
        if rest[k] != x {
          assert rest[k] in ms[1..];
        }
      }
    }
  }

  /** The messages oldest first (the database's `ORDER BY created_at ASC`). */
  function SortAscending(ms: seq<Message>): (r: seq<Message>)
    ensures Ascending(r)
    ensures multiset(r) == multiset(ms)
  {
    if ms == [] then []
    else
      assert ms == [ms[0]] + ms[1..];
      var sorted := SortAscending(ms[1..]);
      InsertAscending(ms[0], sorted);
      Insert(ms[0], sorted)
  }

  function Reverse<T>(s: seq<T>): (r: seq<T>)
    ensures |r| == |s|
    ensures forall i :: 0 <= i < |s| ==> r[i] == s[|s| - 1 - i]
  {
    if s == [] then [] else Reverse(s[1..]) + [s[0]]
  }

  function Min(a: int, b: int): int {
    if a < b then a else b
  }

  /** A page of `limit` rows from the start. */
  function Take<T>(s: seq<T>, limit: nat): (r: seq<T>)
    ensures |r| == Min(limit, |s|)
    ensures forall i :: 0 <= i < |r| ==> r[i] == s[i]
  {
    s[..Min(limit, |s|)]
  }

  /** The messages of a chat, in table order. */
  function MessagesOf(ms: seq<Message>, chatId: ChatId): (r: seq<Message>)
    ensures forall m :: m in r <==> m in ms && m.chatId == chatId
  {
    if ms == [] then []
    else
      var rest := MessagesOf(ms[1..], chatId);
      assert forall m :: m in ms <==> m == ms[0] || m in ms[1..];
      if ms[0].chatId == chatId then [ms[0]] + rest else rest
  }

  /** `findByChatOrderByCreatedAtDesc(chat, PageRequest.of(0, limit))`. */
  function NewestFirst(ms: seq<Message>, chatId: ChatId, limit: nat): (r: seq<Message>)
  {
    Take(Reverse(SortAscending(MessagesOf(ms, chatId))), limit)
  }

  /** A sorted sequence read backwards is newest first. */
  lemma ReverseDescending(ms: seq<Message>)
    requires Ascending(ms)
    ensures Descending(Reverse(ms))
  {
    var r := Reverse(ms);
    forall i, j | 0 <= i < j < |r| ensures !Earlier(r[i], r[j]) {
      assert r[i] == ms[|ms| - 1 - i] && r[j] == ms[|ms| - 1 - j];
    }
  }

  /** A page cut from the front of an ordered sequence holds the first rows: a
      row left out comes, in `Earlier` terms, no sooner than any row kept. */
  lemma PageFront(all: seq<Message>, sorted: seq<Message>, limit: nat, newestFirst: bool)
    requires multiset(sorted) == multiset(all)
    requires if newestFirst then Descending(sorted) else Ascending(sorted)
    ensures var r := Take(sorted, limit);
      && |r| == Min(limit, |all|)
      && (forall m :: m in r ==> m in all)
      && (forall m, y :: m in all && m !in r && y in r ==>
            if newestFirst then !Earlier(y, m) else !Earlier(m, y))
  {
    var r := Take(sorted, limit);
    assert |sorted| == |all| by {
      assert |multiset(sorted)| == |multiset(all)|;
    }
    forall m | m in r ensures m in all {
      assert m in multiset(sorted);
    }
    forall m, y | m in all && m !in r && y in r
      ensures if newestFirst then !Earlier(y, m) else !Earlier(m, y)
    {
      assert m in multiset(sorted);
      var i :| 0 <= i < |sorted| && sorted[i] == m;
      var j :| 0 <= j < |r| && r[j] == y;
      assert j < i;
    }
  }

  /** The page holds the `limit` newest messages of the chat, newest first: it is
      as long as it can be, holds only messages of the chat, and no message of
      the chat left out of it is newer than one in it. */
  lemma NewestFirstPage(ms: seq<Message>, chatId: ChatId, limit: nat)
    ensures var r := NewestFirst(ms, chatId, limit);
      && |r| == Min(limit, |MessagesOf(ms, chatId)|)
      && Descending(r)
      && (forall m :: m in r ==> m in ms && m.chatId == chatId)
      && (forall m, y :: m in ms && m.chatId == chatId && m !in r && y in r ==> !Earlier(y, m))
      && (NoDuplicates(ms) ==> NoDuplicates(r))
  {
    var all := MessagesOf(ms, chatId);
    var sorted := SortAscending(all);
    var desc := Reverse(sorted);
    ReverseDescending(sorted);
    assert multiset(desc) == multiset(sorted) by {
      ReverseMultiset(sorted);
    }
    PageFront(all, desc, limit, true);
    if NoDuplicates(ms) {
      MessagesOfNoDuplicates(ms, chatId);
      PermutationNoDuplicates(all, desc);
    }
  }

  lemma {:induction false} MessagesOfNoDuplicates(ms: seq<Message>, chatId: ChatId)
    requires NoDuplicates(ms)
    ensures NoDuplicates(MessagesOf(ms, chatId))
  {
    if ms != [] {
      MessagesOfNoDuplicates(ms[1..], chatId);
      assert ms[0] !in ms[1..];
    }
  }

  lemma {:induction false} ReverseMultiset<T>(s: seq<T>)
    ensures multiset(Reverse(s)) == multiset(s)
  {
    if s != [] {
      ReverseMultiset(s[1..]);
      assert s == [s[0]] + s[1..];
    }
  }

  /** The message the receipts table row `x` refers to. */
  function MessageOf(db: Db, x: Receipt): (m: Message)
    requires Valid(db) && x in db.receipts
    ensures m in db.messages && m.id == x.messageId
  {
    db.messages[x.messageId - 1]
  }

  /** The messages of the unread receipts of a user in a chat, in receipt order. */
  function UnreadIn(db: Db, rs: seq<Receipt>, userId: UserId, chatId: ChatId): (r: seq<Message>)
    requires Valid(db) && forall x :: x in rs ==> x in db.receipts
    ensures |r| <= |rs|
    ensures forall m :: m in r <==> exists x :: x in rs && x.userId == userId && x.readAt.None?
                                                 && m == MessageOf(db, x) && m.chatId == chatId
    decreases |rs|
  {
    if rs == [] then []
    else
      var rest := UnreadIn(db, rs[1..], userId, chatId);
      assert forall x :: x in rs <==> x == rs[0] || x in rs[1..];
      var x := rs[0];
      if x.userId == userId && x.readAt.None? && MessageOf(db, x).chatId == chatId then [MessageOf(db, x)] + rest
      else rest
  }

  /** With one receipt per message and user, no message is listed twice. */
  lemma {:induction false} UnreadInNoDuplicates(db: Db, rs: seq<Receipt>, userId: UserId, chatId: ChatId)
    requires Valid(db) && (forall x :: x in rs ==> x in db.receipts) && UniqueReceipts(rs)
    ensures NoDuplicates(UnreadIn(db, rs, userId, chatId))
    decreases |rs|
  {
    if rs != [] {
      var x := rs[0];
      assert UniqueReceipts(rs[1..]) by {
        forall i, j | 0 <= i < j < |rs[1..]|
          ensures (rs[1..][i].messageId, rs[1..][i].userId) != (rs[1..][j].messageId, rs[1..][j].userId)
        {
          assert rs[1..][i] == rs[i + 1] && rs[1..][j] == rs[j + 1];
        }
      }
      UnreadInNoDuplicates(db, rs[1..], userId, chatId);
      var rest := UnreadIn(db, rs[1..], userId, chatId);
      if x.userId == userId && x.readAt.None? && MessageOf(db, x).chatId == chatId && MessageOf(db, x) in rest {
        assert false;
      }
    }
  }

  /** The messages the user has an unread receipt for in the chat: one per receipt. */
  function UnreadMessagesOf(db: Db, userId: UserId, chatId: ChatId): (r: seq<Message>)
    requires Valid(db)
    ensures forall m :: m in r <==> m in db.messages && m.chatId == chatId
                                    && exists x :: x in db.receipts && x.messageId == m.id && x.userId == userId && x.readAt.None?
    ensures NoDuplicates(r)
  {
    UnreadInNoDuplicates(db, db.receipts, userId, chatId);
    var r := UnreadIn(db, db.receipts, userId, chatId);
    forall m | m in db.messages && m.chatId == chatId
      ensures (exists x :: x in db.receipts && x.messageId == m.id && x.userId == userId && x.readAt.None?) ==> m in r
    {
      if x :| x in db.receipts && x.messageId == m.id && x.userId == userId && x.readAt.None? {
        var k :| 0 <= k < |db.messages| && db.messages[k] == m;
        assert MessageOf(db, x) == m;
      }
    }
    r
  }

  /** `findByUserAndMessageChatAndReadTimestampIsNullOrderByMessageCreatedAtAsc(user,
      chat, PageRequest.of(0, limit))`: the messages of the page of receipts. */
  function OldestUnread(db: Db, userId: UserId, chatId: ChatId, limit: nat): (r: seq<Message>)
    requires Valid(db)
  {
    Take(SortAscending(UnreadMessagesOf(db, userId, chatId)), limit)
  }

  /** The page holds the `limit` oldest unread messages of the user in the chat,
      oldest first; no unread message left out is older than one in it. */
  lemma OldestUnreadPage(db: Db, userId: UserId, chatId: ChatId, limit: nat)
    requires Valid(db)
    ensures var r := OldestUnread(db, userId, chatId, limit);
      && |r| == Min(limit, |UnreadMessagesOf(db, userId, chatId)|)
      && Ascending(r)
      && (forall m :: m in r ==> m in UnreadMessagesOf(db, userId, chatId))
      && (forall m, y :: m in UnreadMessagesOf(db, userId, chatId) && m !in r && y in r ==> !Earlier(m, y))
      && NoDuplicates(r)
  {
    var all := UnreadMessagesOf(db, userId, chatId);
    PageFront(all, SortAscending(all), limit, false);
    PermutationNoDuplicates(all, SortAscending(all));
  }

  /** The unread count of a chat: one per unread receipt of the user on a
      message of the chat (`count(mr) ... group by mr.message.chat.id`). */
  function UnreadCount(db: Db, userId: UserId, chatId: ChatId): nat
    requires Valid(db)
  {
    |UnreadMessagesOf(db, userId, chatId)|
  }

  /** A chat has no unread count exactly when every receipt of the user on its
      messages carries a read time. */
  lemma UnreadCountZero(db: Db, userId: UserId, chatId: ChatId)
    requires Valid(db)
    ensures UnreadCount(db, userId, chatId) == 0 <==> forall m :: m in db.messages && m.chatId == chatId ==>
      forall x :: x in db.receipts && x.messageId == m.id && x.userId == userId ==> x.readAt.Some?
  {
    var r := UnreadMessagesOf(db, userId, chatId);
    assert r != [] ==> r[0] in r;
  }

  /** `findUnreadCountsPerChat`: one (chat id, count) row per chat with at least
      one unread receipt of the user, in chat id order. */
  function UnreadCountRows(db: Db, userId: UserId): (rows: seq<(ChatId, nat)>)
    requires Valid(db)
  {
    UnreadCountRowsFrom(db, userId, 1)
  }

  function UnreadCountRowsFrom(db: Db, userId: UserId, from: nat): (rows: seq<(ChatId, nat)>)
    requires Valid(db)
    ensures forall row {:trigger row in rows} :: row in rows <==> from <= row.0 <= |db.chats| && row.1 == UnreadCount(db, userId, row.0) && row.1 > 0
    ensures forall i, j :: 0 <= i < j < |rows| ==> rows[i].0 < rows[j].0
    ensures forall i :: 0 <= i < |rows| ==> from <= rows[i].0
    decreases |db.chats| + 1 - from
  {
    if from > |db.chats| then []
    else
      var rest := UnreadCountRowsFrom(db, userId, from + 1);
      var n := UnreadCount(db, userId, from);
      var rows := if n > 0 then [(from, n)] + rest else rest;
      assert forall row :: row in rows <==> (n > 0 && row == (from, n)) || row in rest;
      rows
  }
}
