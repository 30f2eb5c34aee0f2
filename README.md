# Realtime chat backend: a verified model of its core

This project models the message path of a horizontally scaled chat backend.

- A client opens a WebSocket to one node. The handshake copies the `X-User-Id`
  header into the session attributes. The node registers the session under the
  parsed user id.
- The client sends `SEND_MESSAGE` or `READ_MESSAGES` frames. The node checks
  that the user takes part in the chat and hands an intent to a producer for the
  `chat.messages` or `chat.read-receipts` log topic. It then answers
  `MESSAGE_ACCEPTED` or `READ_ACCEPTED`, or an `ERROR` frame.
- One consumer per topic applies the intent through the message service:
  - `sendMessage` stores the message once per client message id and writes a
    delivery receipt for every participant;
  - `markMessagesAsRead` stamps read receipts.
  The consumer then publishes fanout events on three pub/sub channels. A record
  that fails goes to the topic's dead-letter topic.
- On every node, a pub/sub subscriber routes each fanout event to a broadcast.
  The broadcast sends a frame to every open local session of the users
  concerned.
- The chat service creates chats and answers membership questions. The message
  service also pages a chat's history and a user's unread messages. It builds
  chat summaries sorted by unread count, then by the time of the last message.

How the model is built:

- **Database.** The relational store is a value `Store.Db` holding users, chats,
  participant rows, messages and receipts. `Store.Valid` holds the keys and the
  uniqueness constraints. Identity columns are the row's position plus one.
- **Transactions.** A transactional service call returns either `Ok` with the
  new database or `Err` with the exception's message. `Err` leaves the database
  as it was, which is how rollback is modelled.
- **Parameters for what the model cannot see.** These become parameters:
  - the clock (`now`, `nowMillis`);
  - the JSON decoders (functions from text to a decoded record or its failure);
  - the producer's verdict (`producerAccepts`);
  - the pub/sub bus (a function from event to `Sent`, `Dropped` or `Raised`);
  - the sessions whose send fails (`broken`).
- **Classes.** The WebSocket handler's session registry, the handshake's
  attribute map, a session's open/closed state and the two consumers are classes
  whose methods update their fields in place. The consumers keep counters, a log
  of what they published and a log of their dead letters.
- **Loops.** Where the source iterates, the model has methods with loops:
  - participant ids are deduplicated and checked;
  - rows are saved;
  - read stamps are applied;
  - the unread-count map is built;
  - summaries are built, then sorted in an array by insertion;
  - `totalActiveSessions` sums the registry;
  - the broadcasts run over users and sessions.
  Each loop method is proved against a specification function, and the
  properties are proved about that function.

## Model

All source paths are under `src/main/java/com/punith/chat/`.

| member | source | states |
|---|---|---|
| Common.ParseLong | src/main/java/com/punith/chat/ws/ChatWebSocketHandler.java:88 | a text parses exactly when it is an optional sign followed by at least one ASCII decimal digit and its value fits in 64 bits; the value is the digits' decimal value, negated after a '-' |
| Common.LongToString | src/main/java/com/punith/chat/ws/ChatWebSocketHandler.java:76-79 | the text of a stored id is non-empty decimal digits, led by '-' exactly for a negative id |
| Common.ParseLongToString | src/main/java/com/punith/chat/ws/ChatWebSocketHandler.java:76-88 | parsing the text of any 64-bit id gives that id back, so a numeric `userId` attribute survives the round trip through `toString` and `parseLong` |
| Common.Distinct | src/main/java/com/punith/chat/service/ChatService.java:32-33 | the deduplicated id list has no repeats, holds exactly the ids of its input, is no longer than it, and keeps the order of first occurrence: an id listed before another first occurs in the input before every occurrence of the other |
| Store.FindChat | src/main/java/com/punith/chat/service/ChatService.java:67-68 | a chat is found exactly when one with that id exists, and the one found has that id |
| Store.FindMessage | src/main/java/com/punith/chat/service/MessageService.java:96-97 | a message is found exactly when one with that id exists, and the one found has that id |
| Store.ParticipantsOf | src/main/java/com/punith/chat/repository/ChatParticipantRepository.java:16 | the participant rows of a chat are exactly the rows naming that chat |
| Store.FindReceipt | src/main/java/com/punith/chat/repository/MessageReceiptRepository.java:19 | the lookup by message and user returns a row for that pair, or none when no row has it |
| Store.FindReceiptUnique | src/main/java/com/punith/chat/repository/MessageReceiptRepository.java:19 | when a (message, user) pair has one receipt, the lookup returns that receipt |
| Queries.SortAscending | src/main/java/com/punith/chat/repository/MessageReceiptRepository.java:24-28 | ordering by creation time gives an ascending permutation of its input |
| Queries.InsertAscending | src/main/java/com/punith/chat/repository/MessageReceiptRepository.java:24-28 | inserting into an ascending list keeps it ascending |
| Queries.Take | src/main/java/com/punith/chat/repository/MessageRepository.java:12 | the first page holds min(limit, n) elements, and they are the list's first ones |
| Queries.MessagesOf | src/main/java/com/punith/chat/repository/MessageRepository.java:12 | exactly the messages of the chat |
| Queries.MessagesOfNoDuplicates | src/main/java/com/punith/chat/repository/MessageRepository.java:12 | filtering distinct rows by chat keeps them distinct |
| Queries.NewestFirstPage | src/main/java/com/punith/chat/repository/MessageRepository.java:12 | the history page holds min(limit, messages of the chat) messages of that chat only, newest first, and no message of the chat left off the page is newer than one on it; a page of distinct rows has no repeats |
| Queries.UnreadMessagesOf | src/main/java/com/punith/chat/repository/MessageReceiptRepository.java:24-28 | exactly the chat's messages for which the user has a receipt with no read time, each once |
| Queries.UnreadInNoDuplicates | src/main/java/com/punith/chat/repository/MessageReceiptRepository.java:24-28 | with one receipt per (message, user) pair, the join from unread receipts to messages names each message once |
| Queries.OldestUnreadPage | src/main/java/com/punith/chat/repository/MessageReceiptRepository.java:24-28 | the unread page holds min(limit, unread) of the user's unread messages in the chat, oldest first, each once, and no unread message left off the page is older than one on it |
| Queries.UnreadCountZero | src/main/java/com/punith/chat/repository/MessageReceiptRepository.java:31-38 | a chat's unread count is zero exactly when the user has no unread receipt for any of its messages |
| Queries.UnreadCountRowsFrom | src/main/java/com/punith/chat/repository/MessageReceiptRepository.java:31-38 | the grouped query yields one row per chat with a positive unread count, carrying that count, and no other rows |
| ChatService.CreateChat | src/main/java/com/punith/chat/service/ChatService.java:29-64 | fails exactly when the creator or a listed id is not a user, naming the first unknown id in list order, or when a group title is longer than the 128 characters of its column (Chat.java:26), with the database's value-too-long error; a failure writes nothing; otherwise appends a chat with the next id, a title only for groups and the creator, plus one participant row per distinct id (creator included); the creator of a group is admin and everyone else is a member; the database stays valid |
| ChatService.UniqueIds | src/main/java/com/punith/chat/service/ChatService.java:32-33 | the ids loop builds the deduplicated list of participants followed by the creator |
| ChatService.FirstUnknownUser | src/main/java/com/punith/chat/service/ChatService.java:37-41 | the lookup loop stops at the first id that is not a user, or reports that all ids are users |
| ChatService.SaveParticipants | src/main/java/com/punith/chat/service/ChatService.java:50-61 | the save loop appends one row per id, with the role the creator rule gives |
| ChatService.NewChatRowsValid | src/main/java/com/punith/chat/service/ChatService.java:43-61 | the new chat and its rows keep every key and uniqueness constraint; a user takes part in the new chat exactly when listed |
| ChatService.GetChatForUserOrThrow | src/main/java/com/punith/chat/service/ChatService.java:66-78 | succeeds exactly when the chat exists and the user takes part in it, returning that chat; otherwise fails with "Chat not found: id", or with the not-a-participant message when only membership fails |
| ChatService.RowsOfUser | src/main/java/com/punith/chat/repository/ChatParticipantRepository.java:12 | exactly the participant rows of the user |
| ChatService.GetChatsForUser | src/main/java/com/punith/chat/service/ChatService.java:80-84 | fails with "User not found" exactly for an unknown user; otherwise returns exactly that user's participant rows |
| ChatService.ChatsOfRows | src/main/java/com/punith/chat/service/ChatService.java:92-93 | each participant row is mapped to the chat it names |
| ChatService.GetChatsForUserAsChats | src/main/java/com/punith/chat/service/ChatService.java:90-96 | fails exactly for an unknown user; otherwise returns without repeats exactly the chats the user takes part in |
| ChatService.ChatsOfUserRows | src/main/java/com/punith/chat/service/ChatService.java:90-96 | the chats of the user's rows are exactly the chats the user takes part in |
| MessageService.FindByClientMessageId | src/main/java/com/punith/chat/repository/MessageRepository.java:14 | the message found belongs to the chat and carries the client message id, and none is found only when no message of the chat carries it |
| MessageService.FindByClientMessageIdUnique | src/main/java/com/punith/chat/repository/MessageRepository.java:14 | when a chat has one message with a client message id, the lookup returns exactly that message |
| MessageService.ParticipantsOfDistinctUsers | src/main/java/com/punith/chat/ws/ChatWebSocketHandler.java:330-331 | a chat's participant rows name each user once |
| MessageService.InsertError | src/main/java/com/punith/chat/service/MessageService.java:57-62 | saving a message fails exactly when its client message id is longer than its 64-character column (Message.java:51), with the value-too-long error, or else when it has no body, whose column is not null (Message.java:44), with the not-null error |
| MessageService.CreateAndSaveMessage | src/main/java/com/punith/chat/service/MessageService.java:55-78 | fails exactly when the save fails as `InsertError` says: the value-too-long error for a client message id over 64 characters, otherwise the not-null error for a missing body; otherwise appends the message with the next id, the chat, sender, body, time and client message id; gives exactly the chat's participants one new receipt each, delivered now and unread; keeps the database valid |
| MessageService.SaveReceipts | src/main/java/com/punith/chat/service/MessageService.java:69-75 | the receipt loop appends one delivery receipt per participant row |
| MessageService.NewMessageRowsValid | src/main/java/com/punith/chat/service/MessageService.java:55-78 | the new message and its receipts keep every key and uniqueness constraint, client message ids per chat included |
| MessageService.NewMessageReceiptFor | src/main/java/com/punith/chat/service/MessageService.java:69-75 | after the save, a user has a receipt for the new message exactly when they take part in the chat |
| MessageService.SendMessage | src/main/java/com/punith/chat/service/MessageService.java:38-52 | fails first with the membership error, then with "User not found", then, when no stored message matches, with the save's error (client message id too long, or no body); otherwise succeeds, keeping the database valid; when the chat already has a message with the client message id, returns it and changes nothing, whatever the body; otherwise stores a new message as `createAndSaveMessage` does |
| MessageService.SendMessageRedelivery | src/main/java/com/punith/chat/service/MessageService.java:46-48 | after a successful send with a client message id, sending with the same id again, at any time and with any body, returns the same message and changes nothing |
| MessageService.CheckMessage | src/main/java/com/punith/chat/service/MessageService.java:96-102 | an id passes exactly when it names a message of the chat; otherwise the error is "Message not found" or "not in chat" |
| MessageService.FirstBadMessage | src/main/java/com/punith/chat/service/MessageService.java:95-102 | the whole list passes exactly when every id passes; otherwise the error reported is that of an id in the list all of whose predecessors pass |
| MessageService.FirstBadIndex | src/main/java/com/punith/chat/service/MessageService.java:95-102 | the loop stops at a position no later than the end, every id before it passes its check, and the id at it (if any) fails |
| MessageService.Stamp | src/main/java/com/punith/chat/service/MessageService.java:113-115 | a stamp keeps the receipt's message, user and delivery time; it sets the read time to now unless it is already later; a read time never moves back |
| MessageService.ReceiptAt | src/main/java/com/punith/chat/repository/MessageReceiptRepository.java:19 | the receipt found for a message and user is one of the rows for that pair, or there is none |
| MessageService.MarkMessagesAsRead | src/main/java/com/punith/chat/service/MessageService.java:86-118 | the loop gives the outcome `MarkMessagesAsReadResult` specifies; on success the database stays valid and exactly the listed messages' receipts for the user are stamped (created when missing) |
| MessageService.MarkMessagesAsReadOutcome | src/main/java/com/punith/chat/service/MessageService.java:86-118 | fails with the membership error, then "User not found", then the first bad id's error, changing nothing; succeeds exactly when the user may read the chat and every id names a message of it; only receipts change |
| MessageService.StampAll | src/main/java/com/punith/chat/service/MessageService.java:95-117 | the loop over the ids stops at the first id that is not a message of the chat, with that id's error; otherwise its receipts are the listed messages stamped one after another |
| MessageService.MarkMessagesAsReadAgain | src/main/java/com/punith/chat/service/MessageService.java:86-118 | a successful call repeated at the same time also succeeds and leaves every receipt as the first call left it |
| MessageService.MarkedDbValid | src/main/java/com/punith/chat/service/MessageService.java:104-116 | stamping listed messages of the chat keeps the database valid and stamps exactly those receipts |
| MessageService.SaveReadStamp | src/main/java/com/punith/chat/service/MessageService.java:104-116 | saving one read stamp updates the existing receipt, or adds one when none exists |
| MessageService.MarkReadView | src/main/java/com/punith/chat/service/MessageService.java:104-116 | one stamp keeps receipts unique, stamps the pair's receipt and leaves every other pair's receipt as it was |
| MessageService.MarkAllView | src/main/java/com/punith/chat/service/MessageService.java:95-117 | stamping a list keeps receipts unique, stamps every listed message's receipt for the user and no other |
| MessageService.MarkAllIdempotent | src/main/java/com/punith/chat/service/MessageService.java:113-115 | marking the same ids twice at the same time leaves every receipt as marking once does |
| MessageService.MarkAllMonotonic | src/main/java/com/punith/chat/service/MessageService.java:113-115 | no read time moves back, and every listed message has a read time afterwards |
| MessageService.GetMessages | src/main/java/com/punith/chat/service/MessageService.java:80-84 | fails with the membership error, then for a page size below one; otherwise returns min(limit, n) distinct messages of that chat only, newest first, with no newer message left out |
| MessageService.MessagesNoDuplicates | src/main/java/com/punith/chat/repository/MessageRepository.java:12 | in a valid database every message row is distinct, since ids are keys |
| MessageService.ToUnreadMessage | src/main/java/com/punith/chat/service/MessageService.java:129-140 | the response copies the message's id, chat, sender, body and creation time |
| MessageService.UnreadEntries | src/main/java/com/punith/chat/service/MessageService.java:125-140 | the responses of the oldest-first page are the page's messages, oldest first, with none older left out |
| MessageService.EntriesNoDuplicates | src/main/java/com/punith/chat/service/MessageService.java:125-140 | distinct message rows give distinct responses |
| MessageService.GetUnreadMessages | src/main/java/com/punith/chat/service/MessageService.java:120-141 | fails with the membership error, then "User not found", then for a page size below one; otherwise returns the oldest min(limit, unread) of the user's unread messages in that chat, oldest first, each once |
| MessageService.LatestMessage | src/main/java/com/punith/chat/service/MessageService.java:160-163 | no last message exactly when the chat has no messages; otherwise a message of the chat that no other message of it is newer than |
| MessageService.SummaryOfMeaning | src/main/java/com/punith/chat/service/MessageService.java:158-179 | a summary names its chat, carries the user's unread count in it, and describes the chat's newest message, or has no last-message fields when there is none |
| MessageService.Summaries | src/main/java/com/punith/chat/service/MessageService.java:158-180 | one summary per chat, in the chats' order |
| MessageService.LongCompare | src/main/java/com/punith/chat/service/MessageService.java:184 | the comparison is -1, 0 or 1, negative exactly when the first is smaller and zero exactly when they are equal |
| MessageService.CompareSummariesMeaning | src/main/java/com/punith/chat/service/MessageService.java:183-192 | a summary sorts first exactly when it has more unread messages, or as many and a last message while the other has none, or a later last message; it ties exactly on equal counts and equal or both absent times |
| MessageService.SummaryOrderAsWrittenMisorders | src/main/java/com/punith/chat/service/MessageService.java:167-191 | when the creation times read back at offset UTC, so that their `toString` texts end in 'Z', comparing those texts puts a chat whose last message came at a whole minute before one whose last message came half a minute later, although the times order them the other way |
| IsoTime.MinuteTexts | src/main/java/com/punith/chat/service/MessageService.java:167 | the text of a time at a whole minute ends with the hour and minute and 'Z'; half a minute later it ends with ':30Z' after the same date, hour and minute |
| IsoTime.LaterTextSortsFirst | src/main/java/com/punith/chat/service/MessageService.java:191 | for a time at a whole minute, the text of the time half a minute later compares below the text of the earlier time |
| MessageService.CompareSummariesContract | src/main/java/com/punith/chat/service/MessageService.java:183-192 | the comparator is antisymmetric and transitive and treats tied summaries alike, as a sort requires |
| MessageService.SortSummaries | src/main/java/com/punith/chat/service/MessageService.java:183-192 | the sort leaves the array ordered by the comparator and a permutation of what it held |
| MessageService.SortedCopy | src/main/java/com/punith/chat/service/MessageService.java:183-192 | the list is sorted by the comparator and is a permutation of the unsorted summaries |
| MessageService.InsertLast | src/main/java/com/punith/chat/service/MessageService.java:183-192 | one insertion step extends the sorted prefix by one element and permutes the array |
| MessageService.UnreadByChatId | src/main/java/com/punith/chat/service/MessageService.java:148-154 | the map's keys are exactly the chat ids of the rows, and each maps to the last row's count for it |
| MessageService.UnreadLookup | src/main/java/com/punith/chat/service/MessageService.java:169 | looking a chat up with default 0 gives the user's unread count in that chat |
| MessageService.UnreadLookupAll | src/main/java/com/punith/chat/service/MessageService.java:148-169 | the lookup with default 0 gives every listed chat's unread count |
| MessageService.BuildSummaries | src/main/java/com/punith/chat/service/MessageService.java:156-180 | the loop builds one summary per chat, in order |
| MessageService.GetChatSummaries | src/main/java/com/punith/chat/service/MessageService.java:143-195 | fails exactly for an unknown user; otherwise returns a comparator-sorted list that is a permutation of the summaries of the user's chats, holding one summary of each chat the user takes part in and nothing else, with the chats without messages last |
| MessageService.EmptyChatsLast | src/main/java/com/punith/chat/service/MessageService.java:183-192 | in a sorted list of the summaries of chats, every summary after one without a last message also has none: chats without messages come last |
| MessageService.NoMessagesNoUnread | src/main/java/com/punith/chat/service/MessageService.java:158-169 | the summary of a chat without messages has an unread count of zero |
| MessageService.NothingAfterEmpty | src/main/java/com/punith/chat/service/MessageService.java:183-192 | the comparator lets only a summary without unread or last message follow one without either |
| MessageService.SummariesCoverChats | src/main/java/com/punith/chat/service/MessageService.java:158-192 | a permutation of the summaries contains every chat's summary |
| MessageService.SummariesOfUserChats | src/main/java/com/punith/chat/service/MessageService.java:143-195 | the sorted summaries are exactly the summaries of the chats the user takes part in |
| MessageService.SummariesFromChats | src/main/java/com/punith/chat/service/MessageService.java:158-192 | every summary in a permutation of the summaries belongs to one of the chats |
| Events.ChannelOf | src/main/java/com/punith/chat/messaging/WsFanoutPublisher.java:18-39 | every kind of fanout event is published on a channel the subscriber listens to |
| Events.ChannelsMatchSubscriptions | src/main/java/com/punith/chat/config/RedisPubSubConfig.java:22-24 | each subscribed channel carries some kind of event, and no channel carries two kinds |
| FanoutSubscriber.RouteFor | src/main/java/com/punith/chat/ws/WsFanoutSubscriber.java:33-51 | a channel has a broadcast exactly when it is one of the three subscribed channels |
| FanoutSubscriber.PublishedEventsAreRouted | src/main/java/com/punith/chat/ws/WsFanoutSubscriber.java:33-51 | the channel an event is published on routes it to the broadcast for its own kind |
| FanoutSubscriber.OnMessage | src/main/java/com/punith/chat/ws/WsFanoutSubscriber.java:27-55 | an unknown channel broadcasts nothing; each broadcast happens only on its own channel and only with the event its body decodes to; a body that does not decode broadcasts nothing |
| FanoutSubscriber.PublishedEventReachesItsBroadcast | src/main/java/com/punith/chat/ws/WsFanoutSubscriber.java:27-55 | an event published with a body that decodes back to it reaches exactly its own broadcast, carrying the same event |
| Consumers.PublishEntries | src/main/java/com/punith/chat/messaging/WsFanoutPublisher.java:42-49 | a publish logs the event on its channel exactly when the bus took it; a serialisation failure is swallowed and logs nothing |
| Consumers.ChatMessageConsumer.constructor | src/main/java/com/punith/chat/messaging/ChatMessageConsumer.java:28-45 | a new consumer has zero counters and empty logs |
| Consumers.ChatMessageConsumer.Consume | src/main/java/com/punith/chat/messaging/ChatMessageConsumer.java:47-93 | one record: the store, fanout log and counters become what `ChatMessageOutcome` gives; a failure adds one to the failed counter and one dead letter to "chat.messages.dlq" carrying the payload and the error; a success adds one to the processed counter |
| Consumers.ChatMessageConsumer.Deliver | src/main/java/com/punith/chat/messaging/ChatMessageConsumer.java:54-93 | a decoded record: sendMessage's error sends the record to the dead-letter topic with the store untouched; otherwise the store becomes the one sendMessage returns, kept valid, whatever the publishes do |
| Consumers.ChatMessageConsumer.Announce | src/main/java/com/punith/chat/messaging/ChatMessageConsumer.java:61-93 | the DELIVERED status is published before the new-message event; the first publish that raises stops the record and counts it failed, keeping what was already published; the store is not touched |
| Consumers.ChatMessageConsumer.Publish | src/main/java/com/punith/chat/messaging/ChatMessageConsumer.java:67-76 | a publish changes only the fanout log, by the entries the bus outcome gives, and reports a raised error |
| Consumers.ChatMessageConsumer.SendToDlq | src/main/java/com/punith/chat/messaging/ChatMessageConsumer.java:81-91 | the failure path counts one failure and logs one dead letter with the original topic, no key, the payload and the error |
| Consumers.ReadReceiptConsumer.constructor | src/main/java/com/punith/chat/messaging/ReadReceiptConsumer.java:29-45 | a new consumer has zero counters and empty logs |
| Consumers.ReadReceiptConsumer.Consume | src/main/java/com/punith/chat/messaging/ReadReceiptConsumer.java:47-89 | one record: the store, fanout log and counters become what `ReadReceiptOutcome` gives; a failure, including a record without a timestamp, logs a dead letter to "chat.read-receipts.dlq" |
| Consumers.ReadReceiptConsumer.Deliver | src/main/java/com/punith/chat/messaging/ReadReceiptConsumer.java:54-89 | a decoded intent: markMessagesAsRead's error sends the record to the dead-letter topic with the store untouched; otherwise the store becomes the one markMessagesAsRead returns, kept valid, whatever follows |
| Consumers.ReadReceiptConsumer.Announce | src/main/java/com/punith/chat/messaging/ReadReceiptConsumer.java:60-89 | a missing timestamp fails the record with the unboxing error and publishes nothing; otherwise the read-receipt event is published after the store write; a raising bus counts the record failed and forwards it, a dropped event still counts it processed; the store is not touched |
| Consumers.ReadReceiptConsumer.SendToDlq | src/main/java/com/punith/chat/messaging/ReadReceiptConsumer.java:77-88 | the failure path counts one failure and logs one dead letter for the read-receipts topics |
| Consumers.ChatMessageAnnounced | src/main/java/com/punith/chat/messaging/ChatMessageConsumer.java:52-79 | a record processed without error decoded, and announces one stored message of its chat: first its DELIVERED status to the message's sender, then the message itself; when the bus takes both, the log gains exactly these two entries |
| Consumers.ChatMessageRedelivery | src/main/java/com/punith/chat/messaging/ChatMessageConsumer.java:52-76 | a redelivered record with a client message id, once stored, leaves the store unchanged and announces the same message again, at any time |
| Consumers.ChatMessageWithoutBody | src/main/java/com/punith/chat/messaging/ChatMessageConsumer.java:51-93 | a record without a body that passes the membership and sender checks is announced like any redelivery when its client message id matches a stored message; otherwise the save fails and the record is dead-lettered with the not-null error (or the value-too-long error), nothing published and the store untouched |
| Consumers.ChatMessageStoreIgnoresBus | src/main/java/com/punith/chat/messaging/ChatMessageConsumer.java:54-76 | the store a record leaves behind does not depend on the bus: a failed publish does not undo the stored message |
| Consumers.ReadReceiptAnnounced | src/main/java/com/punith/chat/messaging/ReadReceiptConsumer.java:52-72 | what is announced and whether the record fails do not depend on the consumer's clock; a record processed without error had a timestamp, and the event carries the intent's chat, reader, ids and that timestamp |
| Consumers.ReadReceiptWithoutTimestamp | src/main/java/com/punith/chat/messaging/ReadReceiptConsumer.java:54-64 | a record without a timestamp whose marking succeeds is dead-lettered with the unboxing error and announces nothing, yet the receipts it stamped stay stamped |
| Consumers.ReadReceiptRedelivery | src/main/java/com/punith/chat/messaging/ReadReceiptConsumer.java:52-72 | a redelivered read intent at the same time succeeds again, announces the same event, and leaves every receipt as the first delivery did |
| WebSocket.CopyUserHeader | src/main/java/com/punith/chat/ws/UserHandshakeInterceptor.java:21-24 | the first `X-User-Id` header value, when there is one, is stored under that key, and every other attribute is kept |
| WebSocket.BeforeHandshake | src/main/java/com/punith/chat/ws/UserHandshakeInterceptor.java:15-29 | the handshake always proceeds, and the attribute map becomes the copy with the header value |
| WebSocket.UserIdText | src/main/java/com/punith/chat/ws/ChatWebSocketHandler.java:74-80 | the cast of the header attribute fails exactly when it is present and not text; there is no id text exactly when neither attribute is present |
| WebSocket.ResolveUserId | src/main/java/com/punith/chat/ws/ChatWebSocketHandler.java:73-88 | the id is missing exactly when neither attribute is present; a non-text header attribute throws a cast exception; header text resolves to its parsed id or throws a number-format exception |
| WebSocket.ResolveStoredUserId | src/main/java/com/punith/chat/ws/ChatWebSocketHandler.java:76-88 | a numeric `userId` attribute without a header resolves to that id |
| WebSocket.HandshakeThenResolve | src/main/java/com/punith/chat/ws/ChatWebSocketHandler.java:73-88 | a handshake with the decimal text of an id resolves to that id; without a header or stored id the session has no user |
| WebSocket.SessionUser | src/main/java/com/punith/chat/ws/ChatWebSocketHandler.java:127-132 | no user exactly when the attribute is absent; a numeric attribute gives that user; anything else throws a cast exception |
| WebSocket.Register | src/main/java/com/punith/chat/ws/ChatWebSocketHandler.java:92-94 | registering adds the user's key and leaves every other user's sessions alone |
| WebSocket.Unregister | src/main/java/com/punith/chat/ws/ChatWebSocketHandler.java:109-115 | unregistering leaves every other user's entry alone |
| WebSocket.RegisterValid | src/main/java/com/punith/chat/ws/ChatWebSocketHandler.java:92-94 | registering a new session keeps every user's set non-empty and the sets disjoint, and adds exactly that session |
| WebSocket.UnregisterValid | src/main/java/com/punith/chat/ws/ChatWebSocketHandler.java:109-115 | unregistering keeps the registry well formed, removes exactly that session when it was registered under the user, and nothing otherwise |
| WebSocket.UnregisterUndoesRegister | src/main/java/com/punith/chat/ws/ChatWebSocketHandler.java:92-115 | closing a session right after connecting it restores the registry exactly, dropping an entry the connect created |
| WebSocket.HandleTextMessage | src/main/java/com/punith/chat/ws/ChatWebSocketHandler.java:125-152 | an unauthenticated session gets "Not authenticated"; text that is not JSON gets "Invalid JSON"; an exception escapes exactly when the user attribute is not numeric or the frame is the JSON `null` document, which fails reading its type; an escaping exception sends no reply and produces nothing; an intent is produced only with an acceptance reply, never with an ERROR frame |
| WebSocket.HandleTextMessageProduces | src/main/java/com/punith/chat/ws/ChatWebSocketHandler.java:125-224 | an intent is produced exactly when the session is authenticated, the frame decodes to a known type with its required fields, the session's user takes part in the chat and the producer takes it; the intent names the session's user, never one from the frame, and the reply echoes the frame's fields |
| WebSocket.ErrorPayloadRoundTrip | src/main/java/com/punith/chat/ws/ChatWebSocketHandler.java:372-374 | with the error text escaped, reading the payload back gives the error text, for every error text |
| WebSocket.ErrorPayloadAsWrittenUnreadable | src/main/java/com/punith/chat/ws/ChatWebSocketHandler.java:372-374 | the payload as built, for an error text ending in a quote, cannot be read back |
| WebSocket.UnknownTypeErrorUnreadable | src/main/java/com/punith/chat/ws/ChatWebSocketHandler.java:147-151 | a frame whose type is a quote gets an "Unknown type" ERROR frame whose payload, as built, cannot be read back |
| WebSocket.ChatWebSocketHandler.constructor | src/main/java/com/punith/chat/ws/ChatWebSocketHandler.java:49-50 | a new handler has no sessions |
| WebSocket.ChatWebSocketHandler.AfterConnectionEstablished | src/main/java/com/punith/chat/ws/ChatWebSocketHandler.java:72-100 | with no user id the session is closed NOT_ACCEPTABLE with "Missing X-User-Id" and nothing is registered; a bad id escapes and changes nothing; otherwise the id is stored on the session and the session is registered under it, alone added to the registry |
| WebSocket.ChatWebSocketHandler.AfterConnectionClosed | src/main/java/com/punith/chat/ws/ChatWebSocketHandler.java:102-123 | a session with a user leaves that user's set, and a user with no sessions left leaves the registry; a session without a user changes nothing |
| WebSocket.ChatWebSocketHandler.TotalActiveSessions | src/main/java/com/punith/chat/ws/ChatWebSocketHandler.java:363-369 | the sum of the users' set sizes is the number of registered sessions |
| WebSocket.ChatWebSocketHandler.SendToUser | src/main/java/com/punith/chat/ws/ChatWebSocketHandler.java:352-360 | each open session of the user whose send succeeds gets the frame exactly once, and no other session gets it |
| WebSocket.ChatWebSocketHandler.BroadcastNewMessageFanout | src/main/java/com/punith/chat/ws/ChatWebSocketHandler.java:289-316 | the NEW_MESSAGE frame carries the event's fields; exactly the open, working sessions of the chat's participants get it, each once |
| WebSocket.ChatWebSocketHandler.BroadcastReadReceiptFanout | src/main/java/com/punith/chat/ws/ChatWebSocketHandler.java:319-341 | the READ_RECEIPT frame carries the event's fields; exactly the open, working sessions of the chat's participants get it, each once |
| WebSocket.ChatWebSocketHandler.BroadcastMessageStatusFanout | src/main/java/com/punith/chat/ws/ChatWebSocketHandler.java:343-361 | the MESSAGE_STATUS frame carries the event's fields; exactly the open, working sessions of the target user get it, each once |

## Left out

- The session mirror in the key-value store (`RedisSessionService`), metrics gauges and counters' registration, and logging are not modelled. The consumers' counters are plain fields.
- Times are integers: milliseconds since the epoch, that is, instants without an offset. The source stores `OffsetDateTime` values. Only the creation times are stamped at offset UTC (Message.java:57, Chat.java:39, ChatParticipant.java:45). The delivery and read stamps of receipts (MessageService.java:67, MessageService.java:93) take the system's default offset; the model compares them as instants only, as `isBefore` does (`MessageService.Stamp`). The texts of `IsoTime.IsoText` are those of a creation time read back at offset UTC, with at most millisecond precision; microsecond fractions are not modelled.
- MessageService.CompareSummaries compares the last-message times themselves. The source compares their `toString` texts, which misorders some times; the text comparison is modelled as written in `CompareSummariesAsWritten` and listed under Findings.
- Queries.NewestFirstPage: on equal creation times the model orders by id, the larger id first. The source's query orders by creation time only, so the database may return tied rows in either order; the model fixes one of those orders.
- Queries.OldestUnreadPage: on equal creation times the model orders by id, the smaller id first; the source's query leaves that order to the database, as above.
- MessageService.SortSummaries: the source's sort is stable; the model's insertion sort is a permutation sorted by the comparator, and the order among tied summaries is not stated.
- JSON encoding and decoding are parameters. The frame decoder tells apart text that is not JSON, the JSON `null` document and a frame. In a frame, an absent or null field is `None`; the handler checks those before touching the store. A read intent without a timestamp has `None` there. In a consumer, a record whose chat, user or message ids are null fails inside the service before anything is written; the model's decoder reports such a record as an error carrying that failure's message. A chat-message record without a body has `None` there and reaches the service. Null elements inside a `messageIds` list are not modelled.
- Common.ParseLong: accepts ASCII digits '0'-'9' only; `Long.parseLong` also accepts the other Unicode decimal digits.
- ChatService.CreateChat, MessageService.CreateAndSaveMessage: the model numbers new rows by their position. The source's identity columns draw each value inside the INSERT, and a rolled-back INSERT, such as one failing on a long title, client message id or missing body, uses its value up; so the source's ids skip numbers the model does not skip.
- MessageService.InsertError: follows the database's checks, the length of the client message id before the not-null body. An ORM configured to check nullability itself would reject a missing body first, with its own message.
- The error texts for exceptions are the core sentences: `ValueTooLong` is the database's value-too-long sentence, without the driver's further detail; `NullFrame` and `NullTimestamp` are the JVM's helpful messages for a null dereference. The column lengths (64 for the client message id, 128 for a chat title) follow the entity annotations; other column limits are not modelled.
- Header names are matched exactly. Spring's case-insensitive header map is not modelled.
- Concurrency is not modelled: concurrent sessions, the copy-on-write session sets, and consumers running on several threads.
- The legacy `broadcastNewMessage` and `broadcastReadReceipt` (ChatWebSocketHandler.java:226-286) are not on the path from consumer to session, and are left out.
- `afterHandshake` does nothing and has no member.
- Producers are a verdict parameter (`producerAccepts`). The asynchronous failure of a send after it was accepted is not modelled.
- The dead-letter publisher's own serialisation and send failures are not modelled.
- An I/O error while sending the acceptance reply inside `handleSendMessage` or `handleReadMessages` is not modelled; the source would answer it with "Internal error".
- The framework closing a session after an exception escapes the handler is not modelled. The model only reports the exception.
- `createAndSaveMessage` takes one `now` for both the message's creation time and the delivery stamps. The source reads the clock for the delivery stamp after saving the message.
- WebSocket.ChatWebSocketHandler.TotalActiveSessions: the sum is an unbounded integer; Java's `int` overflow past 2^31 - 1 sessions is not modelled.
- WebSocket.ChatWebSocketHandler.AfterConnectionEstablished: requires a session that is not yet registered, since the framework establishes each session once.
- WebSocket.ChatWebSocketHandler.BroadcastReadReceiptFanout: requires a valid database, because its one-frame-per-session promise relies on a chat listing each user in one row.
- WebSocket.ErrorPayloadRoundTrip: the escape covers quotes and backslashes only; control characters are not escaped.
- Consumers.ReadReceiptRedelivery: stated for a redelivery at the same time. At a later time, receipts get the later read time.

## Findings

| source | as written | input that shows it | evidently intended | confidence | as-written member | corrected member |
|---|---|---|---|---|---|---|
| src/main/java/com/punith/chat/ws/ChatWebSocketHandler.java:372-374 | `sendError` puts the error text between `{"error":"` and `"}` without escaping it, and the unknown-type error echoes the client's `type` | an authenticated frame whose `type` is `"`: the payload becomes `{"error":"Unknown type: ""}`, which is not readable JSON | the error text is escaped, so the payload reads back to the error text | medium, not executed | WebSocket.UnknownTypeErrorUnreadable | WebSocket.ErrorPayloadRoundTrip |
| src/main/java/com/punith/chat/service/MessageService.java:167-191 | the summaries keep the last message's time as `OffsetDateTime.toString()` text, and the comparator orders those texts with `String.compareTo` | the message entity stamps its creation time at offset UTC (Message.java:57); when the time also reads back from the database at offset UTC, its text ends in 'Z' (at a `+hh:mm` or `-hh:mm` offset this example would order correctly, since '+' and '-' sort below ':'). Then two chats with equal unread counts whose last messages came at 2024-01-01T10:00Z and 2024-01-01T10:00:30Z: the text "…T10:00:30Z" sorts below "…T10:00Z" because ':' precedes 'Z', so the chat with the older message is listed first | the chat with the later last message is listed first | high, not executed | MessageService.SummaryOrderAsWrittenMisorders | MessageService.CompareSummariesMeaning |
