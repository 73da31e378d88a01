/**
 * The read/unread bookkeeping of the chat controller as functions on the
 * message and conversation documents: the single-message read, the bulk
 * conversation read, the send-side counter update, the pre-write checks of
 * the send pipeline and the documents and emits it produces.
 */
module Messages {
  import opened Common
  import opened Events
  import opened Store

  /** The schema's maximum message length; a longer content fails validation when the message is saved. */
  const MaxMessageLength := 2000

  /** The conversation-updated emits: one per participant whose user document still exists (populate drops the others). */
  function ConversationUpdatedNotices(participants: seq<UserId>, users: set<UserId>, id: ConversationId, unread: int): (r: seq<Emit>)
    ensures |r| <= |participants|
    ensures forall e :: e in r <==> exists p :: p in participants && p in users && e == Emit(ToUser(p), ConversationUpdated(id, unread))
  {
    if participants == [] then []
    else
      var rest := ConversationUpdatedNotices(participants[1..], users, id, unread);
      assert forall p :: p in participants <==> p == participants[0] || p in participants[1..];
      if participants[0] in users then [Emit(ToUser(participants[0]), ConversationUpdated(id, unread))] + rest else rest
  }

  /**
   * The emits follow the participants' order, one per participant: the emits
   * for a split list are those of its two parts in turn, and a single
   * participant gets exactly one emit when its document exists.
   */
  lemma {:induction false} ConversationUpdatedNoticesInOrder(a: seq<UserId>, b: seq<UserId>, users: set<UserId>, id: ConversationId, unread: int)
    ensures ConversationUpdatedNotices(a + b, users, id, unread)
            == ConversationUpdatedNotices(a, users, id, unread) + ConversationUpdatedNotices(b, users, id, unread)
    ensures forall p :: ConversationUpdatedNotices([p], users, id, unread)
                        == if p in users then [Emit(ToUser(p), ConversationUpdated(id, unread))] else []
  {
    if a == [] {
      assert a + b == b;
    } else {
      assert (a + b)[1..] == a[1..] + b;
      ConversationUpdatedNoticesInOrder(a[1..], b, users, id, unread);
    }
    forall p ensures ConversationUpdatedNotices([p], users, id, unread)
                     == if p in users then [Emit(ToUser(p), ConversationUpdated(id, unread))] else [] {
      assert [p][1..] == [];
    }
  }

  /** The body of the bulk read update: every message of the conversation that the reader neither sent nor has read gains the reader in readBy and is flagged read. */
  function MarkAllRead(messages: map<MessageId, Message>, conversation: ConversationId, reader: UserId): (r: map<MessageId, Message>)
    ensures r.Keys == messages.Keys
    ensures forall m :: m in messages && messages[m].conversation == conversation && messages[m].sender != reader ==>
              reader in r[m].readBy
    ensures forall m :: m in messages && messages[m].conversation == conversation && messages[m].sender != reader
                          && reader !in messages[m].readBy ==>
              r[m] == messages[m].(readBy := messages[m].readBy + [reader], read := true)
    ensures forall m :: m in messages && (messages[m].conversation != conversation || messages[m].sender == reader || reader in messages[m].readBy) ==>
              r[m] == messages[m]
    ensures forall m :: m in messages ==>
              (|messages[m].readBy| <= |r[m].readBy| <= |messages[m].readBy| + 1
               && r[m].readBy[..|messages[m].readBy|] == messages[m].readBy)
  {
    map m | m in messages ::
      var msg := messages[m];
      if msg.conversation == conversation && msg.sender != reader && reader !in msg.readBy
      then msg.(readBy := msg.readBy + [reader], read := true)
      else msg
  }

  /** Marking a conversation read twice is the same as marking it once. */
  lemma MarkAllReadIdempotent(messages: map<MessageId, Message>, conversation: ConversationId, reader: UserId)
    ensures MarkAllRead(MarkAllRead(messages, conversation, reader), conversation, reader) == MarkAllRead(messages, conversation, reader)
  {
    var once := MarkAllRead(messages, conversation, reader);
    var twice := MarkAllRead(once, conversation, reader);
    forall m | m in once ensures twice[m] == once[m] {
      var msg := messages[m];
      if msg.conversation == conversation && msg.sender != reader {
        assert reader in once[m].readBy;
      }
    }
    assert twice == once;
  }

  /** The single-message read: `$addToSet: { readBy: reader }` together with `read: true`. */
  function MarkedRead(m: Message, reader: UserId): (r: Message)
    ensures r.read && reader in r.readBy
    ensures forall u :: u in r.readBy <==> u in m.readBy || u == reader
    ensures |m.readBy| <= |r.readBy| <= |m.readBy| + 1 && r.readBy[..|m.readBy|] == m.readBy
    ensures r.conversation == m.conversation && r.sender == m.sender && r.content == m.content
  {
    m.(readBy := AddToSet(m.readBy, reader), read := true)
  }

  /** Re-reading a message leaves it as the first read left it. */
  lemma MarkedReadIdempotent(m: Message, reader: UserId)
    ensures MarkedRead(MarkedRead(m, reader), reader) == MarkedRead(m, reader)
  {
  }

  /** The bulk read touches exactly the conversation's messages that the reader neither sent nor had read, and on each of them it does what a single read does. */
  lemma MarkAllReadIsSingleReads(messages: map<MessageId, Message>, conversation: ConversationId, reader: UserId, m: MessageId)
    requires m in messages
    ensures MarkAllRead(messages, conversation, reader)[m] ==
              if messages[m].conversation == conversation && messages[m].sender != reader && reader !in messages[m].readBy
              then MarkedRead(messages[m], reader)
              else messages[m]
  {
  }

  /** mark_message_read's counter step: one less, but only while the counter is positive. */
  function ReadDecrement(c: Conversation): (r: Conversation)
    ensures r.participants == c.participants && r.lastMessage == c.lastMessage
    ensures c.unreadCount >= 0 ==> r.unreadCount >= 0
    ensures c.unreadCount - 1 <= r.unreadCount <= c.unreadCount
    ensures r == c <==> c.unreadCount <= 0
  {
    if c.unreadCount > 0 then c.(unreadCount := c.unreadCount - 1) else c
  }

  /** mark_conversation_read's counter step: back to zero. */
  function ResetUnread(c: Conversation): (r: Conversation)
    ensures r.participants == c.participants && r.lastMessage == c.lastMessage
    ensures r.unreadCount == 0
  {
    c.(unreadCount := 0)
  }

  /** send_message's conversation update: the new message becomes the last one and the counter goes up by exactly one. */
  function RecordSent(c: Conversation, m: MessageId): (r: Conversation)
    ensures r.participants == c.participants
    ensures r.lastMessage == Some(m)
    ensures r.unreadCount == c.unreadCount + 1
  {
    c.(lastMessage := Some(m), unreadCount := c.unreadCount + 1)
  }

  /** A single read right after a send brings the counter back to where it was. */
  lemma ReadUndoesSend(c: Conversation, m: MessageId)
    requires c.unreadCount >= 0
    ensures ReadDecrement(RecordSent(c, m)) == c.(lastMessage := Some(m))
  {
  }

  /** The counter is not tied to who read what: reading the same message twice takes two off. */
  lemma RepeatedReadDecrementsTwice(c: Conversation)
    requires c.unreadCount >= 2
    ensures ReadDecrement(ReadDecrement(c)).unreadCount == c.unreadCount - 2
  {
  }

  /** The events that move a conversation's unread counter. */
  datatype UnreadEvent = MessageSent(message: MessageId) | SingleRead | ConversationRead

  function ApplyUnread(c: Conversation, e: UnreadEvent): Conversation {
    match e
    case MessageSent(m) => RecordSent(c, m)
    case SingleRead => ReadDecrement(c)
    case ConversationRead => ResetUnread(c)
  }

  /** The conversation after a history of counter events, oldest first. */
  function ApplyUnreadAll(c: Conversation, es: seq<UnreadEvent>): (r: Conversation)
    ensures r.participants == c.participants
    decreases |es|
  {
    if es == [] then c else ApplyUnreadAll(ApplyUnread(c, es[0]), es[1..])
  }

  /** No history of sends and reads drives the counter below zero. */
  lemma {:induction false} UnreadNeverNegative(c: Conversation, es: seq<UnreadEvent>)
    requires c.unreadCount >= 0
    ensures ApplyUnreadAll(c, es).unreadCount >= 0
    decreases |es|
  {
    if es != [] {
      UnreadNeverNegative(ApplyUnread(c, es[0]), es[1..]);
    }
  }

  /** With no reads in between, the counter grows by one per message sent. */
  lemma {:induction false} SendsOnlyCount(c: Conversation, es: seq<UnreadEvent>)
    requires forall i :: 0 <= i < |es| ==> es[i].MessageSent?
    ensures ApplyUnreadAll(c, es).unreadCount == c.unreadCount + |es|
    decreases |es|
  {
    if es != [] {
      SendsOnlyCount(ApplyUnread(c, es[0]), es[1..]);
    }
  }

  /** A conversation read followed only by sends leaves the counter equal to the number of those sends. */
  lemma {:induction false} CountAfterConversationRead(c: Conversation, es: seq<UnreadEvent>)
    requires forall i :: 0 <= i < |es| ==> es[i].MessageSent?
    ensures ApplyUnreadAll(c, [ConversationRead] + es).unreadCount == |es|
  {
    assert ([ConversationRead] + es)[1..] == es;
    SendsOnlyCount(ResetUnread(c), es);
  }

  /** The preview stored in a message notification: the first 20 characters, quoted and followed by an ellipsis. */
  function MessagePreview(content: string): (r: string)
    ensures |r| == (if |content| < 20 then |content| else 20) + 5
    ensures r[0] == '"' && r[|r| - 4..] == "...\""
    ensures StartsWith(content, r[1..|r| - 4])
  {
    var n := if |content| < 20 then |content| else 20;
    "\"" + content[..n] + "...\""
  }

  datatype SendError =
    | InvalidMessageData        // missing conversation or empty content, thrown before any write
    | InvalidConversationId     // the conversation id does not cast to an ObjectId
    | MessageTooLong            // the content exceeds the schema's maximum: the save is rejected
    | PersistenceFailure        // a write or the commit failed: the transaction is aborted
    | ConversationNotFound      // after commit: the conversation lookup returned null
    | NotificationSaveFailure   // after commit: saving the receiver's notification failed

  /** The acknowledgement passed to the send_message callback. */
  datatype Ack = Sent(messageId: MessageId, message: Message) | Failed(error: SendError)

  /** The failures of the database calls that the model lets the caller inject. */
  datatype Fault = NoFault | FailBeforeCommit | FailNotificationSave

  /** The `status` field of the acknowledgement. */
  function AckStatus(a: Ack): (r: string)
    ensures r == "success" <==> a.Sent?
    ensures r == "error" <==> a.Failed?
  {
    if a.Sent? then "success" else "error"
  }

  /** The errors that end send_message before anything is committed. */
  predicate BeforeCommit(e: SendError) {
    e in {InvalidMessageData, InvalidConversationId, MessageTooLong, PersistenceFailure}
  }

  /** The checks send_message makes before its first write, in order: both fields truthy, the id castable, the content within the schema's limit. */
  function SendPrecheck(conversation: Option<string>, content: Option<string>): (r: Option<SendError>)
    ensures r == Some(InvalidMessageData) <==> !Truthy(conversation) || !Truthy(content)
    ensures r == Some(InvalidConversationId) <==> Truthy(conversation) && Truthy(content) && !IsObjectId(conversation.value)
    ensures r == Some(MessageTooLong) <==>
              Truthy(conversation) && Truthy(content) && IsObjectId(conversation.value) && |content.value| > MaxMessageLength
    ensures r.None? <==>
              Truthy(conversation) && Truthy(content) && IsObjectId(conversation.value) && |content.value| <= MaxMessageLength
    ensures r.Some? ==> BeforeCommit(r.value)
  {
    if !Truthy(conversation) || !Truthy(content) then Some(InvalidMessageData)
    else if !IsObjectId(conversation.value) then Some(InvalidConversationId)
    else if |content.value| > MaxMessageLength then Some(MessageTooLong)
    else None
  }

  /**
   * send_notification's document: built only when the receiver id is truthy and
   * castable, a truthy post id is castable, and the type is one of the schema's
   * kinds; otherwise the handler stops (or its save is rejected) and nothing is
   * stored. Receiver and post are stored as the cast (lower-case) ids.
   */
  function RequestedNotification(sender: UserId, receiverId: Option<string>, kind: Option<string>,
                                 postId: Option<string>, commentText: Option<string>): (r: Option<Notification>)
    ensures r.Some? <==>
              && Truthy(receiverId) && IsObjectId(receiverId.value)
              && (Truthy(postId) ==> IsObjectId(postId.value))
              && kind.Some? && ParseKind(kind.value).Some?
    ensures r.Some? ==>
              && r.value.receiver == Canonical(receiverId.value) && IsObjectId(r.value.receiver) && r.value.sender == sender
              && KindName(r.value.kind) == kind.value
              && r.value.post == (if Truthy(postId) then Some(Canonical(postId.value)) else None)
              && r.value.content == commentText && !r.value.read
  {
    if !Truthy(receiverId) || !IsObjectId(receiverId.value) then None
    else if Truthy(postId) && !IsObjectId(postId.value) then None
    else if kind.None? then None
    else match ParseKind(kind.value)
      case None => None
      case Some(k) =>
        var post := if Truthy(postId) then Some(Canonical(postId.value)) else None;
        Some(Notification(Canonical(receiverId.value), sender, k, post, commentText, false))
  }
}
