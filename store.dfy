/**
 * The document collections the controllers read and write, as the fields
 * the handlers use. Mongoose queries become map lookups and updates; the
 * database is one object whose collections the handlers reassign.
 */
module Store {
  import opened Common

  /** A user document. Free-form string paths (fullName, username, bio, profilePic, ...) live in `fields`. */
  datatype Account = Account(
    email: string,
    passwordHash: string,
    fields: map<string, string>,
    following: seq<UserId>,
    followers: seq<UserId>,
    followingCount: int,
    followersCount: int,
    online: bool)

  datatype Post = Post(owner: UserId, content: string, likes: seq<UserId>, comments: seq<CommentId>)

  datatype Comment = Comment(author: UserId, post: PostId, content: string)

  datatype Message = Message(
    conversation: ConversationId,
    sender: UserId,
    content: string,
    read: bool,
    readBy: seq<UserId>)

  datatype Conversation = Conversation(
    participants: seq<UserId>,
    lastMessage: Option<MessageId>,
    unreadCount: int)

  /** The `type` enum of the notification schema. */
  datatype NotificationKind = LikeNotice | CommentNotice | FollowNotice | MessageNotice

  datatype Notification = Notification(
    receiver: UserId,
    sender: UserId,
    kind: NotificationKind,
    post: Option<PostId>,
    content: Option<string>,
    read: bool)

  function KindName(k: NotificationKind): string {
    match k
    case LikeNotice => "like"
    case CommentNotice => "comment"
    case FollowNotice => "follow"
    case MessageNotice => "message"
  }

  /** Casting a client-supplied type string to the schema enum; anything else fails validation on save. */
  function ParseKind(s: string): (r: Option<NotificationKind>)
    ensures r.Some? <==> s in {"like", "comment", "follow", "message"}
    ensures r.Some? ==> KindName(r.value) == s
  {
    if s == "like" then Some(LikeNotice)
    else if s == "comment" then Some(CommentNotice)
    else if s == "follow" then Some(FollowNotice)
    else if s == "message" then Some(MessageNotice)
    else None
  }

  /** No two users hold the same username: what the schema's unique index on username keeps. */
  predicate UsernamesUnique(users: map<UserId, Account>) {
    forall u, v :: u in users && v in users && u != v && "username" in users[u].fields && "username" in users[v].fields ==>
      users[u].fields["username"] != users[v].fields["username"]
  }

  class Database {
    var users: map<UserId, Account>
    var posts: map<PostId, Post>
    var comments: map<CommentId, Comment>
    var messages: map<MessageId, Message>
    var conversations: map<ConversationId, Conversation>
    var notifications: seq<Notification>

    /** The one invariant the handlers keep on stored data: unread counters never go negative. */
    ghost predicate Valid()
      reads this
    {
      forall c :: c in conversations ==> conversations[c].unreadCount >= 0
    }

    constructor ()
      ensures Valid()
      ensures users == map[] && posts == map[] && comments == map[]
      ensures messages == map[] && conversations == map[] && notifications == []
    {
      users, posts, comments := map[], map[], map[];
      messages, conversations, notifications := map[], map[], [];
    }
  }
}
