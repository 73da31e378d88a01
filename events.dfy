/**
 * The real-time events the server emits, and to whom. The socket layer
 * itself is not modelled: an emit is recorded as a (target, event) pair in
 * an outbox, in the order the handlers issue them.
 */
module Events {
  import opened Common

  datatype Target =
    | ToUser(user: UserId)                  // io.to(userId): the user's personal room
    | ToRoom(room: string)                  // io.to(room): every socket in the room
    | ToRoomExceptSender(room: string)      // socket.to(room): the room minus the emitting socket
    | ToSender                              // socket.emit: the emitting socket only
    | ToEveryone                            // io.emit: every connected socket

  datatype Event =
    | CallInitiated(roomId: string, callType: string)
    | IncomingCall(roomId: string, caller: UserId, callType: string)
    | CallAccepted(roomId: string)
    | CallEnded(reason: string, roomId: string)
    | WebrtcSignal(signal: string, roomId: string, senderId: UserId)
    | UserTyping
    | UserStopTyping
    | MessageRead(messageId: MessageId, readBy: seq<UserId>)
    | ReceiveMessage(messageId: MessageId)
    | ConversationUpdated(conversationId: ConversationId, unreadCount: int)
    | NewNotification(receiver: UserId, sender: UserId, kind: string)
    | LikeUpdate(postId: PostId, likes: seq<UserId>)

  datatype Emit = Emit(target: Target, event: Event)
}
