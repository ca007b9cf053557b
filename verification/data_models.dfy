/**
 The records of the in-memory store. Times are clock ticks; the free-form
 `Metadata` and `Settings` dictionaries carry no behaviour and are left out.
 */
module DataModels {
  import opened Common

  datatype User = User(
    id: string,
    name: string,
    email: string,
    createdAt: int,
    lastLoginAt: int,
    isActive: bool,
    role: string)

  datatype ChatRoom = ChatRoom(
    id: string,
    name: string,
    description: string,
    createdBy: string,
    createdAt: int,
    members: seq<string>,
    isActive: bool,
    maxMembers: Int32)

  datatype MessageType = Text | System | Notification | Image | File

  datatype Message = Message(
    id: string,
    chatRoomId: string,
    senderId: string,
    senderName: string,
    content: string,
    messageType: MessageType,
    sentAt: int,
    isDeleted: bool)

  function UserId(u: User): string {
    u.id
  }

  function RoomId(r: ChatRoom): string {
    r.id
  }

  function MessageId(m: Message): string {
    m.id
  }

  function SentAt(m: Message): int {
    m.sentAt
  }
}
