/** The socket protocol between the chat client and its backend, as the
    client uses it: the requests it emits and the events it listens for. */
module Protocol {
  import opened Session

  /** Client-to-server emissions: `join_room`, `create_room`, `delete_room`
      (whose payload is the bare room code) and `send_message`. */
  datatype Request =
    | EmitJoinRoom(roomCode: string, username: string)
    | EmitCreateRoom(roomCode: string, username: string)
    | EmitDeleteRoom(roomCode: string)
    | EmitSendMessage(message: string, room: string, username: string)
  {
    /** The room a request is about, whichever field carries it. */
    function RoomOf(): string {
      match this
      case EmitJoinRoom(code, _) => code
      case EmitCreateRoom(code, _) => code
      case EmitDeleteRoom(code) => code
      case EmitSendMessage(_, room, _) => room
    }
  }

  /** Server-to-client events the component subscribes to, with the part of
      each payload the handler reads. */
  datatype Event =
    | ReceiveMessage(msg: Message)
    | PreviousMessages(msgs: seq<Message>)
    | RoomCreated(roomCode: string, isAdmin: bool)
    | JoinedRoom(isAdmin: bool)
    | RoomExists
    | RoomNotFound
    | RoomDeleted
    | UpdateUsers(users: seq<string>)
  {
    /** The server acknowledged a create or a join. */
    predicate IsAcknowledgement() {
      RoomCreated? || JoinedRoom?
    }

    /** The server refused a create or a join. */
    predicate IsRejection() {
      RoomExists? || RoomNotFound?
    }
  }
}
