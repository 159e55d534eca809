/** The local state of the `Chat` component: seven independent pieces of
    React state, held here as one immutable record. */
module Session {

  /** A chat line as the server delivers it; the client only stores and
      displays it, so its fields are opaque strings. */
  datatype Message = Message(username: string, text: string, time: string)

  /** `room` is the room-code field (also the room the client believes it is
      in), `draft` the message being typed, `chat` the message log and
      `userList` the presence list last broadcast by the server. */
  datatype State = State(
    room: string,
    joined: bool,
    draft: string,
    chat: seq<Message>,
    isAdmin: bool,
    userList: seq<string>,
    error: string
  )

  /** Every piece of state starts out empty or false. */
  const Initial: State := State("", false, "", [], false, [], "")

  /** The reserved room that is served by the AI assistant. */
  const AiRoom: string := "ai-assistant"

  /** The error texts shown for the two room-negotiation rejections. */
  const RoomExistsText: string := "Room already exists."
  const RoomNotFoundText: string := "Room not found."

  /** Names of the state's fields, so that a transition can be described by
      the set of fields it writes. */
  datatype Field = Room | Joined | Draft | Chat | Admin | Users | Error

  const AllFields: set<Field> := {Room, Joined, Draft, Chat, Admin, Users, Error}

  /** The value of one field, in a type common to all of them. */
  datatype FieldValue =
    | Text(s: string)
    | Flag(b: bool)
    | Log(msgs: seq<Message>)
    | Names(names: seq<string>)

  function Get(s: State, f: Field): FieldValue {
    match f
    case Room => Text(s.room)
    case Joined => Flag(s.joined)
    case Draft => Text(s.draft)
    case Chat => Log(s.chat)
    case Admin => Flag(s.isAdmin)
    case Users => Names(s.userList)
    case Error => Text(s.error)
  }

  /** `s` and `t` agree on every field in `fs`. */
  predicate Unchanged(s: State, t: State, fs: set<Field>) {
    forall f :: f in fs ==> Get(s, f) == Get(t, f)
  }
}
