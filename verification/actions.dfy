/** The `Chat` component's user-action handlers. Each returns the new state
    and the socket requests it emits, in emission order. */
module Actions {
  import opened JsText
  import opened Session
  import opened Protocol

  datatype Outcome = Outcome(state: State, sent: seq<Request>)

  /** Typing in the room-code field sets the room and nothing else. */
  function EditRoom(s: State, text: string): (o: Outcome)
    ensures o.state.room == text
    ensures Unchanged(s, o.state, AllFields - {Room})
    ensures o.sent == []
  {
    Outcome(s.(room := text), [])
  }

  /** Typing in the message field sets the draft and nothing else. */
  function EditDraft(s: State, text: string): (o: Outcome)
    ensures o.state.draft == text
    ensures Unchanged(s, o.state, AllFields - {Draft})
    ensures o.sent == []
  {
    Outcome(s.(draft := text), [])
  }

  /** `joinRoom`: clears the error, then asks to join the room in the field,
      but only when the field is not empty. */
  function JoinRoom(s: State, username: string): (o: Outcome)
    ensures o.state.error == ""
    ensures Unchanged(s, o.state, AllFields - {Error})
    ensures o.sent != [] <==> s.room != ""
    ensures forall r :: r in o.sent ==> r == EmitJoinRoom(s.room, username)
    ensures |o.sent| <= 1
    ensures forall r :: r in o.sent ==> r.RoomOf() == o.state.room
  {
    var t := s.(error := "");
    if s.room != "" then Outcome(t, [EmitJoinRoom(s.room, username)]) else Outcome(t, [])
  }

  /** The code `handleCreate` cuts out of `Math.random().toString(36)` (whose
      text is passed in) with `substring(2, 8)`: at most six characters,
      exactly six when the text is long enough, empty only when the text has
      no characters after its first two. */
  function NewRoomCode(randomText: string): (code: string)
    ensures |code| <= 6
    ensures |randomText| >= 8 ==> code == randomText[2..8]
    ensures 2 <= |randomText| <= 8 ==> code == randomText[2..]
    ensures code == [] <==> |randomText| <= 2
  {
    Substring(randomText, 2, 8)
  }

  /** `handleCreate`: clears the error, puts a fresh code in the room field
      and asks the server to create that very room. */
  function HandleCreate(s: State, randomText: string, username: string): (o: Outcome)
    ensures o.state.error == "" && o.state.room == NewRoomCode(randomText)
    ensures Unchanged(s, o.state, AllFields - {Error, Room})
    ensures o.sent == [EmitCreateRoom(o.state.room, username)]
    ensures |o.state.room| <= 6
    ensures forall r :: r in o.sent ==> r.RoomOf() == o.state.room
  {
    var code := NewRoomCode(randomText);
    Outcome(s.(error := "", room := code), [EmitCreateRoom(code, username)])
  }

  /** `handleJoinAI`: puts the reserved AI room in the room field and asks to
      join it. Unlike the other two, it leaves the error text alone. */
  function HandleJoinAi(s: State, username: string): (o: Outcome)
    ensures o.state.room == AiRoom
    ensures Unchanged(s, o.state, AllFields - {Room})
    ensures o.sent == [EmitJoinRoom(AiRoom, username)]
    ensures forall r :: r in o.sent ==> r.RoomOf() == o.state.room
  {
    Outcome(s.(room := AiRoom), [EmitJoinRoom(AiRoom, username)])
  }

  /** `handleDelete`: once the user confirms, asks to delete the current
      room. It checks neither the admin flag nor the room; that guard is the
      rendering of the control (see `ChatSession.DeleteVisible`). */
  function HandleDelete(s: State, confirmed: bool): (o: Outcome)
    ensures o.state == s
    ensures o.sent != [] <==> confirmed
    ensures forall r :: r in o.sent ==> r == EmitDeleteRoom(s.room)
    ensures |o.sent| <= 1
    ensures forall r :: r in o.sent ==> r.RoomOf() == o.state.room
  {
    if confirmed then Outcome(s, [EmitDeleteRoom(s.room)]) else Outcome(s, [])
  }

  /** `leaveRoom` reloads the page: every piece of state starts over and
      nothing is emitted. */
  function LeaveRoom(s: State): (o: Outcome)
    ensures !o.state.joined && o.state.room == "" && o.state.chat == []
    ensures o.state.userList == [] && !o.state.isAdmin
    ensures o.state == Initial
    ensures o.sent == []
  {
    Outcome(Initial, [])
  }

  /** `sendMessage`: a blank draft changes nothing; any other draft is sent,
      untrimmed, to the room in state and then cleared. */
  function SendMessage(s: State, username: string): (o: Outcome)
    ensures AllWhitespace(s.draft) ==> o.state == s && o.sent == []
    ensures !AllWhitespace(s.draft) ==>
              && o.sent == [EmitSendMessage(s.draft, s.room, username)]
              && o.state.draft == ""
              && Unchanged(s, o.state, AllFields - {Draft})
    ensures forall r :: r in o.sent ==> r.RoomOf() == o.state.room
  {
    BlankIffAllWhitespace(s.draft);
    if IsBlank(s.draft) then Outcome(s, [])
    else Outcome(s.(draft := ""), [EmitSendMessage(s.draft, s.room, username)])
  }

  /** `handleKeyPress`: the Enter key sends the draft; any other key does
      nothing. */
  function HandleKeyPress(s: State, key: string, username: string): (o: Outcome)
    ensures key != "Enter" ==> o.state == s && o.sent == []
    ensures key == "Enter" && AllWhitespace(s.draft) ==> o.state == s && o.sent == []
    ensures key == "Enter" && !AllWhitespace(s.draft) ==>
              && o.sent == [EmitSendMessage(s.draft, s.room, username)]
              && o.state.draft == ""
              && Unchanged(s, o.state, AllFields - {Draft})
  {
    if key == "Enter" then SendMessage(s, username) else Outcome(s, [])
  }
}
