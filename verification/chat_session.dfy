/** A whole chat session: server events and user actions interleaved on one
    event queue. A user action can only happen through a control that is on
    screen, so each is dispatched only when the rendered view offers it. */
module ChatSession {
  import opened JsText
  import opened Session
  import opened Protocol
  import opened Handlers
  import opened Actions

  /** What the user can do on the two screens: the lobby (room field, join,
      create, AI chat) and the room (delete, leave, message field, send). */
  datatype Action =
    | TypeRoom(text: string)
    | ClickJoin
    | ClickCreate(randomText: string)
    | ClickJoinAi
    | ClickDelete(confirmed: bool)
    | ClickLeave
    | TypeMessage(text: string)
    | PressKey(key: string)
    | ClickSend

  datatype Input = Server(event: Event) | User(action: Action)

  /** The delete control is rendered only for an admin outside the AI room. */
  predicate DeleteVisible(s: State) {
    s.isAdmin && s.room != AiRoom
  }

  /** The control behind `a` is on screen: lobby controls while not joined,
      room controls while joined, and delete only when `DeleteVisible`. */
  predicate Available(s: State, a: Action) {
    match a
    case TypeRoom(_) => !s.joined
    case ClickJoin => !s.joined
    case ClickCreate(_) => !s.joined
    case ClickJoinAi => !s.joined
    case ClickDelete(_) => s.joined && DeleteVisible(s)
    case ClickLeave => s.joined
    case TypeMessage(_) => s.joined
    case PressKey(_) => s.joined
    case ClickSend => s.joined
  }

  /** What the client promises of every request it emits: joins name a
      non-empty room, created codes have at most six characters and every
      message has a visible character. */
  predicate WellFormed(r: Request) {
    match r
    case EmitJoinRoom(code, _) => code != ""
    case EmitCreateRoom(code, _) => |code| <= 6
    case EmitDeleteRoom(_) => true
    case EmitSendMessage(message, _, _) => !AllWhitespace(message)
  }

  function Perform(s: State, a: Action, username: string): Outcome {
    match a
    case TypeRoom(text) => EditRoom(s, text)
    case ClickJoin => JoinRoom(s, username)
    case ClickCreate(randomText) => HandleCreate(s, randomText, username)
    case ClickJoinAi => HandleJoinAi(s, username)
    case ClickDelete(confirmed) => HandleDelete(s, confirmed)
    case ClickLeave => LeaveRoom(s)
    case TypeMessage(text) => EditDraft(s, text)
    case PressKey(key) => HandleKeyPress(s, key, username)
    case ClickSend => SendMessage(s, username)
  }

  /** One user action. An action whose control is not on screen cannot
      happen and changes nothing. No action makes the client joined, and at
      most one request is emitted, well formed and carrying the room code
      that is in state afterwards; a delete request is emitted only by an
      admin, inside a room that is not the AI room. */
  function Dispatch(s: State, a: Action, username: string): (o: Outcome)
    ensures !Available(s, a) ==> o == Outcome(s, [])
    ensures o.state.joined ==> s.joined
    ensures |o.sent| <= 1
    ensures forall r :: r in o.sent ==> WellFormed(r)
    ensures forall r :: r in o.sent ==> r.RoomOf() == o.state.room
    ensures forall r :: r in o.sent && r.EmitDeleteRoom? ==>
              s.joined && s.isAdmin && s.room != AiRoom && r.roomCode == s.room
    ensures o.state.isAdmin ==> s.isAdmin
  {
    if Available(s, a) then Perform(s, a, username) else Outcome(s, [])
  }

  function Apply(s: State, i: Input, username: string): Outcome {
    match i
    case Server(e) => Outcome(Step(s, e), [])
    case User(a) => Dispatch(s, a, username)
  }

  /** A session from state `s`: the final state and every request emitted,
      in order. Whatever the interleaving, each request is well formed. */
  function Run(s: State, ins: seq<Input>, username: string): (o: Outcome)
    ensures |o.sent| <= |ins|
    ensures forall r :: r in o.sent ==> WellFormed(r)
    decreases |ins|
  {
    if ins == [] then Outcome(s, [])
    else
      var first := Apply(s, ins[0], username);
      var rest := Run(first.state, ins[1..], username);
      Outcome(rest.state, first.sent + rest.sent)
  }

  /** The server granted admin rights in this input. */
  predicate GrantsAdmin(i: Input) {
    i.Server? && ((i.event.RoomCreated? && i.event.isAdmin) || (i.event.JoinedRoom? && i.event.isAdmin))
  }

  /** Only a server acknowledgement makes the client joined: a session that
      starts outside a room and ends inside one received a `room_created`
      or `joined_room` event. */
  lemma {:induction false} JoinedOnlyAfterAcknowledgement(s: State, ins: seq<Input>, username: string)
    requires !s.joined
    requires Run(s, ins, username).state.joined
    ensures exists i :: 0 <= i < |ins| && ins[i].Server? && ins[i].event.IsAcknowledgement()
    decreases |ins|
  {
    var first := Apply(s, ins[0], username);
    if ins[0].Server? && ins[0].event.IsAcknowledgement() {
      assert 0 <= 0 < |ins|;
    } else {
      assert !first.state.joined;
      JoinedOnlyAfterAcknowledgement(first.state, ins[1..], username);
      var i :| 0 <= i < |ins[1..]| && ins[1..][i].Server? && ins[1..][i].event.IsAcknowledgement();
      assert ins[i + 1] == ins[1..][i];
    }
  }

  /** Without the server ever granting admin rights, a client that is not an
      admin never emits a delete request, whatever the user clicks. */
  lemma {:induction false} NoDeleteWithoutAdmin(s: State, ins: seq<Input>, username: string)
    requires !s.isAdmin
    requires forall i :: 0 <= i < |ins| ==> !GrantsAdmin(ins[i])
    ensures forall r :: r in Run(s, ins, username).sent ==> !r.EmitDeleteRoom?
    decreases |ins|
  {
    if ins != [] {
      var first := Apply(s, ins[0], username);
      assert !GrantsAdmin(ins[0]);
      assert !first.state.isAdmin;
      assert forall r :: r in first.sent ==> !r.EmitDeleteRoom?;
      NoDeleteWithoutAdmin(first.state, ins[1..], username);
    }
  }

  /** A session made only of server events emits nothing and ends in the
      state the event handlers alone produce. */
  lemma {:induction false} ServerOnlySession(s: State, evs: seq<Event>, username: string)
    ensures Run(s, seq(|evs|, i requires 0 <= i < |evs| => Server(evs[i])), username)
            == Outcome(RunEvents(s, evs), [])
    decreases |evs|
  {
    var ins := seq(|evs|, i requires 0 <= i < |evs| => Server(evs[i]));
    if evs != [] {
      var tail := seq(|evs[1..]|, i requires 0 <= i < |evs[1..]| => Server(evs[1..][i]));
      assert ins[1..] == tail;
      ServerOnlySession(Step(s, evs[0]), evs[1..], username);
    }
  }

  /** Creating room "abc123" as alice and receiving the acknowledgement
      leaves the client joined to that room as its admin, with an empty log
      and presence list until the server sends them. */
  lemma CreateScenario()
    ensures var o := Run(Initial, [User(ClickCreate("0.abc123xyz")), Server(RoomCreated("abc123", true))], "alice");
            && o.sent == [EmitCreateRoom("abc123", "alice")]
            && o.state.joined && o.state.isAdmin && o.state.room == "abc123"
            && o.state.chat == [] && o.state.userList == []
  {
    var ins := [User(ClickCreate("0.abc123xyz")), Server(RoomCreated("abc123", true))];
    assert NewRoomCode("0.abc123xyz") == "abc123";
    var first := Apply(Initial, ins[0], "alice");
    assert first.sent == [EmitCreateRoom("abc123", "alice")];
    assert ins[1..] == [Server(RoomCreated("abc123", true))];
    assert ins[1..][1..] == [];
    assert Run(first.state, ins[1..], "alice").sent == [];
  }

  /** Running two sessions one after the other is running their
      concatenation. */
  lemma {:induction false} RunAppend(s: State, a: seq<Input>, b: seq<Input>, username: string)
    ensures var first := Run(s, a, username);
            var second := Run(first.state, b, username);
            Run(s, a + b, username) == Outcome(second.state, first.sent + second.sent)
    decreases |a|
  {
    if a == [] {
      assert a + b == b;
    } else {
      assert (a + b)[1..] == a[1..] + b;
      var head := Apply(s, a[0], username);
      RunAppend(head.state, a[1..], b, username);
      var first := Run(head.state, a[1..], username);
      var second := Run(first.state, b, username);
      assert head.sent + (first.sent + second.sent) == (head.sent + first.sent) + second.sent;
    }
  }

  /** Typing a room, clicking join and clearing the field before
      `joined_room` arrives leaves the client joined, as admin, to the empty
      room, having asked to join the room typed first. */
  lemma LateEditJoinsEmptyRoom(s: State, u: string)
    requires !s.joined
    ensures var o := Run(s, [User(TypeRoom("abc")), User(ClickJoin), User(TypeRoom("")),
                             Server(JoinedRoom(true))], u);
            && o.sent == [EmitJoinRoom("abc", u)]
            && o.state.joined && o.state.isAdmin && o.state.room == ""
  {
  }

  /** An admin joined to the empty room who confirms deletion and then sends
      "hi" emits a delete request and a message that both name the room "". */
  lemma EmptyRoomRequests(s: State, u: string)
    requires s.joined && s.isAdmin && s.room == ""
    ensures Run(s, [User(ClickDelete(true)), User(TypeMessage("hi")), User(ClickSend)], u).sent
            == [EmitDeleteRoom(""), EmitSendMessage("hi", "", u)]
  {
  }

  /** `joined_room` carries no room code and the room field stays editable
      until it arrives, so a user who clears the field after clicking join
      ends up joined to the empty room: the delete and send requests that
      follow name the room "", from any lobby state and whoever the user is. */
  lemma EmptyRoomAfterLateEdit(s: State, u: string)
    requires !s.joined
    ensures Run(s,
                [User(TypeRoom("abc")), User(ClickJoin), User(TypeRoom("")),
                 Server(JoinedRoom(true)), User(ClickDelete(true)),
                 User(TypeMessage("hi")), User(ClickSend)], u).sent
            == [EmitJoinRoom("abc", u), EmitDeleteRoom(""), EmitSendMessage("hi", "", u)]
  {
    var head := [User(TypeRoom("abc")), User(ClickJoin), User(TypeRoom("")), Server(JoinedRoom(true))];
    var tail := [User(ClickDelete(true)), User(TypeMessage("hi")), User(ClickSend)];
    LateEditJoinsEmptyRoom(s, u);
    var mid := Run(s, head, u).state;
    EmptyRoomRequests(mid, u);
    RunAppend(s, head, tail, u);
    assert head + tail
        == [User(TypeRoom("abc")), User(ClickJoin), User(TypeRoom("")),
            Server(JoinedRoom(true)), User(ClickDelete(true)),
            User(TypeMessage("hi")), User(ClickSend)];
  }
}
