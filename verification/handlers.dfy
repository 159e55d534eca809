/** The eight socket event handlers of the `Chat` component, as one pure
    transition function, and the behaviour of a stream of such events. */
module Handlers {
  import opened Session
  import opened Protocol

  /** The fields each handler writes. `room_deleted` alerts and reloads the
      page, which puts every field back to its initial value. */
  function Writes(e: Event): set<Field> {
    match e
    case ReceiveMessage(_) => {Chat}
    case PreviousMessages(_) => {Chat}
    case RoomCreated(_, _) => {Room, Admin, Joined}
    case JoinedRoom(_) => {Admin, Joined}
    case RoomExists => {Error}
    case RoomNotFound => {Error}
    case RoomDeleted => AllFields
    case UpdateUsers(_) => {Users}
  }

  /** The state after one server event. Fields outside `Writes(e)` keep
      their values; the written ones take the values below. */
  function Step(s: State, e: Event): (t: State)
    ensures Unchanged(s, t, AllFields - Writes(e))
    ensures e.ReceiveMessage? ==>
              |t.chat| == |s.chat| + 1 && t.chat[..|s.chat|] == s.chat
              && t.chat[|s.chat|] == e.msg
    ensures e.PreviousMessages? ==> t.chat == e.msgs
    ensures e.RoomCreated? ==> t.room == e.roomCode && t.isAdmin == e.isAdmin && t.joined
    ensures e.JoinedRoom? ==> t.room == s.room && t.isAdmin == e.isAdmin && t.joined
    ensures e.RoomExists? ==> t.error == RoomExistsText
    ensures e.RoomNotFound? ==> t.error == RoomNotFoundText
    ensures e.RoomDeleted? ==> t == Initial
    ensures e.UpdateUsers? ==> t.userList == e.users
  {
    match e
    case ReceiveMessage(m) => s.(chat := s.chat + [m])
    case PreviousMessages(msgs) => s.(chat := msgs)
    case RoomCreated(code, admin) => s.(room := code, isAdmin := admin, joined := true)
    case JoinedRoom(admin) => s.(isAdmin := admin, joined := true)
    case RoomExists => s.(error := RoomExistsText)
    case RoomNotFound => s.(error := RoomNotFoundText)
    case RoomDeleted => Initial
    case UpdateUsers(users) => s.(userList := users)
  }

  /** The state after a stream of server events, handled in arrival order. */
  function RunEvents(s: State, evs: seq<Event>): State
    decreases |evs|
  {
    if evs == [] then s else RunEvents(Step(s, evs[0]), evs[1..])
  }

  /** The messages carried by the `receive_message` events of a stream, in
      order. */
  function Payloads(evs: seq<Event>): (ms: seq<Message>)
    ensures |ms| <= |evs|
    decreases |evs|
  {
    if evs == [] then []
    else if evs[0].ReceiveMessage? then [evs[0].msg] + Payloads(evs[1..])
    else Payloads(evs[1..])
  }

  /** No event of the stream replaces or clears the log. */
  predicate KeepsLog(evs: seq<Event>) {
    forall i :: 0 <= i < |evs| ==> !evs[i].PreviousMessages? && !evs[i].RoomDeleted?
  }

  /** Handling two streams one after the other is handling their
      concatenation. */
  lemma {:induction false} RunEventsAppend(s: State, a: seq<Event>, b: seq<Event>)
    ensures RunEvents(s, a + b) == RunEvents(RunEvents(s, a), b)
    decreases |a|
  {
    if a != [] {
      assert (a + b)[1..] == a[1..] + b;
      RunEventsAppend(Step(s, a[0]), a[1..], b);
    } else {
      assert a + b == b;
    }
  }

  /** While nothing replaces or clears the log, it only grows: the incoming
      messages are appended, in arrival order, after what it already held. */
  lemma {:induction false} LogAppendsPayloads(s: State, evs: seq<Event>)
    requires KeepsLog(evs)
    ensures RunEvents(s, evs).chat == s.chat + Payloads(evs)
    decreases |evs|
  {
    if evs == [] {
      assert s.chat + [] == s.chat;
    } else {
      assert KeepsLog(evs[1..]) by {
        forall i | 0 <= i < |evs[1..]|
          ensures !evs[1..][i].PreviousMessages? && !evs[1..][i].RoomDeleted?
        {
          assert evs[1..][i] == evs[i + 1];
        }
      }
      LogAppendsPayloads(Step(s, evs[0]), evs[1..]);
      if evs[0].ReceiveMessage? {
        assert s.chat + [evs[0].msg] + Payloads(evs[1..])
            == s.chat + ([evs[0].msg] + Payloads(evs[1..]));
      }
    }
  }

  /** A history snapshot discards whatever the log held before it: afterwards
      the log is the snapshot followed by the messages received since. */
  lemma SnapshotThenMessages(s: State, before: seq<Event>, msgs: seq<Message>, after: seq<Event>)
    requires KeepsLog(after)
    ensures RunEvents(s, before + [PreviousMessages(msgs)] + after).chat == msgs + Payloads(after)
  {
    var mid := RunEvents(s, before);
    RunEventsAppend(s, before + [PreviousMessages(msgs)], after);
    RunEventsAppend(s, before, [PreviousMessages(msgs)]);
    assert RunEvents(mid, [PreviousMessages(msgs)]) == Step(mid, PreviousMessages(msgs));
    LogAppendsPayloads(Step(mid, PreviousMessages(msgs)), after);
  }

  /** After a room deletion the log holds only messages received since, and
      nothing from the deleted room survives. */
  lemma DeletionThenMessages(s: State, before: seq<Event>, after: seq<Event>)
    requires KeepsLog(after)
    ensures RunEvents(s, before + [RoomDeleted] + after).chat == Payloads(after)
  {
    var mid := RunEvents(s, before);
    RunEventsAppend(s, before + [RoomDeleted], after);
    RunEventsAppend(s, before, [RoomDeleted]);
    assert RunEvents(mid, [RoomDeleted]) == Initial;
    LogAppendsPayloads(Initial, after);
    assert [] + Payloads(after) == Payloads(after);
  }

  /** Any number of rejections in a row leave room, membership, role, log,
      presence and draft as they were; the error shown is that of the last
      one. */
  lemma {:induction false} RejectionsOnlySetError(s: State, evs: seq<Event>)
    requires forall i :: 0 <= i < |evs| ==> evs[i].IsRejection()
    ensures Unchanged(s, RunEvents(s, evs), AllFields - {Error})
    ensures evs != [] ==>
              RunEvents(s, evs).error
              == (if evs[|evs| - 1].RoomExists? then RoomExistsText else RoomNotFoundText)
    decreases |evs|
  {
    if evs != [] {
      var t := Step(s, evs[0]);
      assert Unchanged(s, t, AllFields - {Error});
      RejectionsOnlySetError(t, evs[1..]);
      if |evs| == 1 {
        assert RunEvents(t, evs[1..]) == t;
      } else {
        assert evs[1..][|evs[1..]| - 1] == evs[|evs| - 1];
      }
    }
  }
}
