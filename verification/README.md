# Chat session state machine

A model of the chat-session logic of the `Chat` component of a React chat
client (`src/App.jsx`). The component keeps seven pieces of state (room code,
joined flag, admin flag, message log, user list, error text and message
draft), moves them in response to eight socket events from the backend, and
emits socket requests (`join_room`, `create_room`, `delete_room`,
`send_message`) from user actions under simple guards. Everything is
sequential and deterministic once the random room code and the user's answer
to the delete confirmation are taken as inputs.

Modules:

- `JsText` (`js_text.dfy`): JavaScript `trim` (the whitespace set of
  ECMAScript) and `substring` (index clamping and swapping).
- `Session` (`session.dfy`): the state record, its initial value, the reserved
  AI room code, the two error texts, and a field table used to say which
  fields a transition leaves alone.
- `Protocol` (`protocol.dfy`): the requests the client emits and the events
  it handles.
- `Handlers` (`handlers.dfy`): `Step`, the eight socket handlers as one pure
  transition, and `RunEvents`, a stream of events handled in order.
- `Actions` (`actions.dfy`): the user-action handlers, each returning the new
  state and the emitted requests.
- `ChatSession` (`chat_session.dfy`): which controls are rendered in which
  state, dispatch of user actions through them, and whole sessions of
  interleaved server events and user actions.

## Model

| member | source | states |
|---|---|---|
| Handlers.Step | src/App.jsx:50-67 | Each event writes only its own fields. A message is appended at the end of the log with every earlier entry kept. A history snapshot becomes the log exactly. `room_created` sets room, admin flag and joined. `joined_room` sets admin flag and joined but keeps the room. Both rejections set only their fixed error text. `room_deleted` returns to the initial state. `update_users` replaces the user list. |
| Handlers.LogAppendsPayloads | src/App.jsx:50 | While no snapshot or deletion arrives, the log after any stream of events is the old log followed by the received messages in arrival order. |
| Handlers.SnapshotThenMessages | src/App.jsx:50-51 | Whatever came before, after a history snapshot the log is the snapshot followed by the messages received since; earlier contents are gone. |
| Handlers.DeletionThenMessages | src/App.jsx:63-66 | After a room deletion the log holds only messages received afterwards. |
| Handlers.RejectionsOnlySetError | src/App.jsx:61-62 | Any run of `room_exists` / `room_not_found` events changes no field but the error, which shows the text of the last rejection. |
| Actions.EditRoom | src/App.jsx:162 | Typing in the room field sets the room and nothing else, and emits nothing. |
| Actions.EditDraft | src/App.jsx:230 | Typing in the message field sets the draft and nothing else, and emits nothing. |
| Actions.JoinRoom | src/App.jsx:82-87 | Always clears the error and changes nothing else. Emits a join request if and only if the room field is non-empty, and that request carries the room in state and the user's name. |
| Actions.NewRoomCode | src/App.jsx:91 | The code cut from the random text has at most six characters. It is characters 2 to 8 of that text when the text is long enough. It is empty only when the text has no third character. |
| Actions.HandleCreate | src/App.jsx:89-94 | Clears the error and puts the new code in the room field. Emits exactly one create request carrying that same code. |
| Actions.HandleJoinAi | src/App.jsx:96-99 | Sets the room to "ai-assistant" without touching the error. Emits one join request for that room. |
| Actions.HandleDelete | src/App.jsx:101-105 | Leaves the state alone. Emits a delete request for the current room if and only if the user confirms. It does not check the admin flag. |
| Actions.LeaveRoom | src/App.jsx:107-109 | Every field goes back to its initial value: not joined, no room, empty log and user list, not admin. Nothing is emitted. |
| Actions.SendMessage | src/App.jsx:111-120 | A whitespace-only draft changes nothing and emits nothing. Any other draft is emitted once, untrimmed, with the room in state and the user's name. The draft is then cleared and every other field is kept. |
| Actions.HandleKeyPress | src/App.jsx:131-135 | Enter behaves as sending: a blank draft changes nothing, any other draft is emitted once and cleared, and every other field is kept. Any other key changes nothing and emits nothing. |
| JsText.Trim | src/App.jsx:112 | The trimmed text is a slice of the input that neither starts nor ends with whitespace. Only whitespace is cut from either side. |
| JsText.BlankIffAllWhitespace | src/App.jsx:112 | `message.trim()` is empty exactly when every character of the message is whitespace. |
| JsText.Substring | src/App.jsx:91 | The result is never longer than the string or than the index range. Within bounds it is exactly that slice. An end past the string is cut to the string's end. Swapped indices give the same slice. Past the end it is empty. |
| ChatSession.Dispatch | src/App.jsx:155-194 | An action whose control is not rendered changes nothing. No user action sets joined or the admin flag. At most one request is emitted. It is well formed and carries the room in state afterwards. A delete request comes only from a joined admin outside the AI room. |
| ChatSession.Run | src/App.jsx:82-120 | In every session, however events and actions interleave, each emitted join names a non-empty room. Each created code has at most six characters. Each sent message has a non-whitespace character. |
| ChatSession.JoinedOnlyAfterAcknowledgement | src/App.jsx:52-60 | A session that starts outside a room and ends joined received a `room_created` or `joined_room` event. |
| ChatSession.NoDeleteWithoutAdmin | src/App.jsx:190-194 | If the server never grants admin rights, a non-admin client never emits a delete request, whatever the user clicks. |
| ChatSession.ServerOnlySession | src/App.jsx:49-67 | A session of server events alone emits nothing and ends where the handlers alone take it. |
| ChatSession.RunAppend | src/App.jsx:49-120 | Handling two stretches of a session one after the other gives the same final state and the same requests, in order, as handling them joined. |
| ChatSession.LateEditJoinsEmptyRoom | src/App.jsx:57-60 | Typing a room, clicking join, clearing the field and then receiving `joined_room` leaves the client joined as admin to the room "". Only the join for the first room was emitted. |
| ChatSession.EmptyRoomRequests | src/App.jsx:101-120 | An admin joined to the room "" who confirms deletion and sends a message emits a delete request and a message that both name "". |
| ChatSession.EmptyRoomAfterLateEdit | src/App.jsx:57-60 | From any lobby state, the seven-input session "type abc, join, clear the field, joined_room, delete, type hi, send" emits a join for "abc", then a delete and a message for the empty room. |
| ChatSession.CreateScenario | src/App.jsx:89-94 | Creating room "abc123" and receiving its acknowledgement leaves the client joined to "abc123" as admin, with an empty log and user list. |

Behaviour of the code worth knowing when reading the model:

- The code has no Pending room state, typing debouncer, session persistence
  or connection-state machine, so the model has none either.
- A rejection only sets the error text. The room field keeps the code that
  was tried.
- Sending and deleting are guarded only by what is rendered
  (`ChatSession.Available`), not inside the handlers.
- `joined_room` carries no room code, so the state keeps whatever the room
  field holds when the acknowledgement arrives. The field stays editable
  until then. A user who clears it after clicking join ends up joined to the
  empty room, and the `delete_room` and `send_message` requests that follow
  name the room "" (`ChatSession.EmptyRoomAfterLateEdit`). Only `join_room`
  is guaranteed a non-empty room.

## Left out

- Socket.io transport: creating the socket, `connect`/`disconnect` and
  registering or removing listeners. This is library plumbing and React
  effect lifecycle. Events are taken to arrive one at a time, in order.
- Clerk authentication (`getToken`, `signOut`, `useUser`, `handleLogout`, the
  signed-in/signed-out switch). These are asynchronous foreign calls. The
  user's full name is a parameter of the actions.
- Browser side effects. `window.confirm` in `handleDelete` becomes a boolean
  parameter. `alert` and `window.location.reload` in `leaveRoom` and the
  `room_deleted` handler become a reset to the initial state.
- `Math.random().toString(36)`: its text is a parameter of `HandleCreate`.
  Almost always it has the form `0.` followed by base-36 digits. When
  `Math.random()` returns exactly 0 the text is `"0"`.
- Actions.NewRoomCode: an empty code arises only for a random text of at most
  two characters, which is the `"0"` case above. The contract allows that
  case rather than assuming the text's format, so a `create_room` with an
  empty code is not excluded.
- `src/components/Page.jsx`, `src/components/LandingPage.jsx` and
  `src/main.jsx`: presentational pages and bootstrap wiring.
- Rendering and styling, including the colour used for "AI Bot" messages.
- JavaScript strings are UTF-16. Here they are sequences of Unicode scalar
  values. Every character `trim` strips is a single code unit, so blankness
  is the same in both.
