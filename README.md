# WebSocket chat rooms — registry, broadcast and message shapes

This project models the server core of a small WebSocket chat service. Clients
connect with a user name and an optional room (default `lobby`). The server
keeps a registry of the open connections per room, announces joins and
departures, and relays each chat message to every member of the sender's
room. A member whose socket fails during a broadcast is evicted from the
registry, and the broadcast goes on with the other members.

It has three modules, one per file:

- `schemas.dfy` (`Schemas`) covers the message shapes. An inbound message has
  type `"chat"` (the default) and a text of 1 to 2000 characters. An outbound
  message has type `"chat"` or `"system"` (default `"chat"`) and carries a
  sender, a text and a room, with no bound on the text. A raw JSON object is a
  `map<string, string>`. Validation returns the message, or the set of every
  violated constraint.
- `ws_manager.dfy` (`WsManager`) covers the registry. `WSConnection` is a class
  compared by identity. Its socket is reduced to two things: whether the
  handshake was accepted, and the sequence of messages written to it.
  `WSManager` owns `active`, a map from room name to the set of connections in
  that room.
  - Each operation is a method that changes `active` in place. Its contract
    ties the new map to a pure function of the old one: `Added`, `Removed` or
    `Evicted`.
  - The registry invariant has two parts. No room maps to an empty set, and a
    connection is stored only under its own room. Every method preserves it.
  - `Broadcast` walks a snapshot of the room. A ghost record of the visiting
    order links the loop to `EvictInOrder`, and `EvictInOrderIsEvicted` shows
    the result does not depend on that order.
  - Five small scenario methods assert concrete runs: two rooms, a departure,
    a failing socket, a stranger disconnecting, and a sole member leaving.
- `chat_session.dfy` (`ChatSession`) covers one client's session on the `/ws`
  endpoint, driven against a registry. The steps are: reject a missing user
  name with close code 4000, register, announce the join, relay the valid chat
  messages, then disconnect and announce the departure. `JoinNotice` builds
  the join announcement of
  `websocket-chat-app/app/main.py:37-40` (a system message "<user> joined").
  `LeaveNoticeAsWritten` builds the departure notice as the code writes it,
  and `LeaveNotice` builds the corrected one (see "## Findings").

Outcomes that come from the network are inputs. The handshake's outcome is a
`bool`. The set of existing connections whose sends fail is a
`set<WSConnection>`. The new connection is created during the session, so
whether its own sends fail is a separate `bool`, `joinerFails`. The
client's inbound messages are a sequence that ends when the client closes.

The endpoint does not catch the validation error raised by an invalid
inbound message. That error therefore ends the session: the connection is
disconnected and the departure is announced. The message is not simply
rejected back to its sender with the session going on.

## Model

| member | source | states |
|---|---|---|
| Schemas.TypeName | websocker-chat-app/app/schemas.py:10 | the wire spelling is "chat" exactly for Chat and "system" exactly for System |
| Schemas.ParseType | websocker-chat-app/app/schemas.py:10 | only the two literals "chat" and "system" are recognised, and a recognised kind spells back to the given string |
| Schemas.TypeNameRoundTrip | websocker-chat-app/app/schemas.py:10 | reading back the spelling of a kind gives that kind |
| Schemas.ReadType | websocker-chat-app/app/schemas.py:5-10 | an absent `type` defaults to Chat; a present one is accepted iff it names an allowed kind; a rejected one reports the value given |
| Schemas.RequiredErrors | websocker-chat-app/app/schemas.py:11-13 | a required field with no length bound raises an error iff it is absent |
| Schemas.InTextErrors | websocker-chat-app/app/schemas.py:6 | `text` raises no error iff it is present with 1 to 2000 characters; missing, too short and too long are each reported exactly when they hold |
| Schemas.ParseIn | websocker-chat-app/app/schemas.py:4-6 | an inbound message is accepted iff its type is absent or "chat" and its text has 1 to 2000 characters; the accepted message keeps the text; a rejection lists each violated constraint, and holds only `text` errors and a `type` error |
| Schemas.ParseOut | websocker-chat-app/app/schemas.py:9-13 | an outbound message is accepted iff its type is absent, "chat" or "system" and sender, text and room are present, with no bound on the text; the fields are carried over; a missing field or a disallowed type is reported iff it occurs, and a rejection holds nothing else |
| Schemas.DumpIn | websocker-chat-app/app/schemas.py:4-6 | the serialised inbound message has exactly the fields `type` and `text` |
| Schemas.DumpOut | websocker-chat-app/app/schemas.py:9-13 | the serialised outbound message has exactly the fields `type`, `sender`, `text` and `room` |
| Schemas.InRoundTrip | websocker-chat-app/app/schemas.py:4-6 | every well-formed inbound message survives serialisation and validation unchanged |
| Schemas.OutRoundTrip | websocker-chat-app/app/schemas.py:9-13 | every outbound message, of any text length, survives serialisation and validation unchanged |
| Schemas.InCanonical | websocker-chat-app/app/schemas.py:4-6 | re-validating the serialisation of an accepted inbound message gives the same result |
| Schemas.InTypeDefaultsToChat | websocker-chat-app/app/schemas.py:5 | omitting `type` from an inbound message is the same as sending "chat" |
| Schemas.OutTypeDefaultsToChat | websocker-chat-app/app/schemas.py:10 | omitting `type` from an outbound message is the same as sending "chat" |
| WsManager.WSConnection.constructor | websocket-chat-app/app/ws_manager.py:6-10 | a new connection carries the given user name and room, is not yet accepted and has been sent nothing |
| WsManager.WSConnection.Accept | websocket-chat-app/app/ws_manager.py:19 | the handshake succeeds iff it does not fail; a success marks the socket accepted; nothing is sent |
| WsManager.WSConnection.SendJson | websocket-chat-app/app/ws_manager.py:38 | a successful send appends the message to what the socket received; a failed one leaves it unchanged |
| WsManager.RegisteredAnywhere | websocket-chat-app/app/ws_manager.py:20-26 | in a valid registry, a connection stored in any room is stored under its own room, which is where removal looks |
| WsManager.Added | websocket-chat-app/app/ws_manager.py:18-20 | after connecting, the room exists and holds the connection; no membership is lost; the only new one is the connection in its room; every other room's set is identical |
| WsManager.Removed | websocket-chat-app/app/ws_manager.py:24-29 | the memberships are exactly the old ones less the connection in its own room; other rooms keep identical sets; no room is left empty; an unregistered connection changes nothing |
| WsManager.Evicted | websocket-chat-app/app/ws_manager.py:35-41 | the memberships are exactly the old ones less the evicted connections, and no room is left empty |
| WsManager.RoomMembersAdded | websocket-chat-app/app/ws_manager.py:20 | connecting adds exactly the connection to its room's members |
| WsManager.RoomMembersRemoved | websocket-chat-app/app/ws_manager.py:24-29 | removing takes exactly the connection out of its room's members |
| WsManager.RoomMembersEvicted | websocket-chat-app/app/ws_manager.py:36-41 | evicting takes exactly the evicted connections out of each room's members |
| WsManager.EvictedNobody | websocket-chat-app/app/ws_manager.py:36-41 | a broadcast in which no send fails leaves a registry without empty rooms unchanged |
| WsManager.SameMembersSameRegistry | websocket-chat-app/app/ws_manager.py:27-29 | because empty rooms are dropped, two registries with the same memberships are equal |
| WsManager.AddedValid | websocket-chat-app/app/ws_manager.py:20 | connecting keeps every room non-empty and every connection under its own room |
| WsManager.RemovedValid | websocket-chat-app/app/ws_manager.py:27-29 | removing keeps the registry invariant: the emptied room is dropped, not kept empty |
| WsManager.EvictedValid | websocket-chat-app/app/ws_manager.py:39-41 | evictions during a broadcast keep the registry invariant |
| WsManager.AddedIdempotent | websocket-chat-app/app/ws_manager.py:20 | connecting the same connection twice gives the state of connecting it once |
| WsManager.RemovedIdempotent | websocket-chat-app/app/ws_manager.py:24-26 | removing twice gives the state of removing once |
| WsManager.AddedThenRemoved | websocket-chat-app/app/ws_manager.py:18-29 | connecting a new connection and then removing it restores the registry exactly, with no empty room left behind |
| WsManager.RemovedIsEvicted | websocket-chat-app/app/ws_manager.py:24-33 | in a valid registry, removing one connection is evicting it alone |
| WsManager.EvictedTwice | websocket-chat-app/app/ws_manager.py:39-41 | evicting in two steps is evicting the union at once |
| WsManager.EvictInOrderIsEvicted | websocket-chat-app/app/ws_manager.py:36-41 | disconnecting the failing members one at a time, in any visiting order, evicts exactly the failing visited members |
| WsManager.BroadcastEvictsFailing | websocket-chat-app/app/ws_manager.py:39-41 | a room member whose send failed is no longer registered after the broadcast |
| WsManager.BroadcastIsolation | websocket-chat-app/app/ws_manager.py:35-41 | a broadcast leaves every other room exactly as it was, and every healthy member of the room stays registered |
| WsManager.WSManager.constructor | websocket-chat-app/app/ws_manager.py:14-16 | a new registry is empty and valid |
| WsManager.WSManager.Members | websocket-chat-app/app/ws_manager.py:36 | a room's members all belong to it, and the set is empty iff the room is absent |
| WsManager.WSManager.Connect | websocket-chat-app/app/ws_manager.py:18-21 | after an accepted handshake the registry is `Added`; after a failed one it is unchanged; the invariant holds either way |
| WsManager.WSManager.Remove | websocket-chat-app/app/ws_manager.py:24-29 | the registry becomes `Removed` and keeps its invariant |
| WsManager.WSManager.Disconnect | websocket-chat-app/app/ws_manager.py:31-33 | the registry becomes `Removed` and keeps its invariant |
| WsManager.WSManager.SendOrEvict | websocket-chat-app/app/ws_manager.py:37-41 | a successful send appends the message and leaves the registry alone; a failed one sends nothing and removes the connection; the accept flag is untouched |
| WsManager.WSManager.Broadcast | websocket-chat-app/app/ws_manager.py:35-41 | every member of the snapshot is tried, and no one else; exactly the healthy ones receive the message once, at the end of their stream; exactly the failing ones are evicted; nothing changes when none fails or the room is absent; no accept flag changes |
| ChatSession.RequireParam | websocket-chat-app/app/utils.py:3-10 | a required query parameter is accepted iff present and non-empty, and its value is returned |
| ChatSession.RoomParam | websocket-chat-app/app/main.py:31 | the room is the given parameter, or "lobby" when absent |
| ChatSession.LeaveNoticeAsWrittenIsJoinNotice | websocket-chat-app/app/main.py:55-58 | the departure notice as written is the join notice |
| ChatSession.LeaveNoticeDiffersFromJoin | websocket-chat-app/app/main.py:55-58 | the corrected departure notice differs from the join notice in its text |
| ChatSession.ChatTexts | websocket-chat-app/app/main.py:42-49 | the relayed texts are the valid inbound messages before the first invalid one, in order; the message after them, if any, fails validation |
| ChatSession.ChatTextsAt | websocket-chat-app/app/main.py:43-45 | while every message so far was relayed, a valid next message is the next text relayed |
| ChatSession.ChatPayloads | websocket-chat-app/app/main.py:46-48 | each relayed text becomes a chat message from the sender in the sender's room, one for one, in order |
| ChatSession.ChatPayloadsExtend | websocket-chat-app/app/main.py:43-49 | relaying one more text appends its payload after the earlier ones |
| ChatSession.SessionNetEffect | websocket-chat-app/app/main.py:33-58 | joining (with the failing members evicted by the announcement) and then leaving leaves the registry as before, less the room's failing members |
| ChatSession.RelayChats | websocket-chat-app/app/main.py:42-49 | with no failing member in the room, every member receives every valid message relayed, in order, up to the first invalid one; the registry and the members' accept flags are unchanged |
| ChatSession.SessionFailing | websocket-chat-app/app/main.py:33-40 | the connections whose sends fail in a session are the given failing members, plus the new connection exactly when its own socket fails |
| ChatSession.Join | websocket-chat-app/app/main.py:33-40 | the new connection is registered and the join is announced to the whole room, itself included; failing members are evicted, the new connection too when its own send fails, and it then has received nothing; a failed handshake registers nothing and sends nothing; no accept flag of an existing member changes |
| ChatSession.Leave | websocket-chat-app/app/main.py:53-58 | the connection is removed first, so the departure notice reaches the remaining members and not the one leaving |
| ChatSession.Converse | websocket-chat-app/app/main.py:42-58 | the session ends on close iff every inbound message is valid, otherwise with the first message's errors; either way the connection is removed and the departure announced |
| ChatSession.Endpoint | websocket-chat-app/app/main.py:28-58 | a missing user name is rejected with close code 4000, and a failed handshake ends the session: on both paths the registry is unchanged and no member is sent anything; a joiner whose own socket fails receives nothing, while the session goes on for the others; no member's accept flag changes; otherwise the session ends on close or on an invalid message, and at the end the connection is no longer registered, the room's failing members are evicted, a healthy joiner received the join notice and the chat messages, and every healthy member received join, chat messages and departure in that order |

## Left out

- The async concurrency of the service is not modelled. Each registry operation is atomic, and one session runs at a time. Sessions of several clients interleaving their broadcasts are not modelled.
- Socket I/O is reduced to an accept flag and the sequence of messages sent. Outcomes are inputs: a handshake either succeeds or fails. A failing socket fails every send for the whole session. A socket that starts failing part way through is not modelled.
- Logging is left out, because it has no effect on the state.
- The module-level `manager` singleton is left out. The model uses an explicitly constructed `WSManager`.
- JSON values that are not strings are not modelled: type coercion, a non-string `text`, and malformed or non-object JSON. A raw message is a map from field name to string.
- The validation library's error messages and their order are not modelled. Validation reports the set of violated constraints.
- For a missing user name, `require_query_params` accepts the socket, closes it with a reason text, and raises an HTTP error. Only the close code 4000 and the rejection are modelled.
- Accepting a socket twice is not modelled. The model does not say what the transport does then.
- The health endpoint, CORS, the static files and the settings loader are framework configuration. The browser client `static/main.js` is UI code. The SOAP student service is a separate application.
- ChatSession.Leave: broadcasts the corrected departure notice `LeaveNotice` ("<user> left"), not the notice as written (`LeaveNoticeAsWritten`, which repeats "<user> joined"). So do `ChatSession.Converse` and `ChatSession.Endpoint`, which call it. The as-written behaviour is recorded under "## Findings".
- ChatSession.LeaveNotice: the corrected departure text "<user> left" is an assumption about the intended wording. What is proved is only that it differs from the join notice.

## Findings

| source | as written | input that shows it | evidently intended | confidence | as-written member | corrected member |
|---|---|---|---|---|---|---|
| websocket-chat-app/app/main.py:55-58 | the departure broadcast uses the text `f"{username} joined"`, the same as the join announcement | any session ending, e.g. user `alice` leaving `lobby`: the remaining members receive "alice joined" | a departure text distinct from the join text, such as "alice left" | high (not executed) | ChatSession.LeaveNoticeAsWrittenIsJoinNotice | ChatSession.LeaveNoticeDiffersFromJoin |
