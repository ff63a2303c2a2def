# Debate-room registry of the realtime relay server

This project models the in-memory state of the debate relay server
(`server.js`). Clients join named debate rooms, send text and voice messages,
vote in polls and disconnect. The server keeps every room in one process-wide
map, `activeDebates`, keyed by topic. Each room record holds:

- a participant map from socket id to `{username, team}`;
- an append-only message log;
- a `points` tally fixed at `{team1: 0, team2: 0}`;
- a poll map from poll id to `{votes: {valid, invalid}, totalVotes}`.

Four socket handlers change that state. `joinDebate` creates a room on first
use and registers the session. `sendMessage` and `sendVoiceMessage` stamp a
message with an id, store it and broadcast it. `votePoll` counts a vote.
`disconnect` removes the session from every room it is in.

The model has two modules:

- `Debate` (`debate.dfy`) holds the values and the pure operations on one
  room or one poll, with lemmas about them.
- `Server` (`registry.dfy`) holds the class `Registry` and the `Depart` loop.
  `Registry` has three fields. `rooms` is `activeDebates`. `topics` lists the
  topics in creation order, which is the order a JavaScript `Map` iterates
  in. `outbox` is the sequence of emitted events.

Emitting an event appends `Event(target, name, payload)` to `outbox`. The
target is `ToSession(sid)` for `socket.emit` and `ToRoom(topic)` for
`io.to(topic).emit`. The handler methods all have `modifies this`. Each one
keeps the invariant `Valid()`:

- `topics` lists each key of `rooms` exactly once;
- every room's points stay at zero;
- every poll is `Consistent`.

Each method's `ensures` gives the new `rooms` and `outbox` in terms of the
`Debate` functions.

Two behaviours of the code are modelled as written:

- **Votes for other keys.** A vote for a key other than `valid` or `invalid`
  still increments `totalVotes`. It also creates a `NaN` entry under that key
  (`votes[key]++` on an absent property). The model records such keys in
  `Votes.stray`. So `totalVotes == valid + invalid` holds exactly while no
  stray key exists. No precondition rules these votes out.
- **Client `id` property.** The spread `{...message, id: Date.now()}` replaces
  any `id` the client sent. `Stamp` drops the client's `id` and stores the
  server's. A message's `topic` is a field of its own, so its other
  properties (`Properties`) never hold a second `topic` key.

## Model

| member | source | states |
|---|---|---|
| `Server.Registry.constructor` | server.js:33 | The registry starts with no rooms, no topics and nothing emitted, and satisfies the registry invariant. |
| `Server.Registry.Join` | server.js:39-54 | An unknown topic gains exactly one new room. That room has only the joiner as participant, an empty log, zero points and no polls, and its topic goes last in the creation order. A known topic keeps its log, polls and points and only the joiner's entry is set. The joiner's entry is `(username, team)` and overwrites any earlier one. Other rooms are unchanged. The outbox gains `debateJoined` to the joiner, then `userJoined` to the room. |
| `Debate.Enter` | server.js:50 | The session's entry is set to the new participant. Every other participant keeps its entry. The log, polls and points are unchanged. |
| `Server.Registry.SendMessage` | server.js:56-72 | For an existing room, the log gains exactly the stamped message at its end, and no other room changes. The outbox gains one broadcast whose payload equals the stored element: `receiveMessage` for text, `receiveVoiceMessage` for voice. For an unknown topic, nothing changes and nothing is emitted. |
| `Debate.Stamp` | server.js:59 | The stored message keeps the topic and every client property except `id`, with the same values. Its id is the server's clock value. |
| `Debate.Post` | server.js:60 | The log grows by one. Its old elements are an unchanged prefix and the new message is last. Participants, polls and points are unchanged. |
| `Debate.ReceiveEvent` | server.js:61-70 | Text messages are broadcast as `receiveMessage` and voice messages as `receiveVoiceMessage`, and only then. |
| `Server.Registry.VotePoll` | server.js:74-90 | For an existing room, only that room's poll `pollId` changes, as `Vote` says. The outbox gains one `pollUpdate` to the room carrying the poll's new counters and total. For an unknown topic, nothing changes and nothing is emitted. The registry invariant is kept. |
| `Debate.PollOf` | server.js:77-81 | A vote starts from the stored poll when the id is known. Otherwise it starts from a poll with both counters and the total at zero. |
| `Debate.Cast` | server.js:82-83 | The total grows by exactly one. A `valid` or `invalid` vote adds one to that counter alone. Any other key leaves both counters alone and is recorded as stray. Consistency is preserved. A balanced poll stays balanced if and only if the vote is `valid` or `invalid`. |
| `Debate.Vote` | server.js:77-83 | The room gains poll `id` if it was new. That poll becomes the vote applied to the old or fresh poll, and every other poll, the participants, log and points are unchanged. A room with zero points and consistent polls keeps both. |
| `Debate.TallyCounts` | server.js:79-83 | Votes cast in order on a fresh poll give: `valid` = number of "valid" votes, `invalid` = number of "invalid" votes, total = number of votes, and stray = exactly the other keys voted for. |
| `Debate.TallyBalanced` | server.js:82-83 | When every vote is "valid" or "invalid", the total equals `valid + invalid` and there is no stray entry. |
| `Debate.VoteAllTallies` | server.js:77-83 | A run of `votePoll` calls on a poll id the room lacks leaves that poll equal to the tally of the run. Every other poll, the participants and the log are unchanged. |
| `Server.Registry.Disconnect` | server.js:116-126 | The session is removed from every room, and every room stays. The outbox gains the `userLeft` notices of `LeftEvents`, in room creation order. The invariant is kept. |
| `Server.Depart` | server.js:119-125 | The loop over all rooms in creation order produces exactly the registry without the session and exactly the `userLeft` notices of `LeftEvents`. |
| `Debate.LeftEvents` | server.js:119-124 | There are no more notices than rooms visited. Each notice is a `userLeft` to a visited room that had the session as participant, and it carries that participant's username. |
| `Debate.LeftEventsSnoc` | server.js:119-124 | Visiting one more room appends that room's notice at the end when it has the session, and appends nothing otherwise. |
| `Debate.LeftEventsOncePerRoom` | server.js:119-124 | When the rooms are visited once each, a room gets exactly one `userLeft` if the session was its participant, and none otherwise. |
| `Debate.Leave` | server.js:122 | The session's entry is gone and every other participant keeps its entry. The log, polls and points are unchanged. A room without the session is unchanged. |
| `Debate.Without` | server.js:119-125 | Every topic keeps its room. No room has the session. Every other session keeps its entry in every room. |
| `Debate.Strip` | server.js:119-125 | Removing the session from the visited rooms keeps the set of topics. |
| `Debate.StripRoom` | server.js:119-125 | After the visit, a visited room has lost the session and a room that was not visited is unchanged. |
| `Debate.StripAll` | server.js:119-125 | Visiting every topic of the registry removes the session from the whole registry. |

## Left out

- The `checkFact` handler (server.js:92-114) is not modelled. It makes an asynchronous call to the external text-generation client, whose response format is defined by the external client library. Its result or its error goes only to the requesting socket and never touches the registry.
- Express setup, CORS, static files, `/api/health`, the production catch-all route, `dotenv`, `process.env`, logging and `server.listen` are not modelled. They are HTTP plumbing, configuration and I/O.
- socket.io room membership and delivery (`socket.join`, `io.to(...).emit`) are not modelled. A broadcast is one outbox entry addressed to the room. Who receives it, and whether delivery succeeds, are not modelled.
- `Date.now()` is the `clockId` parameter of `SendMessage`. The model makes no claim that ids are unique or increasing. `toLocaleTimeString` belongs only to `checkFact`.
- `Server.Registry.SendMessage`: the handler's socket is not a parameter, because the handler never uses it.
- `Debate.Stamp`: message property values are modelled as strings. In JavaScript they are arbitrary JSON values passed through untouched.
- `Debate.Cast`: all keys other than `valid` and `invalid` are treated alike. JavaScript property names inherited from `Object.prototype` (`__proto__`, `toString`, …) are not singled out. The model keeps no count of stray votes per key, because in JavaScript such a key holds `NaN`.
- Topics, session ids, poll ids and votes are modelled as strings. A payload whose `topic` is missing or not a string is not modelled.
- A `joinDebate` participant's `username` and `team` are modelled as strings. In JavaScript they are whatever values the client sent, stored and echoed unchanged.
- A `null` or `undefined` payload is not modelled. The handler then throws a `TypeError` at the destructuring of server.js:40 or at `message.topic` / `data.topic` (server.js:57, 66, 75). Nothing catches it, so under Node's default the process ends and every room is lost. The model's handlers always receive a record and never fail.
- Debate.Cast: the exact `+ 1` on `totalVotes` and on the `valid`/`invalid` counters uses unbounded integers. In JavaScript these are doubles, so at 2^53 `totalVotes++` (server.js:83) and `votes[vote]++` (server.js:82) leave the value unchanged, and the model does not capture that.
- Rooms are values in the registry map. The source mutates one room object in place. Nothing else refers to a room, so no aliasing is lost. The disconnect loop builds the new registry and assigns it at the end, and this ordering does not affect the result.
- The insertion order of each room's participant map is not modelled, because no handler observes it.
