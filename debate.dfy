/**
 The values held by the debate-room registry of the relay server: rooms,
 participants, messages, polls and the events the server emits, together with
 the pure operations the socket handlers apply to a single room and the
 lemmas that state what those operations promise.
 */
module Debate {

  type Topic = string
  type SessionId = string
  type PollId = string

  /** The record kept for every session that joined a room. */
  datatype Participant = Participant(username: string, team: string)

  /** The two-team tally; created as {team1: 0, team2: 0} and never changed. */
  datatype Points = Points(team1: int, team2: int)

  /**
   The `votes` object of a poll. `valid` and `invalid` are the two counters the
   poll is created with; `stray` holds every other key a client voted for,
   which the handler's `votes[key]++` turns into a NaN entry.
   */
  datatype Votes = Votes(valid: nat, invalid: nat, stray: set<string>)

  datatype Poll = Poll(votes: Votes, totalVotes: nat)

  /** The properties of a message other than `topic`, which is a field of its own. */
  type Properties = m: map<string, string> | "topic" !in m witness map[]

  /** A message as a client sends it: its topic and its other properties. */
  datatype Incoming = Incoming(topic: Topic, fields: Properties)

  /** A message as the room stores it: the client's properties plus the server-assigned id. */
  datatype Stored = Stored(topic: Topic, fields: Properties, id: int)

  datatype Room = Room(
    participants: map<SessionId, Participant>,
    messages: seq<Stored>,
    points: Points,
    polls: map<PollId, Poll>)

  datatype MessageKind = Text | Voice

  /** Who receives an event: the requesting socket alone, or every socket in a room. */
  datatype Target = ToSession(sid: SessionId) | ToRoom(topic: Topic)

  datatype EventName =
    | DebateJoined
    | UserJoined
    | ReceiveMessage
    | ReceiveVoiceMessage
    | PollUpdate
    | UserLeft

  datatype Payload =
    | JoinedInfo(topic: Topic, username: string, team: string)
    | UserInfo(username: string)
    | MessageInfo(message: Stored)
    | PollInfo(pollId: PollId, votes: Votes, totalVotes: nat)

  datatype Event = Event(target: Target, name: EventName, payload: Payload)

  const ValidKey: string := "valid"
  const InvalidKey: string := "invalid"

  // ---------------------------------------------------------------------------
  // Rooms

  /** The record stored for a topic nobody has joined before. */
  function NewRoom(): Room
  {
    Room(map[], [], Points(0, 0), map[])
  }

  /** A room's points never move away from zero; every poll in it is consistent. */
  ghost predicate RoomOk(r: Room)
  {
    && r.points == Points(0, 0)
    && forall id :: id in r.polls ==> Consistent(r.polls[id])
  }

  /** `participants.set(sid, {username, team})`: insert or overwrite one entry. */
  function Enter(r: Room, sid: SessionId, p: Participant): (r': Room)
    ensures r'.participants.Keys == r.participants.Keys + {sid}
    ensures sid in r'.participants && r'.participants[sid] == p
    ensures forall s :: s in r.participants && s != sid ==> r'.participants[s] == r.participants[s]
    ensures r'.messages == r.messages && r'.polls == r.polls && r'.points == r.points
  {
    r.(participants := r.participants[sid := p])
  }

  /** `participants.delete(sid)`: drop the session's entry and keep everybody else's. */
  function Leave(r: Room, sid: SessionId): (r': Room)
    ensures r'.participants.Keys == r.participants.Keys - {sid}
    ensures forall s :: s in r'.participants ==> r'.participants[s] == r.participants[s]
    ensures r'.messages == r.messages && r'.polls == r.polls && r'.points == r.points
    ensures sid !in r.participants ==> r' == r
  {
    r.(participants := r.participants - {sid})
  }

  /** `{...message, id}`: every client property except `id` is kept, and `id` is the server's. */
  function Stamp(m: Incoming, id: int): (s: Stored)
    ensures s.id == id && s.topic == m.topic
    ensures "id" !in s.fields
    ensures forall k :: k != "id" ==> (k in s.fields <==> k in m.fields)
    ensures forall k :: k in s.fields ==> s.fields[k] == m.fields[k]
  {
    Stored(m.topic, m.fields - {"id"}, id)
  }

  /** `messages.push(m)`: the log grows by exactly `m` at its end. */
  function Post(r: Room, m: Stored): (r': Room)
    ensures |r'.messages| == |r.messages| + 1
    ensures r'.messages[..|r.messages|] == r.messages && r'.messages[|r.messages|] == m
    ensures r'.participants == r.participants && r'.polls == r.polls && r'.points == r.points
  {
    r.(messages := r.messages + [m])
  }

  /** The event a message of the given kind is broadcast as. */
  function ReceiveEvent(kind: MessageKind): (n: EventName)
    ensures n == ReceiveMessage <==> kind == Text
    ensures n == ReceiveVoiceMessage <==> kind == Voice
  {
    match kind
    case Text => ReceiveMessage
    case Voice => ReceiveVoiceMessage
  }

  // ---------------------------------------------------------------------------
  // Polls

  /** The poll created on the first vote for an id. */
  function NewPoll(): Poll
  {
    Poll(Votes(0, 0, {}), 0)
  }

  /** The total equals the sum of the two named counters. */
  ghost predicate Balanced(p: Poll)
  {
    p.totalVotes == p.votes.valid + p.votes.invalid
  }

  /**
   What every poll satisfies: the total counts at least every named vote and
   one vote for each stray key, and with no stray key it is exactly the sum of
   the two counters.
   */
  ghost predicate Consistent(p: Poll)
  {
    && p.totalVotes >= p.votes.valid + p.votes.invalid + |p.votes.stray|
    && (p.votes.stray == {} ==> Balanced(p))
  }

  /** `votes[vote]++; totalVotes++` on one poll. */
  function Cast(p: Poll, vote: string): (q: Poll)
    ensures q.totalVotes == p.totalVotes + 1
    ensures vote == ValidKey ==> q.votes == p.votes.(valid := p.votes.valid + 1)
    ensures vote == InvalidKey ==> q.votes == p.votes.(invalid := p.votes.invalid + 1)
    ensures vote != ValidKey && vote != InvalidKey ==>
              q.votes.valid == p.votes.valid && q.votes.invalid == p.votes.invalid &&
              q.votes.stray == p.votes.stray + {vote}
    ensures Consistent(p) ==> Consistent(q)
    ensures Balanced(p) ==> (Balanced(q) <==> vote == ValidKey || vote == InvalidKey)
  {
    if vote == ValidKey then
      Poll(p.votes.(valid := p.votes.valid + 1), p.totalVotes + 1)
    else if vote == InvalidKey then
      Poll(p.votes.(invalid := p.votes.invalid + 1), p.totalVotes + 1)
    else
      Poll(p.votes.(stray := p.votes.stray + {vote}), p.totalVotes + 1)
  }

  /** The poll a vote starts from: the stored one, or a fresh one when the id is new. */
  function PollOf(polls: map<PollId, Poll>, id: PollId): (p: Poll)
    ensures id in polls ==> p == polls[id]
    ensures id !in polls ==> p.totalVotes == 0 && p.votes == Votes(0, 0, {})
  {
    if id in polls then polls[id] else NewPoll()
  }

  /** The room after one vote on poll `id`: that poll alone changes. */
  function Vote(r: Room, id: PollId, vote: string): (r': Room)
    ensures r'.polls.Keys == r.polls.Keys + {id}
    ensures r'.polls[id] == Cast(PollOf(r.polls, id), vote)
    ensures forall i :: i in r.polls && i != id ==> r'.polls[i] == r.polls[i]
    ensures r'.participants == r.participants && r'.messages == r.messages && r'.points == r.points
    ensures RoomOk(r) ==> RoomOk(r')
  {
    r.(polls := r.polls[id := Cast(PollOf(r.polls, id), vote)])
  }

  /** The poll reached by casting `vs` in order on a fresh poll. */
  function Tally(vs: seq<string>): Poll
  {
    if vs == [] then NewPoll() else Cast(Tally(vs[..|vs| - 1]), vs[|vs| - 1])
  }

  /**
   Casting `vs` on a fresh poll counts every "valid" and every "invalid" vote
   exactly, counts every vote in the total, and leaves as stray exactly the
   other keys voted for.
   */
  lemma {:induction false} TallyCounts(vs: seq<string>)
    ensures Tally(vs).votes.valid == multiset(vs)[ValidKey]
    ensures Tally(vs).votes.invalid == multiset(vs)[InvalidKey]
    ensures Tally(vs).totalVotes == |vs|
    ensures Tally(vs).votes.stray == set v | v in vs && v != ValidKey && v != InvalidKey
  {
    if vs != [] {
      var init, last := vs[..|vs| - 1], vs[|vs| - 1];
      TallyCounts(init);
      assert vs == init + [last];
      assert multiset(vs) == multiset(init) + multiset{last};
      assert forall v :: v in vs <==> v in init || v == last;
    }
  }

  /**
   With votes split between "valid" and "invalid" only, the total of a fresh
   poll is the sum of the two counters, which equal the numbers of each vote.
   */
  lemma {:induction false} TallyBalanced(vs: seq<string>)
    requires forall i :: 0 <= i < |vs| ==> vs[i] == ValidKey || vs[i] == InvalidKey
    ensures Balanced(Tally(vs))
    ensures Tally(vs).votes.stray == {}
  {
    if vs != [] {
      TallyBalanced(vs[..|vs| - 1]);
    }
  }

  /** The room after the votes `vs` on poll `id`, one handler call per vote. */
  function VoteAll(r: Room, id: PollId, vs: seq<string>): Room
  {
    if vs == [] then r else Vote(VoteAll(r, id, vs[..|vs| - 1]), id, vs[|vs| - 1])
  }

  /**
   A run of votes on an id the room has no poll for ends with that poll equal
   to the tally of the run (for a non-empty run), and no other poll changes.
   */
  lemma {:induction false} VoteAllTallies(r: Room, id: PollId, vs: seq<string>)
    requires id !in r.polls
    ensures vs != [] ==> id in VoteAll(r, id, vs).polls && VoteAll(r, id, vs).polls[id] == Tally(vs)
    ensures forall i :: i in r.polls ==> i in VoteAll(r, id, vs).polls && VoteAll(r, id, vs).polls[i] == r.polls[i]
    ensures VoteAll(r, id, vs).messages == r.messages
    ensures VoteAll(r, id, vs).participants == r.participants
  {
    if vs != [] {
      var init := vs[..|vs| - 1];
      VoteAllTallies(r, id, init);
      if init == [] {
        assert VoteAll(r, id, init) == r;
      }
    }
  }

  // ---------------------------------------------------------------------------
  // Disconnect

  /** A sequence without repetitions (the key order of a registry). */
  ghost predicate Distinct(ts: seq<Topic>)
  {
    forall i, j :: 0 <= i < j < |ts| ==> ts[i] != ts[j]
  }

  ghost predicate AllIn(ts: seq<Topic>, rooms: map<Topic, Room>)
  {
    forall i :: 0 <= i < |ts| ==> ts[i] in rooms
  }

  /** Is `e` the departure notice of `sid` for a room it was in? */
  ghost predicate IsLeftNotice(e: Event, rooms: map<Topic, Room>, sid: SessionId)
  {
    && e.name == UserLeft
    && e.target.ToRoom?
    && e.target.topic in rooms
    && sid in rooms[e.target.topic].participants
    && e.payload == UserInfo(rooms[e.target.topic].participants[sid].username)
  }

  /**
   The `userLeft` events disconnecting `sid` emits while visiting the rooms
   `ts` in order: one per room that has `sid` as a participant, naming the
   departing user.
   */
  function LeftEvents(ts: seq<Topic>, rooms: map<Topic, Room>, sid: SessionId): (evs: seq<Event>)
    requires AllIn(ts, rooms)
    ensures |evs| <= |ts|
    ensures forall k :: 0 <= k < |evs| ==> IsLeftNotice(evs[k], rooms, sid) && evs[k].target.topic in ts
  {
    if ts == [] then []
    else
      var t := ts[|ts| - 1];
      var before := LeftEvents(ts[..|ts| - 1], rooms, sid);
      if sid in rooms[t].participants then
        before + [Event(ToRoom(t), UserLeft, UserInfo(rooms[t].participants[sid].username))]
      else before
  }

  /** Visiting one more room adds its notice, if any, at the end. */
  lemma LeftEventsSnoc(ts: seq<Topic>, t: Topic, rooms: map<Topic, Room>, sid: SessionId)
    requires AllIn(ts, rooms) && t in rooms
    ensures AllIn(ts + [t], rooms)
    ensures LeftEvents(ts + [t], rooms, sid) ==
              LeftEvents(ts, rooms, sid) +
              if sid in rooms[t].participants
              then [Event(ToRoom(t), UserLeft, UserInfo(rooms[t].participants[sid].username))]
              else []
  {
  }

  /** The number of events of `evs` addressed to the room `t`. */
  function NoticesTo(evs: seq<Event>, t: Topic): nat
  {
    if evs == [] then 0
    else NoticesTo(evs[..|evs| - 1], t) + (if evs[|evs| - 1].target == ToRoom(t) then 1 else 0)
  }

  lemma {:induction false} NoticesToAppend(a: seq<Event>, b: seq<Event>, t: Topic)
    ensures NoticesTo(a + b, t) == NoticesTo(a, t) + NoticesTo(b, t)
  {
    if b != [] {
      assert (a + b)[..|a + b| - 1] == a + b[..|b| - 1];
      NoticesToAppend(a, b[..|b| - 1], t);
    } else {
      assert a + b == a;
    }
  }

  /**
   Disconnecting notifies each room exactly once if the session was one of its
   participants and never otherwise, provided the rooms are visited once each.
   */
  lemma {:induction false} LeftEventsOncePerRoom(ts: seq<Topic>, rooms: map<Topic, Room>, sid: SessionId, t: Topic)
    requires AllIn(ts, rooms) && Distinct(ts)
    ensures NoticesTo(LeftEvents(ts, rooms, sid), t) ==
              if t in ts && sid in rooms[t].participants then 1 else 0
  {
    if ts != [] {
      var init, last := ts[..|ts| - 1], ts[|ts| - 1];
      LeftEventsOncePerRoom(init, rooms, sid, t);
      assert t in ts <==> t in init || t == last;
      assert last !in init;
      var before := LeftEvents(init, rooms, sid);
      if sid in rooms[last].participants {
        var e := Event(ToRoom(last), UserLeft, UserInfo(rooms[last].participants[sid].username));
        NoticesToAppend(before, [e], t);
        assert NoticesTo([e], t) == NoticesTo([], t) + (if e.target == ToRoom(t) then 1 else 0);
      }
    }
  }

  /** Every room with `sid` removed from its participants. */
  function Without(rooms: map<Topic, Room>, sid: SessionId): (rs: map<Topic, Room>)
    ensures rs.Keys == rooms.Keys
    ensures forall t :: t in rs ==> sid !in rs[t].participants
    ensures forall t, s :: t in rooms && s in rooms[t].participants && s != sid ==>
              s in rs[t].participants && rs[t].participants[s] == rooms[t].participants[s]
    ensures forall t :: t in rs ==> rs[t] == Leave(rooms[t], sid)
  {
    map t | t in rooms :: Leave(rooms[t], sid)
  }

  /**
   The registry after visiting the rooms `ts` in order and removing `sid`
   from each one's participants, as the disconnect loop does.
   */
  function Strip(rooms: map<Topic, Room>, ts: seq<Topic>, sid: SessionId): (rs: map<Topic, Room>)
    requires AllIn(ts, rooms)
    ensures rs.Keys == rooms.Keys
  {
    if ts == [] then rooms
    else
      var r, t := Strip(rooms, ts[..|ts| - 1], sid), ts[|ts| - 1];
      r[t := Leave(r[t], sid)]
  }

  /** A visited room has lost `sid`; a room not visited is untouched. */
  lemma {:induction false} StripRoom(rooms: map<Topic, Room>, ts: seq<Topic>, sid: SessionId, t: Topic)
    requires AllIn(ts, rooms) && t in rooms
    ensures Strip(rooms, ts, sid)[t] == if t in ts then Leave(rooms[t], sid) else rooms[t]
  {
    if ts != [] {
      var init := ts[..|ts| - 1];
      StripRoom(rooms, init, sid, t);
      assert t in ts <==> t in init || t == ts[|ts| - 1];
    }
  }

  /** Visiting every room once removes `sid` from the whole registry. */
  lemma StripAll(rooms: map<Topic, Room>, ts: seq<Topic>, sid: SessionId)
    requires forall t :: t in rooms <==> t in ts
    ensures AllIn(ts, rooms)
    ensures Strip(rooms, ts, sid) == Without(rooms, sid)
  {
    assert AllIn(ts, rooms);
    var rs := Strip(rooms, ts, sid);
    forall t | t in rs
      ensures rs[t] == Without(rooms, sid)[t]
    {
      StripRoom(rooms, ts, sid, t);
    }
  }


  /** Extending a prefix by one element. */
  lemma PrefixSnoc<T>(s: seq<T>, i: nat)
    requires i < |s|
    ensures s[..i + 1] == s[..i] + [s[i]]
  {
  }
}
