/**
 The process-wide registry of active debates and the socket handlers that
 change it. Emitting an event is modelled as appending it to `outbox`; socket
 membership and delivery are not modelled, an event addressed `ToRoom(t)`
 stands for a broadcast to every socket that joined `t`.
 */
module Server {
  import opened Debate

  class Registry {
    /** `activeDebates`: the room of every topic joined so far. */
    var rooms: map<Topic, Room>
    /** The topics of `rooms` in the order the rooms were created, the iteration order of the map. */
    var topics: seq<Topic>
    /** Every event emitted so far, oldest first. */
    var outbox: seq<Event>

    ghost predicate Valid()
      reads this
    {
      && Distinct(topics)
      && (forall t :: t in rooms <==> t in topics)
      && (forall t :: t in rooms ==> RoomOk(rooms[t]))
    }

    constructor ()
      ensures Valid()
      ensures rooms == map[] && topics == [] && outbox == []
    {
      rooms, topics, outbox := map[], [], [];
    }

    /** `joinDebate`: create the room on first use, then register the session in it. */
    method Join(sid: SessionId, topic: Topic, username: string, team: string)
      requires Valid()
      modifies this
      ensures Valid()
      ensures rooms.Keys == old(rooms).Keys + {topic}
      ensures topic !in old(rooms) ==>
                && topics == old(topics) + [topic]
                && rooms[topic] == Room(map[sid := Participant(username, team)], [], Points(0, 0), map[])
      ensures topic in old(rooms) ==>
                && topics == old(topics)
                && rooms[topic] == Enter(old(rooms)[topic], sid, Participant(username, team))
      ensures forall t :: t in old(rooms) && t != topic ==> rooms[t] == old(rooms)[t]
      ensures outbox == old(outbox) + [
                Event(ToSession(sid), DebateJoined, JoinedInfo(topic, username, team)),
                Event(ToRoom(topic), UserJoined, UserInfo(username))]
    {
      if topic !in rooms {
        rooms := rooms[topic := NewRoom()];
        topics := topics + [topic];
      }
      var debate := rooms[topic];
      rooms := rooms[topic := Enter(debate, sid, Participant(username, team))];
      outbox := outbox + [
        Event(ToSession(sid), DebateJoined, JoinedInfo(topic, username, team)),
        Event(ToRoom(topic), UserJoined, UserInfo(username))];
    }

    /**
     `sendMessage` (kind Text) and `sendVoiceMessage` (kind Voice): store the
     message with the id `clockId` at the end of its room's log and broadcast
     the stored message; a message for a topic with no room is dropped.
     */
    method SendMessage(msg: Incoming, kind: MessageKind, clockId: int)
      requires Valid()
      modifies this
      ensures Valid()
      ensures topics == old(topics) && rooms.Keys == old(rooms).Keys
      ensures msg.topic !in old(rooms) ==> rooms == old(rooms) && outbox == old(outbox)
      ensures msg.topic in old(rooms) ==>
                && rooms == old(rooms)[msg.topic := Post(old(rooms)[msg.topic], Stamp(msg, clockId))]
                && outbox == old(outbox) + [Event(ToRoom(msg.topic), ReceiveEvent(kind), MessageInfo(Stamp(msg, clockId)))]
                && rooms[msg.topic].messages[|rooms[msg.topic].messages| - 1] == outbox[|outbox| - 1].payload.message
    {
      if msg.topic in rooms {
        var stored := Stamp(msg, clockId);
        rooms := rooms[msg.topic := Post(rooms[msg.topic], stored)];
        outbox := outbox + [Event(ToRoom(msg.topic), ReceiveEvent(kind), MessageInfo(stored))];
      }
    }

    /**
     `votePoll`: count `vote` in poll `pollId` of the room, creating the poll
     first if needed, and broadcast its new counters; a vote for a topic with
     no room is dropped.
     */
    method VotePoll(topic: Topic, pollId: PollId, vote: string)
      requires Valid()
      modifies this
      ensures Valid()
      ensures topics == old(topics) && rooms.Keys == old(rooms).Keys
      ensures topic !in old(rooms) ==> rooms == old(rooms) && outbox == old(outbox)
      ensures topic in old(rooms) ==>
                && rooms == old(rooms)[topic := Vote(old(rooms)[topic], pollId, vote)]
                && var p := rooms[topic].polls[pollId];
                   outbox == old(outbox) + [Event(ToRoom(topic), PollUpdate, PollInfo(pollId, p.votes, p.totalVotes))]
    {
      if topic in rooms {
        var debate := rooms[topic];
        var poll := PollOf(debate.polls, pollId);
        poll := Cast(poll, vote);
        rooms := rooms[topic := debate.(polls := debate.polls[pollId := poll])];
        outbox := outbox + [Event(ToRoom(topic), PollUpdate, PollInfo(pollId, poll.votes, poll.totalVotes))];
      }
    }

    /**
     `disconnect`: visit every room in creation order; where the session is a
     participant, remove it and broadcast a `userLeft` notice with its name.
     */
    method Disconnect(sid: SessionId)
      requires Valid()
      modifies this
      ensures Valid()
      ensures topics == old(topics)
      ensures rooms == Without(old(rooms), sid)
      ensures outbox == old(outbox) + LeftEvents(topics, old(rooms), sid)
    {
      var rs, evs := Depart(topics, rooms, sid);
      rooms, outbox := rs, outbox + evs;
    }
  }

  /**
   The loop of the `disconnect` handler: visit the rooms in the order `ts`,
   and in each room that has `sid` as a participant remove it and emit a
   `userLeft` notice with its name.
   */
  method Depart(ts: seq<Topic>, rooms: map<Topic, Room>, sid: SessionId)
    returns (rs: map<Topic, Room>, evs: seq<Event>)
    requires Distinct(ts) && (forall t :: t in rooms <==> t in ts)
    ensures rs == Without(rooms, sid)
    ensures evs == LeftEvents(ts, rooms, sid)
  {
    rs, evs := rooms, [];
    var i := 0;
    while i < |ts|
      invariant 0 <= i <= |ts|
      invariant AllIn(ts[..i], rooms)
      invariant rs == Strip(rooms, ts[..i], sid)
      invariant evs == LeftEvents(ts[..i], rooms, sid)
    {
      var topic := ts[i];
      PrefixSnoc(ts, i);
      assert topic !in ts[..i];
      StripRoom(rooms, ts[..i], sid, topic);
      var debate := rs[topic];
      if sid in debate.participants {
        var user := debate.participants[sid];
        rs := rs[topic := Leave(debate, sid)];
        evs := evs + [Event(ToRoom(topic), UserLeft, UserInfo(user.username))];
      }
      LeftEventsSnoc(ts[..i], topic, rooms, sid);
      i := i + 1;
    }
    assert ts[..i] == ts;
    StripAll(rooms, ts, sid);
  }
}
