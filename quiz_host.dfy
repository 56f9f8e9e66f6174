/** The quiz host's `HostCommunicator`: it adapts a NetworkHelper `UdpManager` and a TCP channel
    to the game. Players are known by name; each name is tied to the participant id under which
    the manager registered that player's device. The handlers are modelled as methods that run
    one event to completion. */
module QuizHost {
  import opened Common
  import opened Wire
  import opened AddressBook
  import NetworkHelperUdp
  import NetworkHelperTcp

  /** `_playerToParticipantMap`: player name -> participant id. */
  type Roster = map<string, Guid>

  /** `OnPlayerJoinedAsync(name, id)`: a name not yet on the roster is tied to `id`; a name
      already on it keeps its first id. */
  function JoinRoster(roster: Roster, name: string, id: Guid): (r: Roster)
    ensures name in r && r.Keys == roster.Keys + {name}
    ensures name in roster ==> r == roster
    ensures name !in roster ==> r[name] == id && forall n | n in roster :: r[n] == roster[n]
  {
    if name in roster then roster else roster[name := id]
  }

  /** A departure right after a first join leaves the roster as it was. */
  lemma LeaveUndoesJoin(roster: Roster, name: string, id: Guid)
    requires name !in roster
    ensures JoinRoster(roster, name, id) - {name} == roster
  {
  }

  /** A run of joins, oldest first. */
  function JoinAll(roster: Roster, joins: seq<(string, Guid)>): (r: Roster)
    decreases |joins|
  {
    if joins == [] then roster else JoinAll(JoinRoster(roster, joins[0].0, joins[0].1), joins[1..])
  }

  /** The position of the first join under `name`. */
  function FirstJoin(joins: seq<(string, Guid)>, name: string): (i: nat)
    requires exists k | 0 <= k < |joins| :: joins[k].0 == name
    ensures i < |joins| && joins[i].0 == name
    ensures forall k | 0 <= k < i :: joins[k].0 != name
  {
    if joins[0].0 == name then 0
    else
      assert exists k | 0 <= k < |joins[1..]| :: joins[1..][k].0 == name by {
        var k :| 0 <= k < |joins| && joins[k].0 == name;
        assert joins[1..][k - 1] == joins[k];
      }
      1 + FirstJoin(joins[1..], name)
  }

  ghost function Names(joins: seq<(string, Guid)>): set<string>
  {
    set k | 0 <= k < |joins| :: joins[k].0
  }

  /** Whatever order players arrive in, the roster names exactly the players who joined, each
      tied to the id of the first join under that name; names already present keep their ids. */
  lemma {:induction false} JoinAllFirstComeFirstServed(roster: Roster, joins: seq<(string, Guid)>)
    decreases |joins|
    ensures var r := JoinAll(roster, joins);
            && r.Keys == roster.Keys + Names(joins)
            && (forall n | n in roster :: r[n] == roster[n])
            && (forall k | 0 <= k < |joins| && joins[k].0 !in roster ::
                  r[joins[k].0] == joins[FirstJoin(joins, joins[k].0)].1)
  {
    if joins != [] {
      var (name, id) := joins[0];
      var next := JoinRoster(roster, name, id);
      var tail := joins[1..];
      JoinAllFirstComeFirstServed(next, tail);
      var r := JoinAll(next, tail);
      assert r == JoinAll(roster, joins);
      assert Names(joins) == {name} + Names(tail) by {
        forall n | n in Names(joins)
          ensures n in {name} + Names(tail)
        {
          var k :| 0 <= k < |joins| && joins[k].0 == n;
          if k > 0 { assert tail[k - 1] == joins[k]; }
        }
        forall n | n in Names(tail)
          ensures n in Names(joins)
        {
          var k :| 0 <= k < |tail| && tail[k].0 == n;
          assert joins[k + 1] == tail[k];
        }
      }
      forall k | 0 <= k < |joins| && joins[k].0 !in roster
        ensures r[joins[k].0] == joins[FirstJoin(joins, joins[k].0)].1
      {
        var n := joins[k].0;
        if n == name {
          assert FirstJoin(joins, n) == 0;
        } else {
          assert tail[k - 1] == joins[k];
          assert n !in next;
          assert FirstJoin(joins, n) == 1 + FirstJoin(tail, n);
        }
      }
    }
  }

  /** `HostCommand`, as its fields are read here; `command` is the ordinal of the `Command`
      enum (Join 0, Leave 1, Answer 2), which indexes the action array. */
  datatype HostCommand = HostCommand(playerName: string, questionAnswer: int, command: int)

  const JoinCommand: int := 0
  const LeaveCommand: int := 1
  const AnswerCommand: int := 2

  /** The `AnswerReceived` event arguments. */
  datatype AnswerReceived = AnswerReceived(playerName: string, answerIndex: int)

  class HostCommunicator {
    /** `_manager`: the UDP advertiser and its participant dictionary. */
    const manager: NetworkHelperUdp.UdpManager
    var roster: Roster
    /** `_participantCommunicationChannels`: the remote host of each channel created so far. */
    var participantChannels: seq<HostName>
    /** The names of the `PlayerJoined` and `PlayerDeparted` events raised so far. */
    var joined: seq<string>
    var departed: seq<string>
    /** The `AnswerReceived` events raised so far. */
    var answers: seq<AnswerReceived>

    ghost predicate Valid()
      reads this, manager, manager.book
    {
      manager.Valid()
    }

    constructor()
      ensures Valid() && fresh(manager) && fresh(manager.book)
      ensures manager.book.participants == map[] && roster == map[]
      ensures participantChannels == [] && joined == [] && departed == [] && answers == []
    {
      manager := new NetworkHelperUdp.UdpManager();
      roster := map[];
      participantChannels := [];
      joined := [];
      departed := [];
      answers := [];
    }

    /** The `ParticipantConnected` handler: a channel to the new participant is created and
        kept (the dictionary lookup and cast may throw first), then the announcement's message,
        which must not be null, is taken as the player's name and joined. */
    method OnParticipantConnected(ann: Announcement) returns (r: Result<()>)
      requires Valid()
      modifies this
      ensures Valid()
      ensures var ch := manager.CreateCommunicationChannel(ann.id);
              && (ch.Err? ==> r == Err(ch.error) && participantChannels == old(participantChannels))
              && (ch.Ok? ==> participantChannels == old(participantChannels) + [ch.value])
              && (ch.Ok? && ann.message.None? ==> r == Err(NullReference))
              && (ch.Ok? && ann.message.Some? ==> r == Ok(()))
      ensures r.Ok? ==> roster == JoinRoster(old(roster), ann.message.value, ann.id)
                        && joined == old(joined) + (if ann.message.value in old(roster) then [] else [ann.message.value])
      ensures r.Err? ==> roster == old(roster) && joined == old(joined)
      ensures departed == old(departed) && answers == old(answers)
    {
      var ch := manager.CreateCommunicationChannel(ann.id);
      if ch.Err? {
        return Err(ch.error);
      }
      participantChannels := participantChannels + [ch.value];
      if ann.message.None? {
        return Err(NullReference);
      }
      OnPlayerJoined(ann.message.value, ann.id);
      return Ok(());
    }

    /** `OnPlayerJoinedAsync`: only a name not yet mapped is recorded and announced. */
    method OnPlayerJoined(name: string, id: Guid)
      modifies this
      ensures roster == JoinRoster(old(roster), name, id)
      ensures joined == old(joined) + (if name in old(roster) then [] else [name])
      ensures participantChannels == old(participantChannels)
      ensures departed == old(departed) && answers == old(answers)
    {
      if name !in roster {
        roster := roster[name := id];
        joined := joined + [name];
      }
    }

    /** `OnPlayerDeparted(command, id)`: announces the departure, removes the participant from
        the manager and the name from the roster. */
    method OnPlayerDeparted(command: HostCommand, id: Guid)
      requires Valid()
      modifies this, manager.book
      ensures Valid()
      ensures departed == old(departed) + [command.playerName]
      ensures manager.book.participants == Unregister(old(manager.book.participants), id).0
      ensures manager.book.connected == old(manager.book.connected)
      ensures roster == old(roster) - {command.playerName}
      ensures participantChannels == old(participantChannels) && joined == old(joined) && answers == old(answers)
    {
      departed := departed + [command.playerName];
      var _ := manager.book.RemoveParticipant(id);
      roster := roster - {command.playerName};
    }

    /** `OnAnswerReceived(command, id)`: forwards the name and the answer. */
    method OnAnswerReceived(command: HostCommand, id: Guid)
      modifies this
      ensures answers == old(answers) + [AnswerReceived(command.playerName, command.questionAnswer)]
      ensures roster == old(roster) && participantChannels == old(participantChannels)
      ensures joined == old(joined) && departed == old(departed)
    {
      answers := answers + [AnswerReceived(command.playerName, command.questionAnswer)];
    }

    /** The `MessageReceived` handler: `command` is the deserialized message, `None` when it is
        not a `HostCommand`. The ordinal indexes { no-op, leave, answer }; leave and answer look
        the name up in the roster, which throws for an unknown name. */
    method OnMessageReceived(command: Option<HostCommand>) returns (r: Result<()>)
      requires Valid()
      modifies this, manager.book
      ensures Valid()
      ensures command.None? ==> r == Err(NullReference)
      ensures command.Some? ==>
                var c := command.value;
                && (c.command < 0 || c.command > 2 ==> r == Err(IndexOutOfRange))
                && (c.command == JoinCommand ==> r == Ok(()))
                && (c.command == LeaveCommand || c.command == AnswerCommand ==>
                      (r == Err(KeyNotFound) <==> c.playerName !in old(roster)) && (r.Err? ==> r == Err(KeyNotFound)))
      ensures r.Ok? && command.value.command == LeaveCommand ==>
                var c := command.value;
                && departed == old(departed) + [c.playerName]
                && manager.book.participants == old(manager.book.participants) - {old(roster)[c.playerName]}
                && roster == old(roster) - {c.playerName}
                && answers == old(answers)
      ensures r.Ok? && command.value.command == AnswerCommand ==>
                var c := command.value;
                && answers == old(answers) + [AnswerReceived(c.playerName, c.questionAnswer)]
                && roster == old(roster) && departed == old(departed)
                && manager.book.participants == old(manager.book.participants)
      ensures (r.Err? || command.value.command == JoinCommand) ==>
                && roster == old(roster) && departed == old(departed) && answers == old(answers)
                && manager.book.participants == old(manager.book.participants)
      ensures participantChannels == old(participantChannels) && joined == old(joined)
      ensures manager.book.connected == old(manager.book.connected)
    {
      if command.None? {
        return Err(NullReference);
      }
      var c := command.value;
      if c.command < 0 || c.command > 2 {
        return Err(IndexOutOfRange);
      }
      if c.command == JoinCommand {
        return Ok(());
      }
      if c.playerName !in roster {
        return Err(KeyNotFound);
      }
      var id := roster[c.playerName];
      if c.command == LeaveCommand {
        OnPlayerDeparted(c, id);
      } else {
        OnAnswerReceived(c, id);
      }
      return Ok(());
    }

    /** Whether the question reaches the player `name`: the manager still knows the id as a
        UDP participant, the connection succeeds, the question serializes and the frame is
        stored. */
    predicate Deliverable(name: string, serialized: Option<ByteArray>, connectFails: Guid -> bool,
                          writeFails: Guid -> bool)
      reads this, manager, manager.book
      requires name in roster
    {
      manager.CreateCommunicationChannel(roster[name]).Ok? && !connectFails(roster[name]) && serialized.Some?
      && !writeFails(roster[name])
    }

    /** `SendQuestionAsync(question)`: a fresh channel to each mapped participant sends the
        serialized question; `connectFails(id)` and `writeFails(id)` say whether connecting to
        `id` or storing the frame fails. The
        result maps each player to what went over the wire, and any failure is rethrown. */
    method SendQuestion(serialized: Option<ByteArray>, connectFails: Guid -> bool, writeFails: Guid -> bool)
      returns (r: Result<map<string, NetworkHelperTcp.Sent>>)
      ensures r.Ok? <==> forall n | n in roster :: Deliverable(n, serialized, connectFails, writeFails)
      ensures r.Ok? ==> r.value.Keys == roster.Keys
      ensures r.Ok? ==> forall n | n in roster ::
                r.value[n] == NetworkHelperTcp.Sent(manager.CreateCommunicationChannel(roster[n]).value,
                                                    NetworkHelperTcp.TcpCommunicationPort,
                                                    EncodeFrame(serialized.value))
    {
      var pending := roster.Keys;
      var delivered: map<string, NetworkHelperTcp.Sent> := map[];
      var failed := false;
      ghost var undeliverable := set n | n in roster && !Deliverable(n, serialized, connectFails, writeFails);
      ghost var expected := map n | n in roster && n !in undeliverable ::
        NetworkHelperTcp.Sent(manager.CreateCommunicationChannel(roster[n]).value,
                              NetworkHelperTcp.TcpCommunicationPort, EncodeFrame(serialized.value));
      while pending != {}
        invariant pending <= roster.Keys
        invariant failed <==> (roster.Keys - pending) * undeliverable != {}
        invariant !failed ==> delivered.Keys == roster.Keys - pending
        invariant !failed ==> forall n | n in delivered :: n in expected && delivered[n] == expected[n]
        decreases pending
      {
        var n :| n in pending;
        ghost var done := roster.Keys - pending;
        var host := manager.CreateCommunicationChannel(roster[n]);
        if host.Err? {
          assert n in undeliverable;
          failed := true;
        } else {
          var channel := new NetworkHelperTcp.TcpCommunicationChannel();
          channel.remoteHostname := Some(host.value);
          var sent := channel.SendRemoteMessage(serialized, connectFails(roster[n]), writeFails(roster[n]));
          assert sent.Ok? <==> n !in undeliverable;
          if sent.Err? {
            failed := true;
          } else if !failed {
            delivered := delivered[n := channel.sent[0]];
          }
        }
        assert roster.Keys - (pending - {n}) == done + {n};
        assert (done + {n}) * undeliverable == done * undeliverable + (if n in undeliverable then {n} else {});
        pending := pending - {n};
      }
      assert roster.Keys - pending == roster.Keys;
      if failed {
        ghost var n :| n in undeliverable;
        return Err(Failure("send"));
      }
      return Ok(delivered);
    }
  }
}
