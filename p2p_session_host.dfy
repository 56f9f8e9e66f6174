/** P2PHelper's `P2PSessionHost`: admits clients by their TCP address while accepting
    connections, forwards every inbound message, and sends to one client or to all. */
module P2PSessionHostSide {
  import opened Common
  import opened Wire
  import opened P2PSessionCore

  /** `SessionType`: `LocalNetwork` is the only declared value; any other integer can still
      be cast to the enum. */
  datatype SessionType = LocalNetwork | Undefined(code: int)

  /** `P2PClient`; its `name` field is never set by the host. */
  datatype P2PClient = P2PClient(clientTcpIP: string)

  /** The heartbeat timers: one running flag per timer ever created, newest last.
      `StartAcceptingConnections` adds a running one without disposing the previous one. */
  function StartTimer(timers: seq<bool>): (r: seq<bool>)
    ensures |r| == |timers| + 1 && r[..|timers|] == timers && r[|timers|]
  {
    timers + [true]
  }

  /** `StopAcceptingConnections` disposes only the newest timer. */
  function StopTimer(timers: seq<bool>): (r: seq<bool>)
    requires timers != []
    ensures |r| == |timers| && r[..|timers| - 1] == timers[..|timers| - 1] && !r[|timers| - 1]
  {
    timers[..|timers| - 1] + [false]
  }

  function Running(timers: seq<bool>): (n: nat)
    ensures n <= |timers|
  {
    if timers == [] then 0 else Running(timers[..|timers| - 1]) + (if timers[|timers| - 1] then 1 else 0)
  }

  /** Starting twice and stopping once leaves one more heartbeat timer running than before:
      the first timer keeps sending multicast heartbeats after the host stopped accepting. */
  lemma {:induction false} RestartLeaksTimer(timers: seq<bool>)
    ensures Running(StopTimer(StartTimer(StartTimer(timers)))) == Running(timers) + 1
  {
    var once := StartTimer(timers);
    var twice := StartTimer(once);
    var stopped := StopTimer(twice);
    assert stopped[..|stopped| - 1] == once;
    assert once[..|once| - 1] == timers;
  }

  /** Every send reports success; vacuously true with no clients. */
  ghost predicate AllSucceed(clientMap: map<Guid, P2PClient>, serialized: Option<ByteArray>, tcpPort: Option<string>,
                             faults: Guid -> SendFaults)
  {
    forall id | id in clientMap ::
      var r := SendMessage(serialized, Some(clientMap[id].clientTcpIP), tcpPort, faults(id));
      r.Ok? && r.value.success
  }

  class P2PSessionHost {
    /** The `P2PSession` base part: settings, profile, multicast socket and events. */
    const session: P2PSession
    /** `ClientMap`: admitted clients by id. */
    var clientMap: map<Guid, P2PClient>
    /** `SessionListener != null`. */
    var sessionListener: bool
    /** How many times the connection handler is attached to the listener: every call of
        `CreateP2PSession` that gets past its checks attaches it once more. */
    var handlers: nat
    var acceptingConnections: bool
    var timers: seq<bool>

    /** No client has the empty id, and no two clients share an address. */
    ghost predicate Valid()
      reads this
    {
      EmptyGuid !in clientMap
      && forall i, j | i in clientMap && j in clientMap && i != j :: clientMap[i].clientTcpIP != clientMap[j].clientTcpIP
    }

    constructor(config: Config)
      ensures Valid() && fresh(session) && session.settings == config && !session.sessionHost
      ensures session.connectionsCompleted == [] && session.messagesReceived == []
      ensures clientMap == map[] && sessionListener && handlers == 0 && !acceptingConnections && timers == []
    {
      session := new P2PSession(config);
      clientMap := map[];
      sessionListener := true;
      handlers := 0;
      acceptingConnections := false;
      timers := [];
    }

    /** `Dispose`: disposes and clears the listener; a second call dereferences null. */
    method Dispose() returns (r: Result<()>)
      requires Valid()
      modifies this
      ensures Valid()
      ensures r.Err? <==> !old(sessionListener)
      ensures r.Err? ==> r.error == NullReference
      ensures !sessionListener && clientMap == old(clientMap) && handlers == old(handlers)
      ensures acceptingConnections == old(acceptingConnections) && timers == old(timers)
    {
      if !sessionListener {
        return Err(NullReference);
      }
      sessionListener := false;
      return Ok(());
    }

    /** `CreateP2PSession(type)`: false once disposed; any type but `LocalNetwork` is not
        supported; otherwise becomes the session host, attaches the connection handler, binds
        the listener to the TCP port (`listenerBindFails` says whether that throws), picks a
        profile (which throws when there is none) and reports whether multicast started. */
    method CreateP2PSession(sessionType: SessionType, profiles: seq<ConnectionProfile>,
                            listenerBindFails: bool, bindFails: bool, joinFails: bool) returns (r: Result<bool>)
      requires Valid()
      modifies this, session
      ensures Valid()
      ensures !old(sessionListener) || sessionType != LocalNetwork ==>
                handlers == old(handlers) && session.sessionHost == old(session.sessionHost)
                && session.sessionProfile == old(session.sessionProfile)
                && session.multicastSocket == old(session.multicastSocket)
                && session.multicastJoined == old(session.multicastJoined)
      ensures !old(sessionListener) ==> r == Ok(false)
      ensures old(sessionListener) && sessionType != LocalNetwork ==> r == Err(NotSupported)
      ensures old(sessionListener) && sessionType == LocalNetwork ==>
                session.sessionHost && handlers == old(handlers) + 1
                && (r.Err? <==> listenerBindFails || ChooseProfile(profiles).Err?)
                && (r.Ok? ==> r.value == (!bindFails && !joinFails) && session.multicastSocket
                              && session.multicastJoined == r.value)
      ensures old(sessionListener) && sessionType == LocalNetwork && listenerBindFails ==>
                r == Err(IoFailure) && session.sessionProfile == old(session.sessionProfile)
                && session.multicastSocket == old(session.multicastSocket)
                && session.multicastJoined == old(session.multicastJoined)
      ensures old(sessionListener) && sessionType == LocalNetwork && !listenerBindFails && ChooseProfile(profiles).Err? ==>
                session.multicastSocket == old(session.multicastSocket)
                && session.multicastJoined == old(session.multicastJoined)
      ensures old(sessionListener) && sessionType == LocalNetwork && !listenerBindFails ==>
                var choice := ChooseProfile(profiles);
                session.sessionProfile == (if choice.Ok? then Some(choice.value) else None)
      ensures clientMap == old(clientMap) && sessionListener == old(sessionListener)
      ensures acceptingConnections == old(acceptingConnections) && timers == old(timers)
      ensures session.connectionsCompleted == old(session.connectionsCompleted)
      ensures session.messagesReceived == old(session.messagesReceived)
    {
      if !sessionListener {
        return Ok(false);
      }
      if sessionType != LocalNetwork {
        return Err(NotSupported);
      }
      session.sessionHost := true;
      handlers := handlers + 1;
      if listenerBindFails {
        return Err(IoFailure);
      }
      var info := session.InitializeNetworkInfo(profiles);
      if info.Err? {
        return Err(info.error);
      }
      var success := session.InitializeMulticast(bindFails, joinFails);
      return Ok(success);
    }

    /** `RemoveClient(id)`: true iff the id was admitted; only that client goes. */
    method RemoveClient(clientId: Guid) returns (removed: bool)
      requires Valid()
      modifies this
      ensures Valid()
      ensures removed <==> clientId in old(clientMap)
      ensures clientMap == old(clientMap) - {clientId}
      ensures sessionListener == old(sessionListener) && acceptingConnections == old(acceptingConnections)
      ensures timers == old(timers) && handlers == old(handlers)
    {
      removed := clientId in clientMap;
      clientMap := clientMap - {clientId};
    }

    /** `StartAcceptingConnections`: sets the flag and starts a new heartbeat timer. */
    method StartAcceptingConnections()
      requires Valid()
      modifies this
      ensures Valid()
      ensures acceptingConnections && timers == StartTimer(old(timers))
      ensures clientMap == old(clientMap) && sessionListener == old(sessionListener) && handlers == old(handlers)
    {
      acceptingConnections := true;
      timers := timers + [true];
    }

    /** `StopAcceptingConnections`: clears the flag, then disposes the newest timer, which
        dereferences null if no timer was ever started. */
    method StopAcceptingConnections() returns (r: Result<()>)
      requires Valid()
      modifies this
      ensures Valid()
      ensures !acceptingConnections
      ensures r.Err? <==> old(timers) == []
      ensures r.Err? ==> r.error == NullReference && timers == old(timers)
      ensures r.Ok? ==> timers == StopTimer(old(timers))
      ensures clientMap == old(clientMap) && sessionListener == old(sessionListener) && handlers == old(handlers)
    {
      acceptingConnections := false;
      if timers == [] {
        return Err(NullReference);
      }
      timers := timers[..|timers| - 1] + [false];
      return Ok(());
    }

    /** `GetGuid(client)`: the id of the admitted client with the same address, or the empty
        id when there is none. */
    function GetGuid(client: P2PClient): (id: Guid)
      requires Valid()
      reads this
      ensures id == EmptyGuid <==> forall k | k in clientMap :: clientMap[k].clientTcpIP != client.clientTcpIP
      ensures id != EmptyGuid ==> id in clientMap && clientMap[id] == client
    {
      if exists k | k in clientMap :: clientMap[k].clientTcpIP == client.clientTcpIP then
        var k :| k in clientMap && clientMap[k].clientTcpIP == client.clientTcpIP;
        k
      else
        EmptyGuid
    }

    /** `OnConnectionReceived`: retrieves the message; while accepting, admits an unknown
        address under `freshId` and raises `ConnectionComplete` once; then raises
        `MessageReceived` with the sender's id, which is empty for an unadmitted sender. A
        negative size prefix throws out of the retrieval and nothing happens. */
    method OnConnectionReceived(stream: seq<byte>, remoteAddress: string, freshId: Guid) returns (r: Result<Guid>)
      requires Valid() && freshId != EmptyGuid && freshId !in clientMap
      modifies this, session
      ensures Valid()
      ensures r.Err? <==> Retrieve(stream).Err?
      ensures var known := exists k | k in old(clientMap) :: old(clientMap)[k].clientTcpIP == remoteAddress;
              var admitted := r.Ok? && acceptingConnections && !known;
              && clientMap == (if admitted then old(clientMap)[freshId := P2PClient(remoteAddress)] else old(clientMap))
              && session.connectionsCompleted == old(session.connectionsCompleted) + (if admitted then [freshId] else [])
      ensures r.Ok? ==> r.value == GetGuid(P2PClient(remoteAddress))
                        && (r.value != EmptyGuid <==> remoteAddress in ClientAddresses())
                        && session.messagesReceived == old(session.messagesReceived) + [Message(Retrieve(stream).value, r.value)]
      ensures r.Err? ==> session.messagesReceived == old(session.messagesReceived)
      ensures acceptingConnections == old(acceptingConnections) && sessionListener == old(sessionListener)
      ensures timers == old(timers) && handlers == old(handlers)
      ensures session.sessionHost == old(session.sessionHost) && session.sessionProfile == old(session.sessionProfile)
      ensures session.multicastSocket == old(session.multicastSocket) && session.multicastJoined == old(session.multicastJoined)
    {
      var message := RetrieveMessage(stream);
      if message.Err? {
        return Err(message.error);
      }
      var newClient := P2PClient(remoteAddress);
      if acceptingConnections {
        if GetGuid(newClient) == EmptyGuid {
          clientMap := clientMap[freshId := newClient];
          session.OnConnectionComplete(freshId);
        }
      }
      var id := GetGuid(newClient);
      session.OnMessageReceived(message.value, id);
      return Ok(id);
    }

    /** The addresses of the admitted clients. */
    ghost function ClientAddresses(): set<string>
      reads this
    {
      set k | k in clientMap :: clientMap[k].clientTcpIP
    }

    /** `SendMessage(id, message)`: `None` (false, nothing sent) for an unknown id; otherwise
        the base send to the client's address on the session's TCP port. */
    function SendMessage(clientId: Guid, serialized: Option<ByteArray>, faults: SendFaults): (r: Result<Option<SendOutcome>>)
      reads this, session
      ensures clientId !in clientMap ==> r == Ok(None)
      ensures clientId in clientMap ==>
                r.Err? == (clientMap[clientId].clientTcpIP == "" || IsNullOrEmpty(session.settings.tcpPort))
                && (r.Ok? ==> r.value.Some? && r.value.value.host == clientMap[clientId].clientTcpIP
                              && Some(r.value.value.port) == session.settings.tcpPort)
      ensures r.Ok? && r.value.Some? ==>
                (r.value.value.success <==> !faults.connectFails && serialized.Some?)
                && (r.value.value.success && !faults.sizeWriteFails && !faults.dataWriteFails ==>
                      r.value.value.written == EncodeFrame(serialized.value))
    {
      if clientId in clientMap then
        var sent := P2PSessionCore.SendMessage(serialized, Some(clientMap[clientId].clientTcpIP), session.settings.tcpPort, faults);
        if sent.Err? then Err(sent.error) else Ok(Some(sent.value))
      else
        Ok(None)
    }

    /** `SendMessageToAll(message)`: sends to every admitted client (`faults(id)` says how each
        send goes) and reports whether every send succeeded; an exception of any send (an empty
        address or TCP port) propagates. */
    method SendMessageToAll(serialized: Option<ByteArray>, faults: Guid -> SendFaults) returns (r: Result<bool>)
      requires Valid()
      ensures r.Err? <==> exists id | id in clientMap ::
                            clientMap[id].clientTcpIP == "" || IsNullOrEmpty(session.settings.tcpPort)
      ensures r.Ok? ==> (r.value <==> AllSucceed(clientMap, serialized, session.settings.tcpPort, faults))
    {
      var pending := clientMap.Keys;
      var all := true;
      var thrown := false;
      while pending != {}
        invariant pending <= clientMap.Keys
        invariant thrown <==> exists id | id in clientMap.Keys - pending :: SendMessage(id, serialized, faults(id)).Err?
        invariant !thrown ==> (all <==> forall id | id in clientMap.Keys - pending ::
                                 var s := SendMessage(id, serialized, faults(id));
                                 s.Ok? && s.value.Some? && s.value.value.success)
        decreases pending
      {
        var id :| id in pending;
        var sent := SendMessage(id, serialized, faults(id));
        if sent.Err? {
          thrown := true;
        } else if !(sent.value.Some? && sent.value.value.success) {
          all := false;
        }
        pending := pending - {id};
      }
      if thrown {
        return Err(ArgumentError);
      }
      forall id | id in clientMap
        ensures !(clientMap[id].clientTcpIP == "" || IsNullOrEmpty(session.settings.tcpPort))
      {
        assert SendMessage(id, serialized, faults(id)).Ok?;
      }
      return Ok(all);
    }
  }

  /** Creating the session twice attaches the connection handler twice: every inbound
      connection is then handled twice on the same socket. */
  method SecondCreateAttachesHandlerAgain(config: Config, profiles: seq<ConnectionProfile>)
    returns (first: Result<bool>, second: Result<bool>, attached: nat)
    ensures first.Err? <==> ChooseProfile(profiles).Err?
    ensures second.Err? <==> ChooseProfile(profiles).Err?
    ensures attached == 2
  {
    var host := new P2PSessionHost(config);
    first := host.CreateP2PSession(LocalNetwork, profiles, false, false, false);
    second := host.CreateP2PSession(LocalNetwork, profiles, false, false, false);
    attached := host.handlers;
  }
}
