/** P2PHelper's `P2PSessionClient`: latches the first host whose multicast heartbeat it hears,
    receives framed messages on its own listener, and sends to the latched host. */
module P2PSessionClientSide {
  import opened Common
  import opened Wire
  import opened P2PSessionCore
  import P2PSessionHostSide

  class P2PSessionClient {
    /** The `P2PSession` base part. */
    const session: P2PSession
    /** `ConnectedHost.hostTcpIP`; null until the first heartbeat. */
    var connectedHost: Option<string>
    /** How many `HostAvailable` events were raised. */
    var hostAvailable: nat
    /** `SessionListener != null`. */
    var sessionListener: bool
    /** How many times the connection handler is attached to the listener: every call of
        `ListenForP2PSession` that gets past its checks attaches it once more. */
    var handlers: nat
    /** A multicast socket with the latch callback is bound and joined. */
    var multicastListening: bool

    /** `HostAvailable` has fired exactly once iff a host is latched. */
    ghost predicate Valid()
      reads this
    {
      hostAvailable == (if connectedHost.Some? then 1 else 0)
    }

    constructor(config: Config)
      ensures Valid() && fresh(session) && session.settings == config
      ensures session.messagesReceived == [] && connectedHost == None && sessionListener
      ensures handlers == 0 && !multicastListening
    {
      session := new P2PSession(config);
      connectedHost := None;
      hostAvailable := 0;
      sessionListener := true;
      handlers := 0;
      multicastListening := false;
    }

    /** `Dispose`: disposes and clears the listener; a second call dereferences null. */
    method Dispose() returns (r: Result<()>)
      requires Valid()
      modifies this
      ensures Valid()
      ensures r.Err? <==> !old(sessionListener)
      ensures r.Err? ==> r.error == NullReference
      ensures !sessionListener && connectedHost == old(connectedHost) && hostAvailable == old(hostAvailable)
      ensures handlers == old(handlers) && multicastListening == old(multicastListening)
    {
      if !sessionListener {
        return Err(NullReference);
      }
      sessionListener := false;
      return Ok(());
    }

    /** `ListenForP2PSession(type)`: returns at once after `Dispose`; rejects any type but
        `LocalNetwork`; otherwise attaches the connection handler, binds the listener to the TCP
        port (`listenerBindFails` says whether that throws), picks a profile (throwing when there
        is none) and starts the multicast socket whose callback latches the host. */
    method ListenForP2PSession(sessionType: P2PSessionHostSide.SessionType, profiles: seq<ConnectionProfile>,
                               listenerBindFails: bool, bindFails: bool, joinFails: bool) returns (r: Result<()>)
      requires Valid()
      modifies this, session
      ensures Valid()
      ensures !old(sessionListener) || sessionType != P2PSessionHostSide.LocalNetwork ==>
                handlers == old(handlers) && multicastListening == old(multicastListening)
                && session.sessionHost == old(session.sessionHost)
                && session.sessionProfile == old(session.sessionProfile)
                && session.multicastSocket == old(session.multicastSocket)
                && session.multicastJoined == old(session.multicastJoined)
      ensures !old(sessionListener) ==> r.Ok?
      ensures old(sessionListener) && sessionType != P2PSessionHostSide.LocalNetwork ==> r == Err(NotSupported)
      ensures old(sessionListener) && sessionType == P2PSessionHostSide.LocalNetwork ==>
                !session.sessionHost && handlers == old(handlers) + 1
                && (r.Err? <==> listenerBindFails || ChooseProfile(profiles).Err?)
                && (r.Ok? ==> multicastListening == (!bindFails && !joinFails) && session.multicastSocket
                              && session.multicastJoined == multicastListening)
      ensures old(sessionListener) && sessionType == P2PSessionHostSide.LocalNetwork && listenerBindFails ==>
                r == Err(IoFailure) && session.sessionProfile == old(session.sessionProfile)
                && multicastListening == old(multicastListening)
                && session.multicastSocket == old(session.multicastSocket)
                && session.multicastJoined == old(session.multicastJoined)
      ensures old(sessionListener) && sessionType == P2PSessionHostSide.LocalNetwork && !listenerBindFails
              && ChooseProfile(profiles).Err? ==>
                multicastListening == old(multicastListening)
                && session.multicastSocket == old(session.multicastSocket)
                && session.multicastJoined == old(session.multicastJoined)
      ensures old(sessionListener) && sessionType == P2PSessionHostSide.LocalNetwork && !listenerBindFails ==>
                var choice := ChooseProfile(profiles);
                session.sessionProfile == (if choice.Ok? then Some(choice.value) else None)
      ensures connectedHost == old(connectedHost) && hostAvailable == old(hostAvailable)
      ensures sessionListener == old(sessionListener)
      ensures session.messagesReceived == old(session.messagesReceived)
      ensures session.connectionsCompleted == old(session.connectionsCompleted)
    {
      if !sessionListener {
        return Ok(());
      }
      if sessionType != P2PSessionHostSide.LocalNetwork {
        return Err(NotSupported);
      }
      session.sessionHost := false;
      handlers := handlers + 1;
      if listenerBindFails {
        return Err(IoFailure);
      }
      var info := session.InitializeNetworkInfo(profiles);
      if info.Err? {
        return Err(info.error);
      }
      multicastListening := session.InitializeMulticast(bindFails, joinFails);
      return Ok(());
    }

    /** The multicast callback: the first datagram latches its sender as the host and raises
        `HostAvailable`; later datagrams change nothing. */
    method OnMulticastMessage(remoteAddress: string)
      requires Valid() && multicastListening
      modifies this
      ensures Valid()
      ensures connectedHost == Latch(old(connectedHost), [remoteAddress])
      ensures hostAvailable == if old(connectedHost).None? then 1 else old(hostAvailable)
      ensures sessionListener == old(sessionListener) && handlers == old(handlers)
      ensures multicastListening == old(multicastListening)
    {
      if connectedHost.None? {
        connectedHost := Some(remoteAddress);
        hostAvailable := hostAvailable + 1;
      }
    }

    /** The TCP connection handler: retrieves the message and raises `MessageReceived` with
        the empty client id. */
    method OnConnectionReceived(stream: seq<byte>) returns (r: Result<ByteArray>)
      requires Valid() && handlers > 0
      modifies session
      ensures Valid()
      ensures r == Retrieve(stream)
      ensures session.messagesReceived ==
                old(session.messagesReceived) + (if r.Ok? then [Message(r.value, EmptyGuid)] else [])
      ensures session.connectionsCompleted == old(session.connectionsCompleted)
      ensures session.sessionHost == old(session.sessionHost) && session.sessionProfile == old(session.sessionProfile)
      ensures session.multicastSocket == old(session.multicastSocket) && session.multicastJoined == old(session.multicastJoined)
    {
      r := RetrieveMessage(stream);
      if r.Ok? {
        session.OnMessageReceived(r.value, EmptyGuid);
      }
    }

    /** `SendMessage(message)`: the base send to the latched host on the session's TCP port;
        before any host is latched the host is null, so it throws. */
    function SendMessage(serialized: Option<ByteArray>, faults: SendFaults): (r: Result<SendOutcome>)
      reads this, session
      ensures connectedHost.None? ==> r == Err(ArgumentError)
      ensures r.Ok? ==> Some(r.value.host) == connectedHost && Some(r.value.port) == session.settings.tcpPort
      ensures r.Ok? ==> (r.value.success <==> !faults.connectFails && serialized.Some?)
      ensures r.Ok? && r.value.success && !faults.sizeWriteFails && !faults.dataWriteFails ==>
                r.value.written == EncodeFrame(serialized.value)
    {
      P2PSessionCore.SendMessage(serialized, connectedHost, session.settings.tcpPort, faults)
    }
  }

  /** `HostAvailable` fires at most once over any run of heartbeats, and the latched host is
      the sender of the first one. */
  lemma {:induction false} LatchKeepsFirstHost(first: Option<string>, senders: seq<string>)
    ensures Latch(first, senders) == if first.Some? then first
                                     else if senders == [] then None else Some(senders[0])
  {
    if senders != [] && first.None? {
      LatchOfLatched(senders[0], senders[1..]);
    } else if senders != [] {
      LatchOfLatched(first.value, senders[1..]);
    }
  }

  /** Heartbeats handled one after another latch as the whole run does. */
  lemma {:induction false} LatchAppend(latched: Option<string>, a: seq<string>, b: seq<string>)
    decreases |a|
    ensures Latch(latched, a + b) == Latch(Latch(latched, a), b)
  {
    if a != [] {
      assert (a + b)[1..] == a[1..] + b;
      LatchAppend(if latched.None? then Some(a[0]) else latched, a[1..], b);
    } else {
      assert a + b == b;
    }
  }

  /** The host after a run of heartbeats from `senders`, starting from `latched`. */
  function Latch(latched: Option<string>, senders: seq<string>): Option<string>
    decreases |senders|
  {
    if senders == [] then latched
    else Latch(if latched.None? then Some(senders[0]) else latched, senders[1..])
  }

  lemma {:induction false} LatchOfLatched(host: string, senders: seq<string>)
    decreases |senders|
    ensures Latch(Some(host), senders) == Some(host)
  {
    if senders != [] {
      LatchOfLatched(host, senders[1..]);
    }
  }
}
