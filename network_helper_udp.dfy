/** NetworkHelper's UDP multicast discovery: `UdpManager` advertises on a multicast group and
    registers every participant that answers; `UdpParticipant` listens for advertisements,
    registers their senders as managers and answers one of them. Sockets and timers are
    present/absent flags; a received datagram is its sender and its text. */
module NetworkHelperUdp {
  import opened Common
  import opened PeerInfo
  import opened AddressBook
  import NetworkHelperSessions

  const AdvertisingInterval: int := 500
  const AdvertisingMessage: string := "Advertiser"
  const UdpCommunicationPort: string := "56788"
  const UdpMulticastIp: string := "237.1.3.37"

  /** A datagram written through a `StreamWriter` on a socket output stream. */
  datatype Datagram = Datagram(toHost: HostName, toPort: string, text: string)

  class UdpManager {
    /** The inherited `SessionManager` part: `Participants` and its events. */
    const book: NetworkHelperSessions.SessionManager
    /** `AdvertiserSocket != null`. */
    var advertiserSocket: bool
    /** The port the current socket was bound to. */
    var boundPort: Option<string>
    /** `_timer` exists and has not been disposed. */
    var timerRunning: bool
    /** The period the current timer was started with. */
    var timerPeriod: int
    var advertiserPort: string
    var advertiserGroupHost: HostName
    var advertiserMessage: Option<string>
    var advertiserInterval: int

    ghost predicate Valid()
      reads this, book
    {
      book.Valid() && timerRunning == advertiserSocket && boundPort.Some? == advertiserSocket
    }

    constructor()
      ensures Valid() && fresh(book) && book.participants == map[] && book.connected == []
      ensures !advertiserSocket && !timerRunning
      ensures advertiserPort == UdpCommunicationPort && advertiserGroupHost == HostName(UdpMulticastIp)
      ensures advertiserMessage == Some(AdvertisingMessage) && advertiserInterval == AdvertisingInterval
    {
      book := new NetworkHelperSessions.SessionManager();
      advertiserSocket := false;
      boundPort := None;
      timerRunning := false;
      timerPeriod := 0;
      advertiserPort := UdpCommunicationPort;
      advertiserGroupHost := HostName(UdpMulticastIp);
      advertiserMessage := Some(AdvertisingMessage);
      advertiserInterval := AdvertisingInterval;
    }

    /** `StartAdvertisingAsync`: from idle, binds a new socket to the advertiser port and starts
        the timer with the advertiser interval; otherwise reports false and changes nothing. */
    method StartAdvertising() returns (started: bool)
      requires Valid()
      modifies this
      ensures Valid()
      ensures started <==> !old(advertiserSocket)
      ensures started ==> advertiserSocket && boundPort == Some(advertiserPort) && timerPeriod == advertiserInterval
      ensures !started ==> boundPort == old(boundPort) && timerPeriod == old(timerPeriod)
      ensures advertiserSocket && timerRunning
      ensures advertiserPort == old(advertiserPort) && advertiserGroupHost == old(advertiserGroupHost)
      ensures advertiserMessage == old(advertiserMessage) && advertiserInterval == old(advertiserInterval)
    {
      if !advertiserSocket {
        advertiserSocket := true;
        boundPort := Some(advertiserPort);
        timerRunning := true;
        timerPeriod := advertiserInterval;
        return true;
      }
      return false;
    }

    /** `StopAdvertising`: disposes the socket and the timer when advertising. */
    method StopAdvertising() returns (stopped: bool)
      requires Valid()
      modifies this
      ensures Valid()
      ensures stopped <==> old(advertiserSocket)
      ensures !advertiserSocket && !timerRunning
      ensures timerPeriod == old(timerPeriod)
      ensures advertiserPort == old(advertiserPort) && advertiserGroupHost == old(advertiserGroupHost)
      ensures advertiserMessage == old(advertiserMessage) && advertiserInterval == old(advertiserInterval)
    {
      if advertiserSocket {
        advertiserSocket := false;
        boundPort := None;
        timerRunning := false;
        return true;
      }
      return false;
    }

    /** One timer tick (`SendMessageAsync`): the advertiser message as one line to the group.
        Without a socket the call dereferences null; `sendFails` says whether opening the
        output stream, writing or flushing throws. */
    function Advertisement(sendFails: bool): (r: Result<Datagram>)
      reads this
      ensures r.Err? <==> !advertiserSocket || sendFails
      ensures !advertiserSocket ==> r == Err(NullReference)
      ensures advertiserSocket && sendFails ==> r == Err(IoFailure)
      ensures r.Ok? ==> r.value.toHost == advertiserGroupHost && r.value.toPort == advertiserPort
      ensures r.Ok? && advertiserMessage.Some? && HasNoLineBreak(advertiserMessage.value)
              ==> ReadLine(r.value.text) == advertiserMessage
    {
      if !advertiserSocket then Err(NullReference)
      else if sendFails then Err(IoFailure)
      else
        ReadLineOfOneLine(advertiserMessage);
        Ok(Datagram(advertiserGroupHost, advertiserPort, WriteLine(advertiserMessage)))
    }

    /** `MessageToConnectReceivedFromParticipantAsync`: while the socket is attached, a datagram
        from `remote` registers `UdpParticipantInformation(remote)` with the datagram's first line
        as message; `freshId` is the id `AddParticipant` would generate. */
    method OnMessageFromParticipant(remote: HostName, data: string, freshId: Guid)
      requires Valid() && freshId !in book.participants
      modifies book
      ensures Valid()
      ensures var reg := Register(old(book.participants), UdpParticipantInformation(remote), freshId, ReadLine(data));
              if advertiserSocket then
                book.participants == reg.book && book.connected == old(book.connected) + EventsOf(reg)
              else
                book.participants == old(book.participants) && book.connected == old(book.connected)
    {
      if advertiserSocket {
        var message := ReadLine(data);
        book.AddParticipant(UdpParticipantInformation(remote), message, freshId);
      }
    }

    /** `CreateCommunicationChannel(id)`: the host a new channel to participant `id` targets.
        The indexer throws for an unknown id and the cast throws for another descriptor class. */
    function CreateCommunicationChannel(id: Guid): (r: Result<HostName>)
      reads this, book
      ensures r.Ok? <==> id in book.participants && book.participants[id].UdpParticipantInformation?
      ensures r.Ok? ==> book.participants[id] == UdpParticipantInformation(r.value)
      ensures r == Err(KeyNotFound) <==> id !in book.participants
    {
      if id !in book.participants then Err(KeyNotFound)
      else
        match book.participants[id]
        case UdpParticipantInformation(host) => Ok(host)
        case _ => Err(InvalidCast)
    }
  }

  class UdpParticipant {
    /** The inherited `SessionParticipant` part: `Managers` and its events. */
    const book: NetworkHelperSessions.SessionParticipant
    /** `_listenerSocket != null`. */
    var listenerSocket: bool
    var boundPort: Option<string>
    var joinedGroup: Option<HostName>
    var listenerPort: string
    var listenerGroupHost: HostName
    var listenerMessage: Option<string>

    ghost predicate Valid()
      reads this, book
    {
      book.Valid() && boundPort.Some? == listenerSocket && joinedGroup.Some? == listenerSocket
    }

    constructor()
      ensures Valid() && fresh(book) && book.managers == map[] && book.found == []
      ensures !listenerSocket && listenerPort == UdpCommunicationPort
      ensures listenerGroupHost == HostName(UdpMulticastIp) && listenerMessage == None
    {
      book := new NetworkHelperSessions.SessionParticipant();
      listenerSocket := false;
      boundPort := None;
      joinedGroup := None;
      listenerPort := UdpCommunicationPort;
      listenerGroupHost := HostName(UdpMulticastIp);
      listenerMessage := None;
    }

    /** `StartListeningAsync`: creates, binds and joins the group only when not listening. */
    method StartListening() returns (status: bool)
      requires Valid()
      modifies this
      ensures Valid()
      ensures status <==> !old(listenerSocket)
      ensures status ==> boundPort == Some(listenerPort) && joinedGroup == Some(listenerGroupHost)
      ensures !status ==> boundPort == old(boundPort) && joinedGroup == old(joinedGroup)
      ensures listenerSocket
      ensures listenerPort == old(listenerPort) && listenerGroupHost == old(listenerGroupHost)
      ensures listenerMessage == old(listenerMessage)
    {
      status := false;
      if !listenerSocket {
        listenerSocket := true;
        boundPort := Some(listenerPort);
        joinedGroup := Some(listenerGroupHost);
        status := true;
      }
    }

    /** `StopListening`: disposes and clears the socket iff there was one. */
    method StopListening() returns (status: bool)
      requires Valid()
      modifies this
      ensures Valid()
      ensures status <==> old(listenerSocket)
      ensures !listenerSocket
      ensures listenerPort == old(listenerPort) && listenerGroupHost == old(listenerGroupHost)
      ensures listenerMessage == old(listenerMessage)
    {
      status := false;
      if listenerSocket {
        listenerSocket := false;
        boundPort := None;
        joinedGroup := None;
        status := true;
      }
    }

    /** `AdvertisementMessageReceivedFromManagerAsync`: while listening, an advertisement from
        `remote` registers `UdpManagerInformation(remote)` with its first line as message. */
    method OnAdvertisement(remote: HostName, data: string, freshId: Guid)
      requires Valid()
      modifies book
      ensures Valid()
      ensures var reg := Register(old(book.managers), UdpManagerInformation(remote), freshId, ReadLine(data));
              if listenerSocket then
                book.managers == reg.book && book.found == old(book.found) + EventsOf(reg)
              else
                book.managers == old(book.managers) && book.found == old(book.found)
    {
      if listenerSocket {
        var message := ReadLine(data);
        book.AddManager(UdpManagerInformation(remote), message, freshId);
      }
    }

    /** `ConnectToManagerAsync(id)`: the join datagram, `ListenerMessage` as one line to the
        manager's host on the listener port. An unknown id throws; a descriptor of another class
        or a missing socket dereferences null; `sendFails` says whether opening the output
        stream, writing or flushing throws. */
    function ConnectToManager(id: Guid, sendFails: bool): (r: Result<Datagram>)
      reads this, book
      ensures r == Err(KeyNotFound) <==> id !in book.managers
      ensures r.Ok? <==> id in book.managers && book.managers[id].UdpManagerInformation? && listenerSocket
                         && !sendFails
      ensures id in book.managers && book.managers[id].UdpManagerInformation? && listenerSocket && sendFails
              ==> r == Err(IoFailure)
      ensures r.Ok? ==> book.managers[id] == UdpManagerInformation(r.value.toHost)
                        && r.value.toPort == listenerPort && r.value.text == WriteLine(listenerMessage)
      ensures r.Ok? && (listenerMessage.Some? ==> HasNoLineBreak(listenerMessage.value))
              ==> ReadLine(r.value.text) == if listenerMessage.Some? then listenerMessage else Some("")
    {
      if id !in book.managers then Err(KeyNotFound)
      else if !book.managers[id].UdpManagerInformation? || !listenerSocket then Err(NullReference)
      else if sendFails then Err(IoFailure)
      else
        ReadLineOfOneLine(listenerMessage);
        Ok(Datagram(book.managers[id].host, listenerPort, WriteLine(listenerMessage)))
    }

    /** `CreateCommunicationChannel(id)`: the remote host of a new channel, null when the
        stored descriptor is not a `UdpManagerInformation`; an unknown id throws. */
    function CreateCommunicationChannel(id: Guid): (r: Result<Option<HostName>>)
      reads this, book
      ensures r.Err? <==> id !in book.managers
      ensures r.Ok? ==> (r.value.Some? <==> book.managers[id].UdpManagerInformation?)
      ensures r.Ok? && r.value.Some? ==> book.managers[id] == UdpManagerInformation(r.value.value)
    {
      if id !in book.managers then Err(KeyNotFound)
      else
        match book.managers[id]
        case UdpManagerInformation(host) => Ok(Some(host))
        case _ => Ok(None)
    }
  }
}
