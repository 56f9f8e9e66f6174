/** NetworkHelper's DNS-SD discovery: `DnssdManager` registers a DNS-SD service backed by a
    TCP listener and registers every participant that connects to it, except the connection
    test probe; `DnssdParticipant` watches for such services, probes each one it finds and
    registers the ones that answered. */
module NetworkHelperDnssd {
  import opened Common
  import opened PeerInfo
  import opened AddressBook
  import NetworkHelperSessions

  const TestMessage: string := "connection_test"
  const DefaultPort: string := "56788"
  const DefaultInstanceName: string := "DnssdManager"
  const NetworkProtocol: string := "_tcp"
  const Domain: string := "local"
  const ServiceType: string := "_p2phelper"
  const ProtocolGuid: string := "{4526e8c1-8aac-4153-9b16-55e86ada0e54}"

  const HostNameProperty: string := "System.Devices.Dnssd.HostName"
  const ServiceNameProperty: string := "System.Devices.Dnssd.ServiceName"
  const InstanceNameProperty: string := "System.Devices.Dnssd.InstanceName"
  const IpAddressProperty: string := "System.Devices.IpAddress"
  const PortNumberProperty: string := "System.Devices.Dnssd.PortNumber"

  /** The properties the participant's watcher asks for. */
  const PropertyKeys: seq<string> :=
    [HostNameProperty, ServiceNameProperty, InstanceNameProperty, IpAddressProperty, PortNumberProperty]

  /** `SERVICE_TYPE.NETWORK_PROTOCOL`, the DNS-SD service name both sides agree on. */
  const ServiceName: string := ServiceType + "." + NetworkProtocol

  /** The suffix the manager appends to its instance name. */
  const InstanceSuffix: string := "." + ServiceName + "." + Domain + "."

  /** The full name of the manager's service instance. */
  function ServiceInstanceName(instanceName: string): (full: string)
    ensures full == instanceName + "._p2phelper._tcp.local."
  {
    instanceName + InstanceSuffix
  }

  /** The instance name inside a full service instance name, if it carries the suffix. */
  function InstanceNameOf(full: string): (r: Option<string>)
    ensures r.Some? <==> |full| >= |InstanceSuffix| && full[|full| - |InstanceSuffix|..] == InstanceSuffix
  {
    if |full| >= |InstanceSuffix| && full[|full| - |InstanceSuffix|..] == InstanceSuffix then
      Some(full[..|full| - |InstanceSuffix|])
    else
      None
  }

  /** Taking the instance name back out of the full name gives the original, for any
      instance name, so different managers' names never collide. */
  lemma InstanceNameRoundTrip(instanceName: string)
    ensures InstanceNameOf(ServiceInstanceName(instanceName)) == Some(instanceName)
  {
    var full := ServiceInstanceName(instanceName);
    assert full[|full| - |InstanceSuffix|..] == InstanceSuffix;
    assert full[..|full| - |InstanceSuffix|] == instanceName;
  }

  /** The watcher's AQS filter: DNS-SD protocol, the `local` domain, the shared service name. */
  const AqsQueryString: string :=
    "System.Devices.AepService.ProtocolId:=" + ProtocolGuid + " AND "
    + "System.Devices.Dnssd.Domain:=\"" + Domain + "\" AND System.Devices.Dnssd.ServiceName:=\""
    + ServiceName + "\""

  /** The participant filters on the same service name and domain as the manager registers. */
  lemma AqsMatchesRegisteredService(instanceName: string)
    ensures AqsQueryString[|AqsQueryString| - |ServiceName| - 1..|AqsQueryString| - 1] == ServiceName
    ensures ServiceInstanceName(instanceName)[|instanceName| + 1..|instanceName| + 1 + |ServiceName|] == ServiceName
    ensures ServiceInstanceName(instanceName)[|instanceName| + 2 + |ServiceName|..|instanceName| + 2 + |ServiceName| + |Domain|] == Domain
  {
  }

  /** A TCP connection that delivers `text` to `host:port`. */
  datatype Connection = Connection(host: HostName, port: string, text: string)

  /** Whether a connection's first line is the participant's test probe. */
  predicate IsTestProbe(text: string)
  {
    ReadLine(text) == Some(TestMessage)
  }

  /** A registered DNS-SD service. */
  datatype ServiceInstance = ServiceInstance(name: string, port: string)

  class DnssdManager {
    const book: NetworkHelperSessions.SessionManager
    /** `_socket != null`: the stream socket listener. */
    var socket: bool
    /** The port the listener was bound to. */
    var boundPort: Option<string>
    /** `_service`. */
    var service: Option<ServiceInstance>
    var instanceName: string
    var port: string

    ghost predicate Valid()
      reads this, book
    {
      book.Valid() && boundPort.Some? == socket && service.Some? == socket
    }

    constructor()
      ensures Valid() && fresh(book) && book.participants == map[] && book.connected == []
      ensures !socket && service == None
      ensures instanceName == DefaultInstanceName && port == DefaultPort
    {
      book := new NetworkHelperSessions.SessionManager();
      socket := false;
      boundPort := None;
      service := None;
      instanceName := DefaultInstanceName;
      port := DefaultPort;
    }

    /** `StartAdvertisingAsync`: only when neither listener nor service exists, binds the
        listener to `Port` and registers the service under the full instance name. */
    method StartAdvertising() returns (started: bool)
      requires Valid()
      modifies this
      ensures Valid()
      ensures started <==> !old(socket) && old(service).None?
      ensures started ==> boundPort == Some(port)
                          && service == Some(ServiceInstance(ServiceInstanceName(instanceName), port))
      ensures !started ==> boundPort == old(boundPort) && service == old(service)
      ensures socket && instanceName == old(instanceName) && port == old(port)
    {
      if !socket && service.None? {
        socket := true;
        boundPort := Some(port);
        service := Some(ServiceInstance(ServiceInstanceName(instanceName), port));
        return true;
      }
      return false;
    }

    /** `StopAdvertising`: only when both exist, disposes the listener and drops the service. */
    method StopAdvertising() returns (stopped: bool)
      requires Valid()
      modifies this
      ensures Valid()
      ensures stopped <==> old(socket) && old(service).Some?
      ensures !socket && service == None
      ensures instanceName == old(instanceName) && port == old(port)
    {
      if socket && service.Some? {
        socket := false;
        boundPort := None;
        service := None;
        return true;
      }
      return false;
    }

    /** `MessageToConnectReceivedFromParticipantAsync`: while the listener is attached, a
        connection from `remote` whose first line is not the test probe registers
        `DnssdParticipantInformation(remote)` with that line as message. */
    method OnConnection(remote: HostName, text: string, freshId: Guid)
      requires Valid() && freshId !in book.participants
      modifies book
      ensures Valid()
      ensures var reg := Register(old(book.participants), DnssdParticipantInformation(remote), freshId, ReadLine(text));
              if socket && !IsTestProbe(text) then
                book.participants == reg.book && book.connected == old(book.connected) + EventsOf(reg)
              else
                book.participants == old(book.participants) && book.connected == old(book.connected)
    {
      if socket {
        var message := ReadLine(text);
        if message != Some(TestMessage) {
          book.AddParticipant(DnssdParticipantInformation(remote), message, freshId);
        }
      }
    }

    /** `CreateCommunicationChannel(id)`: the host a new channel to participant `id` targets. */
    function CreateCommunicationChannel(id: Guid): (r: Result<HostName>)
      reads this, book
      ensures r.Ok? <==> id in book.participants && book.participants[id].DnssdParticipantInformation?
      ensures r.Ok? ==> book.participants[id] == DnssdParticipantInformation(r.value)
      ensures r == Err(KeyNotFound) <==> id !in book.participants
    {
      if id !in book.participants then Err(KeyNotFound)
      else
        match book.participants[id]
        case DnssdParticipantInformation(host) => Ok(host)
        case _ => Err(InvalidCast)
    }
  }

  /** The properties of a found DNS-SD service that the participant reads. */
  datatype FoundService = FoundService(ipAddresses: seq<string>, portNumber: string, instanceName: string)

  /** The two places a TCP send to a manager can throw: the connect and the write of the
      line (`TestConnectionAsync`, `ConnectToManagerAsync`). */
  datatype ProbeFaults = ProbeFaults(connectFails: bool, writeFails: bool)

  /** `TestConnectionAsync(host, port)`: connects and writes the probe line; any exception
      makes it false. The second component is what reached the manager, if anything. */
  function TestConnection(host: HostName, port: string, faults: ProbeFaults): (r: (bool, Option<Connection>))
    ensures r.0 <==> !faults.connectFails && !faults.writeFails
    ensures r.0 <==> r.1.Some?
    ensures r.1.Some? ==> r.1.value.host == host && r.1.value.port == port && IsTestProbe(r.1.value.text)
  {
    if faults.connectFails || faults.writeFails then (false, None)
    else
      ReadLineOfOneLine(Some(TestMessage));
      (true, Some(Connection(host, port, WriteLine(Some(TestMessage)))))
  }

  /** Configuration of a created device watcher. */
  datatype Watcher = Watcher(aqsFilter: string, propertyKeys: seq<string>, started: bool)

  class DnssdParticipant {
    const book: NetworkHelperSessions.SessionParticipant
    /** `_watcher`. */
    var watcher: Option<Watcher>
    var listenerMessage: Option<string>

    ghost predicate Valid()
      reads this, book
    {
      book.Valid()
    }

    constructor()
      ensures Valid() && fresh(book) && book.managers == map[] && book.found == []
      ensures watcher == None && listenerMessage == None
    {
      book := new NetworkHelperSessions.SessionParticipant();
      watcher := None;
      listenerMessage := None;
    }

    /** `StartListeningAsync`: creates and starts a watcher with the AQS filter and the
        property keys only when none exists. */
    method StartListening() returns (status: bool)
      requires Valid()
      modifies this
      ensures Valid()
      ensures status <==> old(watcher).None?
      ensures status ==> watcher == Some(Watcher(AqsQueryString, PropertyKeys, true))
      ensures !status ==> watcher == old(watcher)
      ensures listenerMessage == old(listenerMessage)
    {
      status := false;
      if watcher.None? {
        watcher := Some(Watcher(AqsQueryString, PropertyKeys, true));
        status := true;
      }
    }

    /** `StopListening`: stops and clears the watcher iff one exists. */
    method StopListening() returns (status: bool)
      requires Valid()
      modifies this
      ensures Valid()
      ensures status <==> old(watcher).Some?
      ensures watcher == None && listenerMessage == old(listenerMessage)
    {
      if watcher.Some? {
        watcher := None;
        return true;
      }
      return false;
    }

    /** `OnFoundDnssdServiceAsync`: probes the first advertised address on the advertised port
        and, only if the probe went through, registers `DnssdManagerInformation(address, port)`
        with the instance name as message. An empty address list throws before probing. The
        result is the probe's outcome. */
    method OnFoundService(props: FoundService, faults: ProbeFaults, freshId: Guid)
        returns (r: Result<bool>)
      requires Valid()
      modifies book
      ensures Valid()
      ensures r.Err? <==> props.ipAddresses == []
      ensures r.Err? ==> r.error == IndexOutOfRange
      ensures r.Ok? ==> r.value == TestConnection(HostName(props.ipAddresses[0]), props.portNumber, faults).0
      ensures r != Ok(true) ==> book.managers == old(book.managers) && book.found == old(book.found)
      ensures r == Ok(true) ==>
                var d := DnssdManagerInformation(HostName(props.ipAddresses[0]), props.portNumber);
                var reg := Register(old(book.managers), d, freshId, Some(props.instanceName));
                book.managers == reg.book && book.found == old(book.found) + EventsOf(reg)
    {
      if props.ipAddresses == [] {
        return Err(IndexOutOfRange);
      }
      var host := HostName(props.ipAddresses[0]);
      var port := props.portNumber;
      var isValidConnection := TestConnection(host, port, faults).0;
      if isValidConnection {
        book.AddManager(DnssdManagerInformation(host, port), Some(props.instanceName), freshId);
      }
      return Ok(isValidConnection);
    }

    /** `ConnectToManagerAsync(id)`: connects to the manager's host and port and writes
        `ListenerMessage` as one line. An unknown id throws; another descriptor class or a null
        message dereferences null; a failed connect, write or flush throws. */
    function ConnectToManager(id: Guid, faults: ProbeFaults): (r: Result<Connection>)
      reads this, book
      ensures r == Err(KeyNotFound) <==> id !in book.managers
      ensures r.Ok? <==> id in book.managers && book.managers[id].DnssdManagerInformation?
                         && listenerMessage.Some? && !faults.connectFails && !faults.writeFails
      ensures id in book.managers && book.managers[id].DnssdManagerInformation?
              && (faults.connectFails || (listenerMessage.Some? && faults.writeFails))
              ==> r == Err(IoFailure)
      ensures r.Ok? ==> book.managers[id] == DnssdManagerInformation(r.value.host, r.value.port)
                        && r.value.text == WriteLine(listenerMessage)
    {
      if id !in book.managers then Err(KeyNotFound)
      else if !book.managers[id].DnssdManagerInformation? then Err(NullReference)
      else if faults.connectFails then Err(IoFailure)
      else if listenerMessage.None? then Err(NullReference)
      else if faults.writeFails then Err(IoFailure)
      else Ok(Connection(book.managers[id].host, book.managers[id].port, WriteLine(listenerMessage)))
    }

    /** `CreateCommunicationChannel(id)`: the remote host of a new channel, null when the
        stored descriptor is not a `DnssdManagerInformation`; an unknown id throws. */
    function CreateCommunicationChannel(id: Guid): (r: Result<Option<HostName>>)
      reads this, book
      ensures r.Err? <==> id !in book.managers
      ensures r.Ok? ==> (r.value.Some? <==> book.managers[id].DnssdManagerInformation?)
      ensures r.Ok? && r.value.Some? ==> book.managers[id].host == r.value.value
    {
      if id !in book.managers then Err(KeyNotFound)
      else
        match book.managers[id]
        case DnssdManagerInformation(host, _) => Ok(Some(host))
        case _ => Ok(None)
    }
  }

  /** A join connection is registered by the manager exactly when the participant's message,
      read back as the first line, is not the probe text: a participant whose
      `ListenerMessage` is `"connection_test"` can never join. */
  lemma JoinIsNotMistakenForProbe(message: string)
    requires HasNoLineBreak(message)
    ensures IsTestProbe(WriteLine(Some(message))) <==> message == TestMessage
  {
    ReadLineOfOneLine(Some(message));
  }
}
