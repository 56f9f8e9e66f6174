/** The shared part of P2PHelper's sessions (`P2PSession`): choosing the connection profile,
    the multicast socket, and the framed TCP send and receive that hosts and clients use. */
module P2PSessionCore {
  import opened Common
  import opened Wire

  // ---------------------------------------------------------------------------------------
  // Profile choice

  /** `NetworkConnectivityLevel`. */
  datatype ConnectivityLevel = LevelNone | LocalAccess | ConstrainedInternetAccess | InternetAccess

  /** The parts of a `ConnectionProfile` the choice looks at. */
  datatype ConnectionProfile = ConnectionProfile(isWlan: bool, isWwan: bool, connectivity: ConnectivityLevel)

  datatype ProfileKind = Ethernet | Wlan

  /** An active profile of the kind: ethernet-like means neither WLAN nor WWAN. */
  predicate IsActive(p: ConnectionProfile, kind: ProfileKind)
  {
    p.connectivity != LevelNone
    && match kind
       case Ethernet => !p.isWlan && !p.isWwan
       case Wlan => p.isWlan
  }

  /** `FirstOrDefault` over the profiles, as an index. */
  function FirstActive(profiles: seq<ConnectionProfile>, kind: ProfileKind): (r: Option<nat>)
    ensures r.Some? ==> r.value < |profiles| && IsActive(profiles[r.value], kind)
                        && forall j | 0 <= j < r.value :: !IsActive(profiles[j], kind)
    ensures r.None? ==> forall j | 0 <= j < |profiles| :: !IsActive(profiles[j], kind)
  {
    if profiles == [] then None
    else if IsActive(profiles[0], kind) then Some(0)
    else
      match FirstActive(profiles[1..], kind)
      case None => None
      case Some(i) => Some(i + 1)
  }

  /** `InitializeNetworkInfo`: the first active ethernet-like profile, else the first active
      WLAN profile, else an exception. */
  function ChooseProfile(profiles: seq<ConnectionProfile>): (r: Result<nat>)
    ensures r.Ok? ==> r.value < |profiles|
    ensures r.Ok? && IsActive(profiles[r.value], Ethernet) ==>
              forall j | 0 <= j < r.value :: !IsActive(profiles[j], Ethernet)
    ensures r.Ok? && !IsActive(profiles[r.value], Ethernet) ==>
              IsActive(profiles[r.value], Wlan)
              && (forall j | 0 <= j < |profiles| :: !IsActive(profiles[j], Ethernet))
              && (forall j | 0 <= j < r.value :: !IsActive(profiles[j], Wlan))
    ensures r.Err? <==> forall j | 0 <= j < |profiles| ::
                          !IsActive(profiles[j], Ethernet) && !IsActive(profiles[j], Wlan)
  {
    match FirstActive(profiles, Ethernet)
    case Some(i) => Ok(i)
    case None =>
      match FirstActive(profiles, Wlan)
      case Some(i) => Ok(i)
      case None => Err(Failure("Ethernet or WLAN connection must be present."))
  }

  /** An active ethernet-like profile always wins over WLAN, wherever it is in the list. */
  lemma EthernetPreferred(profiles: seq<ConnectionProfile>, k: nat)
    requires k < |profiles| && IsActive(profiles[k], Ethernet)
    ensures ChooseProfile(profiles).Ok? && IsActive(profiles[ChooseProfile(profiles).value], Ethernet)
  {
  }

  // ---------------------------------------------------------------------------------------
  // Framed send and receive

  /** `P2PSessionConfigurationData`; a null string is `None`. */
  datatype Config = Config(multicastIP: Option<string>, multicastPort: Option<string>, tcpPort: Option<string>)

  /** Where the exceptions inside `SendMessage` and `SendDataTCP` happen. A failed serializer
      is a `None` payload instead. */
  datatype SendFaults = SendFaults(connectFails: bool, sizeWriteFails: bool, dataWriteFails: bool)

  const NoFaults: SendFaults := SendFaults(false, false, false)

  /** What a send reports and what reached `host:port` over its connection. */
  datatype SendOutcome = SendOutcome(success: bool, host: string, port: string, written: seq<byte>)

  /** `P2PSession.SendMessage(message, host, port, type)`, with `serialized` the serializer's
      output. Null or empty host or port throw before connecting. A failed connect or
      serializer makes it false; a failed write of the size or of the data only loses that
      part, and the send still reports true. */
  function SendMessage(serialized: Option<ByteArray>, host: Option<string>, port: Option<string>,
                       faults: SendFaults): (r: Result<SendOutcome>)
    ensures r.Err? <==> IsNullOrEmpty(host) || IsNullOrEmpty(port)
    ensures r.Err? ==> r.error == ArgumentError
    ensures r.Ok? ==> r.value.host == host.value && r.value.port == port.value
    ensures r.Ok? ==> (r.value.success <==> !faults.connectFails && serialized.Some?)
    ensures r.Ok? && !r.value.success ==> r.value.written == []
    ensures r.Ok? && r.value.success ==>
              |r.value.written| == (if faults.sizeWriteFails then 0 else 4)
                                   + (if faults.dataWriteFails then 0 else |serialized.value|)
    ensures r.Ok? && r.value.success && !faults.sizeWriteFails && !faults.dataWriteFails ==>
              r.value.written == EncodeFrame(serialized.value)
  {
    if IsNullOrEmpty(host) || IsNullOrEmpty(port) then Err(ArgumentError)
    else if faults.connectFails || serialized.None? then
      Ok(SendOutcome(false, host.value, port.value, []))
    else
      var data := serialized.value;
      var sizePart := if faults.sizeWriteFails then [] else GetBytes(|data|);
      var dataPart := if faults.dataWriteFails then [] else data;
      Ok(SendOutcome(true, host.value, port.value, sizePart + dataPart))
  }

  function Zeros(n: nat): (z: seq<byte>)
    ensures |z| == n && forall i | 0 <= i < n :: z[i] == 0
  {
    seq(n, _ => 0)
  }

  /** What `RetrieveMessage` returns for a connection holding `stream`. Each read loads what
      is there up to the requested count and copies only when the whole count arrived, so a
      stream shorter than 4 bytes reads as size 0, and a short payload leaves the buffer of the
      declared size zero-filled. A negative size makes the allocation throw. */
  function Retrieve(stream: seq<byte>): (r: Result<ByteArray>)
    ensures r.Err? <==> |stream| >= 4 && ToInt32(stream[..4]) < 0
    ensures r.Err? ==> r.error == Overflow
    ensures r.Ok? ==> |r.value| == if |stream| < 4 then 0 else ToInt32(stream[..4])
    ensures DecodeFrame(stream).Ok? ==> r == DecodeFrame(stream)
  {
    if |stream| < 4 then Ok([])
    else
      var n := ToInt32(stream[..4]);
      if n < 0 then Err(Overflow)
      else if |stream| < 4 + n then Ok(Zeros(n))
      else Ok(stream[4..4 + n])
  }

  /** A frame sent without faults is retrieved intact by the other side. */
  lemma SendThenRetrieve(data: ByteArray, host: string, port: string, rest: seq<byte>)
    requires host != "" && port != ""
    ensures var r := SendMessage(Some(data), Some(host), Some(port), NoFaults);
            r.Ok? && r.value.success && Retrieve(r.value.written + rest) == Ok(data)
  {
    DecodeEncodedFrame(data, rest);
  }

  /** `RetrieveMessage`, filling the size buffer and the payload buffer through two readers on
      the same stream; the first consumes whatever it loaded, at most 4 bytes. Failed reads
      are swallowed by `ReceiveDataTCP`. */
  method RetrieveMessage(stream: seq<byte>) returns (r: Result<ByteArray>)
    ensures r == Retrieve(stream)
  {
    var sizeBuffer := new byte[4](_ => 0);
    var _ := ReadBytes(stream, 0, sizeBuffer);
    if |stream| < 4 {
      assert sizeBuffer[..] == GetBytes(0);
      ToInt32OfGetBytes(0);
    } else {
      assert stream[0..4] == stream[..4];
    }
    var size := ToInt32(sizeBuffer[..]);
    if size < 0 {
      return Err(Overflow);
    }
    var data := new byte[size](_ => 0);
    var consumed := if |stream| < 4 then |stream| else 4;
    var ok := ReadBytes(stream, consumed, data);
    if !ok {
      assert data[..] == Zeros(size);
    }
    return Ok(data[..]);
  }

  // ---------------------------------------------------------------------------------------
  // Session state

  /** A `MessageReceived` event: the payload and the sender's id (empty for unadmitted ones). */
  datatype Message = Message(message: ByteArray, clientId: Guid)

  /** The fields and events of the `P2PSession` base class. */
  class P2PSession {
    const settings: Config
    var sessionHost: bool
    /** `SessionProfile`, as its position in the profile list it was chosen from. */
    var sessionProfile: Option<nat>
    /** `MulticastSocket != null`. */
    var multicastSocket: bool
    /** The multicast socket is bound and has joined the group. */
    var multicastJoined: bool
    var connectionsCompleted: seq<Guid>
    var messagesReceived: seq<Message>

    constructor(config: Config)
      ensures settings == config && !sessionHost && sessionProfile == None
      ensures !multicastSocket && !multicastJoined && connectionsCompleted == [] && messagesReceived == []
    {
      settings := config;
      sessionHost := false;
      sessionProfile := None;
      multicastSocket := false;
      multicastJoined := false;
      connectionsCompleted := [];
      messagesReceived := [];
    }

    /** `InitializeNetworkInfo`: stores the chosen profile, null when it throws. */
    method InitializeNetworkInfo(profiles: seq<ConnectionProfile>) returns (r: Result<()>)
      modifies this
      ensures var choice := ChooseProfile(profiles);
              sessionProfile == (if choice.Ok? then Some(choice.value) else None)
              && (r.Err? <==> choice.Err?)
      ensures sessionHost == old(sessionHost) && multicastSocket == old(multicastSocket)
      ensures multicastJoined == old(multicastJoined)
      ensures connectionsCompleted == old(connectionsCompleted) && messagesReceived == old(messagesReceived)
    {
      var choice := ChooseProfile(profiles);
      if choice.Err? {
        sessionProfile := None;
        return Err(choice.error);
      }
      sessionProfile := Some(choice.value);
      return Ok(());
    }

    /** `InitializeMulticast`: a new socket; true iff binding and joining both completed. */
    method InitializeMulticast(bindFails: bool, joinFails: bool) returns (success: bool)
      modifies this
      ensures success <==> !bindFails && !joinFails
      ensures multicastSocket && multicastJoined == success
      ensures sessionHost == old(sessionHost) && sessionProfile == old(sessionProfile)
      ensures connectionsCompleted == old(connectionsCompleted) && messagesReceived == old(messagesReceived)
    {
      multicastSocket := true;
      success := false;
      if !bindFails && !joinFails {
        success := true;
      }
      multicastJoined := success;
    }

    /** `OnConnectionComplete(id)`. */
    method OnConnectionComplete(clientId: Guid)
      modifies this
      ensures connectionsCompleted == old(connectionsCompleted) + [clientId]
      ensures messagesReceived == old(messagesReceived) && sessionHost == old(sessionHost)
      ensures sessionProfile == old(sessionProfile) && multicastSocket == old(multicastSocket)
      ensures multicastJoined == old(multicastJoined)
    {
      connectionsCompleted := connectionsCompleted + [clientId];
    }

    /** `OnMessageReceived(message, clientId)`; callers that omit the id pass `EmptyGuid`. */
    method OnMessageReceived(message: ByteArray, clientId: Guid)
      modifies this
      ensures messagesReceived == old(messagesReceived) + [Message(message, clientId)]
      ensures connectionsCompleted == old(connectionsCompleted) && sessionHost == old(sessionHost)
      ensures sessionProfile == old(sessionProfile) && multicastSocket == old(multicastSocket)
      ensures multicastJoined == old(multicastJoined)
    {
      messagesReceived := messagesReceived + [Message(message, clientId)];
    }
  }
}
