/** NetworkHelper's `TcpCommunicationChannel`: each send connects to the remote host, writes one
    length-prefixed frame and disconnects; a listener delivers each inbound frame's payload. */
module NetworkHelperTcp {
  import opened Common
  import opened Wire

  const TcpCommunicationPort: string := "56789"

  /** Bytes delivered over one outgoing connection. */
  datatype Sent = Sent(host: HostName, port: string, bytes: seq<byte>)

  class TcpCommunicationChannel {
    /** `_remoteSocket != null`. */
    var remoteSocket: bool
    /** `_localSocket != null`. */
    var localSocket: bool
    var boundPort: Option<string>
    var communicationPort: string
    var remoteHostname: Option<HostName>
    /** Everything written to remote hosts, one entry per connection. */
    var sent: seq<Sent>
    /** The payloads of the `MessageReceived` events raised so far. */
    var received: seq<ByteArray>

    ghost predicate Valid()
      reads this
    {
      boundPort.Some? ==> localSocket
    }

    constructor()
      ensures Valid() && !remoteSocket && !localSocket && communicationPort == TcpCommunicationPort
      ensures remoteHostname == None && sent == [] && received == []
    {
      remoteSocket := false;
      localSocket := false;
      boundPort := None;
      communicationPort := TcpCommunicationPort;
      remoteHostname := None;
      sent := [];
      received := [];
    }

    /** `SendRemoteMessageAsync(data)`: `serialized` is the serializer's output, `None` when it
        throws. Connecting creates the socket if needed (a null host name or a failed connect
        throws with the socket left in place); a serialized payload is written as one frame to
        the remote host and the socket is then disposed. `writeFails` says whether storing the
        frame throws; the socket is then left in place too. */
    method SendRemoteMessage(serialized: Option<ByteArray>, connectFails: bool, writeFails: bool) returns (r: Result<()>)
      requires Valid()
      modifies this
      ensures Valid()
      ensures r.Ok? <==> remoteHostname.Some? && !connectFails && serialized.Some? && !writeFails
      ensures remoteHostname.Some? && !connectFails && serialized.Some? && writeFails ==> r == Err(IoFailure)
      ensures r.Ok? ==> sent == old(sent) + [Sent(remoteHostname.value, communicationPort, EncodeFrame(serialized.value))]
                        && !remoteSocket
      ensures r.Err? ==> sent == old(sent) && remoteSocket
      ensures localSocket == old(localSocket) && boundPort == old(boundPort) && received == old(received)
      ensures communicationPort == old(communicationPort) && remoteHostname == old(remoteHostname)
    {
      remoteSocket := true;
      if remoteHostname.None? {
        return Err(ArgumentError);
      }
      if connectFails {
        return Err(IoFailure);
      }
      if serialized.None? {
        return Err(Failure("serialization"));
      }
      var payload := serialized.value;
      var frame := GetBytes(|payload|) + payload;
      if writeFails {
        return Err(IoFailure);
      }
      sent := sent + [Sent(remoteHostname.value, communicationPort, frame)];
      remoteSocket := false;
      return Ok(());
    }

    /** `StartListeningAsync`: only when not listening, creates a listener, attaches the
        connection handler and binds it to the communication port. `bindFails` says whether the
        bind throws; the listener is then already in place, unbound, so every later call returns
        false until `StopListening`. */
    method StartListening(bindFails: bool) returns (r: Result<bool>)
      requires Valid()
      modifies this
      ensures Valid()
      ensures old(localSocket) ==> r == Ok(false) && boundPort == old(boundPort)
      ensures !old(localSocket) ==> (r.Err? <==> bindFails)
      ensures !old(localSocket) && bindFails ==> r == Err(IoFailure) && boundPort == None
      ensures !old(localSocket) && !bindFails ==> r == Ok(true) && boundPort == Some(communicationPort)
      ensures localSocket && remoteSocket == old(remoteSocket) && communicationPort == old(communicationPort)
      ensures remoteHostname == old(remoteHostname) && sent == old(sent) && received == old(received)
    {
      if !localSocket {
        localSocket := true;
        if bindFails {
          return Err(IoFailure);
        }
        boundPort := Some(communicationPort);
        return Ok(true);
      }
      return Ok(false);
    }

    /** `StopListening`: cancels, detaches and disposes the listener when listening. */
    method StopListening() returns (stopped: bool)
      requires Valid()
      modifies this
      ensures Valid()
      ensures stopped <==> old(localSocket)
      ensures !localSocket && remoteSocket == old(remoteSocket) && communicationPort == old(communicationPort)
      ensures remoteHostname == old(remoteHostname) && sent == old(sent) && received == old(received)
    {
      if localSocket {
        localSocket := false;
        boundPort := None;
        return true;
      }
      return false;
    }

    /** `LocalSocketConnectionReceived`: while the listener is bound, reads the 4-byte size
        and then the payload of an inbound connection holding `stream` into fresh buffers, and
        raises `MessageReceived` with the payload. The outcome is exactly the frame decoding. */
    method OnConnectionReceived(stream: seq<byte>) returns (r: Result<ByteArray>)
      requires Valid() && boundPort.Some?
      modifies this
      ensures Valid()
      ensures r == DecodeFrame(stream)
      ensures received == old(received) + (if r.Ok? then [r.value] else [])
      ensures localSocket == old(localSocket) && boundPort == old(boundPort) && remoteSocket == old(remoteSocket)
      ensures sent == old(sent) && remoteHostname == old(remoteHostname) && communicationPort == old(communicationPort)
    {
      var payloadSize := new byte[4];
      var ok := ReadBytes(stream, 0, payloadSize);
      if !ok {
        return Err(IoFailure);
      }
      var size := ToInt32(payloadSize[..]);
      if size < 0 {
        return Err(Overflow);
      }
      var payload := new byte[size];
      ok := ReadBytes(stream, 4, payload);
      if !ok {
        return Err(IoFailure);
      }
      var message: ByteArray := payload[..];
      received := received + [message];
      return Ok(message);
    }
  }

  /** A bind that throws leaves the listener in place: the next start reports "already
      listening" although nothing is bound, and only a stop clears it. */
  method FailedBindBlocksRestart() returns (first: Result<bool>, second: Result<bool>, stopped: bool, third: Result<bool>)
    ensures first == Err(IoFailure) && second == Ok(false)
    ensures stopped && third == Ok(true)
  {
    var channel := new TcpCommunicationChannel();
    first := channel.StartListening(true);
    second := channel.StartListening(false);
    assert channel.boundPort == None;
    stopped := channel.StopListening();
    third := channel.StartListening(false);
  }
}
