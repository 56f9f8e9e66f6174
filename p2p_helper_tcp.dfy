/** P2PHelper's older `TcpCommunicationChannel`: one text line per connection. */
module P2PHelperTcp {
  import opened Common

  const TcpCommunicationPort: string := "1338"

  /** Text delivered over one outgoing connection. */
  datatype SentLine = SentLine(host: HostName, port: string, text: string)

  class TcpCommunicationChannel {
    /** `_remoteSocket != null`. */
    var remoteSocket: bool
    /** `_localSocket`: the identity of the current listener, if any. */
    var localSocket: Option<nat>
    /** How many times the receive handler is attached to the current listener; every start
        also binds it once more, so this counts the bind attempts too. */
    var handlers: nat
    /** Whether a bind of the current listener has completed. */
    var bound: bool
    var communicationPort: string
    var remoteHostname: Option<HostName>
    var sent: seq<SentLine>
    /** The messages of the `MessageReceived` events raised so far; a null message is `None`. */
    var received: seq<Option<string>>

    ghost predicate Valid()
      reads this
    {
      localSocket.None? ==> handlers == 0 && !bound
    }

    constructor()
      ensures Valid() && !remoteSocket && localSocket == None && communicationPort == TcpCommunicationPort
      ensures remoteHostname == None && sent == [] && received == []
    {
      remoteSocket := false;
      localSocket := None;
      handlers := 0;
      bound := false;
      communicationPort := TcpCommunicationPort;
      remoteHostname := None;
      sent := [];
      received := [];
    }

    /** `SendRemoteMessageAsync(message)`: `text` is `message.ToString()`, `None` for a null
        message. Connects (creating the socket if needed), writes the text as one line and
        disposes the socket; a null host name, a failed connect, a null message or a failed
        write or flush (`writeFails`) throw with the socket left in place. */
    method SendRemoteMessage(text: Option<string>, connectFails: bool, writeFails: bool) returns (r: Result<()>)
      requires Valid()
      modifies this
      ensures Valid()
      ensures r.Ok? <==> remoteHostname.Some? && !connectFails && text.Some? && !writeFails
      ensures remoteHostname.Some? && !connectFails && text.Some? && writeFails ==> r == Err(IoFailure)
      ensures r.Ok? ==> sent == old(sent) + [SentLine(remoteHostname.value, communicationPort, WriteLine(text))]
                        && !remoteSocket
      ensures r.Err? ==> sent == old(sent) && remoteSocket
      ensures localSocket == old(localSocket) && handlers == old(handlers) && bound == old(bound)
      ensures received == old(received)
      ensures communicationPort == old(communicationPort) && remoteHostname == old(remoteHostname)
    {
      remoteSocket := true;
      if remoteHostname.None? {
        return Err(ArgumentError);
      }
      if connectFails {
        return Err(IoFailure);
      }
      if text.None? {
        return Err(NullReference);
      }
      if writeFails {
        return Err(IoFailure);
      }
      sent := sent + [SentLine(remoteHostname.value, communicationPort, text.value + NewLine)];
      remoteSocket := false;
      return Ok(());
    }

    /** `StartListeningAsync`: keeps an existing listener (`freshListener` identifies the one
        created otherwise), attaches the receive handler to it once more and binds it to the
        communication port again, on every call. `bindFails` says whether that bind throws
        (a second bind of a bound listener is the platform's to refuse); the handler stays
        attached either way. */
    method StartListening(freshListener: nat, bindFails: bool) returns (r: Result<()>)
      requires Valid()
      modifies this
      ensures Valid()
      ensures localSocket == if old(localSocket).Some? then old(localSocket) else Some(freshListener)
      ensures handlers == old(handlers) + 1
      ensures r.Err? <==> bindFails
      ensures r.Err? ==> r.error == IoFailure && bound == (old(localSocket).Some? && old(bound))
      ensures r.Ok? ==> bound
      ensures remoteSocket == old(remoteSocket) && communicationPort == old(communicationPort)
      ensures remoteHostname == old(remoteHostname) && sent == old(sent) && received == old(received)
    {
      if localSocket.None? {
        localSocket := Some(freshListener);
      }
      handlers := handlers + 1;
      if bindFails {
        return Err(IoFailure);
      }
      bound := true;
      return Ok(());
    }

    /** `StopListening`: throws when not listening; otherwise disposes and clears the listener,
        which takes every attached handler with it. */
    method StopListening() returns (r: Result<()>)
      requires Valid()
      modifies this
      ensures Valid()
      ensures r.Err? <==> old(localSocket).None?
      ensures r.Err? ==> r.error == InvalidOperation
      ensures localSocket == None && handlers == 0 && !bound
      ensures remoteSocket == old(remoteSocket) && communicationPort == old(communicationPort)
      ensures remoteHostname == old(remoteHostname) && sent == old(sent) && received == old(received)
    {
      if localSocket.None? {
        return Err(InvalidOperation);
      }
      localSocket := None;
      handlers := 0;
      bound := false;
      return Ok(());
    }

    /** `LocalSocketConnectionReceived`, for a bound listener with the handler attached once: the
        first line of the inbound text is delivered; anything after its line break is dropped. */
    method OnConnectionReceived(stream: string) returns (message: Option<string>)
      requires Valid() && localSocket.Some? && bound && handlers == 1
      modifies this
      ensures Valid()
      ensures message == ReadLine(stream) && received == old(received) + [message]
      ensures localSocket == old(localSocket) && handlers == old(handlers) && bound == old(bound)
      ensures remoteSocket == old(remoteSocket)
      ensures sent == old(sent) && remoteHostname == old(remoteHostname) && communicationPort == old(communicationPort)
    {
      message := ReadLine(stream);
      received := received + [message];
    }
  }

  /** What one send delivers is what the receiving side reads back, provided the text holds no
      line break; otherwise only the part before the first break arrives. */
  lemma SentLineIsReceived(text: string)
    ensures ReadLine(WriteLine(Some(text))) == Some(LineOf(text))
    ensures HasNoLineBreak(text) <==> ReadLine(WriteLine(Some(text))) == Some(text)
  {
    var s := WriteLine(Some(text));
    ReadLineOfWriteLine(text, "");
    assert s + "" == s;
    var l := LineOf(text);
    assert s[..|text|] == text;
    if |l| < |text| {
      LineOfUnique(s, l);
    } else {
      assert l == text;
      assert s[|text|] == '\r';
      LineOfUnique(s, l);
    }
  }
}
