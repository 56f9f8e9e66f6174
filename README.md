# Network helper and quiz game, modelled in Dafny

This project models the core of the Windows network-helper sample. The sample has three parts.

- **NetworkHelper** lets one *manager* find *participants* on a local network. Peers can find each other in two ways:
  - UDP multicast advertising (`UdpManager` / `UdpParticipant`);
  - a DNS-SD service plus a device watcher (`DnssdManager` / `DnssdParticipant`).

  Each side keeps an address book. It maps a generated `Guid` to a peer descriptor, and a descriptor that is already known is never added twice. Messages travel over a `TcpCommunicationChannel`, which writes a 4-byte little-endian length and then the payload.
- **P2PHelper** is an older pair, `P2PSessionHost` / `P2PSessionClient`:
  - the host sends multicast heartbeats;
  - the client latches onto the first host it hears;
  - the host admits clients by TCP address;
  - both sides exchange framed messages.

  It also has a simpler line-based `TcpCommunicationChannel` and its own `SessionParticipant`.
- **The quiz game** consists of:
  - `Game`: players, one answer table per player, a question index, scoring and the winner;
  - `HostCommunicator`, which drives a `UdpManager`;
  - the in-process `MockHostCommunicator` with two mock clients.

How the model is built:

- Every class whose fields change becomes a Dafny `class` with a `Valid()` invariant, `modifies` frames and postconditions that give the whole new state.
- Pure rules are functions with lemmas beside them:
  - descriptor equality;
  - address-book registration;
  - the byte layout of `BitConverter`;
  - frame encoding and decoding;
  - the text-line conventions of `StreamReader`/`StreamWriter`;
  - profile choice;
  - the quiz scores.
- Subclassing is modelled by composition. For example, `UdpManager` holds its `SessionManager` part in the `const book`.
- Exceptions become a `Result` with an `Error` kind.
- Outside inputs are parameters of the operation:
  - the id that `Guid.NewGuid()` would return;
  - whether a connect, a write or a bind fails (every send path takes its write failure; binds for the TCP channels, the session listeners and the P2P multicast socket, while the UDP and DNS-SD sockets are assumed to bind);
  - the bytes a peer has sent.

Files:

- `common.dfy`: `Option`/`Result`/`Error`, `Guid`, text lines, `List.Remove`.
- `wire.dfy`: `BitConverter`, frames and `DataReader.ReadBytes`.
- `peer_info.dfy`: the four `*Information` descriptors.
- `address_book.dfy`: the registration rule.
- The remaining files, one per source area:
  - `network_helper_sessions.dfy`, `network_helper_udp.dfy`, `network_helper_dnssd.dfy`, `network_helper_tcp.dfy`;
  - `p2p_helper_participant.dfy`, `p2p_helper_tcp.dfy`;
  - `p2p_session.dfy`, `p2p_session_host.dfy`, `p2p_session_client.dfy`;
  - `quiz_game.dfy`, `quiz_host.dfy`, `quiz_mock_host.dfy`.

## Model

| member | source | states |
|---|---|---|
| Common.LineOf | NetworkHelper/DnssdManager.cs:155 | the first line is a prefix of the text, holds no line break, and is followed by a break or by the end |
| Common.ReadLine | NetworkHelper/DnssdManager.cs:155 | `ReadLine` gives null exactly on an empty stream, and otherwise the text before the first line break |
| Common.WriteLine | P2PHelper/TCPCommunicationChannel.cs:70-83 | a written line always ends with the Windows line end "\r\n"; a null message writes only the line end |
| Common.ReadLineOfWriteLine | P2PHelper/TCPCommunicationChannel.cs:70-83 | a written line, whatever follows it, reads back as the same text exactly when that text holds no line break |
| Common.ReadLineOfOneLine | NetworkHelper/UdpParticipant.cs:137-147 | one written line read back gives the text, or the empty line for a null message |
| Common.RemoveFirst | Model/MockHostCommunicator.cs:76 | `List.Remove` drops exactly the first occurrence and keeps the order of the rest; the multiset loses one copy |
| Common.RemoveFirstOfDistinct | Model/Game.cs:60 | on a list without duplicates, removing a name removes every occurrence and keeps every other name |
| Wire.LeValueOfLeBytes | NetworkHelper/TcpCommunicationChannel.cs:79 | the little-endian bytes of a value read back as that value |
| Wire.LeBytesOfLeValue | NetworkHelper/TcpCommunicationChannel.cs:143 | any byte string is the little-endian encoding of the value it reads as |
| Wire.GetBytes | NetworkHelper/TcpCommunicationChannel.cs:79 | `BitConverter.GetBytes(int)` yields exactly 4 bytes |
| Wire.ToInt32 | NetworkHelper/TcpCommunicationChannel.cs:143 | `BitConverter.ToInt32` yields an Int32 that is negative exactly when the top bit of the last byte is set |
| Wire.ToInt32OfGetBytes | NetworkHelper/TcpCommunicationChannel.cs:79-143 | the receiver reads back the Int32 the sender wrote |
| Wire.GetBytesOfToInt32 | NetworkHelper/TcpCommunicationChannel.cs:143 | every 4 bytes are the encoding of the Int32 they decode to |
| Wire.EncodeFrame | NetworkHelper/TcpCommunicationChannel.cs:78-82 | a frame is 4 + n bytes: a prefix decoding to n, then the payload |
| Wire.EncodeFrameInjective | NetworkHelper/TcpCommunicationChannel.cs:78-82 | different payloads give different frames |
| Wire.DecodeFrame | NetworkHelper/TcpCommunicationChannel.cs:137-146 | a decoded payload is exactly what a frame at the start of the stream carries; the only failures are a short stream and a negative size |
| Wire.DecodeEncodedFrame | NetworkHelper/TcpCommunicationChannel.cs:131-151 | decoding undoes encoding, whatever bytes follow the frame |
| Wire.TruncatedFrameFails | NetworkHelper/TcpCommunicationChannel.cs:139-146 | a frame cut anywhere short cannot be decoded |
| Wire.NegativeLengthFails | NetworkHelper/TcpCommunicationChannel.cs:143-144 | a size prefix with the sign bit set overflows the allocation |
| Wire.ReadBytes | P2PHelper/P2PSession.cs:212-213 | fills the whole buffer in place from the stream when enough bytes arrived, and otherwise fails leaving the buffer untouched |
| PeerInfo.UdpParticipantEquals | NetworkHelper/UdpManager.cs:173-177 | equal exactly to a non-null `UdpParticipantInformation` with the same host |
| PeerInfo.UdpManagerEquals | NetworkHelper/UdpParticipant.cs:154-158 | equal exactly to a non-null `UdpManagerInformation` with the same host |
| PeerInfo.DnssdParticipantEquals | NetworkHelper/DnssdManager.cs:170-174 | equal exactly to a non-null `DnssdParticipantInformation` with the same host |
| PeerInfo.DnssdManagerEquals | NetworkHelper/DnssdParticipant.cs:234-238 | equal exactly to a non-null `DnssdManagerInformation` with the same host and port |
| PeerInfo.Equals | NetworkHelper/SessionManager.cs:53 | virtual `Equals` on a stored descriptor coincides with value equality |
| PeerInfo.EqualsSymmetricAndClassStrict | NetworkHelper/SessionManager.cs:53 | `Equals` is symmetric; equal descriptors share a host; descriptors of different classes are never equal |
| AddressBook.ContainsValue | NetworkHelper/SessionManager.cs:53 | `Values.Contains(d)` holds exactly when `d` is among the stored values |
| AddressBook.Register | NetworkHelper/SessionManager.cs:50-62 | a descriptor is added under the fresh id, and announced, exactly when it is new and the id is unused; old entries are kept; uniqueness is preserved |
| AddressBook.Unregister | NetworkHelper/SessionManager.cs:45 | removal reports whether the id was present and drops only that entry, keeping uniqueness |
| AddressBook.EventsOf | NetworkHelper/SessionManager.cs:53-61 | one registration raises at most one announcement, and one exactly when it added an entry |
| AddressBook.RegisterTwice | NetworkHelper/SessionManager.cs:53 | registering the same peer a second time changes nothing and announces nothing |
| AddressBook.ReRegisterAfterRemoval | NetworkHelper/SessionManager.cs:45-62 | once its entry is removed, a peer is announced again under a new id |
| AddressBook.RegisterAllKeepsBookUnique | NetworkHelper/SessionParticipant.cs:58-73 | over any run of discoveries the book stays duplicate-free, keeps its entries, and ends with exactly the old values plus every discovered peer |
| AddressBook.RegisterAllAnnouncesNewKeys | NetworkHelper/SessionParticipant.cs:58-73 | every announcement names a key the run added |
| AddressBook.RegisterAllAnnouncesDistinctIds | NetworkHelper/SessionParticipant.cs:58-73 | no id is announced twice |
| AddressBook.RegisterAllAnnouncesEveryNewKey | NetworkHelper/SessionParticipant.cs:58-73 | every key the run added was announced |
| AddressBook.RegisterAllKeepsKeys | NetworkHelper/SessionParticipant.cs:58-73 | a run of registrations never loses a key |
| NetworkHelperSessions.SessionManager.constructor | NetworkHelper/SessionManager.cs:35 | starts with an empty participant dictionary and no events |
| NetworkHelperSessions.SessionManager.RemoveParticipant | NetworkHelper/SessionManager.cs:45 | the dictionary and the result are those of `Unregister`; no event |
| NetworkHelperSessions.SessionManager.AddParticipant | NetworkHelper/SessionManager.cs:50-62 | the dictionary becomes the `Register` result and the event log grows by its announcement |
| NetworkHelperSessions.SessionParticipant.constructor | NetworkHelper/SessionParticipant.cs:37 | starts with an empty manager dictionary and no events |
| NetworkHelperSessions.SessionParticipant.RemoveManager | NetworkHelper/SessionParticipant.cs:49-53 | `TryRemove`: the result says whether the id was present, and only that entry goes |
| NetworkHelperSessions.SessionParticipant.AddManager | NetworkHelper/SessionParticipant.cs:58-73 | `TryAdd` under the generated id; `ManagerFound` is raised only when the descriptor was new and the add succeeded |
| P2PHelperParticipant.SessionParticipant.constructor | P2PHelper/SessionParticipant.cs:43 | no managers, no events, no listener message |
| P2PHelperParticipant.SessionParticipant.RemoveManager | P2PHelper/SessionParticipant.cs:55 | the dictionary and the result are those of `Unregister` |
| P2PHelperParticipant.SessionParticipant.AddManager | P2PHelper/SessionParticipant.cs:60-72 | a new descriptor is added and announced once; a known one changes nothing |
| NetworkHelperUdp.UdpManager.constructor | NetworkHelper/UdpManager.cs:39-76 | not advertising; port 56788, group 237.1.3.37, message "Advertiser", interval 500 |
| NetworkHelperUdp.UdpManager.StartAdvertising | NetworkHelper/UdpManager.cs:91-108 | true exactly when idle before; then the socket is bound to the advertiser port and the timer runs at the interval |
| NetworkHelperUdp.UdpManager.StopAdvertising | NetworkHelper/UdpManager.cs:110-122 | true exactly when advertising before; afterwards neither socket nor timer exists |
| NetworkHelperUdp.UdpManager.Advertisement | NetworkHelper/UdpManager.cs:138-148 | a tick without a socket dereferences null; a failed output stream, write or flush is an I/O error; otherwise it sends the message as one line to the group, and a participant reads it back unchanged |
| NetworkHelperUdp.UdpManager.OnMessageFromParticipant | NetworkHelper/UdpManager.cs:153-165 | while advertising, the sender is registered with the datagram's first line as the message; otherwise nothing changes |
| NetworkHelperUdp.UdpManager.CreateCommunicationChannel | NetworkHelper/UdpManager.cs:128-133 | the channel targets the stored participant host; an unknown id is `KeyNotFound`; another descriptor class fails the cast |
| NetworkHelperUdp.UdpParticipant.constructor | NetworkHelper/UdpParticipant.cs:42-63 | not listening; port 56788, group 237.1.3.37, no listener message |
| NetworkHelperUdp.UdpParticipant.StartListening | NetworkHelper/UdpParticipant.cs:73-88 | true exactly when not listening before; then it is bound to the port and has joined the group |
| NetworkHelperUdp.UdpParticipant.StopListening | NetworkHelper/UdpParticipant.cs:93-106 | true exactly when listening before; afterwards there is no socket |
| NetworkHelperUdp.UdpParticipant.OnAdvertisement | NetworkHelper/UdpParticipant.cs:137-147 | while listening, the advertiser is registered as a manager with the first line as the message |
| NetworkHelperUdp.UdpParticipant.ConnectToManager | NetworkHelper/UdpParticipant.cs:111-122 | the join datagram goes to the stored manager host on the listener port and carries the listener message as one line; an unknown id, a wrong class or a missing socket throw, and a failed output stream, write or flush is an I/O error |
| NetworkHelperUdp.UdpParticipant.CreateCommunicationChannel | NetworkHelper/UdpParticipant.cs:128-132 | an unknown id throws; a descriptor of another class gives a channel with a null host |
| NetworkHelperDnssd.ServiceInstanceName | NetworkHelper/DnssdManager.cs:100 | the registered name is the instance name followed by "._p2phelper._tcp.local." |
| NetworkHelperDnssd.InstanceNameOf | NetworkHelper/DnssdManager.cs:100 | a full name yields an instance name exactly when it carries the service suffix |
| NetworkHelperDnssd.InstanceNameRoundTrip | NetworkHelper/DnssdManager.cs:100 | the instance name is recovered from the full service name, whatever it contains |
| NetworkHelperDnssd.AqsMatchesRegisteredService | NetworkHelper/DnssdParticipant.cs:101-102 | the watcher filters on the same service name and domain that the manager registers |
| NetworkHelperDnssd.TestConnection | NetworkHelper/DnssdParticipant.cs:205-226 | true exactly when the connect and the write both succeed, and then the probe line reached the host and port |
| NetworkHelperDnssd.JoinIsNotMistakenForProbe | NetworkHelper/DnssdManager.cs:157 | a participant's join line is dropped as a probe exactly when its message is the probe text |
| NetworkHelperDnssd.DnssdManager.constructor | NetworkHelper/DnssdManager.cs:46-66 | no listener, no service, instance name "DnssdManager", port 56788 |
| NetworkHelperDnssd.DnssdManager.StartAdvertising | NetworkHelper/DnssdManager.cs:91-111 | true exactly when neither listener nor service existed; then it is bound to the port and the service is registered under the full instance name |
| NetworkHelperDnssd.DnssdManager.StopAdvertising | NetworkHelper/DnssdManager.cs:117-130 | true exactly when both existed; afterwards neither exists |
| NetworkHelperDnssd.DnssdManager.OnConnection | NetworkHelper/DnssdManager.cs:146-163 | while listening, a first line other than the probe registers the sender with that line as the message |
| NetworkHelperDnssd.DnssdManager.CreateCommunicationChannel | NetworkHelper/DnssdManager.cs:136-141 | the channel targets the stored participant host; an unknown id or another class throws |
| NetworkHelperDnssd.DnssdParticipant.constructor | NetworkHelper/DnssdParticipant.cs:35-85 | no watcher, no managers, no listener message |
| NetworkHelperDnssd.DnssdParticipant.StartListening | NetworkHelper/DnssdParticipant.cs:145-165 | true exactly when there was no watcher; then a started watcher with the AQS filter and the property keys exists |
| NetworkHelperDnssd.DnssdParticipant.StopListening | NetworkHelper/DnssdParticipant.cs:170-181 | true exactly when a watcher existed; afterwards none does |
| NetworkHelperDnssd.DnssdParticipant.OnFoundService | NetworkHelper/DnssdParticipant.cs:186-200 | no address means `IndexOutOfRange`; the manager is registered exactly when probing the first address succeeded |
| NetworkHelperDnssd.DnssdParticipant.ConnectToManager | NetworkHelper/DnssdParticipant.cs:117-131 | connects to the stored manager's host and port and writes the listener message as one line; an unknown id or another class throws, a null message dereferences null, and a failed connect, write or flush is an I/O error |
| NetworkHelperDnssd.DnssdParticipant.CreateCommunicationChannel | NetworkHelper/DnssdParticipant.cs:136-140 | an unknown id throws; another class gives a null host; otherwise the stored host |
| NetworkHelperTcp.TcpCommunicationChannel.constructor | NetworkHelper/TcpCommunicationChannel.cs:40-60 | no sockets, port 56789, no remote host |
| NetworkHelperTcp.TcpCommunicationChannel.SendRemoteMessage | NetworkHelper/TcpCommunicationChannel.cs:71-90 | succeeds exactly with a host, a good connect, a serializable message and a stored frame; a failed store is an I/O error; on success one frame went to host:port and the socket was disposed; on failure nothing was sent and the socket stays |
| NetworkHelperTcp.TcpCommunicationChannel.StartListening | NetworkHelper/TcpCommunicationChannel.cs:97-108 | true exactly when not listening before and the bind succeeds, the listener then bound to the communication port; a failed bind is an I/O error that leaves an unbound listener in place, so later starts return false |
| NetworkHelperTcp.FailedBindBlocksRestart | NetworkHelper/TcpCommunicationChannel.cs:97-125 | after a failed bind, a second start reports false with nothing bound; after a stop, a start binds again |
| NetworkHelperTcp.TcpCommunicationChannel.StopListening | NetworkHelper/TcpCommunicationChannel.cs:114-126 | true exactly when listening before; afterwards there is no listener |
| NetworkHelperTcp.TcpCommunicationChannel.OnConnectionReceived | NetworkHelper/TcpCommunicationChannel.cs:131-151 | the outcome is the frame decoding of the stream, and a decoded payload is raised as `MessageReceived` |
| P2PHelperTcp.TcpCommunicationChannel.constructor | P2PHelper/TCPCommunicationChannel.cs:40 | no sockets, port 1338, no remote host |
| P2PHelperTcp.TcpCommunicationChannel.SendRemoteMessage | P2PHelper/TCPCommunicationChannel.cs:70-83 | succeeds exactly with a host, a good connect, a non-null message and a good write and flush; a failed write is an I/O error; on success `message + "\r\n"` went to host:port |
| P2PHelperTcp.TcpCommunicationChannel.StartListening | P2PHelper/TCPCommunicationChannel.cs:88-93 | keeps an existing listener, attaches the handler once more and binds again on every call; an I/O error exactly when that bind fails, the handler still attached; a successful bind leaves the listener bound |
| P2PHelperTcp.TcpCommunicationChannel.StopListening | P2PHelper/TCPCommunicationChannel.cs:98-108 | throws when not listening; otherwise no listener and no handlers remain |
| P2PHelperTcp.TcpCommunicationChannel.OnConnectionReceived | P2PHelper/TCPCommunicationChannel.cs:113-123 | the raised message is the first line of the inbound text |
| P2PHelperTcp.SentLineIsReceived | P2PHelper/TCPCommunicationChannel.cs:70-123 | what is sent arrives as its first line, and arrives whole exactly when it holds no line break |
| P2PSessionCore.FirstActive | P2PHelper/P2PSession.cs:101-107 | `FirstOrDefault`: the first active profile of the kind, or none if no profile qualifies |
| P2PSessionCore.ChooseProfile | P2PHelper/P2PSession.cs:95-110 | an active ethernet-like profile if any (the first one), else the first active WLAN profile, else an error |
| P2PSessionCore.EthernetPreferred | P2PHelper/P2PSession.cs:100-107 | any active ethernet-like profile, wherever it is listed, beats every WLAN profile |
| P2PSessionCore.SendMessage | P2PHelper/P2PSession.cs:138-166 | a null or empty host or port throws; true exactly when the connect and the serializer succeed; what was written is the frame minus any part whose write failed |
| P2PSessionCore.Retrieve | P2PHelper/P2PSession.cs:168-181 | fails exactly on a negative size; otherwise a buffer of the declared size; equal to the frame decoding whenever that succeeds |
| P2PSessionCore.SendThenRetrieve | P2PHelper/P2PSession.cs:138-181 | a fault-free send is retrieved intact by the other side |
| P2PSessionCore.RetrieveMessage | P2PHelper/P2PSession.cs:168-220 | the two buffered reads compute exactly `Retrieve` |
| P2PSessionCore.P2PSession.constructor | P2PHelper/P2PSession.cs:90-93 | the settings are stored; no profile, no socket, no events |
| P2PSessionCore.P2PSession.InitializeNetworkInfo | P2PHelper/P2PSession.cs:95-110 | stores the chosen profile; the call throws exactly when none qualifies |
| P2PSessionCore.P2PSession.InitializeMulticast | P2PHelper/P2PSession.cs:112-131 | a socket always exists afterwards; true exactly when binding and joining both succeeded |
| P2PSessionCore.P2PSession.OnConnectionComplete | P2PHelper/P2PSession.cs:239-242 | one `ConnectionComplete` event with the id |
| P2PSessionCore.P2PSession.OnMessageReceived | P2PHelper/P2PSession.cs:244-247 | one `MessageReceived` event with the payload and the id |
| P2PSessionHostSide.StartTimer | P2PHelper/P2PSessionHost.cs:76-80 | a new running timer is added and the old ones are untouched |
| P2PSessionHostSide.StopTimer | P2PHelper/P2PSessionHost.cs:82-86 | only the newest timer is stopped |
| P2PSessionHostSide.Running | P2PHelper/P2PSessionHost.cs:76-86 | at most one running timer per timer created |
| P2PSessionHostSide.RestartLeaksTimer | P2PHelper/P2PSessionHost.cs:76-86 | starting twice and stopping once leaves one extra heartbeat timer running, no longer referenced, until it is collected |
| P2PSessionHostSide.P2PSessionHost.constructor | P2PHelper/P2PSessionHost.cs:45-49 | a listener, no clients, not accepting, no timers |
| P2PSessionHostSide.P2PSessionHost.Dispose | P2PHelper/P2PSessionHost.cs:51-55 | clears the listener; a second call dereferences null |
| P2PSessionHostSide.P2PSessionHost.CreateP2PSession | P2PHelper/P2PSessionHost.cs:57-68 | false once disposed and `NotSupported` for other session types, both with the host flag, attached handlers, profile and multicast state unchanged; otherwise becomes host and attaches the connection handler once more; a failed listener bind is an I/O error with the profile untouched; otherwise the chosen profile is stored, it throws without one (multicast untouched), and reports whether multicast started |
| P2PSessionHostSide.P2PSessionHost.RemoveClient | P2PHelper/P2PSessionHost.cs:70-73 | true exactly when the id was admitted; only that client goes |
| P2PSessionHostSide.P2PSessionHost.StartAcceptingConnections | P2PHelper/P2PSessionHost.cs:76-80 | accepting, plus one new running timer |
| P2PSessionHostSide.P2PSessionHost.StopAcceptingConnections | P2PHelper/P2PSessionHost.cs:82-86 | not accepting; the newest timer stops; null dereference when no timer was ever started |
| P2PSessionHostSide.P2PSessionHost.GetGuid | P2PHelper/P2PSessionHost.cs:104-108 | the id of the admitted client with the same address, or the empty id exactly when there is none |
| P2PSessionHostSide.P2PSessionHost.OnConnectionReceived | P2PHelper/P2PSessionHost.cs:88-102 | while accepting, an unknown address is admitted under the fresh id with one `ConnectionComplete`; the message is raised with the sender's id, which is empty for a non-admitted sender; a negative size changes nothing; the host flag, profile and multicast state never change |
| P2PSessionHostSide.SecondCreateAttachesHandlerAgain | P2PHelper/P2PSessionHost.cs:57-68 | two successful creations leave the connection handler attached twice |
| P2PSessionHostSide.P2PSessionHost.SendMessage | P2PHelper/P2PSessionHost.cs:120-128 | false for an unknown id; otherwise the base send to the client's address and the TCP port, true exactly when the connect and the serializer succeed, and with no failed write the whole frame is written |
| P2PSessionHostSide.P2PSessionHost.SendMessageToAll | P2PHelper/P2PSessionHost.cs:130-136 | throws exactly when some client's send throws; otherwise true exactly when every send succeeded |
| P2PSessionClientSide.P2PSessionClient.constructor | P2PHelper/P2PSessionClient.cs:40-43 | a listener, no host, nothing listening |
| P2PSessionClientSide.P2PSessionClient.Dispose | P2PHelper/P2PSessionClient.cs:45-49 | clears the listener; a second call dereferences null |
| P2PSessionClientSide.P2PSessionClient.ListenForP2PSession | P2PHelper/P2PSessionClient.cs:51-71 | returns at once once disposed and `NotSupported` for other types, both with the attached handlers, multicast listening, host flag, profile and multicast state unchanged; otherwise attaches the connection handler once more; a failed listener bind is an I/O error with the profile untouched; otherwise the chosen profile is stored, it throws without one (multicast untouched), and starts the multicast latch, the multicast socket then existing and joined exactly when listening; no connection is ever completed |
| P2PSessionClientSide.P2PSessionClient.OnMulticastMessage | P2PHelper/P2PSessionClient.cs:63-70 | the first heartbeat latches its sender and raises `HostAvailable`; later ones change nothing |
| P2PSessionClientSide.P2PSessionClient.OnConnectionReceived | P2PHelper/P2PSessionClient.cs:58-59 | a retrieved message is raised with the empty id; nothing else in the session changes |
| P2PSessionClientSide.P2PSessionClient.SendMessage | P2PHelper/P2PSessionClient.cs:74-78 | throws before any host is latched; otherwise sends to the latched host on the TCP port, true exactly when the connect and the serializer succeed, and with no failed write the whole frame is written |
| P2PSessionClientSide.LatchKeepsFirstHost | P2PHelper/P2PSessionClient.cs:63-70 | over any run of heartbeats the latched host is the first sender |
| P2PSessionClientSide.LatchAppend | P2PHelper/P2PSessionClient.cs:63-70 | heartbeats handled one by one latch as the whole run does |
| P2PSessionClientSide.LatchOfLatched | P2PHelper/P2PSessionClient.cs:65 | a latched host is never replaced |
| QuizGame.AnswerFor | Model/Game.cs:104-107 | a question has a stored answer exactly when its key is in the table, and then it is that entry's answer |
| QuizGame.SetAnswer | Model/Game.cs:71 | the indexer set stores the answer for that question only, keeps the other answers and the key order, and appends a new key |
| QuizGame.NoKeyNoAnswer | Model/Game.cs:104-107 | a question without a key has no answer |
| QuizGame.PositionalScore | Model/Game.cs:101-108 | the score as written: at most the number of answers and of questions |
| QuizGame.Score | Model/Game.cs:99-111 | the intended score: at most the number of questions |
| QuizGame.PositionalScoreMisalignsAfterSkip | Model/Game.cs:104-108 | after a skipped first question, a right second answer scores 0 positionally and a wrong one scores 1 |
| QuizGame.ScoresAgreeInOrder | Model/Game.cs:104-108 | when every question was answered in order, the positional score equals the intended one |
| QuizGame.ScoreOfEmptyTable | Model/Game.cs:99-111 | a player with no answers scores 0 |
| QuizGame.ScoreAfterSetAnswer | Model/Game.cs:71 | storing an answer changes the score by that question alone |
| QuizGame.Aggregate | Model/Game.cs:135 | the winning row has the highest score and is the last of the rows with that score |
| QuizGame.Results | Model/Game.cs:99-111 | one row per player with a table, in table order, scored by `Score` |
| QuizGame.ResultsAgreeInOrder | Model/Game.cs:99-111 | when every table was filled in question order, the rows as written (positional scores) equal the corrected rows |
| QuizGame.Game.GetResultsAgreeInOrder | Model/Game.cs:99-111 | while every player answered in order and no further, `GetResults` equals the rows as written |
| QuizGame.RemovePlayerAnswers | Model/Game.cs:62 | `Dictionary.Remove`: only that player's table goes and the names stay distinct |
| QuizGame.StoreAnswer | Model/Game.cs:71 | only that player's answer to the question changes, and the player keeps its row |
| QuizGame.Game.constructor | Model/Game.cs:40-46 | the questions are stored; no players; index -1; nothing announced |
| QuizGame.Game.CurrentQuestion | Model/Game.cs:122-130 | the question at the index while the index is in range, else null |
| QuizGame.Game.IsGameOver | Model/Game.cs:133 | never over before the game starts (index -1); an over game has no current question; once started, it is over exactly when there is no current question |
| QuizGame.PlayRounds | Model/Game.cs:76-133 | after `StartGame` and `k` calls of `NextQuestion` the game is over exactly when `k` reaches the number of questions, and each question was announced in turn, then null |
| QuizGame.Game.AddPlayer | Model/Game.cs:48-56 | a listed name gets "." appended; the list always grows; the table insert throws exactly when the stored name already has a table |
| QuizGame.Game.RemovePlayer | Model/Game.cs:58-66 | only a listed name is removed (its first occurrence), together with its table |
| QuizGame.Game.SubmitAnswer | Model/Game.cs:68-74 | false without a name or a current question; `KeyNotFound` for a player without a table; otherwise true and that player's answer to the current question is set |
| QuizGame.Game.StartGame | Model/Game.cs:76-80 | index 0, and the current question is announced |
| QuizGame.Game.NextQuestion | Model/Game.cs:82-97 | the index moves on by one, and the new current question (null past the end) is announced |
| QuizGame.Game.GetResults | Model/Game.cs:99-111 | one row per player table, scored by the questions answered correctly |
| QuizGame.Game.Winner | Model/Game.cs:134-135 | null until the game is over; then, with players, always a winner: the last player with the highest score; `InvalidOperation` with no players |
| QuizGame.ScoresMatchCorrectAnswerCounts | QuizGameTests/QuizGameTests.cs:51-76 | scores (1, 0) after the first question and (2, 1) at the end |
| QuizGame.WinnerIsPlayerWithHighestScoreWhenGameIsOver | QuizGameTests/QuizGameTests.cs:79-101 | no winner before the end; "Player One" at the end |
| QuizGame.GameIsOverAfterLastQuestion | QuizGameTests/QuizGameTests.cs:104-114 | over after exactly two `NextQuestion` calls |
| QuizGame.FailingToAnswerResultsInNoScore | QuizGameTests/QuizGameTests.cs:117-134 | the score stays 1 when the second question is left unanswered |
| QuizGame.PlayerCannotPlayWithoutFirstJoiningGame | QuizGameTests/QuizGameTests.cs:137-147 | `KeyNotFound` before joining, accepted after |
| QuizGame.PlayerCannotPlayAfterLeavingGame | QuizGameTests/QuizGameTests.cs:150-162 | `KeyNotFound` after leaving |
| QuizGame.PlayerCannotSubmitAnswerWhenGameIsOver | QuizGameTests/QuizGameTests.cs:165-179 | accepted during the game, refused without error after it |
| QuizGame.SkippedQuestionStillScores | Model/Game.cs:99-111 | skipping the first question and answering the second correctly scores 1 (the positional rule gives 0) |
| QuizHost.JoinRoster | Model/HostCommunicator.cs:142-151 | a new name is tied to the id; a known name keeps its id |
| QuizHost.LeaveUndoesJoin | Model/HostCommunicator.cs:104-151 | a departure after a first join restores the roster |
| QuizHost.JoinAllFirstComeFirstServed | Model/HostCommunicator.cs:142-151 | after any run of joins, the roster names exactly the old and joined players, each tied to its first join's id |
| QuizHost.HostCommunicator.constructor | Model/HostCommunicator.cs:65-102 | a fresh manager with no participants; empty roster, channels and events |
| QuizHost.HostCommunicator.OnParticipantConnected | Model/HostCommunicator.cs:67-80 | the channel is created first (a lookup failure stops there); a null message throws; otherwise the name joins the roster |
| QuizHost.HostCommunicator.OnPlayerJoined | Model/HostCommunicator.cs:142-151 | the roster becomes `JoinRoster`; `PlayerJoined` is raised only for a new name |
| QuizHost.HostCommunicator.OnPlayerDeparted | Model/HostCommunicator.cs:104-109 | `PlayerDeparted` is raised; the participant leaves the manager and the name leaves the roster |
| QuizHost.HostCommunicator.OnAnswerReceived | Model/HostCommunicator.cs:111-118 | one `AnswerReceived` with the name and the answer |
| QuizHost.HostCommunicator.OnMessageReceived | Model/HostCommunicator.cs:82-101 | a non-command throws; the ordinal selects no-op, leave or answer, and anything else is out of range; leave and answer throw exactly for an unknown name |
| QuizHost.HostCommunicator.SendQuestion | Model/HostCommunicator.cs:128-137 | succeeds exactly when every mapped player is reachable and its frame is stored, and then each received the question frame at its participant's host on the TCP port |
| QuizMockHost.MockClient.constructor | Model/MockClientCommunicator.cs:66-67 | no statuses and no questions; the handler is attached as given |
| QuizMockHost.MockClient.OnHostJoinStatusMessageReceived | Model/MockClientCommunicator.cs:74-77 | with no handler the event dereferences null; otherwise the status is delivered |
| QuizMockHost.MockClient.OnNewQuestionAvailable | Model/MockClientCommunicator.cs:69-72 | the question is delivered |
| QuizMockHost.MockHostCommunicator.constructor | Model/MockHostCommunicator.cs:33-36 | both clients are stored; no names |
| QuizMockHost.MockHostCommunicator.SendQuestion | Model/MockHostCommunicator.cs:49-54 | both clients receive the question; their join statuses and handlers are untouched |
| QuizMockHost.MockHostCommunicator.OnPlayerJoined | Model/MockHostCommunicator.cs:58-70 | a new name is admitted and announced; the client is told whether it was new |
| QuizMockHost.MockHostCommunicator.OnPlayerDeparted | Model/MockHostCommunicator.cs:74-80 | an admitted name is removed and announced; no other name changes |
| QuizMockHost.MockHostCommunicator.OnAnswerReceived | Model/MockHostCommunicator.cs:84-88 | the answer is forwarded unchanged |
| QuizMockHost.JoinThenLeaveRestoresList | Model/MockHostCommunicator.cs:58-80 | admitting a new name and letting it leave restores the list |
| QuizMockHost.SameNameJoinsOnce | Model/MockHostCommunicator.cs:58-70 | of two joins under one name, only the first is admitted |

## Left out

- Bind and register failures of the UDP and DNS-SD start methods: the sockets are assumed to bind. The TCP channels' and the P2P session listeners' binds take a failure parameter.
- NetworkHelperTcp.TcpCommunicationChannel.SendRemoteMessage: a store that fails part-way may have delivered part of the frame; the model records nothing as sent.
- P2PHelperTcp.TcpCommunicationChannel.SendRemoteMessage: a write or flush that fails part-way may have delivered part of the line; the model records nothing as sent.
- P2PHelperTcp.TcpCommunicationChannel.StartListening: whether the platform refuses a second bind of a bound listener is not known to the model; the caller's `bindFails` decides it.
- P2PSessionHostSide.RestartLeaksTimer: the leaked timer is counted as running for good; its collection by the garbage collector is not modelled.
- QuizGame.Game.GetResults: scores each table with the corrected `Score`, not the positional score the source computes; `QuizGame.PositionalResults` is the source's rows, and `QuizGame.Game.GetResultsAgreeInOrder` proves the two agree while players answer in question order.
- QuizGame.Game.Winner: picks the winner from the corrected rows of `GetResults`; the source compares positional scores, which differ from the corrected ones after a skipped question (see Findings); the two agree while players answer in question order.
- Concurrency and `async` interleavings: every handler runs to completion, one at a time.
- `Task.WhenAll` in `SendQuestionAsync` is sequential in the model.
- The JSON/`DataContract` serializers: a serialized message is an opaque byte string, or `None` when serialization fails.
- Encoding: text lines are character sequences, with no UTF-8 encoding.
- Insertion order of a .NET `Dictionary` after a `Remove`: answer tables are kept in insertion order, and the reuse of freed slots is not modelled.
- `DataReader.LoadAsync` with `InputStreamOptions.Partial` returning fewer bytes than are available: a load returns everything up to the requested count.
- Null player names in `Game.AddPlayer`/`RemovePlayer` and in `HostCommand.PlayerName`: names are strings. A null name for `SubmitAnswer` is modelled.
- The `Game` constructor's `ArgumentNullException` for a null question list: the list is a value.
- `Game.NextQuestion`: the 32-bit wrap-around of the question index after 2^31 calls.
- `HostCommunicator.EnterLobbyAsync`/`LeaveLobby` only forward to the manager and the channel, whose operations are modelled.
- `MockHostCommunicator.EnterLobbyAsync` polls the clients until they have handlers; polling and `LeaveLobby` (empty) are not modelled.
- `ClientCommunicator` and the rest of `MockClientCommunicator` are outside the core. Only the two mock handlers that the mock host calls are modelled.
- `P2PSessionHost.SendMulticastMessage`: the heartbeat's content and the timer callback, and the `P2PClient.name` field that is never set.
- `Question`, `HostCommand` and `Command` live in QuizGame.Common, which is not part of this model:
  - questions are told apart by their position, so the same `Question` object listed twice is not modelled;
  - the `Command` ordinals are taken as Join 0, Leave 1, Answer 2.
- `Guid.NewGuid()` collisions: a caller-supplied fresh id stands in for it, and some operations require it to be unused.
- QuizHost.HostCommunicator.SendQuestion: on failure the result does not say which other sends still went out, and the kind of exception is folded into `Failure("send")`.
- QuizHost.HostCommunicator.OnMessageReceived: a message that fails to deserialize is folded into the `None` command, and the `(int)QuestionAnswer` cast is not modelled.
- QuizMockHost.MockHostCommunicator.SendQuestion: requires the two clients to be different objects.
- P2PSessionHostSide.P2PSessionHost.OnConnectionReceived: each call of `CreateP2PSession` attaches the handler once more (counted in `handlers`); with several attachments each inbound connection runs the handler once per attachment, and the model covers one run.
- P2PSessionClientSide.P2PSessionClient.OnConnectionReceived: likewise for `ListenForP2PSession`; the model covers one run of the handler however many times it is attached.
- P2PHelperTcp.TcpCommunicationChannel.OnConnectionReceived: a listener with the handler attached more than once raises the event once per attachment; the model covers a single attachment.

## Findings

| source | as written | input that shows it | evidently intended | confidence | as-written member | corrected member |
|---|---|---|---|---|---|---|
| Model/Game.cs:101-108 | the score zips a player's stored answers, in insertion order, with the correct answers in question order | two questions with correct answers 0 and 1; the player lets the first pass and answers the second with 1 | the player scores 1 (each question compared with its own stored answer); as written the score is 0, and answering 0 instead scores 1 | not executed | QuizGame.PositionalScoreMisalignsAfterSkip | QuizGame.ScoreAfterSetAnswer |

The corrected `QuizGame.Score` is what `QuizGame.Game.GetResults` and `QuizGame.Game.Winner` use; `QuizGame.PositionalResults` keeps the rows as written beside them. `QuizGame.ScoresAgreeInOrder` proves that the two scores agree whenever a player answered the questions in order, as in every scenario of `QuizGameTests.cs`.
