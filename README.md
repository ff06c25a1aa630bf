# simple-tcp-over-udp, modelled in Dafny

simple-tcp-over-udp is a request/response protocol carried in UDP datagrams.
A client opens a connection with a SYN/SYN_ACK exchange. It then asks the
server either to evaluate an arithmetic expression (EXPR_REQ → EXPR_RES) or
to send a file. A file comes back line by line as FILE_DATA packets closed by
FILE_END, or as a single FILE_ERR when the file is missing. The client
acknowledges each FILE_DATA with a DATA_ACK and saves the lines it received.

Every packet travels as the text `type|seq|ack|window|payload`. The server
keeps one `ConnectionState` per client, keyed by `"<dotted IPv4>:<port>"`.

This project models that logic and proves what it does:

- `text.dfy` (module `Text`): the pieces of the C++ standard library the
  codec relies on, written out.
  - Decimal output of an unsigned number.
  - `std::stoi`: leading white space, an optional sign, the longest run of
    digits, the `int` range check, and its two exceptions.
  - `std::string::find`.
  - `std::getline` over an `istringstream`: a class holding the stream's
    position and its good bit.
- `packet.dfy` (module `Packets`, packet.hpp): the ten packet types,
  `parsePacketType`, `to_string`, `serialize`, and `deserialize`.
  - `deserialize` is an imperative method over the stream class, proved
    equal to the function `Decode`.
  - The round trip is proved, and so is every way decoding departs from it.
- `protocol.dfy` (module `Protocol`, protocol.cpp): the SYN_ACK builder, the
  file reply and the expression reply.
  - `HandleFileRequest` is the source's loop, proved equal to the closed form
    `FileResponse`.
- `server.dfy` (module `Server`, server.cpp): `getClientKey`, and one pass of
  the receive loop as the class `Server`.
  - The class holds the connection table. Its method `Step` is proved equal
    to the function `Dispatch`.
  - Lemmas cover each dispatch rule and what any sequence of datagrams does
    to the table.
- `client.dfy` (module `Client`, client.cpp): the packets the client builds,
  the handshake decision, the client id, the file receive loop
  (`ReceiveFile`) and the writing of the saved file (`SaveFile`).
  - Both methods are proved equal to specification functions.
- `scenarios.dfy` (module `Scenarios`): whole exchanges.
  - A packet the server sends crosses the wire intact when its seq and ack
    are below 2^31 and its payload holds no newline.
  - Under those bounds, the client learns its port from the SYN_ACK.
  - It saves exactly the lines of a requested file, with one DATA_ACK per
    line.
  - It shows the text of an expression's result.

## Model

| member | source | states |
|---|---|---|
| Text.Decimal | packet.hpp:35 | the decimal text of a number is non-empty, all digits, and has no leading zero |
| Text.DigitsValueOfDecimal | packet.hpp:35 | reading a number's decimal text back gives the number |
| Text.DecimalInjective | server.cpp:14 | different numbers are written as different texts |
| Text.SkipSpaces | packet.hpp:45 | stoi's skipped prefix is all white space and what remains starts with none |
| Text.LeadingDigits | packet.hpp:45 | stoi reads the longest run of digits and stops at the first non-digit |
| Text.Stoi | packet.hpp:45-54 | a successful result always lies within the range of int (what it reads and throws is stated by StoiDecimal, StoiNegative and the Packets.DecodeRejects lemmas) |
| Text.StoiDecimal | packet.hpp:48 | the decimal text of n reads back as n up to INT_MAX and throws out_of_range above it |
| Text.StoiNegative | packet.hpp:48 | "-" followed by the decimal text of n reads as -n down to INT_MIN |
| Text.LeadingDigitsOfDigits | packet.hpp:45 | an all-digit text is read whole |
| Text.IndexOf | protocol.cpp:83 | find returns the first position of the character |
| Text.IndexOfUnique | protocol.cpp:83 | any position holding the character with none before it is the one find returns |
| Text.IndexOfSplit | protocol.cpp:83 | in a + c + b with no c in a, find returns \|a\| |
| Text.NextToken | packet.hpp:44-56 | getline on a failed stream leaves the token unchanged; otherwise it takes the text up to the delimiter, or the rest of the text while setting eof |
| Text.NextTokenSplit | packet.hpp:44-53 | getline on a + delim + b returns a and leaves b, the stream still good |
| Text.InputStream.constructor | packet.hpp:40 | a new istringstream is good and holds the whole text |
| Text.InputStream.GetLine | packet.hpp:44-56 | the scan over the stream's buffer yields exactly NextToken's token and new stream state |
| Packets.ToU32 | packet.hpp:48-51 | the int to uint32_t conversion is the identity on [0, 2^32) and adds 2^32 to a negative int |
| Packets.ToU16 | packet.hpp:54 | the int to uint16_t conversion is the identity on [0, 2^16) |
| Packets.Ordinal | packet.hpp:6-17 | each type's ordinal is below 10 |
| Packets.ParsePacketType | packet.hpp:19-24 | succeeds exactly for 0..9 and returns the type with that ordinal; any other value throws invalid_argument "Invalid PacketType value" |
| Packets.ParseOrdinal | packet.hpp:19-24 | parsing a type's ordinal gives the type back |
| Packets.TypeName | packet.hpp:62-76 | every name is at least three characters long; Packets.TypeNamesDistinct states that names tell types apart |
| Packets.TypeNamesDistinct | packet.hpp:62-76 | different types have different names |
| Packets.SerializeLayout | packet.hpp:33-37 | serialize writes a header closed by '\|' with no newline in it, then the payload unchanged; getline splits that header back into the decimals of type, seq, ack and window and the payload's first line |
| Packets.SerializeDelimiters | packet.hpp:33-37 | the text holds exactly four '\|' more than the payload does |
| Packets.NoDelimiterInDecimal | packet.hpp:35 | no numeric field contains '\|' or a newline |
| Packets.FirstLine | packet.hpp:56 | the payload read is the text before its first newline, or all of it |
| Packets.SplitTokens | packet.hpp:44-56 | no field getline returns holds a '\|' and the payload holds no newline; a datagram without '\|' gives itself as every numeric field and an empty payload |
| Packets.ConvertOrder | packet.hpp:44-45 | the type field's stoi exception comes first, then parsePacketType's "Invalid PacketType value" |
| Packets.ConvertNumbers | packet.hpp:47-54 | once the stoi results are known, seq's exception comes before ack's; otherwise the numbers are reduced to uint32_t and uint16_t and the payload passes unchanged |
| Packets.DecodeEmpty | packet.hpp:44-45 | an empty datagram is rejected with invalid_argument "stoi" |
| Packets.Deserialize | packet.hpp:39-59 | the four getline/stoi steps and the last getline give exactly Decode, errors included |
| Packets.SplitFields | packet.hpp:44-56 | four '\|'-free fields are cut at the first four '\|'; the payload keeps any later '\|' and stops at a newline |
| Packets.ConvertDecimalFields | packet.hpp:45-54 | the decimal fields of a packet convert back to it when seq and ack are at most INT_MAX, and throw out_of_range otherwise |
| Packets.DecodeSerialize | packet.hpp:33-59 | decoding a serialized packet with seq and ack up to INT_MAX gives it back with the payload cut at the first newline |
| Packets.RoundTrip | packet.hpp:33-59 | deserialize(serialize(p)) == p when the payload has no newline and seq and ack are below 2^31 |
| Packets.DecodeSerializeOutOfRange | packet.hpp:48-51 | a packet whose seq or ack is 2^31 or more fails to decode from its own text with out_of_range |
| Packets.DecodeRejectsUnknownType | packet.hpp:44-45 | a type field of 10 .. INT_MAX throws invalid_argument |
| Packets.DecodeRejectsNonNumericType | packet.hpp:44-45 | a type field with no digits throws invalid_argument "stoi" |
| Packets.ShortDatagramReusesLastField | packet.hpp:44-54 | "4\|7" decodes with seq, ack and window all 7, because getline leaves the token unchanged once the stream has failed |
| Packets.ConvertRepeatedField | packet.hpp:44-54 | a type text followed by one number's text in all three numeric fields converts to that type with seq, ack and window all that number |
| Packets.NegativeSeqWraps | packet.hpp:47-48 | a seq field of -1 is accepted and becomes 4294967295 |
| Protocol.SeqAdd | protocol.cpp:109 | the uint32_t sum is the plain sum below 2^32 and wraps by 2^32 above it |
| Protocol.SeqAddStep | protocol.cpp:97 | one more `server_seq++` after k is the same as advancing by k + 1 |
| Protocol.SeqAddNoWrap | protocol.cpp:109 | advancing below 2^32 is plain addition |
| Protocol.HandleHandshake | protocol.cpp:72-87 | a SYN_ACK with seq 200, ack = the SYN's seq and the connection's window; the payload is "client:" + the key after its first ':', or + the whole key when it has none |
| Protocol.FileResponse | protocol.cpp:89-126 | the reply is one packet for a missing file and one per line plus one for a file; it ends with FILE_ERR or FILE_END respectively, and server_seq advances by the packet count mod 2^32 |
| Protocol.HandleFileRequest | protocol.cpp:89-126 | the loop's packets and the new state are exactly FileResponse's |
| Protocol.HandleExpression | protocol.cpp:128-141 | one EXPR_RES numbered with the old server_seq, acknowledging client_seq, and server_seq advanced by one |
| Protocol.FileResponseNumbered | protocol.cpp:96-123 | the reply is numbered consecutively from the old server_seq mod 2^32, every packet carries client_seq and the window, and only server_seq changes, by the packet count |
| Protocol.ExpressionNumbered | protocol.cpp:134-139 | the same numbering holds for the expression reply |
| Protocol.FileResponseMissing | protocol.cpp:95-103 | a missing file gives exactly one FILE_ERR "File not found" numbered with the old server_seq |
| Protocol.FileResponseLines | protocol.cpp:106-125 | n lines give n FILE_DATA packets carrying the lines in order, then one empty FILE_END |
| Protocol.NumberedIncreasing | protocol.cpp:109 | without wrap-around the reply's seqs strictly increase |
| Protocol.FileResponseWraps | protocol.cpp:109-118 | a FILE_DATA sent at server_seq 2^32 - 1 is followed by a FILE_END numbered 0 |
| Server.DottedQuad | server.cpp:12-13 | the address text contains no ':' |
| Server.ClientKey | server.cpp:11-15 | the key is the dotted address, its first ':', then the decimal port |
| Server.DottedQuadInjective | server.cpp:12-13 | distinct IPv4 addresses are written as distinct dotted texts |
| Server.ClientKeyDistinguishesPorts | server.cpp:11-15 | equal keys mean equal ports and equal addresses, so two sockets never share a connection entry |
| Server.NewConnection | server.cpp:57 | the record for a new client carries the SYN's seq, server_seq 1000, window 1024 and a pending handshake |
| Server.Server.constructor | server.cpp:34 | the table starts empty |
| Server.Server.Step | server.cpp:54-107 | one dispatch updates the table and returns the packets sent exactly as Dispatch says |
| Server.Server.Receive | server.cpp:44-107 | an empty datagram is skipped with the table untouched; a datagram that fails to decode yields its exception with the table untouched; one that decodes is dispatched |
| Server.SynFromUnknown | server.cpp:55-64 | a SYN from an unknown key inserts {pkt.seq, 1000, 1024, false} and sends exactly one SYN_ACK acknowledging the SYN |
| Server.NonSynFromUnknownDropped | server.cpp:65-68 | anything else from an unknown key sends nothing and leaves the table as it was |
| Server.AckCompletesHandshake | server.cpp:74-78 | an ACK on a pending handshake sets the flag, changes nothing else, and sends nothing |
| Server.RequestsServedWithoutHandshake | server.cpp:80-94 | EXPR_REQ and FILE_REQ are answered whether or not the handshake is done; a FILE_REQ sends the file reply in order |
| Server.OthersIgnored | server.cpp:96-102 | DATA_ACK, a repeated SYN, an ACK after the handshake and every other type leave the table unchanged and send nothing |
| Server.DispatchKeys | server.cpp:55-103 | a step adds an entry exactly when an unknown key sends a SYN, and sends nothing to a key without an entry |
| Server.DispatchEvolves | server.cpp:55-94 | a step touches only the sender's entry, only adds keys, keeps client_seq and the window, and never clears the handshake flag |
| Server.EvolvesTransitive | server.cpp:39-108 | those guarantees compose across steps |
| Server.RunEvolves | server.cpp:39-108 | over any sequence of datagrams, entries are never removed or reset |
| Server.RunKeys | server.cpp:39-108 | every entry the loop adds belongs to a key that some datagram came from |
| Server.ClientTrafficNeverCompletesHandshake | server.cpp:74-78 | traffic of SYN, EXPR_REQ, FILE_REQ and DATA_ACK alone never sets a handshake flag |
| Client.ExpressionRequest | client.cpp:50 | the request is an EXPR_REQ carrying the typed expression with window 1024 |
| Client.FileRequest | client.cpp:66 | the request is a FILE_REQ carrying the typed file name with window 1024 |
| Client.RequestsCrossWire | client.cpp:31-32 | the SYN decodes on the server exactly as built, and each request decodes with its typed text cut at the first newline |
| Client.DataAck | client.cpp:87-93 | the DATA_ACK for a FILE_DATA acknowledges its seq, has window 1024 and an empty payload |
| Client.DataAckSeq | client.cpp:88 | its seq is the FILE_DATA's seq plus the payload length mod 2^32, for any payload |
| Client.PerformHandshake | client.cpp:29-43 | a SYN_ACK's payload is accepted; any other reply gives "" |
| Client.ClientId | client.cpp:128-133 | the text after the first ':' when that text is non-empty, "unknown" otherwise |
| Client.StartSession | client.cpp:122-133 | the client stops exactly when the reply is not a SYN_ACK or has an empty payload, and otherwise goes on with ClientId of the payload |
| Client.ClientIdOfHandshakeText | client.cpp:128-133 | "client:" + a non-empty port yields the port as id |
| Client.ExpressionOutcome | client.cpp:53-58 | the result is shown exactly for an EXPR_RES reply, and it is that reply's payload |
| Client.FirstStop | client.cpp:72-101 | the loop leaves at the first FILE_ERR, FILE_END or late packet; none before it stops the loop |
| Client.DataPackets | client.cpp:84-85 | only FILE_DATA packets become chunks |
| Client.Handled | client.cpp:84-95 | a handled FILE_DATA adds its packet at the end; any other type adds nothing |
| Client.Appended | client.cpp:85-94 | one more FILE_DATA appends its payload to the chunks and its DATA_ACK to the acks |
| Client.Collect | client.cpp:72-101 | the client is still waiting exactly when no arrival stops the loop, and unless the file was reported missing every chunk kept has exactly one DATA_ACK |
| Client.CollectAt | client.cpp:75-100 | leaving at a FILE_ERR saves nothing; at a FILE_END the chunks before it are saved; after a late packet the chunks up to and including it are saved |
| Client.CollectAll | client.cpp:72-73 | with no stop the client is still waiting, holding every chunk |
| Client.NoStopsExtend | client.cpp:72-101 | a packet that does not stop the loop keeps the loop going |
| Client.ReceiveFile | client.cpp:72-101 | the receive loop's chunks, acks and ending are exactly Collect's |
| Client.Join | client.cpp:109-111 | the saved content is empty exactly when there are no chunks, and otherwise ends with a newline |
| Client.JoinAppend | client.cpp:110 | writing one more chunk appends the chunk and a newline |
| Client.SaveFile | client.cpp:109-111 | the written content is every chunk followed by a newline, in order |
| Protocol.ReadLines | protocol.cpp:106-107 | the lines `while (getline(file, line))` yields: at most one per character, none holding a newline |
| Client.ReadLinesJoin | client.cpp:109-111 | reading a saved file back line by line gives the chunks again when none contains a newline |
| Client.JoinLength | client.cpp:109-111 | the saved file is as long as the chunks plus one newline each |
| Client.PayloadsOf | client.cpp:85 | the i-th chunk is the i-th FILE_DATA's payload |
| Client.AcksOf | client.cpp:87-94 | the i-th DATA_ACK is the one built for the i-th FILE_DATA |
| Client.AllDataKept | client.cpp:84-85 | a run of FILE_DATA packets is kept whole and in order |
| Client.FirstStopAt | client.cpp:75-100 | the first stopping packet is where the loop leaves |
| Client.EndSavesChunks | client.cpp:80-82 | a FILE_END saves the chunks received before it |
| Client.ErrorDiscardsChunks | client.cpp:75-78 | a FILE_ERR ends the request with nothing saved, even after data |
| Client.TimeoutSavesPartial | client.cpp:97-100 | when time runs out on a FILE_DATA, that chunk is kept and acknowledged and the chunks so far are saved; later packets, FILE_END included, are never read |
| Client.DataTwice | client.cpp:84-85 | a FILE_DATA received twice is two FILE_DATA chunks |
| Client.PayloadsTwice | client.cpp:85 | two copies give two equal chunks |
| Client.AcksTwice | client.cpp:87-94 | two copies give two equal DATA_ACKs |
| Client.DuplicateKept | client.cpp:84-95 | a FILE_DATA received twice before FILE_END is saved twice and acknowledged twice |
| Scenarios.NumberedCrossesWire | protocol.cpp:96-123 | a numbered reply whose seqs stay below 2^31 and whose payloads hold no newline decodes packet by packet from its own text |
| Scenarios.FileCrossesWire | server.cpp:87-92 | when no line holds a newline, server_seq plus the line count is at most INT_MAX and client_seq is at most INT_MAX, every packet of a file's reply crosses the wire intact |
| Scenarios.FileSaved | client.cpp:72-114 | received on time, a file's reply makes the client save exactly its lines, with one DATA_ACK per line acknowledging that line's packet |
| Scenarios.MissingFileCrossesWire | protocol.cpp:95-103 | the FILE_ERR crosses the wire |
| Scenarios.MissingFileReported | client.cpp:75-78 | the FILE_ERR makes the client save nothing and send no DATA_ACK |
| Scenarios.ExpressionAnswered | client.cpp:53-55 | the server's result reaches the client as the text it shows |
| Scenarios.HandshakeReply | protocol.cpp:83-84 | the client's SYN from addr:port is answered with "client:" + the port |
| Scenarios.HandshakeReplyRead | client.cpp:35-38 | that SYN_ACK crosses the wire and makes the client start with its port as id |
| Scenarios.HelloRead | client.cpp:35-38 | the one SYN_ACK sent crosses the wire and gives the client its port as id |
| Scenarios.Hello | server.cpp:55-62 | the server's whole answer to the client's first SYN |
| Scenarios.HandshakeNamesPort | server.cpp:55-62 | the client's first SYN gets one SYN_ACK that crosses the wire and gives the client its port as id |
| Scenarios.ServedFile | server.cpp:87-93 | a FILE_REQ on a known connection sends the file's reply and only advances server_seq |
| Scenarios.DownloadSession | client.cpp:61-115 | SYN then FILE_REQ from a new address, for a typed file name (so without a newline): both requests reach the server as built, the client learns its port, the reply crosses the wire, the lines are saved with one ack each, and the handshake stays pending |
| Scenarios.ClientSendsNoAck | client.cpp:31-93 | every packet the client builds is a SYN, EXPR_REQ, FILE_REQ or DATA_ACK, never a standalone ACK |

## Left out

- Sockets and process setup are not modelled: `socket`, `bind`, `sendto`, `recvfrom`, `close`, the menu and the prompts (client.cpp:17, 24-25, 46-48, 62-64, 118-120, 124, 135-153; server.cpp:18-37, 44). They are OS calls. The loops are modelled over the sequence of packets received, and the sends as the sequence of packets returned.
- A failed `recvfrom` on the server (n < 0, server.cpp:45) is not modelled. An empty datagram (n == 0) is, as a skipped step of `Server.Server.Receive`.
- The 4096-byte receive buffer is not modelled, so a longer datagram is not truncated.
- The client's `receivePacket` with `recvfrom` returning -1 is not modelled. It builds a string of length -1, which is undefined.
- `ExpressionParser` (protocol.cpp:9-70) is not modelled. It computes in double precision and formats with `std::to_string(double)`, which is floating point. Its result is a string parameter of `HandleExpression`, and a function `eval` in `Server.Run`.
- The exceptions the expression parser can throw are not modelled. In the server nothing catches them, so such an exception also ends the server.
- No file system is modelled. A requested file is `None` (it cannot be opened) or `Some(lines)`: the lines `getline` yields, which `Protocol.ReadLines` describes. The client's output directory and `ofstream` are reduced to the content string `SaveFile` returns.
- The wall clock is an input. Each arrival carries a `late` flag: the answer the clock gives after that packet is handled. The model does not say when the five seconds run out.
- `CongestionState` and `last_active` (connection.hpp:10-16) are not modelled: the code never creates, sets or reads them. `handleData` (protocol.hpp) is declared but never defined, so it is not modelled either.
- Logging to `cout` and `cerr` is not modelled.
- Payload lengths are counted in `char`s of a Dafny `string`. The C++ code counts bytes.
- Client.ReceiveFile: when no FILE_ERR, FILE_END or late packet arrives, the result is `Waiting`. The real client stays blocked in `recvfrom` and never saves anything.
- Packets.TypeName: its contract bounds only the length of a name. That names tell types apart is Packets.TypeNamesDistinct.
- Client.ReceiveFile, Client.PerformHandshake, Client.ExpressionOutcome: a reply that fails to decode makes `deserialize` throw inside `receivePacket` (client.cpp:20-27). Nothing in the client catches it, so the client ends with nothing saved. These members receive decoded packets only.
- Server.Server.Receive: a datagram that fails to decode returns the exception. In the program nothing catches it and the server process ends; the model states only that the table was not changed.

Behaviour of the code that the model keeps, and that a reader of the packet
type names might not expect:

- **Malformed datagrams.** Nothing catches `deserialize`'s exception, so a datagram that does not decode ends the server (`Server.Server.Receive`).
- **Short datagrams.** A datagram with fewer than four '|' still decodes: `getline` leaves the previous token in place, so "4|7" decodes with every numeric field 7 (`Packets.ShortDatagramReusesLastField`).
- **Signed fields.** Numeric fields are read with the signed `stoi`. A negative seq wraps (`Packets.NegativeSeqWraps`), and a seq of 2^31 or more cannot be decoded (`Packets.DecodeSerializeOutOfRange`).
- **No handshake gating.** EXPR_REQ and FILE_REQ are served whether or not the ACK of the handshake arrived (`Server.RequestsServedWithoutHandshake`).
- **The handshake never completes.** The client never sends that ACK, so the flag stays false (`Scenarios.ClientSendsNoAck`, `Server.ClientTrafficNeverCompletesHandshake`).
- **Duplicates are kept.** A FILE_DATA received twice is saved twice and acknowledged twice (`Client.DuplicateKept`).
- **DATA_ACK seq.** A DATA_ACK's seq is the FILE_DATA's seq plus the payload length, not plus one (`Client.DataAckSeq`).
- **Timeouts.** The client sets no receive timeout, and reads the clock only after it has handled a packet. If more than five seconds have passed since the request, it stops and saves the chunks it has, with no retry (`Client.TimeoutSavesPartial`). If no packet arrives, it waits forever.
- **Features that are absent.** There is no congestion control, no retransmission and no repeated acknowledgment of FILE_END anywhere in the code.
