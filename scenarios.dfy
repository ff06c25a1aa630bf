/** Whole exchanges between the client and the server: when seq and ack stay
    below 2^31 and no payload holds a newline, what the server sends crosses
    the wire intact, and the client learns its port, saves a file's lines and
    shows an expression's result. */
module Scenarios {
  import opened Wrappers
  import opened Text
  import opened Packets
  import opened Protocol
  import opened Server
  import opened Client

  predicate NoNewlines(lines: seq<string>) {
    forall i :: 0 <= i < |lines| ==> '\n' !in lines[i]
  }

  /** Every packet of ps decodes from its own text. */
  predicate CrossesWire(ps: seq<Packet>) {
    forall i :: 0 <= i < |ps| ==> Decode(Serialize(ps[i])) == Success(ps[i])
  }

  /** A reply numbered from server_seq crosses the wire when its last seq and
      the client's seq stay below 2^31 and no payload holds a newline. */
  lemma NumberedCrossesWire(r: Response, state: ConnectionState)
    requires Numbered(r, state)
    requires state.serverSeq + |r.packets| <= INT_MAX + 1 && state.clientSeq <= INT_MAX
    requires forall i :: 0 <= i < |r.packets| ==> '\n' !in r.packets[i].payload
    ensures CrossesWire(r.packets)
  {
    forall i | 0 <= i < |r.packets|
      ensures Decode(Serialize(r.packets[i])) == Success(r.packets[i])
    {
      SeqAddNoWrap(state.serverSeq, i);
      RoundTrip(r.packets[i]);
    }
  }

  /** A file's reply crosses the wire when its lines hold no newline and its
      seqs stay below 2^31. */
  lemma FileCrossesWire(lines: seq<string>, state: ConnectionState)
    requires NoNewlines(lines)
    requires state.serverSeq + |lines| <= INT_MAX && state.clientSeq <= INT_MAX
    ensures CrossesWire(FileResponse(Some(lines), state).packets)
  {
    var r := FileResponse(Some(lines), state);
    FileResponseNumbered(Some(lines), state);
    FileResponseLines(lines, state);
    assert forall i :: 0 <= i < |r.packets| ==> '\n' !in r.packets[i].payload;
    NumberedCrossesWire(r, state);
  }

  /** Received on time, a file's reply makes the client save exactly the
      lines, with one DATA_ACK per line acknowledging that line's packet. */
  lemma FileSaved(lines: seq<string>, state: ConnectionState, arrivals: seq<Arrival>)
    requires OnTime(arrivals, FileResponse(Some(lines), state).packets)
    ensures var packets := FileResponse(Some(lines), state).packets;
            && Collect(arrivals) == Intake(Saved(lines), Acks(packets[..|lines|]))
            && (forall i :: 0 <= i < |lines| ==> Acks(packets[..|lines|])[i].ackNo == packets[i].seqNo)
  {
    var packets := FileResponse(Some(lines), state).packets;
    FileResponseLines(lines, state);
    var data := packets[..|lines|];
    var before := arrivals[..|lines|];
    assert Collect(arrivals) == Intake(Saved(Payloads(data)), Acks(data)) by {
      assert arrivals == before + [arrivals[|lines|]] + [];
      AllDataKept(before, data);
      EndSavesChunks(before, arrivals[|lines|], []);
    }
    assert Payloads(data) == lines by {
      PayloadsOf(data);
    }
    forall i | 0 <= i < |lines|
      ensures Acks(data)[i].ackNo == packets[i].seqNo
    {
      AcksOf(data, i);
    }
  }

  /** A missing file's FILE_ERR crosses the wire. */
  lemma MissingFileCrossesWire(state: ConnectionState)
    requires state.serverSeq <= INT_MAX && state.clientSeq <= INT_MAX
    ensures CrossesWire(FileResponse(None, state).packets)
  {
    FileResponseNumbered(None, state);
    FileResponseMissing(state);
    NumberedCrossesWire(FileResponse(None, state), state);
  }

  /** A missing file ends the client's request with nothing saved and no
      DATA_ACK sent, whether or not the FILE_ERR came late. */
  lemma MissingFileReported(state: ConnectionState, arrival: Arrival)
    requires arrival.packet == FileResponse(None, state).packets[0]
    ensures Collect([arrival]) == Intake(NotFound, [])
  {
    FileResponseMissing(state);
    assert [arrival] == [] + [arrival] + [];
    ErrorDiscardsChunks([], arrival, []);
  }

  /** An expression's result, when it holds no newline, reaches the client as
      the text it prints. */
  lemma ExpressionAnswered(result: string, state: ConnectionState)
    requires '\n' !in result
    requires state.serverSeq <= INT_MAX && state.clientSeq <= INT_MAX
    ensures var packets := HandleExpression(result, state).packets;
            && CrossesWire(packets)
            && ExpressionOutcome(packets[0]) == Some(result)
  {
    var r := HandleExpression(result, state);
    ExpressionNumbered(result, state);
    NumberedCrossesWire(r, state);
  }

  /** The SYN_ACK the server answers the client's SYN with. */
  lemma HandshakeReply(addr: IPv4, port: u16)
    ensures HandleHandshake(HANDSHAKE_SYN, NewConnection(HANDSHAKE_SYN), ClientKey(addr, port))
            == Packet(200, 100, 1024, SYN_ACK, "client:" + Decimal(port))
  {
    var key := ClientKey(addr, port);
    assert ':' in key;
  }

  /** That SYN_ACK crosses the wire and gives the client its port as id. */
  lemma HandshakeReplyRead(port: u16)
    ensures var reply := Packet(200, 100, 1024, SYN_ACK, "client:" + Decimal(port));
            && Decode(Serialize(reply)) == Success(reply)
            && StartSession(reply) == Some(Decimal(port))
  {
    NoDelimiterInDecimal(port);
    RoundTrip(Packet(200, 100, 1024, SYN_ACK, "client:" + Decimal(port)));
    ClientIdOfHandshakeText(Decimal(port));
  }

  /** The server's answer to the client's SYN from a new address. */
  lemma Hello(conns: Connections, addr: IPv4, port: u16, files: map<string, seq<string>>, e: string)
    requires ClientKey(addr, port) !in conns
    ensures Dispatch(conns, ClientKey(addr, port), HANDSHAKE_SYN, files, e)
            == Outcome(conns[ClientKey(addr, port) := NewConnection(HANDSHAKE_SYN)],
                       [Packet(200, 100, 1024, SYN_ACK, "client:" + Decimal(port))])
  {
    HandshakeReply(addr, port);
  }

  /** The client's SYN from a new address is answered by a SYN_ACK that
      crosses the wire and from which the client takes its port as id. */
  lemma HandshakeNamesPort(conns: Connections, addr: IPv4, port: u16,
                           files: map<string, seq<string>>, e: string)
    requires ClientKey(addr, port) !in conns
    ensures var s := Dispatch(conns, ClientKey(addr, port), HANDSHAKE_SYN, files, e);
            && s.connections == conns[ClientKey(addr, port) := NewConnection(HANDSHAKE_SYN)]
            && |s.sent| == 1
            && CrossesWire(s.sent)
            && StartSession(s.sent[0]) == Some(Decimal(port))
  {
    Hello(conns, addr, port, files, e);
    HelloRead(Dispatch(conns, ClientKey(addr, port), HANDSHAKE_SYN, files, e).sent, port);
  }

  /** The server's answer to the SYN, as the client reads it. */
  lemma HelloRead(sent: seq<Packet>, port: u16)
    requires sent == [Packet(200, 100, 1024, SYN_ACK, "client:" + Decimal(port))]
    ensures |sent| == 1 && CrossesWire(sent) && StartSession(sent[0]) == Some(Decimal(port))
  {
    HandshakeReplyRead(port);
  }

  /** A FILE_REQ on a known connection is answered with the file's reply, and
      only server_seq changes in the connection. */
  lemma ServedFile(conns: Connections, key: string, name: string,
                   files: map<string, seq<string>>, e: string)
    requires key in conns && name in files
    ensures var r := FileResponse(Some(files[name]), conns[key]);
            Dispatch(conns, key, FileRequest(name), files, e) == Outcome(conns[key := r.state], r.packets)
  {
    assert Lookup(files, FileRequest(name).payload) == Some(files[name]);
  }

  /** A whole download session: the client's SYN from a new address, then its
      FILE_REQ for a file of newline-free lines. The name is a line the user
      typed, so it holds no newline, and both requests reach the server as
      built. The client learns its port, every packet of the reply crosses
      the wire, and the client saves the file's lines, acknowledging each;
      the handshake stays pending because the client never sends the ACK. */
  lemma DownloadSession(addr: IPv4, port: u16, name: string,
                        files: map<string, seq<string>>, e: string)
    requires '\n' !in name
    requires name in files && NoNewlines(files[name])
    requires |files[name]| < INT_MAX - INITIAL_SERVER_SEQ
    ensures Decode(Serialize(HANDSHAKE_SYN)) == Success(HANDSHAKE_SYN)
    ensures Decode(Serialize(FileRequest(name))) == Success(FileRequest(name))
    ensures var key := ClientKey(addr, port);
            var hello := Dispatch(map[], key, HANDSHAKE_SYN, files, e);
            var served := Dispatch(hello.connections, key, FileRequest(name), files, e);
            && |hello.sent| == 1
            && StartSession(hello.sent[0]) == Some(Decimal(port))
            && CrossesWire(served.sent)
            && (forall arrivals :: OnTime(arrivals, served.sent) ==>
                  Collect(arrivals).outcome == Saved(files[name])
                  && |Collect(arrivals).acks| == |files[name]|)
            && key in served.connections && !served.connections[key].handshakeDone
  {
    var key := ClientKey(addr, port);
    var state := NewConnection(HANDSHAKE_SYN);
    RequestsCrossWire(name, name);
    HandshakeNamesPort(map[], addr, port, files, e);
    ServedFile(map[key := state], key, name, files, e);
    FileCrossesWire(files[name], state);
    forall arrivals | OnTime(arrivals, FileResponse(Some(files[name]), state).packets)
      ensures Collect(arrivals).outcome == Saved(files[name])
      ensures |Collect(arrivals).acks| == |files[name]|
    {
      FileSaved(files[name], state, arrivals);
    }
  }

  /** Every packet the client program builds, its SYN, its two requests and
      the DATA_ACKs of any intake, is of a type FromClient admits; none is a
      standalone ACK, so by ClientTrafficNeverCompletesHandshake no handshake
      is ever completed by client traffic. */
  lemma ClientSendsNoAck(expr: string, filename: string, arrivals: seq<Arrival>)
    ensures FromClient(HANDSHAKE_SYN) && FromClient(ExpressionRequest(expr)) && FromClient(FileRequest(filename))
    ensures forall i :: 0 <= i < |Collect(arrivals).acks| ==> FromClient(Collect(arrivals).acks[i])
  {
    var data := DataPackets(arrivals[..HandledCount(arrivals)]);
    assert Collect(arrivals).acks == Acks(data);
    forall i | 0 <= i < |data|
      ensures FromClient(Acks(data)[i])
    {
      AcksOf(data, i);
    }
  }
}
