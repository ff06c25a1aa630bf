/** The client's protocol logic: the packets it sends, the handshake
    decision, the client id, and the intake loop of a file request. */
module Client {
  import opened Wrappers
  import opened Text
  import opened Packets
  import opened Protocol

  const CLIENT_WINDOW: u16 := 1024

  /** The SYN performHandshake sends. */
  const HANDSHAKE_SYN: Packet := Packet(100, 0, CLIENT_WINDOW, SYN, "client")

  /** The request handleExpression sends for a typed expression. */
  function ExpressionRequest(expr: string): (r: Packet)
    ensures r.kind == EXPR_REQ && r.payload == expr && r.window == CLIENT_WINDOW
  {
    Packet(101, 0, CLIENT_WINDOW, EXPR_REQ, expr)
  }

  /** The request handleFileRequest sends for a typed file name. */
  function FileRequest(filename: string): (r: Packet)
    ensures r.kind == FILE_REQ && r.payload == filename && r.window == CLIENT_WINDOW
  {
    Packet(102, 0, CLIENT_WINDOW, FILE_REQ, filename)
  }

  /** What the client sends reaches the server as it was built: the SYN
      exactly, and a request with its typed text cut at the first newline. */
  lemma RequestsCrossWire(expr: string, filename: string)
    ensures Decode(Serialize(HANDSHAKE_SYN)) == Success(HANDSHAKE_SYN)
    ensures Decode(Serialize(ExpressionRequest(expr)))
            == Success(ExpressionRequest(FirstLine(expr)))
    ensures Decode(Serialize(FileRequest(filename)))
            == Success(FileRequest(FirstLine(filename)))
  {
    RoundTrip(HANDSHAKE_SYN);
    DecodeSerialize(ExpressionRequest(expr));
    DecodeSerialize(FileRequest(filename));
  }

  /** The DATA_ACK sent for a FILE_DATA packet: it acknowledges the packet's
      seq, and its own seq is that seq plus the payload's length in uint32_t
      arithmetic. */
  function DataAck(p: Packet): (r: Packet)
    ensures r.kind == DATA_ACK && r.ackNo == p.seqNo && r.window == 1024 && r.payload == ""
  {
    Packet(SeqAdd(p.seqNo, |p.payload| % 0x1_0000_0000), p.seqNo, CLIENT_WINDOW, DATA_ACK, "")
  }

  /** The DATA_ACK's seq is the FILE_DATA's seq advanced by the payload's
      length modulo 2^32, and exactly that sum when it does not wrap. */
  lemma DataAckSeq(p: Packet)
    ensures DataAck(p).seqNo == (p.seqNo + |p.payload|) % 0x1_0000_0000
    ensures p.seqNo + |p.payload| < 0x1_0000_0000 ==> DataAck(p).seqNo == p.seqNo + |p.payload|
  {
  }

  /** performHandshake: the reply's payload when the reply is a SYN_ACK,
      the empty text otherwise. */
  function PerformHandshake(reply: Packet): (r: string)
    ensures reply.kind != SYN_ACK ==> r == ""
    ensures reply.kind == SYN_ACK ==> r == reply.payload
  {
    if reply.kind == SYN_ACK then reply.payload else ""
  }

  /** The client id main derives from the handshake text: what follows its
      first ':' when that is not empty, "unknown" otherwise. */
  function ClientId(clientKey: string): (r: string)
    ensures ':' !in clientKey ==> r == "unknown"
    ensures forall i :: 0 <= i < |clientKey| && clientKey[i] == ':' && ':' !in clientKey[..i] ==>
              r == (if i + 1 < |clientKey| then clientKey[i + 1..] else "unknown")
  {
    if ':' in clientKey && IndexOf(clientKey, ':') + 1 < |clientKey| then clientKey[IndexOf(clientKey, ':') + 1..]
    else "unknown"
  }

  /** main after the handshake: it exits when performHandshake returned the
      empty text, and otherwise goes on with the derived client id. */
  function StartSession(reply: Packet): (r: Option<string>)
    ensures r.None? <==> reply.kind != SYN_ACK || reply.payload == ""
    ensures r.Some? ==> r.value == ClientId(reply.payload)
  {
    var clientKey := PerformHandshake(reply);
    if clientKey == "" then None else Some(ClientId(clientKey))
  }

  /** The handshake text the server sends, "client:" and a non-empty port,
      yields the port as client id. */
  lemma ClientIdOfHandshakeText(port: string)
    requires port != ""
    ensures ClientId("client:" + port) == port
  {
    var key := "client:" + port;
    assert key == "client" + [':'] + port;
    IndexOfSplit("client", ':', port);
  }

  /** handleExpression's check of the reply: the result text for an EXPR_RES,
      nothing for any other type. */
  function ExpressionOutcome(reply: Packet): (r: Option<string>)
    ensures r.Some? <==> reply.kind == EXPR_RES
    ensures r.Some? ==> r.value == reply.payload
  {
    if reply.kind == EXPR_RES then Some(reply.payload) else None
  }


  /** How a file request ends: the server reported the file missing (nothing
      is saved), the loop left with chunks to save (FILE_END, or the time ran
      out), or the packets ran out first and the client is still blocked in
      recvfrom. */
  datatype Download = NotFound | Saved(chunks: seq<string>) | Waiting(chunks: seq<string>)

  /** The outcome of the intake and the DATA_ACKs sent on the way, in order. */
  datatype Intake = Intake(outcome: Download, acks: seq<Packet>)

  /** A packet as the receive loop meets it. `late` is the clock's verdict,
      read after the packet was handled: more than five seconds have passed
      since the request was sent. */
  datatype Arrival = Arrival(packet: Packet, late: bool)

  /** The loop leaves at a FILE_ERR or a FILE_END, or after handling a packet
      that came late. */
  predicate Stops(a: Arrival) {
    a.packet.kind == FILE_ERR || a.packet.kind == FILE_END || a.late
  }

  /** None of the arrivals makes the loop leave. */
  predicate NoStops(arrivals: seq<Arrival>) {
    forall j :: 0 <= j < |arrivals| ==> !Stops(arrivals[j])
  }

  /** The position of the first arrival the loop leaves at, or |arrivals|. */
  function FirstStop(arrivals: seq<Arrival>): (k: nat)
    ensures k <= |arrivals|
    ensures NoStops(arrivals[..k])
    ensures k < |arrivals| ==> Stops(arrivals[k])
  {
    if arrivals == [] then 0
    else if Stops(arrivals[0]) then 0
    else 1 + FirstStop(arrivals[1..])
  }

  /** The FILE_DATA packets among the arrivals, in order, duplicates included. */
  function DataPackets(arrivals: seq<Arrival>): (r: seq<Packet>)
    ensures |r| <= |arrivals|
    ensures forall i :: 0 <= i < |r| ==> r[i].kind == FILE_DATA
  {
    if arrivals == [] then []
    else
      var last := arrivals[|arrivals| - 1].packet;
      DataPackets(arrivals[..|arrivals| - 1]) + (if last.kind == FILE_DATA then [last] else [])
  }

  /** The payloads of ps, in order. */
  function Payloads(ps: seq<Packet>): (r: seq<string>)
    ensures |r| == |ps|
  {
    if ps == [] then [] else Payloads(ps[..|ps| - 1]) + [ps[|ps| - 1].payload]
  }

  /** The DATA_ACK of each packet of ps, in order. */
  function Acks(ps: seq<Packet>): (r: seq<Packet>)
    ensures |r| == |ps|
  {
    if ps == [] then [] else Acks(ps[..|ps| - 1]) + [DataAck(ps[|ps| - 1])]
  }

  /** How many arrivals the loop handles: those before the first stop, and
      the stop itself when it is a late packet rather than FILE_ERR or
      FILE_END. */
  function HandledCount(arrivals: seq<Arrival>): (n: nat)
    ensures n <= |arrivals|
  {
    var k := FirstStop(arrivals);
    if k == |arrivals| || Ends(arrivals[k].packet) then k else k + 1
  }

  predicate Ends(p: Packet) {
    p.kind == FILE_ERR || p.kind == FILE_END
  }

  /** What the receive loop makes of the arrivals: the chunks are the FILE_DATA
      payloads it handled, each acknowledged once, other types ignored. A
      FILE_ERR discards them, a FILE_END saves those before it, and a late
      packet is handled and then the chunks so far are saved. */
  function Collect(arrivals: seq<Arrival>): (r: Intake)
    ensures r.outcome.Waiting? <==> NoStops(arrivals)
    ensures !r.outcome.NotFound? ==> |r.outcome.chunks| == |r.acks|
  {
    var k := FirstStop(arrivals);
    assert arrivals[..|arrivals|] == arrivals;
    var data := DataPackets(arrivals[..HandledCount(arrivals)]);
    var outcome :=
      if k == |arrivals| then Waiting(Payloads(data))
      else if arrivals[k].packet.kind == FILE_ERR then NotFound
      else Saved(Payloads(data));
    Intake(outcome, Acks(data))
  }

  /** One more arrival handled: a FILE_DATA adds its packet, any other type
      adds nothing. */
  lemma Handled(arrivals: seq<Arrival>, a: Arrival)
    ensures DataPackets(arrivals + [a])
            == DataPackets(arrivals) + (if a.packet.kind == FILE_DATA then [a.packet] else [])
  {
    assert (arrivals + [a])[..|arrivals|] == arrivals;
  }

  /** One more FILE_DATA adds its payload and its ack at the end. */
  lemma Appended(ps: seq<Packet>, q: Packet)
    ensures Payloads(ps + [q]) == Payloads(ps) + [q.payload]
    ensures Acks(ps + [q]) == Acks(ps) + [DataAck(q)]
  {
    assert (ps + [q])[..|ps|] == ps;
  }

  /** Where the loop leaves at arrival i, Collect is what it has gathered by
      then: nothing for a FILE_ERR, the chunks before a FILE_END, and the
      chunks up to and including a late packet. */
  lemma CollectAt(arrivals: seq<Arrival>, i: nat)
    requires i < |arrivals| && NoStops(arrivals[..i]) && Stops(arrivals[i])
    ensures var data := DataPackets(arrivals[..i]);
            arrivals[i].packet.kind == FILE_ERR ==> Collect(arrivals) == Intake(NotFound, Acks(data))
    ensures var data := DataPackets(arrivals[..i]);
            arrivals[i].packet.kind == FILE_END ==> Collect(arrivals) == Intake(Saved(Payloads(data)), Acks(data))
    ensures var data := DataPackets(arrivals[..i + 1]);
            !Ends(arrivals[i].packet) ==> Collect(arrivals) == Intake(Saved(Payloads(data)), Acks(data))
  {
    assert arrivals == arrivals[..i] + [arrivals[i]] + arrivals[i + 1..];
    FirstStopAt(arrivals[..i], arrivals[i], arrivals[i + 1..]);
  }

  /** Where no arrival stops the loop, it is still waiting with every chunk. */
  lemma CollectAll(arrivals: seq<Arrival>)
    requires NoStops(arrivals)
    ensures var data := DataPackets(arrivals);
            Collect(arrivals) == Intake(Waiting(Payloads(data)), Acks(data))
  {
    assert arrivals[..|arrivals|] == arrivals;
  }

  lemma NoStopsExtend(arrivals: seq<Arrival>, i: nat)
    requires i < |arrivals| && NoStops(arrivals[..i]) && !Stops(arrivals[i])
    ensures NoStops(arrivals[..i + 1])
  {
    assert forall j :: 0 <= j < i ==> arrivals[..i + 1][j] == arrivals[..i][j];
  }

  /** The receive loop of handleFileRequest over the packets that arrive. */
  method ReceiveFile(arrivals: seq<Arrival>) returns (result: Intake)
    ensures result == Collect(arrivals)
  {
    var chunks: seq<string> := [];
    var acks: seq<Packet> := [];
    ghost var data: seq<Packet> := [];
    var i := 0;
    while i < |arrivals|
      invariant 0 <= i <= |arrivals|
      invariant NoStops(arrivals[..i])
      invariant data == DataPackets(arrivals[..i])
      invariant chunks == Payloads(data) && acks == Acks(data)
    {
      var p := arrivals[i].packet;
      if p.kind == FILE_ERR {
        result := Intake(NotFound, acks);
        assert result == Collect(arrivals) by {
          CollectAt(arrivals, i);
        }
        return;
      }
      if p.kind == FILE_END {
        result := Intake(Saved(chunks), acks);
        assert result == Collect(arrivals) by {
          CollectAt(arrivals, i);
        }
        return;
      }
      assert data + (if p.kind == FILE_DATA then [p] else []) == DataPackets(arrivals[..i + 1]) by {
        assert arrivals[..i + 1] == arrivals[..i] + [arrivals[i]];
        Handled(arrivals[..i], arrivals[i]);
      }
      if p.kind == FILE_DATA {
        Appended(data, p);
        chunks := chunks + [p.payload];
        var ack := DataAck(p);
        acks := acks + [ack];
        data := data + [p];
      }
      assert data == DataPackets(arrivals[..i + 1]);
      if arrivals[i].late {
        result := Intake(Saved(chunks), acks);
        assert result == Collect(arrivals) by {
          assert !Ends(arrivals[i].packet);
          CollectAt(arrivals, i);
        }
        return;
      }
      NoStopsExtend(arrivals, i);
      i := i + 1;
    }
    result := Intake(Waiting(chunks), acks);
    assert result == Collect(arrivals) by {
      CollectAll(arrivals);
    }
  }

  /** The saved file: every chunk followed by a newline. */
  function Join(chunks: seq<string>): (r: string)
    ensures r == [] <==> chunks == []
    ensures chunks != [] ==> r[|r| - 1] == '\n'
  {
    if chunks == [] then "" else chunks[0] + "\n" + Join(chunks[1..])
  }

  lemma {:induction false} JoinAppend(chunks: seq<string>, c: string)
    ensures Join(chunks + [c]) == Join(chunks) + c + "\n"
  {
    if chunks != [] {
      assert (chunks + [c])[1..] == chunks[1..] + [c];
      JoinAppend(chunks[1..], c);
    } else {
      assert [c][1..] == [];
    }
  }

  /** Writing the chunks, `outfile << chunk << "\n"` for each in turn. */
  method SaveFile(chunks: seq<string>) returns (content: string)
    ensures content == Join(chunks)
  {
    content := "";
    for i := 0 to |chunks|
      invariant content == Join(chunks[..i])
    {
      assert chunks[..i + 1] == chunks[..i] + [chunks[i]];
      JoinAppend(chunks[..i], chunks[i]);
      content := content + chunks[i] + "\n";
    }
    assert chunks[..|chunks|] == chunks;
  }

  /** A saved download, read back line by line, gives the chunks again when
      none of them contains a newline. */
  lemma {:induction false} ReadLinesJoin(chunks: seq<string>)
    requires forall i :: 0 <= i < |chunks| ==> '\n' !in chunks[i]
    ensures ReadLines(Join(chunks)) == chunks
  {
    if chunks != [] {
      var rest := Join(chunks[1..]);
      assert Join(chunks) == chunks[0] + ['\n'] + rest;
      IndexOfSplit(chunks[0], '\n', rest);
      var s := Join(chunks);
      assert s[..|chunks[0]|] == chunks[0] && s[|chunks[0]| + 1..] == rest;
      ReadLinesJoin(chunks[1..]);
    }
  }

  /** The saved content is as long as the chunks plus one newline each. */
  lemma {:induction false} JoinLength(chunks: seq<string>)
    ensures |Join(chunks)| == |chunks| + SumLengths(chunks)
  {
    if chunks != [] {
      JoinLength(chunks[1..]);
    }
  }

  function SumLengths(chunks: seq<string>): nat {
    if chunks == [] then 0 else |chunks[0]| + SumLengths(chunks[1..])
  }

  lemma {:induction false} PayloadsOf(ps: seq<Packet>)
    ensures forall i :: 0 <= i < |ps| ==> Payloads(ps)[i] == ps[i].payload
    decreases |ps|
  {
    if ps != [] {
      PayloadsOf(ps[..|ps| - 1]);
    }
  }

  /** The i-th DATA_ACK acknowledges the i-th FILE_DATA. */
  lemma {:induction false} AcksOf(ps: seq<Packet>, i: nat)
    requires i < |ps|
    ensures Acks(ps)[i] == DataAck(ps[i])
    decreases |ps|
  {
    if i < |ps| - 1 {
      AcksOf(ps[..|ps| - 1], i);
    }
  }

  /** Arrivals on time carrying exactly the packets ps. */
  predicate OnTime(arrivals: seq<Arrival>, ps: seq<Packet>) {
    |arrivals| == |ps| && forall i :: 0 <= i < |ps| ==> arrivals[i] == Arrival(ps[i], false)
  }

  /** A run of FILE_DATA packets is kept whole and in order: a duplicate is a
      second chunk, not a dropped one. */
  lemma {:induction false} AllDataKept(arrivals: seq<Arrival>, ps: seq<Packet>)
    requires |arrivals| == |ps|
    requires forall i :: 0 <= i < |ps| ==> arrivals[i].packet == ps[i] && ps[i].kind == FILE_DATA
    ensures DataPackets(arrivals) == ps
    decreases |ps|
  {
    if ps != [] {
      AllDataKept(arrivals[..|ps| - 1], ps[..|ps| - 1]);
    }
  }

  /** The first arrival that stops the loop decides where the intake ends. */
  lemma {:induction false} FirstStopAt(before: seq<Arrival>, a: Arrival, after: seq<Arrival>)
    requires Stops(a)
    requires NoStops(before)
    ensures FirstStop(before + [a] + after) == |before|
    ensures (before + [a] + after)[..|before|] == before
    ensures (before + [a] + after)[..|before| + 1] == before + [a]
    ensures (before + [a] + after)[|before|] == a
  {
    if before != [] {
      assert (before + [a] + after)[1..] == before[1..] + [a] + after;
      FirstStopAt(before[1..], a, after);
    }
  }

  /** A FILE_END saves the FILE_DATA payloads received before it, late or not. */
  lemma EndSavesChunks(before: seq<Arrival>, e: Arrival, after: seq<Arrival>)
    requires e.packet.kind == FILE_END
    requires NoStops(before)
    ensures Collect(before + [e] + after)
            == Intake(Saved(Payloads(DataPackets(before))), Acks(DataPackets(before)))
  {
    FirstStopAt(before, e, after);
  }

  /** A FILE_ERR ends the request with nothing saved, whatever came before. */
  lemma ErrorDiscardsChunks(before: seq<Arrival>, e: Arrival, after: seq<Arrival>)
    requires e.packet.kind == FILE_ERR
    requires NoStops(before)
    ensures Collect(before + [e] + after) == Intake(NotFound, Acks(DataPackets(before)))
  {
    FirstStopAt(before, e, after);
  }

  /** When the time runs out on a FILE_DATA, that chunk is still saved and
      acknowledged, and the loop saves what it has: what arrives later,
      FILE_END included, is never read. */
  lemma TimeoutSavesPartial(before: seq<Arrival>, a: Arrival, after: seq<Arrival>)
    requires a.late && a.packet.kind == FILE_DATA
    requires NoStops(before)
    ensures var data := DataPackets(before);
            Collect(before + [a] + after)
            == Intake(Saved(Payloads(data) + [a.packet.payload]), Acks(data) + [DataAck(a.packet)])
  {
    FirstStopAt(before, a, after);
    Handled(before, a);
    Appended(DataPackets(before), a.packet);
  }

  /** Two copies of a FILE_DATA packet are two FILE_DATA packets. */
  lemma DataTwice(before: seq<Arrival>, a: Arrival)
    requires a.packet.kind == FILE_DATA
    ensures DataPackets(before + [a, a]) == DataPackets(before) + [a.packet, a.packet]
  {
    assert before + [a, a] == (before + [a]) + [a];
    Handled(before, a);
    Handled(before + [a], a);
  }

  lemma PayloadsTwice(data: seq<Packet>, p: Packet)
    ensures Payloads(data + [p, p]) == Payloads(data) + [p.payload, p.payload]
  {
    var once := data + [p];
    assert Payloads(once) == Payloads(data) + [p.payload] by {
      Appended(data, p);
    }
    assert Payloads(once + [p]) == Payloads(once) + [p.payload] by {
      Appended(once, p);
    }
    assert data + [p, p] == once + [p];
  }

  lemma AcksTwice(data: seq<Packet>, p: Packet)
    ensures Acks(data + [p, p]) == Acks(data) + [DataAck(p), DataAck(p)]
  {
    var once := data + [p];
    assert Acks(once) == Acks(data) + [DataAck(p)] by {
      Appended(data, p);
    }
    assert Acks(once + [p]) == Acks(once) + [DataAck(p)] by {
      Appended(once, p);
    }
    assert data + [p, p] == once + [p];
  }

  /** The same FILE_DATA received twice on time before the FILE_END gives two
      equal chunks and two acks: nothing suppresses duplicates. */
  lemma DuplicateKept(before: seq<Arrival>, a: Arrival, e: Arrival, after: seq<Arrival>)
    requires a.packet.kind == FILE_DATA && !a.late && e.packet.kind == FILE_END
    requires NoStops(before)
    ensures var data := DataPackets(before);
            Collect(before + [a, a] + [e] + after)
            == Intake(Saved(Payloads(data) + [a.packet.payload, a.packet.payload]),
                      Acks(data) + [DataAck(a.packet), DataAck(a.packet)])
  {
    var prefix := before + [a, a];
    var data := DataPackets(before);
    assert NoStops(prefix) by {
      forall j | 0 <= j < |prefix|
        ensures !Stops(prefix[j])
      {
        if j < |before| {
          assert prefix[j] == before[j];
        } else {
          assert prefix[j] == a;
        }
      }
    }
    assert DataPackets(prefix) == data + [a.packet, a.packet] by {
      DataTwice(before, a);
    }
    assert Payloads(data + [a.packet, a.packet]) == Payloads(data) + [a.packet.payload, a.packet.payload] by {
      PayloadsTwice(data, a.packet);
    }
    assert Acks(data + [a.packet, a.packet]) == Acks(data) + [DataAck(a.packet), DataAck(a.packet)] by {
      AcksTwice(data, a.packet);
    }
    EndSavesChunks(prefix, e, after);
  }
}
