/** The server's packet builders: the handshake reply, the file transfer
    packets and the expression reply. The connection state they receive by
    reference is passed in and, where the source writes it, returned. */
module Protocol {
  import opened Wrappers
  import opened Text
  import opened Packets

  /** The per-client record; the timestamp and the congestion record that the
      source declares but never sets or reads are not part of it. */
  datatype ConnectionState = ConnectionState(clientSeq: u32, serverSeq: u32, windowSize: u16, handshakeDone: bool)

  /** a + k on uint32_t, wrapping modulo 2^32. */
  function SeqAdd(a: u32, k: nat): (r: u32)
    ensures a + k < 0x1_0000_0000 ==> r == a + k
    ensures 0x1_0000_0000 <= a + k < 0x2_0000_0000 ==> r == a + k - 0x1_0000_0000
  {
    (a + k) % 0x1_0000_0000
  }

  /** Adding one more is the source's `server_seq++`. */
  lemma SeqAddStep(a: u32, k: nat)
    ensures SeqAdd(SeqAdd(a, k), 1) == SeqAdd(a, k + 1)
  {
  }

  /** No wrap-around happens below 2^32. */
  lemma SeqAddNoWrap(a: u32, k: nat)
    requires a + k < 0x1_0000_0000
    ensures SeqAdd(a, k) == a + k
  {
  }

  /** handleHandshake: the SYN_ACK for a client's SYN. Its payload is "client:"
      followed by the part of the key after its first ':'. When the key has no
      ':', find returns npos and npos + 1 wraps to 0, so the whole key follows. */
  function HandleHandshake(pkt: Packet, state: ConnectionState, clientKey: string): (r: Packet)
    ensures r.kind == SYN_ACK && r.seqNo == 200 && r.ackNo == pkt.seqNo && r.window == state.windowSize
    ensures ':' !in clientKey ==> r.payload == "client:" + clientKey
    ensures ':' in clientKey ==>
              exists i :: 0 <= i < |clientKey| && clientKey[i] == ':' && ':' !in clientKey[..i]
                       && r.payload == "client:" + clientKey[i + 1..]
  {
    var start := if ':' in clientKey then IndexOf(clientKey, ':') + 1 else 0;
    Packet(200, pkt.seqNo, state.windowSize, SYN_ACK, "client:" + clientKey[start..])
  }

  /** A packet of the server's reply stream: `offset` places after the current
      server_seq, acknowledging the client's seq with the connection's window. */
  function Reply(state: ConnectionState, offset: nat, kind: PacketType, payload: string): Packet {
    Packet(SeqAdd(state.serverSeq, offset), state.clientSeq, state.windowSize, kind, payload)
  }

  /** What a request leaves behind: the packets to send and the new state. */
  datatype Response = Response(packets: seq<Packet>, state: ConnectionState)

  const FILE_NOT_FOUND: string := "File not found"

  /** The lines `while (getline(file, line))` yields for a file's content on the server: a
      final newline does not start another line. */
  function ReadLines(content: string): (r: seq<string>)
    ensures |r| <= |content|
    ensures forall i :: 0 <= i < |r| ==> '\n' !in r[i]
    decreases |content|
  {
    if content == [] then []
    else if '\n' in content then
      [content[..IndexOf(content, '\n')]] + ReadLines(content[IndexOf(content, '\n') + 1..])
    else [content]
  }

  /** The reply handleFileRequest builds: a single FILE_ERR when the file
      cannot be opened; otherwise one FILE_DATA per line and a closing FILE_END,
      numbered from server_seq on. */
  function FileResponse(file: Option<seq<string>>, state: ConnectionState): (r: Response)
    ensures |r.packets| == if file.None? then 1 else |file.value| + 1
    ensures r.packets[|r.packets| - 1].kind == if file.None? then FILE_ERR else FILE_END
    ensures r.state == state.(serverSeq := SeqAdd(state.serverSeq, |r.packets|))
  {
    match file
    case None =>
      Response([Reply(state, 0, FILE_ERR, FILE_NOT_FOUND)], state.(serverSeq := SeqAdd(state.serverSeq, 1)))
    case Some(lines) =>
      Response(seq(|lines|, i requires 0 <= i < |lines| => Reply(state, i, FILE_DATA, lines[i]))
                 + [Reply(state, |lines|, FILE_END, "")],
               state.(serverSeq := SeqAdd(state.serverSeq, |lines| + 1)))
  }

  /** handleFileRequest: reads the file line by line, appending one FILE_DATA
      per line and then FILE_END, each taking `server_seq++`. The file is the
      list of its lines, or None when it cannot be opened. */
  method HandleFileRequest(file: Option<seq<string>>, state: ConnectionState)
    returns (packets: seq<Packet>, state': ConnectionState)
    ensures Response(packets, state') == FileResponse(file, state)
  {
    state' := state;
    if file.None? {
      var error := Packet(state'.serverSeq, state'.clientSeq, state'.windowSize, FILE_ERR, FILE_NOT_FOUND);
      state' := state'.(serverSeq := SeqAdd(state'.serverSeq, 1));
      packets := [error];
      return;
    }
    var lines := file.value;
    packets := [];
    var i := 0;
    while i < |lines|
      invariant 0 <= i <= |lines|
      invariant state' == state.(serverSeq := SeqAdd(state.serverSeq, i))
      invariant packets == seq(i, j requires 0 <= j < i => Reply(state, j, FILE_DATA, lines[j]))
    {
      var p := Packet(state'.serverSeq, state'.clientSeq, state'.windowSize, FILE_DATA, lines[i]);
      SeqAddStep(state.serverSeq, i);
      state' := state'.(serverSeq := SeqAdd(state'.serverSeq, 1));
      packets := packets + [p];
      i := i + 1;
    }
    var eof := Packet(state'.serverSeq, state'.clientSeq, state'.windowSize, FILE_END, "");
    SeqAddStep(state.serverSeq, i);
    state' := state'.(serverSeq := SeqAdd(state'.serverSeq, 1));
    packets := packets + [eof];
  }

  /** handleExpression: one EXPR_RES carrying the evaluator's text, taking
      `server_seq++`. The evaluation itself is the `result` argument. */
  function HandleExpression(result: string, state: ConnectionState): (r: Response)
    ensures r.state == state.(serverSeq := SeqAdd(state.serverSeq, 1))
    ensures r.packets == [Reply(state, 0, EXPR_RES, result)]
  {
    Response([Packet(state.serverSeq, state.clientSeq, state.windowSize, EXPR_RES, result)],
             state.(serverSeq := SeqAdd(state.serverSeq, 1)))
  }

  /** Both builders number their packets consecutively from the old server_seq
      and leave server_seq just past the last one; every packet acknowledges
      client_seq with the connection's window, and nothing but server_seq
      changes in the state. */
  predicate Numbered(r: Response, state: ConnectionState) {
    && |r.packets| > 0
    && (forall i :: 0 <= i < |r.packets| ==>
          r.packets[i].seqNo == SeqAdd(state.serverSeq, i)
          && r.packets[i].ackNo == state.clientSeq
          && r.packets[i].window == state.windowSize)
    && r.state == state.(serverSeq := SeqAdd(state.serverSeq, |r.packets|))
  }

  lemma FileResponseNumbered(file: Option<seq<string>>, state: ConnectionState)
    ensures Numbered(FileResponse(file, state), state)
  {
  }

  lemma ExpressionNumbered(result: string, state: ConnectionState)
    ensures Numbered(HandleExpression(result, state), state)
  {
  }

  /** A missing file yields exactly one FILE_ERR saying "File not found". */
  lemma FileResponseMissing(state: ConnectionState)
    ensures var r := FileResponse(None, state);
            |r.packets| == 1 && r.packets[0].kind == FILE_ERR && r.packets[0].payload == "File not found"
            && r.packets[0].seqNo == state.serverSeq
  {
  }

  /** A file of n lines yields n + 1 packets: the lines in order as FILE_DATA,
      then an empty FILE_END; no FILE_ERR. */
  lemma FileResponseLines(lines: seq<string>, state: ConnectionState)
    ensures var r := FileResponse(Some(lines), state);
            && |r.packets| == |lines| + 1
            && (forall i :: 0 <= i < |lines| ==> r.packets[i].kind == FILE_DATA && r.packets[i].payload == lines[i])
            && r.packets[|lines|].kind == FILE_END && r.packets[|lines|].payload == ""
  {
  }

  /** Without wrap-around, the packets of a reply carry strictly increasing
      sequence numbers. */
  lemma NumberedIncreasing(r: Response, state: ConnectionState, i: nat, j: nat)
    requires Numbered(r, state)
    requires state.serverSeq + |r.packets| <= 0x1_0000_0000
    requires i < j < |r.packets|
    ensures r.packets[i].seqNo < r.packets[j].seqNo
  {
    SeqAddNoWrap(state.serverSeq, i);
    SeqAddNoWrap(state.serverSeq, j);
  }

  /** The sequence numbers do wrap: a FILE_DATA sent at server_seq 2^32 - 1
      is followed by a FILE_END numbered 0. */
  lemma FileResponseWraps()
    ensures FileResponse(Some(["x"]), ConnectionState(100, 0xFFFF_FFFF, 1024, false)).packets[1].seqNo == 0
  {
  }
}
