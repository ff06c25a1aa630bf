/** One iteration of the server's receive loop over the process-lifetime
    connection table, keyed by the client's address text. */
module Server {
  import opened Wrappers
  import opened Text
  import opened Packets
  import opened Protocol

  type u8 = x: int | 0 <= x < 0x100

  /** An IPv4 address, most significant byte first. */
  datatype IPv4 = IPv4(b0: u8, b1: u8, b2: u8, b3: u8)

  /** The dotted text inet_ntop writes for an IPv4 address. */
  function DottedQuad(addr: IPv4): (r: string)
    ensures ':' !in r
  {
    NoPunctuationInDecimal(addr.b0);
    NoPunctuationInDecimal(addr.b1);
    NoPunctuationInDecimal(addr.b2);
    NoPunctuationInDecimal(addr.b3);
    Decimal(addr.b0) + "." + (Decimal(addr.b1) + "." + (Decimal(addr.b2) + "." + Decimal(addr.b3)))
  }

  lemma NoPunctuationInDecimal(n: nat)
    ensures ':' !in Decimal(n) && '.' !in Decimal(n)
  {
  }

  /** Cutting at the first '.' recovers both sides. */
  lemma SplitAtDot(a: string, b: string, c: string, d: string)
    requires '.' !in a && '.' !in c && a + "." + b == c + "." + d
    ensures a == c && b == d
  {
    var s := a + "." + b;
    IndexOfSplit(a, '.', b);
    IndexOfSplit(c, '.', d);
    assert s[..|a|] == a && s[|a| + 1..] == b;
    assert s[..|c|] == c && s[|c| + 1..] == d;
  }

  /** A byte's text followed by '.' is read back unambiguously. */
  lemma PeelByte(x: u8, tx: string, y: u8, ty: string)
    requires Decimal(x) + "." + tx == Decimal(y) + "." + ty
    ensures x == y && tx == ty
  {
    NoPunctuationInDecimal(x);
    NoPunctuationInDecimal(y);
    SplitAtDot(Decimal(x), tx, Decimal(y), ty);
    DecimalInjective(x, y);
  }

  /** Distinct addresses are written as distinct dotted texts. */
  lemma DottedQuadInjective(x: IPv4, y: IPv4)
    requires DottedQuad(x) == DottedQuad(y)
    ensures x == y
  {
    var ux, uy := Decimal(x.b2) + "." + Decimal(x.b3), Decimal(y.b2) + "." + Decimal(y.b3);
    var tx, ty := Decimal(x.b1) + "." + ux, Decimal(y.b1) + "." + uy;
    PeelByte(x.b0, tx, y.b0, ty);
    PeelByte(x.b1, ux, y.b1, uy);
    PeelByte(x.b2, Decimal(x.b3), y.b2, Decimal(y.b3));
    DecimalInjective(x.b3, y.b3);
  }

  /** getClientKey: the dotted address, ':', then the port in decimal. */
  function ClientKey(addr: IPv4, port: u16): (r: string)
    ensures ':' in r && IndexOf(r, ':') == |DottedQuad(addr)|
    ensures r[..IndexOf(r, ':')] == DottedQuad(addr)
    ensures r[IndexOf(r, ':') + 1..] == Decimal(port)
  {
    var key := DottedQuad(addr) + ":" + Decimal(port);
    IndexOfSplit(DottedQuad(addr), ':', Decimal(port));
    key
  }

  /** Two distinct sockets never share a key, so never a connection entry. */
  lemma ClientKeyDistinguishesPorts(a1: IPv4, p1: u16, a2: IPv4, p2: u16)
    requires ClientKey(a1, p1) == ClientKey(a2, p2)
    ensures p1 == p2 && a1 == a2
  {
    DecimalInjective(p1, p2);
    DottedQuadInjective(a1, a2);
  }

  const INITIAL_SERVER_SEQ: u32 := 1000
  const SERVER_WINDOW: u16 := 1024

  /** The record the server creates on a SYN from an unknown client. */
  function NewConnection(syn: Packet): (r: ConnectionState)
    ensures r.clientSeq == syn.seqNo && !r.handshakeDone
    ensures r.serverSeq == INITIAL_SERVER_SEQ && r.windowSize == SERVER_WINDOW
  {
    ConnectionState(syn.seqNo, INITIAL_SERVER_SEQ, SERVER_WINDOW, false)
  }

  type Connections = map<string, ConnectionState>

  /** The connection table after a packet, and the packets sent in reply. */
  datatype Outcome = Outcome(connections: Connections, sent: seq<Packet>)

  /** The file a FILE_REQ names, or None when it cannot be opened. */
  function Lookup(files: map<string, seq<string>>, name: string): Option<seq<string>> {
    if name in files then Some(files[name]) else None
  }

  /** The dispatch of one decoded packet from `key`. An unknown key is served
      only for SYN. For a known key, an ACK completes a pending handshake;
      otherwise EXPR_REQ and FILE_REQ are answered (the handshake flag is not
      consulted) and every other type, SYN included, is dropped. */
  function Dispatch(conns: Connections, key: string, pkt: Packet,
                    files: map<string, seq<string>>, exprResult: string): Outcome
  {
    if key !in conns then
      if pkt.kind == SYN then
        var state := NewConnection(pkt);
        Outcome(conns[key := state], [HandleHandshake(pkt, state, key)])
      else Outcome(conns, [])
    else
      var state := conns[key];
      if !state.handshakeDone && pkt.kind == ACK then
        Outcome(conns[key := state.(handshakeDone := true)], [])
      else if pkt.kind == EXPR_REQ then
        var r := HandleExpression(exprResult, state);
        Outcome(conns[key := r.state], r.packets)
      else if pkt.kind == FILE_REQ then
        var r := FileResponse(Lookup(files, pkt.payload), state);
        Outcome(conns[key := r.state], r.packets)
      else Outcome(conns, [])
  }

  /** The server: its connection table lives as long as the process. */
  class Server {
    var connections: Connections

    constructor ()
      ensures connections == map[]
    {
      connections := map[];
    }

    /** One pass of the receive loop for an already decoded packet from
        `key`; returns what is sent back to that client, in order. */
    method Step(key: string, pkt: Packet, files: map<string, seq<string>>, exprResult: string)
      returns (sent: seq<Packet>)
      modifies this
      ensures Outcome(connections, sent) == Dispatch(old(connections), key, pkt, files, exprResult)
    {
      if key !in connections {
        if pkt.kind == SYN {
          connections := connections[key := NewConnection(pkt)];
          var synAck := HandleHandshake(pkt, connections[key], key);
          sent := [synAck];
        } else {
          sent := [];
        }
        return;
      }
      var state := connections[key];
      if !state.handshakeDone && pkt.kind == ACK {
        connections := connections[key := state.(handshakeDone := true)];
        return [];
      }
      match pkt.kind {
        case EXPR_REQ =>
          var response := HandleExpression(exprResult, state);
          connections := connections[key := response.state];
          sent := response.packets;
        case FILE_REQ =>
          var packets, state' := HandleFileRequest(Lookup(files, pkt.payload), state);
          connections := connections[key := state'];
          sent := packets;
        case _ =>
          sent := [];
      }
    }

    /** One pass of the receive loop on the raw datagram. An empty datagram
        is skipped. Otherwise deserialize runs before anything else and nothing
        catches its exception, so a datagram that does not decode ends the
        server process: the result is that exception and the table is as it
        was. */
    method Receive(key: string, raw: string, files: map<string, seq<string>>, exprResult: string)
      returns (r: Result<seq<Packet>, Exception>)
      modifies this
      ensures raw == [] ==> r == Success([]) && connections == old(connections)
      ensures raw != [] && Decode(raw).Failure? ==> r == Failure(Decode(raw).error) && connections == old(connections)
      ensures raw != [] && Decode(raw).Success? ==>
                r.Success? && Outcome(connections, r.value)
                              == Dispatch(old(connections), key, Decode(raw).value, files, exprResult)
    {
      if raw == [] {
        return Success([]);
      }
      var decoded := Deserialize(raw);
      if decoded.Failure? {
        return Failure(decoded.error);
      }
      var sent := Step(key, decoded.value, files, exprResult);
      return Success(sent);
    }
  }

  /** A SYN from an unknown key creates the initial record and is answered by
      exactly one SYN_ACK acknowledging the SYN's seq. */
  lemma SynFromUnknown(conns: Connections, key: string, pkt: Packet, files: map<string, seq<string>>, e: string)
    requires key !in conns && pkt.kind == SYN
    ensures var s := Dispatch(conns, key, pkt, files, e);
            && s.connections == conns[key := ConnectionState(pkt.seqNo, 1000, 1024, false)]
            && |s.sent| == 1 && s.sent[0].kind == SYN_ACK && s.sent[0].ackNo == pkt.seqNo
  {
  }

  /** Anything else from an unknown key is dropped without trace. */
  lemma NonSynFromUnknownDropped(conns: Connections, key: string, pkt: Packet, files: map<string, seq<string>>, e: string)
    requires key !in conns && pkt.kind != SYN
    ensures Dispatch(conns, key, pkt, files, e) == Outcome(conns, [])
  {
  }

  /** An ACK on a pending handshake sets the flag and nothing else. */
  lemma AckCompletesHandshake(conns: Connections, key: string, pkt: Packet, files: map<string, seq<string>>, e: string)
    requires key in conns && !conns[key].handshakeDone && pkt.kind == ACK
    ensures Dispatch(conns, key, pkt, files, e) == Outcome(conns[key := conns[key].(handshakeDone := true)], [])
  {
  }

  /** Requests are answered whether or not the handshake was completed: an
      EXPR_REQ gets one EXPR_RES, a FILE_REQ gets the file's reply in order. */
  lemma RequestsServedWithoutHandshake(conns: Connections, key: string, pkt: Packet,
                                       files: map<string, seq<string>>, e: string)
    requires key in conns && (pkt.kind == EXPR_REQ || pkt.kind == FILE_REQ)
    ensures var s := Dispatch(conns, key, pkt, files, e);
            && (pkt.kind == EXPR_REQ ==> |s.sent| == 1 && s.sent[0].kind == EXPR_RES && s.sent[0].payload == e)
            && (pkt.kind == FILE_REQ ==> s.sent == FileResponse(Lookup(files, pkt.payload), conns[key]).packets)
            && s.connections.Keys == conns.Keys
  {
  }

  /** DATA_ACK, a repeated SYN, an ACK after the handshake and every other
      type leave the table unchanged and send nothing: a repeated SYN never
      resets a connection. */
  lemma OthersIgnored(conns: Connections, key: string, pkt: Packet, files: map<string, seq<string>>, e: string)
    requires key in conns
    requires pkt.kind != EXPR_REQ && pkt.kind != FILE_REQ
    requires !(pkt.kind == ACK && !conns[key].handshakeDone)
    ensures Dispatch(conns, key, pkt, files, e) == Outcome(conns, [])
  {
  }

  /** What one step may change: only the sender's entry; the key set only
      grows; an existing entry keeps its client_seq and window, and its
      handshake flag never goes back to false. */
  predicate Evolves(before: Connections, after: Connections) {
    && before.Keys <= after.Keys
    && forall k :: k in before ==>
         && after[k].clientSeq == before[k].clientSeq
         && after[k].windowSize == before[k].windowSize
         && (before[k].handshakeDone ==> after[k].handshakeDone)
  }

  lemma DispatchEvolves(conns: Connections, key: string, pkt: Packet, files: map<string, seq<string>>, e: string)
    ensures var s := Dispatch(conns, key, pkt, files, e);
            && Evolves(conns, s.connections)
            && forall k :: k in conns && k != key ==> s.connections[k] == conns[k]
  {
  }

  /** A connection is created only by a SYN from an unknown key, and nothing
      is sent to a key that has no entry. */
  lemma DispatchKeys(conns: Connections, key: string, pkt: Packet, files: map<string, seq<string>>, e: string)
    ensures var s := Dispatch(conns, key, pkt, files, e);
            && s.connections.Keys == conns.Keys + (if key !in conns && pkt.kind == SYN then {key} else {})
            && (s.sent != [] ==> key in s.connections)
  {
  }

  /** A datagram as the loop sees it: the sender's key and the packet. */
  datatype Datagram = Datagram(key: string, pkt: Packet)

  /** The table after the loop has handled `traffic` in order; expression
      requests are evaluated by `eval`. */
  function Run(conns: Connections, traffic: seq<Datagram>, files: map<string, seq<string>>,
               eval: string -> string): Connections
    decreases |traffic|
  {
    if traffic == [] then conns
    else
      var last := traffic[|traffic| - 1];
      var before := Run(conns, traffic[..|traffic| - 1], files, eval);
      Dispatch(before, last.key, last.pkt, files, eval(last.pkt.payload)).connections
  }

  lemma EvolvesTransitive(a: Connections, b: Connections, c: Connections)
    requires Evolves(a, b) && Evolves(b, c)
    ensures Evolves(a, c)
  {
  }

  /** Across any traffic, entries are never removed and never reset. */
  lemma {:induction false} RunEvolves(conns: Connections, traffic: seq<Datagram>,
                                      files: map<string, seq<string>>, eval: string -> string)
    ensures Evolves(conns, Run(conns, traffic, files, eval))
    decreases |traffic|
  {
    if traffic != [] {
      var last := traffic[|traffic| - 1];
      var before := Run(conns, traffic[..|traffic| - 1], files, eval);
      RunEvolves(conns, traffic[..|traffic| - 1], files, eval);
      DispatchEvolves(before, last.key, last.pkt, files, eval(last.pkt.payload));
      EvolvesTransitive(conns, before, Run(conns, traffic, files, eval));
    }
  }

  /** Every entry the loop adds belongs to a key some datagram came from. */
  lemma {:induction false} RunKeys(conns: Connections, traffic: seq<Datagram>,
                                   files: map<string, seq<string>>, eval: string -> string)
    ensures forall k :: k in Run(conns, traffic, files, eval) && k !in conns ==>
              exists i :: 0 <= i < |traffic| && traffic[i].key == k
    decreases |traffic|
  {
    if traffic != [] {
      var n := |traffic| - 1;
      var last := traffic[n];
      RunKeys(conns, traffic[..n], files, eval);
      DispatchKeys(Run(conns, traffic[..n], files, eval), last.key, last.pkt, files, eval(last.pkt.payload));
      forall k | k in Run(conns, traffic, files, eval) && k !in conns
        ensures exists i :: 0 <= i < |traffic| && traffic[i].key == k
      {
        if k == last.key {
          assert traffic[n].key == k;
        } else {
          var i :| 0 <= i < n && traffic[..n][i].key == k;
          assert traffic[i].key == k;
        }
      }
    }
  }

  /** The packet types the client program ever sends. */
  predicate FromClient(pkt: Packet) {
    pkt.kind in {SYN, EXPR_REQ, FILE_REQ, DATA_ACK}
  }

  predicate NoHandshakeDone(conns: Connections) {
    forall k :: k in conns ==> !conns[k].handshakeDone
  }

  /** The client never sends a standalone ACK, so with client traffic alone
      no connection ever completes its handshake. */
  lemma {:induction false} ClientTrafficNeverCompletesHandshake(
    conns: Connections, traffic: seq<Datagram>, files: map<string, seq<string>>, eval: string -> string)
    requires NoHandshakeDone(conns)
    requires forall i :: 0 <= i < |traffic| ==> FromClient(traffic[i].pkt)
    ensures NoHandshakeDone(Run(conns, traffic, files, eval))
    decreases |traffic|
  {
    if traffic != [] {
      ClientTrafficNeverCompletesHandshake(conns, traffic[..|traffic| - 1], files, eval);
    }
  }
}
