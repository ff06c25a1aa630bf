/** The packet codec: the closed set of packet types, the packet record and
    its text wire format `type|seq|ack|window|payload`. */
module Packets {
  import opened Wrappers
  import opened Text

  type u16 = x: int | 0 <= x < 0x1_0000
  type u32 = x: int | 0 <= x < 0x1_0000_0000

  /** The C++ conversion of an int to uint32_t: reduction modulo 2^32. */
  function ToU32(v: int): (r: u32)
    ensures 0 <= v < 0x1_0000_0000 ==> r == v
    ensures v < 0 && v >= -0x1_0000_0000 ==> r == v + 0x1_0000_0000
  {
    v % 0x1_0000_0000
  }

  /** The C++ conversion of an int to uint16_t: reduction modulo 2^16. */
  function ToU16(v: int): (r: u16)
    ensures 0 <= v < 0x1_0000 ==> r == v
  {
    v % 0x1_0000
  }

  /** The ten packet types; their wire ordinals are 0 to 9 in this order. */
  datatype PacketType =
    | SYN | SYN_ACK | ACK | FILE_REQ | FILE_DATA
    | FILE_ERR | FILE_END | EXPR_REQ | EXPR_RES | DATA_ACK

  function Ordinal(t: PacketType): (n: nat)
    ensures n <= 9
  {
    match t
    case SYN => 0
    case SYN_ACK => 1
    case ACK => 2
    case FILE_REQ => 3
    case FILE_DATA => 4
    case FILE_ERR => 5
    case FILE_END => 6
    case EXPR_REQ => 7
    case EXPR_RES => 8
    case DATA_ACK => 9
  }

  /** parsePacketType: the type with ordinal v, or std::invalid_argument
      for any integer outside 0..9. */
  function ParsePacketType(v: int): (r: Result<PacketType, Exception>)
    ensures r.Success? <==> 0 <= v <= 9
    ensures r.Success? ==> Ordinal(r.value) == v
    ensures r.Failure? ==> r.error == InvalidArgument("Invalid PacketType value")
  {
    if v < 0 || v > 9 then Failure(InvalidArgument("Invalid PacketType value"))
    else
      match v
      case 0 => Success(SYN)
      case 1 => Success(SYN_ACK)
      case 2 => Success(ACK)
      case 3 => Success(FILE_REQ)
      case 4 => Success(FILE_DATA)
      case 5 => Success(FILE_ERR)
      case 6 => Success(FILE_END)
      case 7 => Success(EXPR_REQ)
      case 8 => Success(EXPR_RES)
      case _ => Success(DATA_ACK)
  }

  /** Every type is recovered from its ordinal. */
  lemma ParseOrdinal(t: PacketType)
    ensures ParsePacketType(Ordinal(t)) == Success(t)
  {
  }

  /** to_string(PacketType): the enumerator's own identifier. The source's
      "UNKNOWN" default cannot be reached by a value of the closed type. */
  function TypeName(t: PacketType): (name: string)
    ensures |name| >= 3
  {
    match t
    case SYN => "SYN"
    case SYN_ACK => "SYN_ACK"
    case ACK => "ACK"
    case FILE_REQ => "FILE_REQ"
    case FILE_DATA => "FILE_DATA"
    case FILE_ERR => "FILE_ERR"
    case FILE_END => "FILE_END"
    case EXPR_REQ => "EXPR_REQ"
    case EXPR_RES => "EXPR_RES"
    case DATA_ACK => "DATA_ACK"
  }

  /** No two types share a name. */
  lemma TypeNamesDistinct(s: PacketType, t: PacketType)
    requires TypeName(s) == TypeName(t)
    ensures s == t
  {
  }

  /** A packet, with the field order of the source's struct. */
  datatype Packet = Packet(seqNo: u32, ackNo: u32, window: u16, kind: PacketType, payload: string)

  /** serialize(): decimal type ordinal, seq, ack and window, then the payload,
      separated by '|'. The payload is written as it is. */
  function Serialize(p: Packet): string {
    Decimal(Ordinal(p.kind)) + "|" + Decimal(p.seqNo) + "|" + Decimal(p.ackNo) + "|"
      + Decimal(p.window) + "|" + p.payload
  }

  /** The text before the first newline (what getline(stream, s) keeps). */
  function FirstLine(s: string): (r: string)
    ensures '\n' !in r
    ensures '\n' !in s ==> r == s
    ensures '\n' in s ==> |r| < |s| && s == r + "\n" + s[|r| + 1..]
  {
    NextToken(Stream(s, true), [], '\n').1
  }

  /** The five pieces deserialize reads out of a datagram: four fields, each
      taken by a getline up to '|', and the payload, taken by a getline up to
      the end of the line. getline never throws, so splitting first and
      converting afterwards throws the same exception as the source. */
  datatype Fields = Fields(kind: string, seqNo: string, ackNo: string, window: string, payload: string)

  function Split(raw: string): Fields {
    var r1 := NextToken(Stream(raw, true), [], '|');
    var r2 := NextToken(r1.0, r1.1, '|');
    var r3 := NextToken(r2.0, r2.1, '|');
    var r4 := NextToken(r3.0, r3.1, '|');
    Fields(r1.1, r2.1, r3.1, r4.1, NextToken(r4.0, [], '\n').1)
  }

  /** The conversions, in the source's order: stoi and parsePacketType on the
      type, then stoi on seq, ack and window, each value reduced to the field's
      unsigned width as the C++ assignment does. The first exception wins. */
  function Convert(f: Fields): Result<Packet, Exception> {
    var v1 :- Stoi(f.kind);
    var kind :- ParsePacketType(v1);
    var v2 :- Stoi(f.seqNo);
    var v3 :- Stoi(f.ackNo);
    var v4 :- Stoi(f.window);
    Success(Packet(ToU32(v2), ToU32(v3), ToU16(v4), kind, f.payload))
  }

  /** deserialize(raw) as a value. */
  function Decode(raw: string): Result<Packet, Exception> {
    Convert(Split(raw))
  }

  /** Packet::deserialize: the read position of an istringstream advances
      through four '|'-terminated fields and then the payload line; the first
      exception ends the call. */
  method Deserialize(raw: string) returns (r: Result<Packet, Exception>)
    ensures r == Decode(raw)
  {
    var iss := new InputStream(raw);
    var token := "";
    token := iss.GetLine(token, '|');
    var v1 :- Stoi(token);
    var kind :- ParsePacketType(v1);
    token := iss.GetLine(token, '|');
    var v2 :- Stoi(token);
    var seqNo := ToU32(v2);
    token := iss.GetLine(token, '|');
    var v3 :- Stoi(token);
    var ackNo := ToU32(v3);
    token := iss.GetLine(token, '|');
    var v4 :- Stoi(token);
    var window := ToU16(v4);
    var payload := iss.GetLine("", '\n');
    return Success(Packet(seqNo, ackNo, window, kind, payload));
  }

  /** The layout serialize writes: a header of four numbers, each closed by
      '|', with no newline in it, then the payload as it is; getline splits
      it back into the decimals of type, seq, ack and window. */
  lemma SerializeLayout(p: Packet)
    ensures var r := Serialize(p);
            && |r| > |p.payload| + 4
            && r[|r| - |p.payload|..] == p.payload && r[|r| - |p.payload| - 1] == '|'
            && '\n' !in r[..|r| - |p.payload|]
            && Split(r) == Fields(Decimal(Ordinal(p.kind)), Decimal(p.seqNo), Decimal(p.ackNo),
                                  Decimal(p.window), FirstLine(p.payload))
  {
    var r := Serialize(p);
    assert |r| > |p.payload| + 4 && r[|r| - |p.payload|..] == p.payload && r[|r| - |p.payload| - 1] == '|'
           && '\n' !in r[..|r| - |p.payload|] by {
      NoDelimiterInDecimal(Ordinal(p.kind));
      NoDelimiterInDecimal(p.seqNo);
      NoDelimiterInDecimal(p.ackNo);
      NoDelimiterInDecimal(p.window);
      var h := Decimal(Ordinal(p.kind)) + "|" + Decimal(p.seqNo) + "|" + Decimal(p.ackNo) + "|"
               + Decimal(p.window) + "|";
      assert r == h + p.payload;
      assert r[..|h|] == h;
    }
    SplitSerialize(p);
  }

  /** What getline leaves in the five pieces: no field holds a '|' and the
      payload holds no newline. A datagram without any '|' yields itself as
      every numeric field (the later getline calls keep the token) and an
      empty payload. */
  lemma SplitTokens(raw: string)
    ensures var f := Split(raw);
            && '|' !in f.kind && '|' !in f.seqNo && '|' !in f.ackNo && '|' !in f.window
            && '\n' !in f.payload
            && ('|' !in raw ==> f == Fields(raw, raw, raw, raw, []))
  {
  }

  /** The conversions run in the source's order: an exception from the type
      field's stoi comes first, then parsePacketType's. */
  lemma ConvertOrder(f: Fields)
    ensures Stoi(f.kind).Failure? ==> Convert(f) == Failure(Stoi(f.kind).error)
    ensures Stoi(f.kind).Success? && ParsePacketType(Stoi(f.kind).value).Failure? ==>
              Convert(f) == Failure(InvalidArgument("Invalid PacketType value"))
  {
  }

  /** An empty datagram is rejected by stoi. */
  lemma DecodeEmpty()
    ensures Decode([]) == Failure(InvalidArgument("stoi"))
  {
    SplitTokens([]);
    assert Split([]) == Fields([], [], [], [], []);
    assert Stoi([]) == Failure(InvalidArgument("stoi")) by {
      assert SkipSpaces([]) == [] && Unsigned([]) == [] && LeadingDigits([]) == [];
    }
    ConvertOrder(Split([]));
  }

  /** serialize writes exactly four '|' of its own: every other '|' in the
      text comes from the payload. */
  lemma SerializeDelimiters(p: Packet)
    ensures multiset(Serialize(p))['|'] == 4 + multiset(p.payload)['|']
  {
    NoDelimiterInDecimal(Ordinal(p.kind));
    NoDelimiterInDecimal(p.seqNo);
    NoDelimiterInDecimal(p.ackNo);
    NoDelimiterInDecimal(p.window);
  }

  lemma NoDelimiterInDecimal(n: nat)
    ensures '|' !in Decimal(n) && '\n' !in Decimal(n)
  {
  }

  /** Decoding a serialized packet reads the type, seq, ack and window back
      exactly and the payload up to its first newline, provided seq and ack fit
      in a signed int; a '|' inside the payload is kept. */
  lemma DecodeSerialize(p: Packet)
    requires p.seqNo <= INT_MAX && p.ackNo <= INT_MAX
    ensures Decode(Serialize(p)) == Success(p.(payload := FirstLine(p.payload)))
  {
    SplitSerialize(p);
    ConvertDecimalFields(p.(payload := FirstLine(p.payload)));
  }

  /** Converting the decimal texts of a packet's numbers gives the packet back
      when its seq and ack fit in a signed int, and throws out_of_range otherwise. */
  lemma ConvertDecimalFields(p: Packet)
    ensures var r := Convert(Fields(Decimal(Ordinal(p.kind)), Decimal(p.seqNo), Decimal(p.ackNo),
                                    Decimal(p.window), p.payload));
            if p.seqNo <= INT_MAX && p.ackNo <= INT_MAX then r == Success(p)
            else r == Failure(OutOfRange("stoi"))
  {
    var f := Fields(Decimal(Ordinal(p.kind)), Decimal(p.seqNo), Decimal(p.ackNo), Decimal(p.window), p.payload);
    assert Stoi(f.kind) == Success(Ordinal(p.kind)) by {
      StoiDecimal(Ordinal(p.kind));
    }
    assert Stoi(f.window) == Success(p.window) by {
      StoiDecimal(p.window);
    }
    assert Stoi(f.seqNo) == if p.seqNo <= INT_MAX then Success(p.seqNo) else Failure(OutOfRange("stoi")) by {
      StoiDecimal(p.seqNo);
    }
    assert Stoi(f.ackNo) == if p.ackNo <= INT_MAX then Success(p.ackNo) else Failure(OutOfRange("stoi")) by {
      StoiDecimal(p.ackNo);
    }
    ConvertNumbers(f, p.kind, Stoi(f.seqNo), Stoi(f.ackNo), p.window);
  }

  /** Convert once the four stoi results are known: the first failure among
      seq and ack is thrown, otherwise the numbers are reduced to the fields'
      widths. */
  lemma ConvertNumbers(f: Fields, t: PacketType, sq: Result<int, Exception>, ak: Result<int, Exception>, w: int)
    requires Stoi(f.kind) == Success(Ordinal(t)) && Stoi(f.window) == Success(w)
    requires Stoi(f.seqNo) == sq && Stoi(f.ackNo) == ak
    ensures sq.Failure? ==> Convert(f) == Failure(sq.error)
    ensures sq.Success? && ak.Failure? ==> Convert(f) == Failure(ak.error)
    ensures sq.Success? && ak.Success? ==>
              Convert(f) == Success(Packet(ToU32(sq.value), ToU32(ak.value), ToU16(w), t, f.payload))
  {
    ParseOrdinal(t);
  }

  /** A datagram with four '|'-free fields, each followed by a '|', splits
      into exactly those fields and the first line of what follows. */
  lemma SplitFields(f0: string, f1: string, f2: string, f3: string, payload: string)
    requires '|' !in f0 && '|' !in f1 && '|' !in f2 && '|' !in f3
    ensures Split(f0 + "|" + f1 + "|" + f2 + "|" + f3 + "|" + payload) == Fields(f0, f1, f2, f3, FirstLine(payload))
  {
    var tail3 := f3 + "|" + payload;
    var tail2 := f2 + "|" + tail3;
    var tail1 := f1 + "|" + tail2;
    assert f0 + "|" + f1 + "|" + f2 + "|" + f3 + "|" + payload == f0 + "|" + tail1;
    NextTokenSplit(f0, '|', tail1, []);
    NextTokenSplit(f1, '|', tail2, f0);
    NextTokenSplit(f2, '|', tail3, f1);
    NextTokenSplit(f3, '|', payload, f2);
  }

  /** Splitting a serialized packet gives back the decimal fields and the
      payload's first line: no decimal text contains a '|'. */
  lemma SplitSerialize(p: Packet)
    ensures Split(Serialize(p)) == Fields(Decimal(Ordinal(p.kind)), Decimal(p.seqNo), Decimal(p.ackNo),
                                          Decimal(p.window), FirstLine(p.payload))
  {
    NoDelimiterInDecimal(Ordinal(p.kind));
    NoDelimiterInDecimal(p.seqNo);
    NoDelimiterInDecimal(p.ackNo);
    NoDelimiterInDecimal(p.window);
    SplitFields(Decimal(Ordinal(p.kind)), Decimal(p.seqNo), Decimal(p.ackNo), Decimal(p.window), p.payload);
  }

  /** The round trip: a packet whose payload has no newline and whose seq and
      ack are below 2^31 decodes back to itself. */
  lemma RoundTrip(p: Packet)
    requires '\n' !in p.payload
    requires p.seqNo <= INT_MAX && p.ackNo <= INT_MAX
    ensures Decode(Serialize(p)) == Success(p)
  {
    DecodeSerialize(p);
  }

  /** A seq or ack of 2^31 or more is written as unsigned but read back with a
      signed stoi, so decoding the packet's own text throws out_of_range. */
  lemma DecodeSerializeOutOfRange(p: Packet)
    requires p.seqNo > INT_MAX || p.ackNo > INT_MAX
    ensures Decode(Serialize(p)) == Failure(OutOfRange("stoi"))
  {
    SplitSerialize(p);
    ConvertDecimalFields(p.(payload := FirstLine(p.payload)));
  }

  /** A datagram whose leading number is not a type ordinal is rejected with
      std::invalid_argument, whatever follows it. */
  lemma DecodeRejectsUnknownType(n: nat, rest: string)
    requires 9 < n <= INT_MAX
    ensures Decode(Decimal(n) + "|" + rest) == Failure(InvalidArgument("Invalid PacketType value"))
  {
    NoDelimiterInDecimal(n);
    NextTokenSplit(Decimal(n), '|', rest, []);
    StoiDecimal(n);
  }

  /** A datagram whose first field holds no number is rejected by stoi. */
  lemma DecodeRejectsNonNumericType(field: string, rest: string)
    requires '|' !in field && LeadingDigits(Unsigned(SkipSpaces(field))) == []
    ensures Decode(field + "|" + rest) == Failure(InvalidArgument("stoi"))
  {
    NextTokenSplit(field, '|', rest, []);
  }

  /** A datagram with fewer than four '|' is not rejected: once getline hits
      the end of the text, the later getline calls leave the token as it was,
      so the last number read is reused for the remaining fields. */
  lemma ShortDatagramReusesLastField()
    ensures Decode("4|7") == Success(Packet(7, 7, 7, FILE_DATA, ""))
  {
    assert "4|7" == "4" + "|" + "7";
    NextTokenSplit("4", '|', "7", []);
    assert '|' !in "7";
    assert Split("4|7") == Fields("4", "7", "7", "7", "");
    assert Decimal(4) == "4" && Decimal(7) == "7";
    ConvertShortFields();
  }

  lemma ConvertShortFields()
    ensures Convert(Fields(Decimal(4), Decimal(7), Decimal(7), Decimal(7), "")) == Success(Packet(7, 7, 7, FILE_DATA, ""))
  {
    StoiDecimal(4);
    StoiDecimal(7);
    ConvertRepeatedField(Decimal(4), Decimal(7), FILE_DATA, 7);
  }

  /** The fields of a short datagram: the type's text, then one number's
      text repeated in every numeric field. */
  lemma ConvertRepeatedField(kindText: string, numText: string, t: PacketType, v: nat)
    requires Stoi(kindText) == Success(Ordinal(t)) && Stoi(numText) == Success(v) && v < 0x1_0000
    ensures Convert(Fields(kindText, numText, numText, numText, "")) == Success(Packet(v, v, v, t, ""))
  {
    ParseOrdinal(t);
  }

  /** stoi is signed, so a negative seq is accepted and wraps to uint32. */
  lemma NegativeSeqWraps()
    ensures Decode("0|-1|0|0|") == Success(Packet(0xFFFF_FFFF, 0, 0, SYN, ""))
  {
    SplitNegativeDatagram();
    ConvertNegativeFields();
  }

  lemma SplitNegativeDatagram()
    ensures Split("0|-1|0|0|") == Fields("0", "-1", "0", "0", "")
  {
    assert "0|-1|0|0|" == "0" + "|" + "-1" + "|" + "0" + "|" + "0" + "|" + "";
    SplitFields("0", "-1", "0", "0", "");
  }

  lemma ConvertNegativeFields()
    ensures Convert(Fields("0", "-1", "0", "0", "")) == Success(Packet(0xFFFF_FFFF, 0, 0, SYN, ""))
  {
    assert Decimal(0) == "0" && Decimal(1) == "1";
    assert "-1" == "-" + Decimal(1);
    StoiDecimal(0);
    StoiNegative(1);
    assert Stoi("-1") == Success(-1);
    assert ToU32(-1) == 0xFFFF_FFFF;
  }
}
