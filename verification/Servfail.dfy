/** SERVFAIL responses (proxy/doh/doh.go), which both resolvers give instead of an upstream response. */
module Servfails {
  import opened Bytes
  import opened DnsMessage
  import opened DnsRoundTrip
  import opened Padding

  const RCODE_SERVER_FAILURE: nibble := 2

  /** The query as a response that reports a server failure, without EDNS. */
  function Refusal(m: Message): Message {
    m.(header := m.header.(response := true, recursionAvailable := true, rCode := RCODE_SERVER_FAILURE),
       additionals := [])
  }

  /** None stands for an error; tryServfail then returns nil. */
  function Servfail(q: seq<byte>): Option<seq<byte>> {
    match Unpack(q)
    case None => None
    case Some(m) => Pack(Refusal(m))
  }

  // ----- Whatever can be unpacked can be packed again -----

  lemma {:induction false} ParsedOptionsLen(data: seq<byte>)
    requires ParseOptions(data).Some?
    ensures OptionsLen(ParseOptions(data).value) == |data|
    decreases |data|
  {
    if data == [] {
    } else {
      var end := 4 + GetUint16(data[2..4]) as int;
      ParsedOptionsLen(data[end..]);
      var options := ParseOptions(data).value;
      assert options[1..] == ParseOptions(data[end..]).value;
    }
  }

  lemma ParsedBodyLen(rtype: uint16, data: seq<byte>)
    requires ParseBody(rtype, data).Some?
    ensures BodyLen(ParseBody(rtype, data).value) == |data|
  {
    if rtype == TYPE_OPT {
      ParsedOptionsLen(data);
    }
  }

  lemma ParsedResourcePackable(raw: seq<byte>, pos: nat)
    requires ParseResource(raw, pos).Some?
    ensures PackableResource(ParseResource(raw, pos).value.value)
  {
    hide ParseBody, ParseName, BodyLen;
    var next := ParseName(raw, pos).value.next;
    var end := next + 10 + GetUint16(raw[next + 8..]) as int;
    ParsedBodyLen(GetUint16(raw[next..]), raw[next + 10..end]);
  }

  lemma {:induction false} ParsedResourcesPackable(raw: seq<byte>, pos: nat, count: nat)
    requires ParseResources(raw, pos, count).Some?
    ensures var rs := ParseResources(raw, pos, count).value.value; |rs| == count && AllPackable(rs)
    decreases count
  {
    hide ParseResource, PackableResource;
    if count == 0 {
    } else {
      var first := ParseResource(raw, pos).value;
      ParsedResourcePackable(raw, pos);
      ParsedResourcesPackable(raw, first.next, count - 1);
      var rest := ParseResources(raw, first.next, count - 1).value.value;
      assert ([first.value] + rest)[1..] == rest;
    }
  }

  lemma {:induction false} ParsedQuestionsFit(raw: seq<byte>, pos: nat, count: nat)
    requires ParseQuestions(raw, pos, count).Some?
    ensures var qs := ParseQuestions(raw, pos, count).value.value; |qs| == count && NamesFit(qs)
    decreases count
  {
    hide ParseQuestion;
    if count == 0 {
    } else {
      var first := ParseQuestion(raw, pos).value;
      ParsedQuestionsFit(raw, first.next, count - 1);
      var rest := ParseQuestions(raw, first.next, count - 1).value.value;
      assert ([first.value] + rest)[1..] == rest;
    }
  }

  /** The sections of an unpacked message, in the order in which they are read. */
  lemma UnpackedSections(raw: seq<byte>)
    returns (qs: Parsed<seq<Question>>, an: Parsed<seq<Resource>>, ns: Parsed<seq<Resource>>, ar: Parsed<seq<Resource>>)
    requires Unpack(raw).Some?
    ensures |raw| >= HEADER_LEN
    ensures ParseQuestions(raw, HEADER_LEN, GetUint16(raw[4..])) == Some(qs)
    ensures ParseResources(raw, qs.next, GetUint16(raw[6..])) == Some(an)
    ensures ParseResources(raw, an.next, GetUint16(raw[8..])) == Some(ns)
    ensures ParseResources(raw, ns.next, GetUint16(raw[10..])) == Some(ar)
    ensures Unpack(raw)
            == Some(Message(GetFlags(GetUint16(raw), raw[2], raw[3]), qs.value, an.value, ns.value, ar.value))
  {
    hide ParseQuestions, ParseResources, GetFlags, GetUint16;
    qs := ParseQuestions(raw, HEADER_LEN, GetUint16(raw[4..])).value;
    an := ParseResources(raw, qs.next, GetUint16(raw[6..])).value;
    ns := ParseResources(raw, an.next, GetUint16(raw[8..])).value;
    ar := ParseResources(raw, ns.next, GetUint16(raw[10..])).value;
  }

  /** Every unpacked message can be packed, and carries the ID that the first two octets spell. */
  lemma UnpackedIsPackable(raw: seq<byte>)
    requires Unpack(raw).Some?
    ensures |raw| >= HEADER_LEN && Packable(Unpack(raw).value) && Unpack(raw).value.header.id == GetUint16(raw)
  {
    hide Unpack, ParseQuestions, ParseResources, AllPackable, NamesFit;
    var qs, an, ns, ar := UnpackedSections(raw);
    ParsedQuestionsFit(raw, HEADER_LEN, GetUint16(raw[4..]));
    ParsedResourcesPackable(raw, qs.next, GetUint16(raw[6..]));
    ParsedResourcesPackable(raw, an.next, GetUint16(raw[8..]));
    ParsedResourcesPackable(raw, ns.next, GetUint16(raw[10..]));
  }

  /** Packing writes the ID first. */
  lemma PackedId(m: Message)
    requires Pack(m).Some?
    ensures |Pack(m).value| >= HEADER_LEN && GetUint16(Pack(m).value) == m.header.id
  {
    hide PackItems, Items, Packable;
    var raw := Pack(m).value;
    assert raw[..2] == PutUint16(m.header.id);
    assert GetUint16(raw[..2]) == GetUint16(raw);
  }

  // ----- What the stub resolver sees -----

  /** A response exists exactly for a well-formed query; it reads back as the refusal and carries the query's ID. */
  lemma ServfailAnswers(q: seq<byte>)
    ensures Servfail(q).Some? <==> Unpack(q).Some?
    ensures Servfail(q).Some? ==>
              && Unpack(Servfail(q).value) == Some(Refusal(Unpack(q).value))
              && |q| >= HEADER_LEN && |Servfail(q).value| >= HEADER_LEN
              && GetUint16(Servfail(q).value) == GetUint16(q)
  {
    hide Unpack, Pack;
    if Unpack(q).Some? {
      var m := Unpack(q).value;
      UnpackedIsPackable(q);
      RefusalPacks(m);
      UnpackInvertsPack(Refusal(m));
      PackedId(Refusal(m));
    }
  }

  /** The flags of an octet of the query that stay as they are. */
  lemma KeptFlags(q: seq<byte>, s: seq<byte>)
    requires |q| >= 12 && |s| >= 12
    requires var h, g := GetFlags(0, q[2], q[3]), GetFlags(0, s[2], s[3]);
             && g.response && g.recursionAvailable && g.rCode == 2
             && g == h.(response := true, recursionAvailable := true, rCode := 2)
    ensures s[2] / 128 == 1 && s[3] / 128 == 1 && s[3] % 16 == 2
    ensures s[2] % 128 == q[2] % 128 && s[3] / 16 % 4 == q[3] / 16 % 4
  {
    LowSeven(q[2]);
    LowSeven(s[2]);
    TwoBits(q[3]);
    TwoBits(s[3]);
  }

  lemma LowSeven(x: byte)
    ensures x % 128 == 8 * (x / 8 % 16) + 4 * (x / 4 % 2) + 2 * (x / 2 % 2) + x % 2
  {
    HalfOfHalf(x);
    HalfOfQuarter(x);
    PartOfEighth(x);
    var half, quarter, eighth := x / 2, x / 4, x / 8;
    assert x == 2 * half + x % 2 && half == 2 * quarter + half % 2;
    assert quarter == 2 * eighth + quarter % 2 && eighth == 16 * (x / 128) + eighth % 16;
  }

  lemma HalfOfHalf(x: byte)
    ensures x / 2 / 2 == x / 4
  {
  }

  lemma HalfOfQuarter(x: byte)
    ensures x / 4 / 2 == x / 8
  {
  }

  lemma PartOfEighth(x: byte)
    ensures x / 8 / 16 == x / 128
  {
  }

  lemma TwoBits(x: byte)
    ensures x / 16 % 4 == 2 * (x / 32 % 2) + x / 16 % 2
  {
  }

  /**
   * The response octet by octet: QR and RA are set and the RCODE is 2, all else in the header is the
   * query's, and so are all records but the additional ones, of which there are none.
   */
  lemma ServfailOctets(q: seq<byte>)
    requires Servfail(q).Some?
    ensures Unpack(q).Some? && Unpack(Servfail(q).value).Some? && |q| >= 12 && |Servfail(q).value| >= 12
    ensures var s := Servfail(q).value;
            && s[2] / 128 == 1 && s[3] / 128 == 1 && s[3] % 16 == 2 && s[10] == 0 && s[11] == 0
            && s[0] == q[0] && s[1] == q[1] && s[2] % 128 == q[2] % 128 && s[3] / 16 % 4 == q[3] / 16 % 4
    ensures var m, r := Unpack(q).value, Unpack(Servfail(q).value).value;
            && r.questions == m.questions && r.answers == m.answers && r.authorities == m.authorities
            && r.additionals == [] && r.header.rCode == 2 && r.header.opCode == m.header.opCode
  {
    hide Unpack, Pack;
    ServfailAnswers(q);
    var s := Servfail(q).value;
    UnpackedFlags(q);
    UnpackedFlags(s);
    KeptFlags(q, s);
    BigEndian(q);
    BigEndian(s);
    RefusalCounts(Unpack(q).value, s);
  }

  lemma UnpackedFlags(raw: seq<byte>)
    requires Unpack(raw).Some?
    ensures |raw| >= 12 && Unpack(raw).value.header == GetFlags(GetUint16(raw), raw[2], raw[3])
  {
    hide ParseQuestions, ParseResources, GetFlags;
  }

  lemma RefusalCounts(m: Message, s: seq<byte>)
    requires Pack(Refusal(m)) == Some(s)
    ensures |s| >= 12 && s[10] == 0 && s[11] == 0
  {
    hide Packable, PackItems, Items, PutFlags, PutUint16;
    assert s[10..12] == PutUint16(0);
    ZeroOctets();
    assert s[10] == s[10..12][0] && s[11] == s[10..12][1];
  }

  lemma ZeroOctets()
    ensures PutUint16(0) == [0, 0]
  {
  }

  lemma RefusalPacks(m: Message)
    requires Packable(m)
    ensures Pack(Refusal(m)).Some?
  {
  }

  /** SERVFAIL erases padding: failures before and after the query is padded give the same response. */
  lemma ServfailErasesPadding(q: seq<byte>)
    requires Padded(q).Some?
    ensures Servfail(Padded(q).value) == Servfail(q)
  {
    hide Unpack, Pack;
    if !AlreadyPadded(q) {
      PaddingPreserves(q);
      assert Refusal(Unpack(Padded(q).value).value) == Refusal(Unpack(q).value);
    }
  }

  /** Padding keeps the ID, and a padded query is never shorter than a header. */
  lemma PaddedKeepsId(q: seq<byte>)
    requires Padded(q).Some?
    ensures |q| >= HEADER_LEN && |Padded(q).value| >= HEADER_LEN && GetUint16(Padded(q).value) == GetUint16(q)
  {
    hide Unpack, Pack;
    UnpackedIsPackable(q);
    if !AlreadyPadded(q) {
      PaddingPreserves(q);
      UnpackedIsPackable(Padded(q).value);
    }
  }

  /** Only a query that unpacks can be padded. */
  lemma PaddedUnpacks(q: seq<byte>)
    ensures Padded(q).Some? ==> Unpack(q).Some?
  {
    hide Unpack, Pack;
  }
}
