/** The wire format octet by octet (section 4.1 of RFC 1035, section 6.1.2 of RFC 6891). */
module DnsWire {
  import opened Bytes
  import opened DnsNames
  import opened DnsMessage
  import opened DnsRoundTrip

  /** Two octets of `b` as a number. */
  function Number(b: seq<byte>, pos: nat): nat
    requires pos + 2 <= |b|
  {
    256 * (b[pos] as int) + b[pos + 1] as int
  }

  /** The weight of a bit that is set. */
  function Weight(bit: bool, weight: nat): nat {
    if bit then weight else 0
  }

  lemma NumberAt(raw: seq<byte>, pos: nat, v: uint16)
    requires At(raw, pos, PutUint16(v))
    ensures Number(raw, pos) == v
  {
    FieldAt(raw, pos, v);
    BigEndian(raw[pos..]);
  }

  /** The header: ID, flags, and the sizes of the four sections. */
  lemma PackedHeader(m: Message)
    requires Pack(m).Some?
    ensures var raw, h := Pack(m).value, m.header;
            && |raw| >= 12 && Number(raw, 0) == h.id
            && raw[2] as int == Weight(h.response, 128) + 8 * h.opCode + Weight(h.authoritative, 4)
                                + Weight(h.truncated, 2) + Weight(h.recursionDesired, 1)
            && raw[3] as int == Weight(h.recursionAvailable, 128) + Weight(h.authenticData, 32)
                                + Weight(h.checkingDisabled, 16) + h.rCode
            && Number(raw, 4) == |m.questions| && Number(raw, 6) == |m.answers|
            && Number(raw, 8) == |m.authorities| && Number(raw, 10) == |m.additionals|
  {
    hide Packable, PackItems, Items;
    var raw := Pack(m).value;
    assert raw[0..0 + HEADER_LEN] == PutHeader(m);
    HeaderFields(m, raw);
  }

  lemma HeaderFields(m: Message, raw: seq<byte>)
    requires Packable(m) && At(raw, 0, PutHeader(m))
    ensures |raw| >= 12 && Number(raw, 0) == m.header.id && raw[2..4] == PutFlags(m.header)
    ensures Number(raw, 4) == |m.questions| && Number(raw, 6) == |m.answers|
    ensures Number(raw, 8) == |m.authorities| && Number(raw, 10) == |m.additionals|
  {
    hide PutFlags, PutUint16, Number;
    var id, flags := PutUint16(m.header.id), PutFlags(m.header);
    var qd, an := PutUint16(|m.questions|), PutUint16(|m.answers|);
    var ns, ar := PutUint16(|m.authorities|), PutUint16(|m.additionals|);
    AtSplit(raw, 0, id + flags + qd + an + ns, ar);
    AtSplit(raw, 0, id + flags + qd + an, ns);
    AtSplit(raw, 0, id + flags + qd, an);
    AtSplit(raw, 0, id + flags, qd);
    AtSplit(raw, 0, id, flags);
    NumberAt(raw, 0, m.header.id);
    NumberAt(raw, 4, |m.questions|);
    NumberAt(raw, 6, |m.answers|);
    NumberAt(raw, 8, |m.authorities|);
    NumberAt(raw, 10, |m.additionals|);
  }

  /** A pointer is two octets whose first two bits are set. */
  lemma PointerOctets(p: Pointer)
    ensures Number(PutPointer(p), 0) == 0xC000 + p
  {
  }

  /** A name written out: a length and that many octets for every label, and a zero octet. */
  lemma LabelOctets(off: nat, offsets: Offsets, name: Name)
    requires name !in offsets || name == []
    ensures var b := PackName(off, offsets, name).bytes;
            if name == [] then b == [0]
            else |b| > |name[0]| && b[0] as int == |name[0]| && b[1..1 + |name[0]|] == name[0]
  {
  }

  /** A question behind its name: type and class. */
  lemma QuestionOctets(q: Question)
    ensures var t := QuestionItem(q).tail;
            |t| == 4 && Number(t, 0) == q.qtype && Number(t, 2) == q.qclass
  {
    var t := QuestionItem(q).tail;
    assert t[0..2] == PutUint16(q.qtype) && t[2..4] == PutUint16(q.qclass);
    NumberAt(t, 0, q.qtype);
    NumberAt(t, 2, q.qclass);
  }

  /** A record behind its name: type, class, four octets of TTL, the length of the data, and the data. */
  lemma ResourceOctets(r: Resource)
    requires PackableResource(r)
    ensures var t := ResourceItem(r).tail;
            && |t| == 10 + BodyLen(r.body) && Number(t, 0) == TypeOf(r.body) && Number(t, 2) == r.rclass
            && 0x1_0000 * Number(t, 4) + Number(t, 6) == r.ttl
            && Number(t, 8) == BodyLen(r.body) && t[10..] == PutBody(r.body)
            && (TypeOf(r.body) == 41 <==> r.body.Opt?)
  {
    hide Number;
    var t := ResourceItem(r).tail;
    var rtype, rclass, hi, lo, len := PutUint16(TypeOf(r.body)), PutUint16(r.rclass), PutUint16(r.ttl / 0x1_0000),
                                      PutUint16(r.ttl % 0x1_0000), PutUint16(BodyLen(r.body));
    assert t[0..2] == rtype && t[2..4] == rclass && t[4..6] == hi && t[6..8] == lo && t[8..10] == len;
    NumberAt(t, 0, TypeOf(r.body));
    NumberAt(t, 2, r.rclass);
    NumberAt(t, 4, r.ttl / 0x1_0000);
    NumberAt(t, 6, r.ttl % 0x1_0000);
    NumberAt(t, 8, BodyLen(r.body));
  }

  /** The data of an OPT record: for every option its code, its length, and its octets. */
  lemma OptionOctets(o: EdnsOption, rest: seq<EdnsOption>)
    requires OptionsLen([o] + rest) <= 65535
    ensures OptionsLen([o] + rest) == 4 + |o.data| + OptionsLen(rest)
    ensures var b := PutOptions([o] + rest);
            && |b| >= 4 + |o.data| && Number(b, 0) == o.code && Number(b, 2) == |o.data|
            && b[4..4 + |o.data|] == o.data && b[4 + |o.data|..] == PutOptions(rest)
  {
    assert ([o] + rest)[1..] == rest;
    var b := PutOptions([o] + rest);
    assert b[0..2] == PutUint16(o.code) && b[2..4] == PutUint16(|o.data|);
    NumberAt(b, 0, o.code);
    NumberAt(b, 2, |o.data|);
  }

  // ----- What does not fit -----

  lemma {:induction false} NamesFitExactly(qs: seq<Question>)
    ensures NamesFit(qs) <==> forall i :: 0 <= i < |qs| ==> WireLen(qs[i].name) <= 255
    decreases |qs|
  {
    if qs == [] {
    } else {
      NamesFitExactly(qs[1..]);
      assert qs == [qs[0]] + qs[1..];
    }
  }

  lemma {:induction false} AllPackableExactly(rs: seq<Resource>)
    ensures AllPackable(rs) <==>
              forall i :: 0 <= i < |rs| ==> WireLen(rs[i].name) <= 255 && BodyLen(rs[i].body) <= 65535
    decreases |rs|
  {
    if rs == [] {
    } else {
      AllPackableExactly(rs[1..]);
      assert rs == [rs[0]] + rs[1..];
    }
  }

  predicate SectionFits(rs: seq<Resource>) {
    |rs| <= 65535 && forall i :: 0 <= i < |rs| ==> WireLen(rs[i].name) <= 255 && BodyLen(rs[i].body) <= 65535
  }

  /** Packing fails exactly on a section, a name or record data that is too long. */
  lemma PacksExactly(m: Message)
    ensures Pack(m).Some? <==>
              && |m.questions| <= 65535 && (forall i :: 0 <= i < |m.questions| ==> WireLen(m.questions[i].name) <= 255)
              && SectionFits(m.answers) && SectionFits(m.authorities) && SectionFits(m.additionals)
  {
    hide NamesFit, AllPackable, PutHeader, PackItems, Items, WireLen, BodyLen;
    NamesFitExactly(m.questions);
    AllPackableExactly(m.answers);
    AllPackableExactly(m.authorities);
    AllPackableExactly(m.additionals);
  }

  // ----- A message on the wire -----

  const LABEL_A: Label := [97]
  const NAME_A: Name := [LABEL_A]

  /** A question for the name a and an address record of that name. */
  const EXAMPLE := Message(
    Header(0x1234, false, 0, false, false, true, false, false, false, 0), [Question(NAME_A, 1, 1)], [], [],
    [Resource(NAME_A, 1, 60, Other(1, [192, 0, 2, 1]))])

  const QUESTION_TAIL: seq<byte> := [0, 1, 0, 1]
  const RECORD_TAIL: seq<byte> := [0, 1, 0, 1, 0, 0, 0, 60, 0, 4, 192, 0, 2, 1]

  lemma ExamplePacks(m: Message)
    requires m == EXAMPLE
    ensures Packable(m) && Items(m) == [Item(NAME_A, QUESTION_TAIL), Item(NAME_A, RECORD_TAIL)]
  {
    var q, r := m.questions[0], m.additionals[0];
    assert NAME_A[1..] == [] && WireLen(NAME_A) == 3;
    assert m.questions[1..] == [] && m.additionals[1..] == [];
    assert PackableResource(r);
    assert QuestionItem(q).tail == QUESTION_TAIL;
    assert ResourceItem(r).tail == RECORD_TAIL;
    assert QuestionItems(m.questions) == [QuestionItem(q)];
    assert ResourceItems(m.additionals) == [ResourceItem(r)];
    assert ResourceItems(m.answers) == [] && ResourceItems(m.authorities) == [];
  }

  lemma NameWritten(offsets: Offsets)
    requires offsets == map[]
    ensures PackName(12, offsets, NAME_A) == Packed([1, 97, 0], map[NAME_A := 12])
  {
    assert NAME_A[0] == LABEL_A && NAME_A[1..] == [];
    var after := Register(offsets, NAME_A, 12);
    assert after == map[NAME_A := 12];
    assert PackName(14, after, []) == Packed([0], after);
    assert PackName(12, offsets, NAME_A) == Packed([1] + LABEL_A + [0], after);
  }

  lemma NameReferredTo(offsets: Offsets)
    requires offsets == map[NAME_A := 12]
    ensures PackName(19, offsets, NAME_A) == Packed([0xC0, 12], offsets)
  {
  }

  lemma ExampleItems(first: Item, second: Item)
    requires first == Item(NAME_A, QUESTION_TAIL) && second == Item(NAME_A, RECORD_TAIL)
    ensures PackItems(12, map[], [first, second]).bytes == [1, 97, 0] + QUESTION_TAIL + ([0xC0, 12] + RECORD_TAIL + [])
  {
    hide PackName;
    NameWritten(map[]);
    NameReferredTo(map[NAME_A := 12]);
    assert [first, second][1..] == [second] && [second][1..] == [];
    assert PackItems(12 + 7 + |PackItem(19, map[NAME_A := 12], second).bytes|, map[NAME_A := 12], []).bytes == [];
    assert PackItems(19, map[NAME_A := 12], [second]).bytes == [0xC0, 12] + RECORD_TAIL + [];
  }

  lemma SmallNumbers()
    ensures PutUint16(0) == [0, 0] && PutUint16(1) == [0, 1] && PutUint16(0x1234) == [0x12, 0x34]
  {
  }

  lemma ExampleFlags(h: Header)
    requires !h.response && !h.authoritative && !h.truncated && h.recursionDesired && h.opCode == 0
    requires !h.recursionAvailable && !h.authenticData && !h.checkingDisabled && h.rCode == 0
    ensures PutFlags(h) == [1, 0]
  {
  }

  lemma ExampleHeader(m: Message)
    requires m == EXAMPLE && Packable(m)
    ensures PutHeader(m) == [0x12, 0x34, 1, 0, 0, 1, 0, 0, 0, 0, 0, 1]
  {
    hide PutUint16, PutFlags, Packable;
    SmallNumbers();
    ExampleFlags(m.header);
    assert |m.questions| == 1 && |m.answers| == 0 && |m.authorities| == 0 && |m.additionals| == 1;
    assert PutHeader(m) == [0x12, 0x34] + [1, 0] + [0, 1] + [0, 0] + [0, 0] + [0, 1];
  }

  /** The name is written once, at offset 12, and the record refers to it. */
  lemma ExampleOctets(m: Message)
    requires m == EXAMPLE
    ensures Pack(m) == Some([0x12, 0x34, 1, 0, 0, 1, 0, 0, 0, 0, 0, 1]
                            + ([1, 97, 0] + [0, 1, 0, 1]
                               + ([0xC0, 12] + [0, 1, 0, 1, 0, 0, 0, 60, 0, 4, 192, 0, 2, 1] + [])))
  {
    hide PackItems, Items, Packable, PutHeader;
    ExamplePacks(m);
    ExampleItems(Items(m)[0], Items(m)[1]);
    ExampleHeader(m);
  }
}
