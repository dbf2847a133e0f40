/**
 * DNS messages and their wire format (section 4 of RFC 1035, section 6.1.2 of RFC 6891 for OPT).
 * RDATA other than that of OPT records is opaque; all owner names are compressed.
 */
module DnsMessage {
  import opened Bytes
  import opened DnsNames

  const HEADER_LEN := 12
  const TYPE_OPT: uint16 := 41

  type nibble = x: int | 0 <= x < 16

  type uint32 = x: int | 0 <= x < 0x1_0000_0000

  datatype Header = Header(
    id: uint16, response: bool, opCode: nibble, authoritative: bool, truncated: bool, recursionDesired: bool,
    recursionAvailable: bool, authenticData: bool, checkingDisabled: bool, rCode: nibble)

  datatype Question = Question(name: Name, qtype: uint16, qclass: uint16)

  datatype EdnsOption = EdnsOption(code: uint16, data: seq<byte>)

  type OtherType = t: uint16 | t != TYPE_OPT witness 1

  datatype Body = Opt(options: seq<EdnsOption>) | Other(rtype: OtherType, data: seq<byte>)

  datatype Resource = Resource(name: Name, rclass: uint16, ttl: uint32, body: Body)

  datatype Message = Message(
    header: Header, questions: seq<Question>,
    answers: seq<Resource>, authorities: seq<Resource>, additionals: seq<Resource>)

  // ----- What can be packed -----

  function OptionsLen(options: seq<EdnsOption>): nat {
    if options == [] then 0 else 4 + |options[0].data| + OptionsLen(options[1..])
  }

  function BodyLen(body: Body): nat {
    match body
    case Opt(options) => OptionsLen(options)
    case Other(_, data) => |data|
  }

  predicate PackableResource(r: Resource) {
    WireLen(r.name) <= MAX_NAME_LEN && BodyLen(r.body) <= MAX_UINT16
  }

  predicate AllPackable(rs: seq<Resource>) {
    rs == [] || (PackableResource(rs[0]) && AllPackable(rs[1..]))
  }

  predicate NamesFit(qs: seq<Question>) {
    qs == [] || (WireLen(qs[0].name) <= MAX_NAME_LEN && NamesFit(qs[1..]))
  }

  predicate Packable(m: Message) {
    && |m.questions| <= MAX_UINT16 && NamesFit(m.questions)
    && |m.answers| <= MAX_UINT16 && AllPackable(m.answers)
    && |m.authorities| <= MAX_UINT16 && AllPackable(m.authorities)
    && |m.additionals| <= MAX_UINT16 && AllPackable(m.additionals)
  }

  // ----- Packing -----

  function Bit(b: bool, weight: byte): byte {
    if b then weight else 0
  }

  function PutFlags(h: Header): (b: seq<byte>)
    ensures |b| == 2
  {
    [Bit(h.response, 128) + 8 * h.opCode + Bit(h.authoritative, 4) + Bit(h.truncated, 2) + Bit(h.recursionDesired, 1),
     Bit(h.recursionAvailable, 128) + Bit(h.authenticData, 32) + Bit(h.checkingDisabled, 16) + h.rCode]
  }

  function PutUint32(v: uint32): (b: seq<byte>)
    ensures |b| == 4
  {
    PutUint16(v / 0x1_0000) + PutUint16(v % 0x1_0000)
  }

  function GetUint32(b: seq<byte>): uint32
    requires |b| >= 4
  {
    GetUint16(b[..2]) * 0x1_0000 + GetUint16(b[2..4])
  }

  function PutHeader(m: Message): (b: seq<byte>)
    requires Packable(m)
    ensures |b| == HEADER_LEN
  {
    PutUint16(m.header.id) + PutFlags(m.header) + PutUint16(|m.questions|)
    + PutUint16(|m.answers|) + PutUint16(|m.authorities|) + PutUint16(|m.additionals|)
  }

  function PutOptions(options: seq<EdnsOption>): (b: seq<byte>)
    requires OptionsLen(options) <= MAX_UINT16
    ensures |b| == OptionsLen(options)
  {
    if options == [] then []
    else PutUint16(options[0].code) + PutUint16(|options[0].data|) + options[0].data + PutOptions(options[1..])
  }

  function TypeOf(body: Body): uint16 {
    match body
    case Opt(_) => TYPE_OPT
    case Other(t, _) => t
  }

  function PutBody(body: Body): (b: seq<byte>)
    requires BodyLen(body) <= MAX_UINT16
    ensures |b| == BodyLen(body)
  {
    match body
    case Opt(options) => PutOptions(options)
    case Other(_, data) => data
  }

  /** A question or resource as the packer sees it: a name to compress and octets to copy. */
  datatype Item = Item(name: Name, tail: seq<byte>)

  function QuestionItem(q: Question): Item {
    Item(q.name, PutUint16(q.qtype) + PutUint16(q.qclass))
  }

  function ResourceItem(r: Resource): Item
    requires PackableResource(r)
  {
    Item(r.name, PutUint16(TypeOf(r.body)) + PutUint16(r.rclass) + PutUint32(r.ttl)
                 + PutUint16(BodyLen(r.body)) + PutBody(r.body))
  }

  function QuestionItems(qs: seq<Question>): seq<Item> {
    if qs == [] then [] else [QuestionItem(qs[0])] + QuestionItems(qs[1..])
  }

  function ResourceItems(rs: seq<Resource>): seq<Item>
    requires AllPackable(rs)
  {
    if rs == [] then [] else [ResourceItem(rs[0])] + ResourceItems(rs[1..])
  }

  function PackItem(off: nat, offsets: Offsets, item: Item): Packed {
    var p := PackName(off, offsets, item.name);
    Packed(p.bytes + item.tail, p.offsets)
  }

  function PackItems(off: nat, offsets: Offsets, items: seq<Item>): Packed
    decreases |items|
  {
    if items == [] then Packed([], offsets)
    else
      var first := PackItem(off, offsets, items[0]);
      var rest := PackItems(off + |first.bytes|, first.offsets, items[1..]);
      Packed(first.bytes + rest.bytes, rest.offsets)
  }

  function Items(m: Message): seq<Item>
    requires Packable(m)
  {
    QuestionItems(m.questions) + ResourceItems(m.answers) + ResourceItems(m.authorities) + ResourceItems(m.additionals)
  }

  /** msg.Pack(): fails exactly when something does not fit its length field. */
  function Pack(m: Message): Option<seq<byte>> {
    if Packable(m) then Some(PutHeader(m) + PackItems(HEADER_LEN, map[], Items(m)).bytes) else None
  }

  // ----- Unpacking -----

  function GetFlags(id: uint16, hi: byte, lo: byte): Header {
    Header(id, hi / 128 == 1, hi / 8 % 16, hi / 4 % 2 == 1, hi / 2 % 2 == 1, hi % 2 == 1,
           lo / 128 == 1, lo / 32 % 2 == 1, lo / 16 % 2 == 1, lo % 16)
  }

  function ParseOptions(data: seq<byte>): Option<seq<EdnsOption>>
    decreases |data|
  {
    if data == [] then Some([])
    else if |data| < 4 then None
    else
      var end := 4 + GetUint16(data[2..4]) as int;
      if end > |data| then None
      else
        match ParseOptions(data[end..])
        case None => None
        case Some(rest) => Some([EdnsOption(GetUint16(data[..2]), data[4..end])] + rest)
  }

  function ParseBody(rtype: uint16, data: seq<byte>): Option<Body> {
    if rtype != TYPE_OPT then Some(Other(rtype, data))
    else
      match ParseOptions(data)
      case None => None
      case Some(options) => Some(Opt(options))
  }

  datatype Parsed<T> = Parsed(value: T, next: nat)

  function ParseName(raw: seq<byte>, pos: nat): (r: Option<Decoded>)
    ensures r.Some? ==> pos < r.value.next <= |raw| && WireLen(r.value.name) <= MAX_NAME_LEN
  {
    var d := DecodeName(raw, pos, pos);
    if d.Some? && WireLen(d.value.name) > MAX_NAME_LEN then None else d
  }

  function ParseQuestion(raw: seq<byte>, pos: nat): (r: Option<Parsed<Question>>)
    ensures r.Some? ==> pos < r.value.next <= |raw| && WireLen(r.value.value.name) <= MAX_NAME_LEN
  {
    match ParseName(raw, pos)
    case None => None
    case Some(d) =>
      var end := d.next + 4;
      if end > |raw| then None
      else Some(Parsed(Question(d.name, GetUint16(raw[d.next..]), GetUint16(raw[d.next + 2..])), end))
  }

  function ParseQuestions(raw: seq<byte>, pos: nat, count: nat): Option<Parsed<seq<Question>>>
    decreases count
  {
    if count == 0 then Some(Parsed([], pos))
    else
      match ParseQuestion(raw, pos)
      case None => None
      case Some(q) =>
        match ParseQuestions(raw, q.next, count - 1)
        case None => None
        case Some(rest) => Some(Parsed([q.value] + rest.value, rest.next))
  }

  /** Type, class, TTL, RDLENGTH and RDATA at `pos`. */
  function ParseTail(name: Name, raw: seq<byte>, pos: nat): (r: Option<Parsed<Resource>>)
    ensures r.Some? ==> pos < r.value.next <= |raw| && r.value.value.name == name
  {
    if pos + 10 > |raw| then None
    else
      var end := pos + 10 + GetUint16(raw[pos + 8..]) as int;
      if end > |raw| then None
      else
        match ParseBody(GetUint16(raw[pos..]), raw[pos + 10..end])
        case None => None
        case Some(body) => Some(Parsed(Resource(name, GetUint16(raw[pos + 2..]), GetUint32(raw[pos + 4..]), body), end))
  }

  function ParseResource(raw: seq<byte>, pos: nat): (r: Option<Parsed<Resource>>)
    ensures r.Some? ==> pos < r.value.next <= |raw|
  {
    match ParseName(raw, pos)
    case None => None
    case Some(d) => ParseTail(d.name, raw, d.next)
  }

  function ParseResources(raw: seq<byte>, pos: nat, count: nat): Option<Parsed<seq<Resource>>>
    decreases count
  {
    if count == 0 then Some(Parsed([], pos))
    else
      match ParseResource(raw, pos)
      case None => None
      case Some(r) =>
        match ParseResources(raw, r.next, count - 1)
        case None => None
        case Some(rest) => Some(Parsed([r.value] + rest.value, rest.next))
  }

  /** msg.Unpack(raw): octets behind the last section are ignored. */
  function Unpack(raw: seq<byte>): Option<Message> {
    if |raw| < HEADER_LEN then None
    else
      var header := GetFlags(GetUint16(raw), raw[2], raw[3]);
      match ParseQuestions(raw, HEADER_LEN, GetUint16(raw[4..]))
      case None => None
      case Some(qs) =>
        match ParseResources(raw, qs.next, GetUint16(raw[6..]))
        case None => None
        case Some(an) =>
          match ParseResources(raw, an.next, GetUint16(raw[8..]))
          case None => None
          case Some(ns) =>
            match ParseResources(raw, ns.next, GetUint16(raw[10..]))
            case None => None
            case Some(ar) => Some(Message(header, qs.value, an.value, ns.value, ar.value))
  }
}
