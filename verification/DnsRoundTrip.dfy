/** Unpacking inverts packing, compression included. */
module DnsRoundTrip {
  import opened Bytes
  import opened DnsNames
  import opened DnsMessage

  /** `bytes` stand at `pos` of `raw`. */
  predicate At(raw: seq<byte>, pos: nat, bytes: seq<byte>) {
    pos + |bytes| <= |raw| && raw[pos..pos + |bytes|] == bytes
  }

  lemma AtSplit(raw: seq<byte>, pos: nat, a: seq<byte>, b: seq<byte>)
    requires At(raw, pos, a + b)
    ensures At(raw, pos, a) && At(raw, pos + |a|, b)
  {
    var whole := raw[pos..pos + |a + b|];
    assert whole[..|a|] == a && whole[|a|..] == b;
    assert raw[pos..pos + |a|] == whole[..|a|];
    assert raw[pos + |a|..pos + |a| + |b|] == whole[|a|..];
  }

  lemma FieldAt(raw: seq<byte>, pos: nat, v: uint16)
    requires At(raw, pos, PutUint16(v))
    ensures GetUint16(raw[pos..]) == v
  {
    var field := raw[pos..pos + 2];
    assert raw[pos..][0] == field[0] && raw[pos..][1] == field[1];
  }

  lemma LongFieldAt(raw: seq<byte>, pos: nat, v: uint32)
    requires At(raw, pos, PutUint32(v))
    ensures GetUint32(raw[pos..]) == v
  {
    var hi, lo := PutUint16(v / 0x1_0000), PutUint16(v % 0x1_0000);
    AtSplit(raw, pos, hi, lo);
    assert raw[pos..][..2] == raw[pos..pos + 2] == hi;
    assert raw[pos..][2..4] == raw[pos + 2..pos + 4] == lo;
  }

  // ----- Header -----

  lemma FlagsRoundTrip(h: Header)
    ensures GetFlags(h.id, PutFlags(h)[0], PutFlags(h)[1]) == h
  {
    HighFlags(h);
    LowFlags(h);
  }

  lemma HighFlags(h: Header)
    ensures var hi := PutFlags(h)[0];
            && (hi / 128 == 1 <==> h.response) && hi / 8 % 16 == h.opCode && (hi / 4 % 2 == 1 <==> h.authoritative)
            && (hi / 2 % 2 == 1 <==> h.truncated) && (hi % 2 == 1 <==> h.recursionDesired)
  {
    FlagBits(Bit(h.response, 16) + h.opCode, Bit(h.authoritative, 1), Bit(h.truncated, 1), Bit(h.recursionDesired, 1));
    Sixteenth(Bit(h.response, 1), h.opCode);
  }

  lemma FlagBits(high: nat, a: nat, b: nat, c: nat)
    requires a < 2 && b < 2 && c < 2
    ensures var hi := 8 * high + 4 * a + 2 * b + c;
            hi / 128 == high / 16 && hi / 8 == high && hi / 4 % 2 == a && hi / 2 % 2 == b && hi % 2 == c
  {
    Eighth(high, 4 * a + 2 * b + c);
    Quarter(2 * high + a, 2 * b + c);
    Half(high, a);
    Half(4 * high + 2 * a + b, c);
    Half(2 * high + a, b);
  }

  lemma Half(q: nat, r: nat)
    requires r < 2
    ensures (2 * q + r) / 2 == q && (2 * q + r) % 2 == r
  {
  }

  lemma Quarter(q: nat, r: nat)
    requires r < 4
    ensures (4 * q + r) / 4 == q
  {
  }

  lemma Eighth(q: nat, r: nat)
    requires r < 8
    ensures (8 * q + r) / 8 == q && (8 * q + r) / 128 == q / 16
  {
  }

  lemma Sixteenth(q: nat, r: nat)
    requires r < 16
    ensures (16 * q + r) / 16 == q && (16 * q + r) % 16 == r
  {
  }

  lemma LowFlags(h: Header)
    ensures var lo := PutFlags(h)[1];
            && (lo / 128 == 1 <==> h.recursionAvailable) && (lo / 32 % 2 == 1 <==> h.authenticData)
            && (lo / 16 % 2 == 1 <==> h.checkingDisabled) && lo % 16 == h.rCode
  {
  }

  lemma HeaderInverts(m: Message, raw: seq<byte>)
    requires Packable(m) && At(raw, 0, PutHeader(m))
    ensures |raw| >= HEADER_LEN
    ensures GetFlags(GetUint16(raw), raw[2], raw[3]) == m.header
    ensures GetUint16(raw[4..]) == |m.questions| && GetUint16(raw[6..]) == |m.answers|
    ensures GetUint16(raw[8..]) == |m.authorities| && GetUint16(raw[10..]) == |m.additionals|
  {
    var id, flags := PutUint16(m.header.id), PutFlags(m.header);
    var qd, an := PutUint16(|m.questions|), PutUint16(|m.answers|);
    var ns, ar := PutUint16(|m.authorities|), PutUint16(|m.additionals|);
    AtSplit(raw, 0, id + flags + qd + an + ns, ar);
    AtSplit(raw, 0, id + flags + qd + an, ns);
    AtSplit(raw, 0, id + flags + qd, an);
    AtSplit(raw, 0, id + flags, qd);
    AtSplit(raw, 0, id, flags);
    FieldAt(raw, 0, m.header.id);
    FieldAt(raw, 4, |m.questions|);
    FieldAt(raw, 6, |m.answers|);
    FieldAt(raw, 8, |m.authorities|);
    FieldAt(raw, 10, |m.additionals|);
    FlagsRoundTrip(m.header);
    assert raw[2] == raw[2..4][0] && raw[3] == raw[2..4][1];
    assert raw[0..] == raw;
  }

  // ----- Resource bodies -----

  lemma {:induction false} OptionsRoundTrip(options: seq<EdnsOption>)
    requires OptionsLen(options) <= MAX_UINT16
    ensures ParseOptions(PutOptions(options)) == Some(options)
    decreases |options|
  {
    if options == [] {
    } else {
      OptionsRoundTrip(options[1..]);
      OptionInverts(options[0], options[1..], PutOptions(options[1..]));
      assert [options[0]] + options[1..] == options;
    }
  }

  lemma OptionInverts(o: EdnsOption, options: seq<EdnsOption>, rest: seq<byte>)
    requires |o.data| <= MAX_UINT16 && ParseOptions(rest) == Some(options)
    ensures ParseOptions(PutUint16(o.code) + PutUint16(|o.data|) + o.data + rest) == Some([o] + options)
  {
    var data := PutUint16(o.code) + PutUint16(|o.data|) + o.data + rest;
    assert data[..2] == PutUint16(o.code) && data[2..4] == PutUint16(|o.data|);
    assert data[4..4 + |o.data|] == o.data && data[4 + |o.data|..] == rest;
  }

  lemma BodyRoundTrip(body: Body)
    requires BodyLen(body) <= MAX_UINT16
    ensures ParseBody(TypeOf(body), PutBody(body)) == Some(body)
  {
    if body.Opt? {
      OptionsRoundTrip(body.options);
    }
  }

  // ----- Items -----

  lemma TailInverts(raw: seq<byte>, pos: nat, r: Resource)
    requires PackableResource(r) && At(raw, pos, ResourceItem(r).tail)
    ensures ParseTail(r.name, raw, pos) == Some(Parsed(r, pos + |ResourceItem(r).tail|))
  {
    hide PutUint16, GetUint16, PutUint32, GetUint32, TypeOf, BodyLen, PutBody, ParseBody, WireLen;
    var rtype, rclass, ttl := PutUint16(TypeOf(r.body)), PutUint16(r.rclass), PutUint32(r.ttl);
    var len, body := PutUint16(BodyLen(r.body)), PutBody(r.body);
    AtSplit(raw, pos, rtype + rclass + ttl + len, body);
    AtSplit(raw, pos, rtype + rclass + ttl, len);
    AtSplit(raw, pos, rtype + rclass, ttl);
    AtSplit(raw, pos, rtype, rclass);
    FieldAt(raw, pos, TypeOf(r.body));
    FieldAt(raw, pos + 2, r.rclass);
    LongFieldAt(raw, pos + 4, r.ttl);
    FieldAt(raw, pos + 8, BodyLen(r.body));
    BodyRoundTrip(r.body);
  }

  /** A packed item: its name decodes in place, its tail follows, and the offsets stay sound. */
  ghost predicate ItemInverted(raw: seq<byte>, pos: nat, item: Item, p: Packed) {
    && |item.tail| <= |p.bytes| && pos + |p.bytes| <= |raw|
    && DecodeName(raw, pos, pos) == Some(Decoded(item.name, pos + |p.bytes| - |item.tail|))
    && Pointers(raw, pos, pos) <= |item.name|
    && At(raw, pos + |p.bytes| - |item.tail|, item.tail)
    && Sound(raw[..pos + |p.bytes|], p.offsets)
  }

  lemma PackItemInverts(raw: seq<byte>, pos: nat, offsets: Offsets, item: Item)
    requires pos <= |raw| && Sound(raw[..pos], offsets)
    requires At(raw, pos, PackItem(pos, offsets, item).bytes)
    ensures ItemInverted(raw, pos, item, PackItem(pos, offsets, item))
  {
    hide PackName, DecodeName, Pointers, Sound;
    var p := PackName(pos, offsets, item.name);
    AtSplit(raw, pos, p.bytes, item.tail);
    PackNameSound(raw[..pos], offsets, item.name);
    NameInPlace(raw, pos, item, p);
  }

  lemma PrefixAt(raw: seq<byte>, pos: nat, bytes: seq<byte>)
    requires At(raw, pos, bytes)
    ensures raw[..pos] + bytes == raw[..pos + |bytes|]
  {
  }

  lemma DecodeFromPrefix(raw: seq<byte>, end: nat, pos: nat)
    requires end <= |raw| && DecodeName(raw[..end], pos, pos).Some?
    ensures DecodeName(raw, pos, pos) == DecodeName(raw[..end], pos, pos)
    ensures Pointers(raw, pos, pos) == Pointers(raw[..end], pos, pos)
  {
    DecodeExtends(raw[..end], raw[end..], pos, pos, pos);
    assert raw == raw[..end] + raw[end..];
  }

  /** From the message as it was when the name had been packed to the finished message. */
  lemma NameInPlace(raw: seq<byte>, pos: nat, item: Item, p: Packed)
    requires At(raw, pos, p.bytes) && At(raw, pos + |p.bytes|, item.tail)
    requires DecodeName(raw[..pos] + p.bytes, pos, pos) == Some(Decoded(item.name, pos + |p.bytes|))
    requires Pointers(raw[..pos] + p.bytes, pos, pos) <= |item.name|
    requires Sound(raw[..pos] + p.bytes, p.offsets)
    ensures ItemInverted(raw, pos, item, Packed(p.bytes + item.tail, p.offsets))
  {
    hide DecodeName, Pointers, Sound;
    var mid := pos + |p.bytes|;
    PrefixAt(raw, pos, p.bytes);
    DecodeFromPrefix(raw, mid, pos);
    SoundExtends(raw[..mid], item.tail, p.offsets);
    PrefixAt(raw, mid, item.tail);
  }

  lemma QuestionTailInverts(raw: seq<byte>, next: nat, q: Question)
    requires At(raw, next, QuestionItem(q).tail)
    ensures next + 4 <= |raw| && GetUint16(raw[next..]) == q.qtype && GetUint16(raw[next + 2..]) == q.qclass
  {
    AtSplit(raw, next, PutUint16(q.qtype), PutUint16(q.qclass));
    FieldAt(raw, next, q.qtype);
    FieldAt(raw, next + 2, q.qclass);
  }

  lemma ParseQuestionInverts(raw: seq<byte>, pos: nat, q: Question, p: Packed)
    requires ItemInverted(raw, pos, QuestionItem(q), p) && WireLen(q.name) <= MAX_NAME_LEN
    ensures ParseQuestion(raw, pos) == Some(Parsed(q, pos + |p.bytes|))
  {
    QuestionTailInverts(raw, pos + |p.bytes| - 4, q);
  }

  lemma ParseResourceInverts(raw: seq<byte>, pos: nat, r: Resource, p: Packed)
    requires PackableResource(r) && ItemInverted(raw, pos, ResourceItem(r), p)
    ensures ParseResource(raw, pos) == Some(Parsed(r, pos + |p.bytes|))
  {
    hide DecodeName, Pointers, Sound, At, ParseTail, WireLen;
    TailInverts(raw, pos + |p.bytes| - |ResourceItem(r).tail|, r);
  }

  // ----- Sections -----

  lemma PackItemsCons(off: nat, offsets: Offsets, item: Item, rest: seq<Item>)
    ensures var first := PackItem(off, offsets, item);
            var more := PackItems(off + |first.bytes|, first.offsets, rest);
            PackItems(off, offsets, [item] + rest) == Packed(first.bytes + more.bytes, more.offsets)
  {
    assert ([item] + rest)[1..] == rest;
  }

  /** `items` are packed at `pos`, behind octets whose remembered offsets are sound. */
  ghost predicate Placed(raw: seq<byte>, pos: nat, offsets: Offsets, items: seq<Item>) {
    && pos <= |raw| && Sound(raw[..pos], offsets)
    && At(raw, pos, PackItems(pos, offsets, items).bytes)
  }

  /** `p` packs a list that starts with `item`: the first item inverts, and the rest is packed behind it. */
  lemma FirstInverts(raw: seq<byte>, pos: nat, offsets: Offsets, item: Item, rest: seq<Item>)
    returns (first: Packed, more: Packed)
    requires Placed(raw, pos, offsets, [item] + rest)
    ensures first == PackItem(pos, offsets, item) && more == PackItems(pos + |first.bytes|, first.offsets, rest)
    ensures PackItems(pos, offsets, [item] + rest) == Packed(first.bytes + more.bytes, more.offsets)
    ensures ItemInverted(raw, pos, item, first) && Placed(raw, pos + |first.bytes|, first.offsets, rest)
  {
    hide PackItem, PackItems, At, Sound, DecodeName, Pointers;
    first := PackItem(pos, offsets, item);
    more := PackItems(pos + |first.bytes|, first.offsets, rest);
    PackItemsCons(pos, offsets, item, rest);
    AtSplit(raw, pos, first.bytes, more.bytes);
    PackItemInverts(raw, pos, offsets, item);
  }

  ghost predicate QuestionsInverted(raw: seq<byte>, pos: nat, qs: seq<Question>, p: Packed) {
    && pos + |p.bytes| <= |raw|
    && ParseQuestions(raw, pos, |qs|) == Some(Parsed(qs, pos + |p.bytes|))
    && Sound(raw[..pos + |p.bytes|], p.offsets)
  }

  lemma {:induction false} QuestionsRoundTrip(raw: seq<byte>, pos: nat, offsets: Offsets, qs: seq<Question>)
    requires NamesFit(qs) && Placed(raw, pos, offsets, QuestionItems(qs))
    ensures QuestionsInverted(raw, pos, qs, PackItems(pos, offsets, QuestionItems(qs)))
    decreases |qs|
  {
    hide ParseQuestion, PackItem, QuestionItem, ItemInverted;
    if qs == [] {
    } else {
      var first, more := FirstInverts(raw, pos, offsets, QuestionItem(qs[0]), QuestionItems(qs[1..]));
      ParseQuestionInverts(raw, pos, qs[0], first);
      QuestionsRoundTrip(raw, pos + |first.bytes|, first.offsets, qs[1..]);
      QuestionsCons(raw, pos, qs, first, more);
    }
  }

  lemma QuestionsCons(raw: seq<byte>, pos: nat, qs: seq<Question>, first: Packed, more: Packed)
    requires qs != [] && ParseQuestion(raw, pos) == Some(Parsed(qs[0], pos + |first.bytes|))
    requires QuestionsInverted(raw, pos + |first.bytes|, qs[1..], more)
    ensures QuestionsInverted(raw, pos, qs, Packed(first.bytes + more.bytes, more.offsets))
  {
    hide ParseQuestion, Sound;
    assert [qs[0]] + qs[1..] == qs;
  }

  ghost predicate ResourcesInverted(raw: seq<byte>, pos: nat, rs: seq<Resource>, p: Packed) {
    && pos + |p.bytes| <= |raw|
    && ParseResources(raw, pos, |rs|) == Some(Parsed(rs, pos + |p.bytes|))
    && Sound(raw[..pos + |p.bytes|], p.offsets)
  }

  lemma {:induction false} ResourcesRoundTrip(raw: seq<byte>, pos: nat, offsets: Offsets, rs: seq<Resource>)
    requires AllPackable(rs) && Placed(raw, pos, offsets, ResourceItems(rs))
    ensures ResourcesInverted(raw, pos, rs, PackItems(pos, offsets, ResourceItems(rs)))
    decreases |rs|
  {
    hide ParseResource, PackItem, ResourceItem, ItemInverted;
    if rs == [] {
    } else {
      var first, more := FirstInverts(raw, pos, offsets, ResourceItem(rs[0]), ResourceItems(rs[1..]));
      ParseResourceInverts(raw, pos, rs[0], first);
      ResourcesRoundTrip(raw, pos + |first.bytes|, first.offsets, rs[1..]);
      ResourcesCons(raw, pos, rs, first, more);
    }
  }

  lemma ResourcesCons(raw: seq<byte>, pos: nat, rs: seq<Resource>, first: Packed, more: Packed)
    requires rs != [] && ParseResource(raw, pos) == Some(Parsed(rs[0], pos + |first.bytes|))
    requires ResourcesInverted(raw, pos + |first.bytes|, rs[1..], more)
    ensures ResourcesInverted(raw, pos, rs, Packed(first.bytes + more.bytes, more.offsets))
  {
    hide ParseResource, Sound;
    assert [rs[0]] + rs[1..] == rs;
  }

  // ----- Messages -----

  /** Packing a concatenation is packing its parts one after the other. */
  lemma {:induction false} PackItemsAppend(off: nat, offsets: Offsets, a: seq<Item>, b: seq<Item>)
    ensures var p := PackItems(off, offsets, a);
            var q := PackItems(off + |p.bytes|, p.offsets, b);
            PackItems(off, offsets, a + b) == Packed(p.bytes + q.bytes, q.offsets)
    decreases |a|
  {
    hide PackItem;
    if a == [] {
      assert a + b == b;
    } else {
      var first := PackItem(off, offsets, a[0]);
      PackItemsAppend(off + |first.bytes|, first.offsets, a[1..], b);
      assert (a + b)[1..] == a[1..] + b;
      var more := PackItems(off + |first.bytes|, first.offsets, a[1..]);
      var q := PackItems(off + |first.bytes| + |more.bytes|, more.offsets, b);
      Assoc(first.bytes, more.bytes, q.bytes);
    }
  }

  lemma Assoc(a: seq<byte>, b: seq<byte>, c: seq<byte>)
    ensures a + (b + c) == (a + b) + c
  {
  }

  /** The first part of a packed concatenation, and where the second part stands. */
  lemma PartsPlaced(raw: seq<byte>, pos: nat, offsets: Offsets, a: seq<Item>, b: seq<Item>, p: Packed)
    requires Placed(raw, pos, offsets, a + b) && p == PackItems(pos, offsets, a)
    ensures Placed(raw, pos, offsets, a)
    ensures Sound(raw[..pos + |p.bytes|], p.offsets) ==> Placed(raw, pos + |p.bytes|, p.offsets, b)
  {
    PackItemsAppend(pos, offsets, a, b);
    AtSplit(raw, pos, p.bytes, PackItems(pos + |p.bytes|, p.offsets, b).bytes);
  }

  /** Questions and whatever is packed behind them. */
  lemma QuestionsThen(raw: seq<byte>, pos: nat, offsets: Offsets, qs: seq<Question>, rest: seq<Item>)
    returns (next: nat, after: Offsets)
    requires NamesFit(qs) && Placed(raw, pos, offsets, QuestionItems(qs) + rest)
    ensures ParseQuestions(raw, pos, |qs|) == Some(Parsed(qs, next)) && Placed(raw, next, after, rest)
  {
    hide ParseQuestions, PackItems, QuestionItems, NamesFit, Sound, Placed;
    var items := QuestionItems(qs);
    var p := PackItems(pos, offsets, items);
    PartsPlaced(raw, pos, offsets, items, rest, p);
    QuestionsRoundTrip(raw, pos, offsets, qs);
    next, after := pos + |p.bytes|, p.offsets;
  }

  lemma ResourcesThen(raw: seq<byte>, pos: nat, offsets: Offsets, rs: seq<Resource>, rest: seq<Item>)
    returns (next: nat, after: Offsets)
    requires AllPackable(rs) && Placed(raw, pos, offsets, ResourceItems(rs) + rest)
    ensures ParseResources(raw, pos, |rs|) == Some(Parsed(rs, next)) && Placed(raw, next, after, rest)
  {
    hide ParseResources, PackItems, ResourceItems, AllPackable, Sound, Placed;
    var items := ResourceItems(rs);
    var p := PackItems(pos, offsets, items);
    PartsPlaced(raw, pos, offsets, items, rest, p);
    ResourcesRoundTrip(raw, pos, offsets, rs);
    next, after := pos + |p.bytes|, p.offsets;
  }

  lemma AllItemsPlaced(m: Message, raw: seq<byte>, z: seq<byte>)
    requires Packable(m) && raw == PutHeader(m) + PackItems(HEADER_LEN, map[], Items(m)).bytes + z
    ensures At(raw, 0, PutHeader(m))
    ensures var rest := ResourceItems(m.answers) + (ResourceItems(m.authorities) + (ResourceItems(m.additionals) + []));
            Placed(raw, HEADER_LEN, map[], QuestionItems(m.questions) + rest)
  {
    assert raw[0..0 + HEADER_LEN] == PutHeader(m);
    assert At(raw, HEADER_LEN, PackItems(HEADER_LEN, map[], Items(m)).bytes);
    RegroupItems(QuestionItems(m.questions), ResourceItems(m.answers),
                 ResourceItems(m.authorities), ResourceItems(m.additionals));
  }

  lemma RegroupItems(a: seq<Item>, b: seq<Item>, c: seq<Item>, d: seq<Item>)
    ensures a + b + c + d == a + (b + (c + (d + [])))
  {
  }

  /** Unpack inverts Pack on every message that can be packed, whatever follows. */
  lemma UnpackIgnoresRest(m: Message, z: seq<byte>)
    requires Pack(m).Some?
    ensures Unpack(Pack(m).value + z) == Some(m)
  {
    var raw := Pack(m).value + z;
    AllItemsPlaced(m, raw, z);
    HeaderInverts(m, raw);
    var c, d := ResourceItems(m.authorities), ResourceItems(m.additionals);
    var pos, offsets := QuestionsThen(raw, HEADER_LEN, map[], m.questions, ResourceItems(m.answers) + (c + (d + [])));
    pos, offsets := ResourcesThen(raw, pos, offsets, m.answers, c + (d + []));
    pos, offsets := ResourcesThen(raw, pos, offsets, m.authorities, d + []);
    pos, offsets := ResourcesThen(raw, pos, offsets, m.additionals, []);
  }

  /** Unpack inverts Pack on every message that can be packed. */
  lemma UnpackInvertsPack(m: Message)
    requires Pack(m).Some?
    ensures Unpack(Pack(m).value) == Some(m)
  {
    hide Unpack, Pack;
    UnpackIgnoresRest(m, []);
    assert Pack(m).value + [] == Pack(m).value;
  }
}
