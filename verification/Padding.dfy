/** EDNS padding of queries (RFC 7830, block size of RFC 8467), as in proxy/doh/padding.go. */
module Padding {
  import opened Bytes
  import opened DnsMessage
  import opened DnsRoundTrip

  const OPT_PADDING_CODE: uint16 := 12
  const PADDING_BLOCK_SIZE := 128
  const OPT_PADDING_HEADER_LEN := 4

  /** Octets of padding, without the option's own header. */
  function ComputePaddingSize(msgLen: nat, blockSize: nat): nat
    requires blockSize > 0
  {
    var padSize := blockSize - (msgLen + OPT_PADDING_HEADER_LEN) % blockSize;
    padSize % blockSize
  }

  /** `p` octets of padding behind the option's header complete the last block of a message of `msgLen` octets. */
  predicate CompletesBlock(msgLen: nat, blockSize: nat, p: nat)
    requires blockSize > 0
  {
    (msgLen + OPT_PADDING_HEADER_LEN + p) % blockSize == 0
  }

  /** It completes the last block, and no smaller number of octets does. */
  lemma PaddingSizeLeast(msgLen: nat, blockSize: nat, p: nat)
    requires blockSize > 0
    ensures CompletesBlock(msgLen, blockSize, ComputePaddingSize(msgLen, blockSize))
    ensures CompletesBlock(msgLen, blockSize, p) ==> ComputePaddingSize(msgLen, blockSize) <= p
  {
    hide CompletesBlock, ComputePaddingSize;
    SizeCompletes(msgLen, blockSize);
    LessDoesNotComplete(msgLen, blockSize, p);
  }

  lemma SizeCompletes(msgLen: nat, blockSize: nat)
    requires blockSize > 0
    ensures CompletesBlock(msgLen, blockSize, ComputePaddingSize(msgLen, blockSize))
  {
    FillsBlock(msgLen + OPT_PADDING_HEADER_LEN, blockSize);
  }

  lemma LessDoesNotComplete(msgLen: nat, blockSize: nat, p: nat)
    requires blockSize > 0
    ensures p < ComputePaddingSize(msgLen, blockSize) ==> !CompletesBlock(msgLen, blockSize, p)
  {
    LessLeavesRest(msgLen + OPT_PADDING_HEADER_LEN, blockSize, p);
  }

  lemma LessLeavesRest(len: nat, blockSize: nat, p: nat)
    requires blockSize > 0
    ensures p < (blockSize - len % blockSize) % blockSize ==> (len + p) % blockSize != 0
  {
    var q, r := len / blockSize, len % blockSize;
    SizeOfGap(blockSize, r);
    if r > 0 && p < blockSize - r {
      SumIs(len, q, blockSize, r, p);
      RestIs(q, blockSize, r + p);
    }
  }

  lemma SizeOfGap(d: nat, r: nat)
    requires r < d
    ensures (d - r) % d == if r == 0 then 0 else d - r
  {
  }

  lemma SumIs(len: nat, q: nat, d: nat, r: nat, p: nat)
    requires len == q * d + r
    ensures len + p == q * d + (r + p)
  {
  }

  lemma RestIs(q: nat, d: nat, x: nat)
    requires x < d
    ensures (q * d + x) % d == x
  {
    var y := q * d + x;
    var k := q - y / d;
    assert y == y / d * d + y % d;
    assert k * d == y % d - x;
    MultipleOutside(k, d);
  }

  lemma FillsBlock(len: nat, blockSize: nat)
    requires blockSize > 0
    ensures (len + (blockSize - len % blockSize) % blockSize) % blockSize == 0
  {
    var q, r := len / blockSize, len % blockSize;
    SizeOfGap(blockSize, r);
    if r == 0 {
    } else {
      NextMultiple(len, q, blockSize, r);
      RestIs(q + 1, blockSize, 0);
    }
  }

  lemma NextMultiple(len: nat, q: nat, d: nat, r: nat)
    requires len == q * d + r && r < d
    ensures len + (d - r) == (q + 1) * d + 0
  {
  }

  lemma MultipleOutside(k: int, d: int)
    requires d > 0
    ensures k >= 1 ==> k * d >= d
    ensures k <= -1 ==> k * d <= -d
  {
  }

  /** The OPT record that is used: the last one, because the loop's break only leaves the switch. */
  function LastOpt(rs: seq<Resource>): (i: Option<nat>)
    ensures i.Some? ==> i.value < |rs| && rs[i.value].body.Opt?
    ensures forall j :: (if i.Some? then i.value else -1) < j < |rs| ==> !rs[j].body.Opt?
  {
    if rs == [] then None
    else if rs[|rs| - 1].body.Opt? then Some(|rs| - 1)
    else LastOpt(rs[..|rs| - 1])
  }

  lemma NoOptYet(rs: seq<Resource>)
    ensures LastOpt(rs[..0]).None?
  {
  }

  lemma NextOpt(rs: seq<Resource>, i: nat)
    requires i < |rs|
    ensures LastOpt(rs[..i + 1]) == (if rs[i].body.Opt? then Some(i) else LastOpt(rs[..i]))
  {
    assert rs[..i + 1][..i] == rs[..i];
  }

  predicate IsPadding(o: EdnsOption) {
    o.code == OPT_PADDING_CODE
  }

  /** The query already carries padding in its last OPT record. */
  predicate HasPadding(m: Message) {
    var i := LastOpt(m.additionals);
    i.Some? && exists k ::
      0 <= k < |m.additionals[i.value].body.options| && IsPadding(m.additionals[i.value].body.options[k])
  }

  /** optHeader.SetEDNS0(65535, RCodeSuccess, false) with no options. */
  const EMPTY_OPT := Resource([], 65535, 0, Opt([]))

  function WithOpt(m: Message): (r: Message)
    ensures LastOpt(r.additionals).Some?
  {
    if LastOpt(m.additionals).Some? then m else m.(additionals := m.additionals + [EMPTY_OPT])
  }

  lemma LastOptOf(m: Message)
    ensures LastOpt(WithOpt(m).additionals)
            == (if LastOpt(m.additionals).Some? then LastOpt(m.additionals) else Some(|m.additionals|))
  {
  }

  function PaddingOption(n: nat): EdnsOption {
    EdnsOption(OPT_PADDING_CODE, seq(n, _ => 0))
  }

  function AddOption(r: Resource, o: EdnsOption): Resource
    requires r.body.Opt?
  {
    r.(body := Opt(r.body.options + [o]))
  }

  /** The padding option behind the options of the last OPT record. */
  function WithPadding(m: Message, n: nat): Message
    requires LastOpt(m.additionals).Some?
  {
    var i := LastOpt(m.additionals).value;
    m.(additionals := m.additionals[i := AddOption(m.additionals[i], PaddingOption(n))])
  }

  /** What AddEdnsPadding returns for a raw message, None standing for an error. */
  function Padded(raw: seq<byte>): Option<seq<byte>> {
    match Unpack(raw)
    case None => None
    case Some(m) =>
      if HasPadding(m) then Some(raw)
      else
        match Pack(WithOpt(m))
        case None => None
        case Some(compressed) => Pack(WithPadding(WithOpt(m), ComputePaddingSize(|compressed|, PADDING_BLOCK_SIZE)))
  }

  predicate AlreadyPadded(raw: seq<byte>) {
    Unpack(raw).Some? && HasPadding(Unpack(raw).value)
  }

  /**
   * AddEdnsPadding.  A query that is padded already comes back as the same buffer, any other result
   * is a new one.
   */
  method AddEdnsPadding(raw: array<byte>) returns (out: array?<byte>)
    ensures out == null <==> Padded(raw[..]).None?
    ensures out != null ==> out[..] == Padded(raw[..]).value
    ensures out == raw <==> AlreadyPadded(raw[..])
    ensures out != null && out != raw ==> fresh(out)
    // The new message is the old one with padding in its last OPT record, or in a new one.
    ensures out != null && out != raw ==>
              && Unpack(raw[..]).Some? && Unpack(out[..]).Some?
              && OnlyPaddingAdded(Unpack(raw[..]).value, Unpack(out[..]).value)
  {
    hide Unpack, Pack, LastOpt, OnlyPaddingAdded;
    var unpacked := Unpack(raw[..]);
    if unpacked.None? {
      return null;
    }
    var msg := unpacked.value;
    var optRes: Option<nat> := None;
    NoOptYet(msg.additionals);
    for i := 0 to |msg.additionals|
      invariant optRes == LastOpt(msg.additionals[..i])
    {
      NextOpt(msg.additionals, i);
      match msg.additionals[i].body
      case Opt(_) => optRes := Some(i);
      case Other(_, _) =>
    }
    assert msg.additionals[..|msg.additionals|] == msg.additionals;
    if optRes.Some? {
      var options := msg.additionals[optRes.value].body.options;
      for k := 0 to |options|
        invariant forall j :: 0 <= j < k ==> !IsPadding(options[j])
      {
        if options[k].code == OPT_PADDING_CODE {
          assert IsPadding(options[k]);
          return raw;
        }
      }
    } else {
      optRes := Some(|msg.additionals|);
      msg := msg.(additionals := msg.additionals + [EMPTY_OPT]);
    }
    LastOptOf(unpacked.value);
    assert msg == WithOpt(unpacked.value) && optRes == LastOpt(msg.additionals);
    var compressed := Pack(msg);
    if compressed.None? {
      return null;
    }
    var padding := PaddingOption(ComputePaddingSize(|compressed.value|, PADDING_BLOCK_SIZE));
    msg := msg.(additionals := msg.additionals[optRes.value := AddOption(msg.additionals[optRes.value], padding)]);
    var packed := Pack(msg);
    if packed.None? {
      return null;
    }
    PaddingAddsOnlyPadding(raw[..]);
    out := new byte[|packed.value|](i requires 0 <= i < |packed.value| => packed.value[i]);
    assert out[..] == packed.value;
  }

  // ----- Padding changes nothing else -----

  lemma {:induction false} LastOptUpdated(rs: seq<Resource>, i: nat, r: Resource)
    requires LastOpt(rs) == Some(i) && i < |rs| && r.body.Opt?
    ensures LastOpt(rs[i := r]) == Some(i)
    decreases |rs|
  {
    var n := |rs| - 1;
    if rs[n].body.Opt? {
    } else {
      LastOptUpdated(rs[..n], i, r);
      assert rs[i := r][..n] == rs[..n][i := r];
    }
  }

  /** The server sees the query with one more option in its last OPT record, and nothing else. */
  lemma PaddingPreserves(raw: seq<byte>)
    requires Padded(raw).Some? && !AlreadyPadded(raw)
    ensures Unpack(raw).Some? && Unpack(Padded(raw).value).Some?
    ensures var m, p := Unpack(raw).value, Unpack(Padded(raw).value).value;
            && p == m.(additionals := p.additionals)
            && var i := LastOpt(m.additionals);
            && (i.None? ==> exists n :: p.additionals == m.additionals + [AddOption(EMPTY_OPT, PaddingOption(n))])
            && (i.Some? ==> exists n :: p.additionals ==
                              m.additionals[i.value := AddOption(m.additionals[i.value], PaddingOption(n))])
  {
    hide Unpack, Packable, LastOpt, WithOpt, WithPadding, AddOption, ComputePaddingSize, PutHeader, PackItems,
         HasPadding;
    var m := Unpack(raw).value;
    var n := ComputePaddingSize(|Pack(WithOpt(m)).value|, PADDING_BLOCK_SIZE);
    UnpackInvertsPack(WithPadding(WithOpt(m), n));
    OnlyLastOptChanges(m, n);
  }

  lemma OnlyLastOptChanges(m: Message, n: nat)
    ensures var p := WithPadding(WithOpt(m), n);
            && p == m.(additionals := p.additionals)
            && var i := LastOpt(m.additionals);
            && (i.None? ==> p.additionals == m.additionals + [AddOption(EMPTY_OPT, PaddingOption(n))])
            && (i.Some? ==> p.additionals ==
                              m.additionals[i.value := AddOption(m.additionals[i.value], PaddingOption(n))])
  {
    if LastOpt(m.additionals).None? {
      assert WithOpt(m).additionals[|m.additionals|] == EMPTY_OPT;
    }
  }

  /** The last record of type 41 is at `i`. */
  predicate IsLastOpt(rs: seq<Resource>, i: nat) {
    && i < |rs| && TypeOf(rs[i].body) == 41
    && forall j :: i < j < |rs| ==> TypeOf(rs[j].body) != 41
  }

  predicate NoOpt(rs: seq<Resource>) {
    forall j :: 0 <= j < |rs| ==> TypeOf(rs[j].body) != 41
  }

  /** The options of an OPT record; other records have none. */
  function OptionsOf(r: Resource): seq<EdnsOption> {
    if r.body.Opt? then r.body.options else []
  }

  /** An option of code 12 that holds zero octets only. */
  predicate IsZeroPadding(o: EdnsOption) {
    o.code == 12 && forall k :: 0 <= k < |o.data| ==> o.data[k] == 0
  }

  /** `before` with one padding option behind the options of record `i`. */
  predicate GainsPadding(before: Resource, after: Resource) {
    && after.name == before.name && after.rclass == before.rclass && after.ttl == before.ttl
    && TypeOf(after.body) == 41
    && |OptionsOf(after)| == |OptionsOf(before)| + 1 && OptionsOf(before) <= OptionsOf(after)
    && IsZeroPadding(OptionsOf(after)[|OptionsOf(before)|])
  }

  /** A record of type 41 for the root name and class 65535 with a TTL of 0 that holds one padding option. */
  predicate IsNewPadding(r: Resource) {
    && r.name == [] && r.rclass == 65535 && r.ttl == 0 && TypeOf(r.body) == 41
    && |OptionsOf(r)| == 1 && IsZeroPadding(OptionsOf(r)[0])
  }

  /** What a server sees of a padded query: only the padding is new. */
  ghost predicate OnlyPaddingAdded(m: Message, p: Message) {
    && p.header == m.header && p.questions == m.questions
    && p.answers == m.answers && p.authorities == m.authorities
    && (NoOpt(m.additionals) ==>
          && |p.additionals| == |m.additionals| + 1 && m.additionals <= p.additionals
          && IsNewPadding(p.additionals[|m.additionals|]))
    && (forall i: nat :: IsLastOpt(m.additionals, i) ==>
          && |p.additionals| == |m.additionals|
          && (forall j :: 0 <= j < |m.additionals| && j != i ==> p.additionals[j] == m.additionals[j])
          && GainsPadding(m.additionals[i], p.additionals[i]))
  }

  /** What LastOpt finds, in terms of record types. */
  lemma LastOptExactly(rs: seq<Resource>)
    ensures LastOpt(rs).None? <==> NoOpt(rs)
    ensures forall i: nat :: IsLastOpt(rs, i) <==> LastOpt(rs) == Some(i)
  {
    forall i: nat ensures IsLastOpt(rs, i) <==> LastOpt(rs) == Some(i) {
      OneLastOpt(rs, i);
    }
  }

  lemma OneLastOpt(rs: seq<Resource>, i: nat)
    ensures IsLastOpt(rs, i) <==> LastOpt(rs) == Some(i)
  {
    if IsLastOpt(rs, i) {
      assert rs[i].body.Opt?;
    }
  }

  lemma OptionGained(r: Resource, n: nat)
    requires r.body.Opt?
    ensures GainsPadding(r, AddOption(r, PaddingOption(n)))
  {
  }

  lemma NewPadding(n: nat)
    ensures IsNewPadding(AddOption(EMPTY_OPT, PaddingOption(n)))
  {
  }

  /** The server sees the old query with padding, in its last OPT record or in a new one, and nothing else changed. */
  lemma PaddingAddsOnlyPadding(raw: seq<byte>)
    requires Padded(raw).Some? && !AlreadyPadded(raw)
    ensures Unpack(raw).Some? && Unpack(Padded(raw).value).Some?
    ensures OnlyPaddingAdded(Unpack(raw).value, Unpack(Padded(raw).value).value)
  {
    hide Padded, AlreadyPadded, Unpack, AddOption, PaddingOption, IsNewPadding, GainsPadding, NoOpt, IsLastOpt, LastOpt;
    PaddingPreserves(raw);
    var m, p := Unpack(raw).value, Unpack(Padded(raw).value).value;
    LastOptExactly(m.additionals);
    if LastOpt(m.additionals).None? {
      var n :| p.additionals == m.additionals + [AddOption(EMPTY_OPT, PaddingOption(n))];
      NewPadding(n);
    } else {
      var i := LastOpt(m.additionals).value;
      var n :| p.additionals == m.additionals[i := AddOption(m.additionals[i], PaddingOption(n))];
      OptionGained(m.additionals[i], n);
    }
  }

  /** A query counts as padded exactly if its last OPT record holds an option of code 12, whatever the others hold. */
  lemma AlreadyPaddedExactly(raw: seq<byte>)
    ensures AlreadyPadded(raw) <==>
              && Unpack(raw).Some?
              && exists i: nat :: IsLastOpt(Unpack(raw).value.additionals, i)
                             && exists k :: 0 <= k < |OptionsOf(Unpack(raw).value.additionals[i])|
                                            && OptionsOf(Unpack(raw).value.additionals[i])[k].code == 12
  {
    hide Unpack, LastOpt, IsLastOpt;
    if Unpack(raw).Some? {
      var m := Unpack(raw).value;
      LastOptExactly(m.additionals);
      if HasPadding(m) {
        var i := LastOpt(m.additionals).value;
        var k :| 0 <= k < |m.additionals[i].body.options| && IsPadding(m.additionals[i].body.options[k]);
        assert IsLastOpt(m.additionals, i) && OptionsOf(m.additionals[i])[k].code == 12;
      } else {
        forall i: nat, k | IsLastOpt(m.additionals, i) && 0 <= k < |OptionsOf(m.additionals[i])|
          ensures OptionsOf(m.additionals[i])[k].code != 12
        {
          assert !IsPadding(m.additionals[i].body.options[k]);
        }
      }
    }
  }

  /** Padding a padded query returns it octet for octet, whatever OPT records it has. */
  lemma PaddingIdempotent(raw: seq<byte>)
    requires Padded(raw).Some?
    ensures Padded(Padded(raw).value) == Padded(raw)
  {
    if !AlreadyPadded(raw) {
      var w := WithOpt(Unpack(raw).value);
      var n := ComputePaddingSize(|Pack(w).value|, PADDING_BLOCK_SIZE);
      var p, i := WithPadding(w, n), LastOpt(w.additionals).value;
      UnpackInvertsPack(p);
      LastOptUpdated(w.additionals, i, AddOption(w.additionals[i], PaddingOption(n)));
      var options := p.additionals[i].body.options;
      assert IsPadding(options[|options| - 1]);
    }
  }

  // ----- A query that is padded already -----

  const PADDED_QUERY := Message(
    Header(1, false, 0, false, false, true, false, false, false, 0), [], [], [],
    [AddOption(EMPTY_OPT, PaddingOption(0))])

  lemma OnlyPaddingPacks(m: Message, o: EdnsOption)
    requires m.questions == [] && m.answers == [] && m.authorities == []
    requires m.additionals == [EMPTY_OPT.(body := Opt([o]))] && IsPadding(o) && |o.data| == 0
    ensures Packable(m) && HasPadding(m)
  {
    var opt := m.additionals[0];
    assert [o][1..] == [] && [opt][1..] == [];
    assert OptionsLen([o]) == 4;
    assert PackableResource(opt);
    assert IsPadding(opt.body.options[0]);
  }

  lemma PaddedQueryPacks()
    ensures Pack(PADDED_QUERY).Some? && HasPadding(PADDED_QUERY)
  {
    hide Packable, HasPadding, PutHeader, PackItems, Items;
    assert [] + [PaddingOption(0)] == [PaddingOption(0)];
    OnlyPaddingPacks(PADDED_QUERY, PaddingOption(0));
  }

  lemma PackedLen(m: Message)
    requires Pack(m).Some?
    ensures Packable(m) && |Pack(m).value| == HEADER_LEN + |PackItems(HEADER_LEN, map[], Items(m)).bytes|
  {
  }

  /** An OPT record with an empty padding option takes 15 octets. */
  lemma PaddedQueryLen()
    ensures Pack(PADDED_QUERY).Some? && |Pack(PADDED_QUERY).value| == 27
  {
    hide HasPadding, Pack, PackItems, Items;
    PaddedQueryPacks();
    PackedLen(PADDED_QUERY);
    assert [] + [PaddingOption(0)] == [PaddingOption(0)];
    OnlyPaddingLen(PADDED_QUERY, PaddingOption(0));
  }

  lemma OnlyPaddingLen(m: Message, o: EdnsOption)
    requires m.questions == [] && m.answers == [] && m.authorities == [] && Packable(m)
    requires m.additionals == [EMPTY_OPT.(body := Opt([o]))] && |o.data| == 0
    ensures |PackItems(HEADER_LEN, map[], Items(m)).bytes| == 15
  {
    var opt := m.additionals[0];
    assert [o][1..] == [] && [opt][1..] == [];
    assert OptionsLen([o]) == 4;
    assert |ResourceItem(opt).tail| == 14;
    assert Items(m) == [ResourceItem(opt)];
    assert [ResourceItem(opt)][1..] == [];
  }
}
