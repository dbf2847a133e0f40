/**
 * How many compression pointers a reader has to follow in a packed message.  The codec here follows any
 * number; a reader that gives up after some number reads what is packed if names have no more labels.
 */
module DnsPointers {
  import opened Bytes
  import opened DnsNames
  import opened DnsMessage
  import opened DnsRoundTrip

  /** No name of the items packed at `pos` takes more than `limit` pointers. */
  ghost predicate ReadWithin(raw: seq<byte>, pos: nat, offsets: Offsets, items: seq<Item>, limit: nat)
    decreases |items|
  {
    items == [] ||
    (var first := PackItem(pos, offsets, items[0]);
     && Pointers(raw, pos, pos) <= limit
     && ReadWithin(raw, pos + |first.bytes|, first.offsets, items[1..], limit))
  }

  predicate NamesWithin(items: seq<Item>, limit: nat) {
    forall i :: 0 <= i < |items| ==> |items[i].name| <= limit
  }

  lemma {:induction false} PlacedWithin(raw: seq<byte>, pos: nat, offsets: Offsets, items: seq<Item>, limit: nat)
    requires Placed(raw, pos, offsets, items) && NamesWithin(items, limit)
    ensures ReadWithin(raw, pos, offsets, items, limit)
    decreases |items|
  {
    hide Placed, PackItem, PackItems;
    if items == [] {
    } else {
      assert items == [items[0]] + items[1..];
      var first, more := FirstInverts(raw, pos, offsets, items[0], items[1..]);
      FewPointers(raw, pos, items[0], first);
      PlacedWithin(raw, pos + |first.bytes|, first.offsets, items[1..], limit);
    }
  }

  lemma FewPointers(raw: seq<byte>, pos: nat, item: Item, p: Packed)
    requires ItemInverted(raw, pos, item, p)
    ensures Pointers(raw, pos, pos) <= |item.name|
  {
  }

  /** A packed message whose names have at most `limit` labels is read with at most `limit` pointers a name. */
  lemma PackedWithin(m: Message, limit: nat)
    requires Pack(m).Some? && NamesWithin(Items(m), limit)
    ensures ReadWithin(Pack(m).value, HEADER_LEN, map[], Items(m), limit)
  {
    hide PackItems, ReadWithin, NamesWithin;
    var raw := Pack(m).value;
    AllItemsPlaced(m, raw, []);
    RegroupItems(QuestionItems(m.questions), ResourceItems(m.answers),
                 ResourceItems(m.authorities), ResourceItems(m.additionals));
    PlacedWithin(raw, HEADER_LEN, map[], Items(m), limit);
  }

  // ----- The bound is reached -----

  /** The name a.a.…, with `k` labels. */
  function Chain(k: nat): (name: Name)
    ensures |name| == k
  {
    if k == 0 then [] else [[97]] + Chain(k - 1)
  }

  /** Questions for a, a.a, a.a.a and so on. */
  function ChainQuestions(k: nat): (qs: seq<Question>)
    ensures |qs| == k
  {
    if k == 0 then [] else ChainQuestions(k - 1) + [Question(Chain(k), 1, 1)]
  }

  lemma {:induction false} QuestionItemsAppend(qs: seq<Question>, q: Question)
    ensures QuestionItems(qs + [q]) == QuestionItems(qs) + [QuestionItem(q)]
    decreases |qs|
  {
    if qs == [] {
      assert qs + [q] == [q] && [q][1..] == [];
    } else {
      assert (qs + [q])[1..] == qs[1..] + [q];
      QuestionItemsAppend(qs[1..], q);
    }
  }

  /** The state of the packer when Chain(k) has just been packed. */
  ghost predicate Chained(msg: seq<byte>, offsets: Offsets, k: nat) {
    && Sound(msg, offsets) && |msg| <= HEADER_LEN + 8 * k
    && (forall n :: n in offsets ==> |n| <= k)
    && (k > 0 ==> Chain(k) in offsets && Pointers(msg, offsets[Chain(k)], offsets[Chain(k)]) == k - 1)
  }

  /** The octets behind the first label of Chain(k + 1). */
  function Link(offsets: Offsets, k: nat): seq<byte>
    requires k > 0 ==> Chain(k) in offsets
  {
    if k == 0 then [0] else PutPointer(offsets[Chain(k)])
  }

  lemma ChainPacks(off: nat, offsets: Offsets, k: nat)
    requires off <= MAX_OFFSET && (forall n :: n in offsets ==> |n| <= k) && (k > 0 ==> Chain(k) in offsets)
    ensures PackName(off, offsets, Chain(k + 1)) == Packed([1] + [97] + Link(offsets, k), offsets[Chain(k + 1) := off])
  {
    var name, after := Chain(k + 1), offsets[Chain(k + 1) := off];
    assert name[0] == [97] && name[1..] == Chain(k);
    assert PackName(off + 2, after, Chain(k)) == Packed(Link(offsets, k), after);
  }

  /** A label and what is behind it; `link` leads to a place from which `n` pointers are left. */
  lemma LinkFollowed(msg: seq<byte>, link: seq<byte>, offsets: Offsets, k: nat)
    requires (k > 0 ==> Chain(k) in offsets) && link == Link(offsets, k)
    requires k > 0 ==>
               var off := offsets[Chain(k)];
               off < |msg| && DecodeName(msg, off, off).Some? && Pointers(msg, off, off) == k - 1
    ensures Pointers(msg + ([1] + [97] + link), |msg|, |msg|) == k
  {
    hide DecodeName, Pointers, PutPointer, Chain;
    var whole := msg + ([1] + [97] + link);
    LabelSkipped(whole, |msg|, |msg|);
    if k == 0 {
      RootHasNone(whole, |msg| + 2, |msg|);
    } else {
      var off := offsets[Chain(k)];
      DecodeExtends(msg, [1] + [97] + link, off, off, off);
      assert whole[|msg| + 2..|msg| + 4] == link;
      PointerFollowed(whole, |msg| + 2, off, |msg|);
    }
  }

  lemma LabelSkipped(msg: seq<byte>, pos: nat, start: nat)
    requires pos + 2 <= |msg| && msg[pos] == 1
    ensures Pointers(msg, pos, start) == Pointers(msg, pos + 2, start)
  {
  }

  lemma RootHasNone(msg: seq<byte>, pos: nat, start: nat)
    requires pos < |msg| && msg[pos] == 0
    ensures Pointers(msg, pos, start) == 0
  {
  }

  /** One name more is one label and a pointer to the name before it, which is one pointer more to follow. */
  lemma ChainGrows(msg: seq<byte>, offsets: Offsets, k: nat)
    requires Chained(msg, offsets, k) && HEADER_LEN + 8 * (k + 1) <= MAX_OFFSET
    ensures var p := PackItem(|msg|, offsets, QuestionItem(Question(Chain(k + 1), 1, 1)));
            && Chained(msg + p.bytes, p.offsets, k + 1)
            && p.offsets[Chain(k + 1)] == |msg|
  {
    hide DecodeName, Pointers, PackName, Chain;
    var tail := PutUint16(1) + PutUint16(1);
    var link := Link(offsets, k);
    ChainPacks(|msg|, offsets, k);
    var p := PackName(|msg|, offsets, Chain(k + 1));
    LinkFollowed(msg, link, offsets, k);
    PackNameSound(msg, offsets, Chain(k + 1));
    var whole := msg + p.bytes;
    SoundExtends(whole, tail, p.offsets);
    DecodeExtends(whole, tail, |msg|, |msg|, |msg|);
    assert msg + (p.bytes + tail) == whole + tail;
  }

  /** The state after `k` questions; `front` is whatever comes before them. */
  lemma {:induction false} ChainPacked(front: seq<byte>, k: nat) returns (pos: nat)
    requires |front| == HEADER_LEN && HEADER_LEN + 8 * k <= MAX_OFFSET
    ensures var p := PackItems(HEADER_LEN, map[], QuestionItems(ChainQuestions(k)));
            && Chained(front + p.bytes, p.offsets, k)
            && (k > 0 ==> pos == p.offsets[Chain(k)])
    decreases k
  {
    hide Chained, PackItem, PackItems, QuestionItems, QuestionItem, Chain;
    if k == 0 {
      NothingChained(front);
      pos := 0;
    } else {
      var before, item := QuestionItems(ChainQuestions(k - 1)), QuestionItem(Question(Chain(k), 1, 1));
      pos := ChainPacked(front, k - 1);
      var p := PackItems(HEADER_LEN, map[], before);
      ChainGrows(front + p.bytes, p.offsets, k - 1);
      QuestionItemsAppend(ChainQuestions(k - 1), Question(Chain(k), 1, 1));
      PackItemsAppend(HEADER_LEN, map[], before, [item]);
      var q := PackItem(HEADER_LEN + |p.bytes|, p.offsets, item);
      OneItem(HEADER_LEN + |p.bytes|, p.offsets, item);
      assert front + p.bytes + q.bytes == front + (p.bytes + q.bytes);
      pos := |front + p.bytes|;
    }
  }

  lemma NothingChained(front: seq<byte>)
    requires |front| == HEADER_LEN
    ensures var p := PackItems(HEADER_LEN, map[], QuestionItems(ChainQuestions(0)));
            Chained(front + p.bytes, p.offsets, 0)
  {
    assert front + [] == front;
  }

  lemma OneItem(off: nat, offsets: Offsets, item: Item)
    ensures PackItems(off, offsets, [item]) == PackItem(off, offsets, item)
  {
    assert [item][1..] == [];
    var p := PackItem(off, offsets, item);
    assert p.bytes + [] == p.bytes;
  }

  function ChainMessage(k: nat): Message {
    Message(Header(0, false, 0, false, false, true, false, false, false, 0), ChainQuestions(k), [], [], [])
  }

  lemma {:induction false} ChainLen(k: nat)
    ensures WireLen(Chain(k)) == 2 * k + 1
    decreases k
  {
    if k == 0 {
    } else {
      ChainLen(k - 1);
      assert Chain(k)[1..] == Chain(k - 1);
    }
  }

  lemma {:induction false} NamesFitAppend(qs: seq<Question>, q: Question)
    requires NamesFit(qs) && WireLen(q.name) <= MAX_NAME_LEN
    ensures NamesFit(qs + [q])
    decreases |qs|
  {
    if qs == [] {
      assert [q][1..] == [];
    } else {
      assert (qs + [q])[1..] == qs[1..] + [q];
      NamesFitAppend(qs[1..], q);
    }
  }

  lemma {:induction false} ChainFits(k: nat)
    requires k <= 127
    ensures NamesFit(ChainQuestions(k))
    decreases k
  {
    hide Chain;
    if k == 0 {
    } else {
      ChainFits(k - 1);
      ChainLen(k);
      NamesFitAppend(ChainQuestions(k - 1), Question(Chain(k), 1, 1));
    }
  }

  /**
   * The bound is reached but for one: the last question of this message takes `k` - 1 pointers to read.
   * With `k` == 12 these are eleven.
   */
  lemma ChainOfPointers(k: nat) returns (raw: seq<byte>, pos: nat)
    requires 0 < k <= 127
    ensures Pack(ChainMessage(k)) == Some(raw) && Unpack(raw) == Some(ChainMessage(k))
    ensures DecodeName(raw, pos, pos).Some? && DecodeName(raw, pos, pos).value.name == Chain(k)
    ensures Pointers(raw, pos, pos) == k - 1
  {
    hide Unpack, PackItems, Chain, ChainQuestions, QuestionItems, PutHeader;
    ChainFits(k);
    var m := ChainMessage(k);
    assert Items(m) == QuestionItems(ChainQuestions(k));
    raw := Pack(m).value;
    UnpackInvertsPack(m);
    pos := ChainPacked(PutHeader(m), k);
  }
}
