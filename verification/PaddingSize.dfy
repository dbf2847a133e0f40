/**
 * The size of a padded query.  The padding option moves everything behind the OPT record, and a
 * suffix that moves beyond the reach of a pointer can no longer be referred to.
 */
module PaddingSize {
  import opened Bytes
  import opened DnsNames
  import opened DnsMessage
  import opened DnsRoundTrip
  import opened Padding

  // ----- Which pointers a shift invalidates -----

  /** An offset at or behind `cut` that does not fit a pointer when it grows by `delta`. */
  predicate Lost(p: Pointer, cut: nat, delta: nat) {
    p >= cut && p + delta > MAX_OFFSET
  }

  /** Packing `name` writes a pointer to such an offset. */
  predicate NameUsesLost(off: nat, offsets: Offsets, name: Name, cut: nat, delta: nat)
    decreases |name|
  {
    if name == [] then false
    else if name in offsets then Lost(offsets[name], cut, delta)
    else NameUsesLost(off + 1 + |name[0]|, Register(offsets, name, off), name[1..], cut, delta)
  }

  predicate ItemsUseLost(off: nat, offsets: Offsets, items: seq<Item>, cut: nat, delta: nat)
    decreases |items|
  {
    if items == [] then false
    else
      var first := PackItem(off, offsets, items[0]);
      || NameUsesLost(off, offsets, items[0].name, cut, delta)
      || ItemsUseLost(off + |first.bytes|, first.offsets, items[1..], cut, delta)
  }

  // ----- What a lost pointer costs -----

  /** Octets of `name` when only suffixes whose offsets stay within reach can be referred to. */
  function SpelledLen(d: Offsets, name: Name, cut: nat, delta: nat): (len: nat)
    ensures name != [] ==> len >= 2
    ensures name != [] && (name !in d || Lost(d[name], cut, delta)) ==> len > 2
    decreases |name|
  {
    if name == [] then 1
    else if name in d && !Lost(d[name], cut, delta) then 2
    else 1 + |name[0]| + SpelledLen(d, name[1..], cut, delta)
  }

  /** Octets by which `name` grows because its pointer is lost. */
  function NameLost(off: nat, d: Offsets, name: Name, cut: nat, delta: nat): nat
    decreases |name|
  {
    if name == [] then 0
    else if name in d then SpelledLen(d, name, cut, delta) - 2
    else NameLost(off + 1 + |name[0]|, Register(d, name, off), name[1..], cut, delta)
  }

  /** The same for all names of a list, whose pointers are those of the packing without the shift. */
  function ItemsLost(off: nat, d: Offsets, items: seq<Item>, cut: nat, delta: nat): nat
    decreases |items|
  {
    if items == [] then 0
    else
      var first := PackItem(off, d, items[0]);
      NameLost(off, d, items[0].name, cut, delta)
      + ItemsLost(off + |first.bytes|, first.offsets, items[1..], cut, delta)
  }

  /** Nothing is lost exactly when no pointer is. */
  lemma {:induction false} NameLostOrNot(off: nat, d: Offsets, name: Name, cut: nat, delta: nat)
    ensures NameLost(off, d, name, cut, delta) == 0 <==> !NameUsesLost(off, d, name, cut, delta)
    decreases |name|
  {
    if name == [] || name in d {
    } else {
      NameLostOrNot(off + 1 + |name[0]|, Register(d, name, off), name[1..], cut, delta);
    }
  }

  lemma {:induction false} ItemsLostOrNot(off: nat, d: Offsets, items: seq<Item>, cut: nat, delta: nat)
    ensures ItemsLost(off, d, items, cut, delta) == 0 <==> !ItemsUseLost(off, d, items, cut, delta)
    decreases |items|
  {
    hide PackItem, NameLost, NameUsesLost;
    if items == [] {
    } else {
      var first := PackItem(off, d, items[0]);
      NameLostOrNot(off, d, items[0].name, cut, delta);
      ItemsLostOrNot(off + |first.bytes|, first.offsets, items[1..], cut, delta);
    }
  }

  // ----- The shifted packing -----

  /** The shifted packer remembers exactly the suffixes whose offsets are not lost. */
  ghost predicate Kept(d1: Offsets, d2: Offsets, cut: nat, delta: nat) {
    forall n :: n in d2 <==> n in d1 && !Lost(d1[n], cut, delta)
  }

  ghost predicate Below(d: Offsets, off: nat) {
    forall n :: n in d ==> d[n] < off
  }

  /** Both packers are behind the cut, `delta` octets apart; from the first loss on it may be more. */
  predicate Shifted(off1: nat, off2: nat, cut: nat, delta: nat) {
    off1 >= cut && off2 >= off1 + delta && (off2 == off1 + delta || off1 + delta > MAX_OFFSET)
  }

  /** Beyond the reach of pointers a name is spelled without remembering anything. */
  lemma {:induction false} SpelledOut(off: nat, d1: Offsets, d2: Offsets, name: Name, cut: nat, delta: nat)
    requires Kept(d1, d2, cut, delta) && off > MAX_OFFSET
    ensures PackName(off, d2, name).offsets == d2 && |PackName(off, d2, name).bytes| == SpelledLen(d1, name, cut, delta)
    decreases |name|
  {
    if name == [] || name in d2 {
    } else {
      SpelledOut(off + 1 + |name[0]|, d1, d2, name[1..], cut, delta);
    }
  }

  lemma RegisterKeeps(off1: nat, off2: nat, d1: Offsets, d2: Offsets, name: Name, cut: nat, delta: nat)
    requires Kept(d1, d2, cut, delta) && Below(d1, off1) && Shifted(off1, off2, cut, delta) && name !in d1
    ensures Kept(Register(d1, name, off1), Register(d2, name, off2), cut, delta)
    ensures forall next :: next > off1 ==> Below(Register(d1, name, off1), next)
  {
  }

  /** What packing one name does on both sides. */
  ghost predicate NameGrows(off1: nat, off2: nat, d1: Offsets, d2: Offsets, name: Name, cut: nat, delta: nat) {
    var p1, p2, lost := PackName(off1, d1, name), PackName(off2, d2, name), NameLost(off1, d1, name, cut, delta);
    && |p2.bytes| == |p1.bytes| + lost
    && Kept(p1.offsets, p2.offsets, cut, delta) && Below(p1.offsets, off1 + |p1.bytes|)
    && (lost > 0 ==> off1 + |p1.bytes| + delta > MAX_OFFSET)
  }

  /** A name grows by exactly the octets that its lost pointer costs. */
  lemma {:induction false} NameGrowth(off1: nat, off2: nat, d1: Offsets, d2: Offsets, name: Name, cut: nat, delta: nat)
    requires Kept(d1, d2, cut, delta) && Below(d1, off1) && Shifted(off1, off2, cut, delta)
    ensures NameGrows(off1, off2, d1, d2, name, cut, delta)
    decreases |name|
  {
    if name == [] {
    } else if name in d1 {
      if Lost(d1[name], cut, delta) {
        SpelledOut(off2, d1, d2, name, cut, delta);
      }
    } else {
      var next1, next2 := off1 + 1 + |name[0]|, off2 + 1 + |name[0]|;
      RegisterKeeps(off1, off2, d1, d2, name, cut, delta);
      NameGrowth(next1, next2, Register(d1, name, off1), Register(d2, name, off2), name[1..], cut, delta);
      LeafGrows(off1, off2, d1, d2, name, cut, delta);
    }
  }

  lemma LeafGrows(off1: nat, off2: nat, d1: Offsets, d2: Offsets, name: Name, cut: nat, delta: nat)
    requires Kept(d1, d2, cut, delta) && name != [] && name !in d1
    requires NameGrows(off1 + 1 + |name[0]|, off2 + 1 + |name[0]|, Register(d1, name, off1), Register(d2, name, off2),
                       name[1..], cut, delta)
    ensures NameGrows(off1, off2, d1, d2, name, cut, delta)
  {
    hide Kept, Below, Register;
    assert name !in d2 by {
      NotKept(d1, d2, name, cut, delta);
    }
  }

  lemma NotKept(d1: Offsets, d2: Offsets, name: Name, cut: nat, delta: nat)
    requires Kept(d1, d2, cut, delta) && name !in d1
    ensures name !in d2
  {
  }

  /** The size of a list by its first item. */
  lemma SizeByFirst(off: nat, d: Offsets, items: seq<Item>) returns (name: Packed, next: nat, more: nat)
    requires items != []
    ensures name == PackName(off, d, items[0].name) && next == off + |name.bytes| + |items[0].tail|
    ensures more == |PackItems(next, name.offsets, items[1..]).bytes|
    ensures |PackItems(off, d, items).bytes| == next - off + more
    ensures PackItems(off, d, items).offsets == PackItems(next, name.offsets, items[1..]).offsets
  {
    hide PackName;
    name := PackName(off, d, items[0].name);
    next := off + |name.bytes| + |items[0].tail|;
    more := |PackItems(next, name.offsets, items[1..]).bytes|;
    assert next == off + |PackItem(off, d, items[0]).bytes|;
  }

  lemma LostByFirst(off: nat, d: Offsets, items: seq<Item>, cut: nat, delta: nat, name: Packed, next: nat)
    requires items != [] && name == PackName(off, d, items[0].name) && next == off + |name.bytes| + |items[0].tail|
    ensures ItemsLost(off, d, items, cut, delta)
            == NameLost(off, d, items[0].name, cut, delta) + ItemsLost(next, name.offsets, items[1..], cut, delta)
  {
    hide PackName, NameLost;
    assert next == off + |PackItem(off, d, items[0]).bytes|;
  }

  lemma LaterBelow(off: nat, next: nat, d: Offsets)
    requires Below(d, off) && off <= next
    ensures Below(d, next)
  {
  }

  /** What follows the OPT record grows by exactly the octets that its lost pointers cost. */
  lemma {:induction false} ItemsGrowth(off1: nat, off2: nat, d1: Offsets, d2: Offsets, items: seq<Item>, cut: nat,
                                       delta: nat)
    requires Kept(d1, d2, cut, delta) && Below(d1, off1) && Shifted(off1, off2, cut, delta)
    ensures |PackItems(off2, d2, items).bytes|
            == |PackItems(off1, d1, items).bytes| + ItemsLost(off1, d1, items, cut, delta)
    decreases |items|
  {
    hide PackName, PackItems, NameLost, Kept, Below;
    if items == [] {
      NoItems(off1, d1, off2, d2, cut, delta);
    } else {
      var n1, next1, more1 := SizeByFirst(off1, d1, items);
      var n2, next2, more2 := SizeByFirst(off2, d2, items);
      LostByFirst(off1, d1, items, cut, delta, n1, next1);
      NameGrowth(off1, off2, d1, d2, items[0].name, cut, delta);
      LaterBelow(off1 + |n1.bytes|, next1, n1.offsets);
      ItemsGrowth(next1, next2, n1.offsets, n2.offsets, items[1..], cut, delta);
    }
  }

  lemma NoItems(off1: nat, d1: Offsets, off2: nat, d2: Offsets, cut: nat, delta: nat)
    ensures PackItems(off1, d1, []).bytes == [] && PackItems(off2, d2, []).bytes == []
            && ItemsLost(off1, d1, [], cut, delta) == 0
  {
  }

  lemma {:induction false} NameKeepsBelow(off: nat, d: Offsets, name: Name)
    requires Below(d, off)
    ensures var p := PackName(off, d, name); Below(p.offsets, off + |p.bytes|)
    decreases |name|
  {
    if name == [] || name in d {
    } else {
      NameKeepsBelow(off + 1 + |name[0]|, Register(d, name, off), name[1..]);
    }
  }

  lemma {:induction false} ItemsKeepBelow(off: nat, d: Offsets, items: seq<Item>)
    requires Below(d, off)
    ensures var p := PackItems(off, d, items); Below(p.offsets, off + |p.bytes|)
    decreases |items|
  {
    hide PackName, Below;
    if items == [] {
    } else {
      var n, next, more := SizeByFirst(off, d, items);
      NameKeepsBelow(off, d, items[0].name);
      LaterBelow(off + |n.bytes|, next, n.offsets);
      ItemsKeepBelow(next, n.offsets, items[1..]);
    }
  }

  /** Nothing at or behind the cut is remembered at the cut. */
  lemma KeptAtCut(d: Offsets, cut: nat, delta: nat)
    requires Below(d, cut)
    ensures Kept(d, d, cut, delta)
  {
  }

  // ----- The padded message -----

  lemma {:induction false} ResourceItemsAppend(a: seq<Resource>, b: seq<Resource>)
    requires AllPackable(a + b)
    ensures AllPackable(a) && AllPackable(b) && ResourceItems(a + b) == ResourceItems(a) + ResourceItems(b)
    decreases |a|
  {
    if a == [] {
      assert a + b == b;
    } else {
      assert (a + b)[1..] == a[1..] + b;
      ResourceItemsAppend(a[1..], b);
    }
  }

  lemma ResourceItemsCons(r: Resource, rest: seq<Resource>)
    requires AllPackable([r] + rest)
    ensures PackableResource(r) && AllPackable(rest)
    ensures ResourceItems([r] + rest) == [ResourceItem(r)] + ResourceItems(rest)
  {
    assert ([r] + rest)[1..] == rest;
  }

  lemma ResourceItemsAround(rs: seq<Resource>, i: nat)
    requires AllPackable(rs) && i < |rs|
    ensures AllPackable(rs[..i]) && AllPackable(rs[i + 1..]) && PackableResource(rs[i])
    ensures ResourceItems(rs) == ResourceItems(rs[..i]) + ([ResourceItem(rs[i])] + ResourceItems(rs[i + 1..]))
  {
    hide PackableResource, ResourceItem, AllPackable, ResourceItems;
    var a, r, b := rs[..i], rs[i], rs[i + 1..];
    assert rs == a + ([r] + b);
    ResourceItemsAppend(a, [r] + b);
    ResourceItemsCons(r, b);
  }

  /** The items of a message around resource `i` of its additional section. */
  lemma ItemsAround(m: Message, i: nat) returns (pre: seq<Item>, post: seq<Item>)
    requires Packable(m) && i < |m.additionals|
    ensures AllPackable(m.additionals[..i]) && AllPackable(m.additionals[i + 1..]) && PackableResource(m.additionals[i])
    ensures pre == QuestionItems(m.questions) + ResourceItems(m.answers) + ResourceItems(m.authorities)
                   + ResourceItems(m.additionals[..i])
    ensures post == ResourceItems(m.additionals[i + 1..])
    ensures Items(m) == pre + ([ResourceItem(m.additionals[i])] + post)
  {
    hide PackableResource, ResourceItem, AllPackable, ResourceItems, QuestionItems;
    ResourceItemsAround(m.additionals, i);
    var a, b := m.additionals[..i], m.additionals[i + 1..];
    pre := QuestionItems(m.questions) + ResourceItems(m.answers) + ResourceItems(m.authorities) + ResourceItems(a);
    post := ResourceItems(b);
  }

  /** One item grows by `delta` octets; what that does to the whole. */
  lemma GrowthAround(pre: seq<Item>, o: Item, o': Item, post: seq<Item>, delta: nat)
    requires o'.name == o.name && |o'.tail| == |o.tail| + delta
    ensures var before := PackItems(HEADER_LEN, map[], pre + [o]);
            var off := HEADER_LEN + |before.bytes|;
            |PackItems(HEADER_LEN, map[], pre + [o'] + post).bytes|
            == |PackItems(HEADER_LEN, map[], pre + [o] + post).bytes| + delta
            + ItemsLost(off, before.offsets, post, off, delta)
  {
    hide PackItems, ItemsLost, Kept;
    var before := PackItems(HEADER_LEN, map[], pre + [o]);
    var off := HEADER_LEN + |before.bytes|;
    GrowsHere(pre, o, o', delta);
    PackItemsAppend(HEADER_LEN, map[], pre + [o], post);
    PackItemsAppend(HEADER_LEN, map[], pre + [o'], post);
    ItemsKeepBelow(HEADER_LEN, map[], pre + [o]);
    KeptAtCut(before.offsets, off, delta);
    ItemsGrowth(off, off + delta, before.offsets, before.offsets, post, off, delta);
  }

  lemma GrowsHere(pre: seq<Item>, o: Item, o': Item, delta: nat)
    requires o'.name == o.name && |o'.tail| == |o.tail| + delta
    ensures var before, before' := PackItems(HEADER_LEN, map[], pre + [o]), PackItems(HEADER_LEN, map[], pre + [o']);
            |before'.bytes| == |before.bytes| + delta && before'.offsets == before.offsets
  {
    var p := PackItems(HEADER_LEN, map[], pre);
    PackItemsAppend(HEADER_LEN, map[], pre, [o]);
    PackItemsAppend(HEADER_LEN, map[], pre, [o']);
    PackItemsCons(HEADER_LEN + |p.bytes|, p.offsets, o, []);
    PackItemsCons(HEADER_LEN + |p.bytes|, p.offsets, o', []);
    assert [o] + [] == [o] && [o'] + [] == [o'];
  }

  lemma {:induction false} OptionsLenAppend(options: seq<EdnsOption>, o: EdnsOption)
    ensures OptionsLen(options + [o]) == OptionsLen(options) + 4 + |o.data|
    decreases |options|
  {
    if options == [] {
      assert options + [o] == [o] && [o][1..] == [];
    } else {
      assert (options + [o])[1..] == options[1..] + [o];
      OptionsLenAppend(options[1..], o);
    }
  }

  lemma {:induction false} QuestionItemsLen(qs: seq<Question>)
    ensures |QuestionItems(qs)| == |qs|
    decreases |qs|
  {
    if qs == [] {
    } else {
      QuestionItemsLen(qs[1..]);
    }
  }

  lemma {:induction false} ResourceItemsLen(rs: seq<Resource>)
    requires AllPackable(rs)
    ensures |ResourceItems(rs)| == |rs|
    decreases |rs|
  {
    if rs == [] {
    } else {
      ResourceItemsLen(rs[1..]);
    }
  }

  /** Where the OPT record stands among the items of a message. */
  function OptIndex(w: Message): nat
    requires LastOpt(w.additionals).Some?
  {
    |w.questions| + |w.answers| + |w.authorities| + LastOpt(w.additionals).value
  }

  datatype Behind = Behind(off: nat, offsets: Offsets, items: seq<Item>)

  /** What is packed behind the OPT record: where, with which suffixes remembered, and which items. */
  function BehindOpt(w: Message): Behind
    requires Packable(w) && LastOpt(w.additionals).Some?
  {
    var items := Items(w);
    var k := Min(OptIndex(w) + 1, |items|);
    var before := PackItems(HEADER_LEN, map[], items[..k]);
    Behind(HEADER_LEN + |before.bytes|, before.offsets, items[k..])
  }

  /**
   * Packing the query without padding writes, behind its OPT record, a pointer to an offset behind
   * the OPT record that `delta` more octets put out of reach.
   */
  predicate PointerLost(w: Message, delta: nat)
    requires Packable(w) && LastOpt(w.additionals).Some?
  {
    var b := BehindOpt(w);
    ItemsUseLost(b.off, b.offsets, b.items, b.off, delta)
  }

  /** How many octets it takes to write out the names that such pointers stood for. */
  function LostOctets(w: Message, delta: nat): nat
    requires Packable(w) && LastOpt(w.additionals).Some?
  {
    var b := BehindOpt(w);
    ItemsLost(b.off, b.offsets, b.items, b.off, delta)
  }

  lemma NoPointerNoOctets(w: Message, delta: nat)
    requires Packable(w) && LastOpt(w.additionals).Some?
    ensures LostOctets(w, delta) == 0 <==> !PointerLost(w, delta)
  {
    var b := BehindOpt(w);
    ItemsLostOrNot(b.off, b.offsets, b.items, b.off, delta);
  }

  /** `w` is packed as `pre`, the OPT record `o`, and `post`. */
  ghost predicate OptItems(w: Message, pre: seq<Item>, o: Item, post: seq<Item>)
    requires Packable(w) && LastOpt(w.additionals).Some?
  {
    Items(w) == pre + [o] + post && |pre| == OptIndex(w)
  }

  lemma ItemsAtOpt(w: Message, i: nat) returns (pre: seq<Item>, o: Item, post: seq<Item>)
    requires Packable(w) && LastOpt(w.additionals) == Some(i)
    ensures OptItems(w, pre, o, post)
    ensures PackableResource(w.additionals[i]) && o == ResourceItem(w.additionals[i])
    ensures AllPackable(w.additionals[..i]) && AllPackable(w.additionals[i + 1..])
    ensures pre == QuestionItems(w.questions) + ResourceItems(w.answers) + ResourceItems(w.authorities)
                   + ResourceItems(w.additionals[..i])
    ensures post == ResourceItems(w.additionals[i + 1..])
  {
    hide QuestionItems, ResourceItems, AllPackable, ResourceItem, LastOpt;
    pre, post := ItemsAround(w, i);
    o := ResourceItem(w.additionals[i]);
    QuestionItemsLen(w.questions);
    ResourceItemsLen(w.answers);
    ResourceItemsLen(w.authorities);
    ResourceItemsLen(w.additionals[..i]);
    assert pre + ([o] + post) == pre + [o] + post;
  }

  lemma BehindOptAt(w: Message, pre: seq<Item>, o: Item, post: seq<Item>)
    requires Packable(w) && LastOpt(w.additionals).Some? && OptItems(w, pre, o, post)
    ensures var before := PackItems(HEADER_LEN, map[], pre + [o]);
            BehindOpt(w) == Behind(HEADER_LEN + |before.bytes|, before.offsets, post)
  {
    hide PackItems, Items;
    var items, k := Items(w), OptIndex(w) + 1;
    assert items[..k] == pre + [o] && items[k..] == post;
  }

  /** With padding, the OPT item has a longer tail; the items around it are the same. */
  lemma PaddedItems(w: Message, n: nat, i: nat) returns (pre: seq<Item>, o: Item, o': Item, post: seq<Item>)
    requires Packable(w) && LastOpt(w.additionals) == Some(i) && Packable(WithPadding(w, n))
    ensures OptItems(w, pre, o, post) && Items(WithPadding(w, n)) == pre + [o'] + post
    ensures o'.name == o.name && |o'.tail| == |o.tail| + OPT_PADDING_HEADER_LEN + n
    ensures i == |w.additionals| - 1 ==> post == []
  {
    var w' := WithPadding(w, n);
    pre, o, post := ItemsAtOpt(w, i);
    LastOptUpdated(w.additionals, i, AddOption(w.additionals[i], PaddingOption(n)));
    assert w'.additionals[..i] == w.additionals[..i] && w'.additionals[i + 1..] == w.additionals[i + 1..];
    var pre', o'', post' := ItemsAtOpt(w', i);
    o' := o'';
    OptionsLenAppend(w.additionals[i].body.options, PaddingOption(n));
  }

  /** Packing with `n` octets of padding adds the option, and what the lost pointers cost. */
  lemma GrowthExact(w: Message, n: nat)
    requires Packable(w) && LastOpt(w.additionals).Some? && Packable(WithPadding(w, n))
    ensures var delta := OPT_PADDING_HEADER_LEN + n;
            && |Pack(WithPadding(w, n)).value| == |Pack(w).value| + delta + LostOctets(w, delta)
            && (LostOctets(w, delta) == 0 <==> !PointerLost(w, delta))
  {
    hide Packable, PointerLost, PackItems, Items, WithPadding, LastOpt, OptItems, BehindOpt;
    var pre, o, o', post := PaddedItems(w, n, LastOpt(w.additionals).value);
    var delta := OPT_PADDING_HEADER_LEN + n;
    GrowthAround(pre, o, o', post, delta);
    OptItemsSpelled(w, pre, o, post);
    PackedLen(w);
    PackedLen(WithPadding(w, n));
    BehindOptAt(w, pre, o, post);
    NoPointerNoOctets(w, delta);
  }

  lemma OptItemsSpelled(w: Message, pre: seq<Item>, o: Item, post: seq<Item>)
    requires Packable(w) && LastOpt(w.additionals).Some? && OptItems(w, pre, o, post)
    ensures Items(w) == pre + [o] + post
  {
    hide Items, Packable;
  }

  /** `raw` is padded by packing `w`, its message with an OPT record, with `n` octets of padding. */
  predicate PaddedBy(raw: seq<byte>, w: Message, n: nat) {
    && Unpack(raw).Some? && w == WithOpt(Unpack(raw).value)
    && Packable(w) && Packable(WithPadding(w, n))
    && Padded(raw) == Pack(WithPadding(w, n))
  }

  /** A message of `len` octets, with the header of the option and `n` octets of padding, fills whole blocks. */
  predicate FillsBlocks(len: nat, n: nat) {
    n < 128 && (len + 4 + n) % 128 == 0
  }

  /** Whole blocks of 128 octets and `rest` octets. */
  predicate BlocksPlus(len: nat, rest: nat) {
    len % 128 == rest
  }

  lemma ExactlyBlocks(len: nat, n: nat, out: nat)
    requires FillsBlocks(len, n) && out == len + OPT_PADDING_HEADER_LEN + n
    ensures BlocksPlus(out, 0)
  {
  }

  lemma BlocksAndRest(len: nat, n: nat, lost: nat, out: nat)
    requires FillsBlocks(len, n) && out == len + OPT_PADDING_HEADER_LEN + n + lost
    ensures BlocksPlus(out, 0) <==> BlocksPlus(lost, 0)
  {
  }

  lemma SizeBelowBlock(len: nat)
    ensures ComputePaddingSize(len, PADDING_BLOCK_SIZE) < PADDING_BLOCK_SIZE
  {
  }

  lemma ComputedFillsBlocks(len: nat, n: nat)
    requires n == ComputePaddingSize(len, PADDING_BLOCK_SIZE)
    ensures FillsBlocks(len, n)
  {
    PaddingSizeLeast(len, PADDING_BLOCK_SIZE, 0);
    SizeBelowBlock(len);
  }

  lemma Packs(m: Message)
    requires Packable(m)
    ensures Pack(m).Some?
  {
  }

  lemma PaddedUnfolded(raw: seq<byte>) returns (w: Message, n: nat)
    requires Padded(raw).Some? && !AlreadyPadded(raw)
    ensures PaddedBy(raw, w, n) && FillsBlocks(|Pack(w).value|, n)
  {
    w := WithOpt(Unpack(raw).value);
    n := ComputePaddingSize(|Pack(w).value|, PADDING_BLOCK_SIZE);
    ComputedFillsBlocks(|Pack(w).value|, n);
  }

  /**
   * The length of a padded query: that of the unpadded one with the option's header, rounded up to
   * whole blocks with less than a block of padding, plus the octets that lost pointers cost.  So it has
   * the computed length if and only if no pointer is lost, and fills whole blocks if and only if the
   * octets lost do.
   */
  lemma PaddingExact(raw: seq<byte>) returns (w: Message, n: nat, lost: nat)
    requires Padded(raw).Some? && !AlreadyPadded(raw)
    ensures PaddedBy(raw, w, n) && FillsBlocks(|Pack(w).value|, n) && lost == LostOctets(w, OPT_PADDING_HEADER_LEN + n)
    ensures |Padded(raw).value| == |Pack(w).value| + OPT_PADDING_HEADER_LEN + n + lost
    ensures lost == 0 <==> !PointerLost(w, OPT_PADDING_HEADER_LEN + n)
    ensures BlocksPlus(|Padded(raw).value|, 0) <==> BlocksPlus(lost, 0)
  {
    hide Padded, AlreadyPadded, PointerLost, LostOctets, Pack, FillsBlocks, BlocksPlus, Packable, WithPadding, LastOpt,
         Unpack;
    w, n := PaddedUnfolded(raw);
    Packs(w);
    Packs(WithPadding(w, n));
    lost := LostOctets(w, OPT_PADDING_HEADER_LEN + n);
    GrowthExact(w, n);
    BlocksAndRest(|Pack(w).value|, n, lost, |Padded(raw).value|);
  }

  // ----- When no pointer is lost -----

  /** Offsets of longer suffixes of a name cannot be hit again within it, so only those before `start` count. */
  lemma {:induction false} NameWithinReach(off: nat, d: Offsets, name: Name, start: nat, cut: nat, delta: nat)
    requires start + delta <= MAX_OFFSET + 1
    requires forall m :: m in d && |m| <= |name| ==> d[m] < start
    ensures NameLost(off, d, name, cut, delta) == 0
    decreases |name|
  {
    if name == [] || name in d {
    } else {
      NameWithinReach(off + 1 + |name[0]|, Register(d, name, off), name[1..], start, cut, delta);
    }
  }

  lemma {:induction false} ItemsWithinReach(off: nat, d: Offsets, items: seq<Item>, cut: nat, delta: nat)
    requires Below(d, off)
    requires off + |PackItems(off, d, items).bytes| + delta <= MAX_OFFSET + 1
    ensures ItemsLost(off, d, items, cut, delta) == 0
    decreases |items|
  {
    hide PackName, NameLost;
    if items == [] {
    } else {
      var n, next, more := SizeByFirst(off, d, items);
      LostByFirst(off, d, items, cut, delta, n, next);
      NameWithinReach(off, d, items[0].name, off, cut, delta);
      NameKeepsBelow(off, d, items[0].name);
      LaterBelow(off + |n.bytes|, next, n.offsets);
      ItemsWithinReach(next, n.offsets, items[1..], cut, delta);
    }
  }

  /** With the OPT record last, or everything within the reach of a pointer, nothing is lost. */
  lemma NothingLost(w: Message, n: nat, i: nat)
    requires Packable(w) && LastOpt(w.additionals) == Some(i) && Packable(WithPadding(w, n))
    requires i == |w.additionals| - 1 || |Pack(w).value| + OPT_PADDING_HEADER_LEN + n <= MAX_OFFSET + 1
    ensures LostOctets(w, OPT_PADDING_HEADER_LEN + n) == 0
  {
    hide Packable, PackItems, Items, WithPadding, LastOpt, OptItems, BehindOpt, ItemsLost;
    var pre, o, o', post := PaddedItems(w, n, i);
    var delta := OPT_PADDING_HEADER_LEN + n;
    BehindOptAt(w, pre, o, post);
    OptItemsSpelled(w, pre, o, post);
    if i != |w.additionals| - 1 {
      PackedLen(w);
      BehindWithinReach(pre + [o], post, delta);
    } else {
      var b := BehindOpt(w);
      NoItems(b.off, b.offsets, b.off, b.offsets, b.off, delta);
    }
  }

  lemma BehindWithinReach(front: seq<Item>, post: seq<Item>, delta: nat)
    requires HEADER_LEN + |PackItems(HEADER_LEN, map[], front + post).bytes| + delta <= MAX_OFFSET + 1
    ensures var before := PackItems(HEADER_LEN, map[], front);
            var off := HEADER_LEN + |before.bytes|;
            ItemsLost(off, before.offsets, post, off, delta) == 0
  {
    hide PackItems, ItemsLost;
    var before := PackItems(HEADER_LEN, map[], front);
    var off := HEADER_LEN + |before.bytes|;
    PackItemsAppend(HEADER_LEN, map[], front, post);
    ItemsKeepBelow(HEADER_LEN, map[], front);
    ItemsWithinReach(off, before.offsets, post, off, delta);
  }

  lemma OptOfWithOpt(m: Message)
    ensures LastOpt(m.additionals).Some? ==> WithOpt(m) == m
    ensures LastOpt(m.additionals).None? ==> LastOpt(WithOpt(m).additionals) == Some(|WithOpt(m).additionals| - 1)
  {
  }

  lemma ExactInPractice(raw: seq<byte>, m: Message, out: seq<byte>) returns (len: nat, n: nat)
    requires Unpack(raw) == Some(m) && Padded(raw) == Some(out) && !HasPadding(m)
    requires || LastOpt(m.additionals).None? || LastOpt(m.additionals).value == |m.additionals| - 1
             || |out| <= MAX_OFFSET + 1
    ensures FillsBlocks(len, n) && |out| == len + OPT_PADDING_HEADER_LEN + n
  {
    hide Padded, Unpack, HasPadding, Packable, LostOctets, PointerLost, PackItems;
    var w, lost;
    w, n, lost := PaddingExact(raw);
    len := |Pack(w).value|;
    OptOfWithOpt(m);
    NothingLost(w, n, LastOpt(w.additionals).value);
  }

  /**
   * Whole blocks in practice: a query that has no OPT record, or has it last, or stays within 16384
   * octets, is padded to whole blocks.
   */
  lemma PaddingFillsBlocks(raw: seq<byte>, m: Message, out: seq<byte>)
    requires Unpack(raw) == Some(m) && Padded(raw) == Some(out) && !HasPadding(m)
    requires || LastOpt(m.additionals).None? || LastOpt(m.additionals).value == |m.additionals| - 1
             || |out| <= MAX_OFFSET + 1
    ensures BlocksPlus(|out|, 0)
  {
    var len, n := ExactInPractice(raw, m, out);
    ExactlyBlocks(len, n, |out|);
  }

  // ----- Queries whose padding is not exact -----

  function Zeros(n: nat): (z: seq<byte>)
    ensures |z| == n
  {
    seq(n, _ => 0)
  }

  /** A record that fills the message up to the last offset within reach. */
  function Filler(): Resource {
    Resource([], 1, 0, Other(1, Zeros(16349)))
  }

  const NAMED := Resource([[97]], 1, 0, Other(1, []))

  function Named(k: nat): (rs: seq<Resource>)
    ensures |rs| == k && forall i :: 0 <= i < k ==> rs[i] == NAMED
  {
    if k == 0 then [] else [NAMED] + Named(k - 1)
  }

  /** An OPT record first, a large record, and `k` records of one name behind it. */
  function Stretched(k: nat): Message {
    Message(Header(0, false, 0, false, false, true, false, false, false, 0), [], [], [],
            [EMPTY_OPT, Filler()] + Named(k))
  }

  lemma {:induction false} NamedPackable(k: nat)
    ensures AllPackable(Named(k))
    decreases k
  {
    if k == 0 {
    } else {
      assert WireLen([[97]]) == 1 + 1 + WireLen([]) by {
        assert [[97 as byte]][1..] == [];
      }
      NamedPackable(k - 1);
      assert Named(k)[1..] == Named(k - 1);
    }
  }

  /** The records behind the OPT record. */
  function Tail(k: nat): seq<Resource> {
    [Filler()] + Named(k)
  }

  lemma TailPackable(k: nat)
    ensures AllPackable(Tail(k)) && AllPackable(Named(k)) && PackableResource(Filler())
    ensures ResourceItems(Tail(k)) == [ResourceItem(Filler())] + ResourceItems(Named(k))
  {
    NamedPackable(k);
    assert Tail(k)[1..] == Named(k);
  }

  lemma StretchedOpt(k: nat)
    requires k <= 65533
    ensures Packable(Stretched(k)) && LastOpt(Stretched(k).additionals) == Some(0) && !HasPadding(Stretched(k))
    ensures Stretched(k).additionals[1..] == Tail(k) && Stretched(k).additionals[..0] == []
  {
    hide Named;
    TailPackable(k);
    var rs := Stretched(k).additionals;
    assert rs == [EMPTY_OPT] + Tail(k) && rs[1..] == Tail(k);
    assert PackableResource(EMPTY_OPT);
    var i := LastOpt(rs);
    assert rs[0].body.Opt?;
    assert forall j :: 0 < j < |rs| ==> !rs[j].body.Opt?;
  }

  lemma PaddedStretchedPacks(k: nat, n: nat)
    requires k <= 65533 && n < PADDING_BLOCK_SIZE && LastOpt(Stretched(k).additionals) == Some(0)
    ensures Packable(WithPadding(Stretched(k), n))
  {
    hide Named, Tail;
    StretchedOpt(k);
    TailPackable(k);
    var opt := AddOption(EMPTY_OPT, PaddingOption(n));
    OptionsLenAppend([], PaddingOption(n));
    assert [] + [PaddingOption(n)] == opt.body.options;
    assert PackableResource(opt);
    var rs := WithPadding(Stretched(k), n).additionals;
    assert rs[0] == opt && rs[1..] == Tail(k);
  }

  const NAME: Name := [[97]]

  /** Every record whose name is remembered at a lost offset costs one octet: three for the name instead of two. */
  lemma {:induction false} NamedLost(off: nat, d: Offsets, k: nat, cut: nat, delta: nat)
    requires AllPackable(Named(k)) && NAME in d && [] !in d && Lost(d[NAME], cut, delta)
    ensures ItemsLost(off, d, ResourceItems(Named(k)), cut, delta) == k
    decreases k
  {
    if k == 0 {
    } else {
      var items := ResourceItems(Named(k));
      assert Named(k)[1..] == Named(k - 1);
      assert items[0].name == NAME && items[1..] == ResourceItems(Named(k - 1));
      assert NAME[1..] == [] && NameLost(off, d, NAME, cut, delta) == 1;
      var n, next, more := SizeByFirst(off, d, items);
      LostByFirst(off, d, items, cut, delta, n, next);
      NamedLost(next, n.offsets, k - 1, cut, delta);
    }
  }

  /** The first record's name is remembered at the last offset within reach, and lost with any padding. */
  lemma TailLost(k: nat, delta: nat)
    requires 0 < k && 0 < delta && AllPackable(Tail(k))
    ensures ItemsLost(HEADER_LEN + 11, map[], ResourceItems(Tail(k)), HEADER_LEN + 11, delta) == k - 1
  {
    hide ItemsLost, PackItems;
    TailPackable(k);
    var off, items := HEADER_LEN + 11, ResourceItems(Tail(k));
    assert items[0] == ResourceItem(Filler()) && items[1..] == ResourceItems(Named(k));
    FillerTail();
    var n1, next1, more1 := SizeByFirst(off, map[], items);
    LostByFirst(off, map[], items, off, delta, n1, next1);
    assert n1 == Packed([0], map[]) && next1 == MAX_OFFSET;
    assert Named(k)[1..] == Named(k - 1);
    var named := items[1..];
    assert named[0] == ResourceItem(NAMED) && named[1..] == ResourceItems(Named(k - 1));
    var n2, next2, more2 := SizeByFirst(next1, map[], named);
    LostByFirst(next1, map[], named, off, delta, n2, next2);
    assert NAME[1..] == [] && n2.offsets == map[NAME := MAX_OFFSET];
    NamedLost(next2, n2.offsets, k - 1, off, delta);
  }

  lemma FillerTail()
    ensures PackableResource(Filler()) && ResourceItem(Filler()).name == [] && |ResourceItem(Filler()).tail| == 16359
  {
  }

  lemma StretchedLost(k: nat, delta: nat)
    requires 0 < k <= 65533 && 0 < delta && Packable(Stretched(k)) && LastOpt(Stretched(k).additionals) == Some(0)
    ensures LostOctets(Stretched(k), delta) == k - 1
  {
    hide ItemsLost, Named, Stretched, Tail, LastOpt, Items, BehindOpt, OptItems, ResourceItem, ResourceItems,
         QuestionItems, PackItems, Packable, AllPackable, PackableResource;
    StretchedOpt(k);
    TailPackable(k);
    var pre, o, post := ItemsAtOpt(Stretched(k), 0);
    BehindOptAt(Stretched(k), pre, o, post);
    StretchedFront(k, pre, o);
    TailLost(k, delta);
  }

  /** The OPT record comes first and takes 11 octets. */
  lemma StretchedFront(k: nat, pre: seq<Item>, o: Item)
    requires AllPackable(Stretched(k).additionals[..0])
    requires PackableResource(Stretched(k).additionals[0]) && o == ResourceItem(Stretched(k).additionals[0])
    requires pre == QuestionItems(Stretched(k).questions) + ResourceItems(Stretched(k).answers)
                    + ResourceItems(Stretched(k).authorities) + ResourceItems(Stretched(k).additionals[..0])
    ensures PackItems(HEADER_LEN, map[], pre + [o]).offsets == map[]
            && |PackItems(HEADER_LEN, map[], pre + [o]).bytes| == 11
  {
    assert pre == [] && Stretched(k).additionals[0] == EMPTY_OPT;
    assert pre + [o] == [o] && [o][1..] == [];
  }

  /**
   * Padding this query costs `k` - 1 octets beyond the computed length: it fills whole blocks only if
   * these do.
   */
  lemma StretchedQuery(k: nat) returns (raw: seq<byte>, out: seq<byte>)
    requires 0 < k <= 65533
    ensures Unpack(raw) == Some(Stretched(k)) && !HasPadding(Stretched(k)) && Padded(raw) == Some(out)
    ensures BlocksPlus(|out|, 0) <==> BlocksPlus(k - 1, 0)
  {
    hide Unpack, Pack, HasPadding, Stretched, LostOctets, PointerLost, FillsBlocks, BlocksPlus;
    StretchedOpt(k);
    Packs(Stretched(k));
    raw := Pack(Stretched(k)).value;
    UnpackInvertsPack(Stretched(k));
    StretchedPads(k, raw);
    out := Padded(raw).value;
    var w, n, lost := PaddingExact(raw);
    StretchedLost(k, OPT_PADDING_HEADER_LEN + n);
  }

  lemma StretchedPads(k: nat, raw: seq<byte>)
    requires 0 < k <= 65533 && Unpack(raw) == Some(Stretched(k)) && !HasPadding(Stretched(k))
    requires Packable(Stretched(k)) && LastOpt(Stretched(k).additionals) == Some(0)
    ensures Padded(raw).Some? && !AlreadyPadded(raw) && WithOpt(Stretched(k)) == Stretched(k)
  {
    hide Unpack, Packable, HasPadding, Stretched, WithPadding;
    var n := ComputePaddingSize(|Pack(Stretched(k)).value|, PADDING_BLOCK_SIZE);
    SizeBelowBlock(|Pack(Stretched(k)).value|);
    PaddedStretchedPacks(k, n);
  }

  /** With two records of one name the result is not whole blocks; with 129 it is, although pointers are lost. */
  lemma StretchedQueries() returns (misses: seq<byte>, fills: seq<byte>)
    ensures Padded(misses).Some? && Unpack(misses) == Some(Stretched(2)) && !BlocksPlus(|Padded(misses).value|, 0)
    ensures Padded(fills).Some? && Unpack(fills) == Some(Stretched(129)) && BlocksPlus(|Padded(fills).value|, 0)
  {
    hide Padded, Unpack, HasPadding, Stretched;
    var out;
    misses, out := StretchedQuery(2);
    fills, out := StretchedQuery(129);
  }
}
