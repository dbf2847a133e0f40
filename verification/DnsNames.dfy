/**
 * Domain names on the wire with the compression of section 4.1.4 of RFC 1035.  The packer remembers
 * at which offset each suffix was first written and refers to it with a two-octet pointer.
 */
module DnsNames {
  import opened Bytes

  const MAX_NAME_LEN := 255
  const MAX_OFFSET := 0x3FFF

  type Label = l: seq<byte> | 1 <= |l| <= 63 witness [97]

  /** Leaf label first; the root is the empty sequence. */
  type Name = seq<Label>

  type Pointer = p: int | 0 <= p <= MAX_OFFSET

  type Offsets = map<Name, Pointer>

  function WireLen(name: Name): nat {
    if name == [] then 1 else 1 + |name[0]| + WireLen(name[1..])
  }

  datatype Packed = Packed(bytes: seq<byte>, offsets: Offsets)

  function PutPointer(p: Pointer): (b: seq<byte>)
    ensures |b| == 2
  {
    [0xC0 + p / 0x100, p % 0x100]
  }

  function GetPointer(hi: byte, lo: byte): Pointer
    requires hi >= 0xC0
  {
    (hi as int - 0xC0) * 0x100 + lo as int
  }

  /** A suffix can be referred to later only if its offset fits the fourteen bits of a pointer. */
  function Register(offsets: Offsets, name: Name, off: nat): Offsets {
    if off <= MAX_OFFSET then offsets[name := off] else offsets
  }

  /** `name` written at offset `off` of the message. */
  function PackName(off: nat, offsets: Offsets, name: Name): Packed
    decreases |name|
  {
    if name == [] then
      Packed([0], offsets)
    else if name in offsets then
      Packed(PutPointer(offsets[name]), offsets)
    else
      var leaf := name[0];
      var rest := PackName(off + 1 + |leaf|, Register(offsets, name, off), name[1..]);
      Packed([|leaf|] + leaf + rest.bytes, rest.offsets)
  }

  datatype Decoded = Decoded(name: Name, next: nat)

  /** The name at `pos`; a pointer must lead to before `bound`, and from there only further back. */
  function DecodeName(msg: seq<byte>, pos: nat, bound: nat): (r: Option<Decoded>)
    ensures r.Some? ==> pos < r.value.next <= |msg|
    decreases bound, if pos <= |msg| then |msg| - pos else 0
  {
    if pos >= |msg| then None
    else if msg[pos] == 0 then Some(Decoded([], pos + 1))
    else if msg[pos] <= 63 then
      var end := pos + 1 + msg[pos];
      if end > |msg| then None
      else
        match DecodeName(msg, end, bound)
        case None => None
        case Some(d) => Some(Decoded([msg[pos + 1..end]] + d.name, d.next))
    else if msg[pos] < 0xC0 || pos + 1 >= |msg| then None
    else
      var target := GetPointer(msg[pos], msg[pos + 1]);
      if target >= bound then None
      else
        match DecodeName(msg, target, target)
        case None => None
        case Some(d) => Some(Decoded(d.name, pos + 2))
  }

  /** How many pointers DecodeName follows. */
  function Pointers(msg: seq<byte>, pos: nat, bound: nat): nat
    decreases bound, if pos <= |msg| then |msg| - pos else 0
  {
    if pos >= |msg| || msg[pos] == 0 then 0
    else if msg[pos] <= 63 then
      if pos + 1 + msg[pos] > |msg| then 0 else Pointers(msg, pos + 1 + msg[pos], bound)
    else if msg[pos] < 0xC0 || pos + 1 >= |msg| then 0
    else
      var target := GetPointer(msg[pos], msg[pos + 1]);
      if target >= bound then 0 else 1 + Pointers(msg, target, target)
  }

  /** Octets that follow, and a later starting point of the name, do not change what is decoded. */
  lemma {:induction false} DecodeExtends(msg: seq<byte>, z: seq<byte>, pos: nat, bound: nat, bound': nat)
    requires DecodeName(msg, pos, bound).Some? && bound <= bound'
    ensures DecodeName(msg + z, pos, bound') == DecodeName(msg, pos, bound)
    ensures Pointers(msg + z, pos, bound') == Pointers(msg, pos, bound)
    decreases bound, if pos <= |msg| then |msg| - pos else 0
  {
    if msg[pos] == 0 {
    } else if msg[pos] <= 63 {
      var end := pos + 1 + msg[pos];
      DecodeExtends(msg, z, end, bound, bound');
      assert (msg + z)[pos + 1..end] == msg[pos + 1..end];
    } else {
      var target := GetPointer(msg[pos], msg[pos + 1]);
      DecodeExtends(msg, z, target, target, target);
    }
  }

  /** The octets at `off` spell `name`, with fewer pointers than it has labels. */
  predicate Spells(msg: seq<byte>, off: nat, name: Name) {
    var r := DecodeName(msg, off, off);
    off < |msg| && r.Some? && r.value.name == name && Pointers(msg, off, off) < |name|
  }

  /** Every remembered offset spells the suffix it is remembered for. */
  ghost predicate Sound(msg: seq<byte>, offsets: Offsets) {
    forall n :: n in offsets ==> Spells(msg, offsets[n], n)
  }

  lemma SoundExtends(msg: seq<byte>, z: seq<byte>, offsets: Offsets)
    requires Sound(msg, offsets)
    ensures Sound(msg + z, offsets)
  {
    forall n | n in offsets ensures Spells(msg + z, offsets[n], n) {
      DecodeExtends(msg, z, offsets[n], offsets[n], offsets[n]);
    }
  }

  /** What packing `name` behind `msg` must leave: the old offsets, and new ones that spell what they should. */
  ghost predicate SoundAfter(msg: seq<byte>, whole: seq<byte>, offsets: Offsets, after: Offsets) {
    forall n :: n in after ==>
      (n in offsets && after[n] == offsets[n]) || (after[n] >= |msg| && Spells(whole, after[n], n))
  }

  /** Offsets of suffixes no longer than `len` are sound and lie before `start`. */
  ghost predicate SoundUpTo(msg: seq<byte>, offsets: Offsets, len: nat, start: nat) {
    forall n :: n in offsets && |n| <= len ==> offsets[n] < start && Spells(msg, offsets[n], n)
  }

  ghost predicate Inverted(msg: seq<byte>, offsets: Offsets, name: Name, start: nat, p: Packed) {
    var whole := msg + p.bytes;
    && DecodeName(whole, |msg|, start) == Some(Decoded(name, |whole|))
    && Pointers(whole, |msg|, start) <= |name|
    && SoundAfter(msg, whole, offsets, p.offsets)
  }

  /**
   * Packing inverts: decoding at the place of the name gives the name back and ends where the packed
   * octets end, and all offsets remembered on the way are sound.  `start` is where the whole name began.
   */
  lemma {:induction false} PackNameInverts(msg: seq<byte>, offsets: Offsets, name: Name, start: nat)
    requires start <= |msg| && SoundUpTo(msg, offsets, |name|, start)
    ensures Inverted(msg, offsets, name, start, PackName(|msg|, offsets, name))
    decreases |name|
  {
    hide DecodeName, Pointers, Inverted, Spells, Register, PutPointer;
    if name == [] {
      RootInverts(msg, offsets, start);
    } else if name in offsets {
      PointerInverts(msg, offsets, offsets[name], name, start);
    } else {
      var leaf, offsets1 := name[0], Register(offsets, name, |msg|);
      var msg1 := msg + ([|leaf|] + leaf);
      RegisterSound(msg, [|leaf|] + leaf, offsets, name, start);
      PackNameInverts(msg1, offsets1, name[1..], start);
      var rest := PackName(|msg1|, offsets1, name[1..]);
      LabelInverts(msg, offsets, leaf, name, rest, start);
      assert PackName(|msg|, offsets, name) == Packed([|leaf|] + leaf + rest.bytes, rest.offsets);
    }
  }

  lemma RootInverts(msg: seq<byte>, offsets: Offsets, start: nat)
    ensures Inverted(msg, offsets, [], start, Packed([0], offsets))
  {
  }

  lemma PutGetPointer(p: Pointer)
    ensures PutPointer(p)[0] >= 0xC0 && GetPointer(PutPointer(p)[0], PutPointer(p)[1]) == p
  {
  }

  /** A pointer at `pos` is followed. */
  lemma PointerFollowed(msg: seq<byte>, pos: nat, p: Pointer, start: nat)
    requires pos + 2 <= |msg| && msg[pos..pos + 2] == PutPointer(p) && p < start && DecodeName(msg, p, p).Some?
    ensures DecodeName(msg, pos, start) == Some(Decoded(DecodeName(msg, p, p).value.name, pos + 2))
    ensures Pointers(msg, pos, start) == 1 + Pointers(msg, p, p)
  {
    hide PutPointer, GetPointer;
    PutGetPointer(p);
    assert msg[pos] == PutPointer(p)[0] && msg[pos + 1] == PutPointer(p)[1];
  }

  lemma PointerInverts(msg: seq<byte>, offsets: Offsets, p: Pointer, name: Name, start: nat)
    requires start <= |msg| && p < start && Spells(msg, p, name)
    ensures Inverted(msg, offsets, name, start, Packed(PutPointer(p), offsets))
  {
    hide DecodeName, Pointers, PutPointer;
    var whole := msg + PutPointer(p);
    DecodeExtends(msg, PutPointer(p), p, p, p);
    PointerFollowed(whole, |msg|, p, start);
  }

  /** One label in front of the packed rest of the name. */
  lemma LabelInverts(msg: seq<byte>, offsets: Offsets, leaf: Label, name: Name, rest: Packed, start: nat)
    requires start <= |msg| && name != [] && leaf == name[0]
    requires Inverted(msg + ([|leaf|] + leaf), Register(offsets, name, |msg|), name[1..], start, rest)
    ensures Inverted(msg, offsets, name, start, Packed([|leaf|] + leaf + rest.bytes, rest.offsets))
  {
    var msg1 := msg + ([|leaf|] + leaf);
    hide DecodeName, Pointers, SoundAfter, Register;
    var whole := msg + ([|leaf|] + leaf + rest.bytes);
    assert whole == msg1 + rest.bytes;
    LabelDecodes(msg, leaf, rest.bytes, name[1..], start);
    assert [leaf] + name[1..] == name;
    LabelSound(msg, msg1, whole, offsets, rest.offsets, name, start);
  }

  /** The suffix that starts here is remembered soundly as well. */
  lemma LabelSound(msg: seq<byte>, msg1: seq<byte>, whole: seq<byte>, offsets: Offsets, after: Offsets, name: Name,
                   start: nat)
    requires |msg| <= |msg1| && start <= |msg| < |whole|
    requires SoundAfter(msg1, whole, Register(offsets, name, |msg|), after)
    requires DecodeName(whole, |msg|, start) == Some(Decoded(name, |whole|)) && Pointers(whole, |msg|, start) < |name|
    ensures SoundAfter(msg, whole, offsets, after)
  {
    DecodeExtends(whole, [], |msg|, start, |msg|);
    assert whole + [] == whole;
    assert Spells(whole, |msg|, name);
  }

  /** Writing one label more keeps what is known about the shorter suffixes. */
  lemma RegisterSound(msg: seq<byte>, z: seq<byte>, offsets: Offsets, name: Name, start: nat)
    requires start <= |msg| && SoundUpTo(msg, offsets, |name|, start) && name != []
    ensures SoundUpTo(msg + z, Register(offsets, name, |msg|), |name| - 1, start)
  {
    forall n | n in Register(offsets, name, |msg|) && |n| <= |name| - 1
      ensures n in offsets && offsets[n] < start && Spells(msg + z, offsets[n], n)
    {
      DecodeExtends(msg, z, offsets[n], offsets[n], offsets[n]);
    }
  }

  lemma LabelDecodes(msg: seq<byte>, leaf: Label, rest: seq<byte>, name: Name, start: nat)
    requires var whole := msg + ([|leaf|] + leaf + rest);
             DecodeName(whole, |msg| + 1 + |leaf|, start) == Some(Decoded(name, |whole|))
    ensures var whole := msg + ([|leaf|] + leaf + rest);
            && DecodeName(whole, |msg|, start) == Some(Decoded([leaf] + name, |whole|))
            && Pointers(whole, |msg|, start) == Pointers(whole, |msg| + 1 + |leaf|, start)
  {
    var whole := msg + ([|leaf|] + leaf + rest);
    assert whole[|msg|] == |leaf|;
    assert whole[|msg| + 1..|msg| + 1 + |leaf|] == leaf;
  }

  /** The same for a message whose remembered offsets are all sound, as it is between two names. */
  lemma PackNameSound(msg: seq<byte>, offsets: Offsets, name: Name)
    requires Sound(msg, offsets)
    ensures var p := PackName(|msg|, offsets, name);
            var whole := msg + p.bytes;
            && DecodeName(whole, |msg|, |msg|) == Some(Decoded(name, |whole|))
            && Pointers(whole, |msg|, |msg|) <= |name|
            && Sound(whole, p.offsets)
  {
    PackNameInverts(msg, offsets, name, |msg|);
    SoundExtends(msg, PackName(|msg|, offsets, name).bytes, offsets);
  }
}
