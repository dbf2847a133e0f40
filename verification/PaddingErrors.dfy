/** Which queries AddEdnsPadding of proxy/doh/padding.go refuses. */
module PaddingErrors {
  import opened Bytes
  import opened DnsMessage
  import opened DnsNames
  import opened DnsWire
  import opened Padding
  import opened PaddingSize
  import opened Servfails

  lemma WithOptPacks(m: Message)
    requires Packable(m)
    ensures |m.additionals| <= 65535
    ensures Packable(WithOpt(m)) <==> LastOpt(m.additionals).Some? || |m.additionals| < 65535
  {
    var rs := WithOpt(m).additionals;
    AllPackableExactly(m.additionals);
    AllPackableExactly(rs);
    if LastOpt(m.additionals).None? {
      assert rs == m.additionals + [EMPTY_OPT];
      assert WireLen(EMPTY_OPT.name) <= 255 && BodyLen(EMPTY_OPT.body) <= 65535;
    }
  }

  lemma WithPaddingPacks(w: Message, n: nat, i: nat)
    requires Packable(w) && LastOpt(w.additionals) == Some(i)
    ensures Packable(WithPadding(w, n)) <==> OptionsLen(w.additionals[i].body.options) + 4 + n <= 65535
  {
    hide LastOpt, OptionsLen, WireLen, AllPackable;
    var before, after := w.additionals, WithPadding(w, n).additionals;
    AllPackableExactly(before);
    AllPackableExactly(after);
    OptionsLenAppend(before[i].body.options, PaddingOption(n));
    assert |after| == |before| && forall j :: 0 <= j < |before| && j != i ==> after[j] == before[j];
    assert after[i].name == before[i].name;
  }

  lemma SizeWithin(len: nat)
    ensures ComputePaddingSize(len, PADDING_BLOCK_SIZE) < 128
    ensures (len + 4 + ComputePaddingSize(len, PADDING_BLOCK_SIZE)) % 128 == 0
  {
    SizeCompletes(len, PADDING_BLOCK_SIZE);
  }

  /** The record that gets the option: the last OPT record, or the new one, which has no options yet. */
  lemma OptUsed(m: Message) returns (i: nat)
    ensures LastOpt(WithOpt(m).additionals) == Some(i)
    ensures NoOpt(m.additionals) ==> OptionsLen(WithOpt(m).additionals[i].body.options) == 0
    ensures !NoOpt(m.additionals) ==> IsLastOpt(m.additionals, i) && WithOpt(m) == m
  {
    LastOptExactly(m.additionals);
    LastOptOf(m);
    i := LastOpt(WithOpt(m).additionals).value;
  }

  /** The data of the last OPT record would not fit its length field. */
  ghost predicate NoRoom(rs: seq<Resource>, n: nat) {
    exists i: nat :: IsLastOpt(rs, i) && OptionsLen(OptionsOf(rs[i])) + 4 + n > 65535
  }

  lemma RoomLeft(rs: seq<Resource>, i: nat, n: nat)
    ensures IsLastOpt(rs, i) ==> (NoRoom(rs, n) <==> OptionsLen(OptionsOf(rs[i])) + 4 + n > 65535)
    ensures NoOpt(rs) ==> !NoRoom(rs, n)
  {
    hide OptionsLen;
  }

  /**
   * A query cannot be padded exactly if it is malformed, or is not padded yet and has 65535 additional
   * records but no OPT record, or an OPT record without room for the option and the `n` octets that
   * complete the last block of 128.
   */
  lemma PaddingFailsExactly(q: seq<byte>) returns (n: nat)
    ensures n < 128
    ensures Unpack(q).Some? && !AlreadyPadded(q) && !NoOpt(Unpack(q).value.additionals) ==>
              var packed := Pack(Unpack(q).value);
              packed.Some? && (|packed.value| + 4 + n) % 128 == 0
    ensures Padded(q).None? <==>
              || Unpack(q).None?
              || (!AlreadyPadded(q) && NoOpt(Unpack(q).value.additionals) && |Unpack(q).value.additionals| == 65535)
              || (!AlreadyPadded(q) && NoRoom(Unpack(q).value.additionals, n))
  {
    hide Unpack, NoOpt, IsLastOpt, LastOpt, WithOpt, WithPadding, Packable, OptionsLen, ComputePaddingSize, HasPadding;
    n := 0;
    if Unpack(q).Some? && !AlreadyPadded(q) {
      var m := Unpack(q).value;
      UnpackedIsPackable(q);
      WithOptPacks(m);
      LastOptExactly(m.additionals);
      if Pack(WithOpt(m)).Some? {
        n := ComputePaddingSize(|Pack(WithOpt(m)).value|, PADDING_BLOCK_SIZE);
        SizeWithin(|Pack(WithOpt(m)).value|);
        var i := OptUsed(m);
        WithPaddingPacks(WithOpt(m), n, i);
        RoomLeft(m.additionals, i, n);
      } else {
        RoomLeft(m.additionals, 0, n);
      }
    }
  }
}
