/** The addresses of one host, and the one known to work (proxy/doh/ipmap/ipmap.go). */
module IpSets {
  import opened Bytes

  /** net.IP: four or sixteen octets; the empty slice is nil. */
  type IP = seq<byte>

  const NIL: IP := []

  type Address = ip: IP | ip != NIL witness [127, 0, 0, 1]

  const V4_IN_V6: seq<byte> := [0, 0, 0, 0, 0, 0, 0, 0, 0, 0, 0xFF, 0xFF]

  /** net.IP.Equal: an IPv4 address and the same address in IPv6 form are equal. */
  predicate Equal(a: IP, b: IP) {
    if |a| == |b| then a == b
    else if |a| == 4 && |b| == 16 then b[..12] == V4_IN_V6 && a == b[12..]
    else if |a| == 16 && |b| == 4 then a[..12] == V4_IN_V6 && a[12..] == b
    else false
  }

  function Canonical(ip: IP): IP {
    if |ip| == 4 then V4_IN_V6 + ip else ip
  }

  /** Equal is an equivalence: it compares canonical forms. */
  lemma EqualIsCanonical(a: IP, b: IP)
    ensures Equal(a, b) <==> Canonical(a) == Canonical(b)
  {
    if |a| == 4 {
      assert (V4_IN_V6 + a)[..12] == V4_IN_V6 && (V4_IN_V6 + a)[12..] == a;
    }
    if |b| == 4 {
      assert (V4_IN_V6 + b)[..12] == V4_IN_V6 && (V4_IN_V6 + b)[12..] == b;
    }
    if |a| == 16 {
      assert a == a[..12] + a[12..];
    }
    if |b| == 16 {
      assert b == b[..12] + b[12..];
    }
  }

  /** The four octets of an IPv4 address behind ten zero octets and two of 255 (section 2.5.5.2 of RFC 4291). */
  lemma EqualOctets(a: IP, b: IP)
    ensures |a| == |b| ==> (Equal(a, b) <==> a == b)
    ensures |a| == 4 && |b| == 16 ==>
              (Equal(a, b) <==>
                 && (forall i :: 0 <= i < 10 ==> b[i] == 0) && b[10] == 255 && b[11] == 255
                 && b[12] == a[0] && b[13] == a[1] && b[14] == a[2] && b[15] == a[3])
    ensures Equal(a, b) <==> Equal(b, a)
    ensures |a| != |b| && {|a|, |b|} != {4, 16} ==> !Equal(a, b)
  {
    if |a| == 4 && |b| == 16 {
      assert b[12..] == a <==> b[12] == a[0] && b[13] == a[1] && b[14] == a[2] && b[15] == a[3];
      MappedPrefix(b[..12]);
    } else if |a| != |b| && Equal(a, b) {
      assert {|a|, |b|} == {4, 16};
    }
  }

  lemma MappedPrefix(p: seq<byte>)
    requires |p| == 12
    ensures p == V4_IN_V6 <==> (forall i :: 0 <= i < 10 ==> p[i] == 0) && p[10] == 255 && p[11] == 255
  {
    if p == V4_IN_V6 {
      assert forall i :: 0 <= i < 10 ==> V4_IN_V6[i] == 0;
    }
  }

  /** The value of an IPSet. */
  datatype Set = Set(ips: seq<IP>, confirmed: IP)

  lemma EqualTransitive(a: IP, b: IP, c: IP)
    requires Equal(a, b) && Equal(b, c)
    ensures Equal(a, c)
  {
    EqualIsCanonical(a, b);
    EqualIsCanonical(b, c);
    EqualIsCanonical(a, c);
  }

  lemma EqualSymmetric(a: IP, b: IP)
    ensures Equal(a, b) <==> Equal(b, a)
  {
  }

  lemma OnlyNilEqualsNil(ip: IP)
    ensures Equal(ip, NIL) <==> ip == NIL
  {
  }

  predicate Contains(ips: seq<IP>, ip: IP) {
    exists i :: 0 <= i < |ips| && Equal(ips[i], ip)
  }

  /** No two addresses of the set are the same host address. */
  predicate Distinct(ips: seq<IP>) {
    forall i, j :: 0 <= i < j < |ips| ==> !Equal(ips[i], ips[j])
  }

  predicate NoneNil(ips: seq<IP>) {
    forall i :: 0 <= i < |ips| ==> ips[i] != NIL
  }

  lemma AddressesNotNil(ips: seq<Address>)
    ensures NoneNil(ips)
  {
  }

  /** The addresses of a host, and the one that is known to work if there is one. */
  predicate WellFormed(ips: seq<IP>, confirmed: IP) {
    && Distinct(ips) && NoneNil(ips)
    && (confirmed != NIL ==> Contains(ips, confirmed))
  }

  function Added(ips: seq<IP>, ip: IP): seq<IP> {
    if Contains(ips, ip) then ips else ips + [ip]
  }

  function Confirming(s: Set, ip: IP): Set {
    if Equal(ip, s.confirmed) then s else Set(Added(s.ips, ip), ip)
  }

  function Disconfirming(s: Set, ip: IP): Set {
    if Equal(ip, s.confirmed) then s.(confirmed := NIL) else s
  }

  function AddedAll(ips: seq<IP>, more: seq<IP>): seq<IP>
    decreases |more|
  {
    if more == [] then ips else Added(AddedAll(ips, more[..|more| - 1]), more[|more| - 1])
  }

  lemma AddedKeeps(ips: seq<IP>, confirmed: IP, ip: IP)
    requires WellFormed(ips, confirmed) && ip != NIL
    ensures ips <= Added(ips, ip) && WellFormed(Added(ips, ip), confirmed) && WellFormed(Added(ips, ip), ip)
  {
    if confirmed != NIL {
      var i :| 0 <= i < |ips| && Equal(ips[i], confirmed);
      assert Equal(Added(ips, ip)[i], confirmed);
    }
    if !Contains(ips, ip) {
      assert Equal(Added(ips, ip)[|ips|], ip);
    }
  }

  /** Whatever is added, the set keeps its addresses, and holds all that was added, each once, and nothing else. */
  lemma {:induction false} AddedAllKeeps(ips: seq<IP>, confirmed: IP, more: seq<IP>)
    requires WellFormed(ips, confirmed) && NoneNil(more)
    ensures ips <= AddedAll(ips, more) && WellFormed(AddedAll(ips, more), confirmed)
    ensures forall i :: 0 <= i < |more| ==> Contains(AddedAll(ips, more), more[i])
    ensures forall ip :: ip in AddedAll(ips, more) ==> ip in ips || ip in more
    decreases |more|
  {
    hide Equal, Distinct, Contains;
    if more == [] {
    } else {
      var front, last := more[..|more| - 1], more[|more| - 1];
      AddedAllKeeps(ips, confirmed, front);
      var before := AddedAll(ips, front);
      AddedKeeps(before, confirmed, last);
      forall i | 0 <= i < |more| ensures Contains(AddedAll(ips, more), more[i]) {
        if i < |front| {
          assert Contains(before, front[i]);
          StillContains(before, Added(before, last), more[i]);
        }
      }
    }
  }

  lemma StillContains(ips: seq<IP>, more: seq<IP>, ip: IP)
    requires ips <= more && Contains(ips, ip)
    ensures Contains(more, ip)
  {
    var i :| 0 <= i < |ips| && Equal(ips[i], ip);
    assert Equal(more[i], ip);
  }

  lemma SwapKeeps(ips: seq<IP>, i: nat, j: nat)
    requires Distinct(ips) && NoneNil(ips) && i < |ips| && j < |ips|
    ensures var t := ips[i := ips[j]][j := ips[i]];
            Distinct(t) && NoneNil(t) && multiset(t) == multiset(ips)
  {
    var t := ips[i := ips[j]][j := ips[i]];
    forall a, b | 0 <= a < b < |t| ensures !Equal(t[a], t[b]) {
      var a', b' := if a == i then j else if a == j then i else a, if b == i then j else if b == j then i else b;
      assert t[a] == ips[a'] && t[b] == ips[b'];
      EqualSymmetric(ips[a'], ips[b']);
    }
  }

  class IPSet {
    var ips: seq<IP>
    var confirmed: IP

    predicate Valid()
      reads this
    {
      WellFormed(ips, confirmed)
    }

    function Value(): Set
      reads this
    {
      Set(ips, confirmed)
    }

    constructor ()
      ensures Valid() && ips == [] && confirmed == NIL
    {
      ips, confirmed := [], NIL;
    }

    method Has(ip: IP) returns (found: bool)
      ensures found <==> Contains(ips, ip)
    {
      for i := 0 to |ips|
        invariant forall j :: 0 <= j < i ==> !Equal(ips[j], ip)
      {
        if Equal(ips[i], ip) {
          return true;
        }
      }
      found := false;
    }

    method AddOne(ip: IP)
      requires Valid() && ip != NIL
      modifies this`ips
      ensures Valid() && ips == Added(old(ips), ip)
    {
      AddedKeeps(ips, confirmed, ip);
      var found := Has(ip);
      if !found {
        ips := ips + [ip];
      }
    }

    /** `resolved` is the outcome of the lookup, empty if it failed. */
    method Add(resolved: seq<IP>)
      requires Valid() && NoneNil(resolved)
      modifies this`ips
      ensures Valid() && ips == AddedAll(old(ips), resolved)
    {
      for i := 0 to |resolved|
        invariant Valid() && ips == AddedAll(old(ips), resolved[..i])
      {
        assert resolved[..i + 1][..i] == resolved[..i];
        AddOne(resolved[i]);
      }
      assert resolved[..|resolved|] == resolved;
    }

    method Empty() returns (empty: bool)
      ensures empty <==> ips == []
    {
      empty := |ips| == 0;
    }

    /** A copy in random order. */
    method GetAll() returns (c: array<IP>)
      requires Valid()
      ensures fresh(c) && multiset(c[..]) == multiset(ips)
      ensures Distinct(c[..]) && NoneNil(c[..])
    {
      c := new IP[|ips|](i requires 0 <= i < |ips| reads this => ips[i]);
      assert c[..] == ips;
      var i := c.Length - 1;
      while i > 0
        invariant multiset(c[..]) == multiset(ips)
        invariant Distinct(c[..]) && NoneNil(c[..])
      {
        var j :| 0 <= j <= i;
        SwapKeeps(c[..], i, j);
        ghost var before := c[..];
        c[i], c[j] := c[j], c[i];
        assert c[..] == before[i := before[j]][j := before[i]];
        i := i - 1;
      }
    }

    /** What other goroutines may do meanwhile, if there are any; each of their operations is atomic. */
    method Interfere(others: bool)
      requires Valid()
      modifies this
      ensures Valid() && old(ips) <= ips
      ensures !others ==> ips == old(ips) && confirmed == old(confirmed)
    {
      var rounds: nat := *;
      while others && rounds > 0
        invariant Valid() && old(ips) <= ips
        invariant !others ==> ips == old(ips) && confirmed == old(confirmed)
      {
        var ip: IP := *;
        if ip != NIL {
          AddedKeeps(ips, confirmed, ip);
          AddOne(ip);
          if * {
            confirmed := ip;
          }
        } else {
          confirmed := NIL;
        }
        rounds := rounds - 1;
      }
    }

    /** The test and the update are separate critical sections. */
    method Confirm(ip: IP, others: bool)
      requires Valid() && ip != NIL
      modifies this
      ensures Valid() && old(ips) <= ips && Equal(ip, confirmed) && Contains(ips, ip)
      ensures !others ==> Value() == Confirming(old(Value()), ip)
      ensures !others ==>
                if Equal(ip, old(confirmed)) then ips == old(ips) && confirmed == old(confirmed)
                else confirmed == ip && ips == if Contains(old(ips), ip) then old(ips) else old(ips) + [ip]
    {
      var current := confirmed;
      if Equal(ip, current) {
        ConfirmedIsMember(ips, current, ip);
        return;
      }
      Interfere(others);
      AddedKeeps(ips, confirmed, ip);
      AddOne(ip);
      confirmed := ip;
    }

    method Disconfirm(ip: IP)
      requires Valid()
      modifies this`confirmed
      ensures Valid() && Value() == Disconfirming(old(Value()), ip)
      ensures ips == old(ips) && confirmed == if Equal(ip, old(confirmed)) then [] else old(confirmed)
    {
      if Equal(ip, confirmed) {
        confirmed := NIL;
      }
    }
  }

  lemma ConfirmedIsMember(ips: seq<IP>, confirmed: IP, ip: IP)
    requires WellFormed(ips, confirmed) && confirmed != NIL && Equal(ip, confirmed)
    ensures Contains(ips, ip)
  {
    var i :| 0 <= i < |ips| && Equal(ips[i], confirmed);
    EqualSymmetric(ip, confirmed);
    EqualTransitive(ips[i], confirmed, ip);
  }
}
