/** Hostnames and their address sets (proxy/doh/ipmap/ipmap.go), for one caller and under any interleaving. */
module IpMaps {
  import opened IpSets

  /** A hostname that has a set keeps it. */
  ghost predicate EntriesKept(before: map<string, IPSet>, after: map<string, IPSet>) {
    forall h :: h in before ==> h in after && after[h] == before[h]
  }

  /** No two hostnames share a set. */
  ghost predicate OneSetEach(m: map<string, IPSet>) {
    forall h, h' :: h in m && h' in m && m[h] == m[h'] ==> h == h'
  }

  /** Only the set of `host` may have changed. */
  ghost predicate OthersKept(before: map<string, Set>, after: map<string, Set>, host: string) {
    forall h :: h in before ==> h in after && (h != host ==> after[h] == before[h])
  }

  class IpMap {
    var m: map<string, IPSet>
    /** The resolver: the addresses found for a name, none if the lookup fails. */
    const lookup: string -> seq<Address>

    ghost predicate Valid()
      reads this, m.Values
    {
      (forall h :: h in m ==> m[h].Valid()) && OneSetEach(m)
    }

    /** What every hostname's set holds. */
    ghost function View(): map<string, Set>
      reads this, m.Values
    {
      map h | h in m :: m[h].Value()
    }

    constructor (lookup: string -> seq<Address>)
      ensures Valid() && m == map[] && this.lookup == lookup
    {
      m, this.lookup := map[], lookup;
    }

    /** The reader-locked lookup, the resolution without a lock, and the locked update. */
    method Get(hostname: string, others: bool) returns (s: IPSet)
      requires Valid()
      modifies this
      ensures Valid() && hostname in m && s == m[hostname]
      // An entry never changes, and a hostname that has one is not resolved again.
      ensures EntriesKept(old(m), m)
      ensures forall h :: h in m && h !in old(m) ==> fresh(m[h])
      ensures hostname in old(m) ==> m == old(m)
      ensures forall h :: h in old(m) ==> View()[h] == old(View())[h]
      // Without interference a new set holds what the lookup gave.
      ensures !others && hostname !in old(m) ==>
                && m == old(m)[hostname := s] && fresh(s)
                && s.ips == AddedAll([], lookup(hostname)) && s.confirmed == NIL
    {
      if hostname in m {
        return m[hostname];
      }
      s := new IPSet();
      AddressesNotNil(lookup(hostname));
      s.Add(lookup(hostname));
      Interfere(others);
      if hostname !in m {
        m := m[hostname := s];
      } else {
        s := m[hostname];
      }
    }

    /** m.Get(hostname).Confirm(ip). */
    method Confirm(hostname: string, ip: Address, others: bool)
      requires Valid()
      modifies this, m.Values
      ensures Valid() && EntriesKept(old(m), m) && OthersKept(old(View()), View(), hostname)
      ensures hostname in View() && Equal(ip, View()[hostname].confirmed)
      ensures !others && hostname in old(View()) ==> View()[hostname] == Confirming(old(View())[hostname], ip)
    {
      hide Equal, WellFormed, Confirming, Contains;
      var s := Get(hostname, others);
      s.Confirm(ip, others);
    }

    /** m.Get(hostname).Disconfirm(ip). */
    method Disconfirm(hostname: string, ip: Address, others: bool)
      requires Valid()
      modifies this, m.Values
      ensures Valid() && EntriesKept(old(m), m) && OthersKept(old(View()), View(), hostname)
      ensures hostname in View() && !Equal(ip, View()[hostname].confirmed)
      ensures hostname in old(View()) ==> View()[hostname] == Disconfirming(old(View())[hostname], ip)
    {
      hide Equal, WellFormed;
      var s := Get(hostname, others);
      s.Disconfirm(ip);
      OnlyNilEqualsNil(ip);
    }

    /** Calls to Get by other goroutines, if there are any. */
    method Interfere(others: bool)
      requires Valid()
      modifies this
      ensures Valid()
      ensures EntriesKept(old(m), m)
      ensures forall h :: h in m && h !in old(m) ==> fresh(m[h])
      ensures !others ==> m == old(m)
    {
      if others {
        var h: string := *;
        if h !in m {
          var s := new IPSet();
          AddressesNotNil(lookup(h));
          s.Add(lookup(h));
          m := m[h := s];
        }
      }
    }
  }
}

/** All goroutines at once: every critical section of ipmap.go is a step. */
module IpMapProtocol {
  import opened IpSets

  /** A Get that has not found its hostname: resolving it, then about to store the set it built. */
  datatype Getter = Resolving(host: string) | Storing(host: string, id: nat)

  /** A Confirm that has found another address confirmed. */
  datatype Confirmer = Confirmer(id: nat, ip: IP)

  /** `sets` holds every set ever built, also those that lost the race; `results` are the completed Gets. */
  datatype State = State(
    m: map<string, nat>, sets: seq<Set>, getters: map<nat, Getter>, confirmers: map<nat, Confirmer>,
    results: seq<(string, nat)>)

  const INITIAL := State(map[], [], map[], map[], [])

  datatype Step =
    | BeginGet(t: nat, host: string)
    | Resolve(t: nat, resolved: seq<IP>)
    | Store(t: nat)
    | Add(id: nat, resolved: seq<IP>)
    | BeginConfirm(t: nat, id: nat, ip: IP)
    | EndConfirm(t: nat)
    | Disconfirm(id: nat, ip: IP)

  predicate Enabled(s: State, step: Step) {
    match step
    case BeginGet(t, _) => t !in s.getters
    case Resolve(t, resolved) => t in s.getters && s.getters[t].Resolving? && NoneNil(resolved)
    case Store(t) => t in s.getters && s.getters[t].Storing?
    case Add(id, resolved) => id < |s.sets| && NoneNil(resolved)
    case BeginConfirm(t, id, ip) => t !in s.confirmers && id < |s.sets| && ip != NIL
    case EndConfirm(t) => t in s.confirmers && s.confirmers[t].id < |s.sets|
    case Disconfirm(id, _) => id < |s.sets|
  }

  function After(s: State, step: Step): State
    requires Enabled(s, step)
  {
    match step
    case BeginGet(t, host) =>
      if host in s.m then s.(results := s.results + [(host, s.m[host])])
      else s.(getters := s.getters[t := Resolving(host)])
    case Resolve(t, resolved) =>
      s.(sets := s.sets + [Set(AddedAll([], resolved), NIL)],
         getters := s.getters[t := Storing(s.getters[t].host, |s.sets|)])
    case Store(t) =>
      var g := s.getters[t];
      var m := if g.host in s.m then s.m else s.m[g.host := g.id];
      s.(m := m, getters := s.getters - {t}, results := s.results + [(g.host, m[g.host])])
    case Add(id, resolved) => s.(sets := s.sets[id := s.sets[id].(ips := AddedAll(s.sets[id].ips, resolved))])
    case BeginConfirm(t, id, ip) =>
      if Equal(ip, s.sets[id].confirmed) then s else s.(confirmers := s.confirmers[t := Confirmer(id, ip)])
    case EndConfirm(t) =>
      var c := s.confirmers[t];
      s.(sets := s.sets[c.id := Set(Added(s.sets[c.id].ips, c.ip), c.ip)], confirmers := s.confirmers - {t})
    case Disconfirm(id, ip) =>
      if Equal(ip, s.sets[id].confirmed) then s.(sets := s.sets[id := s.sets[id].(confirmed := NIL)]) else s
  }

  ghost predicate SetsValid(s: State) {
    && (forall i :: 0 <= i < |s.sets| ==> WellFormed(s.sets[i].ips, s.sets[i].confirmed))
    && (forall t :: t in s.confirmers ==> s.confirmers[t].id < |s.sets| && s.confirmers[t].ip != NIL)
  }

  ghost predicate GetsAgree(s: State) {
    && (forall h :: h in s.m ==> s.m[h] < |s.sets|)
    && (forall t :: t in s.getters && s.getters[t].Storing? ==> s.getters[t].id < |s.sets|)
    && (forall i :: 0 <= i < |s.results| ==> s.results[i].0 in s.m && s.m[s.results[i].0] == s.results[i].1)
  }

  ghost predicate Inv(s: State) {
    SetsValid(s) && GetsAgree(s)
  }

  /** Results stay, entries stay, and every set keeps its addresses in their places. */
  ghost predicate Grows(s: State, t: State) {
    && s.results <= t.results
    && (forall h :: h in s.m ==> h in t.m && t.m[h] == s.m[h])
    && |s.sets| <= |t.sets|
    && (forall i :: 0 <= i < |s.sets| ==> s.sets[i].ips <= t.sets[i].ips)
  }

  lemma ResolveKeeps(s: State, t: nat, resolved: seq<IP>)
    requires Inv(s) && Enabled(s, Resolve(t, resolved))
    ensures Inv(After(s, Resolve(t, resolved))) && Grows(s, After(s, Resolve(t, resolved)))
  {
    hide WellFormed, Added, AddedAll, Equal;
    EmptySetValid();
    AddedAllKeeps([], NIL, resolved);
  }

  /** Replacing a set by a well-formed one with the same addresses in front. */
  lemma ReplaceKeeps(s: State, id: nat, x: Set, t: State)
    requires Inv(s) && id < |s.sets| && WellFormed(x.ips, x.confirmed) && s.sets[id].ips <= x.ips
    requires t == s.(sets := s.sets[id := x], confirmers := t.confirmers)
    requires forall c :: c in t.confirmers ==> c in s.confirmers && t.confirmers[c] == s.confirmers[c]
    ensures Inv(t) && Grows(s, t)
  {
    hide WellFormed;
  }

  lemma StoreKeeps(s: State, t: nat)
    requires Inv(s) && Enabled(s, Store(t))
    ensures Inv(After(s, Store(t))) && Grows(s, After(s, Store(t)))
  {
    hide WellFormed, Added, AddedAll, Equal;
  }

  lemma AddKeeps(s: State, id: nat, resolved: seq<IP>)
    requires Inv(s) && Enabled(s, Add(id, resolved))
    ensures Inv(After(s, Add(id, resolved))) && Grows(s, After(s, Add(id, resolved)))
  {
    hide WellFormed, Added, AddedAll, Equal, NoneNil;
    var t := After(s, Add(id, resolved));
    AddedAllKeeps(s.sets[id].ips, s.sets[id].confirmed, resolved);
    ReplaceKeeps(s, id, t.sets[id], t);
  }

  lemma EndConfirmKeeps(s: State, g: nat)
    requires Inv(s) && Enabled(s, EndConfirm(g))
    ensures Inv(After(s, EndConfirm(g))) && Grows(s, After(s, EndConfirm(g)))
  {
    hide WellFormed, Added, AddedAll, Equal, NoneNil;
    var t, c := After(s, EndConfirm(g)), s.confirmers[g];
    AddedKeeps(s.sets[c.id].ips, s.sets[c.id].confirmed, c.ip);
    ReplaceKeeps(s, c.id, t.sets[c.id], t);
  }

  lemma StepKeeps(s: State, step: Step)
    requires Inv(s) && Enabled(s, step)
    ensures Inv(After(s, step)) && Grows(s, After(s, step))
  {
    hide WellFormed, Added, AddedAll, Equal, NoneNil;
    var t := After(s, step);
    match step
    case Resolve(g, resolved) => ResolveKeeps(s, g, resolved);
    case Store(g) => StoreKeeps(s, g);
    case Add(id, resolved) => AddKeeps(s, id, resolved);
    case EndConfirm(g) => EndConfirmKeeps(s, g);
    case Disconfirm(id, _) =>
      UnconfirmedValid(s.sets[id].ips, s.sets[id].confirmed);
      assert s.sets[id := s.sets[id]] == s.sets;
      ReplaceKeeps(s, id, t.sets[id], t);
    case _ =>
  }

  lemma EmptySetValid()
    ensures WellFormed([], NIL)
  {
  }

  lemma UnconfirmedValid(ips: seq<IP>, confirmed: IP)
    requires WellFormed(ips, confirmed)
    ensures WellFormed(ips, NIL)
  {
  }

  predicate Possible(s: State, steps: seq<Step>)
    decreases |steps|
  {
    steps == [] || (Enabled(s, steps[0]) && Possible(After(s, steps[0]), steps[1..]))
  }

  function Run(s: State, steps: seq<Step>): State
    requires Possible(s, steps)
    decreases |steps|
  {
    if steps == [] then s else Run(After(s, steps[0]), steps[1..])
  }

  lemma {:induction false} RunKeeps(s: State, steps: seq<Step>)
    requires Inv(s) && Possible(s, steps)
    ensures Inv(Run(s, steps)) && Grows(s, Run(s, steps))
    decreases |steps|
  {
    hide Inv;
    if steps == [] {
    } else {
      var t := After(s, steps[0]);
      StepKeeps(s, steps[0]);
      RunKeeps(t, steps[1..]);
      GrowsTransitive(s, t, Run(t, steps[1..]));
    }
  }

  lemma GrowsTransitive(a: State, b: State, c: State)
    requires Grows(a, b) && Grows(b, c)
    ensures Grows(a, c)
  {
  }

  /** All completed Gets for a hostname return the same set, now and after any further steps. */
  lemma GetsReturnOneSet(before: seq<Step>, later: seq<Step>, i: nat, j: nat)
    requires Possible(INITIAL, before) && Possible(Run(INITIAL, before), later)
    requires i < |Run(INITIAL, before).results| && j < |Run(Run(INITIAL, before), later).results|
    requires Run(INITIAL, before).results[i].0 == Run(Run(INITIAL, before), later).results[j].0
    ensures Run(INITIAL, before).results[i].1 == Run(Run(INITIAL, before), later).results[j].1
  {
    RunKeeps(INITIAL, before);
    RunKeeps(Run(INITIAL, before), later);
  }

  /**
   * In every set, at all times, no two addresses are the same host address in whatever form, and a
   * confirmed address is one of them; no set ever loses an address.
   */
  lemma SetsStaySound(before: seq<Step>, later: seq<Step>)
    requires Possible(INITIAL, before) && Possible(Run(INITIAL, before), later)
    ensures var s, t := Run(INITIAL, before), Run(Run(INITIAL, before), later);
            && |s.sets| <= |t.sets|
            && forall i :: 0 <= i < |s.sets| ==>
                 && s.sets[i].ips <= t.sets[i].ips
                 && Distinct(t.sets[i].ips)
                 && (t.sets[i].confirmed != NIL ==> Contains(t.sets[i].ips, t.sets[i].confirmed))
  {
    RunKeeps(INITIAL, before);
    RunKeeps(Run(INITIAL, before), later);
  }
}
