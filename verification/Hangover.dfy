/**
 * The servfail hangover of both resolvers (proxy/doh/doh.go, proxy/dot/dot.go) under any number of
 * concurrent queries and a monotone clock.
 */
module Hangovers {

  /** Ten seconds, in nanoseconds. */
  const HANGOVER_DURATION := 10_000_000_000

  /** time.Now(): `ticks` says how much time passes before each reading; the clock never runs backwards. */
  datatype Clock = Clock(now: nat, ticks: seq<nat>)

  function NextReading(c: Clock): (t: Clock)
    ensures c.now <= t.now
  {
    if c.ticks == [] then c else Clock(c.now + c.ticks[0], c.ticks[1..])
  }

  /** `Admitted` and `Rejected` carry the time of the check, `Armed` the time at which the hangover began. */
  datatype Event = Admitted(id: nat, at: nat) | Rejected(id: nat, at: nat) | Armed(id: nat, at: nat)

  /** `active` are the queries that passed the check and have not finished. */
  datatype State = State(now: nat, expiration: nat, active: set<nat>, log: seq<Event>)

  /** The zero time lies before every reading of the clock. */
  const INITIAL := State(0, 0, {}, [])

  datatype Step =
    | Tick(d: nat)
    | Check(id: nat)   // time.Now().Before(hangoverExpiration)
    | Arm(id: nat)     // doQuery sets hangoverExpiration: Arms of the resolvers says when
    | Finish(id: nat)  // any other outcome

  predicate InHangover(now: nat, expiration: nat) {
    now < expiration
  }

  function Expiration(now: nat): nat {
    now + HANGOVER_DURATION
  }

  predicate Enabled(s: State, step: Step) {
    match step
    case Tick(_) => true
    case Check(id) => id !in s.active
    case Arm(id) => id in s.active
    case Finish(id) => id in s.active
  }

  function After(s: State, step: Step): State
    requires Enabled(s, step)
  {
    match step
    case Tick(d) => s.(now := s.now + d)
    case Check(id) =>
      if InHangover(s.now, s.expiration) then s.(log := s.log + [Rejected(id, s.now)])
      else s.(active := s.active + {id}, log := s.log + [Admitted(id, s.now)])
    case Arm(id) =>
      s.(expiration := Expiration(s.now), active := s.active - {id}, log := s.log + [Armed(id, s.now)])
    case Finish(id) => s.(active := s.active - {id})
  }

  predicate Possible(s: State, steps: seq<Step>)
    decreases |steps|
  {
    steps == [] || (Enabled(s, steps[0]) && Possible(After(s, steps[0]), steps[1..]))
  }

  function Run(s: State, steps: seq<Step>): State
    requires Possible(s, steps)
    decreases |steps|
  {
    if steps == [] then s else Run(After(s, steps[0]), steps[1..])
  }

  // ----- What holds in every run -----

  /** Events happened in order of time, and the expiration covers every arming so far. */
  predicate Ordered(s: State) {
    && (forall i :: 0 <= i < |s.log| ==> s.log[i].at <= s.now)
    && (forall i, j :: 0 <= i < j < |s.log| ==> s.log[i].at <= s.log[j].at)
    && (forall i :: 0 <= i < |s.log| && s.log[i].Armed? ==> Expiration(s.log[i].at) <= s.expiration)
    && s.expiration <= Expiration(s.now)
  }

  /** No query is let through within the hangover after an arming. */
  predicate Quiet(log: seq<Event>) {
    forall i, j :: 0 <= i < j < |log| && log[i].Armed? && log[j].Admitted? ==> log[j].at >= Expiration(log[i].at)
  }

  ghost predicate Inv(s: State) {
    Ordered(s) && Quiet(s.log)
  }

  lemma OrderedStepKeeps(s: State, step: Step)
    requires Ordered(s) && Enabled(s, step)
    ensures Ordered(After(s, step)) && s.expiration <= After(s, step).expiration
  {
  }

  lemma QuietStepKeeps(s: State, step: Step)
    requires Ordered(s) && Quiet(s.log) && Enabled(s, step)
    ensures Quiet(After(s, step).log)
  {
    var t := After(s, step);
    forall i, j | 0 <= i < j < |t.log| && t.log[i].Armed? && t.log[j].Admitted?
      ensures t.log[j].at >= Expiration(t.log[i].at)
    {
      assert t.log[i] == s.log[i];
    }
  }

  lemma StepKeeps(s: State, step: Step)
    requires Inv(s) && Enabled(s, step)
    ensures Inv(After(s, step)) && s.expiration <= After(s, step).expiration && s.log <= After(s, step).log
  {
    hide Quiet, Ordered;
    OrderedStepKeeps(s, step);
    QuietStepKeeps(s, step);
  }

  lemma {:induction false} RunKeeps(s: State, steps: seq<Step>)
    requires Inv(s) && Possible(s, steps)
    ensures Inv(Run(s, steps)) && s.expiration <= Run(s, steps).expiration && s.log <= Run(s, steps).log
    decreases |steps|
  {
    if steps == [] {
    } else {
      StepKeeps(s, steps[0]);
      RunKeeps(After(s, steps[0]), steps[1..]);
    }
  }

  /** The end of the hangover only ever moves forward. */
  lemma ExpirationNeverDecreases(before: seq<Step>, later: seq<Step>)
    requires Possible(INITIAL, before) && Possible(Run(INITIAL, before), later)
    ensures Run(INITIAL, before).expiration <= Run(Run(INITIAL, before), later).expiration
  {
    RunKeeps(INITIAL, before);
    RunKeeps(Run(INITIAL, before), later);
  }

  /** A query whose check comes within ten seconds after an arming is turned away, in every run. */
  lemma SilenceAfterArming(steps: seq<Step>, i: nat, j: nat)
    requires Possible(INITIAL, steps) && i < j < |Run(INITIAL, steps).log|
    requires var log := Run(INITIAL, steps).log;
             log[i].Armed? && !log[j].Armed? && log[j].at < log[i].at + 10_000_000_000
    ensures Run(INITIAL, steps).log[j].Rejected?
  {
    RunKeeps(INITIAL, steps);
  }

  /** The hangover began less than ten seconds before event `j`, with event `i`. */
  predicate WithinHangover(log: seq<Event>, i: nat, j: nat) {
    i < j < |log| && log[i].Armed? && log[j].at < log[i].at + 10_000_000_000
  }

  /** The expiration is that of an arming, and nobody was turned away but within ten seconds after one. */
  ghost predicate Founded(s: State) {
    && (s.expiration > 0 ==>
          exists i :: 0 <= i < |s.log| && s.log[i].Armed? && s.expiration == s.log[i].at + 10_000_000_000)
    && (forall j :: 0 <= j < |s.log| && s.log[j].Rejected? ==> exists i: nat :: WithinHangover(s.log, i, j))
  }

  lemma FoundedStepKeeps(s: State, step: Step)
    requires Founded(s) && Enabled(s, step)
    ensures Founded(After(s, step))
  {
    var t := After(s, step);
    assert s.log <= t.log;
    if s.expiration > 0 {
      var i :| 0 <= i < |s.log| && s.log[i].Armed? && s.expiration == s.log[i].at + 10_000_000_000;
      assert t.log[i] == s.log[i];
    }
    if step.Arm? {
      assert t.log[|s.log|] == Armed(step.id, s.now);
    }
    forall j | 0 <= j < |t.log| && t.log[j].Rejected? ensures exists i: nat :: WithinHangover(t.log, i, j) {
      if j < |s.log| {
        var i: nat :| WithinHangover(s.log, i, j);
        assert WithinHangover(t.log, i, j);
      } else {
        var i: nat :| i < |s.log| && s.log[i].Armed? && s.expiration == s.log[i].at + 10_000_000_000;
        assert WithinHangover(t.log, i, j);
      }
    }
  }

  lemma {:induction false} FoundedRunKeeps(s: State, steps: seq<Step>)
    requires Founded(s) && Possible(s, steps)
    ensures Founded(Run(s, steps))
    decreases |steps|
  {
    if steps == [] {
    } else {
      FoundedStepKeeps(s, steps[0]);
      FoundedRunKeeps(After(s, steps[0]), steps[1..]);
    }
  }

  /** Every hangover ends: in every run a query is turned away exactly if an arming was less than ten seconds ago. */
  lemma RejectedExactly(steps: seq<Step>, j: nat)
    requires Possible(INITIAL, steps) && j < |Run(INITIAL, steps).log| && !Run(INITIAL, steps).log[j].Armed?
    ensures var log := Run(INITIAL, steps).log;
            log[j].Rejected? <==> exists i: nat :: WithinHangover(log, i, j)
  {
    FoundedRunKeeps(INITIAL, steps);
    RunKeeps(INITIAL, steps);
  }

  // ----- One query as part of a run -----

  /** The steps of one doQuery that reads `clock`; `arms` tells whether it ends by beginning a hangover. */
  function QuerySteps(id: nat, clock: Clock, expiration: nat, arms: bool): seq<Step> {
    var checked := NextReading(clock);
    var armed := NextReading(checked);
    [Tick(checked.now - clock.now), Check(id)]
    + (if InHangover(checked.now, expiration) then []
       else if arms then [Tick(armed.now - checked.now), Arm(id)]
       else [Finish(id)])
  }

  /** They are possible, and leave the expiration that doQuery leaves. */
  lemma QueryRuns(s: State, id: nat, clock: Clock, arms: bool)
    requires s.now == clock.now && id !in s.active
    ensures var steps := QuerySteps(id, clock, s.expiration, arms);
            var checked := NextReading(clock);
            var armed := arms && !InHangover(checked.now, s.expiration);
            && Possible(s, steps)
            && var t := Run(s, steps);
            && t.now == (if armed then NextReading(checked).now else checked.now) && t.active == s.active
            && t.expiration == (if armed then Expiration(t.now) else s.expiration)
  {
    var checked := NextReading(clock);
    var first, second := Tick(checked.now - clock.now), Check(id);
    var s2 := After(After(s, first), second);
    var rest := QuerySteps(id, clock, s.expiration, arms)[2..];
    if InHangover(checked.now, s.expiration) {
      assert rest == [];
    } else if arms {
      var tick := Tick(NextReading(checked).now - checked.now);
      assert rest == [tick] + ([Arm(id)] + []);
      RunCons(After(s2, tick), Arm(id), []);
      RunCons(s2, tick, [Arm(id)] + []);
      assert After(After(s2, tick), Arm(id)).active == s.active;
    } else {
      assert rest == [Finish(id)] + [];
      RunCons(s2, Finish(id), []);
      assert After(s2, Finish(id)).active == s.active;
    }
    RunCons(After(s, first), second, rest);
    RunCons(s, first, [second] + rest);
    assert QuerySteps(id, clock, s.expiration, arms) == [first] + ([second] + rest);
  }

  lemma RunCons(s: State, step: Step, rest: seq<Step>)
    requires Enabled(s, step) && Possible(After(s, step), rest)
    ensures Possible(s, [step] + rest) && Run(s, [step] + rest) == Run(After(s, step), rest)
  {
    assert ([step] + rest)[1..] == rest;
  }

  // ----- Who arms the hangover -----

  /** Query `id` was let through by the check at index `i`, and has not been checked again before index `j`. */
  predicate LetThroughAt(log: seq<Event>, id: nat, i: nat, j: nat) {
    && i < j <= |log| && log[i].Admitted? && log[i].id == id
    && (forall k :: i < k < j ==> log[k].id != id || log[k].Armed?)
  }

  ghost predicate LetThrough(log: seq<Event>, id: nat, j: nat) {
    exists i :: LetThroughAt(log, id, i, j)
  }

  ghost predicate ArmedWereLetThrough(s: State) {
    && (forall id :: id in s.active ==> LetThrough(s.log, id, |s.log|))
    && (forall j :: 0 <= j < |s.log| && s.log[j].Armed? ==> LetThrough(s.log, s.log[j].id, j))
  }

  /** Another event does not change who was let through before it. */
  lemma LetThroughExtends(log: seq<Event>, e: Event, id: nat, j: nat)
    requires LetThrough(log, id, j)
    ensures LetThrough(log + [e], id, j)
    ensures j == |log| && (e.id != id || e.Armed?) ==> LetThrough(log + [e], id, |log| + 1)
  {
    var i :| LetThroughAt(log, id, i, j);
    assert LetThroughAt(log + [e], id, i, j);
    if j == |log| && (e.id != id || e.Armed?) {
      assert LetThroughAt(log + [e], id, i, |log| + 1);
    }
  }

  lemma ArmingStepKeeps(s: State, step: Step)
    requires ArmedWereLetThrough(s) && Enabled(s, step)
    ensures ArmedWereLetThrough(After(s, step))
  {
    var t := After(s, step);
    if |t.log| > |s.log| {
      var e := t.log[|s.log|];
      assert t.log == s.log + [e];
      forall id | id in t.active ensures LetThrough(t.log, id, |t.log|) {
        if id in s.active {
          LetThroughExtends(s.log, e, id, |s.log|);
        } else {
          assert LetThroughAt(t.log, id, |s.log|, |t.log|);
        }
      }
      forall j | 0 <= j < |t.log| && t.log[j].Armed? ensures LetThrough(t.log, t.log[j].id, j) {
        LetThroughExtends(s.log, e, t.log[j].id, j);
      }
    }
  }

  lemma {:induction false} ArmingRunKeeps(s: State, steps: seq<Step>)
    requires ArmedWereLetThrough(s) && Possible(s, steps)
    ensures ArmedWereLetThrough(Run(s, steps))
    decreases |steps|
  {
    if steps == [] {
    } else {
      ArmingStepKeeps(s, steps[0]);
      ArmingRunKeeps(After(s, steps[0]), steps[1..]);
    }
  }

  /**
   * Only a query that was sent arms the hangover, in every run: its last check before the arming let
   * it through.  A rejected query never does.
   */
  lemma OnlySentQueriesArm(steps: seq<Step>, j: nat) returns (i: nat)
    requires Possible(INITIAL, steps) && j < |Run(INITIAL, steps).log| && Run(INITIAL, steps).log[j].Armed?
    ensures var log := Run(INITIAL, steps).log;
            && i < j && log[i].Admitted? && log[i].id == log[j].id
            && (forall k :: i < k < j && log[k].id == log[j].id ==> !log[k].Admitted? && !log[k].Rejected?)
  {
    ArmingRunKeeps(INITIAL, steps);
    var log := Run(INITIAL, steps).log;
    i :| LetThroughAt(log, log[j].id, i, j);
  }

  // ----- Clients with a bounded number of queries at a time -----

  /** Every query of the run begins while fewer than `k` are active. */
  predicate AtMost(s: State, steps: seq<Step>, k: nat)
    requires Possible(s, steps)
    decreases |steps|
  {
    steps == [] || ((steps[0].Check? ==> |s.active| < k) && AtMost(After(s, steps[0]), steps[1..], k))
  }

  function Armings(log: seq<Event>): seq<nat>
    decreases |log|
  {
    if log == [] then []
    else
      var front, last := Armings(log[..|log| - 1]), log[|log| - 1];
      if last.Armed? then front + [last.at] else front
  }

  /** Any `k` + 1 successive armings take at least the duration of a hangover. */
  predicate Spaced(times: seq<nat>, k: nat) {
    forall i :: 0 <= i && i + k < |times| ==> times[i + k] >= times[i] + HANGOVER_DURATION
  }

  /**
   * While the hangover after an arming lasts nobody is let through, so the armings since then and
   * the queries still active are at most the `k` - 1 queries that were active beside it.
   */
  ghost predicate Drained(s: State, k: nat) {
    var arms := Armings(s.log);
    && Spaced(arms, k)
    && |s.active| <= k
    && (forall i, j :: 0 <= i <= j < |arms| ==> arms[i] <= arms[j] <= s.now)
    && (forall i :: 0 <= i < |arms| ==> Expiration(arms[i]) <= s.expiration)
    && (forall i :: 0 <= i < |arms| && InHangover(s.now, Expiration(arms[i])) ==> |arms| - i + |s.active| <= k)
  }

  lemma ArmingsAppend(log: seq<Event>, e: Event)
    ensures Armings(log + [e]) == if e.Armed? then Armings(log) + [e.at] else Armings(log)
  {
    assert (log + [e])[..|log|] == log;
  }

  lemma ArmKeepsDrained(s: State, id: nat, k: nat)
    requires Ordered(s) && Drained(s, k) && Enabled(s, Arm(id))
    ensures Drained(After(s, Arm(id)), k)
  {
    hide Armings;
    ArmingsAppend(s.log, Armed(id, s.now));
    var arms, t := Armings(s.log), After(s, Arm(id));
    assert |t.active| == |s.active| - 1;
    assert Armings(t.log) == arms + [s.now];
  }

  lemma DrainedStepKeeps(s: State, step: Step, k: nat)
    requires Ordered(s) && Drained(s, k) && Enabled(s, step) && (step.Check? ==> |s.active| < k)
    ensures Drained(After(s, step), k)
  {
    hide Armings, Ordered, Spaced;
    match step
    case Tick(_) =>
    case Check(id) =>
      ArmingsAppend(s.log, Rejected(id, s.now));
      ArmingsAppend(s.log, Admitted(id, s.now));
    case Arm(id) => ArmKeepsDrained(s, id, k);
    case Finish(id) => assert |After(s, step).active| == |s.active| - 1;
  }

  lemma {:induction false} DrainedRunKeeps(s: State, steps: seq<Step>, k: nat)
    requires Inv(s) && Drained(s, k) && Possible(s, steps) && AtMost(s, steps, k)
    ensures Drained(Run(s, steps), k)
    decreases |steps|
  {
    if steps == [] {
    } else {
      DrainedStepKeeps(s, steps[0], k);
      StepKeeps(s, steps[0]);
      DrainedRunKeeps(After(s, steps[0]), steps[1..], k);
    }
  }

  /** How many of the times lie in [from, from + length]. */
  function CountWithin(times: seq<nat>, from: nat, length: nat): nat
    decreases |times|
  {
    if times == [] then 0
    else
      var last := times[|times| - 1];
      CountWithin(times[..|times| - 1], from, length) + (if from <= last <= from + length then 1 else 0)
  }

  /** The times counted lie between two of them, both within the window. */
  lemma {:induction false} CountSpans(times: seq<nat>, from: nat, length: nat) returns (i: nat, j: nat)
    requires CountWithin(times, from, length) > 0
    ensures i <= j < |times| && CountWithin(times, from, length) <= j - i + 1
    ensures from <= times[i] && times[j] <= from + length
    decreases |times|
  {
    var n := |times| - 1;
    if CountWithin(times[..n], from, length) == 0 {
      i, j := n, n;
    } else {
      i, j := CountSpans(times[..n], from, length);
      if from <= times[n] <= from + length {
        j := n;
      }
    }
  }

  /** `q` groups of `k` armings take `q` hangovers. */
  lemma {:induction false} SpacedGroups(times: seq<nat>, k: nat, i: nat, q: nat)
    requires Spaced(times, k) && i + q * k < |times|
    ensures times[i + q * k] >= times[i] + q * HANGOVER_DURATION
    decreases q
  {
    if q == 0 {
    } else {
      assert q * k == (q - 1) * k + k;
      SpacedGroups(times, k, i, q - 1);
      assert times[i + (q - 1) * k + k] >= times[i + (q - 1) * k] + HANGOVER_DURATION;
    }
  }

  lemma SpacedCount(times: seq<nat>, k: nat, from: nat, length: nat)
    requires Spaced(times, k) && forall i, j :: 0 <= i <= j < |times| ==> times[i] <= times[j]
    ensures CountWithin(times, from, length) <= k * (length / HANGOVER_DURATION + 1)
  {
    var q := length / HANGOVER_DURATION + 1;
    if CountWithin(times, from, length) > k * q {
      var i, j := CountSpans(times, from, length);
      assert q * k == k * q;
      assert times[i + q * k] <= times[j];
      SpacedGroups(times, k, i, q);
      assert false;
    }
  }

  /** The armings that lie in [from, from + length]. */
  function ArmedWithin(log: seq<Event>, from: nat, length: nat): set<nat> {
    set i | 0 <= i < |log| && log[i].Armed? && from <= log[i].at <= from + length
  }

  lemma {:induction false} ArmingsCounted(log: seq<Event>, from: nat, length: nat)
    ensures CountWithin(Armings(log), from, length) == |ArmedWithin(log, from, length)|
    decreases |log|
  {
    if log == [] {
      assert ArmedWithin(log, from, length) == {};
    } else {
      var n := |log| - 1;
      var front, last := log[..n], log[n];
      ArmingsCounted(front, from, length);
      if last.Armed? {
        assert (Armings(front) + [last.at])[..|Armings(front)|] == Armings(front);
      }
      var counted := last.Armed? && from <= last.at <= from + length;
      assert ArmedWithin(log, from, length) == ArmedWithin(front, from, length) + (if counted then {n} else {});
    }
  }

  /**
   * The rate limit.  With at most `k` queries at a time, at most `k` * (L / 10 s + 1) queries fail in
   * a way that arms the hangover within any window of length L; a serial client is the case `k` == 1.
   */
  lemma RateLimit(steps: seq<Step>, k: nat, from: nat, length: nat)
    requires Possible(INITIAL, steps) && AtMost(INITIAL, steps, k)
    ensures |ArmedWithin(Run(INITIAL, steps).log, from, length)| <= k * (length / 10_000_000_000 + 1)
  {
    assert Armings([]) == [];
    DrainedRunKeeps(INITIAL, steps, k);
    SpacedCount(Armings(Run(INITIAL, steps).log), k, from, length);
    ArmingsCounted(Run(INITIAL, steps).log, from, length);
  }
}
