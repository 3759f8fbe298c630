/** Who is alive: heartbeats, the periodic check, and removal after repeated timeouts. */
module Heartbeat {
  import opened Types

  /** Time in nanoseconds; a heartbeat may be 90 seconds old. */
  const TIMEOUT := 90000000000
  const MAX_TIMEOUTS := 3

  datatype ValidatorState = ValidatorState(lastSeen: int, isActive: bool, heartbeats: nat, timeouts: nat)

  datatype Protocol = Protocol(validators: map<string, ValidatorState>, heartbeats: map<string, int>)

  const EMPTY := Protocol(map[], map[])

  datatype Op = Beat(addr: string, now: int) | Check(now: int) | Remove(addr: string)

  // ---------- one validator on its own ----------

  /** What the protocol knows of one validator. */
  datatype View = View(state: Option<ValidatorState>, beat: Option<int>)

  function ViewOf(p: Protocol, a: string): View {
    View(if a in p.validators then Some(p.validators[a]) else None,
         if a in p.heartbeats then Some(p.heartbeats[a]) else None)
  }

  const GONE := View(None, None)

  function Beaten(v: View, now: int): View {
    View(Some(if v.state.Some?
              then v.state.value.(lastSeen := now, heartbeats := v.state.value.heartbeats + 1, isActive := true)
              else ValidatorState(now, true, 1, 0)),
         Some(now))
  }

  predicate Stale(v: View, now: int) { v.beat.Some? && now - v.beat.value > TIMEOUT }

  function TimedOut(v: View): View {
    if v.state.None? then v else
      var s := v.state.value.(isActive := false, timeouts := v.state.value.timeouts + 1);
      if s.timeouts >= MAX_TIMEOUTS then GONE else v.(state := Some(s))
  }

  function Checked(v: View, now: int): View { if Stale(v, now) then TimedOut(v) else v }

  function ViewStep(v: View, a: string, op: Op): View {
    match op
    case Beat(b, now) => if a == b then Beaten(v, now) else v
    case Check(now) => Checked(v, now)
    case Remove(b) => if a == b then GONE else v
  }

  // ---------- the protocol ----------

  function Keys(p: Protocol): set<string> { p.validators.Keys + p.heartbeats.Keys }

  /** The check, for every validator at once. */
  function CheckedAll(p: Protocol, now: int): Protocol {
    Protocol(map a | a in Keys(p) && Checked(ViewOf(p, a), now).state.Some? :: Checked(ViewOf(p, a), now).state.value,
             map a | a in Keys(p) && Checked(ViewOf(p, a), now).beat.Some? :: Checked(ViewOf(p, a), now).beat.value)
  }

  function Step(p: Protocol, op: Op): Protocol {
    match op
    case Beat(a, now) =>
      Protocol(p.validators[a := Beaten(ViewOf(p, a), now).state.value], p.heartbeats[a := now])
    case Check(now) => CheckedAll(p, now)
    case Remove(a) => Protocol(p.validators - {a}, p.heartbeats - {a})
  }

  function Run(p: Protocol, ops: seq<Op>): Protocol {
    if ops == [] then p else Step(Run(p, ops[..|ops| - 1]), ops[|ops| - 1])
  }

  lemma {:induction false} SameViews(p: Protocol, q: Protocol)
    requires forall a :: ViewOf(p, a) == ViewOf(q, a)
    ensures p == q
  {
    forall a ensures (a in p.validators <==> a in q.validators) && (a in p.heartbeats <==> a in q.heartbeats) {
      assert ViewOf(p, a) == ViewOf(q, a);
    }
    forall a | a in p.validators ensures p.validators[a] == q.validators[a] { assert ViewOf(p, a) == ViewOf(q, a); }
    forall a | a in p.heartbeats ensures p.heartbeats[a] == q.heartbeats[a] { assert ViewOf(p, a) == ViewOf(q, a); }
    assert p.validators == q.validators && p.heartbeats == q.heartbeats;
  }

  class ValidatorProtocol {
    var validators: map<string, ValidatorState>
    var heartbeats: map<string, int>

    ghost function State(): Protocol
      reads this
    {
      Protocol(validators, heartbeats)
    }

    constructor ()
      ensures State() == EMPTY && validators == map[] && heartbeats == map[]
    {
      validators, heartbeats := map[], map[];
    }

    method HandleHeartbeat(addr: string, now: int)
      modifies this
      ensures State() == Step(old(State()), Beat(addr, now))
    {
      heartbeats := heartbeats[addr := now];
      if addr in validators {
        var s := validators[addr];
        validators := validators[addr := s.(lastSeen := now, heartbeats := s.heartbeats + 1, isActive := true)];
      } else {
        validators := validators[addr := ValidatorState(now, true, 1, 0)];
      }
    }

    method HandleValidatorTimeout(addr: string)
      modifies this
      ensures ViewOf(State(), addr) == TimedOut(old(ViewOf(State(), addr)))
      ensures forall a :: a != addr ==> ViewOf(State(), a) == old(ViewOf(State(), a))
    {
      if addr in validators {
        var s := validators[addr];
        s := s.(isActive := false, timeouts := s.timeouts + 1);
        validators := validators[addr := s];
        if s.timeouts >= MAX_TIMEOUTS {
          validators := validators - {addr};
          heartbeats := heartbeats - {addr};
        }
      }
    }

    /** Visits the heartbeats in arbitrary order, deleting as it goes. */
    method CheckValidatorHeartbeats(now: int)
      modifies this
      ensures State() == Step(old(State()), Check(now))
    {
      var todo := heartbeats.Keys;
      while todo != {}
        invariant forall a :: a in todo ==> a in heartbeats
        invariant forall a :: a in todo ==> ViewOf(State(), a) == old(ViewOf(State(), a))
        invariant forall a :: a !in todo ==> ViewOf(State(), a) == Checked(old(ViewOf(State(), a)), now)
      {
        var addr :| addr in todo;
        if now - heartbeats[addr] > TIMEOUT {
          HandleValidatorTimeout(addr);
        }
        todo := todo - {addr};
      }
      forall a ensures ViewOf(State(), a) == ViewOf(CheckedAll(old(State()), now), a) {
        CheckedAllAt(old(State()), now, a);
      }
      SameViews(State(), CheckedAll(old(State()), now));
    }

    method RemoveValidator(addr: string)
      modifies this
      ensures State() == Step(old(State()), Remove(addr))
    {
      validators := validators - {addr};
      heartbeats := heartbeats - {addr};
    }
  }

  lemma {:induction false} CheckedAllAt(p: Protocol, now: int, a: string)
    ensures ViewOf(CheckedAll(p, now), a) == Checked(ViewOf(p, a), now)
  {
  }

  // ---------- every validator is its own machine ----------

  function ViewRun(v: View, a: string, ops: seq<Op>): View {
    if ops == [] then v else ViewStep(ViewRun(v, a, ops[..|ops| - 1]), a, ops[|ops| - 1])
  }

  lemma {:induction false} StepAt(p: Protocol, op: Op, a: string)
    ensures ViewOf(Step(p, op), a) == ViewStep(ViewOf(p, a), a, op)
  {
    if op.Check? { CheckedAllAt(p, op.now, a); }
  }

  /** A run of the protocol, seen from one validator, is a run of that validator alone. */
  lemma {:induction false} RunAt(p: Protocol, ops: seq<Op>, a: string)
    ensures ViewOf(Run(p, ops), a) == ViewRun(ViewOf(p, a), a, ops)
  {
    if ops != [] {
      RunAt(p, ops[..|ops| - 1], a);
      StepAt(Run(p, ops[..|ops| - 1]), ops[|ops| - 1], a);
    }
  }

  // ---------- in every reachable state ----------

  /** Known in both tables or in neither, and with at most two timeouts. */
  ghost predicate Sound(v: View) {
    (v.state.Some? <==> v.beat.Some?) && (v.state.Some? ==> v.state.value.timeouts < MAX_TIMEOUTS)
  }

  lemma {:induction false} ViewStaysSound(v: View, a: string, ops: seq<Op>)
    requires Sound(v)
    ensures Sound(ViewRun(v, a, ops))
  {
    if ops != [] { ViewStaysSound(v, a, ops[..|ops| - 1]); }
  }

  /** After any operations the two tables have the same keys and nobody listed has three timeouts. */
  lemma {:induction false} TablesAgree(ops: seq<Op>)
    ensures var p := Run(EMPTY, ops);
      && p.validators.Keys == p.heartbeats.Keys
      && forall a :: a in p.validators ==> p.validators[a].timeouts <= 2
  {
    var p := Run(EMPTY, ops);
    forall a ensures Sound(ViewOf(p, a)) {
      RunAt(EMPTY, ops, a);
      ViewStaysSound(GONE, a, ops);
    }
    forall a ensures a in p.validators <==> a in p.heartbeats { assert Sound(ViewOf(p, a)); }
    forall a | a in p.validators ensures p.validators[a].timeouts <= 2 { assert Sound(ViewOf(p, a)); }
  }

  // ---------- the live are never timed out ----------

  /** At every check the validator, if known, had been heard within the timeout. */
  ghost predicate Punctual(v: View, a: string, ops: seq<Op>) {
    forall i {:trigger ops[i]} :: 0 <= i < |ops| && ops[i].Check? ==> !Stale(ViewRun(v, a, ops[..i]), ops[i].now)
  }

  lemma {:induction false} PunctualView(v: View, a: string, ops: seq<Op>)
    requires Punctual(v, a, ops)
    requires v.state.Some? ==> v.state.value.isActive && v.state.value.timeouts == 0
    ensures var w := ViewRun(v, a, ops); w.state.Some? ==> w.state.value.isActive && w.state.value.timeouts == 0
  {
    if ops != [] {
      var n := |ops| - 1;
      var init := ops[..n];
      forall i {:trigger init[i]} | 0 <= i < n && init[i].Check? ensures !Stale(ViewRun(v, a, init[..i]), init[i].now) {
        assert init[..i] == ops[..i] && init[i] == ops[i];
      }
      PunctualView(v, a, init);
      assert ops[n].Check? ==> !Stale(ViewRun(v, a, ops[..n]), ops[n].now);
    }
  }

  /** A validator heard in time before every check is never marked inactive and has no timeouts, in any run. */
  lemma {:induction false} PunctualStaysActive(ops: seq<Op>, a: string)
    requires Punctual(GONE, a, ops)
    ensures var p := Run(EMPTY, ops);
      a in p.validators ==> p.validators[a].isActive && p.validators[a].timeouts == 0
  {
    RunAt(EMPTY, ops, a);
    PunctualView(GONE, a, ops);
  }

  // ---------- the silent are removed ----------

  /** No heartbeat of this validator, and nobody removes it by hand. */
  ghost predicate Silent(a: string, ops: seq<Op>) {
    forall i {:trigger ops[i]} :: 0 <= i < |ops| ==> ops[i] != Remove(a) && !(ops[i].Beat? && ops[i].addr == a)
  }

  /** Checks that come after the timeout of a heartbeat. */
  function LateChecks(beat: int, ops: seq<Op>): nat {
    if ops == [] then 0 else
      var op := ops[|ops| - 1];
      LateChecks(beat, ops[..|ops| - 1]) + if op.Check? && op.now - beat > TIMEOUT then 1 else 0
  }

  /** While a validator stays silent, its timeouts go up by one per late check, and the third removes it. */
  lemma {:induction false} SilentView(v: View, a: string, ops: seq<Op>)
    requires Sound(v) && v.state.Some? && Silent(a, ops)
    ensures var w, t := ViewRun(v, a, ops), v.state.value.timeouts + LateChecks(v.beat.value, ops);
      if t >= MAX_TIMEOUTS then w == GONE
      else w.beat == v.beat && w.state.Some? && w.state.value.timeouts == t
  {
    if ops != [] {
      var n := |ops| - 1;
      assert forall i :: 0 <= i < n ==> ops[..n][i] == ops[i];
      SilentView(v, a, ops[..n]);
      assert ops[n] != Remove(a);
    }
  }

  /** After any run, a validator that falls silent is gone exactly when its timeouts and the late checks make three. */
  lemma {:induction false} SilentIsRemovedIff(before: seq<Op>, ops: seq<Op>, a: string)
    requires a in Run(EMPTY, before).validators && Silent(a, ops)
    ensures var p := Run(EMPTY, before);
      && a in p.heartbeats
      && (a !in Run(p, ops).validators <==> p.validators[a].timeouts + LateChecks(p.heartbeats[a], ops) >= MAX_TIMEOUTS)
      && (a in Run(p, ops).validators <==> a in Run(p, ops).heartbeats)
  {
    var p := Run(EMPTY, before);
    TablesAgree(before);
    assert p.validators[a].timeouts <= 2;
    RunAt(p, ops, a);
    SilentView(ViewOf(p, a), a, ops);
  }

  lemma {:induction false} LaterBeatFewerLate(t: int, beat: int, ops: seq<Op>)
    requires beat <= t
    ensures LateChecks(beat, ops) >= LateChecks(t, ops)
  {
    if ops != [] { LaterBeatFewerLate(t, beat, ops[..|ops| - 1]); }
  }

  /** In particular, one last heard at time t or before is gone by the third check after t + 90 s. */
  lemma {:induction false} GoneByThirdLateCheck(before: seq<Op>, ops: seq<Op>, a: string, t: int)
    requires a in Run(EMPTY, before).validators && a in Run(EMPTY, before).heartbeats
    requires Run(EMPTY, before).heartbeats[a] <= t && Silent(a, ops) && LateChecks(t, ops) >= 3
    ensures a !in Run(Run(EMPTY, before), ops).validators && a !in Run(Run(EMPTY, before), ops).heartbeats
  {
    SilentIsRemovedIff(before, ops, a);
    LaterBeatFewerLate(t, Run(EMPTY, before).heartbeats[a], ops);
  }

  /** Checks that found the validator late at the time. */
  function MissedChecks(v: View, a: string, ops: seq<Op>): nat {
    if ops == [] then 0 else
      var init, op := ops[..|ops| - 1], ops[|ops| - 1];
      MissedChecks(v, a, init) + if op.Check? && Stale(ViewRun(v, a, init), op.now) then 1 else 0
  }

  /** Timeouts are counted for life: heartbeats in between reactivate a validator but take none of them back. */
  lemma {:induction false} TimeoutsAreForLife(v: View, a: string, ops: seq<Op>)
    requires Sound(v) && v.state.Some?
    requires forall i :: 0 <= i < |ops| ==> ops[i] != Remove(a)
    requires ops != [] ==> v.state.value.timeouts + MissedChecks(v, a, ops[..|ops| - 1]) < MAX_TIMEOUTS
    ensures var w, t := ViewRun(v, a, ops), v.state.value.timeouts + MissedChecks(v, a, ops);
      if t >= MAX_TIMEOUTS then w == GONE else Sound(w) && w.state.Some? && w.state.value.timeouts == t
  {
    if ops != [] {
      var n := |ops| - 1;
      assert forall i :: 0 <= i < n ==> ops[..n][i] == ops[i];
      TimeoutsAreForLife(v, a, ops[..n]);
      assert ops[n] != Remove(a);
    }
  }

  // ---------- what the tables say of a listed validator ----------

  /** Position j holds the last heartbeat of the validator, at time t. */
  ghost predicate LastBeat(a: string, ops: seq<Op>, j: nat, t: int) {
    && j < |ops| && ops[j] == Beat(a, t)
    && forall i :: j < i < |ops| ==> !(ops[i].Beat? && ops[i].addr == a)
  }

  /** No check since that heartbeat came more than 90 seconds after it. */
  ghost predicate NoLateCheck(ops: seq<Op>, j: nat, t: int) {
    forall i :: j < i < |ops| && ops[i].Check? ==> ops[i].now - t <= 90000000000
  }

  lemma {:induction false} NoLateStep(ops: seq<Op>, j: nat, t: int)
    requires j < |ops| - 1
    ensures var n := |ops| - 1;
      NoLateCheck(ops, j, t) <==> NoLateCheck(ops[..n], j, t) && (ops[n].Check? ==> ops[n].now - t <= 90000000000)
  {
    var n := |ops| - 1;
    assert forall i :: 0 <= i < n ==> ops[..n][i] == ops[i];
  }

  /** What the protocol holds of a validator after its last heartbeat at time t. */
  ghost predicate Shows(v: View, ops: seq<Op>, j: nat, t: int) {
    v.state.Some? ==>
      && v.beat == Some(t) && v.state.value.lastSeen == t
      && (v.state.value.isActive <==> NoLateCheck(ops, j, t))
  }

  lemma {:induction false} ViewShows(a: string, ops: seq<Op>, j: nat, t: int)
    requires LastBeat(a, ops, j, t)
    ensures Shows(ViewRun(GONE, a, ops), ops, j, t)
  {
    var n := |ops| - 1;
    if j < n {
      var init := ops[..n];
      assert forall i :: 0 <= i < n ==> init[i] == ops[i];
      ViewShows(a, init, j, t);
      NoLateStep(ops, j, t);
      assert !(ops[n].Beat? && ops[n].addr == a);
    }
  }

  /** Somebody listed has been heard. */
  lemma {:induction false} ListedWasHeard(a: string, ops: seq<Op>) returns (j: nat, t: int)
    requires ViewRun(GONE, a, ops).state.Some?
    ensures LastBeat(a, ops, j, t)
  {
    var n := |ops| - 1;
    if ops[n].Beat? && ops[n].addr == a {
      j, t := n, ops[n].now;
    } else {
      j, t := ListedWasHeard(a, ops[..n]);
      assert forall i :: 0 <= i < n ==> ops[..n][i] == ops[i];
    }
  }

  /**
   In every run, for every listed validator: there is a last heartbeat, both tables give its time, and the validator
   is active exactly when no check since came more than 90 seconds after it.
   */
  lemma {:induction false} ActiveIff(ops: seq<Op>, a: string) returns (j: nat, t: int)
    requires a in Run(EMPTY, ops).validators
    ensures LastBeat(a, ops, j, t)
    ensures var p := Run(EMPTY, ops);
      && a in p.heartbeats && p.heartbeats[a] == t && p.validators[a].lastSeen == t
      && (p.validators[a].isActive <==>
            forall i :: j < i < |ops| && ops[i].Check? ==> ops[i].now - t <= 90000000000)
  {
    RunAt(EMPTY, ops, a);
    j, t := ListedWasHeard(a, ops);
    ViewShows(a, ops, j, t);
  }

  /** The heartbeats of a validator since it was listed: the count starts anew whenever it is not. */
  function BeatsSinceListed(a: string, ops: seq<Op>): nat {
    if ops == [] || a !in Run(EMPTY, ops).validators then 0 else
      var op := ops[|ops| - 1];
      BeatsSinceListed(a, ops[..|ops| - 1]) + if op.Beat? && op.addr == a then 1 else 0
  }

  lemma {:induction false} HeartbeatsAreCounted(ops: seq<Op>, a: string)
    requires a in Run(EMPTY, ops).validators
    ensures Run(EMPTY, ops).validators[a].heartbeats == BeatsSinceListed(a, ops)
  {
    if ops != [] {
      var n := |ops| - 1;
      var before := Run(EMPTY, ops[..n]);
      StepAt(before, ops[n], a);
      if a in before.validators { HeartbeatsAreCounted(ops[..n], a); }
    }
  }
}
