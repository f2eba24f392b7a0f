/** What the schedule machine guarantees over whole runs. */
module ScheduleRuns {
  import opened Schedules
  import opened Binary64

  // ------------------------------------------------------------------ at most once

  predicate Won(clock: Clock, st: Store, op: Op, n: string) {
    (op.Claim? || op.ClaimNow?) && op.name == n && Apply(clock, st, op).1.Returned?
  }

  /** The instants at which a claim on `n` won. */
  function Wins(clock: Clock, st: Store, ops: seq<Op>, n: string): seq<Time>
    decreases |ops|
  {
    if ops == [] then []
    else (if Won(clock, st, ops[0], n) then [ops[0].now] else []) + Wins(clock, Apply(clock, st, ops[0]).0, ops[1..], n)
  }

  /** The slots of `n` that Claim consumed. */
  function Slots(clock: Clock, st: Store, ops: seq<Op>, n: string): seq<Time>
    decreases |ops|
  {
    if ops == [] then []
    else (if Won(clock, st, ops[0], n) && ops[0].Claim? && n in st.schedules then [st.schedules[n].state.nextFireAt] else [])
         + Slots(clock, Apply(clock, st, ops[0]).0, ops[1..], n)
  }

  function Slack(clock: Clock): int {
    if clock.Exact? then 0 else 256
  }

  predicate Band(clock: Clock, t: Time) {
    t.At? && (clock.Binary64? ==> InBand(t.nanos))
  }

  /** The premises on one operation, given the last claim instant: instants never go backwards, a
      next slot is absent or later than now, nothing re-arms the schedule or removes it. */
  predicate Disciplined(clock: Clock, n: string, floor: int, op: Op) {
    && ((op.Claim? || op.ClaimNow?) && op.name == n ==>
          && Band(clock, op.now) && floor <= op.now.nanos
          && (op.nextFire.Zero? || (Band(clock, op.nextFire) && op.nextFire.nanos > op.now.nanos + Slack(clock))))
    && !(op.ReArmOneShot? && op.name == n) && !(op.Delete? && op.name == n) && !(op.CompleteDelete? && op.name == n)
  }

  function NextFloor(n: string, floor: int, op: Op): int {
    if (op.Claim? || op.ClaimNow?) && op.name == n && op.now.At? then op.now.nanos else floor
  }

  predicate DisciplinedRun(clock: Clock, n: string, floor: int, ops: seq<Op>)
    decreases |ops|
  {
    ops == [] || (Disciplined(clock, n, floor, ops[0]) && DisciplinedRun(clock, n, NextFloor(n, floor, ops[0]), ops[1..]))
  }

  datatype Option<+T> = None | Some(value: T)

  /** `last` is the instant of the last win, if there was one. */
  predicate Tracked(clock: Clock, s: State, floor: int, last: Option<int>) {
    && (s.nextFireAt.Zero? || Band(clock, s.nextFireAt))
    && (last.Some? ==>
          && last.value <= floor && s.lastFireAt == At(last.value) && (clock.Binary64? ==> InBand(last.value))
          && (s.nextFireAt.Zero? || s.nextFireAt.nanos > last.value + Slack(clock)))
  }

  predicate Increasing(ts: seq<Time>) {
    && (forall i :: 0 <= i < |ts| ==> ts[i].At?)
    && (forall i, j :: 0 <= i < j < |ts| ==> ts[i].nanos < ts[j].nanos)
  }

  /** Strictly increasing, from above `bound` on. */
  predicate Rising(ts: seq<Time>, bound: Option<int>) {
    ts == [] || (ts[0].At? && (bound.Some? ==> ts[0].nanos > bound.value) && Rising(ts[1..], Some(ts[0].nanos)))
  }

  function Plus(last: Option<int>, d: int): Option<int> {
    if last.Some? then Some(last.value + d) else None
  }

  lemma RisingFrom(ts: seq<Time>, low: int, bound: int)
    requires Rising(ts, Some(bound)) && low <= bound
    ensures Rising(ts, Some(low))
  {
  }

  lemma RisingEmpty(bound: Option<int>)
    ensures Rising([], bound)
  {
  }

  lemma RisingAny(ts: seq<Time>, bound: int)
    requires Rising(ts, Some(bound))
    ensures Rising(ts, None)
  {
  }

  lemma RisingCons(t: Time, ts: seq<Time>, last: Option<int>)
    requires t.At? && (last.Some? ==> t.nanos > last.value) && Rising(ts, Some(t.nanos))
    ensures Rising([t] + ts, last)
  {
    assert ([t] + ts)[1..] == ts;
  }

  lemma {:induction false} RisingIncreases(ts: seq<Time>, bound: Option<int>)
    requires Rising(ts, bound)
    ensures Increasing(ts) && (bound.Some? ==> forall i :: 0 <= i < |ts| ==> ts[i].nanos > bound.value)
  {
    if ts != [] {
      RisingIncreases(ts[1..], Some(ts[0].nanos));
      assert forall i :: 0 < i < |ts| ==> ts[i] == ts[1..][i - 1];
    }
  }

  /** An operation that is no win leaves the claim fields of `n` alone. */
  lemma QuietStep(clock: Clock, st: Store, op: Op, n: string, floor: int)
    requires n in st.schedules && Disciplined(clock, n, floor, op) && !Won(clock, st, op, n)
    ensures var u := Apply(clock, st, op).0;
            && n in u.schedules
            && u.schedules[n].state.lastFireAt == st.schedules[n].state.lastFireAt
            && u.schedules[n].state.nextFireAt == st.schedules[n].state.nextFireAt
            && u.schedules[n].state.fireCount == st.schedules[n].state.fireCount
  {
  }

  /** A win comes strictly after the last one, and its slot lies beyond all earlier slots. */
  lemma WinStep(clock: Clock, st: Store, op: Op, n: string, floor: int, last: Option<int>)
    requires n in st.schedules && Disciplined(clock, n, floor, op) && Won(clock, st, op, n)
    requires Tracked(clock, st.schedules[n].state, floor, last)
    ensures op.now.At? && (last.Some? ==> op.now.nanos > last.value)
    ensures op.Claim? ==>
              var slot := st.schedules[n].state.nextFireAt;
              slot.At? && slot.nanos <= op.now.nanos + Slack(clock) && (last.Some? ==> slot.nanos > last.value + Slack(clock))
    ensures var u := Apply(clock, st, op).0;
            && n in u.schedules && Tracked(clock, u.schedules[n].state, op.now.nanos, Some(op.now.nanos))
            && u.schedules[n].state.fireCount == st.schedules[n].state.fireCount + 1
  {
    var slot := st.schedules[n].state.nextFireAt;
    if op.Claim? && clock.Binary64? {
      AcceptedIsNear(slot.nanos, op.now.nanos);
      if last.Some? { TakesLater(slot.nanos, op.now.nanos, last.value); }
    }
  }

  /** What the first operation contributes. */
  lemma Unrolled(clock: Clock, st: Store, ops: seq<Op>, n: string)
    requires ops != []
    ensures var op, u := ops[0], Apply(clock, st, ops[0]).0;
            && Run(clock, st, ops) == Run(clock, u, ops[1..])
            && Wins(clock, st, ops, n) == (if Won(clock, st, op, n) then [op.now] else []) + Wins(clock, u, ops[1..], n)
            && Slots(clock, st, ops, n) == (if Won(clock, st, op, n) && op.Claim? && n in st.schedules then [st.schedules[n].state.nextFireAt] else []) + Slots(clock, u, ops[1..], n)
  {
  }

  lemma DisciplinedTail(clock: Clock, n: string, floor: int, ops: seq<Op>)
    requires ops != [] && DisciplinedRun(clock, n, floor, ops)
    ensures Disciplined(clock, n, floor, ops[0]) && DisciplinedRun(clock, n, NextFloor(n, floor, ops[0]), ops[1..])
  {
  }

  /** A win and its slot in front of what follows. */
  lemma WinRises(clock: Clock, st: Store, op: Op, n: string, floor: int, last: Option<int>, wins: seq<Time>, slots: seq<Time>)
    requires n in st.schedules && Disciplined(clock, n, floor, op) && Won(clock, st, op, n)
    requires Tracked(clock, st.schedules[n].state, floor, last) && op.now.At?
    requires Rising(wins, Some(op.now.nanos)) && Rising(slots, Some(op.now.nanos + Slack(clock)))
    ensures Rising([op.now] + wins, last)
    ensures Rising((if op.Claim? then [st.schedules[n].state.nextFireAt] else []) + slots, Plus(last, Slack(clock)))
  {
    hide Apply, Disciplined, Tracked, Won, Rising;
    WonClaims(clock, st, op, n);
    WinStep(clock, st, op, n, floor, last);
    RisingCons(op.now, wins, last);
    if op.Claim? {
      var slot := st.schedules[n].state.nextFireAt;
      RisingFrom(slots, slot.nanos, op.now.nanos + Slack(clock));
      RisingCons(slot, slots, Plus(last, Slack(clock)));
    } else {
      assert [] + slots == slots;
      if last.Some? { RisingFrom(slots, last.value + Slack(clock), op.now.nanos + Slack(clock)); }
      else { RisingAny(slots, op.now.nanos + Slack(clock)); }
    }
  }

  lemma {:induction false} RunWins(clock: Clock, st: Store, ops: seq<Op>, n: string, floor: int, last: Option<int>)
    requires n in st.schedules && DisciplinedRun(clock, n, floor, ops)
    requires Tracked(clock, st.schedules[n].state, floor, last)
    ensures Rising(Wins(clock, st, ops, n), last)
    ensures Rising(Slots(clock, st, ops, n), Plus(last, Slack(clock)))
    ensures n in Run(clock, st, ops).schedules
    ensures Run(clock, st, ops).schedules[n].state.fireCount == st.schedules[n].state.fireCount + |Wins(clock, st, ops, n)|
    decreases |ops|
  {
    hide Apply, Disciplined, DisciplinedRun, Tracked, Won, Rising;
    if ops == [] {
      RisingEmpty(last);
      RisingEmpty(Plus(last, Slack(clock)));
    } else {
      hide Wins, Slots, Run, Slack, Plus;
      var op, u := ops[0], Apply(clock, st, ops[0]).0;
      Unrolled(clock, st, ops, n);
      DisciplinedTail(clock, n, floor, ops);
      var wins, slots := Wins(clock, u, ops[1..], n), Slots(clock, u, ops[1..], n);
      if Won(clock, st, op, n) {
        WinStep(clock, st, op, n, floor, last);
        WonClaims(clock, st, op, n);
        RunWins(clock, u, ops[1..], n, op.now.nanos, Some(op.now.nanos));
        PlusSome(op.now.nanos, Slack(clock));
        WinRises(clock, st, op, n, floor, last, wins, slots);
      } else {
        assert [] + wins == wins && [] + slots == slots;
        QuietStep(clock, st, op, n, floor);
        StillTracked(clock, st.schedules[n].state, u.schedules[n].state, n, floor, op, last);
        RunWins(clock, u, ops[1..], n, NextFloor(n, floor, op), last);
      }
    }
  }

  lemma PlusSome(x: int, d: int)
    ensures Plus(Some(x), d) == Some(x + d)
  {
  }

  lemma WonClaims(clock: Clock, st: Store, op: Op, n: string)
    requires Won(clock, st, op, n)
    ensures (op.Claim? || op.ClaimNow?) && op.name == n
  {
  }

  lemma StillTracked(clock: Clock, s: State, t: State, n: string, floor: int, op: Op, last: Option<int>)
    requires Tracked(clock, s, floor, last) && Disciplined(clock, n, floor, op)
    requires s.lastFireAt == t.lastFireAt && s.nextFireAt == t.nextFireAt
    ensures Tracked(clock, t, NextFloor(n, floor, op), last)
  {
  }

  /** At most one claim wins per instant, consumed slots strictly increase, and FireCount counts wins. */
  lemma AtMostOnce(clock: Clock, st: Store, ops: seq<Op>, n: string, floor: int)
    requires n in st.schedules && DisciplinedRun(clock, n, floor, ops)
    requires st.schedules[n].state.nextFireAt.Zero? || Band(clock, st.schedules[n].state.nextFireAt)
    ensures Increasing(Wins(clock, st, ops, n)) && Increasing(Slots(clock, st, ops, n))
    ensures n in Run(clock, st, ops).schedules
    ensures Run(clock, st, ops).schedules[n].state.fireCount == st.schedules[n].state.fireCount + |Wins(clock, st, ops, n)|
  {
    RunWins(clock, st, ops, n, floor, None);
    RisingIncreases(Wins(clock, st, ops, n), None);
    RisingIncreases(Slots(clock, st, ops, n), None);
  }

  // ------------------------------------------------------------------ the fire budget

  predicate KeepsBudget(n: string, max: int, op: Op) {
    && (op.Save? && op.s.spec.name == n ==> op.s.spec.maxFires == max)
    && !(op.Delete? && op.name == n) && !(op.CompleteDelete? && op.name == n)
  }

  predicate Budget(st: Store, n: string, max: int) {
    n in st.schedules && st.schedules[n].spec.maxFires == max && st.schedules[n].state.fireCount <= max
  }

  /** A constant positive MaxFires is never passed, whatever the instants. */
  lemma {:induction false} BudgetHolds(clock: Clock, st: Store, ops: seq<Op>, n: string, max: int)
    requires max > 0 && Budget(st, n, max) && forall i :: 0 <= i < |ops| ==> KeepsBudget(n, max, ops[i])
    ensures Budget(Run(clock, st, ops), n, max)
    decreases |ops|
  {
    hide Apply;
    if ops != [] {
      assert KeepsBudget(n, max, ops[0]);
      BudgetStep(clock, st, ops[0], n, max);
      BudgetHolds(clock, Apply(clock, st, ops[0]).0, ops[1..], n, max);
    }
  }

  lemma BudgetStep(clock: Clock, st: Store, op: Op, n: string, max: int)
    requires max > 0 && Budget(st, n, max) && KeepsBudget(n, max, op)
    ensures Budget(Apply(clock, st, op).0, n, max)
  {
  }

  // ------------------------------------------------------------------ two-phase deletion

  predicate Marked(st: Store, n: string, d: string) {
    n in st.schedules && st.schedules[n].state.deletionId == d && !st.schedules[n].state.enabled
  }

  /** What an operation on a marked schedule answers. */
  predicate Refused(n: string, d: string, op: Op, r: Outcome) {
    && ((op.Claim? || op.ClaimNow?) && op.name == n ==> r == NotFound)
    && (op.Save? && op.s.spec.name == n ==> r == Deleting)
    && (op.Create? && op.s.spec.name == n ==> r == Exists)
    && ((op.SetEnabled? || op.ReArmOneShot? || op.Delete?) && op.name == n ==> r == Deleting)
    && (op.CompleteDelete? && op.name == n && op.deletionId != d ==> r == Deleting)
    && (op.BeginDelete? && op.name == n ==> r.Returned? && r.s.state.deletionId == d)
  }

  lemma BeginMarks(clock: Clock, st: Store, n: string, d: string)
    requires Apply(clock, st, BeginDelete(n, d)).1.Returned?
    requires forall m :: m in st.schedules && st.schedules[m].state.deletionId != "" ==> !st.schedules[m].state.enabled
    ensures var r := Apply(clock, st, BeginDelete(n, d)).1;
            r.s.state.deletionId != "" && Marked(Apply(clock, st, BeginDelete(n, d)).0, n, r.s.state.deletionId)
  {
  }

  /** From BeginDelete to the matching CompleteDelete the mark stands and every other way on is shut. */
  lemma {:induction false} DeletionStands(clock: Clock, st: Store, ops: seq<Op>, n: string, d: string)
    requires d != "" && Marked(st, n, d) && CompleteDelete(n, d) !in ops
    ensures Marked(Run(clock, st, ops), n, d)
    ensures forall i :: 0 <= i < |ops| ==>
              var before := Run(clock, st, ops[..i]);
              Marked(before, n, d) && Refused(n, d, ops[i], Apply(clock, before, ops[i]).1)
    decreases |ops|
  {
    hide Apply, Refused;
    if ops != [] {
      MarkedStep(clock, st, ops[0], n, d);
      var u := Apply(clock, st, ops[0]).0;
      DeletionStands(clock, u, ops[1..], n, d);
      forall i | 0 <= i < |ops|
        ensures Marked(Run(clock, st, ops[..i]), n, d)
        ensures Refused(n, d, ops[i], Apply(clock, Run(clock, st, ops[..i]), ops[i]).1)
      {
        if i > 0 {
          assert ops[..i][0] == ops[0] && ops[..i][1..] == ops[1..][..i - 1] && ops[i] == ops[1..][i - 1];
          assert Run(clock, st, ops[..i]) == Run(clock, u, ops[1..][..i - 1]);
        }
      }
    }
  }

  lemma MarkedStep(clock: Clock, st: Store, op: Op, n: string, d: string)
    requires d != "" && Marked(st, n, d) && op != CompleteDelete(n, d)
    ensures Marked(Apply(clock, st, op).0, n, d) && Refused(n, d, op, Apply(clock, st, op).1)
  {
  }

  // ------------------------------------------------------------------ deleting implies disabled

  predicate FreshRecord(op: Op) {
    (op.Create? || op.Save?) ==> op.s.state.deletionId == ""
  }

  /** A marked schedule is disabled. */
  predicate Sound(st: Store) {
    forall n :: n in st.schedules && st.schedules[n].state.deletionId != "" ==> !st.schedules[n].state.enabled
  }

  lemma SoundStep(clock: Clock, st: Store, op: Op)
    requires Sound(st) && FreshRecord(op)
    ensures Sound(Apply(clock, st, op).0)
  {
  }

  lemma {:induction false} SoundRun(clock: Clock, st: Store, ops: seq<Op>)
    requires Sound(st) && forall i :: 0 <= i < |ops| ==> FreshRecord(ops[i])
    ensures Sound(Run(clock, st, ops))
    decreases |ops|
  {
    hide Apply, Sound;
    if ops != [] {
      SoundStep(clock, st, ops[0]);
      SoundRun(clock, Apply(clock, st, ops[0]).0, ops[1..]);
    }
  }

  /** So the due check that ignores the deletion mark selects the same schedules as the one that
      reads it, and on an exact clock both select what Claim would accept. */
  lemma DueAgrees(st: Store, n: string, now: Time)
    requires Sound(st) && n in st.schedules
    ensures IsDue(st.schedules[n], now) <==> IsDue(st.schedules[n], now) && st.schedules[n].state.deletionId == ""
    ensures IsDue(st.schedules[n], now) <==> Claimable(Exact, st.schedules[n], now)
  {
  }
}
