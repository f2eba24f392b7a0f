/** Progress writes and terminal writes to one fire record, interleaved one Redis command at a time.

    RecordFireProgress reads the record and later runs a compare-and-set script; RecordFire reads it and
    later sets it. Any number of both may be under way, in any order. JSON is an injective codec, so
    comparing bytes is comparing records. */
module FireProgress {
  import opened Schedules

  type Thread = nat

  /** What a thread does with its next command. */
  datatype Next = Cas(seen: Fire, next: Fire) | Set(next: Fire)

  datatype Cell = Absent | Present(fire: Fire)

  datatype Snapshot = Snapshot(cell: Cell, pending: map<Thread, Next>)

  datatype Op =
    | ReadForProgress(t: Thread, at: Time)
    | ReadForEnd(t: Thread, fire: Fire)
    | Execute(t: Thread)

  predicate InFlight(f: Fire) {
    f.stop == ""
  }

  function Command(s: Snapshot, op: Op): Snapshot {
    match op
    case ReadForProgress(t, at) =>
      if t in s.pending || s.cell.Absent? || !InFlight(s.cell.fire) || !After(at, s.cell.fire.progressAt) then s
      else s.(pending := s.pending[t := Cas(s.cell.fire, s.cell.fire.(progressAt := at))])
    case ReadForEnd(t, f) =>
      if t in s.pending || (s.cell.Present? && !InFlight(s.cell.fire)) then s
      else s.(pending := s.pending[t := Next.Set(f)])
    case Execute(t) =>
      if t !in s.pending then s else
      var rest := s.pending - {t};
      match s.pending[t]
      case Cas(seen, next) =>
        if s.cell == Present(seen) then Snapshot(Present(next), rest) else s.(pending := rest)
      case Set(next) => Snapshot(Present(next), rest)
  }

  function Trace(s: Snapshot, ops: seq<Op>): Snapshot
    decreases |ops|
  {
    if ops == [] then s else Trace(Command(s, ops[0]), ops[1..])
  }

  /** A compare-and-set only ever moves an in-flight record forward in time; a set is terminal. */
  predicate Sane(p: Next) {
    match p
    case Cas(seen, next) => InFlight(seen) && next == seen.(progressAt := next.progressAt) && After(next.progressAt, seen.progressAt)
    case Set(next) => !InFlight(next)
  }

  predicate Inv(s: Snapshot) {
    forall t :: t in s.pending ==> Sane(s.pending[t])
  }

  /** RecordFire is called with a terminal outcome. */
  predicate Terminal(op: Op) {
    op.ReadForEnd? ==> !InFlight(op.fire)
  }

  /** Not going back: terminal stays terminal, and an in-flight record's progress never decreases. */
  predicate Forward(c: Cell, d: Cell) {
    && (c.Present? ==> d.Present?)
    && (c.Present? && !InFlight(c.fire) ==> !InFlight(d.fire))
    && (c.Present? && InFlight(d.fire) ==>
          && d.fire == c.fire.(progressAt := d.fire.progressAt)
          && (d.fire.progressAt == c.fire.progressAt || After(d.fire.progressAt, c.fire.progressAt)))
    && (c.Absent? && d.Present? ==> !InFlight(d.fire))
  }

  lemma StepForward(s: Snapshot, op: Op)
    requires Inv(s) && Terminal(op)
    ensures Inv(Command(s, op)) && Forward(s.cell, Command(s, op).cell)
  {
  }

  lemma ForwardTrans(a: Cell, b: Cell, c: Cell)
    requires Forward(a, b) && Forward(b, c)
    ensures Forward(a, c)
  {
  }

  lemma {:induction false} RunForward(s: Snapshot, ops: seq<Op>)
    requires Inv(s) && forall i :: 0 <= i < |ops| ==> Terminal(ops[i])
    ensures Inv(Trace(s, ops)) && Forward(s.cell, Trace(s, ops).cell)
    decreases |ops|
  {
    if ops != [] {
      var t := Command(s, ops[0]);
      StepForward(s, ops[0]);
      RunForward(t, ops[1..]);
      ForwardTrans(s.cell, t.cell, Trace(t, ops[1..]).cell);
    }
  }

  /** From a recorded start, over every interleaving and between any two of its moments. */
  lemma TerminalStaysTerminal(fire: Fire, ops: seq<Op>, i: nat, j: nat)
    requires InFlight(fire) && i <= j <= |ops| && forall k :: 0 <= k < |ops| ==> Terminal(ops[k])
    ensures var start := Snapshot(Present(fire), map[]);
            Forward(Trace(start, ops[..i]).cell, Trace(start, ops[..j]).cell)
  {
    var start := Snapshot(Present(fire), map[]);
    RunForward(start, ops[..i]);
    RunSplit(start, ops[..i], ops[i..j]);
    assert ops[..i] + ops[i..j] == ops[..j];
    RunForward(Trace(start, ops[..i]), ops[i..j]);
  }

  lemma {:induction false} RunSplit(s: Snapshot, a: seq<Op>, b: seq<Op>)
    ensures Trace(s, a + b) == Trace(Trace(s, a), b)
    decreases |a|
  {
    if a == [] { assert a + b == b; }
    else {
      assert (a + b)[0] == a[0] && (a + b)[1..] == a[1..] + b;
      RunSplit(Command(s, a[0]), a[1..], b);
    }
  }

  // ------------------------------------------------------------------ what a write comes to

  function ThreadOf(op: Op): Thread {
    op.t
  }

  /** Other threads leave a thread's next command alone. */
  lemma {:induction false} PendingStays(s: Snapshot, ops: seq<Op>, t: Thread)
    requires t in s.pending && forall i :: 0 <= i < |ops| ==> ThreadOf(ops[i]) != t
    ensures t in Trace(s, ops).pending && Trace(s, ops).pending[t] == s.pending[t]
    decreases |ops|
  {
    if ops != [] { PendingStays(Command(s, ops[0]), ops[1..], t); }
  }

  /** A progress write of an in-flight record, whatever other threads do between its two commands: it lands
      exactly if the record is the one that was read, and then only the time differs. */
  lemma ProgressLandsIffUnchanged(s: Snapshot, t: Thread, at: Time, ops: seq<Op>)
    requires t !in s.pending && s.cell.Present? && InFlight(s.cell.fire) && After(at, s.cell.fire.progressAt)
    requires forall i :: 0 <= i < |ops| ==> ThreadOf(ops[i]) != t
    ensures var u := Trace(Command(s, ReadForProgress(t, at)), ops);
            var v := Command(u, Execute(t));
            && v.cell == (if u.cell == s.cell then Present(s.cell.fire.(progressAt := at)) else u.cell)
            && v.pending == u.pending - {t}
  {
    PendingStays(Command(s, ReadForProgress(t, at)), ops, t);
  }

  /** A progress write that is not later, or of a record that is absent or over, comes to nothing. */
  lemma StaleProgressIsDropped(s: Snapshot, t: Thread, at: Time)
    requires t !in s.pending && (s.cell.Present? && InFlight(s.cell.fire) ==> !After(at, s.cell.fire.progressAt))
    ensures Command(s, ReadForProgress(t, at)) == s
  {
  }

  /** A terminal write always lands once it has found the record absent or in flight. */
  lemma EndLands(s: Snapshot, t: Thread, f: Fire, ops: seq<Op>)
    requires t !in s.pending && (s.cell.Present? ==> InFlight(s.cell.fire))
    requires forall i :: 0 <= i < |ops| ==> ThreadOf(ops[i]) != t
    ensures var v := Command(Trace(Command(s, ReadForEnd(t, f)), ops), Execute(t)); v.cell == Present(f) && t !in v.pending
  {
    PendingStays(Command(s, ReadForEnd(t, f)), ops, t);
  }

  lemma SecondEndIsDropped(s: Snapshot, t: Thread, f: Fire)
    requires t !in s.pending && s.cell.Present? && !InFlight(s.cell.fire)
    ensures Command(s, ReadForEnd(t, f)) == s
  {
  }
}
