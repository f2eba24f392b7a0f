/** Readers and followers of a Redis event stream. A cycle is two commands: an XREAD behind the last id,
    then a check of the log's generation. Appends, deletions and re-creations may fall anywhere. */
module StreamReader {
  type Gen = nat

  datatype Option<+T> = None | Some(value: T)

  datatype Entry = Entry(id: nat, body: string)

  /** `logs` remembers every log ever written, by generation. No step of a reader looks at it. */
  datatype Log = Log(gen: Option<Gen>, stream: seq<Entry>, logs: map<Gen, seq<Entry>>)

  /** An anchored reader: its generation, its position, what an XREAD returned and is still unchecked,
      what it has handed on, and whether it has stopped. */
  datatype Reader = Reader(basis: Gen, lastId: nat, pending: Option<seq<Entry>>, yielded: seq<Entry>, stopped: bool)

  datatype State = State(log: Log, reader: Reader)

  datatype Op =
    | Append(id: nat, body: string, mint: Gen)
    | DeleteLog
    | XRead(count: nat)
    | Check(taken: nat)

  /** The internal page, lowered to what remains of a positive limit. */
  function ReadCount(limit: nat, sent: nat): (n: int)
    ensures n <= 256 && (limit > 0 && sent <= limit ==> n <= limit - sent)
    ensures limit == 0 || limit - sent >= 256 ==> n == 256
  {
    if limit > 0 && (limit as int) - sent < 256 then limit - sent else 256
  }

  function Behind(s: seq<Entry>, id: nat): seq<Entry> {
    if s == [] then [] else if s[0].id > id then s else Behind(s[1..], id)
  }

  function Take(s: seq<Entry>, n: nat): seq<Entry> {
    if |s| > n then s[..n] else s
  }

  function LastId(s: seq<Entry>): nat {
    if s == [] then 0 else s[|s| - 1].id
  }

  function Step(s: State, op: Op): State {
    match op
    case Append(id, body, mint) =>
      if id <= LastId(s.log.stream) then s else
      var g := if s.log.gen.Some? then s.log.gen.value else mint;
      var stream := s.log.stream + [Entry(id, body)];
      s.(log := Log(Some(g), stream, s.log.logs[g := stream]))
    case DeleteLog => s.(log := s.log.(gen := None, stream := []))
    case XRead(count) =>
      if s.reader.stopped || s.reader.pending.Some? then s else
      s.(reader := s.reader.(pending := Some(Take(Behind(s.log.stream, s.reader.lastId), count))))
    case Check(taken) =>
      if s.reader.stopped || s.reader.pending.None? then s
      else if s.log.gen != Some(s.reader.basis) then s.(reader := s.reader.(pending := None, stopped := true))
      else
        var got := Take(s.reader.pending.value, taken);
        s.(reader := s.reader.(
             pending := None, yielded := s.reader.yielded + got, stopped := |got| < |s.reader.pending.value|,
             lastId := if got == [] then s.reader.lastId else LastId(got)))
  }

  function Run(s: State, ops: seq<Op>): State
    decreases |ops|
  {
    if ops == [] then s else Run(Step(s, ops[0]), ops[1..])
  }

  // ------------------------------------------------------------------ invariant

  predicate Increasing(s: seq<Entry>) {
    && (forall i :: 0 <= i < |s| ==> s[i].id > 0)
    && (forall i, j :: 0 <= i < j < |s| ==> s[i].id < s[j].id)
  }

  predicate LogInv(l: Log) {
    && (forall g :: g in l.logs ==> Increasing(l.logs[g]))
    && (l.gen.Some? ==> l.gen.value in l.logs && l.logs[l.gen.value] == l.stream)
    && (l.gen.None? ==> l.stream == [])
  }

  /** The reader began behind entry `start` of its log and has handed on the entries from there. */
  predicate Follows(s: State, start: nat) {
    var r := s.reader;
    && r.basis in s.log.logs
    && var log := s.log.logs[r.basis];
       var at := start + |r.yielded|;
       && at <= |log| && r.yielded == log[start..at]
       && (!r.stopped ==> r.lastId == LastId(log[..at]))
       && (r.pending.Some? && s.log.gen == Some(r.basis) && !r.stopped ==>
             at + |r.pending.value| <= |log| && r.pending.value == log[at..at + |r.pending.value|])
  }

  /** Generations are never minted twice. */
  predicate Allowed(s: State, op: Op) {
    op.Append? && s.log.gen.None? ==> op.mint !in s.log.logs
  }

  predicate AllowedRun(s: State, ops: seq<Op>)
    decreases |ops|
  {
    ops == [] || (Allowed(s, ops[0]) && AllowedRun(Step(s, ops[0]), ops[1..]))
  }

  lemma {:induction false} BehindAt(s: seq<Entry>, at: nat, from: nat)
    requires Increasing(s) && from <= at <= |s|
    ensures Behind(s[from..], LastId(s[..at])) == s[at..]
    decreases |s| - from
  {
    if from < |s| {
      assert s[from..][0] == s[from] && s[from..][1..] == s[from + 1..];
      if from < at {
        assert LastId(s[..at]) == s[at - 1].id && s[from].id <= s[at - 1].id;
        BehindAt(s, at, from + 1);
      } else if at > 0 {
        assert LastId(s[..at]) == s[at - 1].id;
      }
    }
  }

  lemma AppendKeeps(s: State, op: Op, start: nat)
    requires LogInv(s.log) && Follows(s, start) && op.Append? && Allowed(s, op)
    ensures LogInv(Step(s, op).log) && Follows(Step(s, op), start)
  {
    var t := Step(s, op);
    if t != s {
      var g, r := t.log.gen.value, s.reader;
      var log := s.log.logs[r.basis];
      if g == r.basis {
        assert t.log.logs[g] == log + [Entry(op.id, op.body)];
        assert forall n :: 0 <= n <= |log| ==> t.log.logs[g][..n] == log[..n];
      }
    }
  }

  lemma TakeSlice(s: seq<Entry>, at: nat, n: nat)
    requires at <= |s|
    ensures var got := Take(s[at..], n); at + |got| <= |s| && got == s[at..at + |got|]
  {
    if |s[at..]| > n { assert s[at..][..n] == s[at..at + n]; } else { assert s[at..] == s[at..|s|]; }
  }

  lemma XReadKeeps(s: State, count: nat, start: nat)
    requires LogInv(s.log) && Follows(s, start)
    ensures Follows(Step(s, XRead(count)), start)
  {
    var r := s.reader;
    if !r.stopped && r.pending.None? && s.log.gen == Some(r.basis) {
      var log, at := s.log.logs[r.basis], start + |r.yielded|;
      BehindAt(log, at, 0);
      assert log[0..] == log;
      TakeSlice(log, at, count);
    }
  }

  lemma CheckKeeps(s: State, taken: nat, start: nat)
    requires LogInv(s.log) && Follows(s, start)
    ensures Follows(Step(s, Check(taken)), start)
  {
    var r := s.reader;
    if !r.stopped && r.pending.Some? && s.log.gen == Some(r.basis) {
      var log, at := s.log.logs[r.basis], start + |r.yielded|;
      var got := Take(r.pending.value, taken);
      assert got == log[at..at + |got|];
      assert r.yielded + got == log[start..at + |got|];
      if got != [] { assert log[..at + |got|][at + |got| - 1] == got[|got| - 1]; }
      else { assert log[..at + |got|] == log[..at]; }
    }
  }

  lemma StepKeeps(s: State, op: Op, start: nat)
    requires LogInv(s.log) && Follows(s, start) && Allowed(s, op)
    ensures LogInv(Step(s, op).log) && Follows(Step(s, op), start)
    ensures Step(s, op).reader.basis == s.reader.basis && s.reader.yielded <= Step(s, op).reader.yielded
  {
    match op
    case Append(_, _, _) => AppendKeeps(s, op, start);
    case DeleteLog =>
    case XRead(count) => XReadKeeps(s, count, start);
    case Check(taken) => CheckKeeps(s, taken, start);
  }

  lemma {:induction false} RunKeeps(s: State, ops: seq<Op>, start: nat)
    requires LogInv(s.log) && Follows(s, start) && AllowedRun(s, ops)
    ensures LogInv(Run(s, ops).log) && Follows(Run(s, ops), start) && Run(s, ops).reader.basis == s.reader.basis
    decreases |ops|
  {
    hide LogInv, Follows, Allowed, Step;
    if ops != [] {
      StepKeeps(s, ops[0], start);
      RunKeeps(Step(s, ops[0]), ops[1..], start);
    }
  }

  /** Whatever happens to the log, an anchored reader hands on a gap-free, duplicate-free run of entries
      of its own generation, from its cursor on, and nothing else. */
  lemma ReaderStaysInItsLog(log: Log, ops: seq<Op>, start: nat)
    requires LogInv(log) && log.gen.Some? && start <= |log.stream|
    requires AllowedRun(State(log, Reader(log.gen.value, LastId(log.stream[..start]), None, [], false)), ops)
    ensures var g := log.gen.value;
            var t := Run(State(log, Reader(g, LastId(log.stream[..start]), None, [], false)), ops);
            && g in t.log.logs && start + |t.reader.yielded| <= |t.log.logs[g]|
            && t.reader.yielded == t.log.logs[g][start..start + |t.reader.yielded|]
            && Increasing(t.log.logs[g])
  {
    var s := State(log, Reader(log.gen.value, LastId(log.stream[..start]), None, [], false));
    assert log.stream[start..start] == [];
    assert Follows(s, start);
    RunKeeps(s, ops, start);
  }

  // ------------------------------------------------------------------ progress

  function Least(a: nat, b: nat): (n: nat)
    ensures n <= a && n <= b && (n == a || n == b)
  {
    if a < b then a else b
  }

  /** Where the reader stands in the stream of its own generation, between two cycles. */
  predicate Poised(s: State, start: nat) {
    LogInv(s.log) && Follows(s, start) && s.log.gen == Some(s.reader.basis) && !s.reader.stopped && s.reader.pending.None?
  }

  /** The first command: what is behind the reader, up to the count. */
  lemma ReadGets(s: State, count: nat, start: nat)
    requires Poised(s, start)
    ensures var at := start + |s.reader.yielded|;
            && at <= |s.log.stream|
            && Step(s, XRead(count)) == s.(reader := s.reader.(pending := Some(s.log.stream[at..at + Least(count, |s.log.stream| - at)])))
  {
    var log, at := s.log.stream, start + |s.reader.yielded|;
    BehindAt(log, at, 0);
    assert log[0..] == log;
    TakeSlice(log, at, count);
  }

  /** The second: what the consumer takes of it. */
  lemma CheckGives(s: State, taken: nat)
    requires s.log.gen == Some(s.reader.basis) && !s.reader.stopped && s.reader.pending.Some?
    ensures var t := Step(s, Check(taken));
            var n := Least(|s.reader.pending.value|, taken);
            && t.log == s.log && t.reader.basis == s.reader.basis && t.reader.pending.None?
            && t.reader.yielded == s.reader.yielded + s.reader.pending.value[..n]
            && (t.reader.stopped <==> taken < |s.reader.pending.value|)
  {
    var p := s.reader.pending.value;
    assert Take(p, taken) == p[..Least(|p|, taken)];
  }

  /** A cycle under an unmoved generation hands on the next entries, as many as were asked for, taken and
      there; it stops exactly if the consumer took fewer than it got. */
  lemma CycleYields(s: State, count: nat, taken: nat, start: nat)
    requires Poised(s, start)
    ensures var t := Step(Step(s, XRead(count)), Check(taken));
            var at := start + |s.reader.yielded|;
            && at <= |s.log.stream| && t.log == s.log && t.reader.basis == s.reader.basis
            && var got := Least(count, |s.log.stream| - at);
               && t.reader.yielded == s.reader.yielded + s.log.stream[at..at + Least(got, taken)]
               && (t.reader.stopped <==> taken < got)
               && (taken >= got ==> Poised(t, start))
  {
    hide Step, LogInv, Follows;
    var log, at := s.log.stream, start + |s.reader.yielded|;
    ReadGets(s, count, start);
    var u := Step(s, XRead(count));
    XReadKeeps(s, count, start);
    CheckGives(u, taken);
    CheckKeeps(u, taken, start);
    var got := Least(count, |log| - at);
    assert log[at..at + got][..Least(got, taken)] == log[at..at + Least(got, taken)];
  }

  /** A cycle across a deletion or a re-creation stops and hands on nothing. */
  lemma MovedGenerationStops(s: State, taken: nat)
    requires !s.reader.stopped && s.reader.pending.Some? && s.log.gen != Some(s.reader.basis)
    ensures var t := Step(s, Check(taken)); t.reader.stopped && t.reader.yielded == s.reader.yielded && t.log == s.log
  {
  }

  lemma RunCycle(s: State, count: nat, rest: seq<Op>)
    ensures Run(s, [XRead(count), Check(count)] + rest) == Run(Step(Step(s, XRead(count)), Check(count)), rest)
  {
    hide Step;
    var ops := [XRead(count), Check(count)] + rest;
    assert ops[1..] == [Check(count)] + rest && ops[1..][1..] == rest;
  }

  /** A reader left alone hands on its whole log, whatever its page size. */
  lemma {:induction false} ReaderCatchesUp(s: State, count: nat, start: nat) returns (ops: seq<Op>)
    requires Poised(s, start) && count > 0
    ensures var t := Run(s, ops); t.log == s.log && t.reader.yielded == s.log.stream[start..] && !t.reader.stopped
    decreases |s.log.stream| - start - |s.reader.yielded|
  {
    hide Step, LogInv;
    var log, at := s.log.stream, start + |s.reader.yielded|;
    YieldedIs(s, start);
    if at == |log| { return []; }
    CycleYields(s, count, count, start);
    var rest := ReaderCatchesUp(Step(Step(s, XRead(count)), Check(count)), count, start);
    RunCycle(s, count, rest);
    ops := [XRead(count), Check(count)] + rest;
  }

  lemma YieldedIs(s: State, start: nat)
    requires Poised(s, start)
    ensures start + |s.reader.yielded| <= |s.log.stream| && s.reader.yielded == s.log.stream[start..start + |s.reader.yielded|]
  {
  }

  /** An append with a later id adds one entry, under the log's generation or a minted one; any other is
      refused. A deletion leaves neither entries nor generation. */
  lemma LogEffects(s: State, id: nat, body: string, mint: Gen)
    ensures var t := Step(s, Append(id, body, mint));
            if s.log.stream == [] && id == 0 then t == s
            else if s.log.stream != [] && id <= s.log.stream[|s.log.stream| - 1].id then t == s
            else
              && t.log.stream == s.log.stream + [Entry(id, body)] && t.reader == s.reader
              && t.log.gen == Some(if s.log.gen.Some? then s.log.gen.value else mint)
    ensures var t := Step(s, DeleteLog); t.log.stream == [] && t.log.gen.None? && t.log.logs == s.log.logs && t.reader == s.reader
  {
  }
}
