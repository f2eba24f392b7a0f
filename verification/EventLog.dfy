/** Generations of a jsonlstore event log. A new log commits a header with a freshly minted generation
    together with its first record; a cursor is a generation and a byte offset. Lines are appended by
    EventFile, which may lose any suffix of an append in a crash. */
module EventLog {
  import opened ByteOrder
  import opened Lines

  type Gen = nat

  /** The header encoding: an injective codec that no record is mistaken for. */
  datatype Codec = Codec(header: Gen -> Bytes, generation: Bytes -> Option<Gen>)

  datatype State = State(lines: seq<Bytes>, minted: set<Gen>)

  /** `kept` lines of the append survive. */
  datatype Op = Append(body: Bytes, mint: Gen, kept: nat) | Delete

  ghost predicate Faithful(c: Codec) {
    forall g: Gen :: c.generation(c.header(g)) == Some(g)
  }

  /** What one append writes. */
  function Batch(c: Codec, s: State, op: Op): seq<Bytes>
    requires op.Append?
  {
    if s.lines == [] then [c.header(op.mint), op.body] else [op.body]
  }

  predicate Succeeds(c: Codec, s: State, op: Op) {
    op.Append? && op.kept >= |Batch(c, s, op)|
  }

  function Step(c: Codec, s: State, op: Op): State {
    match op
    case Append(_, mint, kept) =>
      var batch := Batch(c, s, op);
      State(s.lines + (if kept < |batch| then batch[..kept] else batch), s.minted + {mint})
    case Delete => s.(lines := [])
  }

  function Run(c: Codec, s: State, ops: seq<Op>): State
    decreases |ops|
  {
    if ops == [] then s else Run(c, Step(c, s, ops[0]), ops[1..])
  }

  function Current(c: Codec, s: State): Option<Gen> {
    if s.lines == [] then None else c.generation(s.lines[0])
  }

  /** Minted generations are new, and record bodies are not headers. */
  predicate Allowed(c: Codec, s: State, op: Op) {
    op.Append? ==> op.mint !in s.minted && c.generation(op.body).None?
  }

  predicate AllowedRun(c: Codec, s: State, ops: seq<Op>)
    decreases |ops|
  {
    ops == [] || (Allowed(c, s, ops[0]) && AllowedRun(c, Step(c, s, ops[0]), ops[1..]))
  }

  /** A log starts with its header and holds no other. */
  ghost predicate Inv(c: Codec, s: State) {
    s.lines != [] ==>
      && c.generation(s.lines[0]).Some? && c.generation(s.lines[0]).value in s.minted
      && forall k :: 0 < k < |s.lines| ==> c.generation(s.lines[k]).None?
  }

  lemma StepKeeps(c: Codec, s: State, op: Op)
    requires Faithful(c) && Inv(c, s) && Allowed(c, s, op)
    ensures Inv(c, Step(c, s, op)) && s.minted <= Step(c, s, op).minted
  {
    var t := Step(c, s, op);
    if op.Append? && t.lines != [] {
      assert c.generation(c.header(op.mint)) == Some(op.mint);
      assert forall k :: 0 <= k < |s.lines| ==> t.lines[k] == s.lines[k];
    }
  }

  /** A log of generation `g` that held `lines` either still has them in front, or is another log. */
  ghost predicate Extends(c: Codec, lines: seq<Bytes>, g: Gen, t: State) {
    g in t.minted && (lines <= t.lines || Current(c, t) != Some(g))
  }

  lemma StepExtends(c: Codec, lines: seq<Bytes>, g: Gen, t: State, op: Op)
    requires Faithful(c) && Inv(c, t) && Allowed(c, t, op) && Extends(c, lines, g, t)
    ensures Extends(c, lines, g, Step(c, t, op))
  {
    var u := Step(c, t, op);
    if op.Append? {
      assert c.generation(c.header(op.mint)) == Some(op.mint);
      if t.lines != [] { assert u.lines[0] == t.lines[0]; }
    }
  }

  lemma {:induction false} RunExtends(c: Codec, lines: seq<Bytes>, g: Gen, t: State, ops: seq<Op>)
    requires Faithful(c) && Inv(c, t) && AllowedRun(c, t, ops) && Extends(c, lines, g, t)
    ensures Inv(c, Run(c, t, ops)) && Extends(c, lines, g, Run(c, t, ops))
    decreases |ops|
  {
    if ops != [] {
      StepKeeps(c, t, ops[0]);
      StepExtends(c, lines, g, t, ops[0]);
      RunExtends(c, lines, g, Step(c, t, ops[0]), ops[1..]);
    }
  }

  /** A successful append adds exactly its record, behind a header if the log is new. */
  lemma AppendAdds(c: Codec, s: State, op: Op)
    requires Faithful(c) && Inv(c, s) && Allowed(c, s, op) && Succeeds(c, s, op)
    ensures var t := Step(c, s, op);
            && t.lines == (if s.lines == [] then [c.header(op.mint)] else s.lines) + [op.body]
            && Current(c, t) == if s.lines == [] then Some(op.mint) else Current(c, s)
  {
    assert c.generation(c.header(op.mint)) == Some(op.mint);
  }

  /** A generation that is spent and not the current one stays so. */
  lemma {:induction false} SpentStays(c: Codec, g: Gen, t: State, ops: seq<Op>)
    requires Faithful(c) && Inv(c, t) && AllowedRun(c, t, ops) && g in t.minted && Current(c, t) != Some(g)
    ensures Current(c, Run(c, t, ops)) != Some(g)
    decreases |ops|
  {
    if ops != [] {
      var u := Step(c, t, ops[0]);
      StepKeeps(c, t, ops[0]);
      if ops[0].Append? {
        assert c.generation(c.header(ops[0].mint)) == Some(ops[0].mint);
        assert t.lines != [] ==> u.lines[0] == t.lines[0];
      }
      SpentStays(c, g, u, ops[1..]);
    }
  }

  /** A deletion leaves nothing, and the generation of what was deleted never comes back. */
  lemma DeletedIsGone(c: Codec, s: State, ops: seq<Op>)
    requires Faithful(c) && Inv(c, s) && s.lines != [] && AllowedRun(c, Step(c, s, Delete), ops)
    ensures Step(c, s, Delete).lines == [] && Current(c, Step(c, s, Delete)).None?
    ensures Current(c, Run(c, Step(c, s, Delete), ops)) != Current(c, s)
  {
    SpentStays(c, Current(c, s).value, Step(c, s, Delete), ops);
  }

  lemma DeletedFileIsEmpty(c: Codec, d: Disk)
    ensures Write(c, d, Delete).data == [] && Write(c, d, Delete).minted == d.minted
  {
  }

  /** Every cursor stays a record boundary with the same records before it, for as long as its generation
      is the current one; once the log is deleted its generation never comes back. */
  lemma CursorsStayValid(c: Codec, s: State, ops: seq<Op>, i: nat)
    requires Faithful(c) && Inv(c, s) && AllowedRun(c, s, ops) && s.lines != [] && i <= |s.lines|
    requires Current(c, Run(c, s, ops)) == Current(c, s)
    ensures var t := Run(c, s, ops);
            i <= |t.lines| && t.lines[..i] == s.lines[..i] && Offset(t.lines, i) == Offset(s.lines, i)
  {
    RunExtends(c, s.lines, Current(c, s).value, s, ops);
    var t := Run(c, s, ops);
    assert t.lines[..|s.lines|] == s.lines;
    assert t.lines[..i] == t.lines[..|s.lines|][..i];
  }

  // ------------------------------------------------------------------ the same over bytes

  /** The file of a log. `kept` bytes of an append survive; a deletion removes the file. */
  datatype Disk = Disk(data: Bytes, minted: set<Gen>)

  function LinesOf(d: Disk): State {
    State(Records(d.data), d.minted)
  }

  function Write(c: Codec, d: Disk, op: Op): Disk {
    match op
    case Append(_, mint, kept) =>
      var batch := Batch(c, LinesOf(d), op);
      Disk(Appended(d.data, batch, if kept < |Frame(batch)| then kept else |Frame(batch)|), d.minted + {mint})
    case Delete => d.(data := [])
  }

  function WriteAll(c: Codec, d: Disk, ops: seq<Op>): Disk
    decreases |ops|
  {
    if ops == [] then d else WriteAll(c, Write(c, d, ops[0]), ops[1..])
  }

  /** Headers and bodies are lines. */
  predicate Lined(c: Codec, op: Op) {
    op.Append? ==> Whole(op.body) && Whole(c.header(op.mint))
  }

  predicate WritableRun(c: Codec, d: Disk, ops: seq<Op>)
    decreases |ops|
  {
    ops == [] || (Lined(c, ops[0]) && Allowed(c, LinesOf(d), ops[0]) && WritableRun(c, Write(c, d, ops[0]), ops[1..]))
  }

  /** The line-level append that a byte-level one amounts to. */
  function Coarse(c: Codec, d: Disk, op: Op): Op {
    if op.Append? then
      var batch := Batch(c, LinesOf(d), op);
      Append(op.body, op.mint, Kept(batch, if op.kept < |Frame(batch)| then op.kept else |Frame(batch)|))
    else op
  }

  lemma WriteRefines(c: Codec, d: Disk, op: Op)
    requires Lined(c, op)
    ensures LinesOf(Write(c, d, op)) == Step(c, LinesOf(d), Coarse(c, d, op))
    ensures op.Append? && op.kept >= |Frame(Batch(c, LinesOf(d), op))| ==>
              && Succeeds(c, LinesOf(d), Coarse(c, d, op))
              && CompleteSize(Write(c, d, op).data) == CompleteSize(d.data) + |Frame(Batch(c, LinesOf(d), op))|
  {
    hide Records, Frame, CompleteSize, Kept;
    if op.Append? {
      var batch := Batch(c, LinesOf(d), op);
      var kept := if op.kept < |Frame(batch)| then op.kept else |Frame(batch)|;
      AppendCommits(d.data, batch, kept);
      if Kept(batch, kept) >= |batch| { assert batch[..Kept(batch, kept)] == batch; }
    } else {
      NoRecords([]);
    }
  }

  lemma {:induction false} WritesExtend(c: Codec, lines: seq<Bytes>, g: Gen, d: Disk, ops: seq<Op>)
    requires Faithful(c) && Inv(c, LinesOf(d)) && WritableRun(c, d, ops) && Extends(c, lines, g, LinesOf(d))
    ensures Inv(c, LinesOf(WriteAll(c, d, ops))) && Extends(c, lines, g, LinesOf(WriteAll(c, d, ops)))
    decreases |ops|
  {
    hide LinesOf, Write, Inv, Extends;
    if ops != [] {
      var o := Coarse(c, d, ops[0]);
      WriteRefines(c, d, ops[0]);
      StepKeeps(c, LinesOf(d), o);
      StepExtends(c, lines, g, LinesOf(d), o);
      WritesExtend(c, lines, g, Write(c, d, ops[0]), ops[1..]);
    }
  }

  /** Over every run of appends cut off at any byte, and of deletions: while the generation is the current one,
      every record boundary stays one at the same offset, with the same bytes before it. */
  lemma CursorsStayOnDisk(c: Codec, d: Disk, ops: seq<Op>, i: nat)
    requires Faithful(c) && Inv(c, LinesOf(d)) && WritableRun(c, d, ops) && Records(d.data) != [] && i <= |Records(d.data)|
    requires Current(c, LinesOf(WriteAll(c, d, ops))) == Current(c, LinesOf(d))
    ensures var t := WriteAll(c, d, ops);
            && i <= |Records(t.data)| && Offset(Records(t.data), i) == Offset(Records(d.data), i) <= CompleteSize(t.data)
            && Offset(Records(d.data), i) <= |d.data| && t.data[..Offset(Records(d.data), i)] == d.data[..Offset(Records(d.data), i)]
  {
    hide Records, Frame, CompleteSize;
    var t, rs := WriteAll(c, d, ops), Records(d.data);
    WritesExtend(c, rs, Current(c, LinesOf(d)).value, d, ops);
    var ts := Records(t.data);
    assert ts[..|rs|] == rs;
    assert ts[..i] == ts[..|rs|][..i] == rs[..i];
    PrefixBytes(d.data, i);
    PrefixBytes(t.data, i);
  }

  /** The bytes before a boundary are the frame of the records before it. */
  lemma PrefixBytes(b: Bytes, i: nat)
    requires i <= |Records(b)|
    ensures Offset(Records(b), i) <= CompleteSize(b) <= |b| && b[..Offset(Records(b), i)] == Frame(Records(b)[..i])
  {
    hide Records, Frame, CompleteSize;
    Decompose(b);
    FrameAt(Records(b), i);
    var n := Offset(Records(b), i);
    assert b[..n] == b[..CompleteSize(b)][..n];
  }
}
