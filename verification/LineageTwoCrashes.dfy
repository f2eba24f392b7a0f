/** A run in which two mutations have crashed before either is recovered, and recovery of the first clears
    the marker of the second. It shows that the premise of the lineage theorems is needed. */
module LineageTwoCrashes {
  import opened LineageMachine
  import opened LineageSafety
  import opened LineageCatalog

  // ------------------------------------------------------------------ a first session, alone

  /** Session `k` as saved by itself: it names no subject. */
  function Plain(k: Key): Snap {
    Snap(k.inc, [], "")
  }

  function PlainProc(k: Key): Proc {
    SaveProc(Plain(k), map[], 0, {Edge(k)})
  }

  lemma PlainPaths(k: Key)
    ensures Affected(k.id, k.inc, RowOf(Plain(k)), map[]) == {Edge(k)}
    ensures NewRows(k.inc, RowOf(Plain(k)), map[], 0) == map[k.inc := RowOf(Plain(k))]
    ensures forall present: map<Key, Row> :: present == map[] ==> Published(Edge(k), k.id, map[k.inc := RowOf(Plain(k))], present) == map[]
    ensures ToSet([Edge(k)][0..]) == {Edge(k)}
  {
    assert [Edge(k)][0..] == [Edge(k)];
  }

  lemma PlainMarked(k: Key) returns (ops: seq<Op>)
    ensures Run(Empty, ops) == Empty.(
              manifests := map[k.id := Manifest({Edge(k)}, map[])], origin := map[k.id := OfSave(None, Plain(k))],
              marks := map[Edge(k) := k.id], running := map[k.id := PlainProc(k).(phase := Snapshot)])
  {
    hide Step, Run, Affected, NewRows, Published, ToSet;
    PlainPaths(k);
    var id, e, pr := k.id, Edge(k), PlainProc(k);
    ops := [];
    RunNone(Empty);
    StartSaveStep(Empty, id, Plain(k), 0, {e});
    ops := Then(Empty, ops, StartSave(id, Plain(k), 0));
    BeginStep(Run(Empty, ops), id, pr, e);
    ops := Then(Empty, ops, Advance(id, e));
    MarkStep(Run(Empty, ops), id, pr, [e], 0);
    ops := Then(Empty, ops, Advance(id, e));
  }

  lemma RunNone(w: World)
    ensures Run(w, []) == w
  {
  }

  lemma Then(w: World, ops: seq<Op>, op: Op) returns (more: seq<Op>)
    ensures more == ops + [op] && Run(w, more) == Step(Run(w, ops), op)
  {
    more := ops + [op];
    RunSnoc(w, ops, op);
  }

  /** The files of session `k` when it has crashed with everything done but the manifest. */
  function PlainWorld(k: Key): World {
    World(map[k.id := map[k.inc := RowOf(Plain(k))]], map[Edge(k) := map[]], map[k.id := Manifest({Edge(k)}, map[])],
          map[], map[k.id := Plain(k)], map[], map[k.id := OfSave(None, Plain(k))])
  }

  lemma PlainCrashed(k: Key) returns (ops: seq<Op>)
    ensures Run(Empty, ops) == PlainWorld(k)
  {
    hide Step, Run, Affected, NewRows, Published, ToSet;
    PlainPaths(k);
    var id, e, pr := k.id, Edge(k), PlainProc(k);
    ops := PlainMarked(k);
    SnapshotStep(Run(Empty, ops), id, pr.(phase := Snapshot), e);
    ops := Then(Empty, ops, Advance(id, e));
    RecordStep(Run(Empty, ops), id, pr.(phase := Record), e);
    ops := Then(Empty, ops, Advance(id, e));
    PublishStep(Run(Empty, ops), id, pr, [e], 0);
    ops := Then(Empty, ops, Advance(id, e));
    ClearStep(Run(Empty, ops), id, pr, [e], 0);
    ops := Then(Empty, ops, Advance(id, e));
    ops := Then(Empty, ops, Crash(id));
    CrashStep(Run(Empty, ops[..|ops| - 1]), id);
    assert ops == ops[..|ops| - 1] + [Crash(id)];
  }

  lemma CrashStep(w: World, id: Id)
    ensures Step(w, Crash(id)) == w.(running := w.running - {id})
  {
  }

  // ------------------------------------------------------------------ a second session, naming the first

  function Child(a: Key, b: Key): Snap {
    Snap(b.inc, [a], "")
  }

  function ChildPaths(a: Key, b: Key): seq<Index> {
    [Edge(a), Edge(b), Point(a, b)]
  }

  function ChildProc(a: Key, b: Key): Proc {
    SaveProc(Child(a, b), map[], 0, ToSet(ChildPaths(a, b)))
  }

  lemma ChildAffected(a: Key, b: Key)
    requires a.id != b.id
    ensures Affected(b.id, b.inc, RowOf(Child(a, b)), map[]) == ToSet(ChildPaths(a, b)) && Distinct(ChildPaths(a, b))
    ensures NewRows(b.inc, RowOf(Child(a, b)), map[], 0) == map[b.inc := RowOf(Child(a, b))]
    ensures ChildPaths(a, b)[0..] == ChildPaths(a, b)
  {
    var ps := ChildPaths(a, b);
    assert ps[0] in ps && ps[1] in ps && ps[2] in ps;
    assert forall p :: p in ToSet(ps) <==> p == Edge(a) || p == Edge(b) || p == Point(a, b);
    assert SubjectPaths(b, RowOf(Child(a, b))) == {Edge(a), Point(a, b)};
  }

  /** All three partitions are marked. */
  function MarkedWorld(a: Key, b: Key): World {
    var w := PlainWorld(a);
    w.(manifests := w.manifests[b.id := Manifest(ToSet(ChildPaths(a, b)), map[])],
       origin := w.origin[b.id := OfSave(None, Child(a, b))],
       marks := map[Edge(a) := b.id][Edge(b) := b.id][Point(a, b) := b.id],
       running := map[b.id := ChildProc(a, b).(phase := Snapshot)])
  }

  lemma ChildMarked(a: Key, b: Key) returns (ops: seq<Op>)
    requires a.id != b.id
    ensures Run(PlainWorld(a), ops) == MarkedWorld(a, b)
  {
    hide Step, Run, Affected, NewRows, ToSet, Distinct;
    ChildAffected(a, b);
    var w, id, ps, pr := PlainWorld(a), b.id, ChildPaths(a, b), ChildProc(a, b);
    ops := [];
    RunNone(w);
    StartSaveStep(w, id, Child(a, b), 0, ToSet(ps));
    ops := Then(w, ops, StartSave(id, Child(a, b), 0));
    BeginStep(Run(w, ops), id, pr, ps[0]);
    ops := Then(w, ops, Advance(id, ps[0]));
    MarkStep(Run(w, ops), id, pr, ps, 0);
    ops := Then(w, ops, Advance(id, ps[0]));
    MarkStep(Run(w, ops), id, pr, ps, 1);
    ops := Then(w, ops, Advance(id, ps[1]));
    MarkStep(Run(w, ops), id, pr, ps, 2);
    ops := Then(w, ops, Advance(id, ps[2]));
  }

  /** The record of the second session is written, its index partitions are not. */
  function ChildWorld(a: Key, b: Key): World {
    var w := MarkedWorld(a, b);
    w.(snaps := w.snaps[b.id := Child(a, b)], recs := w.recs[b.id := map[b.inc := RowOf(Child(a, b))]], running := map[])
  }

  lemma ChildCrashed(a: Key, b: Key) returns (ops: seq<Op>)
    requires a.id != b.id
    ensures Run(PlainWorld(a), ops) == ChildWorld(a, b)
  {
    hide Step, Run, Affected, NewRows, ToSet, Distinct;
    ChildAffected(a, b);
    var w, id, p, pr := PlainWorld(a), b.id, Edge(a), ChildProc(a, b);
    ops := ChildMarked(a, b);
    SnapshotStep(Run(w, ops), id, pr.(phase := Snapshot), p);
    ops := Then(w, ops, Advance(id, p));
    RecordStep(Run(w, ops), id, pr.(phase := Record), p);
    ops := Then(w, ops, Advance(id, p));
    CrashStep(Run(w, ops), id);
    ops := Then(w, ops, Crash(id));
  }

  // ------------------------------------------------------------------ recovery of the first

  lemma FirstRecovered(a: Key, b: Key) returns (ops: seq<Op>)
    requires a.id != b.id
    ensures var w := ChildWorld(a, b);
            var v := Run(w, ops);
            Edge(a) !in v.marks && v.idx == w.idx && v.recs == w.recs
  {
    hide Step, Run, Affected, NewRows, Published, ToSet;
    PlainPaths(a);
    var w, id, e := ChildWorld(a, b), a.id, Edge(a);
    var pr := RecoverProc(a.inc, RowOf(Plain(a)), w.manifests[id], 0);
    ops := [];
    RunNone(w);
    StartRecoverStep(w, id, a.inc, RowOf(Plain(a)), 0);
    ops := Then(w, ops, StartRecover(id, 0));
    RecordStep(Run(w, ops), id, pr, e);
    ops := Then(w, ops, Advance(id, e));
    PublishStep(Run(w, ops), id, pr, [e], 0);
    ops := Then(w, ops, Advance(id, e));
    ClearStep(Run(w, ops), id, pr, [e], 0);
    ops := Then(w, ops, Advance(id, e));
  }

  lemma {:induction false} RunJoin(w: World, xs: seq<Op>, ys: seq<Op>)
    ensures Run(w, xs + ys) == Run(Run(w, xs), ys)
    decreases |xs|
  {
    if xs == [] { assert xs + ys == ys; }
    else {
      assert (xs + ys)[0] == xs[0] && (xs + ys)[1..] == xs[1..] + ys;
      RunJoin(Step(w, xs[0]), xs[1..], ys);
    }
  }

  /** From the empty catalog, for any two sessions: a run after which the edge partition of the first is
      unmarked although it lacks the row of the second that refers to it. */
  lemma TwoCrashesLoseARow(a: Key, b: Key) returns (ops: seq<Op>)
    requires a.id != b.id
    ensures var v := Run(Empty, ops);
            && Edge(a) !in v.marks && b !in IndexOf(v, Edge(a))
            && b.inc in PartOf(v, b.id) && Refers(Edge(a), b, PartOf(v, b.id)[b.inc])
            && !Core(false, v)
  {
    hide Step, Run;
    var xs := PlainCrashed(a);
    var ys := ChildCrashed(a, b);
    var zs := FirstRecovered(a, b);
    ops := xs + ys + zs;
    RunJoin(Empty, xs + ys, zs);
    RunJoin(Empty, xs, ys);
    var v := Run(Empty, ops);
    assert !Agree(false, v, Edge(a), b) && !MarkedBy(v, Edge(a), b.id);
  }
}
