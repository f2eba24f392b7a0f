/** A run in which a Delete crashes between clearing two markers. Its recovery stamps the tombstone with a
    new deletion time, and a partition that is already unmarked keeps showing the old one: index rows
    and record rows agree only up to that time. */
module LineageRestamp {
  import opened LineageMachine
  import opened LineageSafety
  import opened LineageSteps
  import opened LineageCatalog
  import opened LineageTwoCrashes

  /** The row of session `b`, which names `a`, retained or deleted. */
  function RowAt(a: Key, b: Key, life: Life, at: nat): Row {
    Row([a], "", life, at)
  }

  function Rows(a: Key, b: Key, life: Life, at: nat): Part {
    map[b.inc := RowAt(a, b, life, at)]
  }

  function Indexed(a: Key, b: Key, life: Life, at: nat): map<Index, map<Key, Row>> {
    map[Edge(a) := map[b := RowAt(a, b, life, at)], Edge(b) := map[], Point(a, b) := map[b := RowAt(a, b, life, at)]]
  }

  lemma PublishedOne(p: Index, a: Key, b: Key, life: Life, at: nat, present: map<Key, Row>)
    requires present.Keys <= {b}
    ensures Published(p, b.id, Rows(a, b, life, at), present) ==
            if Refers(p, b, RowAt(a, b, life, at)) then map[b := RowAt(a, b, life, at)] else map[]
  {
    hide Refers;
    var rows := Rows(a, b, life, at);
    var m := Published(p, b.id, rows, present);
    assert forall i :: i in rows <==> i == b.inc;
    forall k ensures k in m <==> k == b && Refers(p, b, RowAt(a, b, life, at)) {
      assert b == Key(b.id, b.inc);
    }
  }

  lemma PublishedRows(a: Key, b: Key, life: Life, at: nat, present: map<Key, Row>)
    requires a.id != b.id && present.Keys <= {b}
    ensures Published(Edge(a), b.id, Rows(a, b, life, at), present) == map[b := RowAt(a, b, life, at)]
    ensures Published(Point(a, b), b.id, Rows(a, b, life, at), present) == map[b := RowAt(a, b, life, at)]
    ensures Published(Edge(b), b.id, Rows(a, b, life, at), present) == map[]
  {
    hide Published;
    PublishedOne(Edge(a), a, b, life, at, present);
    PublishedOne(Point(a, b), a, b, life, at, present);
    PublishedOne(Edge(b), a, b, life, at, present);
  }

  // ------------------------------------------------------------------ a finished Save

  function Marked(a: Key, b: Key): map<Index, Id> {
    map[Edge(a) := b.id][Edge(b) := b.id][Point(a, b) := b.id]
  }

  function SavingWorld(a: Key, b: Key, phase: Phase): World {
    Empty.(manifests := map[b.id := Manifest(ToSet(ChildPaths(a, b)), map[])],
           origin := map[b.id := OfSave(None, Child(a, b))], marks := Marked(a, b),
           running := map[b.id := ChildProc(a, b).(phase := phase)])
  }

  lemma SaveMarks(a: Key, b: Key) returns (ops: seq<Op>)
    requires a.id != b.id
    ensures Run(Empty, ops) == SavingWorld(a, b, Snapshot)
  {
    hide Step, Run, Affected, NewRows, ToSet, Distinct;
    ChildAffected(a, b);
    var id, ps, pr := b.id, ChildPaths(a, b), ChildProc(a, b);
    ops := [];
    RunNone(Empty);
    StartSaveStep(Empty, id, Child(a, b), 0, ToSet(ps));
    ops := Then(Empty, ops, StartSave(id, Child(a, b), 0));
    BeginStep(Run(Empty, ops), id, pr, ps[0]);
    ops := Then(Empty, ops, Advance(id, ps[0]));
    MarkStep(Run(Empty, ops), id, pr, ps, 0);
    ops := Then(Empty, ops, Advance(id, ps[0]));
    MarkStep(Run(Empty, ops), id, pr, ps, 1);
    ops := Then(Empty, ops, Advance(id, ps[1]));
    MarkStep(Run(Empty, ops), id, pr, ps, 2);
    ops := Then(Empty, ops, Advance(id, ps[2]));
  }

  function PublishedWorld(a: Key, b: Key): World {
    SavingWorld(a, b, Clearing(ToSet(ChildPaths(a, b)))).(
      snaps := map[b.id := Child(a, b)], recs := map[b.id := Rows(a, b, Retained, 0)], idx := Indexed(a, b, Retained, 0))
  }

  lemma SavePublishes(a: Key, b: Key) returns (ops: seq<Op>)
    requires a.id != b.id
    ensures Run(SavingWorld(a, b, Snapshot), ops) == PublishedWorld(a, b)
  {
    hide Step, Run, Affected, NewRows, Published, ToSet, Distinct;
    ChildAffected(a, b);
    PublishedRows(a, b, Retained, 0, map[]);
    var w, id, ps, pr := SavingWorld(a, b, Snapshot), b.id, ChildPaths(a, b), ChildProc(a, b);
    ops := [];
    RunNone(w);
    SnapshotStep(w, id, pr.(phase := Snapshot), ps[0]);
    ops := Then(w, ops, Advance(id, ps[0]));
    RecordStep(Run(w, ops), id, pr.(phase := Record), ps[0]);
    ops := Then(w, ops, Advance(id, ps[0]));
    PublishStep(Run(w, ops), id, pr, ps, 0);
    ops := Then(w, ops, Advance(id, ps[0]));
    PublishStep(Run(w, ops), id, pr, ps, 1);
    ops := Then(w, ops, Advance(id, ps[1]));
    PublishStep(Run(w, ops), id, pr, ps, 2);
    ops := Then(w, ops, Advance(id, ps[2]));
  }

  function SavedWorld(a: Key, b: Key): World {
    World(map[b.id := Rows(a, b, Retained, 0)], Indexed(a, b, Retained, 0), map[], map[], map[b.id := Child(a, b)], map[], map[])
  }

  lemma SaveClears(a: Key, b: Key) returns (ops: seq<Op>)
    requires a.id != b.id
    ensures Run(PublishedWorld(a, b), ops) == SavedWorld(a, b)
  {
    hide Step, Run, Affected, NewRows, Published, ToSet, Distinct;
    ChildAffected(a, b);
    var w, id, ps, pr := PublishedWorld(a, b), b.id, ChildPaths(a, b), ChildProc(a, b);
    ops := [];
    RunNone(w);
    ClearStep(w, id, pr, ps, 0);
    ops := Then(w, ops, Advance(id, ps[0]));
    ClearStep(Run(w, ops), id, pr, ps, 1);
    ops := Then(w, ops, Advance(id, ps[1]));
    ClearStep(Run(w, ops), id, pr, ps, 2);
    ops := Then(w, ops, Advance(id, ps[2]));
    FinalStep(Run(w, ops), id, ps[0]);
    ops := Then(w, ops, Advance(id, ps[0]));
  }

  // ------------------------------------------------------------------ a Delete that crashes

  function DropProc(a: Key, b: Key): Proc {
    DeleteProc(b.inc, Rows(a, b, Retained, 0), 1, ToSet(ChildPaths(a, b)))
  }

  lemma DeleteAffected(a: Key, b: Key, at: nat)
    requires a.id != b.id
    ensures var prior := Rows(a, b, Retained, 0);
            && OneRetained(prior, b.inc)
            && Affected(b.id, b.inc, prior[b.inc], prior) == ToSet(ChildPaths(a, b))
            && Affected(b.id, b.inc, Stamp(prior[b.inc], at), prior) == ToSet(ChildPaths(a, b))
            && NewRows(b.inc, Stamp(prior[b.inc], at), prior, at) == Rows(a, b, Pruned, at)
  {
    ChildAffected(a, b);
    var prior := Rows(a, b, Retained, 0);
    assert SubjectPaths(b, prior[b.inc]) == {Edge(a), Point(a, b)} == SubjectPaths(b, RowOf(Child(a, b)));
    AffectedSubjects(b.id, b.inc, prior[b.inc], Stamp(prior[b.inc], at), prior);
    assert b == Key(b.id, b.inc);
  }

  function DroppingWorld(a: Key, b: Key): World {
    SavedWorld(a, b).(
      manifests := map[b.id := Manifest(ToSet(ChildPaths(a, b)), Rows(a, b, Retained, 0))],
      origin := map[b.id := OfDelete(Some(Child(a, b)))], marks := Marked(a, b),
      running := map[b.id := DropProc(a, b).(phase := Record)])
  }

  lemma DeleteMarks(a: Key, b: Key) returns (ops: seq<Op>)
    requires a.id != b.id
    ensures Run(SavedWorld(a, b), ops) == DroppingWorld(a, b)
  {
    hide Step, Run, Affected, NewRows, ToSet, Distinct, OneRetained;
    ChildAffected(a, b);
    DeleteAffected(a, b, 1);
    var w, id, ps, pr := SavedWorld(a, b), b.id, ChildPaths(a, b), DropProc(a, b);
    ops := [];
    RunNone(w);
    StartDeleteStep(w, id, b.inc, 1, ToSet(ps));
    ops := Then(w, ops, StartDelete(id, 1));
    BeginStep(Run(w, ops), id, pr, ps[0]);
    ops := Then(w, ops, Advance(id, ps[0]));
    MarkStep(Run(w, ops), id, pr, ps, 0);
    ops := Then(w, ops, Advance(id, ps[0]));
    MarkStep(Run(w, ops), id, pr, ps, 1);
    ops := Then(w, ops, Advance(id, ps[1]));
    MarkStep(Run(w, ops), id, pr, ps, 2);
    ops := Then(w, ops, Advance(id, ps[2]));
  }

  /** Tombstones are published at time 1, the snapshot is gone, the first marker is cleared. */
  function DroppedWorld(a: Key, b: Key): World {
    DroppingWorld(a, b).(
      recs := map[b.id := Rows(a, b, Pruned, 1)], idx := Indexed(a, b, Pruned, 1), snaps := map[],
      marks := Marked(a, b) - {Edge(a)}, running := map[])
  }

  lemma IndexedUpdates(a: Key, b: Key, life: Life, at: nat, next: Life, after: nat)
    requires a.id != b.id
    ensures var i := Indexed(a, b, life, at);
            && Edge(a) in i && i[Edge(a)] == map[b := RowAt(a, b, life, at)]
            && Edge(b) in i && i[Edge(b)] == map[]
            && Point(a, b) in i && i[Point(a, b)] == map[b := RowAt(a, b, life, at)]
            && i[Edge(a) := map[b := RowAt(a, b, next, after)]][Edge(b) := map[]][Point(a, b) := map[b := RowAt(a, b, next, after)]]
               == Indexed(a, b, next, after)
  {
  }

  /** The record and the first partition are published. */
  function HalfWorld(a: Key, b: Key): World {
    DroppingWorld(a, b).(
      recs := map[b.id := Rows(a, b, Pruned, 1)],
      idx := Indexed(a, b, Retained, 0)[Edge(a) := map[b := RowAt(a, b, Pruned, 1)]],
      running := map[b.id := DropProc(a, b).(phase := Publishing(ToSet(ChildPaths(a, b)[1..])))])
  }

  lemma DeletePublishesFirst(a: Key, b: Key) returns (ops: seq<Op>)
    requires a.id != b.id
    ensures Run(DroppingWorld(a, b), ops) == HalfWorld(a, b)
  {
    hide Step, Run, Affected, NewRows, Published, ToSet, Distinct, OneRetained, Indexed, RowAt;
    IndexedUpdates(a, b, Retained, 0, Pruned, 1);
    ChildAffected(a, b);
    DeleteAffected(a, b, 1);
    PublishedRows(a, b, Pruned, 1, map[b := RowAt(a, b, Retained, 0)]);
    var w, id, ps, pr := DroppingWorld(a, b), b.id, ChildPaths(a, b), DropProc(a, b);
    ops := [];
    RunNone(w);
    RecordStep(w, id, pr.(phase := Record), ps[0]);
    ops := Then(w, ops, Advance(id, ps[0]));
    PublishStep(Run(w, ops), id, pr, ps, 0);
    ops := Then(w, ops, Advance(id, ps[0]));
  }

  lemma DeletePublishesRest(a: Key, b: Key) returns (ops: seq<Op>)
    requires a.id != b.id
    ensures Run(HalfWorld(a, b), ops) == DroppingWorld(a, b).(
              recs := map[b.id := Rows(a, b, Pruned, 1)], idx := Indexed(a, b, Pruned, 1),
              running := map[b.id := DropProc(a, b).(phase := Dropping)])
  {
    hide Step, Run, Affected, NewRows, Published, ToSet, Distinct, OneRetained, Indexed, RowAt;
    IndexedUpdates(a, b, Retained, 0, Pruned, 1);
    ChildAffected(a, b);
    DeleteAffected(a, b, 1);
    PublishedRows(a, b, Pruned, 1, map[]);
    PublishedRows(a, b, Pruned, 1, map[b := RowAt(a, b, Retained, 0)]);
    var w, id, ps, pr := HalfWorld(a, b), b.id, ChildPaths(a, b), DropProc(a, b);
    ops := [];
    RunNone(w);
    PublishStep(w, id, pr, ps, 1);
    ops := Then(w, ops, Advance(id, ps[1]));
    PublishStep(Run(w, ops), id, pr, ps, 2);
    ops := Then(w, ops, Advance(id, ps[2]));
  }

  lemma DeleteCrashes(a: Key, b: Key) returns (ops: seq<Op>)
    requires a.id != b.id
    ensures Run(DroppingWorld(a, b), ops) == DroppedWorld(a, b)
  {
    hide Step, Run, Affected, NewRows, Published, ToSet, Distinct, OneRetained;
    ChildAffected(a, b);
    var w, id, ps, pr := DroppingWorld(a, b), b.id, ChildPaths(a, b), DropProc(a, b);
    var xs := DeletePublishesFirst(a, b);
    var ys := DeletePublishesRest(a, b);
    ops := xs + ys;
    RunJoin(w, xs, ys);
    DropStep(Run(w, ops), id, pr.(phase := Dropping), ps[0]);
    ops := Then(w, ops, Advance(id, ps[0]));
    ClearStep(Run(w, ops), id, pr, ps, 0);
    ops := Then(w, ops, Advance(id, ps[0]));
    CrashStep(Run(w, ops), id);
    ops := Then(w, ops, Crash(id));
  }

  // ------------------------------------------------------------------ and its recovery

  lemma RecoveryStamps(a: Key, b: Key) returns (ops: seq<Op>)
    requires a.id != b.id
    ensures var w := DroppedWorld(a, b);
            var v := Run(w, ops);
            v.marks == w.marks && v.idx == w.idx && v.recs == map[b.id := Rows(a, b, Pruned, 2)]
  {
    hide Step, Run, Affected, NewRows, Published, ToSet, Distinct, OneRetained, Recovered;
    DeleteAffected(a, b, 2);
    var w, id := DroppedWorld(a, b), b.id;
    var prior := Rows(a, b, Retained, 0);
    RetainedUnique(prior, b.inc, 2);
    var row := Stamp(prior[b.inc], 2);
    ops := [];
    RunNone(w);
    StartRecoverStep(w, id, b.inc, row, 2);
    ops := Then(w, ops, StartRecover(id, 2));
    RecordStep(Run(w, ops), id, RecoverProc(b.inc, row, w.manifests[id], 2), Edge(a));
    ops := Then(w, ops, Advance(id, Edge(a)));
  }

  /** From the empty catalog: an unmarked partition whose row is not the record row, with one crash only. */
  lemma RecoveryRestamps(a: Key, b: Key) returns (ops: seq<Op>)
    requires a.id != b.id
    ensures var v := Run(Empty, ops);
            && Edge(a) !in v.marks && b in IndexOf(v, Edge(a)) && b.inc in PartOf(v, b.id)
            && IndexOf(v, Edge(a))[b].deletedAt == 1 && PartOf(v, b.id)[b.inc].deletedAt == 2
            && !Core(true, v)
  {
    hide Step, Run;
    var a1 := SaveMarks(a, b);
    var a2 := SavePublishes(a, b);
    var a3 := SaveClears(a, b);
    var a4 := DeleteMarks(a, b);
    var a5 := DeleteCrashes(a, b);
    var a6 := RecoveryStamps(a, b);
    ops := a1 + a2 + a3 + a4 + a5 + a6;
    RunJoin(Empty, a1, a2);
    RunJoin(Empty, a1 + a2, a3);
    RunJoin(Empty, a1 + a2 + a3, a4);
    RunJoin(Empty, a1 + a2 + a3 + a4, a5);
    RunJoin(Empty, a1 + a2 + a3 + a4 + a5, a6);
    var v := Run(Empty, ops);
    assert !Agree(true, v, Edge(a), b) && !MarkedBy(v, Edge(a), b.id);
  }
}
