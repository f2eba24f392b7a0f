/** What the lineage protocol guarantees over whole runs, and where its limits lie. */
module LineageTheorems {
  import opened LineageMachine
  import opened LineageSafety
  import opened LineageSteps

  lemma StepKeeps(exact: bool, w: World, op: Op)
    requires Inv(exact, w) && Allowed(exact, w, op)
    ensures Inv(exact, Step(w, op))
  {
    hide Inv, Allowed;
    match op
    case StartSave(_, _, _) => StartSaveKeeps(exact, w, op);
    case StartDelete(_, _) => StartDeleteKeeps(exact, w, op);
    case StartRecover(_, _) => StartRecoverKeeps(exact, w, op);
    case Crash(id) =>
      if id in w.running { CrashKeeps(exact, w, id); }
      else { assert Step(w, op) == w; }
    case Advance(id, at) =>
      if id in w.running {
        match w.running[id].phase
        case Begin => BeginKeeps(exact, w, id, at);
        case Marking(_) => MarkKeeps(exact, w, id, at);
        case Snapshot => SnapshotKeeps(exact, w, id, at);
        case Record => RecordKeeps(exact, w, id, at);
        case Publishing(_) => PublishKeeps(exact, w, id, at);
        case Dropping => DropKeeps(exact, w, id, at);
        case Clearing(_) => ClearKeeps(exact, w, id, at);
        case Final => FinalKeeps(exact, w, id, at);
      }
  }

  lemma {:induction false} RunKeeps(exact: bool, w: World, ops: seq<Op>)
    requires Inv(exact, w) && AllowedRun(exact, w, ops)
    ensures Inv(exact, Run(w, ops))
    decreases |ops|
  {
    hide Inv, Allowed;
    if ops != [] {
      StepKeeps(exact, w, ops[0]);
      RunKeeps(exact, Step(w, ops[0]), ops[1..]);
    }
  }

  // ------------------------------------------------------------------ the index over all runs

  function AllKeys(w: World): set<Key> {
    set id, i | id in w.recs && i in w.recs[id] :: Key(id, i)
  }

  /** The rows of all record partitions that belong in partition `p`. */
  function Wanted(w: World, p: Index): map<Key, Row> {
    map k | k in AllKeys(w) && Refers(p, k, w.recs[k.id][k.inc]) :: w.recs[k.id][k.inc]
  }

  /** In every reachable state an unmarked partition lists exactly the rows that refer to it, up to
      the deletion time of tombstones, and every marked one is listed in a surviving manifest. */
  lemma UnmarkedIndexIsComplete(ops: seq<Op>, p: Index)
    requires AllowedRun(false, Empty, ops)
    ensures var w := Run(Empty, ops);
            && (p !in w.marks ==>
                  && IndexOf(w, p).Keys == Wanted(w, p).Keys
                  && forall k :: k in IndexOf(w, p) ==> Same(IndexOf(w, p)[k], Wanted(w, p)[k]))
            && (p in w.marks ==> exists id :: id in w.manifests && p in w.manifests[id].paths)
  {
    var w := Run(Empty, ops);
    RunKeeps(false, Empty, ops);
    if p in w.marks { assert w.marks[p] in w.manifests; }
    else { forall k ensures Agree(false, w, p, k) { assert Agree(false, w, p, k) || MarkedBy(w, p, k.id); } AgreeIsWanted(false, w, p); }
  }

  lemma AgreeIsWanted(exact: bool, w: World, p: Index)
    requires forall k :: Agree(exact, w, p, k)
    ensures IndexOf(w, p).Keys == Wanted(w, p).Keys
    ensures forall k :: k in IndexOf(w, p) ==> Sim(exact, IndexOf(w, p)[k], Wanted(w, p)[k])
  {
    forall k ensures k in IndexOf(w, p) <==> k in Wanted(w, p) { assert Agree(exact, w, p, k); assert k == Key(k.id, k.inc); }
    forall k | k in IndexOf(w, p) ensures Sim(exact, IndexOf(w, p)[k], Wanted(w, p)[k]) { assert Agree(exact, w, p, k); }
  }

  /** Where no unmarked partition shows a row whose deletion time a recovery changes, the rows are equal. */
  lemma UnmarkedIndexIsExact(ops: seq<Op>, p: Index)
    requires AllowedRun(true, Empty, ops) && p !in Run(Empty, ops).marks
    ensures IndexOf(Run(Empty, ops), p) == Wanted(Run(Empty, ops), p)
  {
    var w := Run(Empty, ops);
    RunKeeps(true, Empty, ops);
    forall k ensures Agree(true, w, p, k) { assert Agree(true, w, p, k) || MarkedBy(w, p, k.id); }
    AgreeIsWanted(true, w, p);
  }

  /** That condition, on the state before the recovery, is exact: its record write keeps every unmarked
      partition exact if and only if no unmarked partition shows a row that the crashed mutation pruned at
      another time. */
  lemma ExactIffUnshown(w: World, id: Id, now: nat, at: Index)
    requires Inv(true, w) && id !in w.running && Recoverable(w, id) && Unlocked(w, w.manifests[id].paths)
    requires Exclusive(w, id, w.manifests[id].paths)
    ensures Core(true, Step(Step(w, StartRecover(id, now)), Advance(id, at))) <==> Unshown(w, id, now)
  {
    hide Inv, Unshown;
    var v := Step(w, StartRecover(id, now));
    if Unshown(w, id, now) {
      StartRecoverKeeps(true, w, StartRecover(id, now));
      RecordKeeps(true, v, id, at);
      CoreOf(Step(v, Advance(id, at)));
    }
    if Core(true, Step(v, Advance(id, at))) {
      ExactOnlyIfSteady(w, id, now, at);
      SteadyOnlyUnshown(w, id, now);
    }
  }

  lemma CoreOf(w: World)
    requires Inv(true, w)
    ensures Core(true, w)
  {
  }

  lemma ExactOnlyIfSteady(w: World, id: Id, now: nat, at: Index)
    requires Inv(true, w) && id !in w.running && Recoverable(w, id) && Unlocked(w, w.manifests[id].paths)
    requires Core(true, Step(Step(w, StartRecover(id, now)), Advance(id, at)))
    ensures Steady(true, w, id, Rebuilt(w, id, now))
  {
    hide Status, Recoverable, Rebuilt, Agree;
    var u := Step(Step(w, StartRecover(id, now)), Advance(id, at));
    var rows := Rebuilt(w, id, now);
    assert PartOf(u, id) == rows;
    forall p, i | !MarkedBy(w, p, id) ensures SteadyAt(true, p, Key(id, i), PartOf(w, id), rows) {
      assert Agree(true, w, p, Key(id, i)) || MarkedBy(w, p, id);
      assert Agree(true, u, p, Key(id, i)) || MarkedBy(u, p, id);
      SteadyFromAgree(w, u, p, Key(id, i));
    }
  }

  lemma SteadyFromAgree(w: World, u: World, p: Index, k: Key)
    requires IndexOf(u, p) == IndexOf(w, p) && Agree(true, w, p, k) && Agree(true, u, p, k)
    ensures SteadyAt(true, p, k, PartOf(w, k.id), PartOf(u, k.id))
  {
  }

  // ------------------------------------------------------------------ what the files then say

  lemma EmptyKeeps(exact: bool)
    ensures Inv(exact, Empty)
  {
  }

  /** In every reachable state, entry by entry: an unmarked edge partition holds exactly the rows of all record
      partitions that have its subject among theirs, an unmarked point partition the one row of its child if it
      does, with the row's subjects, metadata and life. */
  lemma UnmarkedHolds(ops: seq<Op>, p: Index, k: Key)
    requires AllowedRun(false, Empty, ops) && p !in Run(Empty, ops).marks
    ensures var w := Run(Empty, ops);
            && (p in w.idx && k in w.idx[p] <==>
                  && k.id in w.recs && k.inc in w.recs[k.id] && p.subject in w.recs[k.id][k.inc].subjects
                  && (p.Point? ==> p.child == k))
            && (p in w.idx && k in w.idx[p] ==>
                  && w.idx[p][k].subjects == w.recs[k.id][k.inc].subjects && w.idx[p][k].meta == w.recs[k.id][k.inc].meta
                  && w.idx[p][k].life == w.recs[k.id][k.inc].life)
  {
    hide Run, AllowedRun, Status;
    EmptyKeeps(false);
    RunKeeps(false, Empty, ops);
    assert Agree(false, Run(Empty, ops), p, k);
  }

  /** And for a session that no mutation is at and no crash has left open: an unmarked partition shows a
      retained row of it exactly for the incarnation and a subject of its current snapshot, with the snapshot's
      subjects and metadata. */
  lemma SavedIsIndexed(ops: seq<Op>, id: Id, i: Inc, p: Index)
    requires AllowedRun(false, Empty, ops) && p !in Run(Empty, ops).marks
    requires id !in Run(Empty, ops).running && id !in Run(Empty, ops).manifests
    ensures var w := Run(Empty, ops);
            && (p in w.idx && Key(id, i) in w.idx[p] && w.idx[p][Key(id, i)].life.Retained? <==>
                  id in w.snaps && w.snaps[id].inc == i && p.subject in w.snaps[id].subjects && (p.Point? ==> p.child == Key(id, i)))
            && (p in w.idx && Key(id, i) in w.idx[p] && w.idx[p][Key(id, i)].life.Retained? ==>
                  w.idx[p][Key(id, i)].subjects == w.snaps[id].subjects && w.idx[p][Key(id, i)].meta == w.snaps[id].meta)
  {
    hide Run, AllowedRun, Core, Locks, Listed;
    EmptyKeeps(false);
    var w := Run(Empty, ops);
    RunKeeps(false, Empty, ops);
    assert Status(false, w, id);
    UnmarkedHolds(ops, p, Key(id, i));
  }

  /** A mutation locks, marks and lists exactly: the incarnation's own edge partition, and for the record and
      every old row its edge and point partitions. */
  lemma AffectedExactly(id: Id, i: Inc, r: Row, prior: Part, p: Index)
    ensures p in Affected(id, i, r, prior) <==>
              || p == Edge(Key(id, i))
              || (p.subject in r.subjects && (p.Point? ==> p.child == Key(id, i)))
              || exists j :: j in prior && p.subject in prior[j].subjects && (p.Point? ==> p.child == Key(id, j))
  {
    InSubjectPaths(Key(id, i), r, p);
    forall j | j in prior
      ensures p in SubjectPaths(Key(id, j), prior[j]) <==> p.subject in prior[j].subjects && (p.Point? ==> p.child == Key(id, j))
    {
      InSubjectPaths(Key(id, j), prior[j], p);
    }
  }

  lemma InSubjectPaths(k: Key, r: Row, p: Index)
    ensures p in SubjectPaths(k, r) <==> p.subject in r.subjects && (p.Point? ==> p.child == k)
  {
    if p.subject in r.subjects && p.Point? && p.child == k { assert p == Point(p.subject, k); }
    if p.subject in r.subjects && p.Edge? { assert p == Edge(p.subject); }
  }

  // ------------------------------------------------------------------ the premise on crashes

  /** At most one mutation has crashed and not been recovered. */
  predicate OneCrash(w: World) {
    forall x, y :: x in w.manifests && x !in w.running && y in w.manifests && y !in w.running ==> x == y
  }

  ghost predicate OneCrashRun(w: World, ops: seq<Op>)
    decreases |ops|
  {
    OneCrash(w) && (ops == [] || OneCrashRun(Step(w, ops[0]), ops[1..]))
  }

  lemma OneCrashAllowed(w: World, op: Op)
    requires Inv(false, w) && OneCrash(w)
    ensures Allowed(false, w, op)
  {
    if op.StartRecover? && op.id !in w.running && Recoverable(w, op.id) && Unlocked(w, w.manifests[op.id].paths) {
      forall p | p in w.manifests[op.id].paths && p in w.marks ensures MarkedBy(w, p, op.id) {
        var y := w.marks[p];
        assert Status(false, w, y);
      }
    }
  }

  lemma {:induction false} OneCrashRunAllowed(w: World, ops: seq<Op>)
    requires Inv(false, w) && OneCrashRun(w, ops)
    ensures AllowedRun(false, w, ops)
    decreases |ops|
  {
    hide Inv, Allowed;
    if ops != [] {
      OneCrashAllowed(w, ops[0]);
      StepKeeps(false, w, ops[0]);
      OneCrashRunAllowed(Step(w, ops[0]), ops[1..]);
    }
  }

  /** So with at most one crashed, unrecovered mutation at a time, every unmarked partition is complete and
      every marked one listed. */
  lemma UnmarkedIndexUnderOneCrash(ops: seq<Op>, p: Index)
    requires OneCrashRun(Empty, ops)
    ensures var w := Run(Empty, ops);
            && (p !in w.marks ==>
                  && IndexOf(w, p).Keys == Wanted(w, p).Keys
                  && forall k :: k in IndexOf(w, p) ==> Same(IndexOf(w, p)[k], Wanted(w, p)[k]))
            && (p in w.marks ==> exists id :: id in w.manifests && p in w.manifests[id].paths)
  {
    hide Run, OneCrashRun, AllowedRun, Wanted;
    OneCrashRunAllowed(Empty, ops);
    UnmarkedIndexIsComplete(ops, p);
  }

  // ------------------------------------------------------------------ recovery

  /** What a recovery that reaches its end leaves behind. */
  lemma RecoveryLeaves(exact: bool, w: World, id: Id, at: Index)
    requires Inv(exact, w) && id in w.running && w.running[id].goal.Recover? && w.running[id].phase.Final?
    ensures var v := Step(w, Advance(id, at));
            && id in w.manifests && id !in v.manifests
            && (forall p :: p in w.manifests[id].paths ==> p !in v.marks)
            && (id in v.snaps ==> forall i :: OneRetained(PartOf(v, id), i) <==> i == v.snaps[id].inc)
            && (id !in v.snaps ==> forall i :: i in PartOf(v, id) ==> PartOf(v, id)[i].life.Pruned?)
  {
    assert Status(exact, w, id);
    FinalCoherent(exact, w, id);
    assert PartOf(Step(w, Advance(id, at)), id) == PartOf(w, id);
  }

  /** A crashed Delete can always be recovered. A crashed Save can be recovered exactly when there is
      a snapshot whose own edge partition the manifest lists. */
  lemma RecoverableExactly(exact: bool, w: World, id: Id)
    requires Inv(exact, w) && id in w.manifests && id !in w.running
    ensures id in w.origin
    ensures w.origin[id].OfDelete? ==> Recoverable(w, id)
    ensures w.origin[id].OfSave? ==>
              (Recoverable(w, id) <==> id in w.snaps && Edge(Key(id, w.snaps[id].inc)) in w.manifests[id].paths)
  {
    assert Status(exact, w, id);
    var m, o := w.manifests[id], w.origin[id];
    match o
    case OfDelete(b) =>
      var s := b.value;
      if id !in w.snaps {
        assert OneRetained(m.prior, s.inc);
        RetainedUnique(m.prior, s.inc, 1);
        AffectedSubjects(id, s.inc, RowOf(s), Stamp(m.prior[s.inc], 1), m.prior);
      }
    case OfSave(b, a) =>
      if id in w.snaps && SnapOf(w, id) == b {
        var s := b.value;
        assert SubjectPaths(Key(id, s.inc), RowOf(s)) <= m.paths by {
          forall p | p in SubjectPaths(Key(id, s.inc), RowOf(s)) ensures p in m.paths {
            assert s.inc in m.prior && p in SubjectPaths(Key(id, s.inc), m.prior[s.inc]);
            assert p in Affected(id, a.inc, RowOf(a), m.prior);
          }
        }
        assert Affected(id, s.inc, RowOf(s), m.prior) <= m.paths + {Edge(Key(id, s.inc))};
      }
  }

  /** So a Save over an existing snapshot that keeps the incarnation is recoverable at every step. */
  lemma SameIncarnationRecoverable(exact: bool, w: World, id: Id)
    requires Inv(exact, w) && id in w.manifests && id !in w.running
    requires id in w.origin && w.origin[id].OfSave? && w.origin[id].before.Some?
    requires w.origin[id].before.value.inc == w.origin[id].after.inc
    ensures Recoverable(w, id)
  {
    assert Status(exact, w, id);
    RecoverableExactly(exact, w, id);
    var m, a := w.manifests[id], w.origin[id].after;
    assert Edge(Key(id, a.inc)) in Affected(id, a.inc, RowOf(a), m.prior);
    assert SnapOf(w, id).Some? && SnapOf(w, id).value.inc == a.inc;
  }
}
