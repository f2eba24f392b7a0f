/** Every file step, crash and restart keeps the lineage invariant. */
module LineageSteps {
  import opened LineageMachine
  import opened LineageSafety

  // ------------------------------------------------------------------ facts about rows

  lemma AffectedCovers(id: Id, i: Inc, r: Row, prior: Part, now: nat, paths: set<Index>)
    requires Affected(id, i, r, prior) <= paths
    ensures Within(id, prior, paths)
    ensures Within(id, NewRows(i, r, prior, now), paths)
    ensures Edge(Key(id, i)) in paths
  {
    forall p, j | j in prior && Refers(p, Key(id, j), prior[j]) ensures p in paths {
      assert p in SubjectPaths(Key(id, j), prior[j]);
    }
    var rows := NewRows(i, r, prior, now);
    forall p, j | j in rows && Refers(p, Key(id, j), rows[j]) ensures p in paths {
      if j == i { assert p in SubjectPaths(Key(id, i), r); }
      else { assert p in SubjectPaths(Key(id, j), prior[j]); }
    }
  }

  lemma AffectedOwn(id: Id, i: Inc, r: Row, prior: Part)
    ensures Own(id, Affected(id, i, r, prior))
  {
  }

  lemma AffectedSubjects(id: Id, i: Inc, r: Row, s: Row, prior: Part)
    requires r.subjects == s.subjects
    ensures Affected(id, i, r, prior) == Affected(id, i, s, prior)
  {
    assert SubjectPaths(Key(id, i), r) == SubjectPaths(Key(id, i), s);
  }

  lemma RetainedUnique(prior: Part, i: Inc, now: nat)
    requires OneRetained(prior, i)
    ensures forall j :: OneRetained(prior, j) ==> j == i
    ensures Recovered(None, prior, now) == Some((i, Stamp(prior[i], now)))
  {
  }

  /** Recovering a mutation that never got past marking writes back the rows it found. */
  lemma Rollback(prior: Part, s: Snap, now: nat)
    requires Coherent(prior, Some(s))
    ensures NewRows(s.inc, RowOf(s), prior, now) == prior
  {
  }

  lemma NewRowsAlike(i: Inc, r: Row, s: Row, prior: Part, n: nat, m: nat)
    requires Same(r, s) && (r == s || (i in prior && prior[i].life.Retained? && r.life.Pruned?))
    ensures Alike(prior, NewRows(i, r, prior, n), NewRows(i, s, prior, m))
  {
  }

  lemma RebuiltAlike(w: World, id: Id, n: nat, m: nat)
    requires Recoverable(w, id)
    ensures Alike(w.manifests[id].prior, Rebuilt(w, id, n), Rebuilt(w, id, m))
  {
    var prior := w.manifests[id].prior;
    var a, b := Recovered(SnapOf(w, id), prior, n), Recovered(SnapOf(w, id), prior, m);
    if SnapOf(w, id).None? {
      var i :| OneRetained(prior, i);
      RetainedUnique(prior, i, n);
      RetainedUnique(prior, i, m);
    }
    NewRowsAlike(a.value.0, a.value.1, b.value.1, prior, n, m);
  }

  lemma RebuiltWithin(w: World, id: Id, now: nat)
    requires Recoverable(w, id)
    ensures Within(id, Rebuilt(w, id, now), w.manifests[id].paths)
    ensures Within(id, w.manifests[id].prior, w.manifests[id].paths)
    ensures w.manifests[id].paths != {}
  {
    var m := w.manifests[id];
    var a, b := Recovered(SnapOf(w, id), m.prior, 1), Recovered(SnapOf(w, id), m.prior, now);
    if SnapOf(w, id).None? {
      var i :| OneRetained(m.prior, i);
      RetainedUnique(m.prior, i, 1);
      RetainedUnique(m.prior, i, now);
    }
    AffectedSubjects(id, a.value.0, a.value.1, b.value.1, m.prior);
    AffectedCovers(id, b.value.0, b.value.1, m.prior, now, m.paths);
  }

  // ------------------------------------------------------------------ starting

  lemma StartSaveKeeps(exact: bool, w: World, op: Op)
    requires Inv(exact, w) && op.StartSave?
    ensures Inv(exact, Step(w, op))
  {
    var v := Step(w, op);
    if v != w {
      var id, pr := op.id, v.running[op.id];
      AffectedCovers(id, op.snap.inc, RowOf(op.snap), pr.prior, op.now, pr.paths);
      AffectedOwn(id, op.snap.inc, RowOf(op.snap), pr.prior);
      assert Status(exact, w, id);
      assert ProcInv(exact, v, id, pr);
      StartFrames(exact, w, v, id);
    }
  }

  lemma StartDeleteKeeps(exact: bool, w: World, op: Op)
    requires Inv(exact, w) && op.StartDelete?
    ensures Inv(exact, Step(w, op))
  {
    var v := Step(w, op);
    if v != w {
      var id, pr := op.id, v.running[op.id];
      var i :| OneRetained(pr.prior, i);
      RetainedUnique(pr.prior, i, op.now);
      AffectedSubjects(id, i, pr.prior[i], Stamp(pr.prior[i], op.now), pr.prior);
      AffectedCovers(id, i, Stamp(pr.prior[i], op.now), pr.prior, op.now, pr.paths);
      AffectedOwn(id, i, pr.prior[i], pr.prior);
      assert Status(exact, w, id);
      assert ProcInv(exact, v, id, pr);
      StartFrames(exact, w, v, id);
    }
  }

  lemma SameRows(exact: bool, w: World, v: World)
    requires v.recs == w.recs && v.idx == w.idx
    ensures forall p, k :: Agree(exact, w, p, k) <==> Agree(exact, v, p, k)
  {
  }

  /** Starting a mutation changes nothing but the list of running ones. */
  lemma StartFrames(exact: bool, w: World, v: World, id: Id)
    requires Inv(exact, w) && id !in w.running && id in v.running && v == w.(running := w.running[id := v.running[id]])
    requires Unlocked(w, v.running[id].paths) && Status(exact, v, id)
    ensures Inv(exact, v)
  {
    hide Agree, Status;
    SameRows(exact, w, v);
    assert forall p, x :: MarkedBy(w, p, x) <==> MarkedBy(v, p, x);
    assert forall p :: MarkedBy(w, p, id) ==> p in w.marks;
    FramedBy(exact, w, v, id);
    Assemble(exact, w, v, id);
  }

  lemma StartRecoverKeeps(exact: bool, w: World, op: Op)
    requires Inv(exact, w) && op.StartRecover? && Allowed(exact, w, op)
    ensures Inv(exact, Step(w, op))
  {
    hide Inv, Status, Recoverable, Rebuilt, Steady, Exclusive;
    var v := Step(w, op);
    if v != w {
      StartRecoverStatus(exact, w, op);
      StartFrames(exact, w, v, op.id);
    }
  }

  lemma RecoverableManifest(w: World, id: Id)
    requires Recoverable(w, id)
    ensures id in w.manifests
  {
  }

  lemma RecoverableSame(w: World, v: World, id: Id)
    requires Recoverable(w, id) && id in v.manifests && v.manifests[id] == w.manifests[id] && SnapOf(v, id) == SnapOf(w, id)
    ensures Recoverable(v, id) && forall now :: Rebuilt(v, id, now) == Rebuilt(w, id, now)
  {
  }

  lemma StartRecoverStatus(exact: bool, w: World, op: Op)
    requires Inv(exact, w) && op.StartRecover? && Allowed(exact, w, op) && Step(w, op) != w
    ensures Status(exact, Step(w, op), op.id)
  {
    hide Core, Within, Refers, Traced, Recoverable, Rebuilt, SteadyAt, Alike;
    var id, v := op.id, Step(w, op);
    assert Status(exact, w, id);
    RecoverableManifest(w, id);
    RebuiltWithin(w, id, op.now);
    assert PartOf(w, id) == PartOf(v, id) && SnapOf(w, id) == SnapOf(v, id);
    RecoverableSame(w, v, id);
    SteadyAtStart(exact, w, id, op.now);
    assert forall p, x :: MarkedBy(w, p, x) <==> MarkedBy(v, p, x);
    assert Steady(exact, v, id, v.running[id].rows);
    assert Undecided(v, id, v.running[id].paths);
  }

  /** Recovery is steady up to deletion times without any premise, and exactly if nothing shows. */
  lemma SteadyAtStart(exact: bool, w: World, id: Id, now: nat)
    requires Recoverable(w, id) && CrashedInv(w, id)
    requires exact ==> Unshown(w, id, now)
    ensures Steady(exact, w, id, Rebuilt(w, id, now))
  {
    hide Recoverable, Rebuilt, Traced, Unshown;
    RebuiltWithin(w, id, now);
    forall p, i | !MarkedBy(w, p, id) ensures SteadyAt(exact, p, Key(id, i), PartOf(w, id), Rebuilt(w, id, now)) {
      if Settled(w, id) {
        if exact { assert !Shows(w, id, now, p, i) by { UnshownAt(w, id, now, p, i); } }
        SettledSteady(exact, w, id, now, p, i);
      }
    }
  }

  lemma UnshownAt(w: World, id: Id, now: nat, p: Index, i: Inc)
    requires Unshown(w, id, now)
    ensures !Shows(w, id, now, p, i)
  {
  }

  lemma SettledSteady(exact: bool, w: World, id: Id, now: nat, p: Index, i: Inc)
    requires Recoverable(w, id) && Settled(w, id) && !MarkedBy(w, p, id) && (exact ==> !Shows(w, id, now, p, i))
    ensures SteadyAt(exact, p, Key(id, i), PartOf(w, id), Rebuilt(w, id, now))
  {
    hide Recoverable, Rebuilt;
    RebuiltAlike(w, id, 1, now);
    ManifestOf(w, id);
    if i in PartOf(w, id) && Newly(w.manifests[id].prior, Rebuilt(w, id, 1), i) { NewlyStamped(w, id, now, i); }
  }

  lemma ManifestOf(w: World, id: Id)
    requires Recoverable(w, id)
    ensures id in w.manifests
  {
  }

  /** A row that recovery prunes gets the time of the recovery. */
  lemma NewlyStamped(w: World, id: Id, now: nat, i: Inc)
    requires Recoverable(w, id) && Newly(w.manifests[id].prior, Rebuilt(w, id, 1), i)
    ensures i in Rebuilt(w, id, now) && Rebuilt(w, id, now)[i] == Stamp(w.manifests[id].prior[i], now)
  {
    var prior := w.manifests[id].prior;
    if SnapOf(w, id).None? {
      var j :| OneRetained(prior, j);
      RetainedUnique(prior, j, 1);
      RetainedUnique(prior, j, now);
    }
  }

  /** A recovery that is steady shows nothing: the condition on the state before is exact. */
  lemma SteadyOnlyUnshown(w: World, id: Id, now: nat)
    requires Recoverable(w, id) && Steady(true, w, id, Rebuilt(w, id, now))
    ensures Unshown(w, id, now)
  {
    forall p, i | Shows(w, id, now, p, i) ensures false {
      assert SteadyAt(true, p, Key(id, i), PartOf(w, id), Rebuilt(w, id, now));
      RetainedRebuilt(w, id, now, i);
    }
  }

  /** A row that was retained before the mutation is retained or stamped by its recovery. */
  lemma RetainedRebuilt(w: World, id: Id, now: nat, i: Inc)
    requires Recoverable(w, id) && i in w.manifests[id].prior && w.manifests[id].prior[i].life.Retained?
    ensures i in Rebuilt(w, id, now)
    ensures Rebuilt(w, id, now)[i].life.Retained? || Rebuilt(w, id, now)[i].deletedAt == now
  {
    var prior := w.manifests[id].prior;
    if SnapOf(w, id).None? {
      var j :| OneRetained(prior, j);
      RetainedUnique(prior, j, now);
    }
  }

  // ------------------------------------------------------------------ file steps

  lemma OwnProc(exact: bool, w: World, id: Id)
    requires Inv(exact, w) && id in w.running
    ensures ProcInv(exact, w, id, w.running[id])
    ensures forall p :: MarkedBy(w, p, id) ==> id in w.manifests && p in w.manifests[id].paths
  {
    assert Status(exact, w, id);
    assert forall p :: MarkedBy(w, p, id) ==> p in w.marks;
  }

  /** The files of one session moved on and no other session can tell. */
  ghost predicate Moved(w: World, v: World, id: Id) {
    && id in w.running && (id in v.running ==> v.running[id].paths == w.running[id].paths)
    && v.snaps - {id} == w.snaps - {id} && v.recs - {id} == w.recs - {id}
    && v.manifests - {id} == w.manifests - {id} && v.origin - {id} == w.origin - {id}
    && v.running - {id} == w.running - {id}
    && (forall p, x :: x != id ==> (MarkedBy(w, p, x) <==> MarkedBy(v, p, x)))
    && (forall p :: p in v.marks && p !in w.marks ==> p in w.running[id].paths)
    && (forall p :: MarkedBy(v, p, id) ==> id in v.manifests && p in v.manifests[id].paths)
  }

  lemma MovedLocks(w: World, v: World, id: Id)
    requires Moved(w, v, id) && Locks(w)
    ensures Locks(v)
  {
    forall x, y | x in v.running && y in v.running && x != y
      ensures v.running[x].paths !! v.running[y].paths
    {
      assert x != id ==> x in v.running - {id} && (v.running - {id})[x] == v.running[x];
      assert y != id ==> y in v.running - {id} && (v.running - {id})[y] == v.running[y];
      assert x != id ==> (w.running - {id})[x] == w.running[x];
      assert y != id ==> (w.running - {id})[y] == w.running[y];
    }
  }

  /** A step that writes no rows keeps the invariant if every marker it removes had done its work. */
  lemma Quiet(exact: bool, w: World, v: World, id: Id)
    requires Inv(exact, w) && Moved(w, v, id) && Status(exact, v, id)
    requires v.recs == w.recs && v.idx == w.idx
    requires Synced(exact, w, id, {}) || (forall p :: MarkedBy(w, p, id) ==> MarkedBy(v, p, id))
    ensures Inv(exact, v)
  {
    hide Agree, Status;
    MovedLocks(w, v, id);
    SameRows(exact, w, v);
    FramedBy(exact, w, v, id);
    forall p, k: Key | k.id == id ensures Agree(exact, v, p, k) || MarkedBy(v, p, id) {
      assert Agree(exact, w, p, k) || MarkedBy(w, p, id);
    }
    Assemble(exact, w, v, id);
  }

  /** A step that writes rows keeps the invariant if it disturbs only marked partitions. */
  lemma Loud(exact: bool, w: World, v: World, id: Id)
    requires Inv(exact, w) && Moved(w, v, id) && Status(exact, v, id)
    requires forall p, k: Key :: k.id != id && Agree(exact, w, p, k) ==> Agree(exact, v, p, k)
    requires forall p, k: Key :: k.id == id ==> Agree(exact, v, p, k) || MarkedBy(v, p, id)
    ensures Inv(exact, v)
  {
    MovedLocks(w, v, id);
    FramedBy(exact, w, v, id);
    Assemble(exact, w, v, id);
  }

  lemma StillSynced(exact: bool, w: World, v: World, id: Id)
    requires v.recs == w.recs && v.idx == w.idx && Synced(exact, w, id, {})
    ensures Synced(exact, v, id, {})
  {
    SameRows(exact, w, v);
  }

  /** A file step that writes no marker keeps what its mutation holds about paths and manifest. */
  lemma BaseKept(w: World, v: World, id: Id)
    requires id in w.running && id in v.running && ProcBase(w, id, w.running[id])
    requires !w.running[id].phase.Begin? && v.running[id] == w.running[id].(phase := v.running[id].phase)
    requires !v.running[id].phase.Begin?
    requires v.manifests == w.manifests && v.origin == w.origin && SnapOf(v, id) == SnapOf(w, id)
    requires forall p :: p in v.marks ==> p in w.marks && v.marks[p] == w.marks[p]
    ensures ProcBase(v, id, v.running[id])
  {
    hide Traced;
  }

  lemma BeginKeeps(exact: bool, w: World, id: Id, at: Index)
    requires Inv(exact, w) && id in w.running && w.running[id].phase.Begin?
    ensures Inv(exact, File(w, id, w.running[id], at))
  {
    hide Inv, Status, GoalInv, PhaseInv, Synced;
    var v := File(w, id, w.running[id], at);
    OwnProc(exact, w, id);
    BeginStatus(exact, w, id, at);
    assert forall p, x :: MarkedBy(w, p, x) <==> MarkedBy(v, p, x);
    Quiet(exact, w, v, id);
  }

  lemma BeginStatus(exact: bool, w: World, id: Id, at: Index)
    requires id in w.running && w.running[id].phase.Begin? && ProcInv(exact, w, id, w.running[id])
    ensures Status(exact, File(w, id, w.running[id], at), id)
  {
    var pr := w.running[id];
    var v := File(w, id, pr, at);
    assert PartOf(w, id) == PartOf(v, id) && SnapOf(w, id) == SnapOf(v, id);
    assert forall p, x :: MarkedBy(w, p, x) <==> MarkedBy(v, p, x);
    if pr.goal.Delete? {
      var i :| OneRetained(pr.prior, i) && pr.rows == NewRows(i, Stamp(pr.prior[i], pr.now), pr.prior, pr.now)
               && Affected(id, i, pr.prior[i], pr.prior) <= pr.paths;
      assert SnapOf(w, id).Some? && SnapOf(w, id).value.inc == i;
    }
    assert ManifestInv(v, id);
    assert GoalInv(exact, v, id, v.running[id]);
  }

  lemma MarkKeeps(exact: bool, w: World, id: Id, at: Index)
    requires Inv(exact, w) && id in w.running && w.running[id].phase.Marking?
    ensures Inv(exact, File(w, id, w.running[id], at))
  {
    hide Inv, Status, GoalInv, PhaseInv, Synced, Traced, Within;
    var pr := w.running[id];
    var v := File(w, id, pr, at);
    OwnProc(exact, w, id);
    if at in pr.phase.rest {
      MarkStatus(exact, w, id, at);
      assert forall p :: MarkedBy(v, p, id) <==> MarkedBy(w, p, id) || p == at;
      Quiet(exact, w, v, id);
    }
  }

  lemma MarkStatus(exact: bool, w: World, id: Id, at: Index)
    requires id in w.running && w.running[id].phase.Marking? && ProcInv(exact, w, id, w.running[id])
    requires at in w.running[id].phase.rest
    ensures Status(exact, File(w, id, w.running[id], at), id)
    ensures at in w.running[id].paths
  {
    var v := File(w, id, w.running[id], at);
    assert PartOf(w, id) == PartOf(v, id) && SnapOf(w, id) == SnapOf(v, id);
    assert forall p :: MarkedBy(v, p, id) <==> MarkedBy(w, p, id) || p == at;
    assert GoalInv(exact, v, id, v.running[id]);
    assert PhaseInv(exact, v, id, v.running[id]);
  }

  lemma SnapshotKeeps(exact: bool, w: World, id: Id, at: Index)
    requires Inv(exact, w) && id in w.running && w.running[id].phase.Snapshot?
    ensures Inv(exact, File(w, id, w.running[id], at))
  {
    hide Inv, Status, GoalInv, PhaseInv, Synced;
    var v := File(w, id, w.running[id], at);
    OwnProc(exact, w, id);
    SnapshotStatus(exact, w, id, at);
    assert forall p, x :: MarkedBy(w, p, x) <==> MarkedBy(v, p, x);
    Quiet(exact, w, v, id);
  }

  lemma SnapshotStatus(exact: bool, w: World, id: Id, at: Index)
    requires id in w.running && w.running[id].phase.Snapshot? && ProcInv(exact, w, id, w.running[id])
    ensures Status(exact, File(w, id, w.running[id], at), id) && w.running[id].goal.Save?
  {
    var v := File(w, id, w.running[id], at);
    assert PartOf(w, id) == PartOf(v, id);
    assert forall p, x :: MarkedBy(w, p, x) <==> MarkedBy(v, p, x);
    assert ManifestInv(v, id);
    assert GoalInv(exact, v, id, v.running[id]);
  }

  lemma RecordKeeps(exact: bool, w: World, id: Id, at: Index)
    requires Inv(exact, w) && id in w.running && w.running[id].phase.Record?
    ensures Inv(exact, File(w, id, w.running[id], at))
  {
    hide Inv, Status, ProcInv, Synced, Agree;
    var v := File(w, id, w.running[id], at);
    OwnProc(exact, w, id);
    RecordRows(exact, w, id, at);
    RecordStatus(exact, w, id, at);
    RecordOthers(exact, w, id, at);
    assert forall p, x :: MarkedBy(w, p, x) <==> MarkedBy(v, p, x);
    Loud(exact, w, v, id);
  }

  lemma RecordOthers(exact: bool, w: World, id: Id, at: Index)
    requires id in w.running && w.running[id].phase.Record?
    ensures forall p, k: Key :: k.id != id && Agree(exact, w, p, k) ==> Agree(exact, File(w, id, w.running[id], at), p, k)
  {
  }

  /** Writing the record partition disturbs only partitions marked for the session. */
  lemma RecordRows(exact: bool, w: World, id: Id, at: Index)
    requires Inv(exact, w) && id in w.running && w.running[id].phase.Record?
    ensures forall p, k: Key :: k.id == id ==> Agree(exact, File(w, id, w.running[id], at), p, k) || MarkedBy(w, p, id)
    ensures Synced(exact, File(w, id, w.running[id], at), id, w.running[id].paths)
  {
    hide Status, GoalInv, PhaseInv, Agree;
    OwnProc(exact, w, id);
    var pr := w.running[id];
    var v := File(w, id, pr, at);
    forall p, k: Key | k.id == id && !MarkedBy(w, p, id) ensures Agree(exact, v, p, k) {
      assert Agree(exact, w, p, k) || MarkedBy(w, p, k.id);
      RecordRow(exact, w, id, at, p, k);
    }
    forall p, k: Key | k.id == id && p !in pr.paths ensures Agree(exact, v, p, k) {
      assert Agree(exact, w, p, k) || MarkedBy(w, p, k.id);
    }
  }

  lemma RecordRow(exact: bool, w: World, id: Id, at: Index, p: Index, k: Key)
    requires id in w.running && w.running[id].phase.Record? && ProcInv(exact, w, id, w.running[id])
    requires k.id == id && !MarkedBy(w, p, id) && Agree(exact, w, p, k)
    ensures Agree(exact, File(w, id, w.running[id], at), p, k)
  {
    hide NewRows, Rebuilt, Recoverable, Affected, ManifestInv, Undecided, Refers, OneRetained;
    var pr := w.running[id];
    var v := File(w, id, pr, at);
    assert PartOf(v, id) == pr.rows && IndexOf(v, p) == IndexOf(w, p);
    assert k == Key(id, k.inc);
    if pr.goal.Recover? {
      assert SteadyAt(exact, p, Key(id, k.inc), PartOf(w, id), pr.rows);
    } else {
      assert p !in pr.paths;
    }
  }

  lemma RecordStatus(exact: bool, w: World, id: Id, at: Index)
    requires id in w.running && w.running[id].phase.Record? && ProcInv(exact, w, id, w.running[id])
    requires Synced(exact, File(w, id, w.running[id], at), id, w.running[id].paths)
    ensures Status(exact, File(w, id, w.running[id], at), id)
  {
    hide Synced, GoalInv, ManifestInv, Within;
    var v := File(w, id, w.running[id], at);
    assert forall p, x :: MarkedBy(w, p, x) <==> MarkedBy(v, p, x);
    BaseKept(w, v, id);
    RecordGoal(exact, w, id, at);
  }

  lemma RecordGoal(exact: bool, w: World, id: Id, at: Index)
    requires id in w.running && w.running[id].phase.Record? && GoalInv(exact, w, id, w.running[id])
    ensures GoalInv(exact, File(w, id, w.running[id], at), id, File(w, id, w.running[id], at).running[id])
  {
    hide Steady, Undecided, Recoverable, Rebuilt, NewRows, Affected;
    var pr := w.running[id];
    var v := File(w, id, pr, at);
    assert SnapOf(w, id) == SnapOf(v, id) && PartOf(v, id) == pr.rows;
    if pr.goal.Recover? { RecoverableManifest(w, id); RecoverableSame(w, v, id); }
  }

  lemma PublishKeeps(exact: bool, w: World, id: Id, at: Index)
    requires Inv(exact, w) && id in w.running && w.running[id].phase.Publishing?
    ensures Inv(exact, File(w, id, w.running[id], at))
  {
    hide Inv, Status, GoalInv, Synced, Agree, Published;
    var pr := w.running[id];
    var v := File(w, id, pr, at);
    OwnProc(exact, w, id);
    if at in pr.phase.rest {
      PublishOthers(exact, w, id, at);
      PublishStatus(exact, w, id, at);
      PublishOwn(exact, w, id, at);
      assert forall p, x :: MarkedBy(w, p, x) <==> MarkedBy(v, p, x);
      Loud(exact, w, v, id);
    }
  }

  lemma PublishOwn(exact: bool, w: World, id: Id, at: Index)
    requires Inv(exact, w) && id in w.running && w.running[id].phase.Publishing? && at in w.running[id].phase.rest
    requires ProcInv(exact, w, id, w.running[id])
    ensures forall p, k: Key :: k.id == id ==> Agree(exact, File(w, id, w.running[id], at), p, k) || MarkedBy(w, p, id)
  {
    hide Agree, Published, PhaseInv, Status;
    forall p, k: Key | k.id == id && !MarkedBy(w, p, id) ensures Agree(exact, File(w, id, w.running[id], at), p, k) {
      PublishedAgrees(exact, w, id, at, p, k);
      assert Agree(exact, w, p, k) || MarkedBy(w, p, k.id);
    }
  }

  lemma PublishedContent(p: Index, id: Id, rows: Part, present: map<Key, Row>, k: Key)
    ensures k.id == id ==> (k in Published(p, id, rows, present) <==> k.inc in rows && Refers(p, k, rows[k.inc]))
    ensures k.id == id && k in Published(p, id, rows, present) ==> Published(p, id, rows, present)[k] == rows[k.inc]
    ensures k.id != id ==> (k in Published(p, id, rows, present) <==> p.Edge? && k in present)
    ensures k.id != id && k in Published(p, id, rows, present) ==> Published(p, id, rows, present)[k] == present[k]
  {
    assert k == Key(k.id, k.inc);
  }

  /** After its own publication a partition shows the record partition; the others are untouched. */
  lemma PublishedAgrees(exact: bool, w: World, id: Id, at: Index, p: Index, k: Key)
    requires id in w.running && w.running[id].phase.Publishing? && at in w.running[id].phase.rest
    requires PartOf(w, id) == w.running[id].rows && k.id == id
    ensures p == at ==> Agree(exact, File(w, id, w.running[id], at), p, k)
    ensures p != at ==> (Agree(exact, w, p, k) <==> Agree(exact, File(w, id, w.running[id], at), p, k))
  {
    hide Published;
    var pr := w.running[id];
    var v := File(w, id, pr, at);
    assert PartOf(v, id) == PartOf(w, id);
    PublishedContent(at, id, pr.rows, IndexOf(w, at), k);
    assert IndexOf(v, at) == Published(at, id, pr.rows, IndexOf(w, at));
  }

  lemma PublishOthers(exact: bool, w: World, id: Id, at: Index)
    requires id in w.running && w.running[id].phase.Publishing? && at in w.running[id].phase.rest
    requires at.Point? ==> at.child.id == id
    ensures forall p, k: Key :: k.id != id && Agree(exact, w, p, k) ==> Agree(exact, File(w, id, w.running[id], at), p, k)
  {
    hide Published;
    var pr := w.running[id];
    var v := File(w, id, pr, at);
    forall p, k: Key | k.id != id && Agree(exact, w, p, k) ensures Agree(exact, v, p, k) {
      assert PartOf(v, k.id) == PartOf(w, k.id);
      PublishedContent(at, id, pr.rows, IndexOf(w, at), k);
      assert IndexOf(v, at) == Published(at, id, pr.rows, IndexOf(w, at));
    }
  }

  lemma PublishStatus(exact: bool, w: World, id: Id, at: Index)
    requires id in w.running && w.running[id].phase.Publishing? && ProcInv(exact, w, id, w.running[id])
    requires at in w.running[id].phase.rest
    ensures Status(exact, File(w, id, w.running[id], at), id)
  {
    hide Published, Synced, GoalInv, ManifestInv, Within;
    var v := File(w, id, w.running[id], at);
    assert forall p, x :: MarkedBy(w, p, x) <==> MarkedBy(v, p, x);
    BaseKept(w, v, id);
    PublishGoal(exact, w, id, at);
    PublishSynced(exact, w, id, at);
    var rest := w.running[id].phase.rest;
    if rest == {at} { assert rest - {at} == {}; }
  }

  lemma PublishSynced(exact: bool, w: World, id: Id, at: Index)
    requires id in w.running && w.running[id].phase.Publishing? && at in w.running[id].phase.rest
    requires GoalInv(exact, w, id, w.running[id]) && Synced(exact, w, id, w.running[id].phase.rest)
    ensures Synced(exact, File(w, id, w.running[id], at), id, w.running[id].phase.rest - {at})
  {
    hide Published, Agree, Rebuilt, NewRows;
    var pr := w.running[id];
    assert PartOf(w, id) == pr.rows;
    forall p, k: Key | k.id == id && p !in pr.phase.rest - {at} ensures Agree(exact, File(w, id, pr, at), p, k) {
      PublishedAgrees(exact, w, id, at, p, k);
    }
  }

  lemma PublishGoal(exact: bool, w: World, id: Id, at: Index)
    requires id in w.running && w.running[id].phase.Publishing? && GoalInv(exact, w, id, w.running[id])
    requires at in w.running[id].phase.rest
    ensures GoalInv(exact, File(w, id, w.running[id], at), id, File(w, id, w.running[id], at).running[id])
  {
    hide Published, GoalInv;
    var v := File(w, id, w.running[id], at);
    assert SnapOf(w, id) == SnapOf(v, id) && PartOf(v, id) == PartOf(w, id);
    GoalKept(exact, w, v, id);
  }

  /** Past the record write a mutation's goal depends on nothing that its loops change. */
  lemma GoalKept(exact: bool, w: World, v: World, id: Id)
    requires id in w.running && GoalInv(exact, w, id, w.running[id]) && id in v.running
    requires v.running[id] == w.running[id].(phase := v.running[id].phase)
    requires v.manifests == w.manifests && v.origin == w.origin
    requires SnapOf(w, id) == SnapOf(v, id) && PartOf(v, id) == PartOf(w, id)
    requires var a, b := w.running[id].phase, v.running[id].phase;
             || (a.Publishing? && b.Publishing?)
             || (a.Publishing? && b.Dropping? && w.running[id].goal.Delete?)
             || (a.Publishing? && b.Clearing? && !w.running[id].goal.Delete?)
             || (a.Clearing? && (b.Clearing? || b.Final?))
    ensures GoalInv(exact, v, id, v.running[id])
  {
    hide Steady, Undecided, Recoverable, Rebuilt, NewRows, Affected, OneRetained, Coherent;
    if w.running[id].goal.Recover? { RecoverableManifest(w, id); RecoverableSame(w, v, id); }
  }

  lemma DropKeeps(exact: bool, w: World, id: Id, at: Index)
    requires Inv(exact, w) && id in w.running && w.running[id].phase.Dropping?
    ensures Inv(exact, File(w, id, w.running[id], at))
  {
    hide Inv, Status, GoalInv, Agree;
    var v := File(w, id, w.running[id], at);
    OwnProc(exact, w, id);
    DropStatus(exact, w, id, at);
    assert forall p, x :: MarkedBy(w, p, x) <==> MarkedBy(v, p, x);
    Quiet(exact, w, v, id);
  }

  lemma DropStatus(exact: bool, w: World, id: Id, at: Index)
    requires id in w.running && w.running[id].phase.Dropping? && ProcInv(exact, w, id, w.running[id])
    ensures Status(exact, File(w, id, w.running[id], at), id)
  {
    var v := File(w, id, w.running[id], at);
    hide Agree, Synced;
    assert PartOf(w, id) == PartOf(v, id);
    assert forall p, x :: MarkedBy(w, p, x) <==> MarkedBy(v, p, x);
    StillSynced(exact, w, v, id);
    assert ManifestInv(v, id);
    assert GoalInv(exact, v, id, v.running[id]);
    assert PhaseInv(exact, v, id, v.running[id]);
  }

  lemma ClearKeeps(exact: bool, w: World, id: Id, at: Index)
    requires Inv(exact, w) && id in w.running && w.running[id].phase.Clearing?
    ensures Inv(exact, File(w, id, w.running[id], at))
  {
    hide Inv, Status, GoalInv, Agree;
    var pr := w.running[id];
    var v := File(w, id, pr, at);
    OwnProc(exact, w, id);
    if at in pr.phase.rest {
      assert at in w.marks ==> MarkedBy(w, at, id);
      assert forall p, x :: x != id ==> (MarkedBy(w, p, x) <==> MarkedBy(v, p, x));
      assert forall p :: MarkedBy(v, p, id) ==> MarkedBy(w, p, id);
      ClearStatus(exact, w, id, at);
      Quiet(exact, w, v, id);
    }
  }

  lemma ClearStatus(exact: bool, w: World, id: Id, at: Index)
    requires id in w.running && w.running[id].phase.Clearing? && ProcInv(exact, w, id, w.running[id])
    requires at in w.running[id].phase.rest
    ensures Status(exact, File(w, id, w.running[id], at), id)
  {
    hide Synced, ManifestInv, Within, GoalInv;
    var v := File(w, id, w.running[id], at);
    assert PartOf(w, id) == PartOf(v, id) && SnapOf(w, id) == SnapOf(v, id);
    BaseKept(w, v, id);
    StillSynced(exact, w, v, id);
    GoalKept(exact, w, v, id);
  }

  lemma FinalKeeps(exact: bool, w: World, id: Id, at: Index)
    requires Inv(exact, w) && id in w.running && w.running[id].phase.Final?
    ensures Inv(exact, File(w, id, w.running[id], at))
  {
    hide Inv, GoalInv, Agree, Coherent;
    var v := File(w, id, w.running[id], at);
    OwnProc(exact, w, id);
    FinalCoherent(exact, w, id);
    assert PartOf(w, id) == PartOf(v, id) && SnapOf(w, id) == SnapOf(v, id);
    assert forall p, x :: MarkedBy(w, p, x) <==> MarkedBy(v, p, x);
    assert forall p :: !MarkedBy(w, p, id);
    Quiet(exact, w, v, id);
  }

  /** A finished mutation leaves exactly the snapshot's incarnation retained. */
  lemma FinalCoherent(exact: bool, w: World, id: Id)
    requires id in w.running && ProcInv(exact, w, id, w.running[id])
    requires w.running[id].phase.Clearing? || w.running[id].phase.Final?
    ensures Coherent(PartOf(w, id), SnapOf(w, id))
  {
    var pr := w.running[id];
    if pr.goal.Recover? && SnapOf(w, id).None? {
      var i :| OneRetained(pr.prior, i);
      RetainedUnique(pr.prior, i, pr.now);
    }
  }

  // ------------------------------------------------------------------ crashes

  lemma CrashKeeps(exact: bool, w: World, id: Id)
    requires Inv(exact, w) && id in w.running
    ensures Inv(exact, Step(w, Crash(id)))
  {
    hide Inv, PhaseInv, Agree, Undecided, Synced;
    var v := Step(w, Crash(id));
    OwnProc(exact, w, id);
    assert PartOf(w, id) == PartOf(v, id) && SnapOf(w, id) == SnapOf(v, id);
    assert forall p, x :: MarkedBy(w, p, x) <==> MarkedBy(v, p, x);
    CrashUndecided(exact, w, id);
    assert Status(exact, v, id);
    Quiet(exact, w, v, id);
  }

  /** Wherever a mutation dies, recovery will either find all its partitions marked or write
      back what is already there. */
  lemma CrashUndecided(exact: bool, w: World, id: Id)
    requires id in w.running && ProcInv(exact, w, id, w.running[id])
    ensures !w.running[id].phase.Begin? ==> Undecided(Step(w, Crash(id)), id, w.running[id].paths)
  {
    var pr := w.running[id];
    var v := Step(w, Crash(id));
    assert PartOf(w, id) == PartOf(v, id) && SnapOf(w, id) == SnapOf(v, id);
    assert forall p, x :: MarkedBy(w, p, x) <==> MarkedBy(v, p, x);
    if !pr.phase.Begin? && Recoverable(v, id) {
      match pr.phase
      case Marking(_) =>
        if SnapOf(v, id).Some? { Rollback(pr.prior, SnapOf(v, id).value, 1); }
      case Snapshot => assert AllMarked(v, id, pr.paths);
      case Record => assert pr.goal.Recover? || AllMarked(v, id, pr.paths);
      case Publishing(_) => CrashSettled(exact, w, id);
      case Dropping => assert AllMarked(v, id, pr.paths);
      case Clearing(_) => CrashSettled(exact, w, id);
      case Final => CrashSettled(exact, w, id);
    }
  }

  lemma CrashSettled(exact: bool, w: World, id: Id)
    requires id in w.running && ProcInv(exact, w, id, w.running[id])
    requires w.running[id].phase.Publishing? || w.running[id].phase.Clearing? || w.running[id].phase.Final?
    requires Recoverable(w, id)
    ensures Undecided(Step(w, Crash(id)), id, w.running[id].paths)
  {
    var pr := w.running[id];
    var v := Step(w, Crash(id));
    assert PartOf(w, id) == PartOf(v, id) && SnapOf(w, id) == SnapOf(v, id);
    assert forall p, x :: MarkedBy(w, p, x) <==> MarkedBy(v, p, x);
    assert Rebuilt(v, id, 1) == Rebuilt(w, id, 1);
    match pr.goal
    case Recover => RebuiltAlike(w, id, 1, pr.now);
    case Save(s) => NewRowsAlike(s.inc, RowOf(s), RowOf(s), pr.prior, 1, pr.now);
    case Delete =>
      if pr.phase.Publishing? {
        assert AllMarked(v, id, pr.paths);
      } else {
        var i :| OneRetained(pr.prior, i) && pr.rows == NewRows(i, Stamp(pr.prior[i], pr.now), pr.prior, pr.now);
        RetainedUnique(pr.prior, i, 1);
        NewRowsAlike(i, Stamp(pr.prior[i], 1), Stamp(pr.prior[i], pr.now), pr.prior, 1, pr.now);
      }
  }
}
