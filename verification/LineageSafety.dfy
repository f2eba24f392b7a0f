/** What the lineage index promises, the inductive invariant behind it, and the frame argument: a step of
    one session leaves the invariants of all others alone. */
module LineageSafety {
  import opened LineageMachine

  // ------------------------------------------------------------------ what the index promises

  /** Equal but for the deletion time. */
  predicate Same(r: Row, s: Row) {
    r.(deletedAt := 0) == s.(deletedAt := 0)
  }

  predicate Sim(exact: bool, r: Row, s: Row) {
    if exact then r == s else Same(r, s)
  }

  /** The mutation that found `prior` prunes row `i`. */
  predicate Newly(prior: Part, rows: Part, i: Inc) {
    i in prior && prior[i].life.Retained? && i in rows && rows[i].life.Pruned?
  }

  /** Equal but for the deletion times of the rows that the mutation itself prunes. */
  predicate Alike(prior: Part, a: Part, b: Part) {
    a.Keys == b.Keys && forall i :: i in a ==> Same(a[i], b[i]) && (a[i] == b[i] || Newly(prior, a, i))
  }

  /** Partition `p` and the record partition of `k.id` say the same about `k`. */
  predicate Agree(exact: bool, w: World, p: Index, k: Key) {
    var part, at := PartOf(w, k.id), IndexOf(w, p);
    && (k in at <==> k.inc in part && Refers(p, k, part[k.inc]))
    && (k in at ==> Sim(exact, at[k], part[k.inc]))
  }

  /** Partition `p` carries a dirty marker written for session `id`. */
  predicate MarkedBy(w: World, p: Index, id: Id) {
    p in w.marks && w.marks[p] == id
  }

  /** Every disagreement is behind a marker of the session it is about. */
  ghost predicate Core(exact: bool, w: World) {
    forall p, k :: Agree(exact, w, p, k) || MarkedBy(w, p, k.id)
  }

  /** Every marked partition is listed in a surviving manifest. */
  predicate Listed(w: World) {
    forall p :: p in w.marks ==> w.marks[p] in w.manifests && p in w.manifests[w.marks[p]].paths
  }

  // ------------------------------------------------------------------ the inductive invariant

  /** Exactly the snapshot's incarnation is retained. */
  predicate Coherent(part: Part, snap: Option<Snap>) {
    && (forall i :: i in part && part[i].life.Retained? ==> snap.Some? && i == snap.value.inc)
    && (snap.Some? ==> snap.value.inc in part && part[snap.value.inc] == RowOf(snap.value))
  }

  ghost predicate Within(id: Id, part: Part, paths: set<Index>) {
    forall p, i :: i in part && Refers(p, Key(id, i), part[i]) ==> p in paths
  }

  predicate Own(id: Id, paths: set<Index>) {
    forall p :: p in paths && p.Point? ==> p.child.id == id
  }

  ghost predicate AllMarked(w: World, id: Id, paths: set<Index>) {
    forall p :: p in paths ==> MarkedBy(w, p, id)
  }

  /** No listed partition carries another session's marker. */
  ghost predicate Exclusive(w: World, id: Id, paths: set<Index>) {
    forall p :: p in paths && p in w.marks ==> MarkedBy(w, p, id)
  }

  ghost predicate Settled(w: World, id: Id) {
    Recoverable(w, id) ==> Alike(w.manifests[id].prior, Rebuilt(w, id, 1), PartOf(w, id))
  }

  predicate Traced(id: Id, m: Manifest, o: Origin, snap: Option<Snap>) {
    && Coherent(m.prior, o.before)
    && match o
       case OfSave(b, a) => (snap == b || snap == Some(a)) && Affected(id, a.inc, RowOf(a), m.prior) <= m.paths
       case OfDelete(b) => (snap == b || snap == None) && b.Some? && Affected(id, b.value.inc, RowOf(b.value), m.prior) <= m.paths
  }

  ghost predicate Undecided(w: World, id: Id, paths: set<Index>) {
    (AllMarked(w, id, paths) && Within(id, PartOf(w, id), paths)) || Settled(w, id)
  }

  ghost predicate ManifestInv(w: World, id: Id) {
    && id in w.manifests && id in w.origin
    && Own(id, w.manifests[id].paths)
    && Traced(id, w.manifests[id], w.origin[id], SnapOf(w, id))
  }

  ghost predicate CrashedInv(w: World, id: Id) {
    ManifestInv(w, id) && Undecided(w, id, w.manifests[id].paths)
  }

  /** Rewriting the record partition as `rows` changes nothing that an unmarked partition shows. */
  ghost predicate Steady(exact: bool, w: World, id: Id, rows: Part) {
    forall p, i :: !MarkedBy(w, p, id) ==> SteadyAt(exact, p, Key(id, i), PartOf(w, id), rows)
  }

  predicate SteadyAt(exact: bool, p: Index, k: Key, part: Part, rows: Part) {
    && ((k.inc in part && Refers(p, k, part[k.inc])) <==> (k.inc in rows && Refers(p, k, rows[k.inc])))
    && (k.inc in part && Refers(p, k, part[k.inc]) ==> Sim(exact, part[k.inc], rows[k.inc]))
  }

  /** Before a recovery at time `now`: an unmarked partition shows row `i`, which the crashed mutation
      pruned at another time. */
  predicate Shows(w: World, id: Id, now: nat, p: Index, i: Inc) {
    && id in w.manifests && !MarkedBy(w, p, id)
    && i in PartOf(w, id) && Refers(p, Key(id, i), PartOf(w, id)[i])
    && PartOf(w, id)[i].life.Pruned? && PartOf(w, id)[i].deletedAt != now
    && i in w.manifests[id].prior && w.manifests[id].prior[i].life.Retained?
  }

  ghost predicate Unshown(w: World, id: Id, now: nat) {
    forall p, i :: !Shows(w, id, now, p, i)
  }

  ghost predicate GoalInv(exact: bool, w: World, id: Id, pr: Proc) {
    var part, snap := PartOf(w, id), SnapOf(w, id);
    match pr.goal
    case Save(s) =>
      && pr.rows == NewRows(s.inc, RowOf(s), pr.prior, pr.now)
      && Affected(id, s.inc, RowOf(s), pr.prior) <= pr.paths
      && (pr.phase.Begin? || pr.phase.Marking? || pr.phase.Snapshot? ==> part == pr.prior && Coherent(part, snap))
      && (!(pr.phase.Begin? || pr.phase.Marking? || pr.phase.Snapshot?) ==> snap == Some(s))
      && (pr.phase.Record? ==> part == pr.prior)
      && (pr.phase.Publishing? || pr.phase.Clearing? || pr.phase.Final? ==> part == pr.rows)
      && (!pr.phase.Begin? ==> id in w.origin && w.origin[id].OfSave? && w.origin[id].after == s)
      && !pr.phase.Dropping?
    case Delete =>
      && (exists i :: OneRetained(pr.prior, i) && pr.rows == NewRows(i, Stamp(pr.prior[i], pr.now), pr.prior, pr.now)
                      && Affected(id, i, pr.prior[i], pr.prior) <= pr.paths)
      && (pr.phase.Begin? || pr.phase.Marking? || pr.phase.Record? ==> part == pr.prior && Coherent(part, snap))
      && (pr.phase.Publishing? || pr.phase.Dropping? || pr.phase.Clearing? || pr.phase.Final? ==> part == pr.rows)
      && (pr.phase.Clearing? || pr.phase.Final? ==> snap == None)
      && (!pr.phase.Begin? ==> id in w.origin && w.origin[id].OfDelete?)
      && !pr.phase.Snapshot?
    case Recover =>
      && Recoverable(w, id) && pr.rows == Rebuilt(w, id, pr.now)
      && (pr.phase.Record? || pr.phase.Publishing? || pr.phase.Clearing? || pr.phase.Final?)
      && (pr.phase.Record? ==> Steady(exact, w, id, pr.rows) && Undecided(w, id, pr.paths))
      && (!pr.phase.Record? ==> part == pr.rows)
  }

  /** The index partitions outside `rest` show the record partition of `id`. */
  ghost predicate Synced(exact: bool, w: World, id: Id, rest: set<Index>) {
    forall p, k: Key :: k.id == id && p !in rest ==> Agree(exact, w, p, k)
  }

  ghost predicate PhaseInv(exact: bool, w: World, id: Id, pr: Proc) {
    && (!pr.goal.Recover? && (pr.phase.Snapshot? || pr.phase.Record? || pr.phase.Publishing? || pr.phase.Dropping?) ==>
          AllMarked(w, id, pr.paths))
    && match pr.phase
       case Marking(rest) => {} < rest <= pr.paths && AllMarked(w, id, pr.paths - rest)
       case Publishing(rest) => {} < rest <= pr.paths && Synced(exact, w, id, rest)
       case Dropping => Synced(exact, w, id, {})
       case Clearing(rest) =>
         && {} < rest <= pr.paths && (forall p :: p in pr.paths && p !in rest ==> p !in w.marks)
         && Synced(exact, w, id, {})
       case Final =>
         && (forall p :: p in pr.paths ==> p !in w.marks)
         && Synced(exact, w, id, {})
       case _ => true
  }

  ghost predicate ProcBase(w: World, id: Id, pr: Proc) {
    && pr.paths != {} && Own(id, pr.paths)
    && Within(id, pr.prior, pr.paths) && Within(id, pr.rows, pr.paths)
    && Exclusive(w, id, pr.paths)
    && (pr.phase.Begin? ==> id !in w.manifests)
    && (!pr.phase.Begin? ==> ManifestInv(w, id) && w.manifests[id] == Manifest(pr.paths, pr.prior))
  }

  ghost predicate ProcInv(exact: bool, w: World, id: Id, pr: Proc) {
    ProcBase(w, id, pr) && GoalInv(exact, w, id, pr) && PhaseInv(exact, w, id, pr)
  }

  ghost predicate Status(exact: bool, w: World, id: Id) {
    if id in w.running then ProcInv(exact, w, id, w.running[id])
    else if id in w.manifests then CrashedInv(w, id)
    else Coherent(PartOf(w, id), SnapOf(w, id))
  }

  predicate Locks(w: World) {
    forall x, y :: x in w.running && y in w.running && x != y ==> w.running[x].paths !! w.running[y].paths
  }

  ghost predicate Inv(exact: bool, w: World) {
    Core(exact, w) && Listed(w) && Locks(w) && forall id :: Status(exact, w, id)
  }

  /** The premise on recovery. It clears every listed marker, so none of them may be another crashed
      session's; and `exact` asks that no partition already unmarked shows a row whose deletion time the
      recovery will change. */
  ghost predicate Allowed(exact: bool, w: World, op: Op) {
    op.StartRecover? && op.id !in w.running && Recoverable(w, op.id) && Unlocked(w, w.manifests[op.id].paths) ==>
      && Exclusive(w, op.id, w.manifests[op.id].paths)
      && (exact ==> Unshown(w, op.id, op.now))
  }

  ghost predicate AllowedRun(exact: bool, w: World, ops: seq<Op>)
    decreases |ops|
  {
    ops == [] || (Allowed(exact, w, ops[0]) && AllowedRun(exact, Step(w, ops[0]), ops[1..]))
  }

  // ------------------------------------------------------------------ frame

  /** Everything that is not about session `id` is the same in both worlds. */
  ghost predicate Framed(exact: bool, w: World, v: World, id: Id) {
    && (forall x :: x != id ==> PartOf(w, x) == PartOf(v, x) && SnapOf(w, x) == SnapOf(v, x))
    && (forall x :: x != id ==> (x in w.running <==> x in v.running) && (x in w.manifests <==> x in v.manifests) && (x in w.origin <==> x in v.origin))
    && (forall x :: x != id && x in w.running ==> w.running[x] == v.running[x])
    && (forall x :: x != id && x in w.manifests ==> w.manifests[x] == v.manifests[x])
    && (forall x :: x != id && x in w.origin ==> w.origin[x] == v.origin[x])
    && (forall p, x :: x != id ==> (MarkedBy(w, p, x) <==> MarkedBy(v, p, x)))
    && (forall p :: p in v.marks && p !in w.marks ==> id in w.running && p in w.running[id].paths)
    && (forall p, k: Key :: k.id != id && Agree(exact, w, p, k) ==> Agree(exact, v, p, k))
  }

  /** A step of session `id` that leaves the other sessions' files, markers and rows alone. */
  lemma FramedBy(exact: bool, w: World, v: World, id: Id)
    requires v.recs - {id} == w.recs - {id} && v.snaps - {id} == w.snaps - {id}
    requires v.manifests - {id} == w.manifests - {id} && v.origin - {id} == w.origin - {id}
    requires v.running - {id} == w.running - {id}
    requires forall p, x :: x != id ==> (MarkedBy(w, p, x) <==> MarkedBy(v, p, x))
    requires forall p :: p in v.marks && p !in w.marks ==> id in w.running && p in w.running[id].paths
    requires forall p, k: Key :: k.id != id && Agree(exact, w, p, k) ==> Agree(exact, v, p, k)
    ensures Framed(exact, w, v, id)
  {
    forall x | x != id
      ensures (x in w.recs <==> x in v.recs) && (x in w.snaps <==> x in v.snaps) && (x in w.running <==> x in v.running)
      ensures (x in w.manifests <==> x in v.manifests) && (x in w.origin <==> x in v.origin)
      ensures x in w.recs ==> w.recs[x] == v.recs[x]
      ensures x in w.snaps ==> w.snaps[x] == v.snaps[x]
      ensures x in w.running ==> w.running[x] == v.running[x]
      ensures x in w.manifests ==> w.manifests[x] == v.manifests[x]
      ensures x in w.origin ==> w.origin[x] == v.origin[x]
    {
      assert x in w.recs <==> x in w.recs - {id};
      assert x in w.snaps <==> x in w.snaps - {id};
      assert x in w.running <==> x in w.running - {id};
      assert x in w.manifests <==> x in w.manifests - {id};
      assert x in w.origin <==> x in w.origin - {id};
      assert x in w.recs ==> w.recs[x] == (w.recs - {id})[x] == v.recs[x];
      assert x in w.snaps ==> w.snaps[x] == (w.snaps - {id})[x] == v.snaps[x];
      assert x in w.running ==> w.running[x] == (w.running - {id})[x] == v.running[x];
      assert x in w.manifests ==> w.manifests[x] == (w.manifests - {id})[x] == v.manifests[x];
      assert x in w.origin ==> w.origin[x] == (w.origin - {id})[x] == v.origin[x];
    }
  }

  lemma FrameProc(exact: bool, w: World, v: World, id: Id, x: Id)
    requires Framed(exact, w, v, id) && x != id && x in w.running && ProcInv(exact, w, x, w.running[x])
    requires id in w.running ==> w.running[id].paths !! w.running[x].paths
    ensures ProcInv(exact, v, x, v.running[x])
  {
    var pr := w.running[x];
    assert PartOf(w, x) == PartOf(v, x) && SnapOf(w, x) == SnapOf(v, x);
    forall p | p in pr.paths && p in v.marks
      ensures MarkedBy(v, p, x) && p in w.marks
    {
      if p !in w.marks { assert false; }
      assert MarkedBy(w, p, x);
    }
    FrameGoal(exact, w, v, id, x);
  }

  lemma FrameGoal(exact: bool, w: World, v: World, id: Id, x: Id)
    requires Framed(exact, w, v, id) && x != id && x in w.running && GoalInv(exact, w, x, w.running[x])
    ensures GoalInv(exact, v, x, v.running[x])
  {
    assert PartOf(w, x) == PartOf(v, x) && SnapOf(w, x) == SnapOf(v, x);
    var pr := w.running[x];
    if pr.goal.Recover? && pr.phase.Record? {
      FrameUndecided(exact, w, v, id, x, pr.paths);
    }
  }

  lemma FrameUndecided(exact: bool, w: World, v: World, id: Id, x: Id, paths: set<Index>)
    requires Framed(exact, w, v, id) && x != id && Undecided(w, x, paths)
    ensures Undecided(v, x, paths)
  {
    assert PartOf(w, x) == PartOf(v, x) && SnapOf(w, x) == SnapOf(v, x);
  }

  lemma FrameStatus(exact: bool, w: World, v: World, id: Id, x: Id)
    requires Framed(exact, w, v, id) && x != id && Status(exact, w, x) && Locks(w)
    ensures Status(exact, v, x)
  {
    assert PartOf(w, x) == PartOf(v, x) && SnapOf(w, x) == SnapOf(v, x);
    if x in w.running {
      FrameProc(exact, w, v, id, x);
    } else if x in w.manifests {
      FrameUndecided(exact, w, v, id, x, w.manifests[x].paths);
    }
  }

  /** A step that frames all other sessions keeps the invariant if it keeps its own session's part. */
  lemma Assemble(exact: bool, w: World, v: World, id: Id)
    requires Inv(exact, w) && Framed(exact, w, v, id)
    requires Status(exact, v, id) && Locks(v)
    requires forall p, k: Key :: k.id == id ==> Agree(exact, v, p, k) || MarkedBy(v, p, id)
    requires forall p :: MarkedBy(v, p, id) ==> id in v.manifests && p in v.manifests[id].paths
    ensures Inv(exact, v)
  {
    forall x ensures Status(exact, v, x) {
      if x != id { FrameStatus(exact, w, v, id, x); }
    }
    forall p, k ensures Agree(exact, v, p, k) || MarkedBy(v, p, k.id) {
      if k.id != id { assert Agree(exact, w, p, k) || MarkedBy(w, p, k.id); }
    }
    forall p | p in v.marks ensures v.marks[p] in v.manifests && p in v.manifests[v.marks[p]].paths {
      if v.marks[p] != id { assert MarkedBy(v, p, v.marks[p]); assert MarkedBy(w, p, v.marks[p]); }
      else { assert MarkedBy(v, p, id); }
    }
  }
}
