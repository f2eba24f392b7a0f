/** The lineage mutations of jsonlstore as they run: loops over sorted partition paths, one file
    operation at a time, with the process free to die before any of them. */
module LineageCatalog {
  import opened LineageMachine
  import opened LineageSafety
  import opened LineageSteps

  lemma RunSnoc(w: World, ops: seq<Op>, op: Op)
    ensures Run(w, ops + [op]) == Step(Run(w, ops), op)
    decreases |ops|
  {
    if ops == [] { assert [op][1..] == []; }
    else {
      assert (ops + [op])[0] == ops[0] && (ops + [op])[1..] == ops[1..] + [op];
      RunSnoc(Step(w, ops[0]), ops[1..], op);
    }
  }

  function ToSet(s: seq<Index>): set<Index> {
    set p | p in s
  }

  ghost predicate Distinct(s: seq<Index>) {
    forall i, j :: 0 <= i < j < |s| ==> s[i] != s[j]
  }

  lemma Remaining(s: seq<Index>, n: nat)
    requires Distinct(s) && n < |s|
    ensures ToSet(s[n..]) - {s[n]} == ToSet(s[n + 1..])
    ensures s[n] in ToSet(s[n..])
    ensures ToSet(s[n..]) == {s[n]} <==> n + 1 == |s|
  {
    assert s[n..] == [s[n]] + s[n + 1..];
    if n + 1 < |s| { assert s[n..][1] == s[n + 1] && s[n + 1] in ToSet(s[n..]); }
  }

  // ------------------------------------------------------------------ the steps, one phase at a time

  lemma BeginStep(w: World, id: Id, pr: Proc, at: Index)
    requires id in w.running && w.running[id] == pr && pr.phase.Begin?
    ensures Step(w, Advance(id, at)) == w.(
              manifests := w.manifests[id := Manifest(pr.paths, pr.prior)],
              origin := w.origin[id := if pr.goal.Save? then OfSave(SnapOf(w, id), pr.goal.snap) else OfDelete(SnapOf(w, id))],
              running := w.running[id := pr.(phase := Marking(pr.paths))])
  {
  }

  lemma MarkStep(w: World, id: Id, pr: Proc, s: seq<Index>, n: nat)
    requires Distinct(s) && n < |s|
    requires id in w.running && w.running[id] == pr.(phase := Marking(ToSet(s[n..])))
    ensures Step(w, Advance(id, s[n])) == w.(
              marks := w.marks[s[n] := id], running := w.running[id := pr.(phase := AfterMark(pr, s, n + 1))])
  {
    Remaining(s, n);
  }

  function AfterMark(pr: Proc, s: seq<Index>, n: nat): Phase
    requires n <= |s|
  {
    if n < |s| then Marking(ToSet(s[n..])) else if pr.goal.Save? then Snapshot else Record
  }

  lemma RecordStep(w: World, id: Id, pr: Proc, at: Index)
    requires id in w.running && w.running[id] == pr && pr.phase.Record?
    ensures Step(w, Advance(id, at)) == w.(
              recs := w.recs[id := pr.rows], running := w.running[id := pr.(phase := Publishing(pr.paths))])
  {
  }

  function AfterPublish(pr: Proc, s: seq<Index>, n: nat): Phase
    requires n <= |s|
  {
    if n < |s| then Publishing(ToSet(s[n..])) else if pr.goal.Delete? then Dropping else Clearing(pr.paths)
  }

  lemma PublishStep(w: World, id: Id, pr: Proc, s: seq<Index>, n: nat)
    requires Distinct(s) && n < |s|
    requires id in w.running && w.running[id] == pr.(phase := Publishing(ToSet(s[n..])))
    ensures Step(w, Advance(id, s[n])) == w.(
              idx := w.idx[s[n] := Published(s[n], id, pr.rows, IndexOf(w, s[n]))],
              running := w.running[id := pr.(phase := AfterPublish(pr, s, n + 1))])
  {
    Remaining(s, n);
  }

  function AfterClear(s: seq<Index>, n: nat): Phase
    requires n <= |s|
  {
    if n < |s| then Clearing(ToSet(s[n..])) else Final
  }

  lemma ClearStep(w: World, id: Id, pr: Proc, s: seq<Index>, n: nat)
    requires Distinct(s) && n < |s|
    requires id in w.running && w.running[id] == pr.(phase := Clearing(ToSet(s[n..])))
    ensures Step(w, Advance(id, s[n])) == w.(
              marks := w.marks - {s[n]}, running := w.running[id := pr.(phase := AfterClear(s, n + 1))])
  {
    Remaining(s, n);
  }

  lemma DropStep(w: World, id: Id, pr: Proc, at: Index)
    requires id in w.running && w.running[id] == pr && pr.phase.Dropping?
    ensures Step(w, Advance(id, at)) == w.(
              snaps := w.snaps - {id}, running := w.running[id := pr.(phase := Clearing(pr.paths))])
  {
  }

  lemma SnapshotStep(w: World, id: Id, pr: Proc, at: Index)
    requires id in w.running && w.running[id] == pr && pr.phase.Snapshot? && pr.goal.Save?
    ensures Step(w, Advance(id, at)) == w.(
              snaps := w.snaps[id := pr.goal.snap], running := w.running[id := pr.(phase := Record)])
  {
  }

  lemma FinalStep(w: World, id: Id, at: Index)
    requires id in w.running && w.running[id].phase.Final?
    ensures Step(w, Advance(id, at)) == w.(
              manifests := w.manifests - {id}, origin := w.origin - {id}, running := w.running - {id})
  {
  }

  function SaveProc(snap: Snap, prior: Part, now: nat, paths: set<Index>): Proc {
    Proc(Save(snap), paths, prior, NewRows(snap.inc, RowOf(snap), prior, now), now, Begin)
  }

  lemma StartSaveStep(w: World, id: Id, snap: Snap, now: nat, paths: set<Index>)
    requires Idle(w, id) && paths == Affected(id, snap.inc, RowOf(snap), PartOf(w, id))
    requires Unlocked(w, paths) && Undirtied(w, paths)
    ensures Step(w, StartSave(id, snap, now)) == w.(running := w.running[id := SaveProc(snap, PartOf(w, id), now, paths)])
  {
  }

  function DeleteProc(i: Inc, prior: Part, now: nat, paths: set<Index>): Proc
    requires i in prior
  {
    Proc(Delete, paths, prior, NewRows(i, Stamp(prior[i], now), prior, now), now, Begin)
  }

  lemma StartDeleteStep(w: World, id: Id, i: Inc, now: nat, paths: set<Index>)
    requires Idle(w, id) && OneRetained(PartOf(w, id), i) && paths == Affected(id, i, PartOf(w, id)[i], PartOf(w, id))
    requires Unlocked(w, paths) && Undirtied(w, paths)
    ensures Step(w, StartDelete(id, now)) == w.(running := w.running[id := DeleteProc(i, PartOf(w, id), now, paths)])
  {
    RetainedUnique(PartOf(w, id), i, now);
  }

  function RecoverProc(i: Inc, r: Row, m: Manifest, now: nat): Proc {
    Proc(Recover, m.paths, m.prior, NewRows(i, r, m.prior, now), now, Record)
  }

  lemma StartRecoverStep(w: World, id: Id, i: Inc, r: Row, now: nat)
    requires id !in w.running && id in w.manifests && Unlocked(w, w.manifests[id].paths)
    requires Recovered(SnapOf(w, id), w.manifests[id].prior, now) == Some((i, r))
    requires Affected(id, i, r, w.manifests[id].prior) <= w.manifests[id].paths
    ensures Recoverable(w, id)
    ensures Step(w, StartRecover(id, now)) == w.(running := w.running[id := RecoverProc(i, r, w.manifests[id], now)])
  {
    var m := w.manifests[id];
    if SnapOf(w, id).None? {
      RetainedUnique(m.prior, i, now);
      RetainedUnique(m.prior, i, 1);
      AffectedSubjects(id, i, r, Stamp(m.prior[i], 1), m.prior);
    }
  }

  // ------------------------------------------------------------------ what becomes of the rows

  /** An old row keeps what it says; a retained one has ended now. */
  predicate Carried(a: Row, b: Row, now: nat) {
    && b.subjects == a.subjects && b.meta == a.meta && b.life.Pruned?
    && b.deletedAt == if a.life.Retained? then now else a.deletedAt
  }

  /** The snapshot's incarnation is the one retained row, with the snapshot's subjects and metadata; every
      other old row is carried over, and there are no more. */
  predicate Filed(prior: Part, part: Part, s: Snap, now: nat) {
    && part.Keys == prior.Keys + {s.inc}
    && part[s.inc].subjects == s.subjects && part[s.inc].meta == s.meta && part[s.inc].life.Retained?
    && forall j :: j in prior && j != s.inc ==> Carried(prior[j], part[j], now)
  }

  predicate AllCarried(prior: Part, part: Part, now: nat) {
    part.Keys == prior.Keys && forall j :: j in prior ==> Carried(prior[j], part[j], now)
  }

  lemma NewRowsFile(s: Snap, prior: Part, now: nat)
    ensures Filed(prior, NewRows(s.inc, RowOf(s), prior, now), s, now)
  {
  }

  lemma NewRowsCarry(i: Inc, prior: Part, now: nat)
    requires OneRetained(prior, i)
    ensures AllCarried(prior, NewRows(i, Stamp(prior[i], now), prior, now), now)
  {
  }

  // ------------------------------------------------------------------ the scan for the retained row

  datatype Scan = NoRow | OneRow(inc: Inc) | ManyRows

  /** The loop over the old rows that looks for the retained one. */
  method FindRetained(prior: Part, order: seq<Inc>) returns (r: Scan)
    requires (set i | i in order) == prior.Keys && forall a, b :: 0 <= a < b < |order| ==> order[a] != order[b]
    ensures r.OneRow? ==> OneRetained(prior, r.inc)
    ensures !r.OneRow? ==> forall i :: !OneRetained(prior, i)
    ensures r.NoRow? <==> forall i :: i in prior ==> prior[i].life.Pruned?
  {
    r := NoRow;
    for n := 0 to |order|
      invariant forall a :: 0 <= a < |order| ==> order[a] in prior
      invariant !r.ManyRows?
      invariant r.NoRow? ==> forall a :: 0 <= a < n ==> prior[order[a]].life.Pruned?
      invariant r.OneRow? ==> r.inc in order[..n] && prior[r.inc].life.Retained?
      invariant r.OneRow? ==> forall a :: 0 <= a < n && order[a] != r.inc ==> prior[order[a]].life.Pruned?
    {
      if prior[order[n]].life.Retained? {
        if r.OneRow? {
          assert order[n] != r.inc;
          return ManyRows;
        }
        r := OneRow(order[n]);
      }
    }
    forall i | i in prior ensures i in order { assert i in (set j | j in order); }
  }

  datatype Outcome = Done | Dirty | Unproved | Died

  class Catalog {
    var recs: map<Id, Part>
    var idx: map<Index, map<Key, Row>>
    var manifests: map<Id, Manifest>
    var marks: map<Index, Id>
    var snaps: map<Id, Snap>

    /** How many more file operations the process survives. */
    var budget: nat

    /** Mutations in flight and the history that the machine keeps. */
    ghost var running: map<Id, Proc>
    ghost var origin: map<Id, Origin>

    /** The machine steps taken since `start`. */
    ghost var start: World
    ghost var trace: seq<Op>

    ghost function Now(): World
      reads this`recs, this`idx, this`manifests, this`marks, this`snaps, this`running, this`origin
    {
      World(recs, idx, manifests, marks, snaps, running, origin)
    }

    /** The files are where the machine is after the trace. */
    ghost predicate Valid()
      reads this`recs, this`idx, this`manifests, this`marks, this`snaps, this`running, this`origin, this`start, this`trace
    {
      Now() == Run(start, trace)
    }

    ghost predicate Stands(id: Id, pr: Proc)
      reads this`recs, this`idx, this`manifests, this`marks, this`snaps, this`running, this`origin, this`start, this`trace
    {
      Valid() && id in running && running[id] == pr
    }

    /** The files have just moved from `w` by `op`. */
    ghost method Took(w: World, op: Op)
      requires w == Run(start, trace) && Now() == Step(w, op)
      modifies this`trace
      ensures Valid()
    {
      RunSnoc(start, trace, op);
      trace := trace + [op];
    }

    /** The process dies: its locks are released and its files stay as they are. */
    ghost method Die(id: Id)
      requires Valid()
      modifies this`running, this`trace
      ensures Valid() && running == old(running) - {id}
    {
      ghost var w := Now();
      running := running - {id};
      Took(w, Crash(id));
    }

    /** The manifest, the first file of a mutation. */
    method WriteManifest(id: Id, prior: Part, paths: seq<Index>, ghost pr: Proc)
      requires Stands(id, pr) && pr.phase.Begin? && paths != [] && ToSet(paths) == pr.paths && prior == pr.prior
      modifies this`manifests, this`origin, this`running, this`trace
      ensures Stands(id, pr.(phase := Marking(pr.paths))) && running - {id} == old(running) - {id}
      ensures manifests == old(manifests)[id := Manifest(ToSet(paths), prior)]
    {
      hide Step, Run, ToSet;
      ghost var w := Now();
      BeginStep(w, id, pr, paths[0]);
      manifests := manifests[id := Manifest(ToSet(paths), prior)];
      origin := origin[id := if pr.goal.Save? then OfSave(SnapOf(w, id), pr.goal.snap) else OfDelete(SnapOf(w, id))];
      running := running[id := pr.(phase := Marking(pr.paths))];
      Took(w, Advance(id, paths[0]));
    }

    method MarkOne(id: Id, paths: seq<Index>, n: nat, ghost pr: Proc)
      requires Distinct(paths) && n < |paths| && Stands(id, pr.(phase := Marking(ToSet(paths[n..]))))
      modifies this`running, this`trace, this`marks
      ensures Stands(id, pr.(phase := AfterMark(pr, paths, n + 1))) && running - {id} == old(running) - {id}
    {
      hide Step, Run, ToSet;
      ghost var w := Now();
      MarkStep(w, id, pr, paths, n);
      marks := marks[paths[n] := id];
      running := running[id := pr.(phase := AfterMark(pr, paths, n + 1))];
      Took(w, Advance(id, paths[n]));
    }

    method MarkDirty(id: Id, prior: Part, paths: seq<Index>, ghost pr: Proc) returns (ok: bool)
      requires Stands(id, pr) && pr.phase.Begin?
      requires paths != [] && Distinct(paths) && ToSet(paths) == pr.paths && prior == pr.prior
      modifies this`budget, this`manifests, this`origin, this`running, this`trace, this`marks
      ensures Valid()
      ensures !ok ==> running == old(running) - {id} && budget == 0
      ensures ok ==> Stands(id, pr.(phase := if pr.goal.Save? then Snapshot else Record))
      ensures ok ==> id in manifests && running - {id} == old(running) - {id}
    {
      hide Step, Run, ToSet;
      if budget == 0 { Die(id); return false; }
      budget := budget - 1;
      WriteManifest(id, prior, paths, pr);
      assert paths[0..] == paths;
      for n := 0 to |paths|
        invariant running - {id} == old(running) - {id} && id in manifests
        invariant Stands(id, pr.(phase := AfterMark(pr, paths, n)))
      {
        if budget == 0 { Die(id); return false; }
        budget := budget - 1;
        MarkOne(id, paths, n, pr);
      }
      return true;
    }

    method WriteRecord(id: Id, rows: Part, at: Index, ghost pr: Proc)
      requires Stands(id, pr) && pr.phase.Record? && rows == pr.rows
      modifies this`running, this`trace, this`recs
      ensures Stands(id, pr.(phase := Publishing(pr.paths))) && running - {id} == old(running) - {id}
      ensures recs == old(recs)[id := rows]
    {
      hide Step, Run;
      ghost var w := Now();
      RecordStep(w, id, pr, at);
      recs := recs[id := rows];
      running := running[id := pr.(phase := Publishing(pr.paths))];
      Took(w, Advance(id, at));
    }

    method PublishOne(id: Id, rows: Part, paths: seq<Index>, n: nat, ghost pr: Proc)
      requires Distinct(paths) && n < |paths| && rows == pr.rows && Stands(id, pr.(phase := Publishing(ToSet(paths[n..]))))
      modifies this`running, this`trace, this`idx
      ensures Stands(id, pr.(phase := AfterPublish(pr, paths, n + 1))) && running - {id} == old(running) - {id}
    {
      hide Step, Run, ToSet, Published;
      ghost var w := Now();
      PublishStep(w, id, pr, paths, n);
      var present := if paths[n] in idx then idx[paths[n]] else map[];
      idx := idx[paths[n] := Published(paths[n], id, rows, present)];
      running := running[id := pr.(phase := AfterPublish(pr, paths, n + 1))];
      Took(w, Advance(id, paths[n]));
    }

    method Publish(id: Id, rows: Part, paths: seq<Index>, ghost pr: Proc) returns (ok: bool)
      requires Stands(id, pr) && pr.phase.Record?
      requires paths != [] && Distinct(paths) && ToSet(paths) == pr.paths && rows == pr.rows
      modifies this`budget, this`running, this`trace, this`recs, this`idx
      ensures Valid()
      ensures !ok ==> running == old(running) - {id} && budget == 0
      ensures ok ==> Stands(id, pr.(phase := if pr.goal.Delete? then Dropping else Clearing(pr.paths)))
      ensures ok ==> recs == old(recs)[id := rows] && running - {id} == old(running) - {id}
    {
      hide Step, Run, ToSet, Published;
      if budget == 0 { Die(id); return false; }
      budget := budget - 1;
      WriteRecord(id, rows, paths[0], pr);
      assert paths[0..] == paths;
      for n := 0 to |paths|
        invariant recs == old(recs)[id := rows] && running - {id} == old(running) - {id}
        invariant Stands(id, pr.(phase := AfterPublish(pr, paths, n)))
      {
        if budget == 0 { Die(id); return false; }
        budget := budget - 1;
        PublishOne(id, rows, paths, n, pr);
      }
      return true;
    }

    method ClearOne(id: Id, paths: seq<Index>, n: nat, ghost pr: Proc)
      requires Distinct(paths) && n < |paths| && Stands(id, pr.(phase := Clearing(ToSet(paths[n..]))))
      modifies this`running, this`trace, this`marks
      ensures Stands(id, pr.(phase := AfterClear(paths, n + 1))) && running - {id} == old(running) - {id}
      ensures marks == old(marks) - {paths[n]}
    {
      hide Step, Run, ToSet;
      ghost var w := Now();
      ClearStep(w, id, pr, paths, n);
      marks := marks - {paths[n]};
      running := running[id := pr.(phase := AfterClear(paths, n + 1))];
      Took(w, Advance(id, paths[n]));
    }

    /** Index markers first, the manifest last: record files sort behind edge and point files. */
    method ClearDirty(id: Id, paths: seq<Index>, ghost pr: Proc) returns (ok: bool)
      requires Stands(id, pr) && pr.phase == Clearing(pr.paths)
      requires paths != [] && Distinct(paths) && ToSet(paths) == pr.paths
      modifies this`budget, this`manifests, this`origin, this`running, this`trace, this`marks
      ensures Valid()
      ensures running == old(running) - {id} && (!ok ==> budget == 0)
      ensures ok ==> id !in manifests && forall i :: 0 <= i < |paths| ==> paths[i] !in marks
    {
      hide Step, Run, ToSet;
      assert paths[0..] == paths;
      for n := 0 to |paths|
        invariant running - {id} == old(running) - {id}
        invariant Stands(id, pr.(phase := AfterClear(paths, n)))
        invariant forall i :: 0 <= i < n ==> paths[i] !in marks
      {
        if budget == 0 { Die(id); return false; }
        budget := budget - 1;
        ClearOne(id, paths, n, pr);
      }
      if budget == 0 { Die(id); return false; }
      budget := budget - 1;
      ghost var w := Now();
      FinalStep(w, id, paths[0]);
      manifests := manifests - {id};
      origin := origin - {id};
      running := running - {id};
      Took(w, Advance(id, paths[0]));
      return true;
    }

    /** The mutation `pr` starts. */
    ghost method Enter(id: Id, pr: Proc, op: Op)
      requires Valid() && id !in running && Step(Now(), op) == Now().(running := running[id := pr])
      modifies this`running, this`trace
      ensures Stands(id, pr) && running == old(running)[id := pr]
    {
      hide Step, Run;
      var w := Now();
      running := running[id := pr];
      Took(w, op);
    }

    method WriteSnapshot(id: Id, snap: Snap, at: Index, ghost pr: Proc)
      requires Stands(id, pr) && pr.phase.Snapshot? && pr.goal == Save(snap)
      modifies this`running, this`trace, this`snaps
      ensures Stands(id, pr.(phase := Record)) && running - {id} == old(running) - {id}
      ensures snaps == old(snaps)[id := snap]
    {
      hide Step, Run;
      ghost var w := Now();
      SnapshotStep(w, id, pr, at);
      snaps := snaps[id := snap];
      running := running[id := pr.(phase := Record)];
      Took(w, Advance(id, at));
    }

    method DropSnapshot(id: Id, at: Index, ghost pr: Proc)
      requires Stands(id, pr) && pr.phase.Dropping?
      modifies this`running, this`trace, this`snaps
      ensures Stands(id, pr.(phase := Clearing(pr.paths))) && running - {id} == old(running) - {id}
      ensures snaps == old(snaps) - {id}
    {
      hide Step, Run;
      ghost var w := Now();
      DropStep(w, id, pr, at);
      snaps := snaps - {id};
      running := running[id := pr.(phase := Clearing(pr.paths))];
      Took(w, Advance(id, at));
    }

    /** Save and Create under the family lock, once recovery has run and the partition locks are held. */
    method Mutate(id: Id, snap: Snap, now: nat, paths: seq<Index>) returns (r: Outcome)
      requires Valid() && Idle(Now(), id) && Unlocked(Now(), ToSet(paths)) && Distinct(paths)
      requires ToSet(paths) == Affected(id, snap.inc, RowOf(snap), PartOf(Now(), id))
      modifies this
      ensures Valid() && start == old(start) && id !in running && !r.Unproved? && (r.Died? ==> budget == 0)
      ensures r.Dirty? <==> !old(Undirtied(Now(), ToSet(paths)))
      ensures r.Dirty? ==> Now() == old(Now())
      ensures r.Done? ==> snaps == old(snaps)[id := snap] && id !in manifests
      ensures r.Done? ==> recs == old(recs)[id := NewRows(snap.inc, RowOf(snap), PartOf(old(Now()), id), now)]
      ensures r.Done? ==> Filed(old(PartOf(Now(), id)), recs[id], snap, now)
    {
      hide Step, Run, NewRows, Affected, RowOf, ToSet, Distinct, Unlocked, Undirtied, Filed;
      var dirty := AnyDirty(paths);
      if dirty { return Dirty; }
      var prior := if id in recs then recs[id] else map[];
      AffectedNonEmpty(id, snap.inc, RowOf(snap), prior, paths);
      StartSaveStep(Now(), id, snap, now, ToSet(paths));
      ghost var pr := SaveProc(snap, prior, now, ToSet(paths));
      Enter(id, pr, StartSave(id, snap, now));
      r := FinishSave(id, snap, now, prior, paths, pr);
      NewRowsFile(snap, prior, now);
    }

    method FinishSave(id: Id, snap: Snap, now: nat, prior: Part, paths: seq<Index>, ghost pr: Proc) returns (r: Outcome)
      requires Distinct(paths) && paths != [] && pr == SaveProc(snap, prior, now, ToSet(paths)) && Stands(id, pr)
      modifies this`budget, this`manifests, this`origin, this`running, this`trace, this`marks, this`recs, this`idx, this`snaps
      ensures Valid() && id !in running && (r.Done? || r.Died?) && (r.Died? ==> budget == 0)
      ensures r.Done? ==> snaps == old(snaps)[id := snap] && id !in manifests
      ensures r.Done? ==> recs == old(recs)[id := NewRows(snap.inc, RowOf(snap), prior, now)]
    {
      hide Valid, NewRows, RowOf, ToSet, Distinct;
      var ok := MarkDirty(id, prior, paths, pr);
      if !ok { return Died; }
      if budget == 0 { Die(id); return Died; }
      budget := budget - 1;
      WriteSnapshot(id, snap, paths[0], pr.(phase := Snapshot));
      ok := Publish(id, NewRows(snap.inc, RowOf(snap), prior, now), paths, pr.(phase := Record));
      if !ok { return Died; }
      ok := ClearDirty(id, paths, pr.(phase := Clearing(pr.paths)));
      return if ok then Done else Died;
    }

    /** Delete under the same locks. A session without a retained row has no snapshot to drop either. */
    method Prune(id: Id, order: seq<Inc>, now: nat, paths: seq<Index>) returns (r: Outcome)
      requires Valid() && Idle(Now(), id) && Unlocked(Now(), ToSet(paths)) && Distinct(paths)
      requires Coherent(PartOf(Now(), id), SnapOf(Now(), id))
      requires (set i | i in order) == PartOf(Now(), id).Keys && forall a, b :: 0 <= a < b < |order| ==> order[a] != order[b]
      requires forall i :: OneRetained(PartOf(Now(), id), i) ==> ToSet(paths) == Affected(id, i, PartOf(Now(), id)[i], PartOf(Now(), id))
      modifies this
      ensures Valid() && start == old(start) && id !in running && !r.Unproved? && (r.Died? ==> budget == 0)
      ensures r.Dirty? <==> id in old(snaps) && !old(Undirtied(Now(), ToSet(paths)))
      ensures r.Dirty? ==> Now() == old(Now())
      ensures r.Done? ==> snaps == old(snaps) - {id} && id !in manifests
      ensures r.Done? && id in old(snaps) ==>
                recs == old(recs)[id := NewRows(old(snaps)[id].inc, Stamp(PartOf(old(Now()), id)[old(snaps)[id].inc], now), PartOf(old(Now()), id), now)]
      ensures r.Done? && id in old(snaps) ==> AllCarried(old(PartOf(Now(), id)), recs[id], now)
      ensures r.Done? && id !in old(snaps) ==> Now() == old(Now())
    {
      hide Step, Run, NewRows, Affected, ToSet, Distinct, Unlocked, Undirtied, AllCarried;
      var prior := if id in recs then recs[id] else map[];
      var scan := FindRetained(prior, order);
      if scan.NoRow? {
        assert snaps - {id} == snaps;
        snaps := snaps - {id};
        return Done;
      }
      assert scan.OneRow? && scan.inc == snaps[id].inc by { assert OneRetained(prior, snaps[id].inc); }
      var i := scan.inc;
      var dirty := AnyDirty(paths);
      if dirty { return Dirty; }
      AffectedNonEmpty(id, i, prior[i], prior, paths);
      StartDeleteStep(Now(), id, i, now, ToSet(paths));
      ghost var pr := DeleteProc(i, prior, now, ToSet(paths));
      Enter(id, pr, StartDelete(id, now));
      r := FinishDelete(id, i, now, prior, paths, pr);
      NewRowsCarry(i, prior, now);
    }

    method FinishDelete(id: Id, i: Inc, now: nat, prior: Part, paths: seq<Index>, ghost pr: Proc) returns (r: Outcome)
      requires i in prior && Distinct(paths) && paths != [] && pr == DeleteProc(i, prior, now, ToSet(paths)) && Stands(id, pr)
      modifies this`budget, this`manifests, this`origin, this`running, this`trace, this`marks, this`recs, this`idx, this`snaps
      ensures Valid() && id !in running && (r.Done? || r.Died?) && (r.Died? ==> budget == 0)
      ensures r.Done? ==> snaps == old(snaps) - {id} && id !in manifests
      ensures r.Done? ==> recs == old(recs)[id := NewRows(i, Stamp(prior[i], now), prior, now)]
    {
      hide Valid, NewRows, ToSet, Distinct;
      var ok := MarkDirty(id, prior, paths, pr);
      if !ok { return Died; }
      ok := Publish(id, NewRows(i, Stamp(prior[i], now), prior, now), paths, pr.(phase := Record));
      if !ok { return Died; }
      if budget == 0 { Die(id); return Died; }
      budget := budget - 1;
      DropSnapshot(id, paths[0], pr.(phase := Dropping));
      ok := ClearDirty(id, paths, pr.(phase := Clearing(pr.paths)));
      return if ok then Done else Died;
    }

    /** Recovery: settle on a record, check that the manifest covers it, publish and clear. */
    method Redo(id: Id, order: seq<Inc>, now: nat, paths: seq<Index>) returns (r: Outcome)
      requires Valid() && id !in running
      requires id in manifests ==> paths != [] && Distinct(paths) && ToSet(paths) == manifests[id].paths && Unlocked(Now(), ToSet(paths))
      requires id in manifests ==> (set i | i in order) == manifests[id].prior.Keys && forall a, b :: 0 <= a < b < |order| ==> order[a] != order[b]
      modifies this
      ensures Valid() && start == old(start) && id !in running && snaps == old(snaps) && !r.Dirty? && (r.Died? ==> budget == 0)
      ensures r.Unproved? <==> id in old(manifests) && !old(Recoverable(Now(), id))
      ensures r.Unproved? ==> Now() == old(Now())
      ensures r.Done? ==> id !in manifests && (id !in old(manifests) ==> Now() == old(Now()))
      ensures r.Done? && id in old(manifests) ==> recs == old(recs)[id := Rebuilt(old(Now()), id, now)]
      ensures r.Done? && id in old(manifests) && id in snaps ==> Filed(old(manifests)[id].prior, recs[id], snaps[id], now)
      ensures r.Done? && id in old(manifests) && id !in snaps ==> AllCarried(old(manifests)[id].prior, recs[id], now)
      ensures r.Done? && id in old(manifests) ==> forall p :: p in old(manifests)[id].paths ==> p !in marks
    {
      hide Step, Run, NewRows, Affected, RowOf, Filed, AllCarried, ToSet, Distinct;
      if id !in manifests { return Done; }
      var m := manifests[id];
      var i, row;
      if id in snaps {
        i, row := snaps[id].inc, RowOf(snaps[id]);
        NewRowsFile(snaps[id], m.prior, now);
      } else {
        var scan := FindRetained(m.prior, order);
        if !scan.OneRow? { return Unproved; }
        i, row := scan.inc, Stamp(m.prior[scan.inc], now);
        RetainedUnique(m.prior, i, now);
        RetainedUnique(m.prior, i, 1);
        AffectedSubjects(id, i, row, Stamp(m.prior[i], 1), m.prior);
        NewRowsCarry(i, m.prior, now);
      }
      if !(Affected(id, i, row, m.prior) <= m.paths) { return Unproved; }
      ghost var pr := RecoverProc(i, row, m, now);
      StartRecoverStep(Now(), id, i, row, now);
      Enter(id, pr, StartRecover(id, now));
      r := FinishRedo(id, NewRows(i, row, m.prior, now), paths, pr);
    }

    method FinishRedo(id: Id, rows: Part, paths: seq<Index>, ghost pr: Proc) returns (r: Outcome)
      requires Stands(id, pr) && pr.phase.Record? && pr.goal.Recover? && rows == pr.rows
      requires paths != [] && Distinct(paths) && ToSet(paths) == pr.paths
      modifies this`budget, this`manifests, this`origin, this`running, this`trace, this`marks, this`recs, this`idx
      ensures Valid() && id !in running && (r.Done? || r.Died?) && (r.Died? ==> budget == 0)
      ensures r.Done? ==> recs == old(recs)[id := rows] && id !in manifests && forall p :: p in pr.paths ==> p !in marks
    {
      hide Valid, Distinct;
      var ok := Publish(id, rows, paths, pr);
      if !ok { return Died; }
      ok := ClearDirty(id, paths, pr.(phase := Clearing(pr.paths)));
      return if ok then Done else Died;
    }

    method AnyDirty(paths: seq<Index>) returns (dirty: bool)
      ensures dirty <==> !Undirtied(Now(), ToSet(paths))
    {
      for n := 0 to |paths|
        invariant forall a :: 0 <= a < n ==> paths[a] !in marks
      {
        if paths[n] in marks {
          assert paths[n] in ToSet(paths);
          return true;
        }
      }
      return false;
    }
  }

  lemma AffectedNonEmpty(id: Id, i: Inc, r: Row, prior: Part, paths: seq<Index>)
    requires ToSet(paths) == Affected(id, i, r, prior)
    ensures paths != []
  {
    assert Edge(Key(id, i)) in Affected(id, i, r, prior);
  }
}
