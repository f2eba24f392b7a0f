/** The lineage index that jsonlstore keeps beside its session snapshots, as a machine of file steps.

    A record partition holds one row per incarnation of a session. Edge and point partitions are an
    index over those rows. Save and Delete write a dirty manifest, mark every affected partition,
    publish snapshot and partitions, then clear the markers; recovery redoes the publication from a
    surviving manifest. Every step below is one file write or remove; a crash may fall between any two.
    SHA-256 file names are taken as injective, so a partition is named by what is hashed. */
module LineageMachine {
  type Id = string
  type Inc = string

  datatype Option<+T> = None | Some(value: T)
  datatype Key = Key(id: Id, inc: Inc)
  datatype Life = Retained | Pruned

  /** One lineage record without its key. `meta` stands for kind, owner scope and call data. */
  datatype Row = Row(subjects: seq<Key>, meta: string, life: Life, deletedAt: nat)

  /** The rows of one record partition, by incarnation. */
  type Part = map<Inc, Row>

  /** An edge or a point partition. */
  datatype Index = Edge(subject: Key) | Point(subject: Key, child: Key)

  /** What the current snapshot of a session says about its lineage. */
  datatype Snap = Snap(inc: Inc, subjects: seq<Key>, meta: string)

  /** The dirty manifest at a record partition: what is listed and the rows before the mutation. */
  datatype Manifest = Manifest(paths: set<Index>, prior: Part)

  datatype Goal = Save(snap: Snap) | Delete | Recover

  /** Where a mutation stands. A set holds the partitions the current loop has still to visit. */
  datatype Phase =
    | Begin
    | Marking(rest: set<Index>)
    | Snapshot
    | Record
    | Publishing(rest: set<Index>)
    | Dropping
    | Clearing(rest: set<Index>)
    | Final

  /** A mutation that holds the partition locks of `paths`. */
  datatype Proc = Proc(goal: Goal, paths: set<Index>, prior: Part, rows: Part, now: nat, phase: Phase)

  /** How a surviving manifest came about: an auxiliary history, never read by a step. */
  datatype Origin = OfSave(before: Option<Snap>, after: Snap) | OfDelete(before: Option<Snap>)

  /** The catalog files and the mutations in flight. The value in `marks` records which session wrote
      the marker; the file itself says only that the partition is incomplete, and no step reads it. */
  datatype World = World(
    recs: map<Id, Part>,
    idx: map<Index, map<Key, Row>>,
    manifests: map<Id, Manifest>,
    marks: map<Index, Id>,
    snaps: map<Id, Snap>,
    running: map<Id, Proc>,
    origin: map<Id, Origin>)

  datatype Op =
    | StartSave(id: Id, snap: Snap, now: nat)
    | StartDelete(id: Id, now: nat)
    | StartRecover(id: Id, now: nat)
    | Advance(id: Id, at: Index)
    | Crash(id: Id)

  const Empty := World(map[], map[], map[], map[], map[], map[], map[])

  // ------------------------------------------------------------------ rows and paths

  function RowOf(s: Snap): Row {
    Row(s.subjects, s.meta, Retained, 0)
  }

  function Stamp(r: Row, now: nat): Row {
    r.(life := Pruned, deletedAt := now)
  }

  function PartOf(w: World, id: Id): Part {
    if id in w.recs then w.recs[id] else map[]
  }

  function SnapOf(w: World, id: Id): Option<Snap> {
    if id in w.snaps then Some(w.snaps[id]) else None
  }

  function IndexOf(w: World, p: Index): map<Key, Row> {
    if p in w.idx then w.idx[p] else map[]
  }

  /** Row `r` of session incarnation `k` belongs in partition `p`. */
  predicate Refers(p: Index, k: Key, r: Row) {
    match p
    case Edge(s) => s in r.subjects
    case Point(s, c) => c == k && s in r.subjects
  }

  function SubjectPaths(k: Key, r: Row): set<Index> {
    (set s | s in r.subjects :: Edge(s)) + (set s | s in r.subjects :: Point(s, k))
  }

  /** The index partitions that replacing the rows `prior` of `id` through record (i, r) can touch. */
  function Affected(id: Id, i: Inc, r: Row, prior: Part): set<Index> {
    {Edge(Key(id, i))} + SubjectPaths(Key(id, i), r)
    + (set j, p | j in prior && p in SubjectPaths(Key(id, j), prior[j]) :: p)
  }

  /** Every other retained incarnation is pruned, then the record replaces its own row. */
  function NewRows(i: Inc, r: Row, prior: Part, now: nat): Part {
    (map j | j in prior :: if prior[j].life.Retained? && j != i then Stamp(prior[j], now) else prior[j])[i := r]
  }

  /** The content publication writes to partition `p` for session `id`. */
  function Published(p: Index, id: Id, rows: Part, present: map<Key, Row>): map<Key, Row> {
    (if p.Point? then map[] else map k | k in present && k.id != id :: present[k])
    + (map i | i in rows && Refers(p, Key(id, i), rows[i]) :: Key(id, i) := rows[i])
  }

  predicate OneRetained(prior: Part, i: Inc) {
    i in prior && prior[i].life.Retained? && forall j :: j in prior && prior[j].life.Retained? ==> j == i
  }

  /** The record recovery settles on: the snapshot's, or the tombstone of the one retained prior row. */
  ghost function Recovered(snap: Option<Snap>, prior: Part, now: nat): Option<(Inc, Row)> {
    if snap.Some? then Some((snap.value.inc, RowOf(snap.value)))
    else if exists i :: OneRetained(prior, i) then
      var i :| OneRetained(prior, i);
      Some((i, Stamp(prior[i], now)))
    else None
  }

  /** Recovery of `id` gets past its checks: a record is proved and the manifest covers it. */
  ghost predicate Recoverable(w: World, id: Id) {
    && id in w.manifests
    && var m := w.manifests[id];
       var rec := Recovered(SnapOf(w, id), m.prior, 1);
       rec.Some? && Affected(id, rec.value.0, rec.value.1, m.prior) <= m.paths
  }

  /** The rows recovery writes. */
  ghost function Rebuilt(w: World, id: Id, now: nat): Part
    requires Recoverable(w, id)
  {
    var m := w.manifests[id];
    var rec := Recovered(SnapOf(w, id), m.prior, now);
    NewRows(rec.value.0, rec.value.1, m.prior, now)
  }

  // ------------------------------------------------------------------ steps

  /** The partition locks are free. */
  predicate Unlocked(w: World, paths: set<Index>) {
    forall x :: x in w.running ==> w.running[x].paths !! paths
  }

  predicate Undirtied(w: World, paths: set<Index>) {
    forall p :: p in paths ==> p !in w.marks
  }

  /** A mutation runs under the session's family lock and after recovery has removed the manifest. */
  predicate Idle(w: World, id: Id) {
    id !in w.running && id !in w.manifests
  }

  ghost function Step(w: World, op: Op): World {
    match op
    case StartSave(id, snap, now) =>
      var prior := PartOf(w, id);
      var paths := Affected(id, snap.inc, RowOf(snap), prior);
      if Idle(w, id) && Unlocked(w, paths) && Undirtied(w, paths) then
        w.(running := w.running[id := Proc(Save(snap), paths, prior, NewRows(snap.inc, RowOf(snap), prior, now), now, Begin)])
      else w
    case StartDelete(id, now) =>
      var prior := PartOf(w, id);
      if Idle(w, id) && exists i :: OneRetained(prior, i) then
        var i :| OneRetained(prior, i);
        var paths := Affected(id, i, prior[i], prior);
        if Unlocked(w, paths) && Undirtied(w, paths) then
          w.(running := w.running[id := Proc(Delete, paths, prior, NewRows(i, Stamp(prior[i], now), prior, now), now, Begin)])
        else w
      else w
    case StartRecover(id, now) =>
      if id !in w.running && Recoverable(w, id) && Unlocked(w, w.manifests[id].paths) then
        var m := w.manifests[id];
        w.(running := w.running[id := Proc(Recover, m.paths, m.prior, Rebuilt(w, id, now), now, Record)])
      else w
    case Advance(id, at) =>
      if id in w.running then File(w, id, w.running[id], at) else w
    case Crash(id) =>
      w.(running := w.running - {id})
  }

  function At(w: World, id: Id, phase: Phase): World
    requires id in w.running
  {
    w.(running := w.running[id := w.running[id].(phase := phase)])
  }

  /** The next file step of mutation `pr`. Loops may visit their partitions in any order, which
      includes the sorted order of the source; the manifest is written first and removed last. */
  ghost function File(w: World, id: Id, pr: Proc, at: Index): World
    requires id in w.running && w.running[id] == pr
  {
    match pr.phase
    case Begin =>
      At(w, id, Marking(pr.paths)).(
        manifests := w.manifests[id := Manifest(pr.paths, pr.prior)],
        origin := w.origin[id := if pr.goal.Save? then OfSave(SnapOf(w, id), pr.goal.snap) else OfDelete(SnapOf(w, id))])
    case Marking(rest) =>
      if at !in rest then w else
      var phase := if rest != {at} then Marking(rest - {at}) else if pr.goal.Save? then Snapshot else Record;
      At(w, id, phase).(marks := w.marks[at := id])
    case Snapshot =>
      if pr.goal.Save? then At(w, id, Record).(snaps := w.snaps[id := pr.goal.snap]) else w
    case Record =>
      At(w, id, Publishing(pr.paths)).(recs := w.recs[id := pr.rows])
    case Publishing(rest) =>
      if at !in rest then w else
      var phase := if rest != {at} then Publishing(rest - {at})
                   else if pr.goal.Delete? then Dropping else Clearing(pr.paths);
      At(w, id, phase).(idx := w.idx[at := Published(at, id, pr.rows, IndexOf(w, at))])
    case Dropping =>
      At(w, id, Clearing(pr.paths)).(snaps := w.snaps - {id})
    case Clearing(rest) =>
      if at !in rest then w else
      At(w, id, if rest != {at} then Clearing(rest - {at}) else Final).(marks := w.marks - {at})
    case Final =>
      w.(manifests := w.manifests - {id}, origin := w.origin - {id}, running := w.running - {id})
  }

  ghost function Run(w: World, ops: seq<Op>): World
    decreases |ops|
  {
    if ops == [] then w else Run(Step(w, ops[0]), ops[1..])
  }
}
