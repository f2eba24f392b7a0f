/** The session hashes of redisstore and the indexes that its scripts keep in step with them: the global
    and per-owner metadata sets with their generations, and the lineage partitions with their orders.
    Every script is atomic, so it is one step.

    A metadata member is an injective image of its row, so the metadata sets hold rows; their byte order is
    the subject of IndexKeys. Lineage order members are kept as the bytes that the scripts cut and join.
    A partition's fields are keyed by the partition and the record key together. */
module SessionIndex {
  import opened ByteOrder
  import opened IndexKeys

  type Id = Bytes
  type Inc = Bytes

  datatype Owner = Owner(issuer: string, subject: string)

  /** One row of discovery metadata. */
  datatype Row = Row(id: Id, modifiedAt: int, owner: Option<Owner>, rest: string)

  datatype Key = Key(id: Id, inc: Inc)
  datatype Life = Retained | Pruned(deletedAt: string)

  /** A lineage record names at most one edge partition. */
  datatype Record = Record(edge: Option<Key>, meta: string, life: Life)

  /** What the session hash remembers of the last save, the two order members among it. */
  datatype Session = Session(row: Row, key: Key, edge: Option<Key>, rootOrder: Bytes, edgeOrder: Bytes)

  /** A snapshot to store. */
  datatype Snapshot = Snapshot(row: Row, inc: Inc, edge: Option<Key>, meta: string)

  datatype Scope = All | Of(owner: Owner)
  datatype OwnerRow = OwnerRow(owner: Owner, row: Row)

  datatype Metadata = Metadata(global: set<Row>, owners: set<OwnerRow>, gens: map<Scope, nat>)

  /** A field of an edge partition, and a member of the order set of a record or an edge partition. */
  datatype Slot = Slot(edge: Key, key: Key)
  datatype RootTag = RootTag(id: Id, member: Bytes)
  datatype EdgeTag = EdgeTag(edge: Key, member: Bytes)

  datatype Lineage = Lineage(records: map<Key, Record>, roots: set<RootTag>, edges: map<Slot, Record>, order: set<EdgeTag>)

  datatype State = State(sessions: map<Id, Session>, meta: Metadata, lin: Lineage)

  datatype Op =
    | Create(s: Snapshot)
    | Save(s: Snapshot, now: string)
    | Delete(id: Id, now: string)
    | DeleteIf(expected: Row, now: string)

  /** Refused: nothing to do. Invalid: the error reply "invalid lineage record". */
  datatype Reply = Ok | Refused | Invalid

  const Empty := State(map[], Metadata({}, {}, map[]), Lineage(map[], {}, map[], {}))

  // ------------------------------------------------------------------ metadata

  function Gen(m: Metadata, sc: Scope): nat {
    if sc in m.gens then m.gens[sc] else 0
  }

  function Bump(m: Metadata, sc: Scope): Metadata {
    m.(gens := m.gens[sc := Gen(m, sc) + 1])
  }

  function BumpOwner(m: Metadata, o: Option<Owner>): Metadata {
    if o.Some? then Bump(m, Of(o.value)) else m
  }

  function AddRow(m: Metadata, r: Row): Metadata {
    m.(global := m.global + {r}, owners := if r.owner.Some? then m.owners + {OwnerRow(r.owner.value, r)} else m.owners)
  }

  function DropRow(m: Metadata, r: Row): Metadata {
    m.(global := m.global - {r}, owners := if r.owner.Some? then m.owners - {OwnerRow(r.owner.value, r)} else m.owners)
  }

  /** A save moves the global scope, the old owner's if it changed, and the new owner's. */
  function Reindexed(m: Metadata, prior: Option<Row>, r: Row): Metadata {
    var a := if prior.Some? then DropRow(m, prior.value) else m;
    var b := Bump(AddRow(a, r), All);
    var c := if prior.Some? && prior.value.owner != r.owner then BumpOwner(b, prior.value.owner) else b;
    BumpOwner(c, r.owner)
  }

  function Unindexed(m: Metadata, r: Row): Metadata {
    BumpOwner(Bump(DropRow(m, r), All), r.owner)
  }

  // ------------------------------------------------------------------ lineage

  /** The record becomes a tombstone in every partition that holds it: its text is replaced, and the
      stored order members are removed and put back with the byte for the state overwritten. */
  function Tombstoned(l: Lineage, s: Session, now: string): Lineage
    requires s.key in l.records
  {
    var dead := l.records[s.key].(life := Pruned(now));
    l.(records := l.records[s.key := dead],
       roots := if s.rootOrder == [] then l.roots
                else l.roots - {RootTag(s.key.id, s.rootOrder)} + {RootTag(s.key.id, FlipRoot(s.rootOrder))},
       edges := if s.edge.Some? then l.edges[Slot(s.edge.value, s.key) := dead] else l.edges,
       order := if s.edge.Some? then Reordered(l.order, s.edge.value, s.edgeOrder) else l.order)
  }

  function Reordered(order: set<EdgeTag>, e: Key, m: Bytes): set<EdgeTag> {
    if m == [] then order
    else match FlipEdge(m)
         case None => order - {EdgeTag(e, m)}
         case Some(flipped) => order - {EdgeTag(e, m)} + {EdgeTag(e, flipped)}
  }

  /** A record that keeps its key leaves the edge partition it named before. */
  function Detached(l: Lineage, s: Session): Lineage {
    if s.edge.None? then l else
    l.(edges := l.edges - {Slot(s.edge.value, s.key)}, order := l.order - {EdgeTag(s.edge.value, s.edgeOrder)})
  }

  function Published(l: Lineage, k: Key, r: Record): Lineage {
    l.(records := l.records[k := r],
       roots := l.roots + {RootTag(k.id, RootMember(k.id, false, k.inc))},
       edges := if r.edge.Some? then l.edges[Slot(r.edge.value, k) := r] else l.edges,
       order := if r.edge.Some? then l.order + {EdgeTag(r.edge.value, EdgeMember(k.id, false, k.inc))} else l.order)
  }

  function RecordOf(s: Snapshot): Record {
    Record(s.edge, s.meta, Retained)
  }

  function KeyOf(s: Snapshot): Key {
    Key(s.row.id, s.inc)
  }

  /** The replacement in the record's text finds exactly one retained state and one zero time. */
  predicate Buriable(l: Lineage, k: Key) {
    k in l.records ==> l.records[k].life.Retained?
  }

  function Bury(l: Lineage, s: Session, now: string): Lineage {
    if s.key in l.records then Tombstoned(l, s, now) else l
  }

  // ------------------------------------------------------------------ scripts

  function SessionOf(s: Snapshot): Session {
    Session(s.row, KeyOf(s), s.edge, RootMember(s.row.id, false, s.inc), EdgeMember(s.row.id, false, s.inc))
  }

  function Stored(st: State, s: Snapshot, meta: Metadata, lin: Lineage): State {
    State(st.sessions[s.row.id := SessionOf(s)], meta, Published(lin, KeyOf(s), RecordOf(s)))
  }

  function Removed(st: State, s: Session, now: string): (State, Reply) {
    var m := Unindexed(st.meta, s.row);
    if !Buriable(st.lin, s.key) then (st.(meta := m), Invalid)
    else (State(st.sessions - {s.row.id}, m, Bury(st.lin, s, now)), Ok)
  }

  function Step(st: State, op: Op): (State, Reply) {
    match op
    case Create(s) =>
      if s.row.id in st.sessions then (st, Refused)
      else (Stored(st, s, Reindexed(st.meta, None, s.row), st.lin), Ok)
    case Save(s, now) =>
      if s.row.id !in st.sessions then (Stored(st, s, Reindexed(st.meta, None, s.row), st.lin), Ok) else
      var prior := st.sessions[s.row.id];
      var m := Reindexed(st.meta, Some(prior.row), s.row);
      if prior.key != KeyOf(s) then
        if !Buriable(st.lin, prior.key) then (st, Invalid)
        else (Stored(st, s, m, Bury(st.lin, prior, now)), Ok)
      else if prior.edge != s.edge then (Stored(st, s, m, Detached(st.lin, prior)), Ok)
      else (Stored(st, s, m, st.lin), Ok)
    case Delete(id, now) =>
      if id !in st.sessions then (st, Ok) else Removed(st, st.sessions[id], now)
    case DeleteIf(r, now) =>
      if r.id !in st.sessions || st.sessions[r.id].row != r then (st, Refused) else Removed(st, st.sessions[r.id], now)
  }

  function Run(st: State, ops: seq<Op>): State
    decreases |ops|
  {
    if ops == [] then st else Run(Step(st, ops[0]).0, ops[1..])
  }
}
