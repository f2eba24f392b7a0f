/** What each index script does to a stored session, said field by field and in both directions. */
module SessionEffects {
  import opened ByteOrder
  import opened IndexKeys
  import opened SessionIndex
  import opened SessionIndexRuns

  /** Every other session is what it was. */
  ghost predicate OtherSessions(st: State, u: State, id: Id) {
    forall i :: i != id ==> (i in u.sessions <==> i in st.sessions) && (i in st.sessions ==> u.sessions[i] == st.sessions[i])
  }

  /** Every record but those of `ks` is what it was. */
  ghost predicate OtherRecords(st: State, u: State, ks: set<Key>) {
    forall k :: k !in ks ==> (k in u.lin.records <==> k in st.lin.records) && (k in st.lin.records ==> u.lin.records[k] == st.lin.records[k])
  }

  /** Exactly these scopes moved on by one. */
  ghost predicate Counted(st: State, u: State, scopes: set<Scope>) {
    forall sc :: Gen(u.meta, sc) == Gen(st.meta, sc) + (if sc in scopes then 1 else 0)
  }

  function ScopesOf(r: Row): set<Scope> {
    if r.owner.Some? then {All, Of(r.owner.value)} else {All}
  }

  /** The row left every set it was in. */
  ghost predicate Unlisted(u: State, r: Row) {
    r !in u.meta.global && forall o :: r.owner == Some(o) ==> OwnerRow(o, r) !in u.meta.owners
  }

  /** The sets changed in the entries of these rows only. */
  ghost predicate OtherRows(st: State, u: State, rs: set<Row>) {
    forall r :: r !in rs ==>
      && (r in u.meta.global <==> r in st.meta.global)
      && (forall o :: OwnerRow(o, r) in u.meta.owners <==> OwnerRow(o, r) in st.meta.owners)
  }

  /** The snapshot is what is stored: the session with its key and edge, the retained record with its edge and
      metadata, and the row in the global set and its owner's. */
  predicate Holds(u: State, s: Snapshot) {
    var k := Key(s.row.id, s.inc);
    && s.row.id in u.sessions && u.sessions[s.row.id].row == s.row && u.sessions[s.row.id].key == k && u.sessions[s.row.id].edge == s.edge
    && k in u.lin.records && u.lin.records[k].edge == s.edge && u.lin.records[k].meta == s.meta && u.lin.records[k].life.Retained?
    && (s.edge.Some? ==> Slot(s.edge.value, k) in u.lin.edges && u.lin.edges[Slot(s.edge.value, k)] == u.lin.records[k])
    && s.row in u.meta.global && (s.row.owner.Some? ==> OwnerRow(s.row.owner.value, s.row) in u.meta.owners)
  }

  /** The record, if there was one, is the same with the time of its end. */
  predicate Ended(st: State, u: State, k: Key, now: string) {
    k in st.lin.records ==>
      && k in u.lin.records && u.lin.records[k].life == Pruned(now)
      && u.lin.records[k].edge == st.lin.records[k].edge && u.lin.records[k].meta == st.lin.records[k].meta
  }

  predicate Dead(st: State, k: Key) {
    k in st.lin.records && st.lin.records[k].life.Pruned?
  }

  /** Storing a snapshot where no session was: what create and the first save do. */
  ghost predicate Entered(st: State, u: State, s: Snapshot) {
    && Holds(u, s) && OtherSessions(st, u, s.row.id) && OtherRecords(st, u, {Key(s.row.id, s.inc)})
    && OtherRows(st, u, {s.row}) && Counted(st, u, ScopesOf(s.row))
  }

  lemma EnterEffect(st: State, s: Snapshot)
    ensures Entered(st, Stored(st, s, Reindexed(st.meta, None, s.row), st.lin), s)
  {
    hide RootMember, EdgeMember;
  }

  /** Create refuses exactly an id that is taken. */
  lemma CreateEffect(st: State, s: Snapshot)
    ensures var (u, r) := Step(st, Create(s));
            if s.row.id in st.sessions then r.Refused? && u == st else r.Ok? && Entered(st, u, s)
  {
    hide RootMember, EdgeMember, Entered, Reindexed, Stored;
    EnterEffect(st, s);
  }

  /** A save over a session: the new snapshot is stored, the old row leaves the sets, an old record of another
      incarnation ends, and both owners' scopes move. */
  ghost predicate Replaced(st: State, u: State, s: Snapshot, now: string)
    requires s.row.id in st.sessions
  {
    var p := st.sessions[s.row.id];
    var k := Key(s.row.id, s.inc);
    && Holds(u, s) && OtherSessions(st, u, s.row.id)
    && OtherRecords(st, u, {p.key, k}) && (p.key != k ==> Ended(st, u, p.key, now))
    && OtherRows(st, u, {s.row, p.row}) && (p.row != s.row ==> Unlisted(u, p.row))
    && Counted(st, u, ScopesOf(s.row) + ScopesOf(p.row))
  }

  /** The record of a session carries the session's id. */
  predicate Keyed(st: State) {
    forall id :: id in st.sessions ==> st.sessions[id].row.id == id && st.sessions[id].key.id == id
  }

  lemma ReplaceMeta(st: State, u: State, s: Snapshot, p: Row)
    requires u.meta == Reindexed(st.meta, Some(p), s.row)
    ensures OtherRows(st, u, {s.row, p}) && (p != s.row ==> Unlisted(u, p)) && Counted(st, u, ScopesOf(s.row) + ScopesOf(p))
    ensures s.row in u.meta.global && (s.row.owner.Some? ==> OwnerRow(s.row.owner.value, s.row) in u.meta.owners)
  {
  }

  lemma BuryRecords(l: Lineage, s: Session, now: string)
    requires Buriable(l, s.key)
    ensures var b := Bury(l, s, now);
            && b.records.Keys == l.records.Keys
            && (forall k :: k in l.records && k != s.key ==> b.records[k] == l.records[k])
            && (s.key in l.records ==> b.records[s.key] == l.records[s.key].(life := Pruned(now)))
  {
    hide FlipRoot, FlipEdge;
  }

  /** What publishing leaves of the records, from a lineage in which the old record has ended or kept its key. */
  lemma ReplaceRecords(st: State, u: State, s: Snapshot, l: Lineage, now: string)
    requires s.row.id in st.sessions && u.lin == Published(l, KeyOf(s), RecordOf(s))
    requires var p := st.sessions[s.row.id];
             if p.key == KeyOf(s) then l.records == st.lin.records else Buriable(st.lin, p.key) && l == Bury(st.lin, p, now)
    ensures var p, k := st.sessions[s.row.id], Key(s.row.id, s.inc);
            && k in u.lin.records && u.lin.records[k] == Record(s.edge, s.meta, Retained)
            && (s.edge.Some? ==> Slot(s.edge.value, k) in u.lin.edges && u.lin.edges[Slot(s.edge.value, k)] == u.lin.records[k])
            && OtherRecords(st, u, {p.key, k}) && (p.key != k ==> Ended(st, u, p.key, now))
  {
    hide RootMember, EdgeMember, Bury;
    var p := st.sessions[s.row.id];
    if p.key != KeyOf(s) { BuryRecords(st.lin, p, now); }
  }

  /** Save stores the snapshot unless the session's record under another incarnation is dead already, which no
      run leads to. */
  lemma SaveEffect(st: State, s: Snapshot, now: string)
    ensures var (u, r) := Step(st, Save(s, now));
            if s.row.id !in st.sessions then r.Ok? && Entered(st, u, s)
            else if st.sessions[s.row.id].key != Key(s.row.id, s.inc) && Dead(st, st.sessions[s.row.id].key) then r.Invalid? && u == st
            else r.Ok? && Replaced(st, u, s, now)
  {
    hide RootMember, EdgeMember, Entered, Reindexed, Bury, Published, OtherRows, OtherRecords, Ended, Counted, Unlisted, ScopesOf;
    if s.row.id !in st.sessions {
      EnterEffect(st, s);
    } else {
      var p, u := st.sessions[s.row.id], Step(st, Save(s, now)).0;
      if p.key == KeyOf(s) || Buriable(st.lin, p.key) {
        ReplaceMeta(st, u, s, p.row);
        var l := if p.key != KeyOf(s) then Bury(st.lin, p, now) else if p.edge != s.edge then Detached(st.lin, p) else st.lin;
        ReplaceRecords(st, u, s, l, now);
      }
    }
  }

  /** A deleted session is gone with its row, and its record ends now. */
  ghost predicate Gone(st: State, u: State, id: Id, now: string)
    requires id in st.sessions
  {
    var p := st.sessions[id];
    && id !in u.sessions && OtherSessions(st, u, id)
    && Ended(st, u, p.key, now) && OtherRecords(st, u, {p.key})
    && Unlisted(u, p.row) && OtherRows(st, u, {p.row}) && Counted(st, u, ScopesOf(p.row))
  }

  lemma RemoveMeta(st: State, u: State, p: Row)
    requires u.meta == Unindexed(st.meta, p)
    ensures Unlisted(u, p) && OtherRows(st, u, {p}) && Counted(st, u, ScopesOf(p))
  {
  }

  lemma RemoveEffect(st: State, id: Id, now: string)
    requires Keyed(st) && id in st.sessions && !Dead(st, st.sessions[id].key)
    ensures Removed(st, st.sessions[id], now).1.Ok? && Gone(st, Removed(st, st.sessions[id], now).0, id, now)
  {
    hide Unindexed, Bury, OtherRows, Counted, Unlisted, ScopesOf;
    BuryRecords(st.lin, st.sessions[id], now);
    RemoveMeta(st, Removed(st, st.sessions[id], now).0, st.sessions[id].row);
  }

  /** Delete is done with an absent id and otherwise removes the session. */
  lemma DeleteEffect(ops: seq<Op>, id: Id, now: string)
    ensures var st := Run(Empty, ops);
            var (u, r) := Step(st, Delete(id, now));
            r.Ok? && if id in st.sessions then Gone(st, u, id, now) else u == st
  {
    hide Gone, Removed;
    var st := Run(Empty, ops);
    LiveSessions(ops);
    if id in st.sessions { RemoveEffect(st, id, now); }
  }

  /** A conditional delete happens exactly if the stored row is still the one expected. */
  lemma DeleteIfEffect(ops: seq<Op>, expected: Row, now: string)
    ensures var st := Run(Empty, ops);
            var (u, r) := Step(st, DeleteIf(expected, now));
            if expected.id in st.sessions && st.sessions[expected.id].row == expected then r.Ok? && Gone(st, u, expected.id, now)
            else r.Refused? && u == st
  {
    hide Gone, Removed;
    var st := Run(Empty, ops);
    LiveSessions(ops);
    if expected.id in st.sessions { RemoveEffect(st, expected.id, now); }
  }

  /** In a reachable state no session's record is dead. */
  lemma LiveSessions(ops: seq<Op>)
    ensures var st := Run(Empty, ops);
            Keyed(st) && forall id :: id in st.sessions ==> !Dead(st, st.sessions[id].key)
  {
    hide Run;
    RunIndexes(Empty, ops);
  }
}
