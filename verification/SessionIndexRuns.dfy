/** The indexes agree with the session hashes in every reachable state. */
module SessionIndexRuns {
  import opened ByteOrder
  import opened IndexKeys
  import opened SessionIndex

  // ------------------------------------------------------------------ metadata sets

  predicate Held(ss: map<Id, Session>, r: Row) {
    r.id in ss && ss[r.id].row == r
  }

  /** The global set is exactly the current rows; each owner's set exactly those of that owner. */
  ghost predicate MetaInv(ss: map<Id, Session>, m: Metadata) {
    && (forall id :: id in ss ==> ss[id].row.id == id)
    && (forall r :: r in m.global <==> Held(ss, r))
    && (forall o, r :: OwnerRow(o, r) in m.owners <==> Held(ss, r) && r.owner == Some(o))
  }

  lemma ReindexKeeps(ss: map<Id, Session>, m: Metadata, s: Session)
    requires MetaInv(ss, m)
    ensures var prior := if s.row.id in ss then Some(ss[s.row.id].row) else None;
            MetaInv(ss[s.row.id := s], Reindexed(m, prior, s.row))
  {
    var prior := if s.row.id in ss then Some(ss[s.row.id].row) else None;
    var n := Reindexed(m, prior, s.row);
    var a := if prior.Some? then DropRow(m, prior.value) else m;
    assert n.global == AddRow(a, s.row).global && n.owners == AddRow(a, s.row).owners;
  }

  lemma UnindexKeeps(ss: map<Id, Session>, m: Metadata, id: Id)
    requires MetaInv(ss, m) && id in ss
    ensures MetaInv(ss - {id}, Unindexed(m, ss[id].row))
  {
    var n := Unindexed(m, ss[id].row);
    assert n.global == DropRow(m, ss[id].row).global && n.owners == DropRow(m, ss[id].row).owners;
  }

  // ------------------------------------------------------------------ lineage partitions

  predicate IsPruned(r: Record) {
    r.life.Pruned?
  }

  predicate Names(l: Lineage, k: Key, e: Key) {
    k in l.records && l.records[k].edge == Some(e)
  }

  function RootTagOf(k: Key, pruned: bool): RootTag {
    RootTag(k.id, RootMember(k.id, pruned, k.inc))
  }

  function EdgeTagOf(e: Key, k: Key, pruned: bool): EdgeTag {
    EdgeTag(e, EdgeMember(k.id, pruned, k.inc))
  }

  /** The members that the orders should hold, read off the records alone. */
  function RootsOf(records: map<Key, Record>): set<RootTag> {
    set k | k in records :: RootTagOf(k, IsPruned(records[k]))
  }

  function OrderOf(records: map<Key, Record>): set<EdgeTag> {
    set k | k in records && records[k].edge.Some? :: EdgeTagOf(records[k].edge.value, k, IsPruned(records[k]))
  }

  /** Orders hold exactly the members of the fields, byte for byte; edge partitions hold exactly the rows
      that name them. */
  ghost predicate Partitions(l: Lineage) {
    && l.roots == RootsOf(l.records)
    && (forall e, k :: Slot(e, k) in l.edges <==> Names(l, k, e))
    && (forall e, k :: Slot(e, k) in l.edges ==> l.edges[Slot(e, k)] == l.records[k])
    && l.order == OrderOf(l.records)
  }

  /** The keys in play: minted incarnations, and ids without NUL. */
  ghost predicate Proper(l: Lineage) {
    forall k :: k in l.records ==> IsIncarnation(k.inc) && NulFree(k.id) && (l.records[k].edge.Some? ==> IsIncarnation(l.records[k].edge.value.inc))
  }

  /** Exactly the current incarnation of a stored session is retained, and the session hash remembers
      its order members. */
  ghost predicate Current(ss: map<Id, Session>, l: Lineage) {
    && (forall id :: id in ss ==>
          && ss[id].key.id == id && ss[id].key in l.records
          && l.records[ss[id].key].life.Retained? && l.records[ss[id].key].edge == ss[id].edge
          && ss[id].rootOrder == RootMember(id, false, ss[id].key.inc) && ss[id].edgeOrder == EdgeMember(id, false, ss[id].key.inc))
    && (forall k :: k in l.records && l.records[k].life.Retained? ==> k.id in ss && ss[k.id].key == k)
  }

  ghost predicate Inv(st: State) {
    MetaInv(st.sessions, st.meta) && Partitions(st.lin) && Proper(st.lin) && Current(st.sessions, st.lin)
  }

  /** The premises: an incarnation that has become a tombstone is not saved again, ids hold no NUL, and
      incarnations are minted ones (an edge with any other incarnation is not a partition). */
  predicate Allowed(st: State, op: Op) {
    op.Create? || op.Save? ==> Buriable(st.lin, KeyOf(op.s)) && Wellformed(op.s)
  }

  predicate Wellformed(s: Snapshot) {
    NulFree(s.row.id) && IsIncarnation(s.inc) && (s.edge.Some? ==> IsIncarnation(s.edge.value.inc))
  }

  predicate AllowedRun(st: State, ops: seq<Op>)
    decreases |ops|
  {
    ops == [] || (Allowed(st, ops[0]) && AllowedRun(Step(st, ops[0]).0, ops[1..]))
  }

  // ------------------------------------------------------------------ members tell records apart

  lemma RootTagInjective(k: Key, b: bool, j: Key, c: bool)
    requires IsIncarnation(k.inc) && IsIncarnation(j.inc)
    ensures RootTagOf(k, b) == RootTagOf(j, c) <==> k == j && b == c
  {
    RootMemberDecodes(k.id, b, k.inc);
    RootMemberDecodes(j.id, c, j.inc);
    FieldInjective(k.id, k.inc, j.id, j.inc);
    assert RootMember(k.id, b, k.inc)[0] == StateDigit(b) && RootMember(j.id, c, j.inc)[0] == StateDigit(c);
  }

  lemma EdgeTagInjective(e: Key, k: Key, b: bool, f: Key, j: Key, c: bool)
    requires IsIncarnation(k.inc) && IsIncarnation(j.inc)
    ensures EdgeTagOf(e, k, b) == EdgeTagOf(f, j, c) <==> e == f && k == j && b == c
  {
    RootMemberDecodes(k.id, b, k.inc);
    RootMemberDecodes(j.id, c, j.inc);
    FieldInjective(k.id, k.inc, j.id, j.inc);
    assert EdgeMember(k.id, b, k.inc)[|k.id| + 1] == StateDigit(b) && EdgeMember(j.id, c, j.inc)[|j.id| + 1] == StateDigit(c);
  }

  /** Changing one record changes one root member. */
  lemma RootsUpdate(records: map<Key, Record>, k: Key, r: Record)
    requires IsIncarnation(k.inc) && forall j :: j in records ==> IsIncarnation(j.inc)
    ensures RootsOf(records[k := r]) ==
            (if k in records then RootsOf(records) - {RootTagOf(k, IsPruned(records[k]))} else RootsOf(records)) + {RootTagOf(k, IsPruned(r))}
  {
    hide RootTagOf;
    var a, b := RootsOf(records), RootsOf(records[k := r]);
    forall t ensures t in b <==> (t in a && !(k in records && t == RootTagOf(k, IsPruned(records[k])))) || t == RootTagOf(k, IsPruned(r)) {
      if t in b {
        var j :| j in records[k := r] && t == RootTagOf(j, IsPruned(records[k := r][j]));
        if j != k && k in records { RootTagInjective(j, IsPruned(records[j]), k, IsPruned(records[k])); }
      }
      if t in a && !(k in records && t == RootTagOf(k, IsPruned(records[k]))) {
        var j :| j in records && t == RootTagOf(j, IsPruned(records[j]));
        assert j in records[k := r] && records[k := r][j] == records[j];
      }
      assert RootTagOf(k, IsPruned(r)) in b by { assert k in records[k := r]; }
    }
  }

  function EdgeTagsOf(k: Key, r: Record): set<EdgeTag> {
    if r.edge.Some? then {EdgeTagOf(r.edge.value, k, IsPruned(r))} else {}
  }

  lemma InOrder(records: map<Key, Record>, t: EdgeTag)
    ensures t in OrderOf(records) <==> exists k :: k in records && t in EdgeTagsOf(k, records[k])
  {
    if t in OrderOf(records) {
      var k :| k in records && records[k].edge.Some? && t == EdgeTagOf(records[k].edge.value, k, IsPruned(records[k]));
      assert t in EdgeTagsOf(k, records[k]);
    }
  }

  /** And at most one edge member. */
  lemma OrderUpdate(records: map<Key, Record>, k: Key, r: Record)
    requires IsIncarnation(k.inc) && forall j :: j in records ==> IsIncarnation(j.inc)
    ensures OrderOf(records[k := r]) == (if k in records then OrderOf(records) - EdgeTagsOf(k, records[k]) else OrderOf(records)) + EdgeTagsOf(k, r)
  {
    hide EdgeTagOf, OrderOf;
    var next := records[k := r];
    forall t ensures t in OrderOf(next) <==> (t in OrderOf(records) && !(k in records && t in EdgeTagsOf(k, records[k]))) || t in EdgeTagsOf(k, r) {
      InOrder(records, t);
      InOrder(next, t);
      if t in OrderOf(next) {
        var j :| j in next && t in EdgeTagsOf(j, next[j]);
        if j != k && k in records && t in EdgeTagsOf(k, records[k]) {
          EdgeTagInjective(records[j].edge.value, j, IsPruned(records[j]), records[k].edge.value, k, IsPruned(records[k]));
        }
      }
      if t in OrderOf(records) && !(k in records && t in EdgeTagsOf(k, records[k])) {
        var j :| j in records && t in EdgeTagsOf(j, records[j]);
        assert j in next && next[j] == records[j];
      }
      if t in EdgeTagsOf(k, r) { assert k in next && next[k] == r; }
    }
  }

  // ------------------------------------------------------------------ one script after another

  predicate Remembers(s: Session) {
    s.rootOrder == RootMember(s.key.id, false, s.key.inc) && s.edgeOrder == EdgeMember(s.key.id, false, s.key.inc)
  }

  /** The scripts overwrite the right bytes. */
  lemma TombstoneKeeps(l: Lineage, s: Session, now: string)
    requires Partitions(l) && Proper(l) && Remembers(s)
    requires s.key in l.records && l.records[s.key].life.Retained? && l.records[s.key].edge == s.edge
    ensures Partitions(Tombstoned(l, s, now)) && Proper(Tombstoned(l, s, now))
  {
    hide RootsOf, OrderOf, RootMember, EdgeMember;
    var t, k := Tombstoned(l, s, now), s.key;
    RootsUpdate(l.records, k, t.records[k]);
    OrderUpdate(l.records, k, t.records[k]);
    RootFlips(k.id, k.inc);
    EdgeFlipsIff(k.id, k.inc);
    MembersNonEmpty(k, false);
    assert forall j, e :: Names(t, j, e) <==> Names(l, j, e);
  }

  lemma MembersNonEmpty(k: Key, b: bool)
    ensures RootMember(k.id, b, k.inc) != [] && EdgeMember(k.id, b, k.inc) != []
  {
  }

  /** And only if the id holds no NUL: burying a record that names an edge leaves the right members in
      the edge order exactly then. */
  lemma TombstoneOrderIff(l: Lineage, s: Session, now: string)
    requires l.order == OrderOf(l.records) && Remembers(s) && s.edge.Some? && forall j :: j in l.records ==> IsIncarnation(j.inc)
    requires s.key in l.records && l.records[s.key].life.Retained? && l.records[s.key].edge == s.edge
    ensures var t := Tombstoned(l, s, now);
            t.order == OrderOf(t.records) <==> NulFree(s.key.id)
  {
    hide OrderOf, EdgeMember, RootMember;
    var t, k, e := Tombstoned(l, s, now), s.key, s.edge.value;
    OrderUpdate(l.records, k, t.records[k]);
    EdgeFlipsIff(k.id, k.inc);
    MembersNonEmpty(k, false);
    EdgeTagInjective(e, k, false, e, k, true);
    assert EdgeTagOf(e, k, true) in OrderOf(t.records);
    assert EdgeTagOf(e, k, true) !in l.order by { NotPruned(l, k, e); }
  }

  lemma NotPruned(l: Lineage, k: Key, e: Key)
    requires l.order == OrderOf(l.records) && k in l.records && l.records[k].life.Retained? && forall j :: j in l.records ==> IsIncarnation(j.inc)
    ensures EdgeTagOf(e, k, true) !in l.order
  {
    hide OrderOf, EdgeTagOf;
    InOrder(l.records, EdgeTagOf(e, k, true));
    if j :| j in l.records && EdgeTagOf(e, k, true) in EdgeTagsOf(j, l.records[j]) {
      EdgeTagInjective(e, k, true, l.records[j].edge.value, j, IsPruned(l.records[j]));
    }
  }

  lemma PublishKeeps(l: Lineage, k: Key, r: Record)
    requires Partitions(l) && Proper(l) && r.life.Retained? && NulFree(k.id) && IsIncarnation(k.inc) && (r.edge.Some? ==> IsIncarnation(r.edge.value.inc))
    requires k in l.records ==> l.records[k].life.Retained? && l.records[k].edge == r.edge
    ensures Partitions(Published(l, k, r)) && Proper(Published(l, k, r))
  {
    hide RootsOf, OrderOf, RootMember, EdgeMember;
    var t := Published(l, k, r);
    RootsUpdate(l.records, k, r);
    OrderUpdate(l.records, k, r);
    assert forall j, e :: j != k ==> (Names(t, j, e) <==> Names(l, j, e));
  }

  /** Leaving the old edge partition and publishing under the same key. */
  lemma MoveKeeps(l: Lineage, s: Session, r: Record)
    requires Partitions(l) && Proper(l) && r.life.Retained? && Remembers(s) && (r.edge.Some? ==> IsIncarnation(r.edge.value.inc))
    requires s.key in l.records && l.records[s.key].life.Retained? && l.records[s.key].edge == s.edge && s.edge != r.edge
    ensures Partitions(Published(Detached(l, s), s.key, r)) && Proper(Published(Detached(l, s), s.key, r))
  {
    hide RootsOf, OrderOf, RootMember, EdgeMember;
    var t := Published(Detached(l, s), s.key, r);
    RootsUpdate(l.records, s.key, r);
    OrderUpdate(l.records, s.key, r);
    assert forall j, e :: j != s.key ==> (Names(t, j, e) <==> Names(l, j, e));
    assert forall e :: Names(t, s.key, e) <==> r.edge == Some(e);
  }

  /** Storing a snapshot makes its key the one retained key of its session, if the previous one is
      buried or the same. */
  lemma StoreCurrent(st: State, s: Snapshot, l: Lineage)
    requires Current(st.sessions, st.lin) && l.records.Keys == st.lin.records.Keys
    requires forall k :: k in l.records && k.id != s.row.id ==> l.records[k] == st.lin.records[k]
    requires forall k :: k in l.records && k.id == s.row.id && k != KeyOf(s) ==> IsPruned(l.records[k])
    ensures Current(st.sessions[s.row.id := SessionOf(s)], Published(l, KeyOf(s), RecordOf(s)))
  {
    hide RootMember, EdgeMember;
  }

  lemma StoreFresh(st: State, s: Snapshot)
    requires Inv(st) && Buriable(st.lin, KeyOf(s)) && Wellformed(s) && s.row.id !in st.sessions
    ensures Inv(Stored(st, s, Reindexed(st.meta, None, s.row), st.lin))
  {
    hide MetaInv, Partitions, Proper, Reindexed, RootMember, EdgeMember, Published;
    ReindexKeeps(st.sessions, st.meta, SessionOf(s));
    PublishKeeps(st.lin, KeyOf(s), RecordOf(s));
    StoreCurrent(st, s, st.lin);
  }

  lemma StoreSameKey(st: State, s: Snapshot)
    requires Inv(st) && Wellformed(s) && s.row.id in st.sessions && st.sessions[s.row.id].key == KeyOf(s)
    ensures var prior := st.sessions[s.row.id];
            Inv(Stored(st, s, Reindexed(st.meta, Some(prior.row), s.row), if prior.edge != s.edge then Detached(st.lin, prior) else st.lin))
  {
    hide MetaInv, Partitions, Proper, Reindexed, RootMember, EdgeMember, Published;
    var prior := st.sessions[s.row.id];
    ReindexKeeps(st.sessions, st.meta, SessionOf(s));
    if prior.edge != s.edge {
      MoveKeeps(st.lin, prior, RecordOf(s));
      StoreCurrent(st, s, Detached(st.lin, prior));
    } else {
      PublishKeeps(st.lin, KeyOf(s), RecordOf(s));
      StoreCurrent(st, s, st.lin);
    }
  }

  lemma StoreNewKey(st: State, s: Snapshot, now: string)
    requires Inv(st) && Buriable(st.lin, KeyOf(s)) && Wellformed(s) && s.row.id in st.sessions && st.sessions[s.row.id].key != KeyOf(s)
    ensures var prior := st.sessions[s.row.id];
            prior.key in st.lin.records && Buriable(st.lin, prior.key)
            && Inv(Stored(st, s, Reindexed(st.meta, Some(prior.row), s.row), Tombstoned(st.lin, prior, now)))
  {
    hide MetaInv, Partitions, Proper, Reindexed, RootMember, EdgeMember, Published;
    var prior := st.sessions[s.row.id];
    ReindexKeeps(st.sessions, st.meta, SessionOf(s));
    TombstoneKeeps(st.lin, prior, now);
    PublishKeeps(Tombstoned(st.lin, prior, now), KeyOf(s), RecordOf(s));
    StoreCurrent(st, s, Tombstoned(st.lin, prior, now));
  }

  lemma StoreKeeps(st: State, s: Snapshot, now: string)
    requires Inv(st) && Buriable(st.lin, KeyOf(s)) && Wellformed(s)
    ensures Inv(Step(st, Save(s, now)).0) && Step(st, Save(s, now)).1.Ok?
  {
    hide Inv, Stored, Reindexed, Tombstoned, Detached, Wellformed;
    if s.row.id !in st.sessions { StoreFresh(st, s); }
    else if st.sessions[s.row.id].key == KeyOf(s) { StoreSameKey(st, s); }
    else { StoreNewKey(st, s, now); }
  }

  lemma RemoveKeeps(st: State, id: Id, now: string)
    requires Inv(st) && id in st.sessions
    ensures Inv(Removed(st, st.sessions[id], now).0) && Removed(st, st.sessions[id], now).1.Ok?
  {
    hide Partitions, Proper, RootMember, EdgeMember;
    UnindexKeeps(st.sessions, st.meta, id);
    TombstoneKeeps(st.lin, st.sessions[id], now);
  }

  /** Every script keeps the indexes, and the error reply does not occur. */
  lemma StepKeeps(st: State, op: Op)
    requires Inv(st) && Allowed(st, op)
    ensures Inv(Step(st, op).0) && !Step(st, op).1.Invalid?
  {
    hide Inv;
    match op
    case Create(s) =>
      if s.row.id !in st.sessions {
        StoreKeeps(st, s, "");
        assert Step(st, op).0 == Step(st, Save(s, "")).0;
      }
    case Save(s, now) => StoreKeeps(st, s, now);
    case Delete(id, now) => if id in st.sessions { RemoveKeeps(st, id, now); }
    case DeleteIf(r, now) => if r.id in st.sessions && st.sessions[r.id].row == r { RemoveKeeps(st, r.id, now); }
  }

  lemma {:induction false} RunKeeps(st: State, ops: seq<Op>)
    requires Inv(st) && AllowedRun(st, ops)
    ensures Inv(Run(st, ops))
    decreases |ops|
  {
    hide Inv, Step, Allowed;
    if ops != [] {
      StepKeeps(st, ops[0]);
      RunKeeps(Step(st, ops[0]).0, ops[1..]);
    }
  }

  /** The premise on tombstones is exact: a well-formed snapshot that is stored keeps the partitions in step
      if and only if its incarnation is not already a tombstone. */
  lemma ResavedTombstone(st: State, op: Op)
    requires Inv(st) && (op.Save? || (op.Create? && op.s.row.id !in st.sessions)) && Wellformed(op.s)
    ensures Partitions(Step(st, op).0.lin) <==> Buriable(st.lin, KeyOf(op.s))
  {
    var k := KeyOf(op.s);
    if Buriable(st.lin, k) { StepKeeps(st, op); }
    else { ResaveBreaks(st, op); }
  }

  lemma ResaveBreaks(st: State, op: Op)
    requires Inv(st) && (op.Save? || (op.Create? && op.s.row.id !in st.sessions)) && Wellformed(op.s)
    requires KeyOf(op.s) in st.lin.records && IsPruned(st.lin.records[KeyOf(op.s)])
    ensures !Partitions(Step(st, op).0.lin)
  {
    hide RootMember, EdgeMember, OrderOf, MetaInv, Reindexed;
    var t, k := Step(st, op).0, KeyOf(op.s);
    assert RootTagOf(k, true) in st.lin.roots;
    if k.id in st.sessions {
      var prior := st.sessions[k.id].key;
      RootTagInjective(k, true, prior, false);
    }
    assert RootTagOf(k, true) in t.lin.roots;
    if RootTagOf(k, true) in RootsOf(t.lin.records) {
      var j :| j in t.lin.records && RootTagOf(k, true) == RootTagOf(j, IsPruned(t.lin.records[j]));
      RootTagInjective(k, true, j, IsPruned(t.lin.records[j]));
      assert false;
    }
  }

  // ------------------------------------------------------------------ the sets over all runs

  function RowsOf(st: State, sc: Scope): set<Row> {
    match sc
    case All => st.meta.global
    case Of(o) => set x | x in st.meta.owners && x.owner == o :: x.row
  }

  /** What a scope should list, read off the session hashes alone. */
  function Expected(st: State, sc: Scope): set<Row> {
    set id | id in st.sessions && (sc.All? || st.sessions[id].row.owner == Some(sc.owner)) :: st.sessions[id].row
  }

  /** The record of a stored session's current incarnation is retained. */
  ghost predicate Anchored(ss: map<Id, Session>, records: map<Key, Record>) {
    forall id :: id in ss ==> ss[id].key.id == id && ss[id].key in records && records[ss[id].key].life.Retained?
  }

  /** With no premise at all: every script keeps the metadata sets, and none meets a record that it cannot
      bury. */
  lemma StepIndexes(st: State, op: Op)
    requires MetaInv(st.sessions, st.meta) && Anchored(st.sessions, st.lin.records)
    ensures var t := Step(st, op);
            MetaInv(t.0.sessions, t.0.meta) && Anchored(t.0.sessions, t.0.lin.records) && !t.1.Invalid?
  {
    hide Reindexed, Unindexed, RootMember, EdgeMember, MetaInv;
    match op
    case Create(s) => if s.row.id !in st.sessions { ReindexKeeps(st.sessions, st.meta, SessionOf(s)); }
    case Save(s, _) => ReindexKeeps(st.sessions, st.meta, SessionOf(s));
    case Delete(id, now) => if id in st.sessions { RemoveIndexes(st, id, now); }
    case DeleteIf(r, now) => if r.id in st.sessions && st.sessions[r.id].row == r { RemoveIndexes(st, r.id, now); }
  }

  lemma RemoveIndexes(st: State, id: Id, now: string)
    requires MetaInv(st.sessions, st.meta) && Anchored(st.sessions, st.lin.records) && id in st.sessions
    ensures var t := Removed(st, st.sessions[id], now);
            MetaInv(t.0.sessions, t.0.meta) && Anchored(t.0.sessions, t.0.lin.records) && t.1.Ok?
  {
    hide Unindexed;
    UnindexKeeps(st.sessions, st.meta, id);
  }

  lemma {:induction false} RunIndexes(st: State, ops: seq<Op>)
    requires MetaInv(st.sessions, st.meta) && Anchored(st.sessions, st.lin.records)
    ensures var t := Run(st, ops); MetaInv(t.sessions, t.meta) && Anchored(t.sessions, t.lin.records)
    decreases |ops|
  {
    hide MetaInv, Anchored, Step;
    if ops != [] {
      StepIndexes(st, ops[0]);
      RunIndexes(Step(st, ops[0]).0, ops[1..]);
    }
  }

  /** The error reply is unreachable. */
  lemma NeverInvalid(ops: seq<Op>, op: Op)
    ensures !Step(Run(Empty, ops), op).1.Invalid?
  {
    hide Step, Run;
    RunIndexes(Empty, ops);
    StepIndexes(Run(Empty, ops), op);
  }

  /** After any run each scope lists exactly the rows of the stored sessions in it. */
  lemma IndexesAreExact(ops: seq<Op>, sc: Scope)
    ensures RowsOf(Run(Empty, ops), sc) == Expected(Run(Empty, ops), sc)
  {
    RunIndexes(Empty, ops);
    var st := Run(Empty, ops);
    forall r ensures r in RowsOf(st, sc) <==> r in Expected(st, sc) {
      if r in RowsOf(st, sc) {
        if sc.Of? { assert OwnerRow(sc.owner, r) in st.meta.owners; }
        assert Held(st.sessions, r);
        assert r.id in st.sessions && st.sessions[r.id].row == r;
      }
      if r in Expected(st, sc) {
        assert Held(st.sessions, r);
        if sc.Of? { assert OwnerRow(sc.owner, r) in st.meta.owners; }
      }
    }
  }

  /** A root order member says which field it stands for and in which state. */
  predicate RootSays(m: Bytes, k: Key, pruned: bool) {
    OrderField(m) == Some(LineageField(k.id, k.inc)) && m != [] && m[0] == StateDigit(pruned)
  }

  /** So does an edge order member, with the digit behind the id. */
  predicate EdgeSays(m: Bytes, k: Key, pruned: bool) {
    OrderField(m) == Some(LineageField(k.id, k.inc)) && |m| > |k.id| + 1 && m[|k.id| + 1] == StateDigit(pruned)
  }

  lemma MembersSay(k: Key, b: bool)
    ensures RootSays(RootMember(k.id, b, k.inc), k, b) && EdgeSays(EdgeMember(k.id, b, k.inc), k, b)
  {
    RootMemberDecodes(k.id, b, k.inc);
  }

  /** After any run: every order member of a record or edge partition decodes to a field of that partition
      and carries its state, and every field has exactly one such member. */
  lemma OrdersDecode(ops: seq<Op>)
    requires AllowedRun(Empty, ops)
    ensures var l := Run(Empty, ops).lin;
            && (forall t :: t in l.roots ==> exists k :: k in l.records && k.id == t.id && RootSays(t.member, k, IsPruned(l.records[k])))
            && (forall k: Key, t: RootTag :: k in l.records && t.id == k.id && OrderField(t.member) == Some(LineageField(k.id, k.inc)) ==>
                  (t in l.roots <==> t == RootTagOf(k, IsPruned(l.records[k]))))
            && (forall t :: t in l.order ==> exists k :: Slot(t.edge, k) in l.edges && EdgeSays(t.member, k, IsPruned(l.edges[Slot(t.edge, k)])))
            && (forall e: Key, k: Key, t: EdgeTag :: Slot(e, k) in l.edges && t.edge == e && OrderField(t.member) == Some(LineageField(k.id, k.inc)) ==>
                  (t in l.order <==> t == EdgeTagOf(e, k, IsPruned(l.edges[Slot(e, k)]))))
  {
    RunKeeps(Empty, ops);
    var l := Run(Empty, ops).lin;
    forall t | t in l.roots ensures exists k :: k in l.records && k.id == t.id && RootSays(t.member, k, IsPruned(l.records[k])) {
      RootDecodes(l, t);
    }
    forall k: Key, t: RootTag | k in l.records && t.id == k.id && OrderField(t.member) == Some(LineageField(k.id, k.inc))
      ensures t in l.roots <==> t == RootTagOf(k, IsPruned(l.records[k]))
    {
      RootUnique(l, k, t);
    }
    forall t | t in l.order ensures exists k :: Slot(t.edge, k) in l.edges && EdgeSays(t.member, k, IsPruned(l.edges[Slot(t.edge, k)])) {
      EdgeDecodes(l, t);
    }
    forall e: Key, k: Key, t: EdgeTag | Slot(e, k) in l.edges && t.edge == e && OrderField(t.member) == Some(LineageField(k.id, k.inc))
      ensures t in l.order <==> t == EdgeTagOf(e, k, IsPruned(l.edges[Slot(e, k)]))
    {
      EdgeUnique(l, e, k, t);
    }
  }

  lemma RootDecodes(l: Lineage, t: RootTag)
    requires Partitions(l) && t in l.roots
    ensures exists k :: k in l.records && k.id == t.id && RootSays(t.member, k, IsPruned(l.records[k]))
  {
    hide RootMember, EdgeMember, RootSays, EdgeSays;
    var k :| k in l.records && t == RootTagOf(k, IsPruned(l.records[k]));
    MembersSay(k, IsPruned(l.records[k]));
  }

  lemma RootUnique(l: Lineage, k: Key, t: RootTag)
    requires Partitions(l) && Proper(l) && k in l.records && OrderField(t.member) == Some(LineageField(k.id, k.inc))
    ensures t in l.roots <==> t == RootTagOf(k, IsPruned(l.records[k]))
  {
    hide RootMember, EdgeMember, OrderField, LineageField;
    if t in l.roots {
      var j :| j in l.records && t == RootTagOf(j, IsPruned(l.records[j]));
      RootMemberDecodes(j.id, IsPruned(l.records[j]), j.inc);
      FieldInjective(k.id, k.inc, j.id, j.inc);
    }
  }

  lemma EdgeDecodes(l: Lineage, t: EdgeTag)
    requires Partitions(l) && t in l.order
    ensures exists k :: Slot(t.edge, k) in l.edges && EdgeSays(t.member, k, IsPruned(l.edges[Slot(t.edge, k)]))
  {
    hide RootMember, EdgeMember, RootSays, EdgeSays;
    var k :| k in l.records && l.records[k].edge.Some? && t == EdgeTagOf(l.records[k].edge.value, k, IsPruned(l.records[k]));
    MembersSay(k, IsPruned(l.records[k]));
    assert Names(l, k, t.edge);
    assert Slot(t.edge, k) in l.edges;
  }

  lemma EdgeUnique(l: Lineage, e: Key, k: Key, t: EdgeTag)
    requires Partitions(l) && Proper(l) && Slot(e, k) in l.edges && t.edge == e && OrderField(t.member) == Some(LineageField(k.id, k.inc))
    ensures t in l.order <==> t == EdgeTagOf(e, k, IsPruned(l.edges[Slot(e, k)]))
  {
    hide RootMember, EdgeMember, OrderField, LineageField;
    assert Names(l, k, e);
    if t in l.order {
      var j :| j in l.records && l.records[j].edge.Some? && t == EdgeTagOf(l.records[j].edge.value, j, IsPruned(l.records[j]));
      RootMemberDecodes(j.id, IsPruned(l.records[j]), j.inc);
      FieldInjective(k.id, k.inc, j.id, j.inc);
    }
  }

  /** After any run an edge partition holds exactly the rows that name it, and a record is retained
      exactly if it is the current incarnation of a stored session. */
  lemma PartitionsAreExact(ops: seq<Op>, e: Key, k: Key)
    requires AllowedRun(Empty, ops)
    ensures var st := Run(Empty, ops);
            && (Slot(e, k) in st.lin.edges <==> Names(st.lin, k, e))
            && (Slot(e, k) in st.lin.edges ==> st.lin.edges[Slot(e, k)] == st.lin.records[k])
            && (k in st.lin.records ==> (st.lin.records[k].life.Retained? <==> k.id in st.sessions && st.sessions[k.id].key == k))
  {
    RunKeeps(Empty, ops);
  }

  // ------------------------------------------------------------------ the key space

  /** The keys that hold hashes, and the keys that hold their orders. */
  function HashKeys(l: Lineage): set<Bytes> {
    (set k | k in l.records :: RecordKey(k.id)) + (set s | s in l.edges :: EdgeKey(s.edge.id, s.edge.inc))
  }

  function OrderKeys(l: Lineage): set<Bytes> {
    (set k | k in l.records :: OrderKey(RecordKey(k.id))) + (set s | s in l.edges :: OrderKey(EdgeKey(s.edge.id, s.edge.inc)))
  }

  /** After any run no key is both a hash and an order if and only if no recorded id is another one with
      the order suffix. */
  lemma KeysStayApart(ops: seq<Op>)
    requires AllowedRun(Empty, ops)
    ensures var l := Run(Empty, ops).lin;
            HashKeys(l) !! OrderKeys(l) <==> forall k, j :: k in l.records && j in l.records ==> j.id != k.id + OrderSuffix
  {
    RunKeeps(Empty, ops);
    var l := Run(Empty, ops).lin;
    if k, j :| k in l.records && j in l.records && j.id == k.id + OrderSuffix {
      OrderKeysApart(k.id, j.id, [], k.inc, [], k.inc);
      assert RecordKey(j.id) in HashKeys(l) && OrderKey(RecordKey(k.id)) in OrderKeys(l);
    } else {
      forall x | x in HashKeys(l) ensures x !in OrderKeys(l) { KeyApart(l, x); }
    }
  }

  lemma KeyApart(l: Lineage, x: Bytes)
    requires Partitions(l) && Proper(l) && x in HashKeys(l)
    requires forall k, j :: k in l.records && j in l.records ==> j.id != k.id + OrderSuffix
    ensures x !in OrderKeys(l)
  {
    hide RecordKey, EdgeKey, OrderKey;
    forall s | s in l.edges ensures IsIncarnation(s.edge.inc) {
      assert s == Slot(s.edge, s.key);
      assert Names(l, s.key, s.edge);
    }
    if j :| j in l.records && x == RecordKey(j.id) {
      forall k | k in l.records ensures x != OrderKey(RecordKey(k.id)) { OrderKeysApart(k.id, j.id, k.id, k.inc, k.id, k.inc); }
      forall s | s in l.edges ensures x != OrderKey(EdgeKey(s.edge.id, s.edge.inc)) { OrderKeysApart(j.id, j.id, s.edge.id, s.edge.inc, j.id, j.inc); }
    } else {
      var s :| s in l.edges && x == EdgeKey(s.edge.id, s.edge.inc);
      forall k | k in l.records ensures x != OrderKey(RecordKey(k.id)) { OrderKeysApart(k.id, k.id, k.id, k.inc, s.edge.id, s.edge.inc); }
      forall t | t in l.edges ensures x != OrderKey(EdgeKey(t.edge.id, t.edge.inc)) {
        OrderKeysApart([], [], t.edge.id, t.edge.inc, s.edge.id, s.edge.inc);
      }
    }
  }

  // ------------------------------------------------------------------ generations

  /** Generations only grow, and a scope whose set changes gets a new one. */
  ghost predicate Moves(st: State, t: State) {
    forall sc :: Gen(st.meta, sc) <= Gen(t.meta, sc) && (RowsOf(st, sc) == RowsOf(t, sc) || Gen(st.meta, sc) < Gen(t.meta, sc))
  }

  lemma ReindexMoves(st: State, t: State, prior: Option<Row>, r: Row)
    requires t.meta == Reindexed(st.meta, prior, r)
    ensures Moves(st, t)
  {
    forall sc ensures Gen(st.meta, sc) <= Gen(t.meta, sc) && (RowsOf(st, sc) == RowsOf(t, sc) || Gen(st.meta, sc) < Gen(t.meta, sc)) {
      if sc.Of? && r.owner != Some(sc.owner) && (prior.None? || prior.value.owner != Some(sc.owner)) {
        assert forall x :: x in t.meta.owners && x.owner == sc.owner <==> x in st.meta.owners && x.owner == sc.owner;
      }
    }
  }

  lemma UnindexMoves(st: State, t: State, r: Row)
    requires t.meta == Unindexed(st.meta, r)
    ensures Moves(st, t)
  {
    forall sc ensures Gen(st.meta, sc) <= Gen(t.meta, sc) && (RowsOf(st, sc) == RowsOf(t, sc) || Gen(st.meta, sc) < Gen(t.meta, sc)) {
      if sc.Of? && r.owner != Some(sc.owner) {
        assert forall x :: x in t.meta.owners && x.owner == sc.owner <==> x in st.meta.owners && x.owner == sc.owner;
      }
    }
  }

  lemma StepMoves(st: State, op: Op)
    ensures Moves(st, Step(st, op).0)
  {
    hide Moves, Reindexed, Unindexed;
    var t := Step(st, op).0;
    if t.meta == st.meta { SameMoves(st, t); }
    else {
      match op
      case Create(s) => ReindexMoves(st, t, None, s.row);
      case Save(s, _) => ReindexMoves(st, t, if s.row.id in st.sessions then Some(st.sessions[s.row.id].row) else None, s.row);
      case Delete(id, _) => UnindexMoves(st, t, st.sessions[id].row);
      case DeleteIf(r, _) => UnindexMoves(st, t, st.sessions[r.id].row);
    }
  }

  lemma SameMoves(st: State, t: State)
    requires t.meta == st.meta
    ensures Moves(st, t)
  {
    assert forall sc :: RowsOf(st, sc) == RowsOf(t, sc);
  }

  /** If a scope's generation is the same at the end of a run, its set is the same, and so it was at
      every moment in between. No premise is needed. */
  lemma {:induction false} SameGenerationSameRows(st: State, ops: seq<Op>, sc: Scope)
    ensures Gen(st.meta, sc) <= Gen(Run(st, ops).meta, sc)
    ensures Gen(st.meta, sc) == Gen(Run(st, ops).meta, sc) ==> RowsOf(st, sc) == RowsOf(Run(st, ops), sc)
    decreases |ops|
  {
    hide Step;
    if ops != [] {
      StepMoves(st, ops[0]);
      SameGenerationSameRows(Step(st, ops[0]).0, ops[1..], sc);
    }
  }
}
