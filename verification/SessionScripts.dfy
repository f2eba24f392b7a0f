/** The four index scripts as they run: fields and sets changed one command after another. */
module SessionScripts {
  import opened ByteOrder
  import opened IndexKeys
  import opened SessionIndex
  import opened SessionIndexRuns

  class Database {
    var sessions: map<Id, Session>
    var global: set<Row>
    var owners: set<OwnerRow>
    var gens: map<Scope, nat>
    var records: map<Key, Record>
    var roots: set<RootTag>
    var edges: map<Slot, Record>
    var order: set<EdgeTag>

    ghost function View(): State
      reads this
    {
      State(sessions, Metadata(global, owners, gens), Lineage(records, roots, edges, order))
    }

    constructor ()
      ensures View() == Empty && Inv(View())
    {
      sessions, global, owners, gens := map[], {}, {}, map[];
      records, roots, edges, order := map[], {}, map[], {};
    }

    method Increment(sc: Scope)
      modifies this`gens
      ensures Metadata(global, owners, gens) == Bump(Metadata(global, owners, old(gens)), sc)
    {
      var n := if sc in gens then gens[sc] else 0;
      gens := gens[sc := n + 1];
    }

    method RemoveMember(r: Row)
      modifies this`global, this`owners
      ensures Metadata(global, owners, gens) == DropRow(Metadata(old(global), old(owners), gens), r)
    {
      global := global - {r};
      if r.owner.Some? { owners := owners - {OwnerRow(r.owner.value, r)}; }
    }

    /** Replace a retained record by its tombstone; the error reply otherwise. */
    method BuryRecord(s: Session, now: string) returns (ok: bool)
      modifies this`records, this`roots, this`edges, this`order
      ensures ok <==> Buriable(old(View()).lin, s.key)
      ensures View().lin == if ok then Bury(old(View()).lin, s, now) else old(View()).lin
    {
      if s.key !in records { return true; }
      var record := records[s.key];
      if !record.life.Retained? { return false; }
      var dead := record.(life := Pruned(now));
      records := records[s.key := dead];
      if s.rootOrder != [] {
        roots := roots - {RootTag(s.key.id, s.rootOrder)};
        roots := roots + {RootTag(s.key.id, [49] + s.rootOrder[1..])};
      }
      if s.edge.Some? {
        edges := edges[Slot(s.edge.value, s.key) := dead];
        if s.edgeOrder != [] {
          var flipped := FlipEdge(s.edgeOrder);
          order := order - {EdgeTag(s.edge.value, s.edgeOrder)};
          if flipped.Some? { order := order + {EdgeTag(s.edge.value, flipped.value)}; }
        }
      }
      return true;
    }

    method PublishRecord(k: Key, r: Record)
      modifies this`records, this`roots, this`edges, this`order
      ensures View().lin == Published(old(View()).lin, k, r)
    {
      records := records[k := r];
      roots := roots + {RootTag(k.id, RootMember(k.id, false, k.inc))};
      if r.edge.Some? {
        edges := edges[Slot(r.edge.value, k) := r];
        order := order + {EdgeTag(r.edge.value, EdgeMember(k.id, false, k.inc))};
      }
    }

    /** The part that create and save share once the old entry is out of the sets. */
    method Enter(s: Snapshot, prior: Option<Row>)
      modifies this
      ensures sessions == old(sessions)[s.row.id := SessionOf(s)]
      ensures View().lin == Published(old(View()).lin, KeyOf(s), RecordOf(s))
      ensures var b := Bump(AddRow(old(View()).meta, s.row), All);
              var c := if prior.Some? && prior.value.owner != s.row.owner then BumpOwner(b, prior.value.owner) else b;
              View().meta == BumpOwner(c, s.row.owner)
    {
      sessions := sessions[s.row.id := SessionOf(s)];
      global := global + {s.row};
      if s.row.owner.Some? { owners := owners + {OwnerRow(s.row.owner.value, s.row)}; }
      Increment(All);
      if prior.Some? && prior.value.owner.Some? && prior.value.owner != s.row.owner { Increment(Of(prior.value.owner.value)); }
      if s.row.owner.Some? { Increment(Of(s.row.owner.value)); }
      PublishRecord(KeyOf(s), RecordOf(s));
    }

    method Create(s: Snapshot) returns (created: bool)
      requires Inv(View()) && Allowed(View(), Op.Create(s))
      modifies this
      ensures Inv(View()) && View() == Step(old(View()), Op.Create(s)).0
      ensures created <==> s.row.id !in old(sessions)
    {
      hide Inv, Allowed, Published;
      StepKeeps(View(), Op.Create(s));
      if s.row.id in sessions { return false; }
      Enter(s, None);
      return true;
    }

    method Save(s: Snapshot, now: string) returns (ok: bool)
      requires Inv(View()) && Allowed(View(), Op.Save(s, now))
      modifies this
      ensures Inv(View()) && View() == Step(old(View()), Op.Save(s, now)).0 && ok
    {
      hide Inv, Allowed, Published, Tombstoned;
      StepKeeps(View(), Op.Save(s, now));
      if s.row.id !in sessions { Enter(s, None); return true; }
      var prior := sessions[s.row.id];
      if prior.key != KeyOf(s) {
        ok := BuryRecord(prior, now);
        if !ok { return false; }
      } else if prior.edge != s.edge && prior.edge.Some? {
        edges := edges - {Slot(prior.edge.value, prior.key)};
        order := order - {EdgeTag(prior.edge.value, prior.edgeOrder)};
      }
      RemoveMember(prior.row);
      Enter(s, Some(prior.row));
      return true;
    }

    method Delete(id: Id, now: string) returns (ok: bool)
      requires Inv(View())
      modifies this
      ensures Inv(View()) && View() == Step(old(View()), Op.Delete(id, now)).0 && ok
    {
      hide Inv, Tombstoned;
      StepKeeps(View(), Op.Delete(id, now));
      if id !in sessions { return true; }
      ok := Drop(sessions[id], now);
    }

    method DeleteIf(expected: Row, now: string) returns (deleted: bool)
      requires Inv(View())
      modifies this
      ensures Inv(View()) && View() == Step(old(View()), Op.DeleteIf(expected, now)).0
      ensures deleted <==> expected.id in old(sessions) && old(sessions)[expected.id].row == expected
    {
      hide Inv, Tombstoned;
      StepKeeps(View(), Op.DeleteIf(expected, now));
      if expected.id !in sessions || sessions[expected.id].row != expected { return false; }
      deleted := Drop(sessions[expected.id], now);
    }

    /** What both deletions do to a stored session. */
    method Drop(s: Session, now: string) returns (ok: bool)
      modifies this
      ensures (View(), if ok then Ok else Invalid) == Removed(old(View()), s, now)
    {
      RemoveMember(s.row);
      Increment(All);
      if s.row.owner.Some? { Increment(Of(s.row.owner.value)); }
      ok := BuryRecord(s, now);
      if !ok { return false; }
      sessions := sessions - {s.row.id};
      return true;
    }
  }
}
