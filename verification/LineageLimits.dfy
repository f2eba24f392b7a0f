/** Why the premise of the lineage theorems on foreign markers is needed. */
module LineageLimits {
  import opened LineageMachine
  import opened LineageSafety

  /** Clearing removes whatever marker it finds. For a session whose own rows are published, that keeps every
      disagreement behind a marker if and only if the marker is its own, or the session that wrote it no
      longer needs it. */
  lemma ClearingKeepsIff(w: World, id: Id, p: Index)
    requires id in w.running && w.running[id].phase.Clearing? && p in w.running[id].phase.rest
    requires Core(false, w) && Synced(false, w, id, {})
    ensures Core(false, Step(w, Advance(id, p)))
            <==> p !in w.marks || w.marks[p] == id || forall k: Key :: k.id == w.marks[p] ==> Agree(false, w, p, k)
  {
    hide Agree;
    var v := Step(w, Advance(id, p));
    forall q, k ensures Agree(false, v, q, k) <==> Agree(false, w, q, k) { SameFiles(w, v, q, k); }
    if p in w.marks && w.marks[p] != id {
      forall k: Key | k.id == w.marks[p] ensures !MarkedBy(v, p, k.id) {}
    }
    forall q, k: Key | MarkedBy(w, q, k.id) && !MarkedBy(v, q, k.id) ensures q == p && k.id == w.marks[p] {}
    if p !in w.marks || w.marks[p] == id || forall k: Key :: k.id == w.marks[p] ==> Agree(false, w, p, k) {
      forall q, k ensures Agree(false, v, q, k) || MarkedBy(v, q, k.id) {
        assert Agree(false, w, q, k) || MarkedBy(w, q, k.id);
      }
    }
  }

  lemma SameFiles(w: World, v: World, p: Index, k: Key)
    requires v.recs == w.recs && v.idx == w.idx
    ensures Agree(false, v, p, k) <==> Agree(false, w, p, k)
  {
  }
}
