/** The jsonlstore schedule store: one file per schedule and per fire, under one mutex. Every method
    is one step of the abstract machine on an exact clock. */
module FileSchedules {
  import opened Schedules

  class FileStore {
    var files: map<string, Schedule>
    var fires: map<string, Fire>

    ghost function View(): Store
      reads this
    {
      Store(files, fires)
    }

    constructor ()
      ensures View() == Store(map[], map[])
    {
      files, fires := map[], map[];
    }

    method Create(s: Schedule) returns (r: Outcome)
      modifies this
      ensures (View(), r) == Apply(Exact, old(View()), Op.Create(s))
    {
      if s.spec.name in files { return Exists; }
      var state := s.state;
      if state.nextFireAt.Zero? && !state.enabled && state.fireCount == 0 { state := state.(enabled := true); }
      files := files[s.spec.name := Schedule(s.spec, state)];
      return Done;
    }

    method Save(s: Schedule) returns (r: Outcome)
      modifies this
      ensures (View(), r) == Apply(Exact, old(View()), Op.Save(s))
    {
      var state := s.state;
      if s.spec.name in files {
        if files[s.spec.name].state.deletionId != "" { return Deleting; }
        state := files[s.spec.name].state;
      } else if state.nextFireAt.Zero? && !state.enabled && state.fireCount == 0 {
        state := state.(enabled := true);
      }
      files := files[s.spec.name := Schedule(s.spec, state)];
      return Done;
    }

    method SetEnabled(name: string, enabled: bool) returns (r: Outcome)
      modifies this
      ensures (View(), r) == Apply(Exact, old(View()), Op.SetEnabled(name, enabled))
    {
      if name !in files { return NotFound; }
      var rec := files[name];
      if rec.state.deletionId != "" { return Deleting; }
      files := files[name := rec.(state := rec.state.(enabled := enabled))];
      return Done;
    }

    method Delete(name: string) returns (r: Outcome)
      modifies this
      ensures (View(), r) == Apply(Exact, old(View()), Op.Delete(name))
    {
      if name !in files { return Done; }
      if files[name].state.deletionId != "" { return Deleting; }
      files := files - {name};
      return Done;
    }

    method BeginDelete(name: string, deletionId: string) returns (r: Outcome)
      modifies this
      ensures (View(), r) == Apply(Exact, old(View()), Op.BeginDelete(name, deletionId))
    {
      if name !in files { return NotFound; }
      var rec := files[name];
      if rec.state.deletionId != "" { return Returned(rec); }
      if rec.state.lastSession == Pending || !rec.state.startedAt.Zero? { return ActiveFire; }
      if deletionId == "" { return EmptyId; }
      rec := rec.(state := rec.state.(enabled := false));
      rec := rec.(state := rec.state.(deletionId := deletionId));
      files := files[name := rec];
      return Returned(rec);
    }

    method CompleteDelete(name: string, deletionId: string) returns (r: Outcome)
      modifies this
      ensures (View(), r) == Apply(Exact, old(View()), Op.CompleteDelete(name, deletionId))
    {
      if name !in files || files[name].state.deletionId == "" || files[name].state.deletionId != deletionId { return Deleting; }
      files := files - {name};
      return Done;
    }

    method Advance(name: string, now: Time, nextFire: Time) returns (r: Outcome)
      requires name in files
      modifies this
      ensures r == Returned(Advanced(old(files)[name], now, nextFire))
      ensures files == old(files)[name := r.s] && fires == old(fires)
    {
      var st := files[name].state;
      st := st.(lastFireAt := now, nextFireAt := nextFire);
      st := st.(fireCount := st.fireCount + 1, lastSession := Pending);
      st := st.(startedAt := Zero, progressAt := Zero, deadline := Zero);
      if nextFire.Zero? { st := st.(enabled := false); }
      files := files[name := files[name].(state := st)];
      return Returned(files[name]);
    }

    method Claim(name: string, now: Time, nextFire: Time) returns (r: Outcome)
      modifies this
      ensures (View(), r) == Apply(Exact, old(View()), Op.Claim(name, now, nextFire))
    {
      if name !in files { return NotFound; }
      var st, spec := files[name].state, files[name].spec;
      if !st.enabled || st.deletionId != "" { return NotFound; }
      if st.nextFireAt.Zero? || After(st.nextFireAt, now) { return NotFound; }
      if spec.maxFires > 0 && st.fireCount >= spec.maxFires { return NotFound; }
      r := Advance(name, now, nextFire);
    }

    method ClaimNow(name: string, now: Time, nextFire: Time) returns (r: Outcome)
      modifies this
      ensures (View(), r) == Apply(Exact, old(View()), Op.ClaimNow(name, now, nextFire))
    {
      if name !in files { return NotFound; }
      var st, spec := files[name].state, files[name].spec;
      if !st.enabled || st.deletionId != "" { return NotFound; }
      if spec.maxFires > 0 && st.fireCount >= spec.maxFires { return NotFound; }
      if st.lastFireAt == now { return NotFound; }
      r := Advance(name, now, nextFire);
    }

    method ReArmOneShot(name: string, nextFire: Time) returns (r: Outcome)
      modifies this
      ensures (View(), r) == Apply(Exact, old(View()), Op.ReArmOneShot(name, nextFire))
    {
      if name !in files { return NotFound; }
      var rec := files[name];
      if rec.state.deletionId != "" { return Deleting; }
      files := files[name := rec.(state := rec.state.(enabled := true, nextFireAt := nextFire, retries := rec.state.retries + 1))];
      return Done;
    }

    method RecordFireStart(name: string, fire: Fire) returns (r: Outcome)
      modifies this
      ensures (View(), r) == Apply(Exact, old(View()), FireStart(name, fire))
    {
      if name !in files { return NotFound; }
      if fire.id in fires && fires[fire.id].stop != "" { return Done; }
      if fire.id in fires && fires[fire.id].startedAt == fire.startedAt { return Done; }
      var st := files[name].state.(lastSession := fire.session, startedAt := fire.startedAt);
      if fire.progressAt.Zero? { st := st.(progressAt := fire.startedAt); } else { st := st.(progressAt := fire.progressAt); }
      st := st.(deadline := fire.deadline);
      files := files[name := files[name].(state := st)];
      fires := fires[fire.id := fire.(stop := "")];
      return Done;
    }

    method RecordFireProgress(name: string, fireId: string, at: Time) returns (r: Outcome)
      modifies this
      ensures (View(), r) == Apply(Exact, old(View()), FireProgress(name, fireId, at))
    {
      if name !in files { return NotFound; }
      var rec := files[name];
      if !at.Zero? && After(at, rec.state.progressAt) {
        files := files[name := rec.(state := rec.state.(progressAt := at))];
      }
      if fireId !in fires { return Done; }
      var fire := fires[fireId];
      if fire.stop != "" { return Done; }
      if !at.Zero? && After(at, fire.progressAt) { fires := fires[fireId := fire.(progressAt := at)]; }
      return Done;
    }

    method RecordFire(fire: Fire) returns (r: Outcome)
      modifies this
      ensures (View(), r) == Apply(Exact, old(View()), FireEnd(fire))
    {
      if fire.id in fires && fires[fire.id].stop != "" { return Done; }
      if fire.name !in files { return NotFound; }
      var rec := files[fire.name];
      files := files[fire.name := rec.(state := rec.state.(lastSession := fire.session, startedAt := Zero, progressAt := Zero, deadline := Zero))];
      fires := fires[fire.id := fire];
      return Done;
    }

    /** The directory scan. `order` is the directory listing. */
    method Due(order: seq<string>, now: Time) returns (due: seq<string>)
      requires (set n | n in order) == files.Keys
      ensures forall n :: n in due <==> n in files && IsDue(files[n], now) && files[n].state.deletionId == ""
    {
      due := [];
      forall k | 0 <= k < |order| ensures order[k] in files { assert order[k] in (set n | n in order); }
      for k := 0 to |order|
        invariant forall n :: n in due <==> n in order[..k] && n in files && IsDue(files[n], now) && files[n].state.deletionId == ""
      {
        assert order[..k + 1] == order[..k] + [order[k]];
        var rec := files[order[k]];
        if !rec.state.enabled || rec.state.deletionId != "" { continue; }
        if rec.state.nextFireAt.Zero? || After(rec.state.nextFireAt, now) { continue; }
        if rec.spec.maxFires > 0 && rec.state.fireCount >= rec.spec.maxFires { continue; }
        due := due + [order[k]];
      }
      assert order[..|order|] == order;
      forall n | n in files ensures n in order { assert n in (set m | m in order); }
    }
  }
}
