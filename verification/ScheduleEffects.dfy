/** What every schedule operation does, field by field: when it succeeds, what it stores, and what it leaves
    alone. Nothing here is said through the functions that define the machine's branches. */
module ScheduleEffects {
  import opened Schedules
  import opened Binary64

  predicate Has(st: Store, n: string) {
    n in st.schedules
  }

  /** Nothing but schedule `n` changed. */
  ghost predicate OnlySchedule(st: Store, u: Store, n: string) {
    && u.fires == st.fires
    && (forall m :: m != n ==> (m in u.schedules <==> m in st.schedules))
    && (forall m :: m != n && m in st.schedules ==> u.schedules[m] == st.schedules[m])
  }

  predicate WithinBudget(s: Schedule) {
    s.spec.maxFires <= 0 || s.state.fireCount < s.spec.maxFires
  }

  /** The slot is reached on this clock. */
  predicate Reached(clock: Clock, slot: int, now: int) {
    match clock case Exact => slot <= now case Binary64 => Round(slot) <= Round(now)
  }

  /** A consumed slot: every field of the state. */
  predicate Consumed(s: Schedule, t: Schedule, now: Time, next: Time) {
    && t.spec == s.spec
    && t.state.lastFireAt == now && t.state.nextFireAt == next && t.state.fireCount == s.state.fireCount + 1
    && t.state.enabled == next.At? && t.state.deletionId == "" && t.state.lastSession == "pending"
    && t.state.retries == s.state.retries
    && t.state.startedAt.Zero? && t.state.progressAt.Zero? && t.state.deadline.Zero?
  }

  /** A claim wins exactly for an enabled schedule that is not being deleted, has a slot that is reached, and
      has fires left; then it consumes the slot. */
  lemma ClaimEffect(clock: Clock, st: Store, n: string, now: Time, next: Time)
    ensures var (u, r) := Apply(clock, st, Claim(n, now, next));
            && (r.Returned? <==>
                  && Has(st, n) && st.schedules[n].state.enabled && st.schedules[n].state.deletionId == "" && WithinBudget(st.schedules[n])
                  && st.schedules[n].state.nextFireAt.At? && now.At? && Reached(clock, st.schedules[n].state.nextFireAt.nanos, now.nanos))
            && (r.Returned? ==> Has(u, n) && r.s == u.schedules[n] && Consumed(st.schedules[n], u.schedules[n], now, next) && OnlySchedule(st, u, n))
            && (!r.Returned? ==> r.NotFound? && u == st)
  {
  }

  /** A manual claim wins exactly for an enabled schedule that is not being deleted, has fires left, and was
      not last fired at this very instant: the slot does not matter. */
  lemma ClaimNowEffect(clock: Clock, st: Store, n: string, now: Time, next: Time)
    ensures var (u, r) := Apply(clock, st, ClaimNow(n, now, next));
            && (r.Returned? <==>
                  && Has(st, n) && st.schedules[n].state.enabled && st.schedules[n].state.deletionId == "" && WithinBudget(st.schedules[n])
                  && st.schedules[n].state.lastFireAt != now)
            && (r.Returned? ==> Has(u, n) && r.s == u.schedules[n] && Consumed(st.schedules[n], u.schedules[n], now, next) && OnlySchedule(st, u, n))
            && (!r.Returned? ==> r.NotFound? && u == st)
  {
  }

  /** A new record is stored as given, except that one with no slot, no fire and no flag starts enabled. */
  predicate Fresh(s: Schedule, t: Schedule) {
    && t.spec == s.spec && t.state.(enabled := s.state.enabled) == s.state
    && (t.state.enabled <==> s.state.enabled || (s.state.nextFireAt.Zero? && s.state.fireCount == 0))
  }

  lemma CreateEffect(clock: Clock, st: Store, s: Schedule)
    ensures var (u, r) := Apply(clock, st, Create(s));
            var n := s.spec.name;
            && (Has(st, n) ==> r.Exists? && u == st)
            && (!Has(st, n) ==> r.Done? && Has(u, n) && Fresh(s, u.schedules[n]) && OnlySchedule(st, u, n))
  {
  }

  /** Saving an existing record replaces the specification and keeps the whole state. */
  lemma SaveEffect(clock: Clock, st: Store, s: Schedule)
    ensures var (u, r) := Apply(clock, st, Save(s));
            var n := s.spec.name;
            && (!Has(st, n) ==> r.Done? && Has(u, n) && Fresh(s, u.schedules[n]) && OnlySchedule(st, u, n))
            && (Has(st, n) && st.schedules[n].state.deletionId != "" ==> r.Deleting? && u == st)
            && (Has(st, n) && st.schedules[n].state.deletionId == "" ==>
                  r.Done? && Has(u, n) && u.schedules[n].spec == s.spec && u.schedules[n].state == st.schedules[n].state && OnlySchedule(st, u, n))
  {
  }

  lemma SetEnabledEffect(clock: Clock, st: Store, n: string, e: bool)
    ensures var (u, r) := Apply(clock, st, SetEnabled(n, e));
            && (!Has(st, n) ==> r.NotFound? && u == st)
            && (Has(st, n) && st.schedules[n].state.deletionId != "" ==> r.Deleting? && u == st)
            && (Has(st, n) && st.schedules[n].state.deletionId == "" ==>
                  && r.Done? && Has(u, n) && OnlySchedule(st, u, n) && u.schedules[n].spec == st.schedules[n].spec
                  && u.schedules[n].state.enabled == e && u.schedules[n].state == st.schedules[n].state.(enabled := u.schedules[n].state.enabled))
  {
  }

  /** Deleting is idempotent and refuses a schedule in two-phase deletion. */
  lemma DeleteEffect(clock: Clock, st: Store, n: string)
    ensures var (u, r) := Apply(clock, st, Delete(n));
            && (Has(st, n) && st.schedules[n].state.deletionId != "" ==> r.Deleting? && u == st)
            && (Has(st, n) && st.schedules[n].state.deletionId == "" ==> r.Done? && !Has(u, n) && OnlySchedule(st, u, n))
            && (!Has(st, n) ==> r.Done? && u == st)
  {
  }

  /** Deletion begins exactly for an idle schedule; a fire is on its way while its session is pending or its
      start is recorded. */
  lemma BeginDeleteEffect(clock: Clock, st: Store, n: string, d: string)
    ensures var (u, r) := Apply(clock, st, BeginDelete(n, d));
            && (!Has(st, n) ==> r.NotFound? && u == st)
            && (Has(st, n) && st.schedules[n].state.deletionId != "" ==> r == Returned(st.schedules[n]) && u == st)
            && (Has(st, n) && st.schedules[n].state.deletionId == "" ==>
                  if st.schedules[n].state.lastSession == "pending" || st.schedules[n].state.startedAt.At? then r.ActiveFire? && u == st
                  else if d == "" then r.EmptyId? && u == st
                  else
                    && Has(u, n) && r == Returned(u.schedules[n]) && OnlySchedule(st, u, n) && u.schedules[n].spec == st.schedules[n].spec
                    && u.schedules[n].state.deletionId == d && !u.schedules[n].state.enabled
                    && u.schedules[n].state == st.schedules[n].state.(enabled := false, deletionId := u.schedules[n].state.deletionId))
  {
  }

  lemma CompleteDeleteEffect(clock: Clock, st: Store, n: string, d: string)
    ensures var (u, r) := Apply(clock, st, CompleteDelete(n, d));
            if Has(st, n) && d != "" && st.schedules[n].state.deletionId == d then r.Done? && !Has(u, n) && OnlySchedule(st, u, n)
            else r.Deleting? && u == st
  {
  }

  lemma ReArmEffect(clock: Clock, st: Store, n: string, next: Time)
    ensures var (u, r) := Apply(clock, st, ReArmOneShot(n, next));
            && (!Has(st, n) ==> r.NotFound? && u == st)
            && (Has(st, n) && st.schedules[n].state.deletionId != "" ==> r.Deleting? && u == st)
            && (Has(st, n) && st.schedules[n].state.deletionId == "" ==>
                  && r.Done? && Has(u, n) && OnlySchedule(st, u, n) && u.schedules[n].spec == st.schedules[n].spec
                  && u.schedules[n].state.enabled && u.schedules[n].state.nextFireAt == next
                  && u.schedules[n].state.retries == st.schedules[n].state.retries + 1
                  && u.schedules[n].state == st.schedules[n].state.(enabled := true, nextFireAt := u.schedules[n].state.nextFireAt, retries := u.schedules[n].state.retries))
  {
  }

  /** Only schedule `n` and fire `f` changed. */
  ghost predicate OnlyFire(st: Store, u: Store, n: string, f: string) {
    && OnlySchedule(st, u.(fires := st.fires), n)
    && (forall g :: g != f ==> (g in u.fires <==> g in st.fires))
    && (forall g :: g != f && g in st.fires ==> u.fires[g] == st.fires[g])
  }

  /** A start is recorded unless the fire is over or the same start is recorded already. */
  lemma FireStartEffect(clock: Clock, st: Store, n: string, f: Fire)
    ensures var (u, r) := Apply(clock, st, FireStart(n, f));
            if !Has(st, n) then r.NotFound? && u == st
            else if f.id in st.fires && (st.fires[f.id].stop != "" || st.fires[f.id].startedAt == f.startedAt) then r.Done? && u == st
            else
              && r.Done? && Has(u, n) && f.id in u.fires && OnlyFire(st, u, n, f.id)
              && u.fires[f.id].stop == "" && u.fires[f.id] == f.(stop := u.fires[f.id].stop)
              && u.schedules[n].spec == st.schedules[n].spec
              && u.schedules[n].state.lastSession == f.session && u.schedules[n].state.startedAt == f.startedAt
              && u.schedules[n].state.progressAt == (if f.progressAt.At? then f.progressAt else f.startedAt)
              && u.schedules[n].state.deadline == f.deadline
              && u.schedules[n].state == st.schedules[n].state.(lastSession := f.session, startedAt := f.startedAt,
                   progressAt := u.schedules[n].state.progressAt, deadline := f.deadline)
  {
  }

  /** The later of two times; an absent one is the earliest. */
  predicate Latest(t: Time, a: Time, b: Time) {
    (t == a || t == b) && (a.At? ==> t.At? && t.nanos >= a.nanos) && (b.At? ==> t.At? && t.nanos >= b.nanos)
  }

  /** Progress moves the schedule's time, and an in-flight fire's, to the later of the old and the new. */
  lemma FireProgressEffect(clock: Clock, st: Store, n: string, id: string, at: Time)
    ensures var (u, r) := Apply(clock, st, FireProgress(n, id, at));
            if !Has(st, n) then r.NotFound? && u == st
            else
              && r.Done? && Has(u, n) && OnlyFire(st, u, n, id) && u.schedules[n].spec == st.schedules[n].spec
              && Latest(u.schedules[n].state.progressAt, st.schedules[n].state.progressAt, at)
              && u.schedules[n].state == st.schedules[n].state.(progressAt := u.schedules[n].state.progressAt)
              && (id in u.fires <==> id in st.fires)
              && (id in st.fires && st.fires[id].stop != "" ==> u.fires[id] == st.fires[id])
              && (id in st.fires && st.fires[id].stop == "" ==>
                    && Latest(u.fires[id].progressAt, st.fires[id].progressAt, at)
                    && u.fires[id] == st.fires[id].(progressAt := u.fires[id].progressAt))
  {
  }

  /** The end of a fire is recorded once, and clears what was in flight. */
  lemma FireEndEffect(clock: Clock, st: Store, f: Fire)
    ensures var (u, r) := Apply(clock, st, FireEnd(f));
            if f.id in st.fires && st.fires[f.id].stop != "" then r.Done? && u == st
            else if !Has(st, f.name) then r.NotFound? && u == st
            else
              && r.Done? && Has(u, f.name) && f.id in u.fires && u.fires[f.id] == f && OnlyFire(st, u, f.name, f.id)
              && u.schedules[f.name].spec == st.schedules[f.name].spec
              && u.schedules[f.name].state == st.schedules[f.name].state.(lastSession := f.session,
                   startedAt := Time.Zero, progressAt := Time.Zero, deadline := Time.Zero)
  {
  }

  /** What is due: enabled, with a slot that is reached, and fires left. */
  lemma DueMeans(s: Schedule, now: Time)
    ensures IsDue(s, now) <==>
              s.state.enabled && WithinBudget(s) && s.state.nextFireAt.At? && now.At? && s.state.nextFireAt.nanos <= now.nanos
  {
  }
}
