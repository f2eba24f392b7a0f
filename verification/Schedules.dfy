/** The schedule registry that jsonlstore and redisstore both implement, as one abstract machine. */
module Schedules {
  /** A Go time: the zero time, or a count of nanoseconds since the Unix epoch. */
  datatype Time = Zero | At(nanos: int)

  datatype Spec = Spec(name: string, maxFires: int, body: string)

  datatype State = State(
    nextFireAt: Time,
    lastFireAt: Time,
    fireCount: int,
    enabled: bool,
    deletionId: string,
    lastSession: string,
    retries: int,
    startedAt: Time,
    progressAt: Time,
    deadline: Time)

  datatype Schedule = Schedule(spec: Spec, state: State)

  /** A fire is in flight while `stop` is empty. */
  datatype Fire = Fire(id: string, name: string, session: string, startedAt: Time, progressAt: Time, deadline: Time, stop: string, rest: string)

  datatype Store = Store(schedules: map<string, Schedule>, fires: map<string, Fire>)

  datatype Op =
    | Create(s: Schedule)
    | Save(s: Schedule)
    | SetEnabled(name: string, enabled: bool)
    | Delete(name: string)
    | BeginDelete(name: string, deletionId: string)
    | CompleteDelete(name: string, deletionId: string)
    | Claim(name: string, now: Time, nextFire: Time)
    | ClaimNow(name: string, now: Time, nextFire: Time)
    | ReArmOneShot(name: string, nextFire: Time)
    | FireStart(name: string, fire: Fire)
    | FireProgress(name: string, fireId: string, at: Time)
    | FireEnd(fire: Fire)

  datatype Outcome =
    | Done
    | Returned(s: Schedule)
    | NotFound
    | Exists
    | Deleting
    | ActiveFire
    | EmptyId

  /** The session id that Claim leaves until the fire has a real one. */
  const Pending := "pending"

  /** How a due check compares instants: exactly, or after rounding both to binary64. */
  datatype Clock = Exact | Binary64

  predicate After(a: Time, b: Time) {
    a.At? && (b.Zero? || a.nanos > b.nanos)
  }

  /** The largest power of two that divides every binary64 number of magnitude `x`. */
  function Ulp(x: nat): (u: nat)
    ensures u > 0
  {
    if x < 0x20_0000_0000_0000 then 1 else 2 * Ulp(x / 2)
  }

  /** Rounding to nearest, ties to even (section 4.3.1 of IEEE 754-2019). */
  function RoundNat(x: nat): int {
    var u := Ulp(x);
    var q, r := x / u, x % u;
    if 2 * r < u then q * u else if 2 * r > u then (q + 1) * u else if q % 2 == 0 then q * u else (q + 1) * u
  }

  function Round(x: int): int {
    if x < 0 then -RoundNat(-x) else RoundNat(x)
  }

  /** The slot lies after `now` on this clock. */
  predicate Later(clock: Clock, slot: Time, now: Time) {
    match clock
    case Exact => After(slot, now)
    case Binary64 => slot.At? && (now.Zero? || Round(slot.nanos) > Round(now.nanos))
  }

  // ------------------------------------------------------------------ operations

  predicate Exhausted(s: Schedule) {
    s.spec.maxFires > 0 && s.state.fireCount >= s.spec.maxFires
  }

  predicate Claimable(clock: Clock, s: Schedule, now: Time) {
    && s.state.enabled && s.state.deletionId == ""
    && s.state.nextFireAt.At? && !Later(clock, s.state.nextFireAt, now)
    && !Exhausted(s)
  }

  predicate ClaimableNow(s: Schedule, now: Time) {
    && s.state.enabled && s.state.deletionId == ""
    && !Exhausted(s)
    && s.state.lastFireAt != now
  }

  /** Consuming a slot: stamp, advance, count, and disable when there is no next slot. */
  function Advanced(s: Schedule, now: Time, nextFire: Time): Schedule {
    s.(state := s.state.(
         lastFireAt := now, nextFireAt := nextFire, fireCount := s.state.fireCount + 1, lastSession := Pending,
         startedAt := Zero, progressAt := Zero, deadline := Zero,
         enabled := s.state.enabled && !nextFire.Zero?))
  }

  /** A new record with a zero state starts enabled. */
  function Seeded(s: Schedule): Schedule {
    if s.state.nextFireAt.Zero? && !s.state.enabled && s.state.fireCount == 0 then s.(state := s.state.(enabled := true)) else s
  }

  predicate Active(s: Schedule) {
    s.state.lastSession == Pending || !s.state.startedAt.Zero?
  }

  function Put(st: Store, name: string, s: Schedule): Store {
    st.(schedules := st.schedules[name := s])
  }

  function Started(s: Schedule, f: Fire): Schedule {
    s.(state := s.state.(
         lastSession := f.session, startedAt := f.startedAt,
         progressAt := if f.progressAt.Zero? then f.startedAt else f.progressAt, deadline := f.deadline))
  }

  function Ended(s: Schedule, f: Fire): Schedule {
    s.(state := s.state.(lastSession := f.session, startedAt := Zero, progressAt := Zero, deadline := Zero))
  }

  function Progressed(st: Store, name: string, fireId: string, at: Time): Store
    requires name in st.schedules
  {
    var s := st.schedules[name];
    var u := if After(at, s.state.progressAt) then Put(st, name, s.(state := s.state.(progressAt := at))) else st;
    if fireId in u.fires && u.fires[fireId].stop == "" && After(at, u.fires[fireId].progressAt)
    then u.(fires := u.fires[fireId := u.fires[fireId].(progressAt := at)]) else u
  }

  function Apply(clock: Clock, st: Store, op: Op): (Store, Outcome) {
    match op
    case Create(s) =>
      if s.spec.name in st.schedules then (st, Exists) else (Put(st, s.spec.name, Seeded(s)), Done)
    case Save(s) =>
      if s.spec.name !in st.schedules then (Put(st, s.spec.name, Seeded(s)), Done)
      else if st.schedules[s.spec.name].state.deletionId != "" then (st, Deleting)
      else (Put(st, s.spec.name, st.schedules[s.spec.name].(spec := s.spec)), Done)
    case SetEnabled(n, e) =>
      if n !in st.schedules then (st, NotFound)
      else if st.schedules[n].state.deletionId != "" then (st, Deleting)
      else (Put(st, n, st.schedules[n].(state := st.schedules[n].state.(enabled := e))), Done)
    case Delete(n) =>
      if n !in st.schedules then (st, Done)
      else if st.schedules[n].state.deletionId != "" then (st, Deleting)
      else (st.(schedules := st.schedules - {n}), Done)
    case BeginDelete(n, d) =>
      if n !in st.schedules then (st, NotFound)
      else if st.schedules[n].state.deletionId != "" then (st, Returned(st.schedules[n]))
      else if Active(st.schedules[n]) then (st, ActiveFire)
      else if d == "" then (st, EmptyId)
      else
        var s := st.schedules[n].(state := st.schedules[n].state.(enabled := false, deletionId := d));
        (Put(st, n, s), Returned(s))
    case CompleteDelete(n, d) =>
      if n !in st.schedules || st.schedules[n].state.deletionId == "" || st.schedules[n].state.deletionId != d then (st, Deleting)
      else (st.(schedules := st.schedules - {n}), Done)
    case Claim(n, now, next) =>
      if n !in st.schedules || !Claimable(clock, st.schedules[n], now) then (st, NotFound)
      else (Put(st, n, Advanced(st.schedules[n], now, next)), Returned(Advanced(st.schedules[n], now, next)))
    case ClaimNow(n, now, next) =>
      if n !in st.schedules || !ClaimableNow(st.schedules[n], now) then (st, NotFound)
      else (Put(st, n, Advanced(st.schedules[n], now, next)), Returned(Advanced(st.schedules[n], now, next)))
    case ReArmOneShot(n, next) =>
      if n !in st.schedules then (st, NotFound)
      else if st.schedules[n].state.deletionId != "" then (st, Deleting)
      else
        var s := st.schedules[n];
        (Put(st, n, s.(state := s.state.(enabled := true, nextFireAt := next, retries := s.state.retries + 1))), Done)
    case FireStart(n, f) =>
      if n !in st.schedules then (st, NotFound)
      else if f.id in st.fires && (st.fires[f.id].stop != "" || st.fires[f.id].startedAt == f.startedAt) then (st, Done)
      else (Put(st, n, Started(st.schedules[n], f)).(fires := st.fires[f.id := f.(stop := "")]), Done)
    case FireProgress(n, id, at) =>
      if n !in st.schedules then (st, NotFound) else (Progressed(st, n, id, at), Done)
    case FireEnd(f) =>
      if f.id in st.fires && st.fires[f.id].stop != "" then (st, Done)
      else if f.name !in st.schedules then (st, NotFound)
      else (Put(st, f.name, Ended(st.schedules[f.name], f)).(fires := st.fires[f.id := f]), Done)
  }

  /** What Due selects. */
  predicate IsDue(s: Schedule, now: Time) {
    s.state.enabled && s.state.nextFireAt.At? && !After(s.state.nextFireAt, now) && !Exhausted(s)
  }

  function Run(clock: Clock, st: Store, ops: seq<Op>): Store
    decreases |ops|
  {
    if ops == [] then st else Run(clock, Apply(clock, st, ops[0]).0, ops[1..])
  }
}
