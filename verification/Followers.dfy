/** Admission, cancellation and shutdown of the followers of an event log, and the follow-client leases that
    their read loops take and return. */
module Followers {
  type FollowerId = nat

  datatype Result<+T> = Ok(value: T) | Err(error: string)

  /** The fields that the registry's mutex guards, and how often allDone has been closed. */
  datatype Registrar = Registrar(
    limit: nat,
    closed: bool,
    next: FollowerId,
    active: set<FollowerId>,
    cancelled: set<FollowerId>,
    signals: nat)

  /** Where a follower's read stands: admitted; inside the two commands that resolve its basis; between
      cycles, yielding or about to read again; inside a stream cycle; done reading; returned, with the
      context cancelled and the registry not yet locked. */
  datatype Point = Admitted | InBasis | Between | InCycle | Over | Returned

  /** `leases` counts the follow clients leased, by follower. */
  datatype State = State(reg: Registrar, at: map<FollowerId, Point>, leases: multiset<FollowerId>)

  datatype Op =
    | Admit
    | AcquireBasis(id: FollowerId, ok: bool)
    | ReleaseBasis(id: FollowerId)
    | AcquireCycle(id: FollowerId, ok: bool)
    | ReleaseCycle(id: FollowerId)
    | Stop(id: FollowerId)
    | Return(id: FollowerId)
    | Remove(id: FollowerId)
    | BeginClose

  function Initial(limit: nat): State {
    State(Registrar(limit, false, 0, {}, {}, 0), map[], multiset{})
  }

  /** Followers and pool both default to 32; a pool must serve every admitted follower. */
  function EffectiveLimits(pool: int, followers: int): (r: Result<(nat, nat)>)
    ensures r.Ok? ==> 1 <= r.value.1 <= r.value.0
    ensures r.Ok? ==> r.value.0 == (if pool == 0 then 32 else pool) && r.value.1 == (if followers == 0 then 32 else followers)
    ensures r.Ok? <==> 0 <= pool && 0 <= followers && (if followers == 0 then 32 else followers) <= (if pool == 0 then 32 else pool)
  {
    var p := if pool == 0 then 32 else pool;
    var m := if followers == 0 then 32 else followers;
    if p < 1 then Err("follow pool size must be positive")
    else if m < 1 || m > p then Err("max followers must be positive and no greater than follow pool size")
    else Ok((p as nat, m as nat))
  }

  // ------------------------------------------------------------------ the registry

  /** allDone is closed through a once. */
  function Signal(r: Registrar): Registrar {
    if r.closed && r.active == {} && r.signals == 0 then r.(signals := 1) else r
  }

  predicate Admits(r: Registrar) {
    !r.closed && |r.active| < r.limit
  }

  function Entered(r: Registrar): Registrar {
    r.(next := r.next + 1, active := r.active + {r.next})
  }

  function Cancelled(r: Registrar, id: FollowerId): Registrar {
    r.(cancelled := r.cancelled + {id})
  }

  function Removed(r: Registrar, id: FollowerId): Registrar {
    Signal(r.(active := r.active - {id}))
  }

  function Closed(r: Registrar): Registrar {
    Signal(r.(closed := true, cancelled := r.cancelled + r.active))
  }

  // ------------------------------------------------------------------ followers

  predicate Stands(s: State, id: FollowerId, p: Point) {
    id in s.at && s.at[id] == p
  }

  function Go(s: State, id: FollowerId, p: Point): State {
    s.(at := s.at[id := p])
  }

  /** The program of a follower, one action at a time. A lease that cannot be had ends the read; a function
      returns its lease before its caller goes on. */
  function Step(s: State, op: Op): State {
    match op
    case Admit =>
      if Admits(s.reg) then State(Entered(s.reg), s.at[s.reg.next := Admitted], s.leases) else s
    case AcquireBasis(id, ok) =>
      if !Stands(s, id, Admitted) then s
      else if ok then Go(s, id, InBasis).(leases := s.leases + multiset{id})
      else Go(s, id, Over)
    case ReleaseBasis(id) =>
      if Stands(s, id, InBasis) then Go(s, id, Between).(leases := s.leases - multiset{id}) else s
    case AcquireCycle(id, ok) =>
      if !Stands(s, id, Between) then s
      else if ok then Go(s, id, InCycle).(leases := s.leases + multiset{id})
      else Go(s, id, Over)
    case ReleaseCycle(id) =>
      if Stands(s, id, InCycle) then Go(s, id, Between).(leases := s.leases - multiset{id}) else s
    case Stop(id) =>
      if Stands(s, id, Between) then Go(s, id, Over) else s
    case Return(id) =>
      if Stands(s, id, Over) then Go(s, id, Returned).(reg := Cancelled(s.reg, id)) else s
    case Remove(id) =>
      if Stands(s, id, Returned) then State(Removed(s.reg, id), s.at - {id}, s.leases) else s
    case BeginClose => s.(reg := Closed(s.reg))
  }

  function Run(s: State, ops: seq<Op>): State
    decreases |ops|
  {
    if ops == [] then s else Run(Step(s, ops[0]), ops[1..])
  }

  // ------------------------------------------------------------------ invariant

  predicate Regular(r: Registrar) {
    && |r.active| <= r.limit
    && (forall id :: id in r.active ==> id < r.next)
    && (r.closed ==> r.active <= r.cancelled)
    && r.signals == if r.closed && r.active == {} then 1 else 0
  }

  predicate Leasing(p: Point) {
    p.InBasis? || p.InCycle?
  }

  /** Each follower leases what its program point says, and nobody else leases anything. */
  ghost predicate Counted(at: map<FollowerId, Point>, leases: multiset<FollowerId>) {
    forall id :: leases[id] == if id in at && Leasing(at[id]) then 1 else 0
  }

  /** Followers in flight are the registered ones. */
  ghost predicate Inv(s: State) {
    Regular(s.reg) && s.at.Keys == s.reg.active && Counted(s.at, s.leases)
  }

  lemma CountedEnds(at: map<FollowerId, Point>, leases: multiset<FollowerId>, id: FollowerId)
    requires Counted(at, leases)
    ensures id !in at ==> Counted(at[id := Admitted], leases)
    ensures id in at && at[id] == Returned ==> Counted(at - {id}, leases)
  {
  }

  lemma RegistrarKeeps(r: Registrar, id: FollowerId)
    requires Regular(r)
    ensures Admits(r) ==> Regular(Entered(r))
    ensures Regular(Cancelled(r, id)) && Regular(Removed(r, id)) && Regular(Closed(r))
  {
    if Admits(r) { assert |r.active + {r.next}| == |r.active| + 1; }
    if id in r.active { assert |r.active - {id}| == |r.active| - 1; } else { assert r.active - {id} == r.active; }
  }

  function Held(p: Point): nat {
    if Leasing(p) then 1 else 0
  }

  /** A follower moves on, and its leases with it. */
  lemma MoveKeeps(s: State, t: State, id: FollowerId, p: Point)
    requires Inv(s) && id in s.at && t.at == s.at[id := p]
    requires Regular(t.reg) && t.reg.active == s.reg.active
    requires t.leases == s.leases[id := Held(p)]
    ensures Inv(t)
  {
    hide Regular;
  }

  lemma Adjusted(m: multiset<FollowerId>, id: FollowerId)
    ensures m[id] == 0 ==> m + multiset{id} == m[id := 1] && m == m[id := 0]
    ensures m[id] == 1 ==> m - multiset{id} == m[id := 0]
  {
  }

  lemma AcquireKeeps(s: State, op: Op)
    requires Inv(s) && (op.AcquireBasis? || op.AcquireCycle?)
    ensures Inv(Step(s, op)) && Step(s, op).reg == s.reg
  {
    hide Regular;
    Adjusted(s.leases, op.id);
    var t := Step(s, op);
    if t.at != s.at { MoveKeeps(s, t, op.id, t.at[op.id]); }
  }

  lemma ReleaseKeeps(s: State, op: Op)
    requires Inv(s) && (op.ReleaseBasis? || op.ReleaseCycle?)
    ensures Inv(Step(s, op)) && Step(s, op).reg == s.reg
  {
    hide Regular;
    Adjusted(s.leases, op.id);
    var t := Step(s, op);
    if t.at != s.at { MoveKeeps(s, t, op.id, Between); }
  }

  lemma EndKeeps(s: State, op: Op)
    requires Inv(s) && (op.Stop? || op.Return?)
    ensures Inv(Step(s, op)) && Step(s, op).reg == s.reg.(cancelled := Step(s, op).reg.cancelled)
  {
    hide Regular;
    Adjusted(s.leases, op.id);
    RegistrarKeeps(s.reg, op.id);
    var t := Step(s, op);
    if t.at != s.at { MoveKeeps(s, t, op.id, t.at[op.id]); }
  }

  lemma RemoveKeeps(s: State, id: FollowerId)
    requires Inv(s)
    ensures Inv(Step(s, Remove(id))) && Step(s, Remove(id)).reg.limit == s.reg.limit
    ensures s.reg.closed == Step(s, Remove(id)).reg.closed && Step(s, Remove(id)).reg.active <= s.reg.active
  {
    hide Regular, Counted;
    RegistrarKeeps(s.reg, id);
    CountedEnds(s.at, s.leases, id);
  }

  lemma CloseKeeps(s: State)
    requires Inv(s)
    ensures Inv(Step(s, BeginClose)) && Step(s, BeginClose).reg.limit == s.reg.limit
    ensures Step(s, BeginClose).reg.closed && Step(s, BeginClose).reg.active == s.reg.active
  {
    RegistrarKeeps(s.reg, 0);
  }

  lemma AdmitKeeps(s: State)
    requires Inv(s)
    ensures Inv(Step(s, Admit)) && Step(s, Admit).reg.limit == s.reg.limit && (s.reg.closed ==> Step(s, Admit) == s)
  {
    hide Regular, Counted;
    RegistrarKeeps(s.reg, 0);
    NextIsNew(s.reg);
    CountedEnds(s.at, s.leases, s.reg.next);
  }

  lemma StepKeeps(s: State, op: Op)
    requires Inv(s)
    ensures Inv(Step(s, op)) && Step(s, op).reg.limit == s.reg.limit
    ensures s.reg.closed ==> Step(s, op).reg.closed && Step(s, op).reg.active <= s.reg.active
  {
    hide Inv, Step;
    match op
    case Admit => AdmitKeeps(s);
    case AcquireBasis(_, _) => AcquireKeeps(s, op);
    case AcquireCycle(_, _) => AcquireKeeps(s, op);
    case ReleaseBasis(_) => ReleaseKeeps(s, op);
    case ReleaseCycle(_) => ReleaseKeeps(s, op);
    case Stop(_) => EndKeeps(s, op);
    case Return(_) => EndKeeps(s, op);
    case Remove(id) => RemoveKeeps(s, id);
    case BeginClose => CloseKeeps(s);
  }

  lemma NextIsNew(r: Registrar)
    requires Regular(r)
    ensures r.next !in r.active
  {
  }

  lemma {:induction false} RunKeeps(s: State, ops: seq<Op>)
    requires Inv(s)
    ensures Inv(Run(s, ops)) && Run(s, ops).reg.limit == s.reg.limit
    ensures s.reg.closed ==> Run(s, ops).reg.closed && Run(s, ops).reg.active <= s.reg.active
    decreases |ops|
  {
    hide Inv, Step;
    if ops != [] {
      StepKeeps(s, ops[0]);
      RunKeeps(Step(s, ops[0]), ops[1..]);
    }
  }

  /** Each follower holds at most one lease, so there are no more leases than followers. */
  lemma LeasesBounded(s: State)
    requires Inv(s)
    ensures |s.leases| <= |s.reg.active| && forall id :: s.leases[id] <= 1
  {
    var all := multiset(s.reg.active);
    assert s.leases <= all;
    assert all == s.leases + (all - s.leases);
    assert |all| == |s.reg.active|;
  }

  /** The registry and the follow pool over every run, for every configuration that is accepted. */
  lemma FollowersAreBounded(pool: int, followers: int, ops: seq<Op>)
    requires EffectiveLimits(pool, followers).Ok?
    ensures var (size, limit) := EffectiveLimits(pool, followers).value;
            var s := Run(Initial(limit), ops);
            && |s.reg.active| <= limit
            && |s.leases| <= |s.reg.active| && |s.leases| <= size && (forall id :: s.leases[id] <= 1)
            && (s.reg.closed ==> s.reg.active <= s.reg.cancelled)
            && s.reg.signals <= 1
            && (s.reg.signals == 1 <==> s.reg.closed && s.reg.active == {})
  {
    var (size, limit) := EffectiveLimits(pool, followers).value;
    RunKeeps(Initial(limit), ops);
    LeasesBounded(Run(Initial(limit), ops));
  }

  /** After a close nobody is admitted, in any continuation. */
  lemma NoneAdmittedAfterClose(s: State, ops: seq<Op>)
    requires Inv(s)
    ensures var t := Step(s, BeginClose);
            s.reg.active <= t.reg.cancelled && Run(t, ops).reg.active <= s.reg.active && Run(t, ops).reg.closed
  {
    StepKeeps(s, BeginClose);
    RunKeeps(Step(s, BeginClose), ops);
  }

  // ------------------------------------------------------------------ the registry as it runs

  function Elems(order: seq<FollowerId>): set<FollowerId> {
    set id | id in order
  }

  datatype Admission = Granted(id: FollowerId) | Full | Shut

  class Registry {
    const limit: nat
    var closed: bool
    var next: FollowerId
    var active: set<FollowerId>
    var cancelled: set<FollowerId>
    var signals: nat

    ghost function View(): Registrar
      reads this
    {
      Registrar(limit, closed, next, active, cancelled, signals)
    }

    constructor (limit: nat)
      ensures View() == Initial(limit).reg && Regular(View())
    {
      this.limit := limit;
      closed, next, active, cancelled, signals := false, 0, {}, {}, 0;
    }

    method Admit() returns (r: Admission)
      requires Regular(View())
      modifies this
      ensures Regular(View())
      ensures View() == if Admits(old(View())) then Entered(old(View())) else old(View())
      ensures r.Shut? <==> old(closed)
      ensures r.Full? <==> !old(closed) && |old(active)| == limit
      ensures r.Granted? ==> r.id !in old(active) && active == old(active) + {r.id}
    {
      RegistrarKeeps(View(), 0);
      if closed { return Shut; }
      if |active| >= limit { return Full; }
      var id := next;
      next := next + 1;
      active := active + {id};
      return Granted(id);
    }

    /** Both halves of the release function. */
    method Release(id: FollowerId)
      requires Regular(View()) && id in active
      modifies this
      ensures Regular(View()) && View() == Removed(Cancelled(old(View()), id), id)
      ensures active == old(active) - {id} && cancelled == old(cancelled) + {id} && (signals == 1 <==> closed && active == {})
    {
      RegistrarKeeps(View(), id);
      RegistrarKeeps(Cancelled(View(), id), id);
      cancelled := cancelled + {id};
      active := active - {id};
      if closed && active == {} && signals == 0 { signals := signals + 1; }
    }

    /** The loop that cancels followers one after another. */
    method CancelAll(order: seq<FollowerId>)
      modifies this`cancelled
      ensures cancelled == old(cancelled) + Elems(order)
    {
      for n := 0 to |order|
        invariant cancelled == old(cancelled) + Elems(order[..n])
      {
        assert Elems(order[..n + 1]) == Elems(order[..n]) + {order[n]} by { assert order[..n + 1] == order[..n] + [order[n]]; }
        cancelled := cancelled + {order[n]};
      }
      assert order[..|order|] == order;
    }

    /** Closing cancels every follower present. */
    method BeginClose(order: seq<FollowerId>)
      requires Regular(View()) && Elems(order) == active
      modifies this
      ensures Regular(View()) && View() == Closed(old(View()))
      ensures closed && active == old(active) && cancelled == old(cancelled) + active && (signals == 1 <==> active == {})
    {
      hide Regular, Elems;
      RegistrarKeeps(View(), 0);
      closed := true;
      CancelAll(order);
      if active == {} && signals == 0 { signals := signals + 1; }
    }
  }
}
