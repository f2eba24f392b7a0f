/** Reference-counted generations of Redis clients.

    A generation is a durability client and a follow client. Callers lease the current generation;
    a swap retires it; a retired generation without leases is closed by goroutines of its own. Every
    critical section under the mutex is one step, and so is every action of a goroutine outside it. */
module Generations {
  type Client = nat
  type GenId = nat
  type LeaseId = nat

  datatype Option<+T> = None | Some(value: T)

  /** How far the closer of a generation has come: claimed under the mutex, durability close started,
      follow close started (and waiting for both), finished. */
  datatype Closer = Idle | Claimed | HalfFired | Waiting | Finished

  /** The half of the generation that a client was built for. */
  datatype Role = Durability(g: GenId) | Follow(g: GenId)

  datatype Generation = Generation(durability: Client, follow: Client, refs: int, retired: bool, closing: bool, closer: Closer)

  /** `fired` is the once of every managed client, `closers` the goroutines that will call Close,
      `closes` the Close calls made, `forcing` the clients that forceCloseFollow has yet to visit,
      `signals` how often the channel allClosed has been closed (Go panics on a second close), and
      `roles` a history of what each client was built for. */
  datatype State = State(
    gens: map<GenId, Generation>,
    current: Option<GenId>,
    closed: bool,
    all: set<GenId>,
    fired: set<Client>,
    closers: multiset<Client>,
    closes: multiset<Client>,
    forcing: set<Client>,
    leases: map<LeaseId, GenId>,
    signals: nat,
    roles: map<Client, Role>)

  datatype Op =
    | Acquire(lease: LeaseId)
    | Release(lease: LeaseId)
    | Swap(g: GenId, durability: Client, follow: Client)
    | BeginClose
    | CloseDurability(g: GenId)
    | CloseFollow(g: GenId)
    | ClientClosed(c: Client)
    | Finalize(g: GenId)
    | ForceFollow
    | ForceOne(c: Client)

  function Fresh(durability: Client, follow: Client): Generation {
    Generation(durability, follow, 0, false, false, Idle)
  }

  function Initial(durability: Client, follow: Client): State {
    State(map[0 := Fresh(durability, follow)], Some(0), false, {0}, {}, multiset{}, multiset{}, {}, map[], 0,
          map[durability := Durability(0)][follow := Follow(0)])
  }

  // ------------------------------------------------------------------ steps

  /** Retirement and the transition to closing, under the mutex. */
  function Claim(g: Generation, retire: bool): Generation {
    var h := if retire then g.(retired := true) else g;
    if !h.retired || h.refs != 0 || h.closing then h else h.(closing := true, closer := Claimed)
  }

  /** The first close of a managed client starts one goroutine; later ones do nothing. */
  function CloseAsync(s: State, c: Client): State {
    if c in s.fired then s else s.(fired := s.fired + {c}, closers := s.closers + multiset{c})
  }

  function Put(s: State, g: GenId, gen: Generation): State {
    s.(gens := s.gens[g := gen])
  }

  predicate ClientDone(s: State, c: Client) {
    s.closes[c] > 0
  }

  function Step(s: State, op: Op): State {
    match op
    case Acquire(l) =>
      if s.closed || s.current.None? || s.current.value !in s.gens || l in s.leases then s else
      var g := s.current.value;
      Put(s, g, s.gens[g].(refs := s.gens[g].refs + 1)).(leases := s.leases[l := g])
    case Release(l) =>
      if l !in s.leases || s.leases[l] !in s.gens then s else
      var g := s.leases[l];
      var gen := s.gens[g];
      Put(s, g, Claim(if gen.refs > 0 then gen.(refs := gen.refs - 1) else gen, false)).(leases := s.leases - {l})
    case Swap(g, d, f) =>
      if s.closed || s.current.None? || s.current.value !in s.gens || g in s.gens then s else
      var o := s.current.value;
      s.(gens := s.gens[o := Claim(s.gens[o], true)][g := Fresh(d, f)], current := Some(g), all := s.all + {g},
         roles := s.roles[d := Durability(g)][f := Follow(g)])
    case BeginClose =>
      if s.closed then s else
      var t := if s.current.Some? && s.current.value in s.gens
               then Put(s, s.current.value, Claim(s.gens[s.current.value], true)).(current := None) else s;
      t.(closed := true, signals := if t.all == {} then t.signals + 1 else t.signals)
    case CloseDurability(g) =>
      if g !in s.gens || !s.gens[g].closer.Claimed? then s else
      Put(CloseAsync(s, s.gens[g].durability), g, s.gens[g].(closer := HalfFired))
    case CloseFollow(g) =>
      if g !in s.gens || !s.gens[g].closer.HalfFired? then s else
      Put(CloseAsync(s, s.gens[g].follow), g, s.gens[g].(closer := Waiting))
    case ClientClosed(c) =>
      if c !in s.closers then s else s.(closers := s.closers - multiset{c}, closes := s.closes + multiset{c})
    case Finalize(g) =>
      if g !in s.gens || !s.gens[g].closer.Waiting? || !ClientDone(s, s.gens[g].durability) || !ClientDone(s, s.gens[g].follow) then s else
      var all := s.all - {g};
      Put(s, g, s.gens[g].(closer := Finished)).(all := all, signals := if s.closed && all == {} then s.signals + 1 else s.signals)
    case ForceFollow =>
      s.(forcing := s.forcing + set g | g in s.all && g in s.gens :: s.gens[g].follow)
    case ForceOne(c) =>
      if c !in s.forcing then s else CloseAsync(s, c).(forcing := s.forcing - {c})
  }

  function Run(s: State, ops: seq<Op>): State
    decreases |ops|
  {
    if ops == [] then s else Run(Step(s, ops[0]), ops[1..])
  }

  // ------------------------------------------------------------------ invariant

  function LeasesOf(leases: map<LeaseId, GenId>, g: GenId): set<LeaseId> {
    set l | l in leases && leases[l] == g
  }

  /** Every client serves one generation in one role. */
  ghost predicate Distinct(s: State) {
    forall g :: g in s.gens ==> Serves(s, s.gens[g].durability, Durability(g)) && Serves(s, s.gens[g].follow, Follow(g))
  }

  predicate Serves(s: State, c: Client, r: Role) {
    c in s.roles && s.roles[c] == r
  }

  ghost predicate Counted(s: State) {
    && (forall l :: l in s.leases ==> s.leases[l] in s.gens)
    && (forall g :: g in s.gens ==> s.gens[g].refs == |LeasesOf(s.leases, g)|)
  }

  /** Closing starts exactly when a retired generation has no lease left. */
  predicate Lifecycle(s: State, gen: Generation) {
    && (gen.closing <==> gen.retired && gen.refs == 0)
    && (gen.closing <==> !gen.closer.Idle?)
    && (gen.durability in s.fired <==> (gen.closer.HalfFired? || gen.closer.Waiting? || gen.closer.Finished?))
    && (gen.closer.Waiting? || gen.closer.Finished? ==> gen.follow in s.fired)
    && (gen.closer.Finished? ==> ClientDone(s, gen.durability) && ClientDone(s, gen.follow))
  }

  ghost predicate Generational(s: State) {
    && (forall g :: g in s.gens ==> Lifecycle(s, s.gens[g]))
    && (forall g :: g in s.all <==> g in s.gens && !s.gens[g].closer.Finished?)
    && (forall g :: g in s.gens && !s.gens[g].retired ==> s.current == Some(g))
    && (s.current.Some? ==> s.current.value in s.gens && !s.gens[s.current.value].retired)
    && (s.closed <==> s.current.None?)
  }

  /** Every fired client has one Close call, pending or made. */
  ghost predicate OncePerClient(fired: set<Client>, closers: multiset<Client>, closes: multiset<Client>) {
    forall c :: closers[c] + closes[c] == if c in fired then 1 else 0
  }

  ghost predicate Forcible(s: State) {
    && s.fired <= s.roles.Keys
    && (forall c :: c in s.forcing ==> c in s.roles && s.roles[c].Follow?)
  }

  /** The channel has been closed once if and only if all is over, and never twice. */
  ghost predicate Signalled(s: State) {
    s.signals == if s.closed && s.all == {} then 1 else 0
  }

  ghost predicate Inv(s: State) {
    Distinct(s) && Counted(s) && Generational(s) && OncePerClient(s.fired, s.closers, s.closes)
    && Forcible(s) && Signalled(s)
  }

  /** The production factory builds every pair from two new clients. */
  ghost predicate Allowed(s: State, op: Op) {
    op.Swap? && op.g !in s.gens ==>
      op.durability != op.follow && op.durability !in s.roles && op.follow !in s.roles
  }

  ghost predicate AllowedRun(s: State, ops: seq<Op>)
    decreases |ops|
  {
    ops == [] || (Allowed(s, ops[0]) && AllowedRun(Step(s, ops[0]), ops[1..]))
  }

  lemma InitialInv(d: Client, f: Client)
    requires d != f
    ensures Inv(Initial(d, f))
  {
    assert LeasesOf(map[], 0) == {};
  }

  // ------------------------------------------------------------------ leases

  lemma LeaseAdded(leases: map<LeaseId, GenId>, l: LeaseId, g: GenId, h: GenId)
    requires l !in leases
    ensures |LeasesOf(leases[l := g], h)| == |LeasesOf(leases, h)| + if g == h then 1 else 0
  {
    if g == h { assert LeasesOf(leases[l := g], h) == LeasesOf(leases, h) + {l}; }
    else { assert LeasesOf(leases[l := g], h) == LeasesOf(leases, h); }
  }

  lemma LeaseRemoved(leases: map<LeaseId, GenId>, l: LeaseId, h: GenId)
    requires l in leases
    ensures |LeasesOf(leases - {l}, h)| == |LeasesOf(leases, h)| - if leases[l] == h then 1 else 0
  {
    if leases[l] == h { assert LeasesOf(leases, h) == LeasesOf(leases - {l}, h) + {l}; }
    else { assert LeasesOf(leases - {l}, h) == LeasesOf(leases, h); }
  }

  // ------------------------------------------------------------------ preservation

  /** A lease step changes one generation's count and starts at most its close. */
  lemma LeaseKeeps(s: State, t: State, g: GenId, n: Generation)
    requires Inv(s) && g in s.gens && Lifecycle(s, n) && Counted(t)
    requires t == s.(gens := s.gens[g := n], leases := t.leases)
    requires n == s.gens[g].(refs := n.refs, closing := n.closing, closer := n.closer)
    requires n.closer.Finished? <==> s.gens[g].closer.Finished?
    ensures Inv(t)
  {
    hide OncePerClient, Counted, Lifecycle;
    forall h | h in t.gens ensures Lifecycle(t, t.gens[h]) {
      if h != g { Unmoved(s, t, s.gens[h]); } else { Unmoved(s, t, n); }
    }
  }

  lemma AcquireKeeps(s: State, l: LeaseId)
    requires Inv(s)
    ensures Inv(Step(s, Acquire(l)))
  {
    hide OncePerClient, LeasesOf;
    var t := Step(s, Acquire(l));
    if t != s {
      var g := s.current.value;
      forall h | h in t.gens ensures t.gens[h].refs == |LeasesOf(t.leases, h)| { LeaseAdded(s.leases, l, g, h); }
      LeaseKeeps(s, t, g, t.gens[g]);
    }
  }

  lemma ReleaseCounted(s: State, l: LeaseId)
    requires Inv(s)
    ensures Counted(Step(s, Release(l)))
  {
    hide Generational, OncePerClient, Distinct, Signalled, LeasesOf;
    var t := Step(s, Release(l));
    if t != s {
      var g := s.leases[l];
      LeaseHeld(s.leases, l);
      forall h | h in t.gens ensures t.gens[h].refs == |LeasesOf(t.leases, h)| { LeaseRemoved(s.leases, l, h); }
    }
  }

  lemma LeaseHeld(leases: map<LeaseId, GenId>, l: LeaseId)
    requires l in leases
    ensures |LeasesOf(leases, leases[l])| > 0
  {
    assert l in LeasesOf(leases, leases[l]);
  }

  lemma ReleaseKeeps(s: State, l: LeaseId)
    requires Inv(s)
    ensures Inv(Step(s, Release(l)))
  {
    hide OncePerClient, LeasesOf;
    ReleaseCounted(s, l);
    var t := Step(s, Release(l));
    if t != s {
      var g := s.leases[l];
      LeaseHeld(s.leases, l);
      LeaseKeeps(s, t, g, t.gens[g]);
    }
  }

  lemma SwapKeeps(s: State, op: Op)
    requires Inv(s) && op.Swap? && Allowed(s, op)
    ensures Inv(Step(s, op))
  {
    hide OncePerClient, LeasesOf, Lifecycle, Distinct;
    var t := Step(s, op);
    if t != s {
      NoLeases(s, op.g);
      SwapServes(s, op);
      forall h | h in t.gens ensures Lifecycle(t, t.gens[h]) && (h in s.gens ==> (t.gens[h].closer.Finished? <==> s.gens[h].closer.Finished?)) {
        if h == op.g { FreshLives(t, op.durability, op.follow); }
        else if Some(h) == s.current { ClaimLives(s, t, s.gens[h]); }
        else { Unmoved(s, t, s.gens[h]); }
      }
    }
  }

  lemma FreshLives(s: State, d: Client, f: Client)
    requires d !in s.fired
    ensures Lifecycle(s, Fresh(d, f))
  {
  }

  lemma NoLeases(s: State, g: GenId)
    requires Counted(s) && g !in s.gens
    ensures |LeasesOf(s.leases, g)| == 0
  {
    assert LeasesOf(s.leases, g) == {};
  }

  lemma SwapServes(s: State, op: Op)
    requires Distinct(s) && op.Swap? && Allowed(s, op)
    ensures Distinct(Step(s, op))
  {
  }

  /** Retiring a generation claims its close at once if nobody leases it. */
  lemma ClaimLives(s: State, t: State, gen: Generation)
    requires Lifecycle(s, gen) && t.fired == s.fired && t.closes == s.closes
    ensures Lifecycle(t, Claim(gen, true)) && Claim(gen, true).retired
    ensures Claim(gen, true).closer.Finished? <==> gen.closer.Finished?
  {
  }

  lemma BeginCloseKeeps(s: State)
    requires Inv(s)
    ensures Inv(Step(s, BeginClose))
  {
    hide OncePerClient, LeasesOf, Lifecycle;
    var t := Step(s, BeginClose);
    if !s.closed {
      assert s.current.value in s.all by { assert Lifecycle(s, s.gens[s.current.value]); Unretired(s, s.gens[s.current.value]); }
      forall h | h in t.gens ensures Lifecycle(t, t.gens[h]) && (t.gens[h].closer.Finished? <==> s.gens[h].closer.Finished?) {
        assert Lifecycle(s, s.gens[h]);
        if h == s.current.value { ClaimLives(s, t, s.gens[h]); } else { Unmoved(s, t, s.gens[h]); }
      }
    }
  }

  lemma Unretired(s: State, gen: Generation)
    requires Lifecycle(s, gen) && !gen.retired
    ensures gen.closer.Idle?
  {
  }

  lemma Unmoved(s: State, t: State, gen: Generation)
    requires Lifecycle(s, gen) && t.fired == s.fired && t.closes == s.closes
    ensures Lifecycle(t, gen)
  {
  }

  /** A closer step moves one generation along and touches no lease, role or ownership. */
  ghost predicate Along(s: State, t: State, g: GenId, closer: Closer) {
    && g in s.gens && t.gens == s.gens[g := s.gens[g].(closer := closer)]
    && t.current == s.current && t.closed == s.closed && t.leases == s.leases && t.roles == s.roles
  }

  lemma AlongKeeps(s: State, t: State, g: GenId, closer: Closer)
    requires Inv(s) && Along(s, t, g, closer)
    requires !s.gens[g].closer.Finished? && t.all == if closer.Finished? then s.all - {g} else s.all
    requires forall h :: h in s.gens ==> Lifecycle(t, t.gens[h])
    requires OncePerClient(t.fired, t.closers, t.closes) && Forcible(t) && Signalled(t)
    ensures Inv(t)
  {
    hide OncePerClient, LeasesOf, Lifecycle, Forcible, Signalled;
  }

  lemma CloseAsyncOnce(s: State, c: Client)
    requires OncePerClient(s.fired, s.closers, s.closes)
    ensures var t := CloseAsync(s, c);
            OncePerClient(t.fired, t.closers, t.closes) && t.fired == s.fired + {c}
  {
  }

  /** Closing a client other than the durability client moves no generation along. */
  lemma StillLives(s: State, t: State, gen: Generation, c: Client)
    requires Lifecycle(s, gen) && gen.durability != c
    requires t.fired == s.fired + {c} && t.closes == s.closes
    ensures Lifecycle(t, gen)
  {
  }

  lemma HalfFires(s: State, t: State, gen: Generation)
    requires Lifecycle(s, gen) && gen.closer.Claimed?
    requires t.fired == s.fired + {gen.durability} && t.closes == s.closes
    ensures Lifecycle(t, gen.(closer := HalfFired))
  {
  }

  lemma FollowFires(s: State, t: State, gen: Generation)
    requires Lifecycle(s, gen) && gen.closer.HalfFired? && gen.durability != gen.follow
    requires t.fired == s.fired + {gen.follow} && t.closes == s.closes
    ensures Lifecycle(t, gen.(closer := Waiting))
  {
  }

  /** Starting the close of client `c` of generation `g` leaves every other generation where it is. */
  lemma OthersLive(s: State, t: State, g: GenId, c: Client)
    requires Distinct(s) && g in s.gens && (c == s.gens[g].durability || c == s.gens[g].follow)
    requires forall h :: h in s.gens ==> Lifecycle(s, s.gens[h])
    requires t.fired == s.fired + {c} && t.closes == s.closes
    ensures forall h :: h in s.gens && h != g ==> Lifecycle(t, s.gens[h])
  {
    hide Lifecycle;
    assert Serves(s, s.gens[g].durability, Durability(g)) && Serves(s, s.gens[g].follow, Follow(g));
    forall h | h in s.gens && h != g ensures Lifecycle(t, s.gens[h]) {
      assert Serves(s, s.gens[h].durability, Durability(h));
      StillLives(s, t, s.gens[h], c);
    }
  }

  lemma CloseDurabilityKeeps(s: State, g: GenId)
    requires Inv(s)
    ensures Inv(Step(s, CloseDurability(g)))
  {
    hide OncePerClient, LeasesOf, Lifecycle, Counted;
    var t := Step(s, CloseDurability(g));
    if g in s.gens && s.gens[g].closer.Claimed? {
      assert Serves(s, s.gens[g].durability, Durability(g));
      CloseAsyncOnce(s, s.gens[g].durability);
      OthersLive(s, t, g, s.gens[g].durability);
      HalfFires(s, t, s.gens[g]);
      AlongKeeps(s, t, g, HalfFired);
    }
  }

  lemma CloseFollowKeeps(s: State, g: GenId)
    requires Inv(s)
    ensures Inv(Step(s, CloseFollow(g)))
  {
    hide OncePerClient, LeasesOf, Lifecycle, Counted;
    var t := Step(s, CloseFollow(g));
    if g in s.gens && s.gens[g].closer.HalfFired? {
      assert Serves(s, s.gens[g].follow, Follow(g)) && Serves(s, s.gens[g].durability, Durability(g));
      CloseAsyncOnce(s, s.gens[g].follow);
      OthersLive(s, t, g, s.gens[g].follow);
      FollowFires(s, t, s.gens[g]);
      AlongKeeps(s, t, g, Waiting);
    }
  }

  /** A step that changes only which clients are closed or about to be. */
  lemma ClientsKeep(s: State, t: State)
    requires Inv(s)
    requires t == s.(fired := t.fired, closers := t.closers, closes := t.closes, forcing := t.forcing)
    requires forall h :: h in s.gens ==> Lifecycle(t, s.gens[h])
    requires OncePerClient(t.fired, t.closers, t.closes) && Forcible(t)
    ensures Inv(t)
  {
    hide OncePerClient, LeasesOf, Lifecycle, Forcible, Counted;
    assert Counted(t) by { SameCount(s, t); }
  }

  lemma SameCount(s: State, t: State)
    requires Counted(s) && t.gens == s.gens && t.leases == s.leases
    ensures Counted(t)
  {
  }

  lemma ClientClosedKeeps(s: State, c: Client)
    requires Inv(s)
    ensures Inv(Step(s, ClientClosed(c)))
  {
    hide LeasesOf, Counted;
    ClientsKeep(s, Step(s, ClientClosed(c)));
  }

  lemma ForceFollowKeeps(s: State)
    requires Inv(s)
    ensures Inv(Step(s, ForceFollow))
  {
    hide LeasesOf, OncePerClient, Counted;
    var t := Step(s, ForceFollow);
    forall c | c in t.forcing ensures c in t.roles && t.roles[c].Follow? {
      if c !in s.forcing {
        var g :| g in s.all && g in s.gens && s.gens[g].follow == c;
        assert Serves(s, c, Follow(g));
      }
    }
    ClientsKeep(s, t);
  }

  lemma ForceOneKeeps(s: State, c: Client)
    requires Inv(s)
    ensures Inv(Step(s, ForceOne(c)))
  {
    hide OncePerClient, LeasesOf, Lifecycle, Counted;
    var t := Step(s, ForceOne(c));
    if c in s.forcing {
      CloseAsyncOnce(s, c);
      forall h | h in t.gens ensures Lifecycle(t, t.gens[h]) {
        assert Serves(s, s.gens[h].durability, Durability(h));
        StillLives(s, t, s.gens[h], c);
      }
      ClientsKeep(s, t);
    }
  }

  lemma FinalizeKeeps(s: State, g: GenId)
    requires Inv(s)
    ensures Inv(Step(s, Finalize(g)))
  {
    hide OncePerClient, LeasesOf, Counted;
    var t := Step(s, Finalize(g));
    if t != s {
      assert g in s.all;
      AlongKeeps(s, t, g, Finished);
    }
  }

  lemma StepKeeps(s: State, op: Op)
    requires Inv(s) && Allowed(s, op)
    ensures Inv(Step(s, op))
  {
    hide Inv, Allowed, Step;
    match op
    case Acquire(l) => AcquireKeeps(s, l);
    case Release(l) => ReleaseKeeps(s, l);
    case Swap(_, _, _) => SwapKeeps(s, op);
    case BeginClose => BeginCloseKeeps(s);
    case CloseDurability(g) => CloseDurabilityKeeps(s, g);
    case CloseFollow(g) => CloseFollowKeeps(s, g);
    case ClientClosed(c) => ClientClosedKeeps(s, c);
    case Finalize(g) => FinalizeKeeps(s, g);
    case ForceFollow => ForceFollowKeeps(s);
    case ForceOne(c) => ForceOneKeeps(s, c);
  }

  lemma {:induction false} RunKeeps(s: State, ops: seq<Op>)
    requires Inv(s) && AllowedRun(s, ops)
    ensures Inv(Run(s, ops))
    decreases |ops|
  {
    hide Inv, Allowed, Step;
    if ops != [] {
      StepKeeps(s, ops[0]);
      RunKeeps(Step(s, ops[0]), ops[1..]);
    }
  }

  // ------------------------------------------------------------------ what every run guarantees

  lemma GenerationsAreSafe(d: Client, f: Client, ops: seq<Op>, g: GenId, c: Client)
    requires d != f && AllowedRun(Initial(d, f), ops)
    ensures var s := Run(Initial(d, f), ops);
            && (g in s.gens ==> s.gens[g].refs == |LeasesOf(s.leases, g)|)
            && (g in s.gens && LeasesOf(s.leases, g) != {} ==> s.gens[g].durability !in s.fired && s.closes[s.gens[g].durability] == 0)
            && (g in s.gens && s.gens[g].retired && LeasesOf(s.leases, g) == {} ==> s.gens[g].closing)
            && s.closes[c] <= 1
            && (s.signals == 1 <==> s.closed && forall h :: h in s.gens ==> s.gens[h].closer.Finished?)
            && s.signals <= 1
  {
    hide LeasesOf;
    var s := Run(Initial(d, f), ops);
    InitialInv(d, f);
    RunKeeps(Initial(d, f), ops);
    if g in s.gens { assert Lifecycle(s, s.gens[g]); }
    if s.all != {} { var h :| h in s.all; assert h in s.gens; }
  }

  /** No goroutine has anything left to do. */
  predicate Quiet(s: State) {
    && s.closers == multiset{}
    && forall g :: g in s.gens ==>
         && !s.gens[g].closer.Claimed? && !s.gens[g].closer.HalfFired?
         && !(s.gens[g].closer.Waiting? && ClientDone(s, s.gens[g].durability) && ClientDone(s, s.gens[g].follow))
  }

  /** Nothing is forgotten: once closed, unleased and quiet, allClosed has been closed. */
  lemma QuietMeansClosed(s: State)
    requires Inv(s) && s.closed && s.leases == map[] && Quiet(s)
    ensures s.signals == 1
  {
    forall g | g in s.gens ensures s.gens[g].closer.Finished? {
      assert Lifecycle(s, s.gens[g]);
      assert LeasesOf(s.leases, g) == {};
    }
    assert s.all == {};
  }

  // ------------------------------------------------------------------ why the two halves must differ

  /** Forcing the follow half reaches the durability client exactly when the two are one client. */
  lemma ForceReachesDurability(s: State, g: GenId)
    requires g in s.all && g in s.gens && s.gens[g].durability !in s.fired
    ensures s.gens[g].durability in Step(Step(s, ForceFollow), ForceOne(s.gens[g].follow)).fired
            <==> s.gens[g].durability == s.gens[g].follow
  {
    assert s.gens[g].follow in Step(s, ForceFollow).forcing;
  }

  /** A shared pair is closed under a live lease. */
  lemma SharedPairClosedWhileLeased(d: Client)
    ensures var s := Run(Initial(d, d), [Acquire(0), ForceFollow, ForceOne(d), ClientClosed(d)]);
            0 in s.gens && s.gens[0].refs == 1 && s.closes[s.gens[0].durability] == 1
  {
    var a := Step(Initial(d, d), Acquire(0));
    var b := Step(a, ForceFollow);
    var c := Step(b, ForceOne(d));
    assert d in b.forcing by { assert 0 in a.all && a.gens[0].follow == d; }
    var e := Step(c, ClientClosed(d));
    assert Run(e, []) == e && Run(c, [ClientClosed(d)]) == e;
    assert Run(b, [ForceOne(d), ClientClosed(d)]) == Run(c, [ClientClosed(d)]);
    assert Run(a, [ForceFollow, ForceOne(d), ClientClosed(d)]) == Run(b, [ForceOne(d), ClientClosed(d)]);
  }
}
