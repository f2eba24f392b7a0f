/** What each step of the generation manager does to the fields, and that every reachable manager can be shut
    down: some continuation closes every client and the channel. */
module GenerationProgress {
  import opened Generations

  // ------------------------------------------------------------------ leases

  /** Only generation `g` changed. */
  ghost predicate OnlyGen(s: State, t: State, g: GenId) {
    forall h :: h != g ==> (h in t.gens <==> h in s.gens) && (h in s.gens ==> t.gens[h] == s.gens[h])
  }

  /** An open manager leases its current generation to a new lease; a closed one leases nothing. */
  lemma AcquireEffect(s: State, l: LeaseId)
    requires Inv(s) && l !in s.leases
    ensures var t := Step(s, Acquire(l));
            if s.closed then t == s
            else
              && s.current.Some? && s.current.value in t.gens
              && t.leases == s.leases[l := s.current.value]
              && t.gens[s.current.value] == s.gens[s.current.value].(refs := s.gens[s.current.value].refs + 1)
              && OnlyGen(s, t, s.current.value) && t == s.(leases := t.leases, gens := t.gens)
  {
  }

  /** A release gives the lease back; the last one of a retired generation claims its close. */
  lemma ReleaseEffect(s: State, l: LeaseId)
    requires Inv(s) && l in s.leases
    ensures var t := Step(s, Release(l));
            var g := s.leases[l];
            && g in s.gens && g in t.gens && t.leases == s.leases - {l}
            && t.gens[g].refs == s.gens[g].refs - 1 && t.gens[g].retired == s.gens[g].retired
            && (s.gens[g].retired && s.gens[g].refs == 1 ==> t.gens[g].closing && t.gens[g].closer.Claimed?)
            && (!(s.gens[g].retired && s.gens[g].refs == 1) ==> t.gens[g].closing == s.gens[g].closing && t.gens[g].closer == s.gens[g].closer)
            && t.gens[g].durability == s.gens[g].durability && t.gens[g].follow == s.gens[g].follow
            && OnlyGen(s, t, g) && t == s.(leases := t.leases, gens := t.gens)
  {
    hide LeasesOf;
    LeaseHeld(s.leases, l);
    assert Lifecycle(s, s.gens[s.leases[l]]);
  }

  /** The generation that is no longer current is retired, and its close claimed at once if nobody leases it. */
  predicate Retires(s: State, t: State)
    requires s.current.Some? && s.current.value in s.gens
  {
    var g := s.current.value;
    && g in t.gens && t.gens[g].retired && t.gens[g].refs == s.gens[g].refs
    && (t.gens[g].closer.Claimed? <==> LeasesOf(s.leases, g) == {})
    && t.gens[g].durability == s.gens[g].durability && t.gens[g].follow == s.gens[g].follow
  }

  lemma SwapEffect(s: State, g: GenId, d: Client, f: Client)
    requires Inv(s) && g !in s.gens
    ensures var t := Step(s, Swap(g, d, f));
            if s.closed then t == s
            else
              && t.current == Some(g) && g in t.gens && t.gens[g].durability == d && t.gens[g].follow == f
              && t.gens[g].refs == 0 && !t.gens[g].retired && t.all == s.all + {g} && t.leases == s.leases && !t.closed
              && s.current.Some? && s.current.value in s.gens && Retires(s, t)
              && (forall h :: h != g && h != s.current.value ==> (h in t.gens <==> h in s.gens) && (h in s.gens ==> t.gens[h] == s.gens[h]))
  {
    if !s.closed { assert Lifecycle(s, s.gens[s.current.value]); }
  }

  lemma BeginCloseEffect(s: State)
    requires Inv(s)
    ensures var t := Step(s, BeginClose);
            if s.closed then t == s
            else
              && t.closed && t.current.None? && t.leases == s.leases && t.all == s.all
              && s.current.Some? && s.current.value in s.gens && Retires(s, t) && OnlyGen(s, t, s.current.value)
  {
    if !s.closed { assert Lifecycle(s, s.gens[s.current.value]); }
  }

  // ------------------------------------------------------------------ shutting down

  lemma RunConcat(s: State, a: seq<Op>, b: seq<Op>)
    ensures Run(s, a + b) == Run(Run(s, a), b)
    decreases |a|
  {
    if a == [] { assert a + b == b; }
    else {
      assert (a + b)[0] == a[0] && (a + b)[1..] == a[1..] + b;
      RunConcat(Step(s, a[0]), a[1..], b);
    }
  }

  predicate NoSwap(ops: seq<Op>) {
    forall i :: 0 <= i < |ops| ==> !ops[i].Swap?
  }

  lemma {:induction false} NoSwapAllowed(s: State, ops: seq<Op>)
    requires NoSwap(ops)
    ensures AllowedRun(s, ops)
    decreases |ops|
  {
    if ops != [] { NoSwapAllowed(Step(s, ops[0]), ops[1..]); }
  }

  lemma StepRun(s: State, op: Op)
    requires Inv(s) && !op.Swap?
    ensures Run(s, [op]) == Step(s, op) && Inv(Step(s, op))
  {
    StepKeeps(s, op);
    assert [op][1..] == [];
  }

  lemma LifeOf(s: State, g: GenId)
    requires Inv(s) && g in s.gens
    ensures Lifecycle(s, s.gens[g])
  {
  }

  /** The closer has begun and not finished. */
  predicate Underway(s: State, g: GenId) {
    g in s.gens && s.gens[g].closing && !s.gens[g].closer.Idle? && !s.gens[g].closer.Finished?
  }

  /** Leases, ownership and generations stay; only the closer of `g` moved. */
  predicate CloserOnly(s: State, t: State, g: GenId) {
    && g in s.gens && g in t.gens && t.gens[g] == s.gens[g].(closer := t.gens[g].closer)
    && t.closed == s.closed && t.leases == s.leases && t.all == s.all
  }

  lemma DurabilityStarts(s: State, g: GenId)
    requires Inv(s) && Underway(s, g)
    ensures var t := Step(s, CloseDurability(g));
            Inv(t) && CloserOnly(s, t, g) && Underway(t, g) && !t.gens[g].closer.Claimed?
  {
    hide Inv;
    StepKeeps(s, CloseDurability(g));
  }

  lemma FollowStarts(s: State, g: GenId)
    requires Inv(s) && Underway(s, g) && !s.gens[g].closer.Claimed?
    ensures var t := Step(s, CloseFollow(g));
            && Inv(t) && CloserOnly(s, t, g) && t.gens[g].closer.Waiting?
            && t.gens[g].durability in t.fired && t.gens[g].follow in t.fired
  {
    hide Inv, Lifecycle;
    StepKeeps(s, CloseFollow(g));
    var t := Step(s, CloseFollow(g));
    LifeOf(t, g);
    WaitingFired(t, t.gens[g]);
  }

  lemma WaitingFired(s: State, gen: Generation)
    requires Lifecycle(s, gen) && gen.closer.Waiting?
    ensures gen.durability in s.fired && gen.follow in s.fired
  {
  }

  /** A fired client gets closed. */
  lemma ClientCloses(s: State, c: Client)
    requires Inv(s) && c in s.fired
    ensures var t := Step(s, ClientClosed(c));
            Inv(t) && ClientDone(t, c) && t == s.(closers := t.closers, closes := t.closes) && forall d :: ClientDone(s, d) ==> ClientDone(t, d)
  {
    hide Counted, Distinct, Generational, Forcible, Signalled;
    StepKeeps(s, ClientClosed(c));
  }

  lemma FinalizeEnds(s: State, g: GenId)
    requires Inv(s) && g in s.gens && s.gens[g].closer.Waiting? && ClientDone(s, s.gens[g].durability) && ClientDone(s, s.gens[g].follow)
    ensures var t := Step(s, Finalize(g)); Inv(t) && t.closed == s.closed && t.leases == s.leases && t.all == s.all - {g}
  {
    hide Inv;
    StepKeeps(s, Finalize(g));
  }

  /** Both clients of a waiting generation close, and its waiter ends. */
  lemma WaiterFinishes(s: State, g: GenId) returns (ops: seq<Op>)
    requires Inv(s) && g in s.gens && s.gens[g].closer.Waiting? && s.gens[g].durability in s.fired && s.gens[g].follow in s.fired
    ensures NoSwap(ops)
    ensures var t := Run(s, ops); Inv(t) && t.closed == s.closed && t.leases == s.leases && t.all == s.all - {g}
  {
    hide Inv, Step;
    var d, f := s.gens[g].durability, s.gens[g].follow;
    ClientCloses(s, d);
    var c := Step(s, ClientClosed(d));
    ClientCloses(c, f);
    var e := Step(c, ClientClosed(f));
    FinalizeEnds(e, g);
    ops := [ClientClosed(d), ClientClosed(f), Finalize(g)];
    RunThree(s, ClientClosed(d), ClientClosed(f), Finalize(g));
  }

  lemma RunThree(s: State, a: Op, b: Op, c: Op)
    ensures Run(s, [a, b, c]) == Step(Step(Step(s, a), b), c)
  {
    hide Step;
    assert Run(Step(Step(s, a), b), [c]) == Step(Step(Step(s, a), b), c);
    assert Run(Step(s, a), [b, c]) == Run(Step(Step(s, a), b), [c]);
  }

  /** The steps that take a claimed generation to its end. */
  lemma GenerationFinishes(s: State, g: GenId) returns (ops: seq<Op>)
    requires Inv(s) && s.closed && s.leases == map[] && g in s.all
    ensures NoSwap(ops)
    ensures var t := Run(s, ops); Inv(t) && t.closed && t.leases == map[] && t.all == s.all - {g}
  {
    hide Inv, Step;
    Unleased(s, g);
    DurabilityStarts(s, g);
    var a := Step(s, CloseDurability(g));
    FollowStarts(a, g);
    var b := Step(a, CloseFollow(g));
    var rest := WaiterFinishes(b, g);
    var first := [CloseDurability(g), CloseFollow(g)];
    assert Run(a, [CloseFollow(g)]) == b;
    assert Run(s, first) == Run(a, [CloseFollow(g)]);
    RunConcat(s, first, rest);
    ops := first + rest;
  }

  lemma Unleased(s: State, g: GenId)
    requires Inv(s) && s.closed && s.leases == map[] && g in s.all
    ensures Underway(s, g)
  {
    assert Lifecycle(s, s.gens[g]);
    assert LeasesOf(s.leases, g) == {};
  }

  lemma {:induction false} AllFinish(s: State) returns (ops: seq<Op>)
    requires Inv(s) && s.closed && s.leases == map[]
    ensures NoSwap(ops) && Inv(Run(s, ops)) && Run(s, ops).closed && Run(s, ops).all == {}
    decreases |s.all|
  {
    hide Inv, Step;
    if s.all == {} { return []; }
    var g :| g in s.all;
    var first := GenerationFinishes(s, g);
    assert |s.all - {g}| < |s.all|;
    var rest := AllFinish(Run(s, first));
    RunConcat(s, first, rest);
    ops := first + rest;
  }

  lemma {:induction false} AllReleased(s: State) returns (ops: seq<Op>)
    requires Inv(s) && s.closed
    ensures NoSwap(ops) && Inv(Run(s, ops)) && Run(s, ops).closed && Run(s, ops).leases == map[]
    decreases |s.leases|
  {
    hide Inv, Step;
    if s.leases == map[] { return []; }
    var l :| l in s.leases;
    StepRun(s, Release(l));
    ReleaseEffect(s, l);
    assert s.leases.Keys == (s.leases - {l}).Keys + {l};
    var rest := AllReleased(Step(s, Release(l)));
    RunConcat(s, [Release(l)], rest);
    ops := [Release(l)] + rest;
  }

  /** From every reachable manager, however many generations are leased: closing it, giving the leases back and
      letting the goroutines run closes the channel, and each client of each generation exactly once. */
  lemma EveryManagerShutsDown(d: Client, f: Client, ops: seq<Op>) returns (more: seq<Op>)
    requires d != f && AllowedRun(Initial(d, f), ops)
    ensures AllowedRun(Run(Initial(d, f), ops), more)
    ensures var t := Run(Run(Initial(d, f), ops), more);
            && t.closed && t.leases == map[] && t.signals == 1
            && forall g :: g in t.gens ==> t.closes[t.gens[g].durability] == 1 && t.closes[t.gens[g].follow] == 1
  {
    hide Inv, Step, Run, AllowedRun;
    var s := Run(Initial(d, f), ops);
    InitialInv(d, f);
    RunKeeps(Initial(d, f), ops);
    StepRun(s, BeginClose);
    var c := Step(s, BeginClose);
    BeginCloseEffect(s);
    var a := AllReleased(c);
    var b := AllFinish(Run(c, a));
    LeasesStay(Run(c, a), b);
    RunConcat(s, [BeginClose], a + b);
    RunConcat(c, a, b);
    more := [BeginClose] + (a + b);
    NoSwapAllowed(s, more);
    AllClosedOnce(Run(s, more));
  }

  /** No step makes a lease in a closed manager. */
  lemma {:induction false} LeasesStay(s: State, ops: seq<Op>)
    requires s.closed && s.leases == map[]
    ensures Run(s, ops).leases == map[]
    decreases |ops|
  {
    if ops != [] { LeasesStay(Step(s, ops[0]), ops[1..]); }
  }

  lemma AllClosedOnce(s: State)
    requires Inv(s) && s.closed && s.all == {}
    ensures s.signals == 1
    ensures forall g :: g in s.gens ==> s.closes[s.gens[g].durability] == 1 && s.closes[s.gens[g].follow] == 1
  {
    forall g | g in s.gens ensures s.closes[s.gens[g].durability] == 1 && s.closes[s.gens[g].follow] == 1 {
      assert Lifecycle(s, s.gens[g]);
    }
  }
}
