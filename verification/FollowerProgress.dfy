/** What a follower's steps do, and that every reachable set of followers can be drained. */
module FollowerProgress {
  import opened Followers

  predicate OthersStay(s: State, t: State, id: FollowerId) {
    && (forall x :: x in s.at && x != id ==> x in t.at && t.at[x] == s.at[x])
    && (forall x :: x in t.at && x != id ==> x in s.at)
  }

  /** A follower resolves its basis, and runs each cycle, with one client leased for as long as that takes; a
      lease that it does not get ends its read. */
  lemma LeaseEffect(s: State, id: FollowerId)
    requires Inv(s) && id in s.at
    ensures s.at[id].Admitted? ==>
              && (var t := Step(s, AcquireBasis(id, true)); t.leases == s.leases + multiset{id} && Stands(t, id, InBasis) && OthersStay(s, t, id) && t.reg == s.reg)
              && (var u := Step(s, AcquireBasis(id, false)); u.leases == s.leases && Stands(u, id, Over) && OthersStay(s, u, id) && u.reg == s.reg)
    ensures s.at[id].Between? ==>
              && (var t := Step(s, AcquireCycle(id, true)); t.leases == s.leases + multiset{id} && Stands(t, id, InCycle) && OthersStay(s, t, id) && t.reg == s.reg)
              && (var u := Step(s, AcquireCycle(id, false)); u.leases == s.leases && Stands(u, id, Over) && OthersStay(s, u, id) && u.reg == s.reg)
    ensures s.at[id].InBasis? ==>
              var t := Step(s, ReleaseBasis(id)); s.leases[id] == 1 && t.leases[id] == 0 && Stands(t, id, Between) && OthersStay(s, t, id) && t.reg == s.reg
    ensures s.at[id].InCycle? ==>
              var t := Step(s, ReleaseCycle(id)); s.leases[id] == 1 && t.leases[id] == 0 && Stands(t, id, Between) && OthersStay(s, t, id) && t.reg == s.reg
  {
    hide Regular;
  }

  /** Returning cancels the follower's context; then it leaves the registry, and the last to leave a closed one
      closes the channel. */
  lemma LeaveEffect(s: State, id: FollowerId)
    requires Inv(s) && Stands(s, id, Over)
    ensures var t := Step(s, Return(id));
            var u := Step(t, Remove(id));
            && t.reg.cancelled == s.reg.cancelled + {id} && t.reg.active == s.reg.active
            && u.reg.active == s.reg.active - {id} && id !in u.at && OthersStay(s, u, id) && u.leases == s.leases
            && u.reg.closed == s.reg.closed
            && (u.reg.signals == 1 <==> s.reg.closed && s.reg.active == {id})
  {
    hide Counted;
    StepKeeps(s, Return(id));
    StepKeeps(Step(s, Return(id)), Remove(id));
    assert s.reg.active - {id} == {} <==> s.reg.active == {id};
  }

  // ------------------------------------------------------------------ draining

  lemma RunConcat(s: State, a: seq<Op>, b: seq<Op>)
    ensures Run(s, a + b) == Run(Run(s, a), b)
    decreases |a|
  {
    if a == [] { assert a + b == b; }
    else {
      assert (a + b)[0] == a[0] && (a + b)[1..] == a[1..] + b;
      RunConcat(Step(s, a[0]), a[1..], b);
    }
  }

  lemma RunTwo(s: State, a: Op, b: Op)
    ensures Run(s, [a, b]) == Step(Step(s, a), b)
  {
    hide Step;
    assert Run(Step(s, a), [b]) == Step(Step(s, a), b);
  }

  /** A follower that is inside a command returns its lease. */
  lemma CommandEnds(s: State, id: FollowerId) returns (op: Op)
    requires Inv(s) && id in s.at && Leasing(s.at[id])
    ensures Inv(Step(s, op)) && Stands(Step(s, op), id, Between) && Step(s, op).reg == s.reg
  {
    hide Inv;
    op := if s.at[id].InBasis? then ReleaseBasis(id) else ReleaseCycle(id);
    ReleaseKeeps(s, op);
  }

  lemma OutsideStops(s: State, id: FollowerId) returns (op: Op)
    requires Inv(s) && id in s.at && (s.at[id].Admitted? || s.at[id].Between?)
    ensures Inv(Step(s, op)) && Stands(Step(s, op), id, Over) && Step(s, op).reg == s.reg
  {
    hide Inv;
    if s.at[id].Admitted? {
      op := AcquireBasis(id, false);
      AcquireKeeps(s, op);
    } else {
      op := Stop(id);
      EndKeeps(s, op);
    }
  }

  /** A follower that is not already leaving stops reading, from any point of its program. */
  lemma FollowerStops(s: State, id: FollowerId) returns (ops: seq<Op>)
    requires Inv(s) && id in s.at && !s.at[id].Returned?
    ensures var t := Run(s, ops); Inv(t) && Stands(t, id, Over) && t.reg == s.reg
  {
    hide Inv, Step;
    if s.at[id].Over? { return []; }
    if Leasing(s.at[id]) {
      var a := CommandEnds(s, id);
      var b := OutsideStops(Step(s, a), id);
      RunTwo(s, a, b);
      return [a, b];
    }
    var a := OutsideStops(s, id);
    ops := [a];
    assert Run(s, ops) == Step(s, a);
  }

  lemma FollowerLeaves(s: State, id: FollowerId) returns (ops: seq<Op>)
    requires Inv(s) && id in s.reg.active
    ensures var t := Run(s, ops); Inv(t) && t.reg.active == s.reg.active - {id} && t.reg.closed == s.reg.closed
  {
    hide Regular, Counted;
    var first: seq<Op> := [];
    if !s.at[id].Returned? {
      var stop := FollowerStops(s, id);
      var u := Run(s, stop);
      StepKeeps(u, Return(id));
      RunConcat(s, stop, [Return(id)]);
      assert Run(u, [Return(id)]) == Step(u, Return(id));
      first := stop + [Return(id)];
    }
    var t := Run(s, first);
    StepKeeps(t, Remove(id));
    RunConcat(s, first, [Remove(id)]);
    assert Run(t, [Remove(id)]) == Step(t, Remove(id));
    ops := first + [Remove(id)];
  }

  lemma {:induction false} AllLeave(s: State) returns (ops: seq<Op>)
    requires Inv(s) && s.reg.closed
    ensures var t := Run(s, ops); Inv(t) && t.reg.closed && t.reg.active == {}
    decreases |s.reg.active|
  {
    hide Inv, Step;
    if s.reg.active == {} { return []; }
    var id :| id in s.reg.active;
    var first := FollowerLeaves(s, id);
    assert |s.reg.active - {id}| < |s.reg.active|;
    var rest := AllLeave(Run(s, first));
    RunConcat(s, first, rest);
    ops := first + rest;
  }

  /** From every reachable state, whatever its followers are doing: closing the registry and letting them run
      empties it, returns every lease and closes the channel once. */
  lemma EveryRegistryDrains(limit: nat, ops: seq<Op>) returns (more: seq<Op>)
    ensures var t := Run(Run(Initial(limit), ops), more);
            t.reg.closed && t.reg.active == {} && t.at == map[] && t.leases == multiset{} && t.reg.signals == 1
  {
    var s := Run(Initial(limit), ops);
    RunKeeps(Initial(limit), ops);
    StepKeeps(s, BeginClose);
    var c := Step(s, BeginClose);
    assert c.reg.closed;
    var rest := AllLeave(c);
    RunConcat(s, [BeginClose], rest);
    assert Run(s, [BeginClose]) == c;
    more := [BeginClose] + rest;
    NoneLeft(Run(s, more));
  }

  lemma NoneLeft(s: State)
    requires Inv(s) && s.reg.closed && s.reg.active == {}
    ensures s.at == map[] && s.leases == multiset{} && s.reg.signals == 1
  {
    assert forall id :: s.leases[id] == 0;
  }
}
