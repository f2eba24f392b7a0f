/** The generation manager as it runs: fields updated under the mutex, closers started outside it. */
module ClientManager {
  import opened Generations

  lemma CurrentKnown(s: State)
    requires Inv(s)
    ensures s.closed <==> s.current.None?
    ensures s.current.Some? ==> s.current.value in s.gens
  {
  }

  lemma OwnedKnown(s: State, g: GenId)
    requires Inv(s) && g in s.gens
    ensures Lifecycle(s, s.gens[g]) && s.gens[g].durability != s.gens[g].follow
    ensures Serves(s, s.gens[g].follow, Follow(g))
    ensures g in s.all <==> !s.gens[g].closer.Finished?
  {
    assert Serves(s, s.gens[g].durability, Durability(g)) && Serves(s, s.gens[g].follow, Follow(g));
  }

  lemma UnretiredCurrent(s: State)
    requires Inv(s) && s.current.Some?
    ensures s.gens[s.current.value].durability !in s.fired
  {
    assert Lifecycle(s, s.gens[s.current.value]);
  }

  lemma AllKnown(s: State)
    requires Inv(s)
    ensures forall g :: g in s.all ==> g in s.gens && Serves(s, s.gens[g].follow, Follow(g))
  {
  }

  class Manager {
    var gens: map<GenId, Generation>
    var current: Option<GenId>
    var closed: bool
    var all: set<GenId>
    var fired: set<Client>
    var forcing: set<Client>
    var signals: nat
    var next: GenId

    /** Goroutines, their effects and the leases that callers hold. */
    ghost var closers: multiset<Client>
    ghost var closes: multiset<Client>
    ghost var leases: map<LeaseId, GenId>
    ghost var roles: map<Client, Role>

    ghost function View(): State
      reads this
    {
      State(gens, current, closed, all, fired, closers, closes, forcing, leases, signals, roles)
    }

    ghost predicate Valid()
      reads this
    {
      Inv(View()) && forall g :: g in gens ==> g < next
    }

    constructor (durability: Client, follow: Client)
      requires durability != follow
      ensures Valid() && View() == Initial(durability, follow)
    {
      gens, current, closed, all := map[0 := Fresh(durability, follow)], Some(0), false, {0};
      fired, forcing, signals, next := {}, {}, 0, 1;
      closers, closes, leases := multiset{}, multiset{}, map[];
      roles := map[durability := Durability(0)][follow := Follow(0)];
      new;
      InitialInv(durability, follow);
    }

    /** Lease the current generation; a closed manager leases nothing. */
    method Acquire(follow: bool, ghost lease: LeaseId) returns (client: Option<Client>)
      requires Valid() && lease !in leases
      modifies this
      ensures Valid() && View() == Step(old(View()), Generations.Acquire(lease))
      ensures client.None? <==> old(closed)
      ensures client.Some? ==>
                && lease in leases && leases[lease] in gens
                && client.value == if follow then gens[leases[lease]].follow else gens[leases[lease]].durability
      ensures client.Some? && !follow ==> client.value !in fired
    {
      hide Inv;
      CurrentKnown(View());
      StepKeeps(View(), Generations.Acquire(lease));
      if closed || current.None? { return None; }
      var g := current.value;
      OwnedKnown(View(), g);
      UnretiredCurrent(View());
      gens := gens[g := gens[g].(refs := gens[g].refs + 1)];
      leases := leases[lease := g];
      return Some(if follow then gens[g].follow else gens[g].durability);
    }

    /** The locked part of a release. The caller starts the close that it claims. */
    method Release(g: GenId, ghost lease: LeaseId) returns (claimed: bool)
      requires Valid() && lease in leases && leases[lease] == g
      modifies this
      ensures Valid() && View() == Step(old(View()), Generations.Release(lease))
      ensures g in gens && (claimed <==> gens[g].closer.Claimed?)
      ensures claimed <==> gens[g].retired && LeasesOf(leases, g) == {}
    {
      hide LeasesOf;
      ghost var s := View();
      LeaseHeld(leases, lease);
      StepKeeps(s, Generations.Release(lease));
      assert Lifecycle(s, gens[g]);
      var gen := gens[g];
      if gen.refs > 0 { gen := gen.(refs := gen.refs - 1); }
      var after := Claim(gen, false);
      gens := gens[g := after];
      leases := leases - {lease};
      assert View() == Step(s, Generations.Release(lease));
      return after.closer.Claimed?;
    }

    /** Publish a new generation and retire the current one. */
    method SwapPair(durability: Client, follow: Client) returns (ok: bool)
      requires Valid() && durability != follow && durability !in roles && follow !in roles
      modifies this
      ensures Valid() && View() == Step(old(View()), Swap(old(next), durability, follow))
      ensures ok <==> !old(closed)
      ensures ok ==> current == Some(old(next)) && gens[old(next)] == Fresh(durability, follow)
    {
      hide Inv;
      CurrentKnown(View());
      StepKeeps(View(), Swap(next, durability, follow));
      if closed { return false; }
      var prior := current.value;
      gens := gens[prior := Claim(gens[prior], true)][next := Fresh(durability, follow)];
      current := Some(next);
      all := all + {next};
      roles := roles[durability := Durability(next)][follow := Follow(next)];
      next := next + 1;
      return true;
    }

    method BeginClose()
      requires Valid()
      modifies this
      ensures Valid() && closed && View() == Step(old(View()), Generations.BeginClose)
    {
      hide Inv;
      CurrentKnown(View());
      StepKeeps(View(), Generations.BeginClose);
      if closed { return; }
      closed := true;
      if current.Some? {
        gens := gens[current.value := Claim(gens[current.value], true)];
        current := None;
      }
      if all == {} { signals := signals + 1; }
    }

    /** One managed client: the first call starts the goroutine that closes it. */
    method CloseAsync(c: Client)
      modifies this`fired, this`closers
      ensures fired == if c in old(fired) then old(fired) else old(fired) + {c}
      ensures closers == if c in old(fired) then old(closers) else old(closers) + multiset{c}
    {
      if c !in fired {
        fired := fired + {c};
        closers := closers + multiset{c};
      }
    }

    method CloseFirst(g: GenId)
      requires Valid() && g in gens && gens[g].closer.Claimed?
      modifies this`fired, this`closers, this`gens
      ensures Valid() && View() == Step(old(View()), CloseDurability(g))
    {
      hide Inv;
      StepKeeps(View(), CloseDurability(g));
      CloseAsync(gens[g].durability);
      gens := gens[g := gens[g].(closer := HalfFired)];
    }

    method CloseSecond(g: GenId)
      requires Valid() && g in gens && gens[g].closer.HalfFired?
      modifies this`fired, this`closers, this`gens
      ensures Valid() && View() == Step(old(View()), CloseFollow(g))
    {
      hide Inv;
      StepKeeps(View(), CloseFollow(g));
      CloseAsync(gens[g].follow);
      gens := gens[g := gens[g].(closer := Waiting)];
    }

    /** The two closes that a claimed generation gets, durability first. */
    method StartClose(g: GenId)
      requires Valid() && g in gens && gens[g].closer.Claimed?
      modifies this`fired, this`closers, this`gens
      ensures Valid() && View() == Step(Step(old(View()), CloseDurability(g)), CloseFollow(g))
      ensures g in gens && gens[g].closer.Waiting? && gens[g].durability in fired && gens[g].follow in fired
    {
      hide Inv;
      CloseFirst(g);
      CloseSecond(g);
      OwnedKnown(View(), g);
    }

    /** The waiter of a generation, once both clients report done. */
    method Finish(g: GenId)
      requires Valid() && g in gens && gens[g].closer.Waiting?
      requires ClientDone(View(), gens[g].durability) && ClientDone(View(), gens[g].follow)
      modifies this
      ensures Valid() && View() == Step(old(View()), Finalize(g))
      ensures signals == old(signals) + if closed && all == {} then 1 else 0
    {
      hide Inv;
      StepKeeps(View(), Finalize(g));
      all := all - {g};
      gens := gens[g := gens[g].(closer := Finished)];
      if closed && all == {} { signals := signals + 1; }
    }

    /** Collect the follow half of every generation still owned, under the mutex. */
    method CollectFollow()
      requires Valid()
      modifies this`forcing
      ensures Valid() && View() == Step(old(View()), ForceFollow)
      ensures forall g :: g in all ==> g in gens && gens[g].follow in forcing
    {
      hide Inv;
      AllKnown(View());
      StepKeeps(View(), ForceFollow);
      forcing := forcing + set g | g in all && g in gens :: gens[g].follow;
    }

    method ForceOneClient(c: Client)
      requires Valid() && c in forcing && c in roles && roles[c].Follow?
      modifies this`fired, this`closers, this`forcing
      ensures Valid() && View() == Step(old(View()), ForceOne(c))
      ensures fired == old(fired) + {c} && forcing == old(forcing) - {c}
    {
      hide Inv;
      StepKeeps(View(), ForceOne(c));
      CloseAsync(c);
      forcing := forcing - {c};
    }

    /** Collect, then close one client after another. */
    method ForceCloseFollow(order: seq<GenId>)
      requires Valid() && (set g | g in order) == all
      modifies this`fired, this`closers, this`forcing
      ensures Valid()
      ensures forall g :: g in all ==> g in gens && gens[g].follow in fired
      ensures forall c :: c in fired && c !in old(fired) ==> c in roles && roles[c].Follow?
    {
      hide Inv;
      AllKnown(View());
      CollectFollow();
      assert forall k :: 0 <= k < |order| ==> order[k] in all by {
        forall k | 0 <= k < |order| ensures order[k] in all { assert order[k] in (set g | g in order); }
      }
      for n := 0 to |order|
        invariant Valid()
        invariant forall k :: 0 <= k < n ==> gens[order[k]].follow in fired
        invariant forall k :: n <= k < |order| ==> gens[order[k]].follow in forcing || gens[order[k]].follow in fired
        invariant forall c :: c in fired && c !in old(fired) ==> c in roles && roles[c].Follow?
      {
        var c := gens[order[n]].follow;
        assert Serves(View(), c, Follow(order[n])) by { AllKnown(View()); }
        if c in forcing { ForceOneClient(c); }
      }
      forall g | g in all ensures gens[g].follow in fired { assert g in (set h | h in order); }
    }
  }
}
