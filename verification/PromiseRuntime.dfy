/** The library as it runs: fields assigned in place, adoption followed by a loop, deferred lists drained one by one. */
module PromiseRuntime {
  import opened Wrappers
  import opened PromiseModel
  import opened PromiseProofs
  import opened PromiseRuns

  /** What `o` does with one deferred, at the end of the chain from `e`. */
  ghost function Handled(w: World, e: Id, d: Deferred): World
    requires Chained(w) && e < |w.cells| && d.id < |w.place|
    requires w.cells[Root(w, e)].state == PENDING ==> w.cells[Root(w, e)].deferreds.Some?
  {
    var z := Root(w, e);
    var c := w.cells[z];
    if c.state == PENDING then
      w.(cells := w.cells[z := c.(deferreds := Some(c.deferreds.value + [d]))],
         place := w.place[d.id := Waiting(z, |c.deferreds.value|)])
    else
      w.(cells := w.cells[z := c.(handled := true)], schedule := w.schedule + [React(d, z)],
         place := w.place[d.id := Scheduled(|w.schedule|)])
  }

  /** The places after the first `n` deferreds waiting at `e` have gone to the end `z` of its chain. */
  function Moved(place: seq<Place>, e: Id, n: nat, z: Id, pending: bool, base: nat): seq<Place> {
    seq(|place|, i requires 0 <= i < |place| =>
      if place[i].Waiting? && place[i].p == e && place[i].k < n then
        (if pending then Waiting(z, base + place[i].k) else Scheduled(base + place[i].k))
      else place[i])
  }

  /** World `w` after the first `n` deferreds `ds` of `e` have been handled. */
  ghost function Delivered(w: World, e: Id, z: Id, ds: seq<Deferred>, n: nat): World
    requires z < |w.cells| && n <= |ds|
    requires w.cells[z].state == PENDING ==> w.cells[z].deferreds.Some?
  {
    var c := w.cells[z];
    if c.state == PENDING then
      w.(cells := w.cells[z := c.(deferreds := Some(c.deferreds.value + ds[..n]))],
         place := Moved(w.place, e, n, z, true, |c.deferreds.value|))
    else
      w.(cells := w.cells[z := c.(handled := c.handled || n > 0)], schedule := w.schedule + Reactions(ds[..n], z),
         place := Moved(w.place, e, n, z, false, |w.schedule|))
  }

  /** `w` is about to drain the list `ds` of `e`, which follows `z`. */
  ghost predicate Draining(w: World, e: Id, z: Id, ds: seq<Deferred>) {
    && Chained(w) && e < |w.cells| && Root(w, e) == z
    && (w.cells[z].state == PENDING ==> w.cells[z].deferreds.Some? && z != e)
    && w.cells[e].deferreds == Some(ds)
    && (forall k :: 0 <= k < |ds| ==> ds[k].id < |w.place| && w.place[ds[k].id] == Waiting(e, k))
    && (forall i :: 0 <= i < |w.place| && w.place[i].Waiting? && w.place[i].p == e ==>
          w.place[i].k < |ds| && ds[w.place[i].k].id == i)
  }

  lemma DeliverNone(w: World, e: Id, z: Id, ds: seq<Deferred>)
    requires Draining(w, e, z, ds)
    ensures Delivered(w, e, z, ds, 0) == w
  {
    assert ds[..0] == [];
    if w.cells[z].state == PENDING {
      assert w.cells[z].deferreds.value + [] == w.cells[z].deferreds.value;
      assert Moved(w.place, e, 0, z, true, |w.cells[z].deferreds.value|) == w.place;
    } else {
      assert Reactions([], z) == [] && w.schedule + [] == w.schedule;
      assert Moved(w.place, e, 0, z, false, |w.schedule|) == w.place;
    }
  }

  lemma DeliverChained(w: World, e: Id, z: Id, ds: seq<Deferred>, n: nat)
    requires Draining(w, e, z, ds) && n <= |ds|
    ensures var w1 := Delivered(w, e, z, ds, n); Chained(w1) && Root(w1, e) == z && w1.cells[z].state == w.cells[z].state
  {
    var w1 := Delivered(w, e, z, ds, n);
    forall q | 0 <= q < |w1.cells| ensures LinkOk(w1, q) { assert LinkOk(w, q); }
    RootSame(w, w1, e);
  }

  lemma DeliverStep(w: World, e: Id, z: Id, ds: seq<Deferred>, n: nat)
    requires Draining(w, e, z, ds) && n < |ds|
    ensures var w1 := Delivered(w, e, z, ds, n);
      Chained(w1) && Root(w1, e) == z && (w1.cells[z].state == PENDING ==> w1.cells[z].deferreds.Some?)
    ensures Handled(Delivered(w, e, z, ds, n), e, ds[n]) == Delivered(w, e, z, ds, n + 1)
  {
    DeliverChained(w, e, z, ds, n);
    assert ds[..n + 1] == ds[..n] + [ds[n]];
    var c := w.cells[z];
    if c.state == PENDING {
      var base := |c.deferreds.value|;
      assert c.deferreds.value + ds[..n + 1] == c.deferreds.value + ds[..n] + [ds[n]];
      assert Moved(w.place, e, n, z, true, base)[ds[n].id := Waiting(z, base + n)] == Moved(w.place, e, n + 1, z, true, base);
    } else {
      var base := |w.schedule|;
      assert w.schedule + Reactions(ds[..n + 1], z) == w.schedule + Reactions(ds[..n], z) + [React(ds[n], z)];
      assert Moved(w.place, e, n, z, false, base)[ds[n].id := Scheduled(base + n)] == Moved(w.place, e, n + 1, z, false, base);
    }
  }

  /** `w0` once promise `e` has its new state and value, but still its list. */
  function Assigned(w0: World, e: Id, state: nat, v: Value, depth: seq<nat>): World
    requires e < |w0.cells|
  {
    w0.(cells := w0.cells[e := w0.cells[e].(state := state, value := v)], depth := depth)
  }

  lemma WaitingList(w0: World, e: Id, ds: seq<Deferred>)
    requires Inv(w0, Some(e)) && w0.cells[e].deferreds == Some(ds)
    ensures forall k :: 0 <= k < |ds| ==> ds[k].id < |w0.place| && w0.place[ds[k].id] == Waiting(e, k)
    ensures forall i :: 0 <= i < |w0.place| && w0.place[i].Waiting? && w0.place[i].p == e ==>
      w0.place[i].k < |ds| && ds[w0.place[i].k].id == i
  {
    forall k | 0 <= k < |ds| ensures ds[k].id < |w0.place| && w0.place[ds[k].id] == Waiting(e, k) {
      assert Known(w0, w0.cells[e].deferreds.value[k], Waiting(e, k));
    }
    forall i | 0 <= i < |w0.place| && w0.place[i].Waiting? && w0.place[i].p == e
      ensures w0.place[i].k < |ds| && ds[w0.place[i].k].id == i
    {
      assert DeferredOk(w0, i);
    }
  }

  lemma SettleDrains(w0: World, e: Id, state: nat, v: Value, ds: seq<Deferred>)
    requires Inv(w0, Some(e)) && SettlesWith(state, v) && w0.cells[e].deferreds == Some(ds)
    ensures Draining(Assigned(w0, e, state, v, w0.depth), e, e, ds)
  {
    var w := Assigned(w0, e, state, v, w0.depth);
    forall q | 0 <= q < |w.cells| ensures LinkOk(w, q) { assert LinkOk(w0, q); }
    WaitingList(w0, e, ds);
  }

  /** The list `ds` of `e` is where its places say. */
  ghost predicate ListOf(places: seq<Place>, e: Id, ds: seq<Deferred>) {
    && (forall k :: 0 <= k < |ds| ==> ds[k].id < |places| && places[ds[k].id] == Waiting(e, k))
    && (forall i :: 0 <= i < |places| && places[i].Waiting? && places[i].p == e ==> places[i].k < |ds| && ds[places[i].k].id == i)
  }

  lemma AllMoved(places: seq<Place>, e: Id, ds: seq<Deferred>, base: nat)
    requires ListOf(places, e, ds)
    ensures Moved(places, e, |ds|, e, false, base) == Requeued(places, e, base)
  {
  }

  lemma SettleReached(w0: World, e: Id, state: nat, v: Value, ds: seq<Deferred>)
    requires Inv(w0, Some(e)) && SettlesWith(state, v) && w0.cells[e].deferreds == Some(ds)
    ensures var check := if state == REJECTED && ds == [] then [CheckHandled(e)] else [];
      var w := Assigned(w0, e, state, v, w0.depth);
      var d := Delivered(w.(schedule := w.schedule + check), e, e, ds, |ds|);
      d.(cells := d.cells[e := d.cells[e].(deferreds := None)]) == Settle(w0, e, state, v)
  {
    WaitingList(w0, e, ds);
    SettledSame(w0, e, state, v, ds);
  }

  lemma SettledSame(w0: World, e: Id, state: nat, v: Value, ds: seq<Deferred>)
    requires e < |w0.cells| && (state == FULFILLED || state == REJECTED) && w0.cells[e].deferreds == Some(ds) && ListOf(w0.place, e, ds)
    ensures var check := if state == REJECTED && ds == [] then [CheckHandled(e)] else [];
      var w := Assigned(w0, e, state, v, w0.depth);
      var d := Delivered(w.(schedule := w.schedule + check), e, e, ds, |ds|);
      d.(cells := d.cells[e := d.cells[e].(deferreds := None)]) == Settle(w0, e, state, v)
  {
    assert ds[..|ds|] == ds;
    var check := if state == REJECTED && ds == [] then [CheckHandled(e)] else [];
    AllMoved(w0.place, e, ds, |w0.schedule| + |check|);
  }

  lemma AdoptDrains(w0: World, e: Id, q: Id, ds: seq<Deferred>)
    requires Inv(w0, Some(e)) && q < |w0.cells| && Root(w0, q) != e && w0.cells[e].deferreds == Some(ds)
    ensures Draining(Assigned(w0, e, ADOPTED, Ref(q), Adopt(w0, e, q).depth), e, Root(w0, q), ds)
  {
    var goal := Adopt(w0, e, q);
    var w := Assigned(w0, e, ADOPTED, Ref(q), goal.depth);
    AdoptShape(w0, e, q);
    forall x | 0 <= x < |w.cells| ensures LinkOk(w, x) { assert LinkOk(goal, x); }
    AdoptRoot(w0, e, q, e);
    RootSame(w, goal, e);
    assert CellOk(w0, Root(w0, q));
    WaitingList(w0, e, ds);
  }

  lemma AdoptReached(w0: World, e: Id, q: Id, ds: seq<Deferred>)
    requires Inv(w0, Some(e)) && q < |w0.cells| && Root(w0, q) != e && w0.cells[e].deferreds == Some(ds)
    requires w0.cells[Root(w0, q)].state == PENDING ==> w0.cells[Root(w0, q)].deferreds.Some?
    ensures var w := Assigned(w0, e, ADOPTED, Ref(q), Adopt(w0, e, q).depth);
      var d := Delivered(w, e, Root(w0, q), ds, |ds|);
      d.(cells := d.cells[e := d.cells[e].(deferreds := None)]) == Adopt(w0, e, q)
  {
    WaitingList(w0, e, ds);
    assert ds[..|ds|] == ds;
    var z := Root(w0, q);
    var w := Assigned(w0, e, ADOPTED, Ref(q), Adopt(w0, e, q).depth);
    var d := Delivered(w, e, z, ds, |ds|);
    assert d.cells[e := d.cells[e].(deferreds := None)] == Adopt(w0, e, q).cells;
    if w0.cells[z].state == PENDING {
      var base := |w0.cells[z].deferreds.value|;
      assert Moved(w0.place, e, |ds|, z, true, base) == Rehomed(w0.place, e, z, base);
    } else {
      assert Moved(w0.place, e, |ds|, z, false, |w0.schedule|) == Requeued(w0.place, e, |w0.schedule|);
    }
  }

  lemma AdoptReady(w0: World, e: Id, q: Id) returns (ds: seq<Deferred>)
    requires Inv(w0, Some(e)) && q < |w0.cells| && Root(w0, q) != e
    ensures w0.cells[e].deferreds == Some(ds) && (w0.cells[Root(w0, q)].state == PENDING ==> w0.cells[Root(w0, q)].deferreds.Some?)
    ensures var w := Assigned(w0, e, ADOPTED, Ref(q), Adopt(w0, e, q).depth);
      var d := Delivered(w, e, Root(w0, q), ds, |ds|);
      Draining(w, e, Root(w0, q), ds) && d.(cells := d.cells[e := d.cells[e].(deferreds := None)]) == Adopt(w0, e, q)
  {
    assert CellOk(w0, e) && CellOk(w0, Root(w0, q));
    ds := w0.cells[e].deferreds.value;
    AdoptDrains(w0, e, q, ds);
    AdoptReached(w0, e, q, ds);
  }

  /** `w0` once `then` has made its promise and its deferred. */
  function Prepared(w0: World, d: Deferred): World
    requires d.derived < |w0.owner| + 1
  {
    w0.(cells := w0.cells + [FRESH_CELL], depth := w0.depth + [0], created := w0.created + [d],
        place := w0.place + [Scheduled(0)], owner := (w0.owner + [ByResolver(0)])[d.derived := ByDeferred(d.id)])
  }

  lemma ThenReached(w0: World, o: Id, d: Deferred)
    requires Inv(w0, None) && o < |w0.cells| && d.derived == |w0.cells| && d.id == |w0.created| && d.origin == o
    ensures var w := Prepared(w0, d);
      Chained(w) && (w.cells[Root(w, o)].state == PENDING ==> w.cells[Root(w, o)].deferreds.Some?)
    ensures Handled(Prepared(w0, d), o, d) == Do(w0, Action.Then(o, d.onFulfilled, d.onRejected))
  {
    var w, w1 := Prepared(w0, d), Alloc(w0);
    AllocInv(w0);
    forall q | 0 <= q < |w.cells| ensures LinkOk(w, q) { assert LinkOk(w1, q); }
    RootSame(w1, w, o);
    assert CellOk(w1, Root(w1, o));
    assert forall x :: (w0.place + [Scheduled(0)])[d.id := x] == w0.place + [x];
  }

  /** A callback and what it is called with */
  datatype Call = Call(callback: int, argument: Value)

  /** The call that a reaction `d` to a promise makes: `onFulfilled` with the value if it is fulfilled, `onRejected` with the
      reason if it is rejected, no call if that is no function. */
  predicate CallFor(d: Deferred, cell: Cell, call: Option<Call>) {
    && (cell.state == FULFILLED || cell.state == REJECTED)
    && (cell.state == FULFILLED ==> if d.onFulfilled.Some? then call == Some(Call(d.onFulfilled.value, cell.value)) else call == None)
    && (cell.state == REJECTED ==> if d.onRejected.Some? then call == Some(Call(d.onRejected.value, cell.value)) else call == None)
  }

  class Runtime {
    var cells: seq<Cell>
    var schedule: seq<Job>
    var next: nat
    var running: bool
    var resolvers: seq<Resolver>
    var reported: seq<Id>
    /** A log of the calls of `then`, which numbers them. */
    var created: seq<Deferred>
    ghost var place: seq<Place>
    ghost var owner: seq<Owner>
    ghost var depth: seq<nat>

    ghost function W(): World
      reads this
    {
      World(cells, schedule, next, running, resolvers, created, reported, place, owner, depth)
    }

    constructor ()
      ensures W() == EmptyWorld() && Inv(W(), None)
    {
      cells, schedule, next, running, resolvers, reported, created := [], [], 0, false, [], [], [];
      place, owner, depth := [], [], [];
    }

    /** `o` */
    method Handle(e0: Id, d: Deferred)
      requires Chained(W()) && e0 < |cells| && d.id < |place|
      requires cells[Root(W(), e0)].state == PENDING ==> cells[Root(W(), e0)].deferreds.Some?
      modifies this`cells, this`schedule, this`place
      ensures W() == Handled(old(W()), e0, d)
    {
      var e: Id := e0;
      assert LinkOk(W(), e);
      while cells[e].state == ADOPTED
        invariant e < |cells| && Root(W(), e) == Root(W(), e0) && LinkOk(W(), e)
        decreases depth[e]
      {
        assert LinkOk(W(), cells[e].value.id);
        e := cells[e].value.id;
      }
      if cells[e].state != PENDING {
        cells := cells[e := cells[e].(handled := true)];
        place := place[d.id := Scheduled(|schedule|)];
        schedule := schedule + [React(d, e)];
      } else {
        place := place[d.id := Waiting(e, |cells[e].deferreds.value|)];
        cells := cells[e := cells[e].(deferreds := Some(cells[e].deferreds.value + [d]))];
      }
    }

    /** `f`: what waited at `e` goes to the end `z` of its chain, one deferred after the other, and its list is dropped. */
    method Finale(e: Id, ghost z: Id, ghost ds: seq<Deferred>)
      requires Draining(W(), e, z, ds)
      modifies this`cells, this`schedule, this`place
      ensures var check := if old(cells[e].state) == REJECTED && ds == [] then [CheckHandled(e)] else [];
        var w := Delivered(old(W()).(schedule := old(schedule) + check), e, z, ds, |ds|);
        W() == w.(cells := w.cells[e := w.cells[e].(deferreds := None)])
    {
      if cells[e].state == REJECTED && |cells[e].deferreds.value| == 0 {
        schedule := schedule + [CheckHandled(e)];
      }
      ghost var w := W();
      ChecksChained(old(W()), w, e, z, ds);
      DeliverNone(w, e, z, ds);
      var list, n := cells[e].deferreds.value, 0;
      while n < |list|
        invariant n <= |list| && W() == Delivered(w, e, z, ds, n)
      {
        DeliverStep(w, e, z, ds, n);
        Handle(e, list[n]);
        n := n + 1;
      }
      cells := cells[e := cells[e].(deferreds := None)];
    }

    method Assign(e: Id, state: nat, v: Value)
      requires Inv(W(), Some(e)) && SettlesWith(state, v)
      modifies this`cells, this`schedule, this`place
      ensures old(cells[e].deferreds.Some?) && W() == Settle(old(W()), e, state, v)
    {
      ghost var w0 := W();
      assert CellOk(w0, e);
      ghost var ds := cells[e].deferreds.value;
      cells := cells[e := cells[e].(state := state, value := v)];
      SettleDrains(w0, e, state, v, ds);
      SettleReached(w0, e, state, v, ds);
      Finale(e, e, ds);
    }

    /** The branch of `r` for another promise */
    method Follow(e: Id, q: Id)
      requires Inv(W(), Some(e)) && q < |cells| && Root(W(), q) != e
      modifies this
      ensures old(cells[e].deferreds.Some?) && W() == Adopt(old(W()), e, q)
    {
      ghost var w0 := W();
      ghost var ds := AdoptReady(w0, e, q);
      depth := Adopt(w0, e, q).depth;
      cells := cells[e := cells[e].(state := ADOPTED, value := Ref(q))];
      assert W() == Assigned(w0, e, ADOPTED, Ref(q), Adopt(w0, e, q).depth);
      Finale(e, Root(w0, q), ds);
    }

    /** `r` */
    method Resolve(e: Id, v: Value)
      requires Inv(W(), Some(e)) && Acyclic(W(), e, v)
      modifies this
      ensures W() == PromiseModel.Resolve(old(W()), e, v)
    {
      ghost var w0 := W();
      assert CellOk(w0, e);
      match v {
        case Ref(q) =>
          if q == e {
            Assign(e, REJECTED, SelfResolution);
          } else {
            Follow(e, q);
          }
        case Thenable(_) =>
          owner := owner[e := ByResolver(|resolvers|)];
          resolvers := resolvers + [Resolver(e, false)];
        case Poisoned(error) => Assign(e, REJECTED, Data(error));
        case _ => Assign(e, FULFILLED, v);
      }
    }

    /** `i` */
    method Reject(e: Id, v: Value)
      requires Inv(W(), Some(e))
      modifies this
      ensures W() == PromiseModel.Reject(old(W()), e, v)
    {
      Assign(e, REJECTED, v);
    }

    /** The constructor of a promise; the program is handed its resolving functions, number `t`. */
    method New() returns (p: Id, t: nat)
      requires Inv(W(), None)
      modifies this
      ensures W() == Do(old(W()), Action.New) && Inv(W(), None) && p == |old(cells)| && t == |old(resolvers)|
    {
      DoInv(W(), Action.New);
      p, t := |cells|, |resolvers|;
      cells, depth := cells + [FRESH_CELL], depth + [0];
      owner := owner + [ByResolver(t)];
      resolvers := resolvers + [Resolver(p, false)];
      assert owner == (old(owner) + [ByResolver(0)])[p := ByResolver(t)];
    }

    /** `then` */
    method Then(o: Id, onFulfilled: Option<int>, onRejected: Option<int>) returns (p: Id)
      requires Inv(W(), None) && o < |cells|
      modifies this
      ensures W() == Do(old(W()), Action.Then(o, onFulfilled, onRejected)) && Inv(W(), None) && p == |old(cells)|
    {
      ghost var w0 := W();
      DoInv(w0, Action.Then(o, onFulfilled, onRejected));
      p := |cells|;
      var d := Deferred(|created|, o, p, onFulfilled, onRejected);
      ThenReached(w0, o, d);
      cells, depth, created := cells + [FRESH_CELL], depth + [0], created + [d];
      place, owner := place + [Scheduled(0)], (owner + [ByResolver(0)])[p := ByDeferred(d.id)];
      Handle(o, d);
    }

    method ResolveCall(t: nat, v: Value)
      requires Inv(W(), None) && Enabled(W(), Action.ResolveCall(t, v))
      modifies this
      ensures W() == Do(old(W()), Action.ResolveCall(t, v)) && Inv(W(), None)
    {
      DoInv(W(), Action.ResolveCall(t, v));
      if !resolvers[t].used {
        UseResolverInv(W(), t);
        RootsSame(W(), UseResolver(W(), t));
        resolvers := resolvers[t := resolvers[t].(used := true)];
        Resolve(resolvers[t].target, v);
      }
    }

    method RejectCall(t: nat, v: Value)
      requires Inv(W(), None) && Enabled(W(), Action.RejectCall(t, v))
      modifies this
      ensures W() == Do(old(W()), Action.RejectCall(t, v)) && Inv(W(), None)
    {
      DoInv(W(), Action.RejectCall(t, v));
      if !resolvers[t].used {
        UseResolverInv(W(), t);
        resolvers := resolvers[t := resolvers[t].(used := true)];
        Reject(resolvers[t].target, v);
      }
    }

    /** The reaction next in the queue, up to the start of its callback, if it has one */
    method StartReaction(d: Deferred, on: Id) returns (call: Option<Call>)
      requires Inv(W(), None) && !running && next < |schedule| && schedule[next] == React(d, on) && on < |cells|
      modifies this
      ensures W() == StartJob(old(W())) && CallFor(d, old(cells[on]), call)
    {
      ReactionOwns(W(), next);
      AdvanceInv(W());
      next := next + 1;
      var callback := if cells[on].state == FULFILLED then d.onFulfilled else d.onRejected;
      if callback.Some? {
        running := true;
        call := Some(Call(callback.value, cells[on].value));
      } else {
        PassOnTo(d, on);
        call := None;
      }
    }

    /** The host's next job, up to the start of its callback, if it has one. */
    method NextJob() returns (call: Option<Call>)
      requires Inv(W(), None) && Enabled(W(), Action.NextJob)
      modifies this
      ensures W() == Do(old(W()), Action.NextJob) && Inv(W(), None)
      ensures match old(schedule[next])
        case CheckHandled(_) => call == None
        case React(d, on) => on < |old(cells)| && CallFor(d, old(cells)[on], call)
    {
      StartJobInv(W());
      match schedule[next] {
        case CheckHandled(p) =>
          call := None;
          next := next + 1;
          if !cells[p].handled { reported := reported + [p]; }
        case React(d, on) => call := StartReaction(d, on);
      }
    }

    /** The rest of a reaction without a callback */
    method PassOnTo(d: Deferred, on: Id)
      requires Inv(W(), Some(d.derived)) && on < |cells| && Settled(W(), on)
      modifies this
      ensures W() == PassOn(old(W()), d, on) && running == old(running)
    {
      assert CellOk(W(), on);
      if cells[on].state == FULFILLED { Resolve(d.derived, cells[on].value); } else { Reject(d.derived, cells[on].value); }
    }

    /** The callback started last returns or throws. */
    method EndJob(outcome: Outcome)
      requires Inv(W(), None) && Enabled(W(), Action.EndJob(outcome))
      modifies this
      ensures W() == Do(old(W()), Action.EndJob(outcome)) && Inv(W(), None)
    {
      DoInv(W(), Action.EndJob(outcome));
      ReturnInv(W());
      RootsSame(W(), Return(W()));
      var p := schedule[next - 1].d.derived;
      running := false;
      match outcome {
        case Returned(v) => Resolve(p, v);
        case Thrown(v) => Reject(p, v);
      }
    }
  }

  lemma ChecksChained(w: World, w': World, e: Id, z: Id, ds: seq<Deferred>)
    requires Draining(w, e, z, ds) && w' == w.(schedule := w'.schedule)
    ensures Draining(w', e, z, ds)
  {
    forall q | 0 <= q < |w'.cells| ensures LinkOk(w', q) { assert LinkOk(w, q); }
    RootSame(w, w', e);
  }
}
