/** Every transition of the promise library keeps the invariant, and what is settled stays settled. */
module PromiseProofs {
  import opened Wrappers
  import opened PromiseModel

  /** What no transition ever takes back: settled and adopting promises keep state and value,
      and deferreds and queued jobs are only ever added. */
  ghost predicate Stable(w: World, w': World) {
    && |w.cells| <= |w'.cells|
    && (forall p :: 0 <= p < |w.cells| && w.cells[p].state != PENDING ==>
          w'.cells[p].state == w.cells[p].state && w'.cells[p].value == w.cells[p].value)
    && w.created <= w'.created && w.schedule <= w'.schedule && w.next <= w'.next
  }

  lemma StableTransitive(a: World, b: World, c: World)
    requires Stable(a, b) && Stable(b, c)
    ensures Stable(a, c)
  {
  }

  // ---------- chains ----------

  /** Both worlds adopt alike, as far as the first one goes. */
  ghost predicate SameChains(w: World, w': World) {
    && |w.cells| <= |w'.cells|
    && forall p :: 0 <= p < |w.cells| ==>
         (w.cells[p].state == ADOPTED <==> w'.cells[p].state == ADOPTED)
         && (w.cells[p].state == ADOPTED ==> w'.cells[p].value == w.cells[p].value)
  }

  lemma {:induction false} RootSame(w: World, w': World, p: Id)
    requires Chained(w) && Chained(w') && SameChains(w, w') && p < |w.cells|
    ensures Root(w', p) == Root(w, p)
    decreases w.depth[p]
  {
    assert LinkOk(w, p);
    if w.cells[p].state == ADOPTED { RootSame(w, w', w.cells[p].value.id); }
  }

  lemma RootsSame(w: World, w': World)
    requires Chained(w) && Chained(w') && SameChains(w, w')
    ensures forall p :: 0 <= p < |w.cells| ==> Root(w', p) == Root(w, p)
  {
    forall p | 0 <= p < |w.cells| ensures Root(w', p) == Root(w, p) { RootSame(w, w', p); }
  }

  // ---------- allocation and resolving functions ----------

  lemma AllocInv(w: World)
    requires Inv(w, None)
    ensures Inv(Alloc(w), Some(|w.cells|)) && Stable(w, Alloc(w))
  {
    var w' := Alloc(w);
    forall p | 0 <= p < |w'.cells| ensures LinkOk(w', p) && CellOk(w', p) {
      if p < |w.cells| { assert CellOk(w, p); }
    }
    RootsSame(w, w');
    forall i | 0 <= i < |w'.created| ensures DeferredOk(w', i) { assert DeferredOk(w, i); }
    forall p | 0 <= p < |w'.cells| && w'.cells[p].state == PENDING && p != |w.cells| ensures OwnerOk(w', p) {
      assert OwnerOk(w, p);
    }
    forall p | 0 <= p < |w'.cells| ensures w'.cells[p].handled <==> HasReaction(w', p) {
      if p < |w.cells| { assert HasReaction(w, p) <==> HasReaction(w', p); }
    }
  }

  lemma GiveResolverShape(w: World, p: Id)
    requires WellFormed(w) && Placed(w) && Marked(w) && p < |w.cells|
    ensures WellFormed(GiveResolver(w, p)) && Placed(GiveResolver(w, p)) && Marked(GiveResolver(w, p))
  {
    var w' := GiveResolver(w, p);
    forall q | 0 <= q < |w'.cells| ensures LinkOk(w', q) && CellOk(w', q) { assert CellOk(w, q); }
    RootsSame(w, w');
    forall i | 0 <= i < |w'.created| ensures DeferredOk(w', i) { assert DeferredOk(w, i); }
    forall q | 0 <= q < |w'.cells| ensures w'.cells[q].handled <==> HasReaction(w', q) {
      assert HasReaction(w, q) <==> HasReaction(w', q);
    }
  }

  lemma GiveResolverInv(w: World, p: Id)
    requires Inv(w, Some(p))
    ensures Inv(GiveResolver(w, p), None) && Stable(w, GiveResolver(w, p))
  {
    var w' := GiveResolver(w, p);
    GiveResolverShape(w, p);
    forall q | 0 <= q < |w'.cells| && w'.cells[q].state == PENDING ensures OwnerOk(w', q) {
      if q != p { assert OwnerOk(w, q); }
    }
  }

  lemma UseResolverInv(w: World, t: nat)
    requires Inv(w, None) && t < |w.resolvers| && !w.resolvers[t].used
    ensures Inv(UseResolver(w, t), Some(w.resolvers[t].target)) && Stable(w, UseResolver(w, t))
  {
    var w' := UseResolver(w, t);
    var p := w.resolvers[t].target;
    assert Owns(w, p, ByResolver(t), None);
    forall q | 0 <= q < |w'.cells| ensures LinkOk(w', q) && CellOk(w', q) { assert CellOk(w, q); }
    RootsSame(w, w');
    forall i | 0 <= i < |w'.created| ensures DeferredOk(w', i) { assert DeferredOk(w, i); }
    forall q | 0 <= q < |w'.cells| && w'.cells[q].state == PENDING && q != p ensures OwnerOk(w', q) { assert OwnerOk(w, q); }
    forall q | 0 <= q < |w'.cells| ensures w'.cells[q].handled <==> HasReaction(w', q) {
      assert HasReaction(w, q) <==> HasReaction(w', q);
    }
  }

  // ---------- settling ----------

  /** A promise is fulfilled with data only: promises and thenables are followed instead. */
  predicate SettlesWith(state: nat, v: Value) {
    state == REJECTED || (state == FULFILLED && (v.Data? || v.SelfResolution?))
  }

  lemma SettleShape(w: World, p: Id, state: nat, v: Value)
    requires Inv(w, Some(p)) && SettlesWith(state, v)
    ensures w.cells[p].deferreds.Some?
    ensures var w' := Settle(w, p, state, v);
      WellFormed(w') && Stable(w, w') && SameChains(w, w') && forall i :: 0 <= i < |w.created| ==> (Done(w', i) <==> Done(w, i))
  {
    assert CellOk(w, p);
    var w' := Settle(w, p, state, v);
    forall q | 0 <= q < |w'.cells| ensures LinkOk(w', q) && CellOk(w', q) { assert CellOk(w, q); }
    forall i | 0 <= i < |w.created| ensures Done(w', i) <==> Done(w, i) { assert DeferredOk(w, i); }
  }

  lemma SettlePlaces(w: World, p: Id, state: nat, v: Value)
    requires Inv(w, Some(p)) && SettlesWith(state, v) && w.cells[p].deferreds.Some?
    ensures var w' := Settle(w, p, state, v); WellFormed(w') && Placed(w') && Ordered(w')
  {
    SettleShape(w, p, state, v);
    var w' := Settle(w, p, state, v);
    RootsSame(w, w');
    forall i | 0 <= i < |w'.created| ensures DeferredOk(w', i) { assert DeferredOk(w, i); }
    forall i, j | 0 <= i < j < |w'.created| && w'.created[i].origin == w'.created[j].origin
      ensures Before(w'.place[i], w'.place[j])
    {
      assert DeferredOk(w, i) && Before(w.place[i], w.place[j]);
    }
  }

  lemma SettleLists(w: World, p: Id, state: nat, v: Value)
    requires Inv(w, Some(p)) && SettlesWith(state, v) && w.cells[p].deferreds.Some?
    ensures var w' := Settle(w, p, state, v); WellFormed(w') && Listed(w') && Queued(w')
  {
    SettleShape(w, p, state, v);
    var w' := Settle(w, p, state, v);
    forall q, k | 0 <= q < |w'.cells| && w'.cells[q].deferreds.Some? && 0 <= k < |w'.cells[q].deferreds.value|
      ensures Known(w', w'.cells[q].deferreds.value[k], Waiting(q, k))
    {
      assert Known(w, w.cells[q].deferreds.value[k], Waiting(q, k));
    }
    var n := |w'.schedule| - |w.cells[p].deferreds.value|;
    forall k | 0 <= k < |w'.schedule|
      ensures match w'.schedule[k]
        case React(d, on) => on < |w'.cells| && Known(w', d, Scheduled(k))
        case CheckHandled(q) => q < |w'.cells| && w'.cells[q].state == REJECTED
    {
      if k < |w.schedule| {
        assert w'.schedule[k] == w.schedule[k];
      } else if k >= n {
        assert Known(w, w.cells[p].deferreds.value[k - n], Waiting(p, k - n));
      }
    }
  }

  lemma SettleRest(w: World, p: Id, state: nat, v: Value)
    requires Inv(w, Some(p)) && SettlesWith(state, v) && w.cells[p].deferreds.Some?
    ensures var w' := Settle(w, p, state, v); WellFormed(w') && Owned(w', None) && Marked(w')
  {
    SettleShape(w, p, state, v);
    var w' := Settle(w, p, state, v);
    forall q | 0 <= q < |w'.cells| && w'.cells[q].state == PENDING ensures OwnerOk(w', q) { assert OwnerOk(w, q); }
    forall q | 0 <= q < |w'.cells| ensures w'.cells[q].handled <==> HasReaction(w', q) {
      MoreReactions(w, w', q);
      if q == p && w.cells[p].deferreds.value != [] {
        assert w'.schedule[|w'.schedule| - 1].React? && w'.schedule[|w'.schedule| - 1].on == p;
      }
    }
  }

  /** A promise with a reaction in the longer schedule has one in the shorter, or among the jobs added. */
  lemma MoreReactions(w: World, w': World, q: Id)
    requires w.schedule <= w'.schedule
    ensures HasReaction(w', q) <==>
      (HasReaction(w, q) || exists k :: |w.schedule| <= k < |w'.schedule| && w'.schedule[k].React? && w'.schedule[k].on == q)
  {
    if HasReaction(w, q) {
      var k :| 0 <= k < |w.schedule| && w.schedule[k].React? && w.schedule[k].on == q;
      assert w'.schedule[k] == w.schedule[k];
    }
    if HasReaction(w', q) {
      var k :| 0 <= k < |w'.schedule| && w'.schedule[k].React? && w'.schedule[k].on == q;
      if k < |w.schedule| { assert w.schedule[k] == w'.schedule[k]; }
    }
  }

  /** Settling keeps the invariant: the waiting reactions are queued in order, once each, for a promise that stays settled. */
  lemma SettleInv(w: World, p: Id, state: nat, v: Value)
    requires Inv(w, Some(p)) && SettlesWith(state, v)
    ensures w.cells[p].deferreds.Some?
    ensures Inv(Settle(w, p, state, v), None) && Stable(w, Settle(w, p, state, v))
  {
    SettleShape(w, p, state, v);
    SettlePlaces(w, p, state, v);
    SettleLists(w, p, state, v);
    SettleRest(w, p, state, v);
  }

  // ---------- adopting ----------

  lemma AdoptShape(w: World, p: Id, q: Id)
    requires Inv(w, Some(p)) && q < |w.cells| && Root(w, q) != p
    ensures w.cells[p].deferreds.Some?
    ensures WellFormed(Adopt(w, p, q))
  {
    assert CellOk(w, p) && CellOk(w, Root(w, q));
    var w' := Adopt(w, p, q);
    forall x | 0 <= x < |w'.cells| ensures LinkOk(w', x) && CellOk(w', x) {
      assert CellOk(w, x);
      if x != p && w.cells[x].state == ADOPTED { assert Root(w, x) == Root(w, w.cells[x].value.id); }
    }
  }

  lemma AdoptStable(w: World, p: Id, q: Id)
    requires Inv(w, Some(p)) && q < |w.cells| && Root(w, q) != p && w.cells[p].deferreds.Some?
    ensures Stable(w, Adopt(w, p, q))
    ensures forall i :: 0 <= i < |w.created| ==> (Done(Adopt(w, p, q), i) <==> Done(w, i))
  {
    var w' := Adopt(w, p, q);
    forall i | 0 <= i < |w.created| ensures Done(w', i) <==> Done(w, i) { assert DeferredOk(w, i); }
  }

  /** Whatever followed `p` now follows `q`, and nothing else moves. */
  lemma {:induction false} AdoptRoot(w: World, p: Id, q: Id, x: Id)
    requires Inv(w, Some(p)) && q < |w.cells| && Root(w, q) != p && x < |w.cells|
    requires w.cells[p].deferreds.Some? && WellFormed(Adopt(w, p, q))
    ensures Root(Adopt(w, p, q), x) == if Root(w, x) == p then Root(w, q) else Root(w, x)
    decreases Root(w, x) == p, w.depth[x]
  {
    var w' := Adopt(w, p, q);
    assert CellOk(w, x) && CellOk(w, p);
    if x == p {
      assert w'.cells[p].state == ADOPTED && w'.cells[p].value == Ref(q);
      AdoptRoot(w, p, q, q);
    } else if w.cells[x].state == ADOPTED {
      assert w'.cells[x].state == ADOPTED && w'.cells[x].value == w.cells[x].value;
      AdoptRoot(w, p, q, w.cells[x].value.id);
    }
  }

  /** Each deferred that waited at `p` is now where those at the end of the chain are; the others did not move. */
  lemma AdoptPlace(w: World, p: Id, q: Id, i: nat)
    requires WellFormed(w) && p < |w.cells| && q < |w.cells| && Root(w, q) != p && w.cells[p].deferreds.Some?
    requires i < |w.created| && DeferredOk(w, i)
    requires WellFormed(Adopt(w, p, q))
    requires var o := w.created[i].origin; Root(Adopt(w, p, q), o) == if Root(w, o) == p then Root(w, q) else Root(w, o)
    ensures DeferredOk(Adopt(w, p, q), i)
  {
    assert CellOk(w, p) && CellOk(w, Root(w, q));
  }

  lemma AdoptPlaced(w: World, p: Id, q: Id)
    requires Inv(w, Some(p)) && q < |w.cells| && Root(w, q) != p && w.cells[p].deferreds.Some?
    requires WellFormed(Adopt(w, p, q))
    ensures Placed(Adopt(w, p, q))
  {
    forall i | 0 <= i < |w.created| ensures DeferredOk(Adopt(w, p, q), i) {
      assert DeferredOk(w, i);
      AdoptRoot(w, p, q, w.created[i].origin);
      AdoptPlace(w, p, q, i);
    }
  }

  lemma AdoptOrdered(w: World, p: Id, q: Id)
    requires Inv(w, Some(p)) && q < |w.cells| && Root(w, q) != p && w.cells[p].deferreds.Some?
    requires WellFormed(Adopt(w, p, q))
    ensures Ordered(Adopt(w, p, q))
  {
    var w' := Adopt(w, p, q);
    forall i, j | 0 <= i < j < |w'.created| && w'.created[i].origin == w'.created[j].origin
      ensures Before(w'.place[i], w'.place[j])
    {
      assert DeferredOk(w, i) && DeferredOk(w, j) && Before(w.place[i], w.place[j]);
    }
  }

  lemma AdoptListed(w: World, p: Id, q: Id)
    requires Inv(w, Some(p)) && q < |w.cells| && Root(w, q) != p && w.cells[p].deferreds.Some?
    requires WellFormed(Adopt(w, p, q))
    ensures Listed(Adopt(w, p, q))
  {
    var w' := Adopt(w, p, q);
    var z := Root(w, q);
    assert CellOk(w, z);
    var ds := w.cells[p].deferreds.value;
    forall x, k | 0 <= x < |w'.cells| && w'.cells[x].deferreds.Some? && 0 <= k < |w'.cells[x].deferreds.value|
      ensures Known(w', w'.cells[x].deferreds.value[k], Waiting(x, k))
    {
      if x == z && k >= |w.cells[z].deferreds.value| {
        assert Known(w, ds[k - |w.cells[z].deferreds.value|], Waiting(p, k - |w.cells[z].deferreds.value|));
      } else {
        assert Known(w, w.cells[x].deferreds.value[k], Waiting(x, k));
      }
    }
  }

  lemma AdoptQueued(w: World, p: Id, q: Id)
    requires Inv(w, Some(p)) && q < |w.cells| && Root(w, q) != p && w.cells[p].deferreds.Some?
    requires WellFormed(Adopt(w, p, q))
    ensures Queued(Adopt(w, p, q))
  {
    var w' := Adopt(w, p, q);
    forall k | 0 <= k < |w'.schedule|
      ensures match w'.schedule[k]
        case React(d, on) => on < |w'.cells| && Known(w', d, Scheduled(k))
        case CheckHandled(x) => x < |w'.cells| && w'.cells[x].state == REJECTED
    {
      if k < |w.schedule| {
        assert w'.schedule[k] == w.schedule[k];
      } else {
        assert Known(w, w.cells[p].deferreds.value[k - |w.schedule|], Waiting(p, k - |w.schedule|));
      }
    }
  }

  lemma AdoptOwned(w: World, p: Id, q: Id)
    requires WellFormed(w) && Owned(w, Some(p)) && q < |w.cells| && Root(w, q) != p && w.cells[p].deferreds.Some?
    requires WellFormed(Adopt(w, p, q)) && forall i :: 0 <= i < |w.created| ==> (Done(Adopt(w, p, q), i) <==> Done(w, i))
    ensures Owned(Adopt(w, p, q), None)
  {
    var w' := Adopt(w, p, q);
    forall x | 0 <= x < |w'.cells| && w'.cells[x].state == PENDING ensures OwnerOk(w', x) { assert OwnerOk(w, x); }
  }

  lemma AdoptMarked(w: World, p: Id, q: Id)
    requires Inv(w, Some(p)) && q < |w.cells| && Root(w, q) != p && w.cells[p].deferreds.Some?
    ensures var w' := Adopt(w, p, q); WellFormed(w') && Marked(w')
  {
    AdoptShape(w, p, q);
    var w' := Adopt(w, p, q);
    var z := Root(w, q);
    forall x | 0 <= x < |w'.cells| ensures w'.cells[x].handled <==> HasReaction(w', x) {
      MoreReactions(w, w', x);
      if x == z && w.cells[z].state != PENDING && w.cells[p].deferreds.value != [] {
        assert w'.schedule[|w'.schedule| - 1].React? && w'.schedule[|w'.schedule| - 1].on == z;
      }
    }
  }

  /** Adopting keeps the invariant: the reactions move, in order, behind those already at the end of the chain. */
  lemma AdoptInv(w: World, p: Id, q: Id)
    requires Inv(w, Some(p)) && q < |w.cells| && Root(w, q) != p
    ensures w.cells[p].deferreds.Some?
    ensures Inv(Adopt(w, p, q), None) && Stable(w, Adopt(w, p, q))
  {
    AdoptShape(w, p, q);
    AdoptStable(w, p, q);
    AdoptPlaced(w, p, q);
    AdoptOrdered(w, p, q);
    AdoptListed(w, p, q);
    AdoptQueued(w, p, q);
    AdoptOwned(w, p, q);
    AdoptMarked(w, p, q);
  }

  // ---------- registering ----------

  lemma RegisterShape(w: World, o: Id, p: Id, f: Option<int>, r: Option<int>)
    requires Inv(w, Some(p)) && o < |w.cells|
    ensures var w' := Register(w, o, p, f, r);
      WellFormed(w') && Stable(w, w') && SameChains(w, w') && forall i :: 0 <= i < |w.created| ==> (Done(w', i) <==> Done(w, i))
  {
    var w' := Register(w, o, p, f, r);
    assert CellOk(w, Root(w, o));
    forall q | 0 <= q < |w'.cells| ensures LinkOk(w', q) && CellOk(w', q) { assert CellOk(w, q); }
    forall i | 0 <= i < |w.created| ensures Done(w', i) <==> Done(w, i) { assert DeferredOk(w, i); }
  }

  lemma RegisterPlaced(w: World, o: Id, p: Id, f: Option<int>, r: Option<int>)
    requires WellFormed(w) && Placed(w) && o < |w.cells| && p < |w.cells|
    requires WellFormed(Register(w, o, p, f, r)) && SameChains(w, Register(w, o, p, f, r))
    ensures Placed(Register(w, o, p, f, r))
  {
    var w' := Register(w, o, p, f, r);
    RootsSame(w, w');
    assert CellOk(w, Root(w, o));
    forall i | 0 <= i < |w'.created| ensures DeferredOk(w', i) {
      if i < |w.created| { assert DeferredOk(w, i); }
    }
  }

  lemma RegisterOrdered(w: World, o: Id, p: Id, f: Option<int>, r: Option<int>)
    requires Inv(w, Some(p)) && o < |w.cells| && WellFormed(Register(w, o, p, f, r))
    ensures Ordered(Register(w, o, p, f, r))
  {
    var w' := Register(w, o, p, f, r);
    assert CellOk(w, Root(w, o));
    forall i, j | 0 <= i < j < |w'.created| && w'.created[i].origin == w'.created[j].origin
      ensures Before(w'.place[i], w'.place[j])
    {
      assert DeferredOk(w, i);
      if j < |w.created| { assert Before(w.place[i], w.place[j]); }
    }
  }

  lemma RegisterListed(w: World, o: Id, p: Id, f: Option<int>, r: Option<int>)
    requires WellFormed(w) && Listed(w) && o < |w.cells| && p < |w.cells| && WellFormed(Register(w, o, p, f, r))
    ensures Listed(Register(w, o, p, f, r))
  {
    var w' := Register(w, o, p, f, r);
    assert CellOk(w, Root(w, o));
    forall q, k | 0 <= q < |w'.cells| && w'.cells[q].deferreds.Some? && 0 <= k < |w'.cells[q].deferreds.value|
      ensures Known(w', w'.cells[q].deferreds.value[k], Waiting(q, k))
    {
      if k < |w.cells[q].deferreds.value| { assert Known(w, w.cells[q].deferreds.value[k], Waiting(q, k)); }
    }
  }

  lemma RegisterQueued(w: World, o: Id, p: Id, f: Option<int>, r: Option<int>)
    requires WellFormed(w) && Queued(w) && o < |w.cells| && p < |w.cells| && WellFormed(Register(w, o, p, f, r))
    ensures Queued(Register(w, o, p, f, r))
  {
    assert CellOk(w, Root(w, o));
  }

  lemma RegisterOwners(w: World, o: Id, p: Id, f: Option<int>, r: Option<int>)
    requires WellFormed(w) && Owned(w, Some(p)) && o < |w.cells| && WellFormed(Register(w, o, p, f, r))
    requires forall i :: 0 <= i < |w.created| ==> (Done(Register(w, o, p, f, r), i) <==> Done(w, i))
    ensures var w' := Register(w, o, p, f, r);
      forall q :: 0 <= q < |w'.cells| && w'.cells[q].state == PENDING ==> OwnerOk(w', q)
  {
    var w' := Register(w, o, p, f, r);
    assert CellOk(w, Root(w, o));
    forall q | 0 <= q < |w'.cells| && w'.cells[q].state == PENDING ensures OwnerOk(w', q) {
      if q != p { assert OwnerOk(w, q); }
    }
  }

  lemma RegisterOwned(w: World, o: Id, p: Id, f: Option<int>, r: Option<int>)
    requires WellFormed(w) && Owned(w, Some(p)) && o < |w.cells| && WellFormed(Register(w, o, p, f, r))
    requires forall i :: 0 <= i < |w.created| ==> (Done(Register(w, o, p, f, r), i) <==> Done(w, i))
    ensures Owned(Register(w, o, p, f, r), None)
  {
    RegisterOwners(w, o, p, f, r);
    assert CellOk(w, Root(w, o));
  }

  lemma RegisterMarked(w: World, o: Id, p: Id, f: Option<int>, r: Option<int>)
    requires WellFormed(w) && Marked(w) && o < |w.cells| && p < |w.cells| && WellFormed(Register(w, o, p, f, r))
    ensures Marked(Register(w, o, p, f, r))
  {
    var w' := Register(w, o, p, f, r);
    var z := Root(w, o);
    assert CellOk(w, z);
    forall q | 0 <= q < |w'.cells| ensures w'.cells[q].handled <==> HasReaction(w', q) {
      MoreReactions(w, w', q);
      if q == z && w.cells[z].state != PENDING {
        assert w'.schedule[|w'.schedule| - 1].React? && w'.schedule[|w'.schedule| - 1].on == z;
      }
    }
  }

  lemma RegisterInv(w: World, o: Id, p: Id, f: Option<int>, r: Option<int>)
    requires Inv(w, Some(p)) && o < |w.cells|
    ensures Inv(Register(w, o, p, f, r), None) && Stable(w, Register(w, o, p, f, r))
  {
    RegisterShape(w, o, p, f, r);
    RegisterPlaced(w, o, p, f, r);
    RegisterOrdered(w, o, p, f, r);
    RegisterListed(w, o, p, f, r);
    RegisterQueued(w, o, p, f, r);
    RegisterOwned(w, o, p, f, r);
    RegisterMarked(w, o, p, f, r);
  }
}
