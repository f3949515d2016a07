/** Whole runs of the promise library under an arbitrary program. */
module PromiseRuns {
  import opened Wrappers
  import opened PromiseModel
  import opened PromiseProofs

  // ---------- the operations a program and its host can perform ----------

  /** How a callback ends. */
  datatype Outcome = Returned(v: Value) | Thrown(v: Value)

  /** `New`: a promise is constructed. `Then`: a reaction is registered. `ResolveCall`, `RejectCall`: a resolving function
      is called. `NextJob`: the host runs its next job up to the callback. `EndJob`: that callback ends. */
  datatype Action =
    | New
    | Then(p: Id, onFulfilled: Option<int>, onRejected: Option<int>)
    | ResolveCall(t: nat, v: Value)
    | RejectCall(t: nat, v: Value)
    | NextJob
    | EndJob(outcome: Outcome)

  function Callback(w: World, d: Deferred, on: Id): Option<int>
    requires on < |w.cells|
  {
    if w.cells[on].state == FULFILLED then d.onFulfilled else d.onRejected
  }

  function Advance(w: World): World {
    w.(next := w.next + 1)
  }

  function Return(w: World): World {
    w.(running := false)
  }

  /** When an action can happen. A chain of adoptions must not be closed into a cycle; JavaScript never starts
      a job inside another, and code that calls the library runs at the top level or inside a callback. */
  ghost predicate Enabled(w: World, a: Action)
    requires Inv(w, None)
  {
    match a
    case New => true
    case Then(p, _, _) => p < |w.cells|
    case ResolveCall(t, v) => t < |w.resolvers| && (!w.resolvers[t].used ==> Acyclic(w, w.resolvers[t].target, v))
    case RejectCall(t, _) => t < |w.resolvers|
    case NextJob => !w.running && w.next < |w.schedule|
    case EndJob(outcome) => w.running && (outcome.Returned? ==> Acyclic(w, w.schedule[w.next - 1].d.derived, outcome.v))
  }

  /** The promise that the reaction about to run, or just run, settles. */
  lemma ReactionOwns(w: World, k: nat)
    requires Inv(w, None) && k < |w.schedule| && w.schedule[k].React?
    requires w.next <= k || (w.running && k == w.next - 1)
    ensures var d := w.schedule[k].d; d.derived < |w.cells| && w.cells[d.derived].state == PENDING
    ensures var d := w.schedule[k].d;
      w.owner[d.derived] == ByDeferred(d.id) && d.id < |w.created| && w.created[d.id] == d && w.place[d.id] == Scheduled(k)
    ensures var d := w.schedule[k].d;
      d.origin < |w.cells| && w.schedule[k].on == Root(w, d.origin) && Settled(w, Root(w, d.origin))
  {
    var d := w.schedule[k].d;
    assert Known(w, d, Scheduled(k)) && DeferredOk(w, d.id) && !Done(w, d.id);
    assert Owns(w, d.derived, ByDeferred(d.id), None);
  }

  lemma AdvanceInv(w: World)
    requires Inv(w, None) && !w.running && w.next < |w.schedule| && w.schedule[w.next].React?
    ensures w.schedule[w.next].d.derived < |w.cells|
    ensures Inv(Advance(w), Some(w.schedule[w.next].d.derived)) && Stable(w, Advance(w))
  {
    ReactionOwns(w, w.next);
    var w' := Advance(w);
    forall i | 0 <= i < |w.created| ensures Done(w', i) <==> Done(w, i) || i == w.schedule[w.next].d.id { assert DeferredOk(w, i); }
    ReplayInv(w, w', w.schedule[w.next].d);
  }

  lemma ReturnInv(w: World)
    requires Inv(w, None) && w.running
    ensures w.schedule[w.next - 1].d.derived < |w.cells|
    ensures Inv(Return(w), Some(w.schedule[w.next - 1].d.derived)) && Stable(w, Return(w))
  {
    ReactionOwns(w, w.next - 1);
    forall i | 0 <= i < |w.created| ensures Done(Return(w), i) <==> Done(w, i) || i == w.schedule[w.next - 1].d.id { assert DeferredOk(w, i); }
    ReplayInv(w, Return(w), w.schedule[w.next - 1].d);
  }

  /** When nothing changes but that deferred `d` is done, its promise becomes free to be settled. */
  lemma ReplayInv(w: World, w': World, d: Deferred)
    requires Inv(w, None) && d.id < |w.created| && w.created[d.id] == d && !Done(w, d.id) && d.derived < |w.cells|
    requires w' == w.(next := w'.next, running := false) && w.next <= w'.next <= |w.schedule|
    requires forall i :: 0 <= i < |w.created| ==> (Done(w', i) <==> Done(w, i) || i == d.id)
    ensures Inv(w', Some(d.derived)) && Stable(w, w')
  {
    assert Owns(w, d.derived, ByDeferred(d.id), None);
    forall q | 0 <= q < |w'.cells| ensures LinkOk(w', q) && CellOk(w', q) { assert CellOk(w, q); }
    RootsSame(w, w');
    forall i | 0 <= i < |w'.created| ensures DeferredOk(w', i) { assert DeferredOk(w, i); }
    forall q | 0 <= q < |w'.cells| && w'.cells[q].state == PENDING && q != d.derived ensures OwnerOk(w', q) { assert OwnerOk(w, q); }
    forall q | 0 <= q < |w'.cells| ensures w'.cells[q].handled <==> HasReaction(w', q) {
      assert HasReaction(w, q) <==> HasReaction(w', q);
    }
  }

  lemma ResolveInv(w: World, p: Id, v: Value)
    requires Inv(w, Some(p)) && Acyclic(w, p, v)
    ensures Inv(Resolve(w, p, v), None) && Stable(w, Resolve(w, p, v))
  {
    match v
    case Ref(q) => if q == p { SettleInv(w, p, REJECTED, SelfResolution); } else { AdoptInv(w, p, q); }
    case Thenable(_) => GiveResolverInv(w, p);
    case Poisoned(e) => SettleInv(w, p, REJECTED, Data(e));
    case _ => SettleInv(w, p, FULFILLED, v);
  }

  lemma RejectInv(w: World, p: Id, v: Value)
    requires Inv(w, Some(p))
    ensures Inv(Reject(w, p, v), None) && Stable(w, Reject(w, p, v))
  {
    SettleInv(w, p, REJECTED, v);
  }

  /** The reaction of a job without a callback: state and value pass on to the derived promise. */
  ghost function PassOn(w: World, d: Deferred, on: Id): World
    requires Inv(w, Some(d.derived)) && on < |w.cells| && Settled(w, on)
  {
    assert CellOk(w, on);
    if w.cells[on].state == FULFILLED then Resolve(w, d.derived, w.cells[on].value)
    else Reject(w, d.derived, w.cells[on].value)
  }

  /** What the host's next job does before any callback starts. */
  ghost function StartJob(w: World): World
    requires Inv(w, None) && !w.running && w.next < |w.schedule|
  {
    match w.schedule[w.next]
    case CheckHandled(p) =>
      Advance(w).(reported := if w.cells[p].handled then w.reported else w.reported + [p])
    case React(d, on) =>
      ReactionOwns(w, w.next);
      AdvanceInv(w);
      if Callback(w, d, on).Some? then Advance(w).(running := true) else PassOn(Advance(w), d, on)
  }

  ghost function FinishJob(w: World, outcome: Outcome): World
    requires Inv(w, None) && Enabled(w, EndJob(outcome))
  {
    ReturnInv(w);
    var p := w.schedule[w.next - 1].d.derived;
    RootsSame(w, Return(w));
    match outcome
    case Returned(v) => Resolve(Return(w), p, v)
    case Thrown(v) => Reject(Return(w), p, v)
  }

  ghost function Do(w: World, a: Action): World
    requires Inv(w, None) && Enabled(w, a)
  {
    match a
    case New => AllocInv(w); GiveResolver(Alloc(w), |w.cells|)
    case Then(p, f, r) => AllocInv(w); Register(Alloc(w), p, |w.cells|, f, r)
    case ResolveCall(t, v) =>
      if w.resolvers[t].used then w
      else
        UseResolverInv(w, t);
        RootsSame(w, UseResolver(w, t));
        Resolve(UseResolver(w, t), w.resolvers[t].target, v)
    case RejectCall(t, v) =>
      if w.resolvers[t].used then w else UseResolverInv(w, t); Reject(UseResolver(w, t), w.resolvers[t].target, v)
    case NextJob => StartJob(w)
    case EndJob(outcome) => FinishJob(w, outcome)
  }

  lemma StartJobInv(w: World)
    requires Inv(w, None) && !w.running && w.next < |w.schedule|
    ensures Inv(StartJob(w), None) && Stable(w, StartJob(w))
  {
    var w' := StartJob(w);
    match w.schedule[w.next]
    case CheckHandled(p) => QuietInv(w, w');
    case React(d, on) =>
      ReactionOwns(w, w.next);
      AdvanceInv(w);
      if Callback(w, d, on).Some? {
        QuietInv(w, w');
      } else {
        assert CellOk(w, on);
        var w1 := Advance(w);
        if w.cells[on].state == FULFILLED { ResolveInv(w1, d.derived, w.cells[on].value); }
        else { RejectInv(w1, d.derived, w.cells[on].value); }
        StableTransitive(w, w1, w');
      }
  }

  /** A step that touches neither promises nor deferreds. */
  ghost predicate Quiet(w: World, w': World) {
    && Inv(w, None) && !w.running && w.next < |w.schedule|
    && w' == w.(next := w.next + 1, running := w'.running, reported := w'.reported)
    && (w'.running <==> w.schedule[w.next].React?)
  }

  lemma QuietShape(w: World, w': World)
    requires Quiet(w, w')
    ensures WellFormed(w') && Placed(w') && forall i :: 0 <= i < |w'.created| ==> (Done(w', i) <==> Done(w, i))
  {
    forall q | 0 <= q < |w'.cells| ensures LinkOk(w', q) && CellOk(w', q) { assert CellOk(w, q); }
    RootsSame(w, w');
    forall i | 0 <= i < |w'.created| ensures DeferredOk(w', i) && (Done(w', i) <==> Done(w, i)) {
      assert DeferredOk(w, i);
    }
  }

  lemma QuietRest(w: World, w': World)
    requires WellFormed(w) && Owned(w, None) && Marked(w) && WellFormed(w')
    requires w' == w.(next := w'.next, running := w'.running, reported := w'.reported)
    requires forall i :: 0 <= i < |w'.created| ==> (Done(w', i) <==> Done(w, i))
    ensures Owned(w', None) && Marked(w')
  {
    forall q | 0 <= q < |w'.cells| && w'.cells[q].state == PENDING ensures OwnerOk(w', q) { assert OwnerOk(w, q); }
    forall q | 0 <= q < |w'.cells| ensures w'.cells[q].handled <==> HasReaction(w', q) {
      assert HasReaction(w, q) <==> HasReaction(w', q);
    }
  }

  lemma QuietInv(w: World, w': World)
    requires Quiet(w, w')
    ensures Inv(w', None) && Stable(w, w')
  {
    QuietShape(w, w');
    QuietRest(w, w');
  }

  lemma NewInv(w: World)
    requires Inv(w, None)
    ensures Inv(Do(w, New), None) && Stable(w, Do(w, New))
  {
    AllocInv(w);
    GiveResolverInv(Alloc(w), |w.cells|);
    StableTransitive(w, Alloc(w), Do(w, New));
  }

  lemma ThenInv(w: World, p: Id, f: Option<int>, r: Option<int>)
    requires Inv(w, None) && p < |w.cells|
    ensures Inv(Do(w, Then(p, f, r)), None) && Stable(w, Do(w, Then(p, f, r)))
  {
    AllocInv(w);
    RegisterInv(Alloc(w), p, |w.cells|, f, r);
    StableTransitive(w, Alloc(w), Do(w, Then(p, f, r)));
  }

  lemma ResolveCallInv(w: World, t: nat, v: Value)
    requires Inv(w, None) && Enabled(w, ResolveCall(t, v))
    ensures Inv(Do(w, ResolveCall(t, v)), None) && Stable(w, Do(w, ResolveCall(t, v)))
  {
    if !w.resolvers[t].used {
      UseResolverInv(w, t);
      RootsSame(w, UseResolver(w, t));
      ResolveInv(UseResolver(w, t), w.resolvers[t].target, v);
      StableTransitive(w, UseResolver(w, t), Do(w, ResolveCall(t, v)));
    }
  }

  lemma RejectCallInv(w: World, t: nat, v: Value)
    requires Inv(w, None) && t < |w.resolvers|
    ensures Inv(Do(w, RejectCall(t, v)), None) && Stable(w, Do(w, RejectCall(t, v)))
  {
    if !w.resolvers[t].used {
      UseResolverInv(w, t);
      RejectInv(UseResolver(w, t), w.resolvers[t].target, v);
      StableTransitive(w, UseResolver(w, t), Do(w, RejectCall(t, v)));
    }
  }

  lemma FinishJobInv(w: World, outcome: Outcome)
    requires Inv(w, None) && Enabled(w, EndJob(outcome))
    ensures Inv(FinishJob(w, outcome), None) && Stable(w, FinishJob(w, outcome))
  {
    ReturnInv(w);
    RootsSame(w, Return(w));
    var p := w.schedule[w.next - 1].d.derived;
    if outcome.Returned? { ResolveInv(Return(w), p, outcome.v); } else { RejectInv(Return(w), p, outcome.v); }
    StableTransitive(w, Return(w), FinishJob(w, outcome));
  }

  /** Every action keeps the invariant and undoes nothing. */
  lemma DoInv(w: World, a: Action)
    requires Inv(w, None) && Enabled(w, a)
    ensures Inv(Do(w, a), None) && Stable(w, Do(w, a))
  {
    match a
    case New => NewInv(w);
    case Then(p, f, r) => ThenInv(w, p, f, r);
    case ResolveCall(t, v) => ResolveCallInv(w, t, v);
    case RejectCall(t, v) => RejectCallInv(w, t, v);
    case NextJob => StartJobInv(w);
    case EndJob(outcome) => FinishJobInv(w, outcome);
  }

  // ---------- runs ----------

  /** A run: each world follows from the one before by some enabled action. */
  ghost predicate Run(worlds: seq<World>) {
    && worlds != [] && worlds[0] == EmptyWorld()
    && forall n :: 0 <= n < |worlds| - 1 ==> Step(worlds[n], worlds[n + 1])
  }

  /** The premise makes `Enabled` and `Do` meaningful; `RunInv` shows that it holds throughout every run. */
  ghost predicate Step(w: World, w': World) {
    Inv(w, None) ==> exists a :: Enabled(w, a) && w' == Do(w, a)
  }

  lemma {:induction false} RunInv(worlds: seq<World>, n: nat)
    requires Run(worlds) && n < |worlds|
    ensures Inv(worlds[n], None)
  {
    if n > 0 {
      RunInv(worlds, n - 1);
      assert Step(worlds[n - 1], worlds[n - 1 + 1]);
      var a :| Enabled(worlds[n - 1], a) && worlds[n] == Do(worlds[n - 1], a);
      DoInv(worlds[n - 1], a);
    }
  }

  /** Once settled or adopting, a promise has that state and value in all the rest of the run. */
  lemma {:induction false} RunStable(worlds: seq<World>, m: nat, n: nat)
    requires Run(worlds) && m <= n < |worlds|
    ensures Stable(worlds[m], worlds[n])
    decreases n
  {
    if m < n {
      RunStable(worlds, m, n - 1);
      RunInv(worlds, n - 1);
      assert Step(worlds[n - 1], worlds[n - 1 + 1]);
      var a :| Enabled(worlds[n - 1], a) && worlds[n] == Do(worlds[n - 1], a);
      DoInv(worlds[n - 1], a);
      StableTransitive(worlds[m], worlds[n - 1], worlds[n]);
    }
  }

  ghost predicate Reachable(w: World) {
    exists worlds: seq<World> :: Run(worlds) && w == worlds[|worlds| - 1]
  }

  lemma ReachableInv(w: World)
    requires Reachable(w)
    ensures Inv(w, None)
  {
    var worlds: seq<World> :| Run(worlds) && w == worlds[|worlds| - 1];
    RunInv(worlds, |worlds| - 1);
  }

  /** Each call of `then` has its deferred in exactly one place, and its job is queued, hence run, at most once. */
  lemma OnePlace(w: World, i: nat)
    requires Reachable(w) && i < |w.created|
    ensures Inv(w, None)
    ensures forall p, k :: 0 <= p < |w.cells| && w.cells[p].deferreds.Some? && 0 <= k < |w.cells[p].deferreds.value| ==>
      (w.cells[p].deferreds.value[k] == w.created[i] <==> w.place[i] == Waiting(p, k))
    ensures forall k :: 0 <= k < |w.schedule| && w.schedule[k].React? ==>
      (w.schedule[k].d == w.created[i] <==> w.place[i] == Scheduled(k))
    ensures match w.place[i]
      case Waiting(p, k) => p < |w.cells| && w.cells[p].deferreds.Some? && k < |w.cells[p].deferreds.value|
      case Scheduled(k) => k < |w.schedule| && w.schedule[k].React?
  {
    ReachableInv(w);
    assert DeferredOk(w, i);
    forall p, k | 0 <= p < |w.cells| && w.cells[p].deferreds.Some? && 0 <= k < |w.cells[p].deferreds.value|
      ensures w.cells[p].deferreds.value[k] == w.created[i] <==> w.place[i] == Waiting(p, k)
    {
      assert Known(w, w.cells[p].deferreds.value[k], Waiting(p, k));
    }
    forall k | 0 <= k < |w.schedule| && w.schedule[k].React?
      ensures w.schedule[k].d == w.created[i] <==> w.place[i] == Scheduled(k)
    {
      assert Known(w, w.schedule[k].d, Scheduled(k));
    }
  }

  /** Reactions registered on one promise are queued in the order of registration, wherever adoption has moved them. */
  lemma CallbacksInOrder(w: World, i: nat, j: nat)
    requires Reachable(w) && i < j < |w.created| && w.created[i].origin == w.created[j].origin
    requires j < |w.place| && w.place[j].Scheduled?
    ensures i < |w.place| && w.place[i].Scheduled? && w.place[i].k < w.place[j].k
  {
    ReachableInv(w);
    assert DeferredOk(w, i) && Before(w.place[i], w.place[j]);
  }

  /** A reaction that has not started sees the settled end of its promise's chain, and the promise it returned is pending. */
  lemma ReactionSeesOutcome(w: World, k: nat)
    requires Reachable(w) && w.next <= k < |w.schedule| && w.schedule[k].React?
    ensures Inv(w, None)
    ensures var d := w.schedule[k].d;
      && d.origin < |w.cells| && d.derived < |w.cells|
      && w.schedule[k].on == Root(w, d.origin) && Settled(w, Root(w, d.origin)) && w.cells[d.derived].state == PENDING
  {
    ReachableInv(w);
    ReactionOwns(w, k);
    assert DeferredOk(w, w.schedule[k].d.id);
  }

  /** The host has started the job of deferred `i`. */
  predicate Started(w: World, i: nat) {
    i < |w.place| && w.place[i].Scheduled? && w.place[i].k < w.next
  }

  /** Jobs keep their places in the queue. */
  lemma StartedBefore(w: World, w': World, i: nat)
    requires Inv(w, None) && Inv(w', None) && Stable(w, w') && Started(w', i) && w'.place[i].k < w.next
    ensures Started(w, i)
  {
    assert DeferredOk(w', i);
    var k := w'.place[i].k;
    assert w.schedule[k] == w'.schedule[k] && w'.schedule[k].React?;
    assert Known(w, w.schedule[k].d, Scheduled(k));
  }

  lemma OnlyNextJobStarts(w: World, a: Action)
    requires Inv(w, None) && Enabled(w, a) && !a.NextJob?
    ensures Do(w, a).next == w.next
  {
  }

  lemma StartedKnown(w: World, a: Action, i: nat)
    requires Inv(w, None) && Enabled(w, a) && a.NextJob? && i < |Do(w, a).created|
    ensures i < |w.created|
  {
  }

  /** A job starts only when the host takes the next one, while no callback is running. */
  lemma StartStep(w: World, a: Action, i: nat)
    requires Inv(w, None) && Enabled(w, a) && !Started(w, i) && Started(Do(w, a), i)
    ensures a.NextJob? && !w.running && i < |w.created|
  {
    DoInv(w, a);
    if !a.NextJob? { OnlyNextJobStarts(w, a); }
    if Do(w, a).place[i].k < w.next { StartedBefore(w, Do(w, a), i); }
    if a.NextJob? { StartedKnown(w, a, i); }
  }

  ghost predicate StartsAt(worlds: seq<World>, j: nat, i: nat) {
    j + 1 < |worlds| && i < |worlds[j].created| && !worlds[j].running && !Started(worlds[j], i) && Started(worlds[j + 1], i)
  }

  /** The job of a deferred that is not yet created, or not started, starts later in the run, after `then` has returned and at
      a time when no callback is running: `then` and the resolving functions never run a callback themselves. */
  lemma {:induction false} NeverSynchronous(worlds: seq<World>, m: nat, n: nat, i: nat)
    requires Run(worlds) && m <= n < |worlds| && !Started(worlds[m], i) && Started(worlds[n], i)
    ensures exists j :: m <= j < n && StartsAt(worlds, j, i)
    decreases n
  {
    var w := worlds[n - 1];
    if Started(w, i) {
      NeverSynchronous(worlds, m, n - 1, i);
    } else {
      RunInv(worlds, n - 1);
      assert Step(w, worlds[n - 1 + 1]);
      var a :| Enabled(w, a) && worlds[n] == Do(w, a);
      StartStep(w, a, i);
      assert StartsAt(worlds, n - 1, i);
    }
  }

  /** A job without a callback gives the derived promise the state and value of the promise it was waiting for. */
  lemma PassedOn(w: World)
    requires Reachable(w) && !w.running && w.next < |w.schedule| && w.schedule[w.next].React?
    requires w.schedule[w.next].on < |w.cells|
    requires var state, d := w.cells[w.schedule[w.next].on].state, w.schedule[w.next].d;
      (state == FULFILLED && d.onFulfilled == None) || (state == REJECTED && d.onRejected == None)
    ensures Inv(w, None)
    ensures var job := w.schedule[w.next];
      var p := job.d.derived;
      p < |StartJob(w).cells| && StartJob(w).cells[p].state == w.cells[job.on].state && StartJob(w).cells[p].value == w.cells[job.on].value
  {
    ReachableInv(w);
    ReactionOwns(w, w.next);
    AdvanceInv(w);
    assert CellOk(w, w.schedule[w.next].on);
  }

  /** A rejection's check reports it exactly when no reaction to it was queued by then. */
  lemma UnhandledReported(w: World)
    requires Reachable(w) && !w.running && w.next < |w.schedule| && w.schedule[w.next].CheckHandled?
    ensures Inv(w, None)
    ensures var p := w.schedule[w.next].p;
      && p < |w.cells| && w.cells[p].state == REJECTED
      && StartJob(w).reported == if HasReaction(w, p) then w.reported else w.reported + [p]
  {
    ReachableInv(w);
  }

  // ---------- cyclic adoption ----------

  /** Where `n` rounds of the loop that follows adoption lead. */
  function Hop(cells: seq<Cell>, x: Id, n: nat): (r: Id)
    requires x < |cells|
    requires forall y :: 0 <= y < |cells| && cells[y].state == ADOPTED ==> cells[y].value.Ref? && cells[y].value.id < |cells|
    ensures r < |cells|
    decreases n
  {
    if n == 0 || cells[x].state != ADOPTED then x else Hop(cells, cells[x].value.id, n - 1)
  }

  lemma {:induction false} HopInCycle(w: World, p: Id, q: Id, x: Id, n: nat)
    requires Inv(w, Some(p)) && q < |w.cells| && Root(w, q) == p && x < |w.cells| && Root(w, x) == p
    ensures var cells := w.cells[p := Cell(ADOPTED, Ref(q), w.cells[p].deferreds, w.cells[p].handled)];
      && (forall y :: 0 <= y < |cells| && cells[y].state == ADOPTED ==> cells[y].value.Ref? && cells[y].value.id < |cells|)
      && cells[Hop(cells, x, n)].state == ADOPTED
    decreases n
  {
    forall y | 0 <= y < |w.cells| && w.cells[y].state == ADOPTED ensures w.cells[y].value.Ref? && w.cells[y].value.id < |w.cells| {
      assert LinkOk(w, y);
    }
    assert LinkOk(w, x);
    if n > 0 { HopInCycle(w, p, q, if x == p then q else w.cells[x].value.id, n - 1); }
  }

  /** Resolving `p` with a promise that already follows `p` closes a cycle: the loop that follows adoption from `p` never ends.
      `Acyclic` excludes exactly this. */
  lemma CycleNeverEnds(w: World, p: Id, v: Value, n: nat)
    requires Inv(w, Some(p)) && v.Ref? && v.id < |w.cells| && !Acyclic(w, p, v)
    ensures var cells := w.cells[p := Cell(ADOPTED, v, w.cells[p].deferreds, w.cells[p].handled)];
      && (forall y :: 0 <= y < |cells| && cells[y].state == ADOPTED ==> cells[y].value.Ref? && cells[y].value.id < |cells|)
      && cells[Hop(cells, p, n)].state == ADOPTED
  {
    HopInCycle(w, p, v.id, p, n);
  }
}
