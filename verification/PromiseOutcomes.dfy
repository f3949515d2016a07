/** What each operation of the promise library leaves behind, told by states, values and callbacks alone. */
module PromiseOutcomes {
  import opened Wrappers
  import opened PromiseModel
  import opened PromiseProofs
  import opened PromiseRuns

  predicate Is(w: World, p: Id, state: nat, v: Value) {
    p < |w.cells| && w.cells[p].state == state && w.cells[p].value == v
  }

  /** The resolution procedure (Promises/A+ 2.3): data fulfils, the promise itself rejects with a TypeError (2.3.1), another
      promise is adopted (2.3.2), a throwing `then` getter rejects (2.3.3.2), and a foreign `then` gets a fresh pair of
      resolving functions (2.3.3.3). */
  predicate ResolvedWith(w: World, p: Id, v: Value) {
    match v
    case Data(_) => Is(w, p, FULFILLED, v)
    case SelfResolution => Is(w, p, FULFILLED, v)
    case Ref(q) => if q == p then Is(w, p, REJECTED, SelfResolution) else Is(w, p, ADOPTED, Ref(q))
    case Poisoned(error) => Is(w, p, REJECTED, Data(error))
    case Thenable(_) => p < |w.cells| && w.cells[p].state == PENDING && w.resolvers != [] && w.resolvers[|w.resolvers| - 1] == Resolver(p, false)
  }

  /** No promise but `p`, if any, gets another state or value. */
  predicate OthersKeep(w: World, w': World, p: Option<Id>) {
    && |w.cells| <= |w'.cells|
    && forall q: nat :: q < |w.cells| && p != Some(q) ==> w'.cells[q].state == w.cells[q].state && w'.cells[q].value == w.cells[q].value
  }

  /** There is a callback for the outcome of `on` (2.2.2, 2.2.3). */
  predicate CallsBack(w: World, d: Deferred, on: Id)
    requires on < |w.cells|
  {
    || (w.cells[on].state == FULFILLED && d.onFulfilled.Some?)
    || (w.cells[on].state == REJECTED && d.onRejected.Some?)
  }

  /** A reaction starts its callback, or passes the outcome on (2.2.7.3, 2.2.7.4); the check for a rejection does neither. */
  predicate Starts(w: World, job: Job, w': World) {
    match job
    case CheckHandled(_) => w'.cells == w.cells && !w'.running
    case React(d, on) =>
      && on < |w.cells| && (w'.running <==> CallsBack(w, d, on))
      && if w'.running then w'.cells == w.cells
         else Is(w', d.derived, w.cells[on].state, w.cells[on].value) && OthersKeep(w, w', Some(d.derived))
  }

  /** What an action does to the promises. */
  ghost predicate Effect(w: World, a: Action, w': World) {
    match a
    case New =>
      && |w'.cells| == |w.cells| + 1 && w'.cells[|w.cells|].state == PENDING && OthersKeep(w, w', None)
      && w'.resolvers == w.resolvers + [Resolver(|w.cells|, false)] && w'.created == w.created
    case Then(p, onFulfilled, onRejected) =>
      && |w'.cells| == |w.cells| + 1 && w'.cells[|w.cells|].state == PENDING && OthersKeep(w, w', None)
      && w'.created == w.created + [Deferred(|w.created|, p, |w.cells|, onFulfilled, onRejected)] && w'.resolvers == w.resolvers
    case ResolveCall(t, v) =>
      t < |w.resolvers| &&
      if w.resolvers[t].used then w' == w
      else
        var p := w.resolvers[t].target;
        ResolvedWith(w', p, v) && OthersKeep(w, w', Some(p)) && t < |w'.resolvers| && w'.resolvers[t] == Resolver(p, true)
    case RejectCall(t, v) =>
      t < |w.resolvers| &&
      if w.resolvers[t].used then w' == w
      else
        var p := w.resolvers[t].target;
        Is(w', p, REJECTED, v) && OthersKeep(w, w', Some(p)) && t < |w'.resolvers| && w'.resolvers[t] == Resolver(p, true)
    case NextJob => w.next < |w.schedule| && w'.next == w.next + 1 && Starts(w, w.schedule[w.next], w')
    case EndJob(outcome) =>
      && 0 < w.next <= |w.schedule| && w.schedule[w.next - 1].React? && w'.next == w.next && !w'.running
      && var p := w.schedule[w.next - 1].d.derived;
         && OthersKeep(w, w', Some(p))
         && match outcome
            case Returned(v) => ResolvedWith(w', p, v)
            case Thrown(v) => Is(w', p, REJECTED, v)
  }

  lemma ResolveEffect(w: World, p: Id, v: Value)
    requires Inv(w, Some(p)) && Acyclic(w, p, v)
    ensures ResolvedWith(Resolve(w, p, v), p, v) && OthersKeep(w, Resolve(w, p, v), Some(p))
    ensures w.resolvers <= Resolve(w, p, v).resolvers && Resolve(w, p, v).next == w.next && Resolve(w, p, v).running == w.running
  {
    assert CellOk(w, p);
  }

  lemma RejectEffect(w: World, p: Id, v: Value)
    requires Inv(w, Some(p))
    ensures Is(Reject(w, p, v), p, REJECTED, v) && OthersKeep(w, Reject(w, p, v), Some(p))
    ensures Reject(w, p, v).resolvers == w.resolvers && Reject(w, p, v).next == w.next && Reject(w, p, v).running == w.running
  {
    assert CellOk(w, p);
  }

  lemma ThenEffect(w: World, p: Id, f: Option<int>, r: Option<int>)
    requires Inv(w, None) && p < |w.cells|
    ensures Effect(w, Then(p, f, r), Do(w, Then(p, f, r)))
  {
    AllocInv(w);
    assert CellOk(Alloc(w), Root(Alloc(w), p));
  }

  lemma CallEffect(w: World, a: Action)
    requires Inv(w, None) && Enabled(w, a) && (a.ResolveCall? || a.RejectCall?)
    ensures Effect(w, a, Do(w, a))
  {
    if !w.resolvers[a.t].used {
      UseResolverInv(w, a.t);
      RootsSame(w, UseResolver(w, a.t));
      if a.ResolveCall? { ResolveEffect(UseResolver(w, a.t), w.resolvers[a.t].target, a.v); }
      else { RejectEffect(UseResolver(w, a.t), w.resolvers[a.t].target, a.v); }
    }
  }

  lemma NextJobEffect(w: World)
    requires Inv(w, None) && Enabled(w, NextJob)
    ensures Effect(w, NextJob, Do(w, NextJob))
  {
    match w.schedule[w.next]
    case CheckHandled(_) =>
    case React(d, on) =>
      ReactionOwns(w, w.next);
      AdvanceInv(w);
      assert CellOk(w, on);
      if w.cells[on].state == FULFILLED { ResolveEffect(Advance(w), d.derived, w.cells[on].value); }
      else { RejectEffect(Advance(w), d.derived, w.cells[on].value); }
  }

  lemma EndJobEffect(w: World, outcome: Outcome)
    requires Inv(w, None) && Enabled(w, EndJob(outcome))
    ensures Effect(w, EndJob(outcome), Do(w, EndJob(outcome)))
  {
    ReturnInv(w);
    RootsSame(w, Return(w));
    var p := w.schedule[w.next - 1].d.derived;
    match outcome
    case Returned(v) => ResolveEffect(Return(w), p, v);
    case Thrown(v) => RejectEffect(Return(w), p, v);
  }

  /** Every operation leaves just the states, values, callbacks and resolving functions that it should. */
  lemma DoEffect(w: World, a: Action)
    requires Inv(w, None) && Enabled(w, a)
    ensures Effect(w, a, Do(w, a))
  {
    match a
    case New => AllocInv(w);
    case Then(p, f, r) => ThenEffect(w, p, f, r);
    case ResolveCall(_, _) => CallEffect(w, a);
    case RejectCall(_, _) => CallEffect(w, a);
    case NextJob => NextJobEffect(w);
    case EndJob(outcome) => EndJobEffect(w, outcome);
  }

  // ---------- rejections are noticed ----------

  ghost predicate HasCheck(w: World, p: Id) {
    exists k :: 0 <= k < |w.schedule| && w.schedule[k] == CheckHandled(p)
  }

  /** A reaction to each rejected promise was queued, or the check for it. */
  ghost predicate Noticed(w: World) {
    forall p :: 0 <= p < |w.cells| && w.cells[p].state == REJECTED ==> HasReaction(w, p) || HasCheck(w, p)
  }

  lemma StillNoticed(w: World, w': World, p: Id)
    requires w.schedule <= w'.schedule && (HasReaction(w, p) || HasCheck(w, p))
    ensures HasReaction(w', p) || HasCheck(w', p)
  {
    if HasReaction(w, p) {
      var k :| 0 <= k < |w.schedule| && w.schedule[k].React? && w.schedule[k].on == p;
      assert w'.schedule[k] == w.schedule[k];
    } else {
      var k :| 0 <= k < |w.schedule| && w.schedule[k] == CheckHandled(p);
      assert w'.schedule[k] == w.schedule[k];
    }
  }

  /** Nothing new is rejected. */
  lemma GrowNoticed(w: World, w': World)
    requires Noticed(w) && w.schedule <= w'.schedule
    requires forall p :: 0 <= p < |w'.cells| && w'.cells[p].state == REJECTED ==> p < |w.cells| && w.cells[p].state == REJECTED
    ensures Noticed(w')
  {
    forall p | 0 <= p < |w'.cells| && w'.cells[p].state == REJECTED ensures HasReaction(w', p) || HasCheck(w', p) {
      StillNoticed(w, w', p);
    }
  }

  lemma SettleNoticed(w: World, p: Id, state: nat, v: Value)
    requires Noticed(w) && p < |w.cells| && w.cells[p].deferreds.Some?
    ensures Noticed(Settle(w, p, state, v))
  {
    var w' := Settle(w, p, state, v);
    var last := |w'.schedule| - 1;
    forall q | 0 <= q < |w'.cells| && w'.cells[q].state == REJECTED ensures HasReaction(w', q) || HasCheck(w', q) {
      if q != p {
        StillNoticed(w, w', q);
      } else if w.cells[p].deferreds.value == [] {
        assert w'.schedule[last] == CheckHandled(p);
      } else {
        assert w'.schedule[last].React? && w'.schedule[last].on == p;
      }
    }
  }

  lemma ResolveNoticed(w: World, p: Id, v: Value)
    requires Inv(w, Some(p)) && Acyclic(w, p, v) && Noticed(w)
    ensures Noticed(Resolve(w, p, v))
  {
    assert CellOk(w, p);
    match v
    case Ref(q) => if q == p { SettleNoticed(w, p, REJECTED, SelfResolution); } else { GrowNoticed(w, Adopt(w, p, q)); }
    case Thenable(_) => GrowNoticed(w, GiveResolver(w, p));
    case Poisoned(e) => SettleNoticed(w, p, REJECTED, Data(e));
    case _ => SettleNoticed(w, p, FULFILLED, v);
  }

  lemma RejectNoticed(w: World, p: Id, v: Value)
    requires Inv(w, Some(p)) && Noticed(w)
    ensures Noticed(Reject(w, p, v))
  {
    assert CellOk(w, p);
    SettleNoticed(w, p, REJECTED, v);
  }

  lemma StartJobNoticed(w: World)
    requires Inv(w, None) && Enabled(w, NextJob) && Noticed(w)
    ensures Noticed(StartJob(w))
  {
    match w.schedule[w.next]
    case CheckHandled(_) => GrowNoticed(w, StartJob(w));
    case React(d, on) =>
      ReactionOwns(w, w.next);
      AdvanceInv(w);
      GrowNoticed(w, Advance(w));
      if StartJob(w).running {
        GrowNoticed(w, StartJob(w));
      } else {
        assert CellOk(w, on);
        if w.cells[on].state == FULFILLED { ResolveNoticed(Advance(w), d.derived, w.cells[on].value); }
        else { RejectNoticed(Advance(w), d.derived, w.cells[on].value); }
      }
  }

  lemma MakeNoticed(w: World, a: Action)
    requires Inv(w, None) && Enabled(w, a) && Noticed(w) && (a.New? || a.Then?)
    ensures Noticed(Do(w, a))
  {
    AllocInv(w);
    if a.Then? { assert CellOk(Alloc(w), Root(Alloc(w), a.p)); }
    GrowNoticed(w, Do(w, a));
  }

  lemma CallNoticed(w: World, a: Action)
    requires Inv(w, None) && Enabled(w, a) && Noticed(w) && (a.ResolveCall? || a.RejectCall?)
    ensures Noticed(Do(w, a))
  {
    if !w.resolvers[a.t].used {
      var w1 := UseResolver(w, a.t);
      UseResolverInv(w, a.t);
      RootsSame(w, w1);
      GrowNoticed(w, w1);
      if a.ResolveCall? { ResolveNoticed(w1, w.resolvers[a.t].target, a.v); }
      else { RejectNoticed(w1, w.resolvers[a.t].target, a.v); }
    }
  }

  lemma EndJobNoticed(w: World, outcome: Outcome)
    requires Inv(w, None) && Enabled(w, EndJob(outcome)) && Noticed(w)
    ensures Noticed(FinishJob(w, outcome))
  {
    ReturnInv(w);
    RootsSame(w, Return(w));
    GrowNoticed(w, Return(w));
    var p := w.schedule[w.next - 1].d.derived;
    if outcome.Returned? { ResolveNoticed(Return(w), p, outcome.v); } else { RejectNoticed(Return(w), p, outcome.v); }
  }

  lemma DoNoticed(w: World, a: Action)
    requires Inv(w, None) && Enabled(w, a) && Noticed(w)
    ensures Noticed(Do(w, a))
  {
    match a
    case New => MakeNoticed(w, a);
    case Then(_, _, _) => MakeNoticed(w, a);
    case ResolveCall(_, _) => CallNoticed(w, a);
    case RejectCall(_, _) => CallNoticed(w, a);
    case NextJob => StartJobNoticed(w);
    case EndJob(outcome) => EndJobNoticed(w, outcome);
  }

  lemma {:induction false} RunNoticed(worlds: seq<World>, n: nat)
    requires Run(worlds) && n < |worlds|
    ensures Noticed(worlds[n])
  {
    if n > 0 {
      RunNoticed(worlds, n - 1);
      RunInv(worlds, n - 1);
      assert Step(worlds[n - 1], worlds[n - 1 + 1]);
      var a :| Enabled(worlds[n - 1], a) && worlds[n] == Do(worlds[n - 1], a);
      DoNoticed(worlds[n - 1], a);
    }
  }

  /** No rejection goes unnoticed: at any time of any run, a reaction to each rejected promise has been queued, or the check that
      reports it. */
  lemma RejectionNoticed(w: World, p: Id)
    requires Reachable(w) && p < |w.cells| && w.cells[p].state == REJECTED
    ensures HasReaction(w, p) || HasCheck(w, p)
  {
    var worlds: seq<World> :| Run(worlds) && w == worlds[|worlds| - 1];
    RunNoticed(worlds, |worlds| - 1);
  }
}
