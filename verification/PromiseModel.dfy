/**
 The promise polyfill as a transition system. Promises are cells of one heap, addressed by index,
 so that one promise adopting another is a reference like any other.

 The user's code is arbitrary: it may create promises, call `then` and call resolving functions
 in any order, also while one of its callbacks is running.
 */
module PromiseModel {
  import opened Wrappers

  type Id = nat

  /** What a promise can be resolved or rejected with: plain data, a promise of this library,
      a foreign object with a `then` method, one whose `then` getter throws, or the TypeError of self-resolution. */
  datatype Value = Data(n: int) | Ref(id: Id) | Thenable(n: int) | Poisoned(error: int) | SelfResolution

  /** One call of `then`. `origin` is the promise it was called on, `derived` the promise it returned;
      a callback that is not a function is None. */
  datatype Deferred = Deferred(id: nat, origin: Id, derived: Id, onFulfilled: Option<int>, onRejected: Option<int>)

  const PENDING: nat := 0
  const FULFILLED: nat := 1
  const REJECTED: nat := 2
  const ADOPTED: nat := 3

  /** A promise: `_state`, `_value`, `_deferreds` (null once settled or adopted) and `_handled`. */
  datatype Cell = Cell(state: nat, value: Value, deferreds: Option<seq<Deferred>>, handled: bool)

  /** What is handed to the host's queue: a reaction to settled promise `on`, or the check for an unhandled rejection. */
  datatype Job = React(d: Deferred, on: Id) | CheckHandled(p: Id)

  /** A pair of resolving functions made by `doResolve`, and whether one of them was called. */
  datatype Resolver = Resolver(target: Id, used: bool)

  /** Where a deferred is: at position `k` of a pending promise's list, or `k`-th of all jobs ever queued. */
  datatype Place = Waiting(p: Id, k: nat) | Scheduled(k: nat)

  /** What alone may still settle a pending promise. */
  datatype Owner = ByResolver(t: nat) | ByDeferred(i: nat)

  /** `schedule` holds every job ever queued, of which the host has started the first `next`; `running` while
      a callback has not returned. `place`, `owner` and `depth` are bookkeeping that the code does not have. */
  datatype World = World(
    cells: seq<Cell>, schedule: seq<Job>, next: nat, running: bool, resolvers: seq<Resolver>,
    created: seq<Deferred>, reported: seq<Id>,
    place: seq<Place>, owner: seq<Owner>, depth: seq<nat>)

  const FRESH_CELL := Cell(PENDING, Data(0), Some([]), false)

  function EmptyWorld(): World {
    World([], [], 0, false, [], [], [], [], [], [])
  }

  // ---------- the invariant ----------

  ghost predicate LinkOk(w: World, p: Id)
    requires p < |w.cells| == |w.depth|
  {
    var c := w.cells[p];
    c.state <= ADOPTED && (c.state == ADOPTED ==> c.value.Ref? && c.value.id < |w.cells| && w.depth[c.value.id] < w.depth[p])
  }

  /** Adoption is acyclic. */
  ghost predicate Chained(w: World) {
    |w.depth| == |w.cells| && forall p :: 0 <= p < |w.cells| ==> LinkOk(w, p)
  }

  ghost predicate CellOk(w: World, p: Id)
    requires p < |w.cells| == |w.depth|
  {
    var c := w.cells[p];
    && LinkOk(w, p)
    && (c.state == PENDING <==> c.deferreds.Some?)
    && (c.state == FULFILLED ==> c.value.Data? || c.value.SelfResolution?)
  }

  /** The bookkeeping covers every promise and every deferred. */
  ghost predicate WellFormed(w: World) {
    && Chained(w)
    && |w.cells| == |w.owner| && |w.place| == |w.created|
    && w.next <= |w.schedule|
    && (w.running ==> w.next > 0 && w.schedule[w.next - 1].React?)
    && forall p :: 0 <= p < |w.cells| ==> CellOk(w, p)
  }

  /** The promise at the end of the chain of adoptions. */
  ghost function Root(w: World, p: Id): (r: Id)
    requires Chained(w) && p < |w.cells|
    ensures r < |w.cells| && w.cells[r].state != ADOPTED
    decreases w.depth[p]
  {
    assert LinkOk(w, p);
    if w.cells[p].state == ADOPTED then Root(w, w.cells[p].value.id) else p
  }

  predicate Settled(w: World, p: Id)
    requires p < |w.cells|
  {
    w.cells[p].state == FULFILLED || w.cells[p].state == REJECTED
  }

  ghost predicate DeferredOk(w: World, i: nat)
    requires WellFormed(w) && i < |w.created|
  {
    var d := w.created[i];
    && d.id == i && d.origin < |w.cells| && d.derived < |w.cells|
    && match w.place[i]
       case Waiting(p, k) =>
         && p == Root(w, d.origin)
         && w.cells[p].deferreds.Some? && k < |w.cells[p].deferreds.value| && w.cells[p].deferreds.value[k] == d
       case Scheduled(k) =>
         && k < |w.schedule| && w.schedule[k] == React(d, Root(w, d.origin)) && Settled(w, Root(w, d.origin))
  }

  /** Every deferred is where its place says: waiting at the promise its own one follows, or queued for that promise. */
  ghost predicate Placed(w: World)
    requires WellFormed(w)
  {
    forall i :: 0 <= i < |w.created| ==> DeferredOk(w, i)
  }

  predicate Known(w: World, d: Deferred, place: Place)
    requires |w.place| == |w.created|
  {
    d.id < |w.created| && w.created[d.id] == d && w.place[d.id] == place
  }

  /** Nothing else is in a list. */
  ghost predicate Listed(w: World)
    requires WellFormed(w)
  {
    forall p, k :: 0 <= p < |w.cells| && w.cells[p].deferreds.Some? && 0 <= k < |w.cells[p].deferreds.value| ==>
      Known(w, w.cells[p].deferreds.value[k], Waiting(p, k))
  }

  /** Nothing else is in the queue. */
  ghost predicate Queued(w: World)
    requires WellFormed(w)
  {
    forall k :: 0 <= k < |w.schedule| ==>
      match w.schedule[k]
      case React(d, on) => on < |w.cells| && Known(w, d, Scheduled(k))
      case CheckHandled(p) => p < |w.cells| && w.cells[p].state == REJECTED
  }

  predicate Before(a: Place, b: Place) {
    match (a, b)
    case (Waiting(p, k), Waiting(q, l)) => p == q && k < l
    case (Waiting(_, _), Scheduled(_)) => false
    case (Scheduled(_), Waiting(_, _)) => true
    case (Scheduled(k), Scheduled(l)) => k < l
  }

  /** Deferreds of one promise keep the order in which they were registered. */
  ghost predicate Ordered(w: World)
    requires WellFormed(w)
  {
    forall i, j :: 0 <= i < j < |w.created| && w.created[i].origin == w.created[j].origin ==> Before(w.place[i], w.place[j])
  }

  /** A deferred whose job has run to its end. */
  predicate Done(w: World, i: nat)
    requires i < |w.place|
  {
    w.place[i].Scheduled? && w.place[i].k < w.next && !(w.running && w.place[i].k == w.next - 1)
  }

  ghost predicate OwnerOk(w: World, p: Id)
    requires WellFormed(w) && p < |w.cells|
  {
    match w.owner[p]
    case ByResolver(t) => t < |w.resolvers| && w.resolvers[t] == Resolver(p, false)
    case ByDeferred(i) => i < |w.created| && w.created[i].derived == p && !Done(w, i)
  }

  /** Every pending promise can be settled by exactly one thing, every other promise by nothing.
      `free` is a pending promise whose settling has just begun. */
  ghost predicate Owned(w: World, free: Option<Id>)
    requires WellFormed(w)
  {
    && (free.Some? ==> free.value < |w.cells| && w.cells[free.value].state == PENDING)
    && (forall p {:trigger OwnerOk(w, p)} :: 0 <= p < |w.cells| && w.cells[p].state == PENDING && free != Some(p) ==> OwnerOk(w, p))
    && (forall t :: 0 <= t < |w.resolvers| ==>
          w.resolvers[t].target < |w.cells| && (!w.resolvers[t].used ==> Owns(w, w.resolvers[t].target, ByResolver(t), free)))
    && (forall i :: 0 <= i < |w.created| && !Done(w, i) ==>
          w.created[i].derived < |w.cells| && Owns(w, w.created[i].derived, ByDeferred(i), free))
  }

  predicate Owns(w: World, p: Id, o: Owner, free: Option<Id>)
    requires p < |w.cells| == |w.owner|
  {
    w.cells[p].state == PENDING && w.owner[p] == o && free != Some(p)
  }

  /** A promise is marked handled exactly when some reaction to it was queued. */
  ghost predicate Marked(w: World)
    requires WellFormed(w)
  {
    forall p :: 0 <= p < |w.cells| ==> (w.cells[p].handled <==> HasReaction(w, p))
  }

  ghost predicate HasReaction(w: World, p: Id) {
    exists k :: 0 <= k < |w.schedule| && w.schedule[k].React? && w.schedule[k].on == p
  }

  ghost predicate Inv(w: World, free: Option<Id>) {
    WellFormed(w) && Placed(w) && Listed(w) && Queued(w) && Ordered(w) && Owned(w, free) && Marked(w)
  }

  // ---------- the primitive transitions ----------

  /** `new`: a pending promise. */
  function Alloc(w: World): World {
    w.(cells := w.cells + [FRESH_CELL], owner := w.owner + [ByResolver(0)], depth := w.depth + [0])
  }

  /** `doResolve`: a fresh pair of resolving functions for `p`. */
  function GiveResolver(w: World, p: Id): World
    requires p < |w.owner|
  {
    w.(resolvers := w.resolvers + [Resolver(p, false)], owner := w.owner[p := ByResolver(|w.resolvers|)])
  }

  /** The once-flag of a pair of resolving functions is set. */
  function UseResolver(w: World, t: nat): World
    requires t < |w.resolvers|
  {
    w.(resolvers := w.resolvers[t := w.resolvers[t].(used := true)])
  }

  function Reactions(ds: seq<Deferred>, on: Id): seq<Job> {
    seq(|ds|, k requires 0 <= k < |ds| => React(ds[k], on))
  }

  /** The places of the deferreds that waited at `p` once they are queued behind `base` jobs. */
  function Requeued(place: seq<Place>, p: Id, base: nat): seq<Place> {
    seq(|place|, i requires 0 <= i < |place| =>
      if place[i].Waiting? && place[i].p == p then Scheduled(base + place[i].k) else place[i])
  }

  /** The same once they wait at `z` behind `base` others. */
  function Rehomed(place: seq<Place>, p: Id, z: Id, base: nat): seq<Place> {
    seq(|place|, i requires 0 <= i < |place| =>
      if place[i].Waiting? && place[i].p == p then Waiting(z, base + place[i].k) else place[i])
  }

  /** Pending `p` is fulfilled or rejected: its deferreds are queued in order, or the rejection is to be checked. */
  function Settle(w: World, p: Id, state: nat, v: Value): World
    requires p < |w.cells| && w.cells[p].deferreds.Some?
  {
    var ds := w.cells[p].deferreds.value;
    var check := if state == REJECTED && ds == [] then [CheckHandled(p)] else [];
    w.(cells := w.cells[p := Cell(state, v, None, w.cells[p].handled || ds != [])],
       schedule := w.schedule + check + Reactions(ds, p),
       place := Requeued(w.place, p, |w.schedule| + |check|))
  }

  /** Pending `p` adopts `q`: its deferreds go where those of `q` go, behind them. */
  ghost function Adopt(w: World, p: Id, q: Id): World
    requires WellFormed(w) && p < |w.cells| && q < |w.cells| && w.cells[p].deferreds.Some?
    requires Root(w, q) != p
  {
    var z := Root(w, q);
    var ds := w.cells[p].deferreds.value;
    var adopted := w.cells[p := Cell(ADOPTED, Ref(q), None, w.cells[p].handled)];
    var target := w.cells[z];
    var depth := seq(|w.cells|, x requires 0 <= x < |w.cells| => if Root(w, x) == p then w.depth[x] + w.depth[q] + 1 else w.depth[x]);
    if target.state == PENDING then
      assert CellOk(w, z);
      w.(cells := adopted[z := target.(deferreds := Some(target.deferreds.value + ds))],
         place := Rehomed(w.place, p, z, |target.deferreds.value|), depth := depth)
    else
      w.(cells := adopted[z := target.(handled := target.handled || ds != [])],
         schedule := w.schedule + Reactions(ds, z),
         place := Requeued(w.place, p, |w.schedule|), depth := depth)
  }

  /** `then` on `o`, with `p` as the promise it returns: the deferred joins the list at the end of the chain, or the queue. */
  ghost function Register(w: World, o: Id, p: Id, onFulfilled: Option<int>, onRejected: Option<int>): World
    requires WellFormed(w) && o < |w.cells| && p < |w.cells|
  {
    var d := Deferred(|w.created|, o, p, onFulfilled, onRejected);
    var z := Root(w, o);
    var c := w.cells[z];
    assert CellOk(w, z);
    var w1 := w.(created := w.created + [d], owner := w.owner[p := ByDeferred(d.id)]);
    if c.state == PENDING then
      w1.(cells := w.cells[z := c.(deferreds := Some(c.deferreds.value + [d]))],
          place := w.place + [Waiting(z, |c.deferreds.value|)])
    else
      w1.(cells := w.cells[z := c.(handled := true)], schedule := w.schedule + [React(d, z)],
          place := w.place + [Scheduled(|w.schedule|)])
  }

  // ---------- the library's operations ----------

  /** Whether resolving pending `p` with `v` keeps adoption acyclic; the library itself only refuses `v` being `p`. */
  ghost predicate Acyclic(w: World, p: Id, v: Value)
    requires WellFormed(w)
  {
    v.Ref? ==> v.id < |w.cells| && (v.id != p ==> Root(w, v.id) != p)
  }

  /** `r`: the promise resolution procedure on pending `p`. */
  ghost function Resolve(w: World, p: Id, v: Value): World
    requires WellFormed(w) && p < |w.cells| && w.cells[p].state == PENDING && Acyclic(w, p, v)
  {
    assert CellOk(w, p);
    match v
    case Ref(q) => if q == p then Settle(w, p, REJECTED, SelfResolution) else Adopt(w, p, q)
    case Thenable(_) => GiveResolver(w, p)
    case Poisoned(e) => Settle(w, p, REJECTED, Data(e))
    case _ => Settle(w, p, FULFILLED, v)
  }

  /** `i` */
  ghost function Reject(w: World, p: Id, v: Value): World
    requires WellFormed(w) && p < |w.cells| && w.cells[p].state == PENDING
  {
    assert CellOk(w, p);
    Settle(w, p, REJECTED, v)
  }
}
