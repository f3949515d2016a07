/** What moving through a presentation guarantees, over whole runs. */
module RevealNavigation {
  import opened Wrappers
  import opened RevealView

  // ---------- reading order ----------

  /** The number of stops in some leaf slides: one on entering each, and one for each fragment group. */
  function Stops(groups: seq<nat>): nat {
    if groups == [] then 0 else Stops(groups[..|groups| - 1]) + groups[|groups| - 1] + 1
  }

  function TotalStops(d: Shape): nat {
    if d == [] then 0 else TotalStops(d[..|d| - 1]) + Stops(d[|d| - 1].groups)
  }

  /** How many stops lie before this one in document order. */
  function Position(d: Shape, s: View): nat
    requires Valid(d, s)
  {
    TotalStops(d[..s.h]) + Stops(d[s.h].groups[..s.v]) + s.k + 1
  }

  lemma StopsStep(groups: seq<nat>, v: nat)
    requires v < |groups|
    ensures Stops(groups[..v + 1]) == Stops(groups[..v]) + groups[v] + 1
  {
    assert groups[..v + 1][..v] == groups[..v];
  }

  lemma TotalStep(d: Shape, h: nat)
    requires h < |d|
    ensures TotalStops(d[..h + 1]) == TotalStops(d[..h]) + Stops(d[h].groups)
  {
    assert d[..h + 1][..h] == d[..h];
  }

  lemma {:induction false} StopsGrow(groups: seq<nat>, a: nat, b: nat)
    requires a <= b <= |groups|
    ensures Stops(groups[..a]) + (b - a) <= Stops(groups[..b])
    decreases b
  {
    if a < b {
      StopsGrow(groups, a, b - 1);
      StopsStep(groups, b - 1);
    }
  }

  lemma {:induction false} TotalGrows(d: Shape, a: nat, b: nat)
    requires a <= b <= |d|
    ensures TotalStops(d[..a]) <= TotalStops(d[..b])
    decreases b
  {
    if a < b {
      TotalGrows(d, a, b - 1);
      TotalStep(d, b - 1);
    }
  }

  /** The stops of a slide lie below those of the next. */
  lemma PositionInSlide(d: Shape, s: View)
    requires Valid(d, s)
    ensures TotalStops(d[..s.h]) <= Position(d, s) < TotalStops(d[..s.h + 1]) <= TotalStops(d)
    ensures Position(d, s) <= TotalStops(d[..s.h]) + Stops(d[s.h].groups[..s.v + 1]) - 1
  {
    StopsStep(d[s.h].groups, s.v);
    StopsGrow(d[s.h].groups, s.v + 1, |d[s.h].groups|);
    assert d[s.h].groups[..|d[s.h].groups|] == d[s.h].groups;
    TotalStep(d, s.h);
    TotalGrows(d, s.h + 1, |d|);
    assert d[..|d|] == d;
  }

  predicate Earlier(a: View, b: View) {
    a.h < b.h || (a.h == b.h && (a.v < b.v || (a.v == b.v && a.k < b.k)))
  }

  lemma PositionMonotone(d: Shape, a: View, b: View)
    requires Valid(d, a) && Valid(d, b) && Earlier(a, b)
    ensures Position(d, a) < Position(d, b)
  {
    PositionInSlide(d, a);
    PositionInSlide(d, b);
    if a.h < b.h {
      TotalGrows(d, a.h + 1, b.h);
    } else if a.v < b.v {
      StopsGrow(d[a.h].groups, a.v + 1, b.v);
    }
  }

  /** No two different stops share a position. */
  lemma PositionInjective(d: Shape, a: View, b: View)
    requires Valid(d, a) && Valid(d, b)
    ensures Position(d, a) == Position(d, b) <==> Same(a, b)
  {
    if Earlier(a, b) { PositionMonotone(d, a, b); }
    if Earlier(b, a) { PositionMonotone(d, b, a); }
  }

  // ---------- going forward ----------

  /** The slide at `x` would be entered at its top. */
  predicate EntersAtTop(d: Shape, cfg: Config, s: View, x: nat)
    requires Valid(d, s) && x < |d|
  {
    d[x].stack ==> Bounded(cfg, RememberedV(d, s.mem, Some(x)), |d[x].groups|) == 0
  }

  predicate Unvisited(d: Shape, cfg: Config, s: View)
    requires Valid(d, s)
  {
    forall x :: s.h < x < |d| ==> EntersAtTop(d, cfg, s, x)
  }

  /** Where `navigateNext` leads without looping and grid navigation. */
  lemma NextView(d: Shape, cfg: Config, s: View)
    requires Valid(d, s) && !cfg.loop && !cfg.grid
    ensures var n := NavigateNext(d, cfg, s);
      var mem := if d[s.h].stack then s.mem[s.h := s.v] else s.mem;
      if s.k + 1 < Groups(d, s) then n == s.(k := s.k + 1)
      else if d[s.h].stack && s.v + 1 < |d[s.h].groups| then n == View(s.h, s.v + 1, -1, mem)
      else if s.h + 1 < |d| then
        n == View(s.h + 1, if d[s.h + 1].stack then Bounded(cfg, RememberedV(d, s.mem, Some(s.h + 1)), |d[s.h + 1].groups|) else 0,
                  -1, mem)
      else n == s
  {
  }

  lemma StillUnvisited(d: Shape, cfg: Config, s: View, n: View)
    requires Valid(d, s) && Valid(d, n) && Unvisited(d, cfg, s) && s.h <= n.h
    requires n.mem == s.mem || n.mem == s.mem[s.h := s.v]
    ensures Unvisited(d, cfg, n)
  {
    forall x | n.h < x < |d| ensures EntersAtTop(d, cfg, n, x) { assert EntersAtTop(d, cfg, s, x); }
  }

  lemma PositionDown(d: Shape, s: View, n: View)
    requires Valid(d, s) && Valid(d, n) && n.h == s.h && n.v == s.v + 1 && s.k == Groups(d, s) - 1 && n.k == -1
    ensures Position(d, n) == Position(d, s) + 1
  {
    StopsStep(d[s.h].groups, s.v);
  }

  lemma PositionRight(d: Shape, s: View, n: View)
    requires Valid(d, s) && Valid(d, n) && n.h == s.h + 1 && s.v == |d[s.h].groups| - 1 && n.v == 0
    requires s.k == Groups(d, s) - 1 && n.k == -1
    ensures Position(d, n) == Position(d, s) + 1
  {
    StopsStep(d[s.h].groups, s.v);
    TotalStep(d, s.h);
    assert d[s.h].groups[..|d[s.h].groups|] == d[s.h].groups && d[n.h].groups[..0] == [];
  }

  lemma PositionLast(d: Shape, s: View)
    requires Valid(d, s) && s.h == |d| - 1 && s.v == |d[s.h].groups| - 1 && s.k == Groups(d, s) - 1
    ensures Position(d, s) + 1 == TotalStops(d)
  {
    StopsStep(d[s.h].groups, s.v);
    TotalStep(d, s.h);
    assert d[s.h].groups[..|d[s.h].groups|] == d[s.h].groups && d[..|d|] == d;
  }

  /** Each `navigateNext` makes exactly one stop, the next in document order, until there is none; in either writing direction. */
  lemma NextAdvances(d: Shape, cfg: Config, s: View)
    requires Valid(d, s) && !cfg.loop && !cfg.grid && Unvisited(d, cfg, s)
    ensures var n := NavigateNext(d, cfg, s);
      && Unvisited(d, cfg, n)
      && if Position(d, s) + 1 < TotalStops(d) then Position(d, n) == Position(d, s) + 1 else Same(n, s)
  {
    var n := NavigateNext(d, cfg, s);
    NextView(d, cfg, s);
    StillUnvisited(d, cfg, s, n);
    PositionInSlide(d, n);
    if s.k + 1 < Groups(d, s) {
    } else if d[s.h].stack && s.v + 1 < |d[s.h].groups| {
      PositionDown(d, s, n);
    } else if s.h + 1 < |d| {
      assert EntersAtTop(d, cfg, s, s.h + 1);
      PositionRight(d, s, n);
    } else {
      PositionLast(d, s);
    }
  }

  function NextTimes(d: Shape, cfg: Config, s: View, n: nat): (r: View)
    requires Valid(d, s)
    ensures Valid(d, r)
  {
    if n == 0 then s else NavigateNext(d, cfg, NextTimes(d, cfg, s, n - 1))
  }

  lemma FreshPosition(d: Shape, cfg: Config)
    requires ValidShape(d) && forall x :: 0 <= x < |d| ==> d[x].startV == None
    ensures Position(d, Fresh(d)) == 0 && Unvisited(d, cfg, Fresh(d)) && TotalStops(d) > 0
  {
    assert d[..0] == [] && d[0].groups[..0] == [];
    PositionInSlide(d, Fresh(d));
  }

  lemma {:induction false} NextTimesPosition(d: Shape, cfg: Config, n: nat)
    requires ValidShape(d) && !cfg.loop && !cfg.grid && forall x :: 0 <= x < |d| ==> d[x].startV == None
    ensures var s := NextTimes(d, cfg, Fresh(d), n);
      Unvisited(d, cfg, s) && TotalStops(d) > 0 && Position(d, s) == if n < TotalStops(d) then n else TotalStops(d) - 1
  {
    FreshPosition(d, cfg);
    if n > 0 {
      var p := NextTimes(d, cfg, Fresh(d), n - 1);
      NextTimesPosition(d, cfg, n - 1);
      NextAdvances(d, cfg, p);
    }
  }

  /** From a fresh deck, repeated `navigateNext` shows every leaf slide and every fragment group once, after exactly as many
      steps as there are stops before it, and stays on the last after (groups + leaf slides - 1) steps. */
  lemma NextVisitsEachOnce(d: Shape, cfg: Config, s: View, n: nat)
    requires Valid(d, s) && !cfg.loop && !cfg.grid && forall x :: 0 <= x < |d| ==> d[x].startV == None
    ensures Same(NextTimes(d, cfg, Fresh(d), n), s) <==>
      n == Position(d, s) || (Position(d, s) == TotalStops(d) - 1 && n >= Position(d, s))
  {
    NextTimesPosition(d, cfg, n);
    PositionInjective(d, NextTimes(d, cfg, Fresh(d), n), s);
    PositionInSlide(d, s);
  }

  // ---------- going back ----------

  /** `navigateNext` will show a fragment or move down its stack. */
  predicate NextStaysInSlide(d: Shape, s: View)
    requires Valid(d, s)
  {
    s.k + 1 < Groups(d, s) || (d[s.h].stack && s.v + 1 < |d[s.h].groups|)
  }

  /** `navigatePrev` undoes a `navigateNext` that changed something, exactly when that did not enter a stack below its top. */
  lemma PrevUndoesNext(d: Shape, cfg: Config, s: View)
    requires Valid(d, s) && !cfg.loop && !cfg.grid
    ensures var n := NavigateNext(d, cfg, s);
      !Same(n, s) ==> (Same(NavigatePrev(d, cfg, n), s) <==>
        NextStaysInSlide(d, s) || (s.h + 1 < |d| && EntersAtTop(d, cfg, s, s.h + 1)))
  {
    var n := NavigateNext(d, cfg, s);
    if !Same(n, s) && !NextStaysInSlide(d, s) {
      assert s.h + 1 < |d| && n.h == s.h + 1 && n.k == -1;
      if n.v == 0 {
        assert LastV(d[s.h]) == None ==> |d[s.h].groups| == 1;
      }
    }
  }

  lemma FourActions(d: Shape, cfg: Config, s0: View, s1: View, s2: View, s3: View, s4: View, actions: seq<Action>)
    requires Valid(d, s0) && |actions| == 4 && Do(d, cfg, s0, actions[0]) == s1 && Do(d, cfg, s1, actions[1]) == s2
    requires Do(d, cfg, s2, actions[2]) == s3 && Do(d, cfg, s3, actions[3]) == s4
    ensures DoAll(d, cfg, s0, actions) == s4
  {
    assert actions[1..][1..] == actions[2..] && actions[2..][1..] == actions[3..] && actions[3..][1..] == [];
    assert DoAll(d, cfg, s3, actions[3..]) == s4;
    assert DoAll(d, cfg, s2, actions[2..]) == s4;
    assert DoAll(d, cfg, s1, actions[1..]) == s4;
  }

  const TWO_AND_A_STACK := [HShape(false, None, [0]), HShape(false, None, [0]), HShape(true, None, [0, 0])]
  const LEFT_TO_RIGHT := Config(false, false, false, false, false)

  /** Two plain slides and a stack of two, walked to the end and left again to the left: the stack remembers its second slide. */
  lemma StackRemembers()
    ensures ValidShape(TWO_AND_A_STACK)
    ensures DoAll(TWO_AND_A_STACK, LEFT_TO_RIGHT, Fresh(TWO_AND_A_STACK), [Next, Next, Next, Left]) == View(1, 0, -1, [0, 0, 1])
  {
    var d := TWO_AND_A_STACK;
    assert Fresh(d) == View(0, 0, -1, [0, 0, 0]);
    NextView(d, LEFT_TO_RIGHT, View(0, 0, -1, [0, 0, 0]));
    NextView(d, LEFT_TO_RIGHT, View(1, 0, -1, [0, 0, 0]));
    NextView(d, LEFT_TO_RIGHT, View(2, 0, -1, [0, 0, 0]));
    FourActions(d, LEFT_TO_RIGHT, View(0, 0, -1, [0, 0, 0]), View(1, 0, -1, [0, 0, 0]), View(2, 0, -1, [0, 0, 0]),
                View(2, 1, -1, [0, 0, 0]), View(1, 0, -1, [0, 0, 1]), [Next, Next, Next, Left]);
  }

  /** From there, going on to the stack and back ends inside the stack, not where that began. */
  lemma PrevMayNotUndoNext()
    ensures var d, cfg, s := TWO_AND_A_STACK, LEFT_TO_RIGHT, View(1, 0, -1, [0, 0, 1]);
      && ValidShape(d) && DoAll(d, cfg, Fresh(d), [Next, Next, Next, Left]) == s
      && NavigateNext(d, cfg, s) == View(2, 1, -1, [0, 0, 1])
      && NavigatePrev(d, cfg, NavigateNext(d, cfg, s)) == View(2, 0, -1, [0, 0, 1])
  {
    StackRemembers();
    NextView(TWO_AND_A_STACK, LEFT_TO_RIGHT, View(1, 0, -1, [0, 0, 1]));
  }

  // ---------- snapshots ----------

  /** What `getIndices` may report as the fragment of a view: nothing without fragments, else the last visible group, or,
      when all are visible and none is marked current, the number of visible fragments less one. */
  predicate Reports(d: Shape, s: View, f: Option<int>)
    requires Valid(d, s)
  {
    var last: int := Groups(d, s) - 1;
    if last == -1 then f == None else f.Some? && (f.value == s.k || (s.k == last && f.value >= last))
  }

  /** `setState` with a snapshot of `s`, from any view whatever of the same deck, shows the slide and the fragments of `s` again. */
  lemma SnapshotRestores(d: Shape, cfg: Config, s: View, f: Option<int>, t: View)
    requires Valid(d, s) && Valid(d, t) && Reports(d, s, f)
    ensures Same(Slide(d, cfg, t, Some(s.h), Some(s.v), f), s)
  {
  }

  /** In particular after any run of actions since the snapshot was taken. */
  lemma SnapshotRestoresAfter(d: Shape, cfg: Config, s: View, f: Option<int>, actions: seq<Action>)
    requires Valid(d, s) && Reports(d, s, f)
    ensures Same(Slide(d, cfg, DoAll(d, cfg, s, actions), Some(s.h), Some(s.v), f), s)
  {
    SnapshotRestores(d, cfg, s, f, DoAll(d, cfg, s, actions));
  }

  // ---------- rank and progress ----------

  /** The number of leaf slides. */
  function Leaves(d: Shape): nat {
    if d == [] then 0 else Leaves(d[..|d| - 1]) + |d[|d| - 1].groups|
  }

  /** The number of leaf slides before the current one in document order. */
  function PastCount(d: Shape, s: View): nat
    requires Valid(d, s)
  {
    Leaves(d[..s.h]) + s.v
  }

  lemma LeavesStep(d: Shape, h: nat)
    requires h < |d|
    ensures Leaves(d[..h + 1]) == Leaves(d[..h]) + |d[h].groups|
  {
    assert d[..h + 1][..h] == d[..h];
  }

  lemma {:induction false} LeavesGrow(d: Shape, a: nat, b: nat)
    requires a <= b <= |d|
    ensures Leaves(d[..a]) <= Leaves(d[..b])
    decreases b
  {
    if a < b {
      LeavesGrow(d, a, b - 1);
      LeavesStep(d, b - 1);
    }
  }

  /** From `past` of `n` steps up to, but not including, the next. */
  predicate InSlot(p: real, past: nat, n: nat)
    requires n > 0
  {
    past as real / n as real <= p < (past + 1) as real / n as real && (past == n ==> p == 1.0)
  }

  /** A count below the next whole number, as a share and capped at one, stays in its slot. */
  lemma Slot(count: real, past: nat, n: nat)
    requires n > 0 && past <= n && past as real <= count < (past + 1) as real
    ensures var q := count / n as real; InSlot(if q > 1.0 then 1.0 else q, past, n) && q >= 0.0 && (count == past as real ==> q <= 1.0)
  {
    var r := n as real;
    Divide(past as real, count, r);
    Divide(count, (past + 1) as real, r);
    Divide(past as real, r, r);
    assert r / r == 1.0;
  }

  lemma Divide(a: real, b: real, r: real)
    requires r > 0.0
    ensures a < b ==> a / r < b / r
    ensures a == b ==> a / r == b / r
    ensures a >= 0.0 ==> a / r >= 0.0
  {
    var x, y := a / r, b / r;
    assert x * r == a && y * r == b;
    Cancel(x, y, r);
    Cancel(x, 0.0, r);
  }

  lemma Cancel(x: real, y: real, r: real)
    requires r > 0.0
    ensures x * r < y * r <==> x < y
  {
    if x < y { assert (y - x) * r > 0.0; } else { assert (x - y) * r >= 0.0; }
  }

  lemma Share(a: nat, b: nat)
    requires a <= b && b > 0
    ensures 0.0 <= a as real / b as real <= 1.0
  {
    Divide(a as real, b as real, b as real);
  }

  /** The share of a slide's fragments that are visible, counted at 0.9, stays below one slide. */
  lemma FragmentShare(past: nat, visible: nat, all: nat)
    requires visible <= all && all > 0
    ensures var count := past as real + (visible as real / all as real) * 0.9;
      && past as real <= count < (past + 1) as real
      && (visible == 0 ==> count == past as real) && (visible == all ==> count == past as real + 0.9)
  {
    Share(visible, all);
    if visible == all { assert visible as real / all as real == 1.0; }
  }

  /** The count is a rank: below the number of leaf slides, and smaller for an earlier slide. */
  lemma PastCountIsRank(d: Shape, a: View, b: View)
    requires Valid(d, a) && Valid(d, b)
    ensures PastCount(d, a) < Leaves(d)
    ensures PastCount(d, a) < PastCount(d, b) <==> a.h < b.h || (a.h == b.h && a.v < b.v)
  {
    LeavesStep(d, a.h);
    LeavesStep(d, b.h);
    LeavesGrow(d, a.h + 1, |d|);
    assert d[..|d|] == d;
    if a.h < b.h { LeavesGrow(d, a.h + 1, b.h); }
    if b.h < a.h { LeavesGrow(d, b.h + 1, a.h); }
  }
}
