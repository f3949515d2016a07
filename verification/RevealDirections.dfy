/** Where each direction leads, in every configuration, told by indices and by positions in document order. */
module RevealDirections {
  import opened Wrappers
  import opened RevealView
  import opened RevealNavigation

  /** A fragment group is left on the side of the slide that is gone to. */
  predicate FragmentLeft(d: Shape, s: View, forward: bool)
    requires Valid(d, s)
  {
    if forward then s.k + 1 < Groups(d, s) else s.k >= 0
  }

  /** Slide and memory stay, and the stop is the next or the previous one. */
  predicate StopsBy(d: Shape, s: View, n: View, forward: bool)
    requires Valid(d, s) && Valid(d, n)
  {
    n.h == s.h && n.v == s.v && n.mem == s.mem && Position(d, n) == Position(d, s) + if forward then 1 else -1
  }

  /** Another slide is shown: with all its fragments if it comes earlier in the document, else with none. The stack left behind
      remembers its slide. */
  predicate Arrives(d: Shape, s: View, n: View, h: nat, v: nat)
    requires Valid(d, s) && Valid(d, n)
  {
    && n.h == h && n.v == v
    && (if h < s.h || (h == s.h && v < s.v) then n.k == Groups(d, n) - 1 else n.k == -1)
    && forall x :: 0 <= x < |d| ==> n.mem[x] == if x == s.h && d[x].stack then s.v else s.mem[x]
  }

  /** The index one step away among `n`, where looping joins the ends of several. */
  function Neighbour(cfg: Config, i: nat, n: nat, forward: bool): Option<nat>
    requires i < n
  {
    if forward then (if i + 1 < n then Some(i + 1) else if cfg.loop && n > 1 then Some(0) else None)
    else if i > 0 then Some(i - 1) else if cfg.loop && n > 1 then Some(n - 1) else None
  }

  /** The vertical index with which slide `x` is entered from the side: the current one in a grid, else the author's or the
      remembered one, but 0 round the end of a looped deck; brought into range. */
  function EntryV(d: Shape, cfg: Config, s: View, x: nat, forward: bool): nat
    requires Valid(d, s) && x < |d|
  {
    var n := |d[x].groups|;
    var round := if forward then x < s.h else s.h < x;
    var wanted := if cfg.grid then s.v else if round then 0 else if d[x].startV.Some? then d[x].startV.value else s.mem[x];
    if !d[x].stack then 0
    else if cfg.loop then wanted % n
    else if wanted < 0 then 0 else if wanted < n then wanted else n - 1
  }

  lemma FragmentStops(d: Shape, s: View, forward: bool)
    requires Valid(d, s)
    ensures var f := NavigateFragment(d, s, None, if forward then 1 else -1);
      (f.k != s.k <==> FragmentLeft(d, s, forward)) && (FragmentLeft(d, s, forward) ==> StopsBy(d, s, f, forward))
  {
  }

  lemma StepBounded(cfg: Config, i: nat, n: nat, forward: bool)
    requires i < n && Neighbour(cfg, i, n, forward).Some?
    ensures Bounded(cfg, if forward then i + 1 else i - 1, n) == Neighbour(cfg, i, n, forward).value
  {
    var j: int := if forward then i + 1 else i - 1;
    if !(0 <= j < n) {
      BoundedMeaning(cfg, j, n);
      if forward { ShiftMod(1, n, 0); } else { ShiftMod(-1, n, n - 1); }
    }
  }

  /** The index that the code asks for, brought into range, is the entry. */
  lemma EntryIs(d: Shape, cfg: Config, s: View, x: nat, forward: bool)
    requires Valid(d, s) && Neighbour(cfg, s.h, |d|, forward) == Some(x) && x < |d| && d[x].stack
    ensures var wanted := if cfg.grid then s.v else RememberedV(d, s.mem, Some(if forward then s.h + 1 else s.h - 1));
      EntryV(d, cfg, s, x, forward) == Bounded(cfg, wanted, |d[x].groups|)
  {
    var wanted := if cfg.grid then s.v else RememberedV(d, s.mem, Some(if forward then s.h + 1 else s.h - 1));
    BoundedMeaning(cfg, wanted, |d[x].groups|);
  }

  lemma SidewaysArrives(d: Shape, cfg: Config, s: View, forward: bool, x: nat)
    requires Valid(d, s) && Neighbour(cfg, s.h, |d|, forward) == Some(x)
    ensures x < |d| && Arrives(d, s, Sideways(d, cfg, s, if forward then 1 else -1), x, EntryV(d, cfg, s, x, forward))
  {
    StepBounded(cfg, s.h, |d|, forward);
    if d[x].stack { EntryIs(d, cfg, s, x, forward); }
  }

  /** Left and right go by a fragment, else to the neighbouring slide; which of them goes forward depends on the writing direction. */
  lemma Sidestep(d: Shape, cfg: Config, s: View, left: bool)
    requires Valid(d, s)
    ensures var n, forward := if left then NavigateLeft(d, cfg, s) else NavigateRight(d, cfg, s), left == cfg.rtl;
      if FragmentLeft(d, s, forward) then StopsBy(d, s, n, forward)
      else match Neighbour(cfg, s.h, |d|, forward)
        case Some(x) => x < |d| && Arrives(d, s, n, x, EntryV(d, cfg, s, x, forward))
        case None => n == s
    ensures var routes := AvailableRoutes(d, cfg, s);
      (if left then routes.left else routes.right) <==> Neighbour(cfg, s.h, |d|, left == cfg.rtl).Some?
  {
    var forward := left == cfg.rtl;
    FragmentStops(d, s, forward);
    if Neighbour(cfg, s.h, |d|, forward).Some? { SidewaysArrives(d, cfg, s, forward, Neighbour(cfg, s.h, |d|, forward).value); }
  }

  /** Up and down go by a fragment, else to the neighbouring slide of the stack. */
  lemma Upright(d: Shape, cfg: Config, s: View, up: bool)
    requires Valid(d, s)
    ensures var n, forward := if up then NavigateUp(d, cfg, s) else NavigateDown(d, cfg, s), !up;
      if FragmentLeft(d, s, forward) then StopsBy(d, s, n, forward)
      else match Neighbour(cfg, s.v, |d[s.h].groups|, forward)
        case Some(v) => Arrives(d, s, n, s.h, v)
        case None => n == s
    ensures var routes := AvailableRoutes(d, cfg, s);
      (if up then routes.up else routes.down) <==> Neighbour(cfg, s.v, |d[s.h].groups|, !up).Some?
  {
    var forward := !up;
    FragmentStops(d, s, forward);
    if Neighbour(cfg, s.v, |d[s.h].groups|, forward).Some? { StepBounded(cfg, s.v, |d[s.h].groups|, forward); }
  }

  /** Next goes by a fragment, else down its stack, else to the next slide. A looped stack is left at its end, unless it is the
      whole deck. */
  lemma Forwards(d: Shape, cfg: Config, s: View)
    requires Valid(d, s)
    ensures var n, height := NavigateNext(d, cfg, s), |d[s.h].groups|;
      if FragmentLeft(d, s, true) then StopsBy(d, s, n, true)
      else if s.v + 1 < height then Arrives(d, s, n, s.h, s.v + 1)
      else if cfg.loop && |d| == 1 && height > 1 then Arrives(d, s, n, 0, 0)
      else match Neighbour(cfg, s.h, |d|, true)
        case Some(x) => x < |d| && Arrives(d, s, n, x, EntryV(d, cfg, s, x, true))
        case None => n == s
  {
    FragmentStops(d, s, true);
    Upright(d, cfg, s, false);
    Sidestep(d, cfg, s, cfg.rtl);
    Sidestep(d, cfg, s, false);
  }

  /** Previous goes by a fragment, else up its stack, which may be looped, else to the end of the slide before. */
  lemma Backwards(d: Shape, cfg: Config, s: View)
    requires Valid(d, s)
    ensures var n := NavigatePrev(d, cfg, s);
      if FragmentLeft(d, s, false) then StopsBy(d, s, n, false)
      else match Neighbour(cfg, s.v, |d[s.h].groups|, false)
        case Some(v) => Arrives(d, s, n, s.h, v)
        case None => if s.h > 0 then Arrives(d, s, n, s.h - 1, |d[s.h - 1].groups| - 1) else n == s
  {
    FragmentStops(d, s, false);
    Upright(d, cfg, s, true);
    if s.h > 0 {
      var height := |d[s.h - 1].groups|;
      BoundedMeaning(cfg, height - 1, height);
    }
  }

  /** Without looping each previous makes exactly the stop before, in document order, until there is none: whatever the stacks
      remember and wherever the author lets them start. */
  lemma PrevRetreats(d: Shape, cfg: Config, s: View)
    requires Valid(d, s) && !cfg.loop
    ensures var n := NavigatePrev(d, cfg, s);
      if Position(d, s) > 0 then Position(d, n) == Position(d, s) - 1 else n == s
  {
    var n := NavigatePrev(d, cfg, s);
    Backwards(d, cfg, s);
    if !FragmentLeft(d, s, false) {
      if s.v > 0 {
        PositionDown(d, n, s);
      } else if s.h > 0 {
        PositionRight(d, n, s);
      } else {
        assert d[..0] == [] && d[0].groups[..0] == [];
      }
    }
  }

  /** The index asked for, brought into range: round the ends of a looped deck, else to the nearest. */
  function InRange(cfg: Config, i: int, n: nat): nat
    requires n > 0
  {
    if cfg.loop then i % n else if i < 0 then 0 else if i < n then i else n - 1
  }

  /** Going to given indices: without a horizontal one it stays in the slide, without a vertical one a stack is entered where
      the author or its memory says. Where that is the slide shown already its fragments stay, and a fragment that is named
      becomes the last visible one, as far as there are any. */
  lemma GoesTo(d: Shape, cfg: Config, s: View, h: Option<int>, v: Option<int>, f: Option<int>)
    requires Valid(d, s)
    ensures var n := Slide(d, cfg, s, h, v, None);
      && n.h == (if h.Some? then InRange(cfg, h.value, |d|) else s.h)
      && (v.Some? && d[n.h].stack ==> n.v == InRange(cfg, v.value, |d[n.h].groups|))
      && (v.None? && h.Some? && 0 <= h.value < |d| && d[n.h].stack ==>
            n.v == InRange(cfg, if d[n.h].startV.Some? then d[n.h].startV.value else s.mem[n.h], |d[n.h].groups|))
      && (if n.h == s.h && n.v == s.v then n.k == s.k else Arrives(d, s, n, n.h, n.v))
      && (f.Some? ==> Slide(d, cfg, s, h, v, f) == n.(k := if f.value < -1 then -1 else if f.value < Groups(d, n) then f.value else Groups(d, n) - 1))
  {
    var n := Slide(d, cfg, s, h, v, None);
    BoundedMeaning(cfg, if h.Some? then h.value else s.h, |d|);
    var target := if v.Some? then v.value else RememberedV(d, s.mem, h);
    BoundedMeaning(cfg, target, |d[n.h].groups|);
    if h.Some? && 0 <= h.value < |d| { assert n.h == h.value; }
  }

  /** A group that is named is gone to as if the viewer stood there. */
  lemma NamedFragment(d: Shape, s: View, i: int, offset: int)
    requires Valid(d, s) && -1 <= i < Groups(d, s)
    ensures NavigateFragment(d, s, Some(i), 0) == s.(k := i)
    ensures NavigateFragment(d, s, Some(i), offset) == NavigateFragment(d, s.(k := i), None, offset)
  {
  }
}
