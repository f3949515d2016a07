/**
 A presentation as its viewer meets it: the slide shown, and how many fragment groups of it are visible.
 `RevealPresentation` shows that reveal.js, with its class flags and attributes, is always in such a state.
 Fragments are enabled, the overview is closed and nothing is printed.
 */
module RevealView {
  import opened Wrappers

  datatype Config = Config(loop: bool, rtl: bool, grid: bool, hashOneBased: bool, fragmentInURL: bool)

  /** A horizontal slide: a plain slide, or a stack of vertical ones; `groups` holds the number of fragment groups of
      each leaf slide, and `startV` the author's `data-start-indexv`. */
  datatype HShape = HShape(stack: bool, startV: Option<int>, groups: seq<nat>)

  type Shape = seq<HShape>

  /** Horizontal and vertical index, the last visible fragment group (-1 for none), and the vertical index remembered for each stack. */
  datatype View = View(h: nat, v: nat, k: int, mem: seq<nat>)

  predicate ValidShape(d: Shape) {
    d != [] && forall x :: 0 <= x < |d| ==> d[x].groups != [] && (!d[x].stack ==> |d[x].groups| == 1)
  }

  predicate Valid(d: Shape, s: View) {
    && ValidShape(d)
    && s.h < |d| && s.v < |d[s.h].groups| && -1 <= s.k < d[s.h].groups[s.v] && |s.mem| == |d|
  }

  function Groups(d: Shape, s: View): nat
    requires ValidShape(d) && s.h < |d| && s.v < |d[s.h].groups|
  {
    d[s.h].groups[s.v]
  }

  // ---------- indices ----------

  /** JavaScript's `%`: the remainder has the sign of the dividend. */
  function TruncatedMod(i: int, n: int): int
    requires n > 0
  {
    if i >= 0 then i % n else -((-i) % n)
  }

  function Clamp(i: int, lo: int, hi: int): (r: int)
    requires lo <= hi
    ensures lo <= r <= hi && (lo <= i <= hi ==> r == i)
  {
    if i < lo then lo else if i > hi then hi else i
  }

  /** The index `updateSlides` settles on among `n` slides: looped if the configuration says so, then clamped. */
  function Bounded(cfg: Config, i: int, n: nat): (r: nat)
    requires n > 0
    ensures r < n && (0 <= i < n ==> r == i)
  {
    var j := if cfg.loop then (var m := TruncatedMod(i, n); if m < 0 then n + m else m) else i;
    Clamp(j, 0, n - 1)
  }

  lemma BoundedMeaning(cfg: Config, i: int, n: nat)
    requires n > 0
    ensures Bounded(cfg, i, n) == if cfg.loop then i % n else if i < 0 then 0 else if i >= n then n - 1 else i
  {
    if cfg.loop && i < 0 {
      var q, r := (-i) / n, (-i) % n;
      assert i == n * (-q) - r;
      assert n * (-q) == n * (-q - 1) + n;
      if r == 0 { ShiftMod(-q, n, 0); } else { ShiftMod(-q - 1, n, n - r); }
    }
  }

  lemma ProductBound(n: int, t: int)
    requires n > 0
    ensures (t >= 1 ==> n * t >= n) && (t <= -1 ==> n * t <= -n)
  {
    if t >= 1 { assert n * (t - 1) >= 0; } else if t <= -1 { assert n * (-t - 1) >= 0; }
  }

  lemma ShiftMod(q: int, n: nat, r: nat)
    requires r < n
    ensures (n * q + r) % n == r
  {
    var x := n * q + r;
    ProductBound(n, x / n - q);
    assert n * (x / n - q) == n * (x / n) - n * q;
  }

  /** `getPreviousVerticalIndex` of the slide at `h`, which may be undefined or out of range. */
  function RememberedV(d: Shape, mem: seq<nat>, h: Option<int>): int
    requires |mem| == |d|
  {
    if h.Some? && 0 <= h.value < |d| && d[h.value].stack then
      (if d[h.value].startV.Some? then d[h.value].startV.value else mem[h.value])
    else 0
  }

  // ---------- operations ----------

  /** `slide( h, v, f )`, an absent argument being undefined. */
  function Slide(d: Shape, cfg: Config, s: View, h: Option<int>, v: Option<int>, f: Option<int>): (r: View)
    requires Valid(d, s)
    ensures Valid(d, r)
  {
    var target := if v.Some? then v.value else RememberedV(d, s.mem, h);
    var h' := Bounded(cfg, if h.Some? then h.value else s.h, |d|);
    var v' := if d[h'].stack then Bounded(cfg, target, |d[h'].groups|) else 0;
    var g: int := d[h'].groups[v'];
    var k := if (h', v') == (s.h, s.v) then s.k else if h' < s.h || (h' == s.h && v' < s.v) then g - 1 else -1;
    View(h', v', if f.Some? then Clamp(f.value, -1, g - 1) else k, if d[s.h].stack then s.mem[s.h := s.v] else s.mem)
  }

  /** `navigateFragment( index, offset )`; without an index it starts from the last visible group. */
  function NavigateFragment(d: Shape, s: View, index: Option<int>, offset: int): (r: View)
    requires Valid(d, s)
    ensures Valid(d, r)
  {
    s.(k := Clamp((if index.Some? then index.value else s.k) + offset, -1, Groups(d, s) - 1))
  }

  datatype Routes = Routes(left: bool, right: bool, up: bool, down: bool)

  function AvailableRoutes(d: Shape, cfg: Config, s: View): Routes
    requires Valid(d, s)
  {
    var n := if d[s.h].stack then |d[s.h].groups| else 0;
    var left := s.h > 0 || (cfg.loop && |d| > 1);
    var right := s.h < |d| - 1 || (cfg.loop && |d| > 1);
    Routes(if cfg.rtl then right else left, if cfg.rtl then left else right,
           s.v > 0 || (cfg.loop && n > 1), s.v < n - 1 || (cfg.loop && n > 1))
  }

  function GridV(cfg: Config, s: View): Option<int> {
    if cfg.grid then Some(s.v) else None
  }

  /** `slide( indexh + offset, grid ? indexv : undefined )` */
  function Sideways(d: Shape, cfg: Config, s: View, offset: int): (r: View)
    requires Valid(d, s)
    ensures Valid(d, r)
  {
    Slide(d, cfg, s, Some(s.h + offset), GridV(cfg, s), None)
  }

  function NavigateLeft(d: Shape, cfg: Config, s: View): (r: View)
    requires Valid(d, s)
    ensures Valid(d, r)
  {
    var f := NavigateFragment(d, s, None, if cfg.rtl then 1 else -1);
    if f.k != s.k then f
    else if AvailableRoutes(d, cfg, s).left then Sideways(d, cfg, s, if cfg.rtl then 1 else -1)
    else s
  }

  function NavigateRight(d: Shape, cfg: Config, s: View): (r: View)
    requires Valid(d, s)
    ensures Valid(d, r)
  {
    var f := NavigateFragment(d, s, None, if cfg.rtl then -1 else 1);
    if f.k != s.k then f
    else if AvailableRoutes(d, cfg, s).right then Sideways(d, cfg, s, if cfg.rtl then -1 else 1)
    else s
  }

  function NavigateUp(d: Shape, cfg: Config, s: View): (r: View)
    requires Valid(d, s)
    ensures Valid(d, r)
  {
    var f := NavigateFragment(d, s, None, -1);
    if f.k != s.k then f
    else if AvailableRoutes(d, cfg, s).up then Slide(d, cfg, s, Some(s.h), Some(s.v - 1), None)
    else s
  }

  function NavigateDown(d: Shape, cfg: Config, s: View): (r: View)
    requires Valid(d, s)
    ensures Valid(d, r)
  {
    var f := NavigateFragment(d, s, None, 1);
    if f.k != s.k then f
    else if AvailableRoutes(d, cfg, s).down then Slide(d, cfg, s, Some(s.h), Some(s.v + 1), None)
    else s
  }

  /** The vertical index with which `navigatePrev` enters a slide: `( n - 1 ) || undefined` for its `n` vertical slides. */
  function LastV(shape: HShape): Option<int> {
    var n := if shape.stack then |shape.groups| else 0;
    if n == 1 then None else Some(n - 1)
  }

  function NavigatePrev(d: Shape, cfg: Config, s: View): (r: View)
    requires Valid(d, s)
    ensures Valid(d, r)
  {
    var f := NavigateFragment(d, s, None, -1);
    if f.k != s.k then f
    else if AvailableRoutes(d, cfg, s).up then NavigateUp(d, cfg, s)
    else if s.h > 0 then Slide(d, cfg, s, Some(s.h - 1), LastV(d[s.h - 1]), None)
    else s
  }

  function NavigateNext(d: Shape, cfg: Config, s: View): (r: View)
    requires Valid(d, s)
    ensures Valid(d, r)
  {
    var f := NavigateFragment(d, s, None, 1);
    if f.k != s.k then f
    else
      var routes := AvailableRoutes(d, cfg, s);
      var lastVertical := d[s.h].stack && s.v == |d[s.h].groups| - 1;
      if routes.down && !(routes.right && cfg.loop && lastVertical) then NavigateDown(d, cfg, s)
      else if cfg.rtl then NavigateLeft(d, cfg, s)
      else NavigateRight(d, cfg, s)
  }

  /** The timeout set on reaching the first slide: every stack forgets its vertical index. */
  function ForgetAll(s: View): View {
    s.(mem := seq(|s.mem|, _ => 0))
  }

  /** Anything that can happen to a presentation. */
  datatype Action =
    | GoTo(h: Option<int>, v: Option<int>, f: Option<int>)
    | Fragment(index: Option<int>, offset: int)
    | Left | Right | Up | Down | Prev | Next
    | Forget

  function Do(d: Shape, cfg: Config, s: View, a: Action): (r: View)
    requires Valid(d, s)
    ensures Valid(d, r)
  {
    match a
    case GoTo(h, v, f) => Slide(d, cfg, s, h, v, f)
    case Fragment(index, offset) => NavigateFragment(d, s, index, offset)
    case Left => NavigateLeft(d, cfg, s)
    case Right => NavigateRight(d, cfg, s)
    case Up => NavigateUp(d, cfg, s)
    case Down => NavigateDown(d, cfg, s)
    case Prev => NavigatePrev(d, cfg, s)
    case Next => NavigateNext(d, cfg, s)
    case Forget => ForgetAll(s)
  }

  function DoAll(d: Shape, cfg: Config, s: View, actions: seq<Action>): (r: View)
    requires Valid(d, s)
    ensures Valid(d, r)
    decreases |actions|
  {
    if actions == [] then s else DoAll(d, cfg, Do(d, cfg, s, actions[0]), actions[1..])
  }

  function Fresh(d: Shape): (s: View)
    requires ValidShape(d)
    ensures Valid(d, s)
  {
    View(0, 0, -1, seq(|d|, _ => 0))
  }

  /** The same slide with the same fragments visible. */
  predicate Same(a: View, b: View) {
    a.h == b.h && a.v == b.v && a.k == b.k
  }
}
