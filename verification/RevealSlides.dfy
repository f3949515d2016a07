/** The sections and fragments of a deck with their classes and attributes, and what one pass over them leaves behind. */
module RevealSlides {
  import opened Wrappers
  import opened RevealView
  import opened RevealFragments

  /** `data-fragment-index` and the classes `visible` and `current-fragment`. */
  datatype Fragment = Fragment(index: Option<nat>, visible: bool, current: bool)

  /** Which of the classes `past`, `present` and `future` a section has. */
  datatype Class = NoClass | Past | Present | Future

  datatype Leaf = Leaf(cls: Class, fragments: seq<Fragment>)

  /** A section on the first level. A plain slide is represented with one leaf, whose class is never set: its fragments
      are the slide's own. */
  datatype HSlide = HSlide(cls: Class, stack: bool, startV: Option<int>, previousV: nat, leaves: seq<Leaf>)

  type Deck = seq<HSlide>

  predicate Within(deck: Deck, h: nat, v: nat) {
    h < |deck| && v < |deck[h].leaves|
  }

  function Frags(deck: Deck, h: nat, v: nat): seq<Fragment>
    requires Within(deck, h, v)
  {
    deck[h].leaves[v].fragments
  }

  function SetFrags(deck: Deck, h: nat, v: nat, frs: seq<Fragment>): Deck
    requires Within(deck, h, v)
  {
    deck[h := deck[h].(leaves := deck[h].leaves[v := deck[h].leaves[v].(fragments := frs)])]
  }

  function Attrs(frs: seq<Fragment>): seq<Option<nat>> {
    seq(|frs|, i requires 0 <= i < |frs| => frs[i].index)
  }

  function GroupsOf(frs: seq<Fragment>): nat {
    GroupCount(Attrs(frs))
  }

  function ShapeOfSlide(s: HSlide): HShape {
    HShape(s.stack, s.startV, seq(|s.leaves|, y requires 0 <= y < |s.leaves| => GroupsOf(s.leaves[y].fragments)))
  }

  function ShapeOf(deck: Deck): Shape {
    seq(|deck|, x requires 0 <= x < |deck| => ShapeOfSlide(deck[x]))
  }

  function MemoryOf(deck: Deck): seq<nat> {
    seq(|deck|, x requires 0 <= x < |deck| => deck[x].previousV)
  }

  // ---------- what is visible ----------

  ghost predicate AllNumbered(deck: Deck) {
    forall x, y :: Within(deck, x, y) ==> Numbered(Attrs(Frags(deck, x, y)), GroupsOf(Frags(deck, x, y)))
  }

  /** The groups up to `k` are visible. */
  ghost predicate Shows(frs: seq<Fragment>, k: int) {
    forall i :: 0 <= i < |frs| ==> frs[i].index.Some? && (frs[i].visible <==> frs[i].index.value <= k)
  }

  ghost predicate Unmarked(frs: seq<Fragment>) {
    forall i :: 0 <= i < |frs| ==> !frs[i].current
  }

  /** The fragments of group `k`, and no others, are marked as current. */
  ghost predicate MarkedAt(frs: seq<Fragment>, k: int) {
    forall i :: 0 <= i < |frs| ==> (frs[i].current <==> frs[i].index.Some? && frs[i].index.value == k)
  }

  /** With the slide at `h`, `v` shown up to group `k`: the last visible group of the leaf at `x`, `y`, which has `g`. */
  function Level(h: nat, v: nat, k: int, x: nat, y: nat, g: nat): int {
    if x == h && y == v then k else if x < h || (x == h && y < v) then g - 1 else -1
  }

  ghost predicate LeafShows(deck: Deck, h: nat, v: nat, k: int, x: nat, y: nat)
    requires Within(deck, x, y)
  {
    var frs := Frags(deck, x, y);
    && Shows(frs, Level(h, v, k, x, y, GroupsOf(frs)))
    && (if x == h && y == v then MarkedAt(frs, k) || (Unmarked(frs) && (k == -1 || k == GroupsOf(frs) - 1)) else Unmarked(frs))
  }

  /** The visible fragments are a prefix of reading order: everything before the current slide, nothing after it, and the
      leading groups of the current slide. Only its last visible group may be marked current; the mark can be missing
      only where all or none are visible. */
  ghost predicate DeckShows(deck: Deck, h: nat, v: nat, k: int) {
    && Within(deck, h, v) && -1 <= k < GroupsOf(Frags(deck, h, v))
    && forall x, y :: Within(deck, x, y) ==> LeafShows(deck, h, v, k, x, y)
  }

  // ---------- updateSlides ----------

  function ShowFrags(frs: seq<Fragment>): seq<Fragment> {
    seq(|frs|, i requires 0 <= i < |frs| => frs[i].(visible := true, current := false))
  }

  function HideFrags(frs: seq<Fragment>): seq<Fragment> {
    seq(|frs|, i requires 0 <= i < |frs| => if frs[i].visible then frs[i].(visible := false, current := false) else frs[i])
  }

  function MapLeaves(s: HSlide, show: bool): HSlide {
    s.(leaves := seq(|s.leaves|, y requires 0 <= y < |s.leaves| =>
      s.leaves[y].(fragments := if show then ShowFrags(s.leaves[y].fragments) else HideFrags(s.leaves[y].fragments))))
  }

  /** The class of the element at `i` when the one at `index` is shown; `reverse` in right-to-left decks. */
  function ClassAt(i: int, index: int, reverse: bool): Class {
    if i == index then Present else if (i < index) != reverse then Past else Future
  }

  /** One pass of `updateSlides` over a horizontal slide. */
  function PassH(s: HSlide, i: nat, index: nat, rtl: bool): HSlide {
    (if i < index then MapLeaves(s, true) else if i > index then MapLeaves(s, false) else s).(cls := ClassAt(i, index, rtl))
  }

  /** One pass over a vertical slide; these are never reversed. */
  function PassV(l: Leaf, i: nat, index: nat): Leaf {
    Leaf(ClassAt(i, index, false),
         if i < index then ShowFrags(l.fragments) else if i > index then HideFrags(l.fragments) else l.fragments)
  }

  function AfterH(deck: Deck, index: nat, rtl: bool): (r: Deck) {
    seq(|deck|, i requires 0 <= i < |deck| => PassH(deck[i], i, index, rtl))
  }

  function AfterV(deck: Deck, h: nat, index: nat): (r: Deck)
    requires h < |deck|
  {
    if deck[h].stack then
      deck[h := deck[h].(leaves := seq(|deck[h].leaves|, y requires 0 <= y < |deck[h].leaves| => PassV(deck[h].leaves[y], y, index)))]
    else deck
  }

  lemma AttrsSame(frs: seq<Fragment>)
    ensures Attrs(ShowFrags(frs)) == Attrs(frs) && Attrs(HideFrags(frs)) == Attrs(frs)
  {
  }

  /** The fragments of the leaf at `x`, `y` after both passes. */
  lemma FragsAfter(deck: Deck, h: nat, v: nat, rtl: bool, x: nat, y: nat)
    requires Within(deck, h, v) && Within(deck, x, y) && (!deck[h].stack ==> |deck[h].leaves| == 1)
    ensures Within(AfterV(AfterH(deck, h, rtl), h, v), x, y)
    ensures var before, after := Frags(deck, x, y), Frags(AfterV(AfterH(deck, h, rtl), h, v), x, y);
      && Attrs(after) == Attrs(before)
      && after == if x == h && y == v then before
                  else if x < h || (x == h && y < v) then ShowFrags(before) else HideFrags(before)
  {
    AttrsSame(Frags(deck, x, y));
  }

  lemma ShapeAfter(deck: Deck, h: nat, v: nat, rtl: bool)
    requires Within(deck, h, v) && forall x :: 0 <= x < |deck| && !deck[x].stack ==> |deck[x].leaves| == 1
    ensures var d := AfterV(AfterH(deck, h, rtl), h, v); ShapeOf(d) == ShapeOf(deck) && MemoryOf(d) == MemoryOf(deck)
  {
    var d := AfterV(AfterH(deck, h, rtl), h, v);
    assert |d| == |deck|;
    forall x | 0 <= x < |deck| ensures ShapeOfSlide(d[x]) == ShapeOfSlide(deck[x]) && d[x].previousV == deck[x].previousV {
      var a, b := ShapeOfSlide(d[x]).groups, ShapeOfSlide(deck[x]).groups;
      assert |a| == |b|;
      forall y | 0 <= y < |b| ensures a[y] == b[y] {
        assert Within(deck, x, y);
        FragsAfter(deck, h, v, rtl, x, y);
        assert a[y] == GroupsOf(Frags(d, x, y)) && b[y] == GroupsOf(Frags(deck, x, y));
      }
      assert a == b;
    }
  }

  /** Both passes keep the invariant, for the new slide; whether it was passed before or not decides what it shows. */
  lemma ShownAfter(deck: Deck, h: nat, v: nat, k: int, h': nat, v': nat, rtl: bool)
    requires AllNumbered(deck) && DeckShows(deck, h, v, k) && Within(deck, h', v')
    requires forall x :: 0 <= x < |deck| && !deck[x].stack ==> |deck[x].leaves| == 1
    ensures var d := AfterV(AfterH(deck, h', rtl), h', v');
      AllNumbered(d) && DeckShows(d, h', v', Level(h, v, k, h', v', GroupsOf(Frags(deck, h', v'))))
  {
    var d := AfterV(AfterH(deck, h', rtl), h', v');
    var k' := Level(h, v, k, h', v', GroupsOf(Frags(deck, h', v')));
    FragsAfter(deck, h', v', rtl, h', v');
    assert LeafShows(deck, h, v, k, h', v');
    forall x, y | Within(d, x, y)
      ensures LeafShows(d, h', v', k', x, y) && Numbered(Attrs(Frags(d, x, y)), GroupsOf(Frags(d, x, y)))
    {
      FragsAfter(deck, h', v', rtl, x, y);
      assert LeafShows(deck, h, v, k, x, y) && Numbered(Attrs(Frags(deck, x, y)), GroupsOf(Frags(deck, x, y)));
      LeafAfter(Frags(deck, x, y), Level(h, v, k, x, y, GroupsOf(Frags(deck, x, y))));
    }
  }

  lemma LeafAfter(frs: seq<Fragment>, k: int)
    requires Shows(frs, k) && Numbered(Attrs(frs), GroupsOf(frs))
    requires forall i :: 0 <= i < |frs| && frs[i].current ==> frs[i].visible
    ensures Shows(ShowFrags(frs), GroupsOf(frs) - 1) && Unmarked(ShowFrags(frs))
    ensures Shows(HideFrags(frs), -1) && Unmarked(HideFrags(frs))
  {
    forall i | 0 <= i < |frs| ensures frs[i].index.value < GroupsOf(frs) { assert Attrs(frs)[i].value in Explicit(Attrs(frs)); }
  }
}
