/** The presentation object: its methods change classes, attributes and indices in place, and each is proved to do to the
    view exactly what `RevealView` says. */
module RevealPresentation {
  import opened Wrappers
  import V = RevealView
  import opened RevealView
  import opened RevealFragments
  import opened RevealSlides
  import opened RevealDeck
  import N = RevealNavigation
  import H = RevealHash

  // ---------- classes ----------

  /** Exactly the slide at `h` is present on the first level, and on the second exactly the leaf at `v` of its stack. */
  ghost predicate ClassesOk(deck: Deck, rtl: bool, h: nat, v: nat) {
    && (forall x :: 0 <= x < |deck| ==> deck[x].cls == ClassAt(x, h, rtl))
    && (forall x, y :: Within(deck, x, y) ==> LeafClassOk(deck, h, v, x, y))
  }

  ghost predicate LeafClassOk(deck: Deck, h: nat, v: nat, x: nat, y: nat)
    requires Within(deck, x, y)
  {
    if !deck[x].stack then deck[x].leaves[y].cls == NoClass
    else if x == h then deck[x].leaves[y].cls == ClassAt(y, v, false)
    else deck[x].leaves[y].cls != Present
  }

  /** The same, but a slide of another stack at `at` may still be present as well. */
  ghost predicate ClassesExcept(deck: Deck, rtl: bool, h: nat, v: nat, at: Option<(nat, nat)>) {
    && (forall x :: 0 <= x < |deck| ==> deck[x].cls == ClassAt(x, h, rtl))
    && (forall x: nat, y: nat :: Within(deck, x, y) ==> LeafClassOk(deck, h, v, x, y) || (at == Some((x, y)) && x != h && deck[x].stack))
  }

  /** No leaf slide is marked present except perhaps the one at `at`. */
  ghost predicate PresentOnlyAt(deck: Deck, at: Option<(nat, nat)>) {
    forall x: nat, y: nat :: Within(deck, x, y) ==>
      (!deck[x].stack ==> deck[x].leaves[y].cls == NoClass) && (deck[x].leaves[y].cls == Present ==> at == Some((x, y)))
  }

  lemma ClassesAfter(deck: Deck, rtl: bool, h: nat, v: nat, at: Option<(nat, nat)>)
    requires Within(deck, h, v) && PresentOnlyAt(deck, at) && (!deck[h].stack ==> |deck[h].leaves| == 1)
    ensures ClassesExcept(AfterV(AfterH(deck, h, rtl), h, v), rtl, h, v, at)
  {
    var d := AfterV(AfterH(deck, h, rtl), h, v);
    forall x: nat, y: nat | Within(d, x, y)
      ensures LeafClassOk(d, h, v, x, y) || (at == Some((x, y)) && x != h && d[x].stack)
    {
      assert Within(deck, x, y);
    }
  }

  lemma NoneLeft(deck: Deck, rtl: bool, h: nat, v: nat, at: Option<(nat, nat)>)
    requires ClassesExcept(deck, rtl, h, v, at) && (at.Some? ==> at.value.0 == h)
    ensures ClassesOk(deck, rtl, h, v)
  {
    forall x: nat, y: nat | Within(deck, x, y) ensures LeafClassOk(deck, h, v, x, y) {}
  }

  lemma PresentAt(deck: Deck, rtl: bool, h: nat, v: nat)
    requires ClassesOk(deck, rtl, h, v)
    ensures PresentOnlyAt(deck, Some((h, v)))
  {
    forall x: nat, y: nat | Within(deck, x, y)
      ensures (!deck[x].stack ==> deck[x].leaves[y].cls == NoClass) && (deck[x].leaves[y].cls == Present ==> x == h && y == v)
    {
      assert LeafClassOk(deck, h, v, x, y);
    }
  }

  /** The classes alone. */
  function Classes(deck: Deck): seq<(Class, bool, seq<Class>)> {
    seq(|deck|, x requires 0 <= x < |deck| =>
      (deck[x].cls, deck[x].stack, seq(|deck[x].leaves|, y requires 0 <= y < |deck[x].leaves| => deck[x].leaves[y].cls)))
  }

  lemma SameClasses(a: Deck, b: Deck, rtl: bool, h: nat, v: nat, at: Option<(nat, nat)>)
    requires Classes(a) == Classes(b) && ClassesExcept(a, rtl, h, v, at)
    ensures ClassesExcept(b, rtl, h, v, at)
  {
    assert |a| == |b|;
    forall x | 0 <= x < |a|
      ensures a[x].cls == b[x].cls && a[x].stack == b[x].stack && |a[x].leaves| == |b[x].leaves|
      ensures forall y :: 0 <= y < |a[x].leaves| ==> a[x].leaves[y].cls == b[x].leaves[y].cls
    {
      assert Classes(a)[x] == Classes(b)[x];
      forall y | 0 <= y < |a[x].leaves| ensures a[x].leaves[y].cls == b[x].leaves[y].cls {
        assert Classes(a)[x].2[y] == Classes(b)[x].2[y];
      }
    }
    forall x: nat, y: nat | Within(b, x, y)
      ensures LeafClassOk(b, h, v, x, y) || (at == Some((x, y)) && x != h && b[x].stack)
    {
      assert Within(a, x, y);
    }
  }

  /** `classList.remove( 'present' )` */
  function Cleared(cls: Class): Class {
    if cls == Present then NoClass else cls
  }

  /** The same on the slide at `at`. */
  function WithoutPresent(deck: Deck, at: (nat, nat)): Deck
    requires Within(deck, at.0, at.1)
  {
    var s := deck[at.0];
    if s.stack then deck[at.0 := s.(leaves := s.leaves[at.1 := s.leaves[at.1].(cls := Cleared(s.leaves[at.1].cls))])]
    else deck[at.0 := s.(cls := Cleared(s.cls))]
  }

  /** Removing the mark from the slide that was left makes the classes right, and touches nothing else. */
  lemma PresentRemoved(deck: Deck, rtl: bool, h: nat, v: nat, at: (nat, nat))
    requires ClassesExcept(deck, rtl, h, v, Some(at)) && Within(deck, at.0, at.1) && Within(deck, h, v) && at != (h, v)
    requires !deck[h].stack ==> |deck[h].leaves| == 1
    ensures var d := WithoutPresent(deck, at);
      && ClassesOk(d, rtl, h, v) && ShapeOf(d) == ShapeOf(deck) && MemoryOf(d) == MemoryOf(deck)
      && (forall x, y :: Within(d, x, y) <==> Within(deck, x, y))
      && (forall x, y :: Within(deck, x, y) ==> Frags(d, x, y) == Frags(deck, x, y))
  {
    var d := WithoutPresent(deck, at);
    forall x: nat, y: nat | Within(d, x, y) ensures LeafClassOk(d, h, v, x, y) { assert Within(deck, x, y); }
    forall x | 0 <= x < |deck| ensures ShapeOfSlide(d[x]) == ShapeOfSlide(deck[x]) {
      assert ShapeOfSlide(d[x]).groups == ShapeOfSlide(deck[x]).groups;
    }
  }

  // ---------- setting fragments ----------

  lemma SetFragsOther(deck: Deck, h: nat, v: nat, frs: seq<Fragment>)
    requires Within(deck, h, v)
    ensures forall x, y :: Within(SetFrags(deck, h, v, frs), x, y) <==> Within(deck, x, y)
    ensures forall x, y :: Within(deck, x, y) ==>
      Frags(SetFrags(deck, h, v, frs), x, y) == if x == h && y == v then frs else Frags(deck, x, y)
    ensures MemoryOf(SetFrags(deck, h, v, frs)) == MemoryOf(deck)
    ensures Classes(SetFrags(deck, h, v, frs)) == Classes(deck)
  {
    var d := SetFrags(deck, h, v, frs);
    forall x | 0 <= x < |deck| ensures Classes(d)[x] == Classes(deck)[x] {
      assert Classes(d)[x].2 == Classes(deck)[x].2;
    }
  }

  lemma SetFragsSame(deck: Deck, h: nat, v: nat)
    requires Within(deck, h, v)
    ensures SetFrags(deck, h, v, Frags(deck, h, v)) == deck
  {
    assert deck[h].leaves[v := deck[h].leaves[v].(fragments := Frags(deck, h, v))] == deck[h].leaves;
  }

  lemma SetFragsShape(deck: Deck, h: nat, v: nat, frs: seq<Fragment>)
    requires Within(deck, h, v) && Attrs(frs) == Attrs(Frags(deck, h, v))
    ensures ShapeOf(SetFrags(deck, h, v, frs)) == ShapeOf(deck)
  {
    var d := SetFrags(deck, h, v, frs);
    forall x | 0 <= x < |deck| ensures ShapeOfSlide(d[x]) == ShapeOfSlide(deck[x]) {
      assert ShapeOfSlide(d[x]).groups == ShapeOfSlide(deck[x]).groups;
    }
  }

  lemma SetFragsShown(deck: Deck, h: nat, v: nat, k: int, frs: seq<Fragment>, k': int)
    requires AllNumbered(deck) && DeckShows(deck, h, v, k)
    requires Attrs(frs) == Attrs(Frags(deck, h, v)) && -1 <= k' < GroupsOf(frs) && Shows(frs, k')
    requires MarkedAt(frs, k') || (Unmarked(frs) && (k' == -1 || k' == GroupsOf(frs) - 1))
    ensures AllNumbered(SetFrags(deck, h, v, frs)) && DeckShows(SetFrags(deck, h, v, frs), h, v, k')
  {
    var d := SetFrags(deck, h, v, frs);
    SetFragsOther(deck, h, v, frs);
    forall x, y | Within(d, x, y)
      ensures LeafShows(d, h, v, k', x, y) && Numbered(Attrs(Frags(d, x, y)), GroupsOf(Frags(d, x, y)))
    {
      assert LeafShows(deck, h, v, k, x, y) && Numbered(Attrs(Frags(deck, x, y)), GroupsOf(Frags(deck, x, y)));
    }
  }

  // ---------- start ----------

  /** A deck before reveal.js has touched it. */
  ghost predicate Untouched(deck: Deck) {
    && deck != []
    && (forall x :: 0 <= x < |deck| ==> deck[x].leaves != [] && (!deck[x].stack ==> |deck[x].leaves| == 1) && deck[x].previousV == 0)
    && (forall x: nat, y: nat :: Within(deck, x, y) ==>
          deck[x].leaves[y].cls == NoClass
          && forall i :: 0 <= i < |Frags(deck, x, y)| ==> !Frags(deck, x, y)[i].visible && !Frags(deck, x, y)[i].current)
  }

  function SortedLeaf(l: Leaf): Leaf {
    var attrs := Attrs(l.fragments);
    l.(fragments := seq(|l.fragments|, i requires 0 <= i < |l.fragments| => l.fragments[i].(index := Some(Rank(attrs, i)))))
  }

  function SortedSlide(s: HSlide): HSlide {
    s.(leaves := seq(|s.leaves|, y requires 0 <= y < |s.leaves| => SortedLeaf(s.leaves[y])))
  }

  function SortedDeck(deck: Deck): Deck {
    seq(|deck|, x requires 0 <= x < |deck| => SortedSlide(deck[x]))
  }

  function ResetSlide(s: HSlide): HSlide {
    if s.stack then
      s.(leaves := seq(|s.leaves|, y requires 0 <= y < |s.leaves| => if y > 0 then s.leaves[y].(cls := Future) else s.leaves[y]))
    else s
  }

  function ResetDeck(deck: Deck): Deck {
    seq(|deck|, x requires 0 <= x < |deck| => ResetSlide(deck[x]))
  }

  /** Numbering all fragments of an untouched deck leaves its groups as many as they were, and nothing visible. */
  lemma Started(deck0: Deck, rtl: bool)
    requires Untouched(deck0)
    ensures var deck := ResetDeck(SortedDeck(deck0));
      && ShapeOf(deck) == ShapeOf(deck0) && ValidShape(ShapeOf(deck)) && AllNumbered(deck) && DeckShows(deck, 0, 0, -1)
      && PresentOnlyAt(deck, None) && MemoryOf(deck) == seq(|deck0|, _ => 0)
  {
    var deck := ResetDeck(SortedDeck(deck0));
    forall x: nat, y: nat | Within(deck, x, y)
      ensures Within(deck0, x, y) && Frags(deck, x, y) == SortedLeaf(deck0[x].leaves[y]).fragments
      ensures GroupsOf(Frags(deck, x, y)) == GroupsOf(Frags(deck0, x, y))
      ensures LeafShows(deck, 0, 0, -1, x, y) && Numbered(Attrs(Frags(deck, x, y)), GroupsOf(Frags(deck, x, y)))
    {
      SortedNumbered(deck0[x].leaves[y]);
    }
    forall x | 0 <= x < |deck| ensures ShapeOfSlide(deck[x]) == ShapeOfSlide(deck0[x]) && deck[x].leaves != [] {
      var a, b := ShapeOfSlide(deck[x]).groups, ShapeOfSlide(deck0[x]).groups;
      assert |a| == |b|;
      forall y | 0 <= y < |a| ensures a[y] == b[y] {
        assert Within(deck, x, y);
      }
    }
    assert Within(deck, 0, 0);
  }

  lemma SortedNumbered(l: Leaf)
    ensures Numbered(Attrs(SortedLeaf(l).fragments), GroupsOf(l.fragments))
    ensures GroupsOf(SortedLeaf(l).fragments) == GroupsOf(l.fragments)
  {
    var attrs := Attrs(l.fragments);
    assert Attrs(SortedLeaf(l).fragments) == Ranks(attrs);
    RanksNumbered(attrs);
    NumberedCount(Ranks(attrs), GroupCount(attrs));
  }

  class Presentation {
    const cfg: Config
    ghost const d: Shape
    var deck: Deck
    var indexh: nat
    var indexv: nat
    /** Where `currentSlide` is; undefined before the first call of `slide`. */
    var current: Option<(nat, nat)>
    /** Whether the timeout in which all stacks forget their vertical index is set. */
    var forgetQueued: bool
    /** The last visible fragment group of the current slide. */
    ghost var k: int

    ghost predicate Showing()
      reads this
    {
      && ValidShape(d) && ShapeOf(deck) == d && AllNumbered(deck) && DeckShows(deck, indexh, indexv, k)
      && (current.Some? ==> current == Some((indexh, indexv)))
    }

    /** The state between calls. */
    ghost predicate Valid()
      reads this
    {
      Showing() && current.Some? && ClassesOk(deck, cfg.rtl, indexh, indexv)
    }

    ghost function View(): V.View
      reads this
    {
      V.View(indexh, indexv, k, MemoryOf(deck))
    }

    ghost function LastGroup(): int
      requires indexh < |d| && indexv < |d[indexh].groups|
      reads this
    {
      var g: int := d[indexh].groups[indexv];
      g - 1
    }

    lemma ShapeFacts()
      requires Showing()
      ensures V.Valid(d, View()) && |deck| == |d| && deck[indexh].stack == d[indexh].stack
      ensures |deck[indexh].leaves| == |d[indexh].groups| && GroupsOf(Frags(deck, indexh, indexv)) == d[indexh].groups[indexv]
      ensures forall x :: 0 <= x < |deck| && !deck[x].stack ==> |deck[x].leaves| == 1
      ensures forall x :: 0 <= x < |deck| ==> deck[x].leaves != [] && deck[x].startV == d[x].startV && deck[x].stack == d[x].stack
      ensures forall x :: 0 <= x < |deck| ==> |deck[x].leaves| == |d[x].groups|
    {
      forall x | 0 <= x < |deck|
        ensures |deck[x].leaves| == |d[x].groups| && deck[x].startV == d[x].startV && deck[x].stack == d[x].stack
      {
        assert d[x] == ShapeOfSlide(deck[x]);
      }
      assert d[indexh] == ShapeOfSlide(deck[indexh]);
    }

    /** Between calls, a fragment is visible exactly if its slide comes before the current one, or is the current one and the
        fragment's group is among the first up to `k`; renumbering all fragments of a slide, or its visible ones alone, gives
        every fragment the index it has. */
    lemma VisiblePrefix(x: nat, y: nat, i: nat)
      requires Valid() && Within(deck, x, y) && i < |Frags(deck, x, y)|
      ensures var frs := Frags(deck, x, y);
        && frs[i].index == Some(Rank(Attrs(frs), i)) && Rank(Attrs(frs), i) < GroupsOf(frs)
        && (frs[i].visible <==> x < indexh || (x == indexh && (y < indexv || (y == indexv && Rank(Attrs(frs), i) <= k))))
      ensures var frs := Frags(deck, x, y);
        var at := VisibleAt(frs, |frs|);
        forall a :: 0 <= a < |at| ==> frs[at[a]].index == Some(Rank(AttrsAt(frs, at), a))
    {
      var frs := Frags(deck, x, y);
      var g: int := GroupsOf(frs);
      assert LeafShows(deck, indexh, indexv, k, x, y) && Numbered(Attrs(frs), GroupsOf(frs));
      NumberedStays(Attrs(frs), GroupsOf(frs), i);
      assert Attrs(frs)[i].value in Explicit(Attrs(frs));
      var level := Level(indexh, indexv, k, x, y, g);
      var at := VisibleAt(frs, |frs|);
      VisibleNumbered(frs, g, level);
      forall a | 0 <= a < |at| ensures frs[at[a]].index == Some(Rank(AttrsAt(frs, at), a)) {
        NumberedStays(AttrsAt(frs, at), level + 1, a);
      }
    }

    /** Exactly the current section is present on the first level; on the second, exactly the current slide if it stands in a
        stack, and none otherwise. The sections before it are past and those behind it future, or the other way round in a
        right-to-left deck, but not within a stack. */
    lemma OnePresent(x: nat, y: nat)
      requires Valid() && Within(deck, x, y)
      ensures indexh < |deck| && indexv < |deck[indexh].leaves|
      ensures deck[x].cls == Present <==> x == indexh
      ensures deck[x].leaves[y].cls == Present <==> x == indexh && y == indexv && deck[x].stack
      ensures x != indexh ==> deck[x].cls == if (x < indexh) != cfg.rtl then Past else Future
      ensures x == indexh && deck[x].stack && y != indexv ==> deck[x].leaves[y].cls == if y < indexv then Past else Future
    {
      assert LeafClassOk(deck, indexh, indexv, x, y);
    }

    lemma SidewaysView(offset: int)
      requires Valid()
      ensures V.Valid(d, View())
      ensures V.Sideways(d, cfg, View(), offset) == V.Slide(d, cfg, View(), Some(indexh + offset), if cfg.grid then Some(indexv) else None, None)
    {
      ShapeFacts();
    }

    // ---------- start ----------

    /** `start()` with an empty hash, on a deck as the author wrote it: any fragment indices, nothing visible, no classes set. */
    constructor (cfg: Config, deck0: Deck)
      requires Untouched(deck0)
      ensures Valid() && this.cfg == cfg && d == ShapeOf(deck0) && View() == Fresh(d)
    {
      this.cfg, this.d := cfg, ShapeOf(deck0);
      deck, indexh, indexv, current, forgetQueued, k := deck0, 0, 0, None, false, -1;
      new;
      SortAllFragments();
      ResetVerticalSlides();
      Started(deck0, cfg.rtl);
      Slide(Some(0), Some(0), None);
      assert View().mem == Fresh(d).mem;
    }

    /** `sortAllFragments()` */
    method SortAllFragments()
      modifies this`deck
      ensures deck == SortedDeck(old(deck))
    {
      for x := 0 to |deck|
        invariant |deck| == |old(deck)|
        invariant forall i :: 0 <= i < |deck| ==> deck[i] == if i < x then SortedSlide(old(deck)[i]) else old(deck)[i]
      {
        var slide := SortSlide(deck[x]);
        deck := deck[x := slide];
      }
    }

    method SortSlide(slide: HSlide) returns (r: HSlide)
      ensures r == SortedSlide(slide)
    {
      var leaves := slide.leaves;
      for y := 0 to |leaves|
        invariant |leaves| == |slide.leaves|
        invariant forall j :: 0 <= j < |leaves| ==> leaves[j] == if j < y then SortedLeaf(slide.leaves[j]) else slide.leaves[j]
      {
        var frs, sorted := SortAll(leaves[y].fragments);
        assert frs == SortedLeaf(leaves[y]).fragments;
        leaves := leaves[y := leaves[y].(fragments := frs)];
      }
      assert leaves == SortedSlide(slide).leaves;
      r := slide.(leaves := leaves);
    }

    /** `resetVerticalSlides()` */
    method ResetVerticalSlides()
      modifies this`deck
      ensures deck == ResetDeck(old(deck))
    {
      for x := 0 to |deck|
        invariant |deck| == |old(deck)|
        invariant forall i :: 0 <= i < |deck| ==> deck[i] == if i < x then ResetSlide(old(deck)[i]) else old(deck)[i]
      {
        if deck[x].stack {
          var leaves := deck[x].leaves;
          for y := 0 to |leaves|
            invariant |leaves| == |deck[x].leaves|
            invariant forall j :: 0 <= j < |leaves| ==>
              leaves[j] == if 0 < j < y then deck[x].leaves[j].(cls := Future) else deck[x].leaves[j]
          {
            if y > 0 { leaves := leaves[y := leaves[y].(cls := Future)]; }
          }
          assert leaves == ResetSlide(deck[x]).leaves;
          deck := deck[x := deck[x].(leaves := leaves)];
        }
      }
    }

    // ---------- fragments ----------

    /** `updateFragments`, given the index to reveal up to and the fragments already sorted */
    method UpdateFragmentsTo(index: Option<int>, sorted: seq<nat>) returns (changed: bool)
      requires Showing() && current.Some?
      requires var n := |Frags(deck, indexh, indexv)|;
        && (forall i :: 0 <= i < n ==> i in sorted) && (forall a :: 0 <= a < |sorted| ==> sorted[a] < n)
        && (forall a, b :: 0 <= a < b < |sorted| ==> sorted[a] != sorted[b])
      modifies this`deck, this`k
      ensures Showing() && k == (if index.Some? then Clamp(index.value, -1, LastGroup()) else -1)
      ensures changed <==> k != old(k)
      ensures MemoryOf(deck) == old(MemoryOf(deck)) && Classes(deck) == old(Classes(deck))
    {
      ShapeFacts();
      var frs := Frags(deck, indexh, indexv);
      assert LeafShows(deck, indexh, indexv, k, indexh, indexv);
      var r;
      r, changed := Reveal(frs, sorted, index);
      RevealShows(frs, k, index, r);
      ghost var k' := if index.Some? then Clamp(index.value, -1, GroupsOf(frs) - 1) else -1;
      SetFragsOther(deck, indexh, indexv, r);
      SetFragsShape(deck, indexh, indexv, r);
      SetFragsShown(deck, indexh, indexv, k, r, k');
      deck, k := SetFrags(deck, indexh, indexv, r), k';
    }

    /** `sortFragments` of the current slide's fragments */
    method SortCurrent() returns (sorted: seq<nat>)
      requires Showing()
      modifies this`deck
      ensures deck == old(deck)
      ensures var n := |Frags(deck, indexh, indexv)|;
        && (forall i :: 0 <= i < n ==> i in sorted) && (forall a :: 0 <= a < |sorted| ==> sorted[a] < n)
        && (forall a, b :: 0 <= a < b < |sorted| ==> sorted[a] != sorted[b])
    {
      SetFragsSame(deck, indexh, indexv);
      var r;
      r, sorted := SortAll(Frags(deck, indexh, indexv));
      deck := SetFrags(deck, indexh, indexv, r);
    }

    /** The index of the last of the visible fragments, which are sorted by themselves */
    method LastVisibleIndex() returns (last: Option<nat>)
      requires Showing()
      modifies this`deck
      ensures deck == old(deck) && last == if k == -1 then None else Some(k as nat)
    {
      assert LeafShows(deck, indexh, indexv, k, indexh, indexv);
      SetFragsSame(deck, indexh, indexv);
      var r;
      r, last := LastVisible(Frags(deck, indexh, indexv), k);
      deck := SetFrags(deck, indexh, indexv, r);
    }

    /** `navigateFragment( index, offset )` */
    method NavigateFragment(index: Option<int>, offset: int) returns (changed: bool)
      requires Showing() && current.Some?
      modifies this`deck, this`k
      ensures Showing() && View() == V.NavigateFragment(d, old(View()), index, offset) && (changed <==> k != old(k))
      ensures Classes(deck) == old(Classes(deck))
    {
      ShapeFacts();
      var sorted := SortCurrent();
      if |Frags(deck, indexh, indexv)| == 0 {
        NoFragments(Frags(deck, indexh, indexv));
        return false;
      }
      var from := index;
      if index.None? {
        var last := LastVisibleIndex();
        from := Some(if last.Some? then last.value else -1);
      }
      changed := UpdateFragmentsTo(Some(from.value + offset), sorted);
    }

    /** `updateFragments()` */
    method UpdateFragments()
      requires Showing() && current.Some?
      modifies this`deck, this`k
      ensures Showing() && View() == old(View())
      ensures Classes(deck) == old(Classes(deck))
    {
      ShapeFacts();
      var sorted := SortCurrent();
      if |Frags(deck, indexh, indexv)| > 0 {
        var last := LastVisibleIndex();
        var changed := UpdateFragmentsTo(if last.Some? then Some(last.value) else None, sorted);
      }
    }

    // ---------- slides ----------

    /** `updateSlides` on the horizontal slides */
    method UpdateHorizontal(index0: int) returns (index: nat)
      requires deck != []
      modifies this`deck
      ensures index == Bounded(cfg, index0, |old(deck)|) && deck == AfterH(old(deck), index, cfg.rtl)
    {
      index := Bounded(cfg, index0, |deck|);
      for i := 0 to |deck|
        invariant |deck| == |old(deck)|
        invariant forall j :: 0 <= j < |deck| ==> deck[j] == if j < i then PassH(old(deck)[j], j, index, cfg.rtl) else old(deck)[j]
      {
        var s := deck[i].(cls := NoClass);
        if i < index {
          s := MapLeaves(s, true).(cls := if cfg.rtl then Future else Past);
        } else if i > index {
          s := MapLeaves(s, false).(cls := if cfg.rtl then Past else Future);
        } else {
          s := s.(cls := Present);
        }
        deck := deck[i := s];
      }
    }

    /** `updateSlides` on the vertical slides of the horizontal slide that is present */
    method UpdateVertical(index0: int) returns (index: nat)
      requires indexh < |deck| && deck[indexh].leaves != []
      modifies this`deck
      ensures index == if old(deck)[indexh].stack then Bounded(cfg, index0, |old(deck)[indexh].leaves|) else 0
      ensures deck == AfterV(old(deck), indexh, index)
    {
      if !deck[indexh].stack { return 0; }
      var slide := deck[indexh];
      var leaves := slide.leaves;
      index := Bounded(cfg, index0, |leaves|);
      for i := 0 to |leaves|
        invariant |leaves| == |slide.leaves|
        invariant forall j :: 0 <= j < |leaves| ==> leaves[j] == if j < i then PassV(slide.leaves[j], j, index) else slide.leaves[j]
      {
        var l := leaves[i].(cls := NoClass);
        if i < index {
          l := Leaf(Past, ShowFrags(l.fragments));
        } else if i > index {
          l := Leaf(Future, HideFrags(l.fragments));
        } else {
          l := l.(cls := Present);
        }
        leaves := leaves[i := l];
      }
      deck := deck[indexh := slide.(leaves := leaves)];
      assert leaves == AfterV(old(deck), indexh, index)[indexh].leaves;
    }

    /** `getPreviousVerticalIndex` of the horizontal slide at `h` */
    method GetPreviousVerticalIndex(h: Option<int>) returns (v: int)
      requires Showing()
      ensures v == RememberedV(d, MemoryOf(deck), h)
    {
      ShapeFacts();
      if h.Some? && 0 <= h.value < |deck| && deck[h.value].stack {
        return if deck[h.value].startV.Some? then deck[h.value].startV.value else deck[h.value].previousV;
      }
      return 0;
    }

    /** Between calls, and also before the first call of `slide`. */
    ghost predicate Ready()
      reads this
    {
      && Showing()
      && if current.Some? then ClassesOk(deck, cfg.rtl, indexh, indexv)
         else PresentOnlyAt(deck, None) && View() == Fresh(d)
    }

    /** A stack that is left remembers its vertical index. */
    method Remember()
      requires Ready()
      modifies this`deck
      ensures Showing() && PresentOnlyAt(deck, current)
      ensures View() == old(View()).(mem := if d[indexh].stack then old(View()).mem[indexh := indexv] else old(View()).mem)
    {
      ShapeFacts();
      ghost var deck0 := deck;
      if current.Some? {
        PresentAt(deck, cfg.rtl, indexh, indexv);
        if deck[current.value.0].stack {
          deck := deck[current.value.0 := deck[current.value.0].(previousV := indexv)];
        }
      }
      Remembered(deck0, deck, indexh, indexv, k, current);
    }

    /** The two calls of `updateSlides`, and the new current slide */
    method UpdateSlides(index: int, target: int)
      requires Showing() && PresentOnlyAt(deck, current)
      modifies this`deck, this`indexh, this`indexv, this`current, this`k
      ensures Showing() && current == Some((indexh, indexv)) && MemoryOf(deck) == old(MemoryOf(deck))
      ensures indexh == Bounded(cfg, index, |d|)
      ensures indexv == if d[indexh].stack then Bounded(cfg, target, |d[indexh].groups|) else 0
      ensures k == Level(old(indexh), old(indexv), old(k), indexh, indexv, d[indexh].groups[indexv])
      ensures ClassesExcept(deck, cfg.rtl, indexh, indexv, old(current))
    {
      ShapeFacts();
      ghost var deck1, h0, v0 := deck, indexh, indexv;
      indexh := UpdateHorizontal(index);
      indexv := UpdateVertical(target);
      current := Some((indexh, indexv));
      assert d[indexh] == ShapeOfSlide(deck1[indexh]);
      k := Level(h0, v0, k, indexh, indexv, GroupsOf(Frags(deck1, indexh, indexv)));
      ShownAfter(deck1, h0, v0, old(k), indexh, indexv, cfg.rtl);
      ShapeAfter(deck1, indexh, indexv, cfg.rtl);
      ClassesAfter(deck1, cfg.rtl, indexh, indexv, old(current));
    }

    /** The first half of `slide` */
    method MoveTo(h: Option<int>, v: Option<int>)
      requires Ready()
      modifies this`deck, this`indexh, this`indexv, this`current, this`k
      ensures Showing() && current == Some((indexh, indexv)) && View() == V.Slide(d, cfg, old(View()), h, v, None)
      ensures ClassesExcept(deck, cfg.rtl, indexh, indexv, old(current))
    {
      ShapeFacts();
      var target: int;
      if v.Some? { target := v.value; } else { target := GetPreviousVerticalIndex(h); }
      Remember();
      ghost var s := View();
      UpdateSlides(if h.Some? then h.value else indexh, target);
      SlideParts(d, cfg, old(View()), h, v, s.mem, View(), target);
    }

    /** `slide( h, v, f )` */
    method Slide(h: Option<int>, v: Option<int>, f: Option<int>)
      requires Ready()
      modifies this
      ensures Valid() && View() == V.Slide(d, cfg, old(View()), h, v, f)
    {
      var previous, h0, v0 := current, indexh, indexv;
      MoveTo(h, v);
      ghost var deck1 := deck;
      SlideFragment(d, cfg, old(View()), h, v, f);
      if f.Some? { var changed := NavigateFragment(f, 0); }
      SameClasses(deck1, deck, cfg.rtl, indexh, indexv, previous);
      FinishSlide(previous, h0, v0);
    }

    /** The rest of `slide`: the slide that was left is no longer present, and the fragments are refreshed. Coming back to the
        first section queues the timeout in which all stacks forget their index. */
    method FinishSlide(previous: Option<(nat, nat)>, h0: nat, v0: nat)
      requires Showing() && current.Some? && ClassesExcept(deck, cfg.rtl, indexh, indexv, previous)
      requires previous.Some? ==> previous == Some((h0, v0)) && Within(deck, h0, v0)
      modifies this`deck, this`forgetQueued, this`k
      ensures Valid() && View() == old(View())
      ensures forgetQueued <==> old(forgetQueued) || (previous.Some? && indexh == 0 && (indexh != h0 || indexv != v0))
    {
      var slideChanged := indexh != h0 || indexv != v0;
      if slideChanged && previous.Some? {
        RemovePresent(previous.value);
        if deck[0].cls == Present { forgetQueued := true; }
      } else {
        NoneLeft(deck, cfg.rtl, indexh, indexv, previous);
      }
      ghost var deck2 := deck;
      UpdateFragments();
      SameClasses(deck2, deck, cfg.rtl, indexh, indexv, None);
    }

    method RemovePresent(at: (nat, nat))
      requires Showing() && Within(deck, at.0, at.1) && at != (indexh, indexv)
      requires ClassesExcept(deck, cfg.rtl, indexh, indexv, Some(at))
      modifies this`deck
      ensures Showing() && View() == old(View()) && ClassesOk(deck, cfg.rtl, indexh, indexv)
    {
      ShapeFacts();
      PresentRemoved(deck, cfg.rtl, indexh, indexv, at);
      ghost var was := deck;
      var s := deck[at.0];
      if s.stack {
        deck := deck[at.0 := s.(leaves := s.leaves[at.1 := s.leaves[at.1].(cls := Cleared(s.leaves[at.1].cls))])];
      } else {
        deck := deck[at.0 := s.(cls := Cleared(s.cls))];
      }
      forall x, y | Within(deck, x, y)
        ensures LeafShows(deck, indexh, indexv, k, x, y) && Numbered(Attrs(Frags(deck, x, y)), GroupsOf(Frags(deck, x, y)))
      {
        assert LeafShows(was, indexh, indexv, k, x, y) && Numbered(Attrs(Frags(was, x, y)), GroupsOf(Frags(was, x, y)));
      }
    }

    // ---------- navigation ----------

    /** `availableRoutes()` */
    method AvailableRoutes() returns (r: Routes)
      requires Valid()
      ensures r == V.AvailableRoutes(d, cfg, View())
    {
      ShapeFacts();
      var vertical := if deck[indexh].stack then |deck[indexh].leaves| else 0;
      r := Routes(indexh > 0, indexh < |deck| - 1, indexv > 0, indexv < vertical - 1);
      if cfg.loop {
        if |deck| > 1 { r := r.(left := true, right := true); }
        if vertical > 1 { r := r.(up := true, down := true); }
      }
      if cfg.rtl { r := r.(left := r.right, right := r.left); }
    }

    /** `previousFragment()` for -1, `nextFragment()` for 1 */
    method StepFragment(offset: int) returns (changed: bool)
      requires Valid()
      modifies this
      ensures Valid() && View() == V.NavigateFragment(d, old(View()), None, offset) && (changed <==> k != old(k))
      ensures !changed ==> View() == old(View())
    {
      ghost var was := deck;
      changed := NavigateFragment(None, offset);
      SameClasses(was, deck, cfg.rtl, indexh, indexv, None);
    }

    /** `slide( indexh + offset, grid ? indexv : undefined )` */
    method GoSideways(offset: int)
      requires Valid()
      modifies this
      ensures Valid() && View() == V.Sideways(d, cfg, old(View()), offset)
    {
      SidewaysView(offset);
      Slide(Some(indexh + offset), if cfg.grid then Some(indexv) else None, None);
    }

    method NavigateLeft()
      requires Valid()
      modifies this
      ensures Valid() && View() == V.NavigateLeft(d, cfg, old(View()))
    {
      var changed := StepFragment(if cfg.rtl then 1 else -1);
      if !changed {
        var routes := AvailableRoutes();
        if routes.left { GoSideways(if cfg.rtl then 1 else -1); }
      }
    }

    method NavigateRight()
      requires Valid()
      modifies this
      ensures Valid() && View() == V.NavigateRight(d, cfg, old(View()))
    {
      var changed := StepFragment(if cfg.rtl then -1 else 1);
      if !changed {
        var routes := AvailableRoutes();
        if routes.right { GoSideways(if cfg.rtl then -1 else 1); }
      }
    }

    method NavigateUp()
      requires Valid()
      modifies this
      ensures Valid() && View() == V.NavigateUp(d, cfg, old(View()))
    {
      var changed := StepFragment(-1);
      if !changed {
        var routes := AvailableRoutes();
        if routes.up { Slide(Some(indexh), Some(indexv - 1), None); }
      }
    }

    method NavigateDown()
      requires Valid()
      modifies this
      ensures Valid() && View() == V.NavigateDown(d, cfg, old(View()))
    {
      var changed := StepFragment(1);
      if !changed {
        var routes := AvailableRoutes();
        if routes.down { Slide(Some(indexh), Some(indexv + 1), None); }
      }
    }

    /** Whether some horizontal slide lies behind the current one, and the last of these: `.past`, or `.future` in a right-to-left deck */
    method LastPassed() returns (x: Option<nat>)
      requires Valid()
      ensures x == if indexh > 0 then Some(indexh - 1) else None
    {
      x := None;
      for i := 0 to |deck|
        invariant x == if indexh > 0 && i > 0 then Some(if i <= indexh then i - 1 else indexh - 1) else None
      {
        if deck[i].cls == (if cfg.rtl then Future else Past) { x := Some(i); }
      }
    }

    method NavigatePrev()
      requires Valid()
      modifies this
      ensures Valid() && View() == V.NavigatePrev(d, cfg, old(View()))
    {
      var changed := StepFragment(-1);
      if !changed {
        var routes := AvailableRoutes();
        if routes.up {
          NavigateUp();
        } else {
          var passed := LastPassed();
          if passed.Some? {
            ShapeFacts();
            var n := if deck[passed.value].stack then |deck[passed.value].leaves| else 0;
            Slide(Some(indexh - 1), if n - 1 == 0 then None else Some(n - 1), None);
          }
        }
      }
    }

    method NavigateNext()
      requires Valid()
      modifies this
      ensures Valid() && View() == V.NavigateNext(d, cfg, old(View()))
    {
      var changed := StepFragment(1);
      if !changed {
        ShapeFacts();
        var routes := AvailableRoutes();
        if routes.down && routes.right && cfg.loop && deck[indexh].stack && indexv == |deck[indexh].leaves| - 1 {
          routes := routes.(down := false);
        }
        if routes.down { NavigateDown(); } else if cfg.rtl { NavigateLeft(); } else { NavigateRight(); }
      }
    }

    /** The timeout set on returning to the first slide */
    method Forget()
      requires Valid()
      modifies this`deck, this`forgetQueued
      ensures Valid() && View() == ForgetAll(old(View()))
    {
      ghost var was := deck;
      for i := 0 to |deck|
        invariant |deck| == |was|
        invariant forall j :: 0 <= j < |was| ==> deck[j] == if j < i then was[j].(previousV := 0) else was[j]
      {
        deck := deck[i := deck[i].(previousV := 0)];
      }
      forgetQueued := false;
      Forgotten(was, deck, cfg.rtl, indexh, indexv, k);
    }

    // ---------- queries ----------

    /** `getSlidePastCount()` */
    method GetSlidePastCount() returns (count: nat)
      requires Valid()
      ensures V.Valid(d, View()) && count == N.PastCount(d, View())
    {
      ShapeFacts();
      count := 0;
      assert d[..0] == [];
      for i := 0 to |deck|
        invariant i <= indexh && count == N.Leaves(d[..i])
      {
        var verticals := if deck[i].stack then |deck[i].leaves| else 0;
        for j := 0 to verticals
          invariant count == N.Leaves(d[..i]) + j && (i == indexh ==> j <= indexv)
        {
          assert LeafClassOk(deck, indexh, indexv, i, j);
          if deck[i].leaves[j].cls == Present { return; }
          count := count + 1;
        }
        if deck[i].cls == Present { return; }
        if !deck[i].stack { count := count + 1; }
        N.LeavesStep(d, i);
      }
    }

    /** `getTotalSlides()` */
    method GetTotalSlides() returns (total: nat)
      requires Valid()
      ensures total == N.Leaves(d)
    {
      ShapeFacts();
      total := 0;
      assert d[..0] == [] && d[..|d|] == d;
      for i := 0 to |deck|
        invariant total == N.Leaves(d[..i])
      {
        total := total + if deck[i].stack then |deck[i].leaves| else 1;
        N.LeavesStep(d, i);
      }
    }

    /** `getProgress()`: between the share of the slides before the current one and the share up to it. None is NaN, which
        a deck of one slide gives while none of its fragments is visible. All fragments of a slide together count for 0.9 of it. */
    method GetProgress() returns (p: Option<real>)
      requires Valid()
      ensures p.Some? ==> 0.0 <= p.value <= 1.0
      ensures V.Valid(d, View()) && N.PastCount(d, View()) < N.Leaves(d)
      ensures N.Leaves(d) >= 2 ==> p.Some? && N.InSlot(p.value, N.PastCount(d, View()), N.Leaves(d) - 1)
      ensures N.Leaves(d) >= 2 && VisibleAt(Frags(deck, indexh, indexv), |Frags(deck, indexh, indexv)|) == []
        ==> p == Some(N.PastCount(d, View()) as real / (N.Leaves(d) - 1) as real)
      ensures N.Leaves(d) >= 2 && |VisibleAt(Frags(deck, indexh, indexv), |Frags(deck, indexh, indexv)|)| == |Frags(deck, indexh, indexv)| > 0
        ==> var q := (N.PastCount(d, View()) as real + 0.9) / (N.Leaves(d) - 1) as real; p == Some(if q > 1.0 then 1.0 else q)
    {
      ShapeFacts();
      var total := GetTotalSlides();
      var past := GetSlidePastCount();
      N.PastCountIsRank(d, View(), View());
      var count: real := past as real;
      var frs := Frags(deck, indexh, indexv);
      var visible := VisibleAt(frs, |frs|);
      if |frs| > 0 {
        N.FragmentShare(past, |visible|, |frs|);
        count := count + (|visible| as real / |frs| as real) * 0.9;
      }
      if total == 1 { return if count == 0.0 then None else Some(1.0); }
      var q := count / (total - 1) as real;
      N.Slot(count, past, total - 1);
      p := Some(if q > 1.0 then 1.0 else q);
    }

    /** `getIndices().f`: the index of the first fragment marked current, or the number of visible fragments less one */
    method CurrentFragmentIndex() returns (f: Option<int>)
      requires Valid()
      ensures V.Valid(d, View()) && N.Reports(d, View(), f)
    {
      ShapeFacts();
      var frs := Frags(deck, indexh, indexv);
      assert LeafShows(deck, indexh, indexv, k, indexh, indexv);
      if |frs| == 0 {
        NoFragments(frs);
        return None;
      }
      SomeFragment(frs);
      for i := 0 to |frs|
        invariant forall j :: 0 <= j < i ==> !frs[j].current
      {
        if frs[i].current { return Some(frs[i].index.value); }
      }
      VisibleCount(frs, k);
      return Some(|VisibleAt(frs, |frs|)| - 1);
    }

    // ---------- snapshots and the URL ----------

    /** `getState()`, the overview and the pause aside */
    method GetState() returns (h: nat, v: nat, f: Option<int>)
      requires Valid()
      ensures V.Valid(d, View()) && h == indexh && v == indexv && N.Reports(d, View(), f)
    {
      f := CurrentFragmentIndex();
      h, v := indexh, indexv;
    }

    /** `setState( { indexh, indexv, indexf } )` with a snapshot taken of view `s` of this deck shows `s` again. */
    method SetState(h: nat, v: nat, f: Option<int>, ghost s: V.View)
      requires Valid() && V.Valid(d, s) && s.h == h && s.v == v && N.Reports(d, s, f)
      modifies this
      ensures Valid() && Same(View(), s)
    {
      ShapeFacts();
      N.SnapshotRestores(d, cfg, s, f, View());
      Slide(Some(h), Some(v), f);
    }

    /** `locationHash()` of a slide without an id */
    method LocationHash() returns (url: string)
      requires Valid()
      ensures V.Valid(d, View()) && exists f :: N.Reports(d, View(), f) && url == H.LocationHash(cfg, indexh, indexv, f)
    {
      var f := CurrentFragmentIndex();
      url := H.LocationHash(cfg, indexh, indexv, f);
    }

    /** `readURL()` */
    method ReadUrl(hash: string)
      requires Valid() && H.ReadHash(cfg, hash).Indexed?
      modifies this
      ensures Valid() && View() == H.ReadUrl(d, cfg, old(View()), hash)
    {
      ShapeFacts();
      match H.ReadHash(cfg, hash) {
        case Indexed(h, v, f) =>
          if h != indexh || v != indexv || f.Some? { Slide(Some(h), Some(v), f); }
      }
    }
  }

  lemma SlideParts(d: Shape, cfg: Config, s: V.View, h: Option<int>, v: Option<int>, mem: seq<nat>, r: V.View, target: int)
    requires V.Valid(d, s) && mem == (if d[s.h].stack then s.mem[s.h := s.v] else s.mem)
    requires target == if v.Some? then v.value else RememberedV(d, s.mem, h)
    requires r.h == Bounded(cfg, if h.Some? then h.value else s.h, |d|) && r.mem == mem
    requires r.v == if d[r.h].stack then Bounded(cfg, target, |d[r.h].groups|) else 0
    requires r.k == Level(s.h, s.v, s.k, r.h, r.v, d[r.h].groups[r.v])
    ensures r == V.Slide(d, cfg, s, h, v, None)
  {
  }

  lemma SlideFragment(d: Shape, cfg: Config, s: V.View, h: Option<int>, v: Option<int>, f: Option<int>)
    requires V.Valid(d, s)
    ensures var r := V.Slide(d, cfg, s, h, v, None);
      V.Slide(d, cfg, s, h, v, f) == if f.Some? then V.NavigateFragment(d, r, f, 0) else r
  {
  }

  /** Setting the remembered vertical index of a slide changes neither classes nor fragments. */
  lemma Remembered(a: Deck, b: Deck, h: nat, v: nat, k: int, at: Option<(nat, nat)>)
    requires AllNumbered(a) && DeckShows(a, h, v, k)
    requires |b| == |a| && b == a[h := a[h].(previousV := b[h].previousV)]
    ensures AllNumbered(b) && DeckShows(b, h, v, k) && ShapeOf(b) == ShapeOf(a)
    ensures MemoryOf(b) == MemoryOf(a)[h := b[h].previousV]
    ensures PresentOnlyAt(a, at) ==> PresentOnlyAt(b, at)
  {
    forall x, y | Within(b, x, y)
      ensures LeafShows(b, h, v, k, x, y) && Numbered(Attrs(Frags(b, x, y)), GroupsOf(Frags(b, x, y)))
    {
      assert LeafShows(a, h, v, k, x, y) && Numbered(Attrs(Frags(a, x, y)), GroupsOf(Frags(a, x, y)));
    }
    forall x | 0 <= x < |a| ensures ShapeOfSlide(b[x]) == ShapeOfSlide(a[x]) {}
  }

  lemma Forgotten(a: Deck, b: Deck, rtl: bool, h: nat, v: nat, k: int)
    requires AllNumbered(a) && DeckShows(a, h, v, k) && ClassesOk(a, rtl, h, v)
    requires |b| == |a| && forall j :: 0 <= j < |a| ==> b[j] == a[j].(previousV := 0)
    ensures AllNumbered(b) && DeckShows(b, h, v, k) && ClassesOk(b, rtl, h, v) && ShapeOf(b) == ShapeOf(a)
    ensures MemoryOf(b) == seq(|a|, _ => 0)
  {
    forall x, y | Within(b, x, y)
      ensures LeafShows(b, h, v, k, x, y) && Numbered(Attrs(Frags(b, x, y)), GroupsOf(Frags(b, x, y))) && LeafClassOk(b, h, v, x, y)
    {
      assert LeafShows(a, h, v, k, x, y) && Numbered(Attrs(Frags(a, x, y)), GroupsOf(Frags(a, x, y))) && LeafClassOk(a, h, v, x, y);
    }
    forall x | 0 <= x < |a| ensures ShapeOfSlide(b[x]) == ShapeOfSlide(a[x]) {}
  }

  lemma SomeFragment(frs: seq<Fragment>)
    requires frs != []
    ensures GroupsOf(frs) > 0
  {
    RanksContiguous(Attrs(frs), Rank(Attrs(frs), 0));
  }

  /** When no fragment is marked because all or none are visible, the visible count less one still reaches exactly these groups. */
  lemma VisibleCount(frs: seq<Fragment>, k: int)
    requires Numbered(Attrs(frs), GroupsOf(frs)) && Shows(frs, k) && GroupsOf(frs) > 0
    requires MarkedAt(frs, k) || k == -1 || k == GroupsOf(frs) - 1
    requires forall i :: 0 <= i < |frs| ==> !frs[i].current
    requires -1 <= k < GroupsOf(frs)
    ensures var n := |VisibleAt(frs, |frs|)|; if k == -1 then n == 0 else k == GroupsOf(frs) - 1 && n >= GroupsOf(frs)
  {
    if k == -1 {
      NoneVisible(frs, |frs|);
    } else {
      if MarkedAt(frs, k) { SomeMarked(frs, k); }
      VisibleNumbered(frs, GroupsOf(frs), k);
      NumberedSize(AttrsAt(frs, VisibleAt(frs, |frs|)), k + 1);
    }
  }

  lemma NoneVisible(frs: seq<Fragment>, n: nat)
    requires n <= |frs| && forall i :: 0 <= i < n ==> !frs[i].visible
    ensures VisibleAt(frs, n) == []
  {
  }

  lemma SomeMarked(frs: seq<Fragment>, k: nat)
    requires Numbered(Attrs(frs), GroupsOf(frs)) && MarkedAt(frs, k) && k < GroupsOf(frs)
    ensures exists i :: 0 <= i < |frs| && frs[i].current
  {
    var i := HolderOf(Attrs(frs), k);
    assert frs[i].current;
  }

  /** As many fragments as groups at least. */
  lemma {:induction false} NumberedSize(attrs: seq<Option<nat>>, n: nat)
    requires Numbered(attrs, n)
    ensures n <= |attrs|
  {
    var s := Explicit(attrs);
    BelowRange(s, n, n);
    assert Lower(s, n) == s;
    ExplicitSize(attrs);
  }

  lemma ExplicitSize(attrs: seq<Option<nat>>)
    ensures |Explicit(attrs)| <= |attrs|
  {
    if attrs != [] {
      var n := |attrs| - 1;
      ExplicitSize(attrs[..n]);
      ExplicitStep(attrs, n);
      assert attrs[..n + 1] == attrs;
      var a, b := Explicit(attrs[..n]), Explicit(attrs);
      if attrs[n].Some? { assert b == a + {attrs[n].value}; } else { assert b == a; }
    }
  }

  lemma NoFragments(frs: seq<Fragment>)
    requires frs == []
    ensures GroupsOf(frs) == 0
  {
    assert Explicit(Attrs(frs)) == {};
  }
}
